/**
 * The operations of Rust's `str` that the core relies on: `contains`,
 * `split` (with a string or a character pattern) and `replace`.  A Rust
 * `String` is modelled as a sequence of characters, one per byte.
 */
module Text {
  import opened Arith

  /** `p` occurs in `s` at index `i`. */
  predicate OccursAt(s: string, p: string, i: nat) {
    i + |p| <= |s| && s[i..i + |p|] == p
  }

  /** A text put between two others occurs where it was put, so the whole contains it. */
  lemma ContainsInfix(a: string, p: string, b: string)
    ensures OccursAt(a + p + b, p, |a|)
    ensures Contains(a + p + b, p)
  {
    var s := a + p + b;
    assert s[|a|..|a| + |p|] == p;
    assert OccursAt(s, p, |a|);
    ContainsIffOccurs(s, p);
  }

  /** No occurrence of `p` in `s` starts before index `n`. */
  ghost predicate NoOccurrenceBefore(s: string, p: string, n: nat) {
    forall i: nat :: i < n ==> !OccursAt(s, p, i)
  }

  /** `s.contains(p)`, scanning left to right. */
  function Contains(s: string, p: string): bool
    decreases |s|
  {
    if |s| < |p| then false
    else if |p| == 0 || s[..|p|] == p then true
    else Contains(s[1..], p)
  }

  lemma {:induction false} ContainsIffOccurs(s: string, p: string)
    ensures Contains(s, p) <==> exists i: nat :: OccursAt(s, p, i)
    decreases |s|
  {
    if |s| < |p| {
    } else if |p| == 0 || s[..|p|] == p {
      assert OccursAt(s, p, 0);
    } else {
      ContainsIffOccurs(s[1..], p);
      assert !OccursAt(s, p, 0);
      forall i: nat | OccursAt(s[1..], p, i) ensures OccursAt(s, p, i + 1) {
        assert s[1..][i..i + |p|] == s[i + 1..i + 1 + |p|];
      }
      forall i: nat | OccursAt(s, p, i) ensures i >= 1 && OccursAt(s[1..], p, i - 1) {
        assert s[1..][i - 1..i - 1 + |p|] == s[i..i + |p|];
      }
    }
  }

  /**
   * `s.split(sep)` collected into a sequence: the pieces between the
   * non-overlapping occurrences of `sep`, found left to right.  There is
   * always at least one piece.
   */
  function Split(s: string, sep: string): (pieces: seq<string>)
    requires |sep| > 0
    ensures |pieces| >= 1
    decreases |s|
  {
    if |s| < |sep| then [s]
    else if s[..|sep|] == sep then [[]] + Split(s[|sep|..], sep)
    else
      var rest := Split(s[1..], sep);
      [[s[0]] + rest[0]] + rest[1..]
  }

  /** The pieces joined back together with `sep` between each two. */
  function Join(pieces: seq<string>, sep: string): string
    requires |pieces| >= 1
    decreases |pieces|
  {
    if |pieces| == 1 then pieces[0] else pieces[0] + sep + Join(pieces[1..], sep)
  }

  lemma JoinConsChar(c: char, pieces: seq<string>, sep: string)
    requires |pieces| >= 1
    ensures Join([[c] + pieces[0]] + pieces[1..], sep) == [c] + Join(pieces, sep)
  {
    var joined := [[c] + pieces[0]] + pieces[1..];
    if |pieces| > 1 {
      assert joined[1..] == pieces[1..];
    }
  }

  /** Splitting loses nothing: joining the pieces with the separator gives the text back. */
  lemma {:induction false} JoinSplit(s: string, sep: string)
    requires |sep| > 0
    ensures Join(Split(s, sep), sep) == s
    decreases |s|
  {
    if |s| < |sep| {
    } else if s[..|sep|] == sep {
      var rest := Split(s[|sep|..], sep);
      assert Split(s, sep) == [[]] + rest;
      assert Join([[]] + rest, sep) == [] + sep + Join(rest, sep) by {
        assert ([[]] + rest)[1..] == rest;
      }
      assert Join(rest, sep) == s[|sep|..] by {
        JoinSplit(s[|sep|..], sep);
      }
      assert s == [] + sep + s[|sep|..];
    } else {
      var rest := Split(s[1..], sep);
      assert Split(s, sep) == [[s[0]] + rest[0]] + rest[1..];
      assert Join([[s[0]] + rest[0]] + rest[1..], sep) == [s[0]] + Join(rest, sep) by {
        JoinConsChar(s[0], rest, sep);
      }
      assert Join(rest, sep) == s[1..] by {
        JoinSplit(s[1..], sep);
      }
      assert s == [s[0]] + s[1..];
    }
  }

  /** A text without the separator is one piece. */
  lemma {:induction false} SplitWithoutOccurrence(s: string, sep: string)
    requires |sep| > 0 && !Contains(s, sep)
    ensures Split(s, sep) == [s]
    decreases |s|
  {
    if |s| >= |sep| {
      SplitWithoutOccurrence(s[1..], sep);
      assert s == [s[0]] + s[1..];
    }
  }

  /** The first piece ends at the first occurrence of the separator. */
  lemma {:induction false} SplitAtFirst(pre: string, sep: string, post: string)
    requires |sep| > 0
    requires NoOccurrenceBefore(pre + sep + post, sep, |pre|)
    ensures Split(pre + sep + post, sep) == [pre] + Split(post, sep)
    decreases |pre|
  {
    var s := pre + sep + post;
    if |pre| == 0 {
      assert s[..|sep|] == sep && s[|sep|..] == post;
    } else {
      assert !OccursAt(s, sep, 0);
      assert s[..|sep|] != sep;
      assert s[1..] == pre[1..] + sep + post;
      forall i: nat | i < |pre[1..]| ensures !OccursAt(s[1..], sep, i) {
        assert !OccursAt(s, sep, i + 1);
        assert s[1..][i..i + |sep|] == s[i + 1..i + 1 + |sep|];
      }
      SplitAtFirst(pre[1..], sep, post);
      assert [pre[0]] + pre[1..] == pre;
    }
  }

  /** Splitting at a character leaves that character in none of the pieces. */
  lemma {:induction false} SplitCharPieces(s: string, c: char)
    ensures forall k :: 0 <= k < |Split(s, [c])| ==> c !in Split(s, [c])[k]
    decreases |s|
  {
    if |s| >= 1 {
      if s[..1] == [c] {
        SplitCharPieces(s[1..], c);
        assert Split(s, [c])[1..] == Split(s[1..], [c]);
      } else {
        SplitCharPieces(s[1..], c);
        assert s[0] != c by { assert s[..1][0] == s[0]; }
        var rest := Split(s[1..], [c]);
        assert Split(s, [c])[1..] == rest[1..];
      }
    }
  }

  /** A character missing from the text is missing from every piece. */
  lemma {:induction false} SplitKeepsAbsent(s: string, sep: string, c: char)
    requires |sep| > 0 && c !in s
    ensures forall k :: 0 <= k < |Split(s, sep)| ==> c !in Split(s, sep)[k]
    decreases |s|
  {
    if |s| >= |sep| {
      if s[..|sep|] == sep {
        assert forall x :: x in s[|sep|..] ==> x in s;
        SplitKeepsAbsent(s[|sep|..], sep, c);
        assert Split(s, sep)[1..] == Split(s[|sep|..], sep);
      } else {
        assert forall x :: x in s[1..] ==> x in s;
        SplitKeepsAbsent(s[1..], sep, c);
        var rest := Split(s[1..], sep);
        assert Split(s, sep)[1..] == rest[1..];
      }
    }
  }

  /** A character that is absent from `pre` does not occur before its end. */
  lemma CharAbsentBefore(pre: string, c: char, post: string)
    requires c !in pre
    ensures NoOccurrenceBefore(pre + [c] + post, [c], |pre|)
  {
    var s := pre + [c] + post;
    forall i: nat | i < |pre| ensures !OccursAt(s, [c], i) {
      assert s[i..i + 1] == [pre[i]];
    }
  }

  /** Splitting on a character: a prefix without it stays in the first piece. */
  lemma {:induction false} SplitCharKeepsPrefix(pre: string, c: char, post: string)
    requires c !in pre
    ensures Split(pre + post, [c])[0] == pre + Split(post, [c])[0]
    decreases |pre|
  {
    if |pre| > 0 {
      var s := pre + post;
      assert pre[0] != c;
      assert s[..1] == [pre[0]] != [c];
      assert s[1..] == pre[1..] + post;
      SplitCharKeepsPrefix(pre[1..], c, post);
      var rest := Split(s[1..], [c]);
      assert Split(s, [c])[0] == [s[0]] + rest[0];
      assert [pre[0]] + pre[1..] == pre;
    } else {
      assert pre + post == post;
    }
  }

  /**
   * `s.replace(from, to)`: every non-overlapping occurrence of `from`,
   * found left to right, is replaced by `to`.
   */
  function ReplaceAll(s: string, from: string, to: string): string
    requires |from| > 0
    decreases |s|
  {
    if |s| < |from| then s
    else if s[..|from|] == from then to + ReplaceAll(s[|from|..], from, to)
    else [s[0]] + ReplaceAll(s[1..], from, to)
  }

  /** Replacing is splitting at every occurrence and joining with the replacement. */
  lemma {:induction false} ReplaceIsSplitJoin(s: string, from: string, to: string)
    requires |from| > 0
    ensures ReplaceAll(s, from, to) == Join(Split(s, from), to)
    decreases |s|
  {
    if |s| < |from| {
    } else if s[..|from|] == from {
      ReplaceIsSplitJoin(s[|from|..], from, to);
      var pieces := [[]] + Split(s[|from|..], from);
      assert pieces[1..] == Split(s[|from|..], from);
    } else {
      ReplaceIsSplitJoin(s[1..], from, to);
      JoinConsChar(s[0], Split(s[1..], from), to);
    }
  }

  /** A prefix in which the pattern's first character is absent is copied unchanged. */
  lemma {:induction false} ReplaceSkipsPrefix(pre: string, post: string, from: string, to: string)
    requires |from| > 0 && from[0] !in pre
    ensures ReplaceAll(pre + post, from, to) == pre + ReplaceAll(post, from, to)
    decreases |pre|
  {
    var s := pre + post;
    if |pre| == 0 {
      assert s == post;
    } else {
      assert s[0] == pre[0];
      assert ReplaceAll(s, from, to) == [s[0]] + ReplaceAll(s[1..], from, to) by {
        if |s| >= |from| {
          assert s[..|from|][0] == pre[0] != from[0];
        }
      }
      assert s[1..] == pre[1..] + post;
      ReplaceSkipsPrefix(pre[1..], post, from, to);
      assert [pre[0]] + pre[1..] == pre;
    }
  }

  /** An occurrence at the start is replaced and the scan goes on after it. */
  lemma ReplaceAtStart(from: string, post: string, to: string)
    requires |from| > 0
    ensures ReplaceAll(from + post, from, to) == to + ReplaceAll(post, from, to)
  {
    var s := from + post;
    assert s[..|from|] == from && s[|from|..] == post;
  }

  /** Replacing a pattern by itself changes nothing. */
  lemma ReplaceByItself(s: string, p: string)
    requires |p| > 0
    ensures ReplaceAll(s, p, p) == s
  {
    ReplaceIsSplitJoin(s, p, p);
    JoinSplit(s, p);
  }

  /** The number of non-overlapping occurrences of `p`, counted as `ReplaceAll` finds them. */
  function Count(s: string, p: string): nat
    requires |p| > 0
    decreases |s|
  {
    if |s| < |p| then 0
    else if s[..|p|] == p then 1 + Count(s[|p|..], p)
    else Count(s[1..], p)
  }

  lemma {:induction false} CountPositiveIffContains(s: string, p: string)
    requires |p| > 0
    ensures Count(s, p) > 0 <==> Contains(s, p)
    decreases |s|
  {
    if |s| >= |p| && s[..|p|] != p {
      CountPositiveIffContains(s[1..], p);
    }
  }

  /** Every replaced occurrence changes the length by `|to| - |from|`. */
  lemma {:induction false} ReplaceLength(s: string, from: string, to: string)
    requires |from| > 0
    ensures |ReplaceAll(s, from, to)| == |s| + Count(s, from) * (|to| - |from|)
    decreases |s|
  {
    var d := |to| - |from|;
    if |s| < |from| {
    } else if s[..|from|] == from {
      var rest := s[|from|..];
      ReplaceLength(rest, from, to);
      var k := Count(rest, from);
      assert Count(s, from) == 1 + k;
      assert |ReplaceAll(s, from, to)| == |to| + |ReplaceAll(rest, from, to)|;
      MulSucc(k, d);
    } else {
      ReplaceLength(s[1..], from, to);
    }
  }

  /** A text without the pattern is returned unchanged. */
  lemma {:induction false} ReplaceWithoutOccurrence(s: string, from: string, to: string)
    requires |from| > 0 && !Contains(s, from)
    ensures ReplaceAll(s, from, to) == s
    decreases |s|
  {
    if |s| >= |from| {
      ReplaceWithoutOccurrence(s[1..], from, to);
      assert s == [s[0]] + s[1..];
    }
  }

  /**
   * When the replacement has another length than the pattern, the text is
   * unchanged exactly when it does not contain the pattern.
   */
  lemma ReplaceUnchangedIff(s: string, from: string, to: string)
    requires |from| > 0 && |to| != |from|
    ensures ReplaceAll(s, from, to) == s <==> !Contains(s, from)
  {
    if Contains(s, from) {
      CountPositiveIffContains(s, from);
      ReplaceLength(s, from, to);
      MulNonZero(Count(s, from), |to| - |from|);
      assert |ReplaceAll(s, from, to)| != |s|;
    } else {
      ReplaceWithoutOccurrence(s, from, to);
    }
  }

  /** `k` copies of `x`. */
  function Repeat<T>(x: T, k: nat): (r: seq<T>)
    ensures |r| == k && forall i :: 0 <= i < k ==> r[i] == x
  {
    if k == 0 then [] else Repeat(x, k - 1) + [x]
  }

  /** The pieces written one after the other. */
  function Flatten(pieces: seq<string>): string {
    if |pieces| == 0 then [] else pieces[0] + Flatten(pieces[1..])
  }
}
