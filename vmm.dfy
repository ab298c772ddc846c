/**
 * The host side of the agent wire protocol (api/src/vmm/mod.rs): the
 * length-prefixed framing of outbound messages, the classification of
 * inbound lines, and the read loop of `listen` that answers the agent's
 * `ready` status with the request and accumulates everything else.
 *
 * The socket is modelled by the sequence of lines the agent sends (already
 * split by the line reader, terminators removed) and by an `AgentStream`
 * that logs every write.  The request reaches this module as its JSON
 * serialisation.
 */
module Vmm {
  import opened Wrappers
  import opened Text
  import opened Digits

  /** `vmm::Error`; the hypervisor's own error values are kept as text. */
  datatype Error =
    | VmmNew(cause: string)
    | VmmConfigure(cause: string)
    | VmmRun(cause: string)
    | BadAgentStatus
    | NoIPAvalaible

  // ---------------------------------------------------------------------
  // Framing

  /** Width of the decimal length prefix. */
  const PrefixWidth: nat := 8

  /** The first payload length whose decimal rendering no longer fits the prefix. */
  const MaxPayload: nat := 100_000_000

  lemma MaxPayloadIsPow10()
    ensures Pow10(PrefixWidth) == MaxPayload
  {
  }

  /**
   * `format_message`: the payload's length in decimal, zero-filled on the
   * left to width 8, then the payload.  The prefix is exactly 8 digits
   * while the payload is shorter than 10^8; a longer payload gets a longer
   * prefix, since `{:0>8}` never truncates.
   */
  function FormatMessage(message: string): (frame: string)
    ensures |frame| >= PrefixWidth + |message|
    ensures |message| < MaxPayload ==> |frame| == PrefixWidth + |message|
    ensures frame[|frame| - |message|..] == message
    ensures AllDigits(frame[..|frame| - |message|])
    ensures |message| >= MaxPayload ==> frame[0] != '0'
  {
    var prefix := PadLeft(ToDecimal(|message|), '0', PrefixWidth);
    LengthPrefix(|message|);
    var frame := prefix + message;
    assert frame[..|frame| - |message|] == prefix;
    assert frame[0] == prefix[0];
    frame
  }

  /** The digits in front of the message denote the message's length. */
  lemma FramePrefixDenotesLength(message: string)
    ensures var frame := FormatMessage(message);
      ValueOf(frame[..|frame| - |message|]) == |message|
  {
    var prefix := PadLeft(ToDecimal(|message|), '0', PrefixWidth);
    LengthPrefix(|message|);
    var frame := FormatMessage(message);
    assert frame[..|frame| - |message|] == prefix;
  }

  /** The zero-filled prefix: at least 8 digits, exactly 8 below 10^8, denoting `n`. */
  lemma LengthPrefix(n: nat)
    ensures var prefix := PadLeft(ToDecimal(n), '0', PrefixWidth);
      |prefix| >= PrefixWidth && (n < MaxPayload ==> |prefix| == PrefixWidth) &&
      AllDigits(prefix) && ValueOf(prefix) == n &&
      (n >= MaxPayload ==> prefix[0] != '0')
  {
    var size := ToDecimal(n);
    var zeros := if |size| >= PrefixWidth then 0 else PrefixWidth - |size|;
    var prefix := PadLeft(size, '0', PrefixWidth);
    assert prefix == Repeat('0', zeros) + size;
    assert |prefix| >= PrefixWidth && (n < MaxPayload ==> |prefix| == PrefixWidth) by {
      MaxPayloadIsPow10();
      ToDecimalLength(n, PrefixWidth);
    }
    assert AllDigits(prefix) && ValueOf(prefix) == n by {
      ValueOfToDecimal(n);
      ValueOfLeadingZeros(zeros, size);
    }
    assert n >= MaxPayload ==> prefix[0] != '0' by {
      if n >= MaxPayload {
        MaxPayloadIsPow10();
        ToDecimalLength(n, PrefixWidth);
        assert prefix == size;
      }
    }
  }

  /**
   * How the agent reads one frame: eight decimal digits give the length
   * `n`, the next `n` characters are the message; the rest follows.
   */
  function ParseFrame(bytes: string): (r: Option<(string, string)>)
    ensures r.Some? ==> |bytes| == PrefixWidth + |r.value.0| + |r.value.1|
    ensures r.Some? ==> bytes[PrefixWidth..] == r.value.0 + r.value.1
  {
    if |bytes| < PrefixWidth || !AllDigits(bytes[..PrefixWidth]) then None
    else
      var n := ValueOf(bytes[..PrefixWidth]);
      if |bytes| - PrefixWidth < n then None
      else Some((bytes[PrefixWidth..PrefixWidth + n], bytes[PrefixWidth + n..]))
  }

  /** A frame is read back as exactly its message, and reading stops at its end. */
  lemma FrameRoundTrip(message: string, rest: string)
    requires |message| < MaxPayload
    ensures ParseFrame(FormatMessage(message) + rest) == Some((message, rest))
  {
    var frame := FormatMessage(message);
    var bytes := frame + rest;
    FramePrefixDenotesLength(message);
    assert bytes[..PrefixWidth] == frame[..PrefixWidth];
    assert bytes[PrefixWidth..PrefixWidth + |message|] == message;
    assert bytes[PrefixWidth + |message|..] == rest;
  }

  /** Beyond 10^8 payload characters the prefix is wider than 8 and no longer self-delimiting. */
  lemma FormatMessageWide(message: string, rest: string)
    requires |message| >= MaxPayload
    ensures |FormatMessage(message)| > PrefixWidth + |message|
    ensures ParseFrame(FormatMessage(message) + rest) != Some((message, rest))
  {
    assert |FormatMessage(message)| > PrefixWidth + |message| by {
      MaxPayloadIsPow10();
      ToDecimalLength(|message|, PrefixWidth);
    }
  }

  /** The agent's side of a stream: frames read one after the other. */
  function DecodeFrames(bytes: string): Option<seq<string>>
    decreases |bytes|
  {
    if |bytes| == 0 then Some([])
    else match ParseFrame(bytes)
      case None => None
      case Some((message, rest)) =>
        match DecodeFrames(rest)
        case None => None
        case Some(messages) => Some([message] + messages)
  }

  /** `k` frames of one message decode to `k` copies of it. */
  lemma {:induction false} DecodeRepeatedFrames(message: string, k: nat)
    requires |message| < MaxPayload
    ensures DecodeFrames(Flatten(Repeat(FormatMessage(message), k))) == Some(Repeat(message, k))
  {
    if k > 0 {
      var frame := FormatMessage(message);
      var frames := Repeat(frame, k);
      assert frames == [frame] + Repeat(frame, k - 1);
      assert frames[1..] == Repeat(frame, k - 1);
      var rest := Flatten(Repeat(frame, k - 1));
      FrameRoundTrip(message, rest);
      assert frame != [];
      DecodeRepeatedFrames(message, k - 1);
      assert Repeat(message, k) == [message] + Repeat(message, k - 1);
    }
  }

  // ---------------------------------------------------------------------
  // Inbound lines

  const StatusMarker: string := "\"type\":\"status\""
  const CodeKey: string := "\"code\":"
  const ReadyCode: string := "ready"

  /**
   * The code extraction of `parse_response`: the piece after the first
   * `"code":` (up to a second one, if any), cut at its first `}`, split at
   * `"`, second piece.  `None` where one of the `unwrap`s would panic.
   */
  function ExtractCode(line: string): (code: Option<string>)
    ensures code.Some? ==> '"' !in code.value && '}' !in code.value
  {
    var afterKey := Split(line, CodeKey);
    if |afterKey| < 2 then None
    else
      var beforeBrace := Split(afterKey[1], "}")[0];
      var quoted := Split(beforeBrace, "\"");
      if |quoted| < 2 then None
      else
        SplitCharPieces(afterKey[1], '}');
        SplitCharPieces(beforeBrace, '"');
        SplitKeepsAbsent(beforeBrace, "\"", '}');
        Some(quoted[1])
  }

  /** How `parse_response` sees one inbound line. */
  datatype LineKind =
    | Payload(text: string)    // not a status message: handed on as it is
    | Ready                    // status with code `ready`
    | Rejected(code: string)   // status with any other code
    | Unparsable               // status whose code cannot be extracted

  function Classify(line: string): (kind: LineKind)
    ensures kind.Payload? <==> !Contains(line, StatusMarker)
    ensures kind.Payload? ==> kind.text == line
  {
    if !Contains(line, StatusMarker) then Payload(line)
    else match ExtractCode(line)
      case None => Unparsable
      case Some(code) => if code == ReadyCode then Ready else Rejected(code)
  }

  /**
   * A line whose only `"code":` key is followed by a quoted value (after
   * text with neither `"` nor `}`) yields that value; if the line is a
   * status message, the value decides between `Ready` and `Rejected`.
   */
  lemma ClassifyStatusLine(pre: string, lead: string, code: string, post: string)
    requires NoOccurrenceBefore(pre + CodeKey + (lead + "\"" + code + "\"" + post), CodeKey, |pre|)
    requires !Contains(lead + "\"" + code + "\"" + post, CodeKey)
    requires '"' !in lead && '}' !in lead && '"' !in code && '}' !in code
    ensures ExtractCode(pre + CodeKey + (lead + "\"" + code + "\"" + post)) == Some(code)
    ensures Contains(pre + CodeKey + (lead + "\"" + code + "\"" + post), StatusMarker) ==>
      Classify(pre + CodeKey + (lead + "\"" + code + "\"" + post)) == if code == ReadyCode then Ready else Rejected(code)
  {
    var valueText := lead + "\"" + code + "\"" + post;
    var beforeBrace := lead + "\"" + code + "\"" + Split(post, "}")[0];
    KeyedValuePieces(pre, lead, code, post);
    assert Split(pre + CodeKey + valueText, CodeKey)[1] == valueText;
    assert Split(valueText, "}")[0] == beforeBrace;
  }

  /** The pieces `ExtractCode` cuts from such a line: the value text, the text before its `}`, and the quoted code. */
  lemma KeyedValuePieces(pre: string, lead: string, code: string, post: string)
    requires NoOccurrenceBefore(pre + CodeKey + (lead + "\"" + code + "\"" + post), CodeKey, |pre|)
    requires !Contains(lead + "\"" + code + "\"" + post, CodeKey)
    requires '"' !in lead && '}' !in lead && '"' !in code && '}' !in code
    ensures Split(pre + CodeKey + (lead + "\"" + code + "\"" + post), CodeKey) == [pre, lead + "\"" + code + "\"" + post]
    ensures Split(lead + "\"" + code + "\"" + post, "}")[0] == lead + "\"" + code + "\"" + Split(post, "}")[0]
    ensures var quoted := Split(lead + "\"" + code + "\"" + Split(post, "}")[0], "\"");
      |quoted| >= 2 && quoted[1] == code
  {
    var valueText := lead + "\"" + code + "\"" + post;
    SplitAtFirst(pre, CodeKey, valueText);
    SplitWithoutOccurrence(valueText, CodeKey);
    BeforeBrace(lead, code, post);
    SecondQuotedPiece(lead, code, Split(post, "}")[0]);
  }

  /** Cutting at the first `}` keeps a quoted value whose text has none. */
  lemma BeforeBrace(lead: string, code: string, post: string)
    requires '}' !in lead && '}' !in code
    ensures Split(lead + "\"" + code + "\"" + post, "}")[0] == lead + "\"" + code + "\"" + Split(post, "}")[0]
  {
    var quotedValue := lead + "\"" + code + "\"";
    assert '}' !in quotedValue;
    SplitCharKeepsPrefix(quotedValue, '}', post);
  }

  /** Splitting at `"` makes the quoted text the second piece. */
  lemma SecondQuotedPiece(lead: string, code: string, tail: string)
    requires '"' !in lead && '"' !in code
    ensures var pieces := Split(lead + "\"" + code + "\"" + tail, "\"");
      |pieces| >= 2 && pieces[1] == code
  {
    var s := lead + "\"" + code + "\"" + tail;
    assert s == lead + "\"" + (code + "\"" + tail);
    CharAbsentBefore(lead, '"', code + "\"" + tail);
    SplitAtFirst(lead, "\"", code + "\"" + tail);
    CharAbsentBefore(code, '"', tail);
    SplitAtFirst(code, "\"", tail);
  }

  /** No `"code":` key starts inside a prefix without a `d`. */
  lemma CodeKeyAbsentBefore(pre: string, rest: string)
    requires 'd' !in pre
    ensures NoOccurrenceBefore(pre + CodeKey + rest, CodeKey, |pre|)
  {
    var s := pre + CodeKey + rest;
    forall i: nat | i < |pre| ensures !OccursAt(s, CodeKey, i) {
      assert s[i + 3] != 'd' by {
        if i + 3 < |pre| {
          assert s[i + 3] == pre[i + 3];
        } else {
          assert s[i + 3] == CodeKey[i + 3 - |pre|];
        }
      }
      assert s[i..i + |CodeKey|][3] == s[i + 3];
    }
  }

  /** A five-character value in quotes, closed by `}`, holds no `"code":` key. */
  lemma QuotedCodeHasNoKey(code: string)
    requires |code| == 5
    ensures !Contains("\"" + code + "\"}", CodeKey)
  {
    var v := "\"" + code + "\"}";
    forall i: nat ensures !OccursAt(v, CodeKey, i) {
      if i + |CodeKey| <= |v| {
        assert v[i..i + |CodeKey|][6] == v[i + 6];
        assert v[6] == '"' && v[7] == '}';
      }
    }
    ContainsIffOccurs(v, CodeKey);
  }

  /**
   * The status message the agent sends, with a quoted code free of `"`
   * and `}` that holds no `"code":` key: `ready` is recognised, any other
   * code is a rejection carrying it.
   */
  lemma StatusMessage(code: string, line: string)
    requires '"' !in code && '}' !in code && !Contains("\"" + code + "\"}", CodeKey)
    requires line == "{\"type\":\"status\",\"code\":\"" + code + "\"}"
    ensures Classify(line) == if code == ReadyCode then Ready else Rejected(code)
  {
    var pre, post := "{" + StatusMarker + ",", "}";
    var valueText := "" + "\"" + code + "\"" + post;
    assert valueText == "\"" + code + "\"}";
    assert line == pre + CodeKey + valueText by {
      assert pre + CodeKey + "\"" == "{\"type\":\"status\",\"code\":\"";
      assert valueText == "\"" + (code + "\"}");
      ConcatAssoc(pre + CodeKey, "\"", code + "\"}");
    }
    assert Contains(line, StatusMarker) by {
      ContainsInfix("{", StatusMarker, "," + CodeKey + valueText);
      ConcatAssoc("{" + StatusMarker, "," + CodeKey, valueText);
    }
    CodeKeyAbsentBefore(pre, valueText);
    ClassifyStatusLine(pre, "", code, post);
  }

  /** The agent's ready message is recognised as `Ready`. */
  lemma ReadyStatusExample()
    ensures Classify("{\"type\":\"status\",\"code\":\"ready\"}") == Ready
  {
    var code, line := ReadyCode, "{\"type\":\"status\",\"code\":\"ready\"}";
    assert !Contains("\"" + code + "\"}", CodeKey) by {
      QuotedCodeHasNoKey(code);
    }
    assert '"' !in code && '}' !in code;
    assert line == "{\"type\":\"status\",\"code\":\"" + code + "\"}";
    StatusMessage(code, line);
  }

  /** Any other status code is recognised as a rejection. */
  lemma ErrorStatusExample()
    ensures Classify("{\"type\":\"status\",\"code\":\"error\"}") == Rejected("error")
  {
    var code, line := "error", "{\"type\":\"status\",\"code\":\"error\"}";
    assert !Contains("\"" + code + "\"}", CodeKey) by {
      QuotedCodeHasNoKey(code);
    }
    assert '"' !in code && '}' !in code;
    assert line == "{\"type\":\"status\",\"code\":\"" + code + "\"}";
    StatusMessage(code, line);
  }

  // ---------------------------------------------------------------------
  // The stream and the read loop

  /** The write side of the agent's socket: everything written, one entry per `write_all`. */
  class AgentStream {
    var written: seq<string>

    constructor ()
      ensures written == []
    {
      written := [];
    }

    method WriteAll(bytes: string)
      modifies this
      ensures written == old(written) + [bytes]
    {
      written := written + [bytes];
    }
  }

  /** `send_instructions`: one framed write of the serialised request. */
  method SendInstructions(stream: AgentStream, requestJson: string)
    modifies stream
    ensures stream.written == old(stream.written) + [FormatMessage(requestJson)]
  {
    var message := FormatMessage(requestJson);
    stream.WriteAll(message);
  }

  /** What `parse_response` returns for a line of the given kind. */
  function LineResult(kind: LineKind): Outcome<Result<string, Error>> {
    match kind
    case Payload(text) => Returned(Success(text))
    case Ready => Returned(Success(""))
    case Rejected(_) => Returned(Failure(BadAgentStatus))
    case Unparsable => Panicked
  }

  /** What `parse_response` writes for a line of the given kind, `frame` being the framed request. */
  function FramesFor(kind: LineKind, frame: string): seq<string> {
    if kind.Ready? then [frame] else []
  }

  /**
   * The four answers of `parse_response`: a line without the status marker
   * comes back unchanged and writes nothing; `ready` comes back empty and
   * writes the framed request once; any other code is `BadAgentStatus`; a
   * status line whose code cannot be extracted panics.
   */
  lemma ParseResponseCases(line: string, frame: string)
    ensures !Contains(line, StatusMarker) ==>
      LineResult(Classify(line)) == Returned(Success(line)) && FramesFor(Classify(line), frame) == []
    ensures Classify(line) == Ready ==>
      LineResult(Classify(line)) == Returned(Success("")) && FramesFor(Classify(line), frame) == [frame]
    ensures Classify(line).Rejected? ==>
      LineResult(Classify(line)) == Returned(Failure(BadAgentStatus)) && FramesFor(Classify(line), frame) == []
    ensures Classify(line) == Unparsable ==>
      LineResult(Classify(line)) == Panicked && FramesFor(Classify(line), frame) == []
  {
  }

  /** `parse_response`: pass a non-status line through, answer `ready` with the request, refuse any other code. */
  method ParseResponse(line: string, stream: AgentStream, requestJson: string) returns (r: Outcome<Result<string, Error>>)
    modifies stream
    ensures r == LineResult(Classify(line))
    ensures stream.written == old(stream.written) + FramesFor(Classify(line), FormatMessage(requestJson))
  {
    if Contains(line, StatusMarker) {
      var code := ExtractCode(line);
      if code.None? {
        return Panicked;
      }
      if code.value == ReadyCode {
        SendInstructions(stream, requestJson);
        return Returned(Success(""));
      } else {
        return Returned(Failure(BadAgentStatus));
      }
    } else {
      return Returned(Success(line));
    }
  }

  /** What the read loop ends with and what it has written by then. */
  datatype Session = Session(outcome: Outcome<string>, frames: seq<string>)

  /** The kind of every inbound line, in order. */
  function Classified(lines: seq<string>): (kinds: seq<LineKind>)
    ensures |kinds| == |lines|
  {
    if |lines| == 0 then [] else [Classify(lines[0])] + Classified(lines[1..])
  }

  /** The kind at position `i` is the kind of line `i`. */
  lemma {:induction false} ClassifiedAt(lines: seq<string>, i: nat)
    requires i < |lines|
    ensures Classified(lines)[i] == Classify(lines[i])
    decreases i
  {
    if i > 0 {
      ClassifiedAt(lines[1..], i - 1);
    }
  }

  /** The response after a parsed line: an empty result is skipped, any other is appended with a newline. */
  function Grown(response: string, parsed: string): string {
    if |parsed| == 0 then response else response + parsed + "\n"
  }

  /**
   * The read loop of `listen` from some line on, given the kinds of the
   * remaining lines and the response accumulated so far: a failed `unwrap`
   * ends the thread, an empty result is skipped, any other result is
   * appended with a newline.
   */
  function ListenFrom(kinds: seq<LineKind>, response: string, frame: string): (s: Session)
    ensures |s.frames| <= |kinds|
    ensures forall j :: 0 <= j < |s.frames| ==> s.frames[j] == frame
    decreases |kinds|
  {
    if |kinds| == 0 then Session(Returned(response), [])
    else
      var sent := FramesFor(kinds[0], frame);
      match LineResult(kinds[0])
      case Returned(Success(parsed)) =>
        var rest := ListenFrom(kinds[1..], Grown(response, parsed), frame);
        Session(rest.outcome, sent + rest.frames)
      case _ => Session(Panicked, sent)
  }

  /** The loop goes past a line of this kind: no status message, or `ready`. */
  predicate Accepted(kind: LineKind) {
    kind.Payload? || kind.Ready?
  }

  /** What a line of this kind adds to the response text. */
  function Contribution(kind: LineKind): string {
    if kind.Payload? && |kind.text| > 0 then kind.text + "\n" else []
  }

  /** The response text: every non-empty non-status line, newline-terminated, in order. */
  function Accumulated(kinds: seq<LineKind>): string {
    if |kinds| == 0 then [] else Contribution(kinds[0]) + Accumulated(kinds[1..])
  }

  /** The number of `ready` status lines. */
  function ReadyCount(kinds: seq<LineKind>): nat {
    if |kinds| == 0 then 0 else (if kinds[0].Ready? then 1 else 0) + ReadyCount(kinds[1..])
  }

  /** An accepted line writes its frames; the loop goes on with the grown response. */
  lemma ListenAcceptedStep(kinds: seq<LineKind>, response: string, frame: string)
    requires |kinds| > 0 && Accepted(kinds[0])
    ensures var rest := ListenFrom(kinds[1..], response + Contribution(kinds[0]), frame);
      ListenFrom(kinds, response, frame) == Session(rest.outcome, FramesFor(kinds[0], frame) + rest.frames)
  {
    assert response + [] == response;
    if kinds[0].Payload? {
      assert response + kinds[0].text + "\n" == response + (kinds[0].text + "\n");
    }
  }

  /** Concatenation regrouped, stated once so that the loop proofs can call it instead of searching for it. */
  lemma ConcatAssoc<T>(x: seq<T>, y: seq<T>, z: seq<T>)
    ensures (x + y) + z == x + (y + z)
  {
  }

  /** Past only accepted lines, the loop returns the accumulated text and has written one frame per `ready`. */
  lemma {:induction false} ListenCompletes(kinds: seq<LineKind>, response: string, frame: string)
    requires forall i :: 0 <= i < |kinds| ==> Accepted(kinds[i])
    ensures ListenFrom(kinds, response, frame) ==
      Session(Returned(response + Accumulated(kinds)), Repeat(frame, ReadyCount(kinds)))
    decreases |kinds|
  {
    if |kinds| > 0 {
      var c, a := Contribution(kinds[0]), Accumulated(kinds[1..]);
      var k := ReadyCount(kinds[1..]);
      var rest := ListenFrom(kinds[1..], response + c, frame);
      assert rest == Session(Returned((response + c) + a), Repeat(frame, k)) by {
        forall i | 0 <= i < |kinds[1..]| ensures Accepted(kinds[1..][i]) {
          assert Accepted(kinds[i + 1]);
        }
        ListenCompletes(kinds[1..], response + c, frame);
      }
      assert ListenFrom(kinds, response, frame) ==
        Session(rest.outcome, FramesFor(kinds[0], frame) + rest.frames) by {
        ListenAcceptedStep(kinds, response, frame);
      }
      assert FramesFor(kinds[0], frame) + Repeat(frame, k) == Repeat(frame, ReadyCount(kinds)) by {
        if kinds[0].Ready? {
          assert [frame] + Repeat(frame, k) == Repeat(frame, k + 1);
        } else {
          assert [] + Repeat(frame, k) == Repeat(frame, k);
        }
      }
      assert Accumulated(kinds) == c + a;
      ConcatAssoc(response, c, a);
    } else {
      assert response + [] == response;
    }
  }

  /** The first refused line ends the thread; the frames written before it stay written. */
  lemma {:induction false} ListenStopsAtRejection(accepted: seq<LineKind>, bad: LineKind, rest: seq<LineKind>, response: string, frame: string)
    requires forall i :: 0 <= i < |accepted| ==> Accepted(accepted[i])
    requires !Accepted(bad)
    ensures ListenFrom(accepted + [bad] + rest, response, frame) ==
      Session(Panicked, Repeat(frame, ReadyCount(accepted)))
    decreases |accepted|
  {
    var kinds := accepted + [bad] + rest;
    if |accepted| == 0 {
      assert kinds[0] == bad;
    } else {
      assert kinds[0] == accepted[0];
      assert kinds[1..] == accepted[1..] + [bad] + rest;
      assert Accepted(accepted[0]);
      var c := Contribution(accepted[0]);
      ListenStopsAtRejection(accepted[1..], bad, rest, response + c, frame);
      ListenAcceptedStep(kinds, response, frame);
      var k := ReadyCount(accepted[1..]);
      if accepted[0].Ready? {
        assert [frame] + Repeat(frame, k) == Repeat(frame, k + 1);
      } else {
        assert [] + Repeat(frame, k) == Repeat(frame, k);
      }
    }
  }

  /** The thread panics exactly when some line is a status message other than `ready`. */
  lemma {:induction false} ListenPanicsIffRefused(kinds: seq<LineKind>, response: string, frame: string)
    ensures ListenFrom(kinds, response, frame).outcome.Panicked? <==>
      exists i :: 0 <= i < |kinds| && !Accepted(kinds[i])
    decreases |kinds|
  {
    if |kinds| > 0 {
      if Accepted(kinds[0]) {
        ListenAcceptedStep(kinds, response, frame);
        ListenPanicsIffRefused(kinds[1..], response + Contribution(kinds[0]), frame);
        if exists i :: 0 <= i < |kinds[1..]| && !Accepted(kinds[1..][i]) {
          var i :| 0 <= i < |kinds[1..]| && !Accepted(kinds[1..][i]);
          assert !Accepted(kinds[i + 1]);
        }
        if exists i :: 0 <= i < |kinds| && !Accepted(kinds[i]) {
          var i :| 0 <= i < |kinds| && !Accepted(kinds[i]);
          assert !Accepted(kinds[1..][i - 1]);
        }
      }
    }
  }

  /**
   * When the loop runs to the end of the stream, the agent can read from
   * what was written exactly one copy of the request per `ready` line.
   */
  lemma AgentReceivesRequests(kinds: seq<LineKind>, requestJson: string)
    requires forall i :: 0 <= i < |kinds| ==> Accepted(kinds[i])
    requires |requestJson| < MaxPayload
    ensures DecodeFrames(Flatten(ListenFrom(kinds, "", FormatMessage(requestJson)).frames)) ==
      Some(Repeat(requestJson, ReadyCount(kinds)))
  {
    ListenCompletes(kinds, "", FormatMessage(requestJson));
    DecodeRepeatedFrames(requestJson, ReadyCount(kinds));
  }

  /** Lines without the status marker, read as plain text. */
  function NonEmptyLines(lines: seq<string>): string {
    if |lines| == 0 then []
    else (if |lines[0]| > 0 then lines[0] + "\n" else []) + NonEmptyLines(lines[1..])
  }

  lemma {:induction false} WithoutStatusAccumulated(lines: seq<string>)
    requires forall i :: 0 <= i < |lines| ==> !Contains(lines[i], StatusMarker)
    ensures forall i :: 0 <= i < |lines| ==> Accepted(Classified(lines)[i])
    ensures Accumulated(Classified(lines)) == NonEmptyLines(lines)
    ensures ReadyCount(Classified(lines)) == 0
    decreases |lines|
  {
    if |lines| > 0 {
      assert Classified(lines)[1..] == Classified(lines[1..]);
      assert forall i :: 0 <= i < |lines[1..]| ==> !Contains(lines[1..][i], StatusMarker) by {
        forall i | 0 <= i < |lines[1..]| ensures !Contains(lines[1..][i], StatusMarker) {
          assert !Contains(lines[i + 1], StatusMarker);
        }
      }
      WithoutStatusAccumulated(lines[1..]);
      assert Classified(lines)[0] == Payload(lines[0]);
    }
  }

  /**
   * A stream that closes without ever sending a status message is not a
   * failure: the loop returns every non-empty line, newline-terminated,
   * and writes nothing.
   */
  lemma ListenWithoutStatus(lines: seq<string>, frame: string)
    requires forall i :: 0 <= i < |lines| ==> !Contains(lines[i], StatusMarker)
    ensures ListenFrom(Classified(lines), "", frame) == Session(Returned(NonEmptyLines(lines)), [])
  {
    WithoutStatusAccumulated(lines);
    ListenCompletes(Classified(lines), "", frame);
    assert "" + NonEmptyLines(lines) == NonEmptyLines(lines);
  }

  /** `parse_response` hands the loop a text for a line of this kind. */
  predicate Passes(kind: LineKind) {
    LineResult(kind).Returned? && LineResult(kind).value.Success?
  }

  /** One pass of the read loop past line `i`, for the loop invariant of `Listen`. */
  lemma ListenStep(kinds: seq<LineKind>, i: nat, response: string, frame: string)
    requires i < |kinds|
    ensures Passes(kinds[i]) ==>
      var rest := ListenFrom(kinds[i + 1..], Grown(response, LineResult(kinds[i]).value.value), frame);
      ListenFrom(kinds[i..], response, frame) == Session(rest.outcome, FramesFor(kinds[i], frame) + rest.frames)
    ensures !Passes(kinds[i]) ==> ListenFrom(kinds[i..], response, frame) == Session(Panicked, FramesFor(kinds[i], frame))
  {
    assert kinds[i..][0] == kinds[i] && kinds[i..][1..] == kinds[i + 1..];
  }

  /** One turn of the read loop: `parse_response` on line `i`, whose kind is `kinds[i]`. */
  method ReadLine(lines: seq<string>, i: nat, ghost kinds: seq<LineKind>, stream: AgentStream, requestJson: string, ghost frame: string)
    returns (r: Outcome<Result<string, Error>>)
    requires i < |lines| && kinds == Classified(lines) && frame == FormatMessage(requestJson)
    modifies stream
    ensures r == LineResult(kinds[i])
    ensures stream.written == old(stream.written) + FramesFor(kinds[i], frame)
  {
    ClassifiedAt(lines, i);
    r := ParseResponse(lines[i], stream, requestJson);
  }

  /** The read loop of `listen`, writing to `stream` as it goes. */
  method Listen(lines: seq<string>, stream: AgentStream, requestJson: string) returns (r: Outcome<string>)
    modifies stream
    ensures r == ListenFrom(Classified(lines), "", FormatMessage(requestJson)).outcome
    ensures stream.written == old(stream.written) + ListenFrom(Classified(lines), "", FormatMessage(requestJson)).frames
  {
    var response := "";
    ghost var kinds := Classified(lines);
    ghost var frame := FormatMessage(requestJson);
    ghost var whole := ListenFrom(kinds, "", frame);
    ghost var sent: seq<string> := [];
    var i := 0;
    while i < |lines|
      invariant 0 <= i <= |lines|
      invariant stream.written == old(stream.written) + sent
      invariant whole.outcome == ListenFrom(kinds[i..], response, frame).outcome
      invariant whole.frames == sent + ListenFrom(kinds[i..], response, frame).frames
    {
      ghost var step := FramesFor(kinds[i], frame);
      ListenStep(kinds, i, response, frame);
      var parsed := ReadLine(lines, i, kinds, stream, requestJson, frame);
      assert stream.written == old(stream.written) + (sent + step) by {
        ConcatAssoc(old(stream.written), sent, step);
      }
      if !(parsed.Returned? && parsed.value.Success?) {
        return Panicked;
      }
      ghost var rest := ListenFrom(kinds[i + 1..], Grown(response, parsed.value.value), frame);
      assert whole.frames == (sent + step) + rest.frames by {
        ConcatAssoc(sent, step, rest.frames);
      }
      var text := parsed.value.value;
      if |text| > 0 {
        response := response + text + "\n";
      }
      sent := sent + step;
      i := i + 1;
    }
    assert kinds[i..] == [];
    return Returned(response);
  }
}
