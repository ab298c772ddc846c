/**
 * The HTTP controller of the API (api/src/controller.rs): folding the
 * per-step results of an execution into the one answer the caller sees,
 * and the answer it gives when the execution failed.
 */
module Controller {
  import opened Wrappers

  /** Rust's `i32`, the width of a step's exit code. */
  newtype int32 = x: int | -0x8000_0000 <= x < 0x8000_0000

  /** Rust's `u8`, the width of the response status. */
  newtype uint8 = x: int | 0 <= x < 0x100

  /** One step's result as the agent reports it; `stdout` is absent for a step whose output is not kept. */
  datatype ResponseStep = ResponseStep(stdout: Option<string>, stderr: string, exitCode: int32)

  datatype ResponseData = ResponseData(id: string, steps: seq<ResponseStep>)

  /** `ResponseMessage`: the parsed response of the agent. */
  datatype ResponseMessage = ResponseMessage(data: ResponseData)

  /** `RunResponse`: what the `/run` endpoint answers. */
  datatype RunResponse = RunResponse(status: uint8, stdout: string, stderr: string)

  const InternalServerError := "Internal server error"

  /** What a step adds to the standard output: its text, or nothing when it has none. */
  function StdoutPiece(step: ResponseStep): string {
    if step.stdout.Some? then step.stdout.value else []
  }

  /** The standard output of the steps, in step order. */
  function AllStdout(steps: seq<ResponseStep>): string {
    if |steps| == 0 then [] else AllStdout(steps[..|steps| - 1]) + StdoutPiece(steps[|steps| - 1])
  }

  /** The standard error of the steps, in step order. */
  function AllStderr(steps: seq<ResponseStep>): string {
    if |steps| == 0 then [] else AllStderr(steps[..|steps| - 1]) + steps[|steps| - 1].stderr
  }

  /** The last step's exit code is representable as a status (and there is a last step). */
  predicate StatusFits(steps: seq<ResponseStep>) {
    |steps| > 0 && 0 <= steps[|steps| - 1].exitCode as int < 0x100
  }

  /**
   * `out` is the aggregate of `steps`: the status is the exit code of the
   * last step, whatever the earlier ones were, and the two streams are the
   * concatenations of every step's streams.
   */
  predicate Summarises(steps: seq<ResponseStep>, out: RunResponse) {
    |steps| > 0 &&
    out.status as int == steps[|steps| - 1].exitCode as int &&
    out.stdout == AllStdout(steps) &&
    out.stderr == AllStderr(steps)
  }

  /** Standard output of two runs of steps one after the other is the one after the other. */
  lemma {:induction false} AllStdoutAppend(a: seq<ResponseStep>, b: seq<ResponseStep>)
    ensures AllStdout(a + b) == AllStdout(a) + AllStdout(b)
    decreases |b|
  {
    if |b| == 0 {
      assert a + b == a;
      assert AllStdout(a) + [] == AllStdout(a);
    } else {
      var b' := b[..|b| - 1];
      assert (a + b)[..|a + b| - 1] == a + b';
      assert (a + b)[|a + b| - 1] == b[|b| - 1];
      AllStdoutAppend(a, b');
      assert AllStdout(a + b) == (AllStdout(a) + AllStdout(b')) + StdoutPiece(b[|b| - 1]);
    }
  }

  /** Standard error of two runs of steps one after the other is the one after the other. */
  lemma {:induction false} AllStderrAppend(a: seq<ResponseStep>, b: seq<ResponseStep>)
    ensures AllStderr(a + b) == AllStderr(a) + AllStderr(b)
    decreases |b|
  {
    if |b| == 0 {
      assert a + b == a;
      assert AllStderr(a) + [] == AllStderr(a);
    } else {
      var b' := b[..|b| - 1];
      assert (a + b)[..|a + b| - 1] == a + b';
      assert (a + b)[|a + b| - 1] == b[|b| - 1];
      AllStderrAppend(a, b');
      assert AllStderr(a + b) == (AllStderr(a) + AllStderr(b')) + b[|b| - 1].stderr;
    }
  }

  /** A single step contributes its own streams. */
  lemma SingleStep(step: ResponseStep)
    ensures AllStdout([step]) == StdoutPiece(step)
    ensures AllStderr([step]) == step.stderr
  {
    assert [step][..0] == [];
  }

  /** Steps without a standard output leave the standard output empty. */
  lemma {:induction false} AllStdoutAbsent(quiet: seq<ResponseStep>)
    requires forall i :: 0 <= i < |quiet| ==> quiet[i].stdout.None?
    ensures AllStdout(quiet) == []
    decreases |quiet|
  {
    if |quiet| > 0 {
      var q' := quiet[..|quiet| - 1];
      assert forall i :: 0 <= i < |q'| ==> q'[i].stdout.None? by {
        forall i | 0 <= i < |q'| ensures q'[i].stdout.None? {
          assert q'[i] == quiet[i];
        }
      }
      AllStdoutAbsent(q');
    }
  }

  /** Steps without a standard output, wherever they stand, contribute nothing to it. */
  lemma AllStdoutSkipsAbsent(a: seq<ResponseStep>, quiet: seq<ResponseStep>, b: seq<ResponseStep>)
    requires forall i :: 0 <= i < |quiet| ==> quiet[i].stdout.None?
    ensures AllStdout(a + quiet + b) == AllStdout(a + b)
  {
    AllStdoutAbsent(quiet);
    AllStdoutAppend(a + quiet, b);
    AllStdoutAppend(a, quiet);
    AllStdoutAppend(a, b);
    assert AllStdout(a) + [] == AllStdout(a);
  }

  /** `parse_response`: fold the steps into one answer; an empty run or an unrepresentable status panics. */
  method ParseResponse(response: ResponseMessage) returns (r: Outcome<RunResponse>)
    ensures r.Returned? <==> StatusFits(response.data.steps)
    ensures r.Returned? ==> Summarises(response.data.steps, r.value)
  {
    var steps := response.data.steps;
    var stdout := "";
    var stderr := "";
    for i := 0 to |steps|
      invariant stdout == AllStdout(steps[..i])
      invariant stderr == AllStderr(steps[..i])
    {
      assert steps[..i + 1][..i] == steps[..i];
      if steps[i].stdout.Some? {
        stdout := stdout + steps[i].stdout.value;
      }
      stderr := stderr + steps[i].stderr;
    }
    assert steps[..|steps|] == steps;
    if |steps| == 0 {
      return Panicked;
    }
    var code := steps[|steps| - 1].exitCode;
    if !(0 <= code as int < 0x100) {
      return Panicked;
    }
    return Returned(RunResponse(code as int as uint8, stdout, stderr));
  }

  /**
   * The answer of `run`: the aggregate of a successful execution, or, for
   * a failed one, status 1 with an empty standard output and a generic
   * error message.
   */
  method Run<E>(response: Result<ResponseMessage, E>) returns (r: Outcome<RunResponse>)
    ensures response.Failure? ==> r == Returned(RunResponse(1, "", InternalServerError))
    ensures response.Success? ==> (r.Returned? <==> StatusFits(response.value.data.steps))
    ensures response.Success? && r.Returned? ==> Summarises(response.value.data.steps, r.value)
  {
    match response {
      case Success(message) =>
        r := ParseResponse(message);
      case Failure(_) =>
        r := Returned(RunResponse(1, "", InternalServerError));
    }
  }

  /** Steps ending with exit codes 0, 0 and 2 answer status 2: the last step wins. */
  method LastStepWins() returns (r: Outcome<RunResponse>)
    ensures r == Returned(RunResponse(2, "ab", "warn\nfail\n"))
  {
    var steps := [
      ResponseStep(Some("a"), "", 0),
      ResponseStep(None, "warn\n", 0),
      ResponseStep(Some("b"), "fail\n", 2)];
    assert AllStdout(steps) == "ab" && AllStderr(steps) == "warn\nfail\n" by {
      assert steps == [steps[0]] + [steps[1]] + [steps[2]];
      SingleStep(steps[0]);
      SingleStep(steps[1]);
      SingleStep(steps[2]);
      AllStdoutAppend([steps[0]], [steps[1]]);
      AllStdoutAppend([steps[0]] + [steps[1]], [steps[2]]);
      AllStderrAppend([steps[0]], [steps[1]]);
      AllStderrAppend([steps[0]] + [steps[1]], [steps[2]]);
    }
    r := ParseResponse(ResponseMessage(ResponseData("id", steps)));
  }
}
