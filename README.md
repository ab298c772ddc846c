# lambdo API core, modelled in Dafny

lambdo runs user-submitted code inside short-lived micro virtual machines.
This project models the three parts of its API server that decide what is
sent to a guest and what the caller gets back.

- **Execution dispatcher** (`Service`, api/src/api/service.rs).
  - Looks a language profile up by name.
  - Turns the profile's step templates into request steps, replacing every
    `{{filename}}` with the entry-point file name.
  - Assembles the request: a fresh identifier, the steps, the entry-point
    file, and the standard input as a file named `input.input`.
- **Agent protocol channel** (`Vmm`, api/src/vmm/mod.rs).
  - `format_message` frames each outbound message: its length in decimal,
    zero-filled to eight characters, then the message.
  - `parse_response` classifies each inbound line. A line containing
    `"type":"status"` is a status message. Its code is cut out of the line
    by plain splitting. `ready` is answered by writing the framed request.
    Any other code is the `BadAgentStatus` error.
  - Every other line is output text. The read loop of `listen` appends each
    non-empty text, with a newline after it. A failed `unwrap` ends the loop's
    thread with a panic.
- **HTTP controller** (`Controller`, api/src/controller.rs).
  - `parse_response` folds the step results into one answer. The status is
    the exit code of the *last* step. Standard output is every step's output
    in order, where present. Standard error is every step's error in order.
  - `run` answers a failed execution with status 1, an empty output and
    `Internal server error`.

Shared pieces:

- `Text` models the Rust string operations the core relies on:
  - `str::contains`;
  - `str::split` with `nth`;
  - `str::replace`, non-overlapping and left to right.
- `Digits` models decimal rendering and reading.
- `Arith` holds three facts about multiplication that the length of a
  replaced text needs.
- `Wrappers` holds `Option`, `Result`, and `Outcome`. `Outcome` is used
  where the Rust code can panic: an `unwrap` on a missing value, or an
  index out of range.

Strings are sequences of characters, and each character stands for one
byte. Rust's `len()` therefore counts characters here.

The socket is modelled in two parts:

- the lines the agent sends, already split by the line reader;
- an `AgentStream` object whose `written` field logs every `write_all` in
  order.

The request reaches the channel as its JSON serialisation. The UUID is a
parameter.

Four behaviours of the code are worth stating plainly:

- **Stream closes before `ready`.** `listen` returns the text gathered so
  far; this is not an error (`Vmm.ListenWithoutStatus`).
- **Repeated `ready`.** The code writes one framed copy of the request for
  every `ready` line it reads, not just the first (`Vmm.ListenCompletes`).
- **Exit code out of range.** The last step's exit code is converted with
  `try_into().unwrap()`, which panics for a code outside 0..255
  (`Controller.ParseResponse`).
- **Step count.** The controller never compares the number of steps in the
  response with the number in the request.

## Model

| member | source | states |
|---|---|---|
| Service.Lookup | api/src/api/service.rs:63-74 | a found profile is in the list and has exactly the requested name; the result is the not-found error exactly when no profile has that name, and its message is `Language not found` |
| Service.LookupFindsFirst | api/src/api/service.rs:68-72 | of several profiles with the requested name, the first one in list order is returned |
| Service.FindLanguage | api/src/api/service.rs:63-74 | the early-return scan gives the same answer as the lookup |
| Service.GenerateSteps | api/src/api/service.rs:76-90 | one request step per template, in template order; each command has every `{{filename}}` replaced by the entry point, and each step's output flag is the template's `output.enabled` |
| Service.RunCodeRequest | api/src/api/service.rs:32-50 | panics exactly when no code file was submitted or the language is unknown; otherwise the request carries the given id, the entry-point file then `input.input` holding the input, and the instantiated steps of the found profile |
| Service.PlaceholderReplaced | api/src/api/service.rs:83 | text before the placeholder that has no `{` is copied, the placeholder becomes the entry point, and replacing goes on after it |
| Service.TwoPlaceholdersReplaced | api/src/api/service.rs:83 | both occurrences of the placeholder are replaced when the text around them has no `{` |
| Service.TestEchoInstantiated | api/src/api/service.rs:185-197 | `echo {{filename}}` becomes `echo index.js` |
| Service.TestEchoHelloInstantiated | api/src/api/service.rs:185-197 | `echo hello` has no placeholder and is kept as it is |
| Service.TestCatInstantiated | api/src/api/service.rs:185-197 | `cat {{filename}} > {{filename}}` becomes `cat index.js > index.js` |
| Service.TestGenerateSteps | api/src/api/service.rs:177-199 | the NODE profile of the test configuration yields three steps with the three expected commands |
| Service.TestFindLanguage | api/src/api/service.rs:201-216 | looking `NODE` up in the test configuration yields a profile named `NODE` whose first step is named `step 1` |
| Text.Contains | api/src/vmm/mod.rs:105 | `str::contains`, scanning left to right; its meaning is given by `Text.ContainsIffOccurs` |
| Text.ContainsIffOccurs | api/src/vmm/mod.rs:105 | `contains` holds exactly when the pattern occurs at some index |
| Text.ContainsInfix | api/src/vmm/mod.rs:105 | a text placed between two others occurs at the position where it was placed, so the whole contains it |
| Text.Split | api/src/vmm/mod.rs:107-116 | `str::split`: there is always at least one piece; `Text.JoinSplit`, `Text.SplitAtFirst` and `Text.SplitWithoutOccurrence` say what the pieces are |
| Text.JoinSplit | api/src/vmm/mod.rs:107-116 | joining the pieces with the separator gives the text back, so splitting loses nothing |
| Text.SplitWithoutOccurrence | api/src/vmm/mod.rs:107-116 | a text without the separator is a single piece |
| Text.SplitAtFirst | api/src/vmm/mod.rs:107-110 | the first piece ends at the first occurrence of the separator, and splitting goes on after it |
| Text.CharAbsentBefore | api/src/vmm/mod.rs:111-116 | a character missing from a prefix does not occur before the prefix's end |
| Text.SplitCharKeepsPrefix | api/src/vmm/mod.rs:111-113 | when splitting at a character, a prefix without that character stays in the first piece |
| Text.SplitCharPieces | api/src/vmm/mod.rs:111-116 | no piece of a split at a character contains that character |
| Text.SplitKeepsAbsent | api/src/vmm/mod.rs:111-116 | a character missing from the text is missing from every piece of a split |
| Text.ReplaceAll | api/src/api/service.rs:83 | `str::replace`, non-overlapping and left to right; its meaning is given by `Text.ReplaceIsSplitJoin` and `Text.ReplaceWithoutOccurrence` |
| Text.ReplaceIsSplitJoin | api/src/api/service.rs:83 | replacing equals splitting at every occurrence and joining with the replacement |
| Text.ReplaceSkipsPrefix | api/src/api/service.rs:83 | a prefix without the pattern's first character is copied unchanged |
| Text.ReplaceAtStart | api/src/api/service.rs:83 | an occurrence at the start is replaced, and the scan goes on after it |
| Text.ReplaceByItself | api/src/api/service.rs:83 | replacing a pattern by itself changes nothing |
| Text.CountPositiveIffContains | api/src/api/service.rs:83 | at least one occurrence is counted exactly when the text contains the pattern |
| Text.ReplaceLength | api/src/api/service.rs:83 | the result's length is the text's length plus, for each occurrence, the length difference between replacement and pattern |
| Text.ReplaceWithoutOccurrence | api/src/api/service.rs:83 | a text that does not contain the pattern is returned unchanged |
| Text.ReplaceUnchangedIff | api/src/api/service.rs:83 | when replacement and pattern differ in length, the text is unchanged exactly when it does not contain the pattern |
| Digits.ToDecimal | api/src/vmm/mod.rs:140-141 | the decimal rendering of a length is a non-empty run of digits, with no leading zero for a positive number |
| Digits.ValueOfToDecimal | api/src/vmm/mod.rs:140-141 | reading a rendered number back gives the number |
| Digits.ToDecimalLength | api/src/vmm/mod.rs:141 | the rendering has at most `k` digits exactly when the number is below 10^k |
| Digits.PadLeft | api/src/vmm/mod.rs:141 | `{:0>8}` fills on the left up to the width and never truncates: the length is the larger of the two, the text is a suffix, everything before it is the fill character |
| Digits.ValueOfZeroPrefix | api/src/vmm/mod.rs:141 | one leading zero leaves the value unchanged |
| Digits.ValueOfLeadingZeros | api/src/vmm/mod.rs:141 | any number of leading zeros leaves the value unchanged |
| Vmm.FormatMessage | api/src/vmm/mod.rs:139-142 | the frame ends with the message and everything before it is digits; that prefix is exactly 8 characters below 10^8, never shorter than 8, and from 10^8 on starts with a non-zero digit, so it is then the plain decimal rendering |
| Vmm.FramePrefixDenotesLength | api/src/vmm/mod.rs:140-141 | the digits in front of the message denote the message's length |
| Vmm.LengthPrefix | api/src/vmm/mod.rs:140-141 | the zero-filled length prefix has at least 8 digits, exactly 8 below 10^8, and denotes the length |
| Vmm.ParseFrame | api/src/vmm/mod.rs:139-142 | reading a frame (8 digits, then that many characters) accounts for every character after the prefix |
| Vmm.FrameRoundTrip | api/src/vmm/mod.rs:139-142 | below 10^8 characters, a frame is read back as exactly its message, and whatever follows it is left untouched |
| Vmm.FormatMessageWide | api/src/vmm/mod.rs:139-142 | from 10^8 characters on, the prefix is wider than 8, and an 8-digit reader no longer reads the frame back as its message followed by what comes after it |
| Vmm.DecodeRepeatedFrames | api/src/vmm/mod.rs:136-141 | `k` frames of one message written back to back are read as `k` copies of the message |
| Vmm.ExtractCode | api/src/vmm/mod.rs:107-116 | the `split(...).nth(...)` chain that cuts the status code out of a line; a code it extracts holds neither `"` nor `}`, and `Vmm.ClassifyStatusLine` gives its value |
| Vmm.Classify | api/src/vmm/mod.rs:105-127 | a line is treated as output text exactly when it does not contain `"type":"status"`, and such text is the line unchanged |
| Vmm.ClassifyStatusLine | api/src/vmm/mod.rs:105-124 | when a line's only `"code":` key is followed by a quoted value, and nothing before the value contains `"` or `}`, the extracted code is that value; on a status line it decides between `ready` and rejection |
| Vmm.KeyedValuePieces | api/src/vmm/mod.rs:107-116 | for such a line, the pieces the chain cuts: the text after the key, the text before its first `}`, and the quoted code as the second piece |
| Vmm.CodeKeyAbsentBefore | api/src/vmm/mod.rs:107-110 | no `"code":` key starts inside a prefix that has no `d` |
| Vmm.QuotedCodeHasNoKey | api/src/vmm/mod.rs:107-110 | a quoted five-character value followed by `}` holds no `"code":` key |
| Vmm.StatusMessage | api/src/vmm/mod.rs:105-124 | the agent's status message `{"type":"status","code":"<code>"}`, with a code free of `"` and `}` and no `"code":` key inside the quotes, is recognised as `ready` for `ready` and as a rejection carrying the code otherwise |
| Vmm.ReadyStatusExample | api/src/vmm/mod.rs:105-121 | the agent's `{"type":"status","code":"ready"}` is recognised as `ready` |
| Vmm.ErrorStatusExample | api/src/vmm/mod.rs:105-124 | `{"type":"status","code":"error"}` is recognised as a rejection carrying the code `error` |
| Vmm.AgentStream.constructor | api/src/vmm/mod.rs:78 | a freshly accepted stream has nothing written to it |
| Vmm.AgentStream.WriteAll | api/src/vmm/mod.rs:136 | `write_all` appends its bytes to what was written, and nothing else changes |
| Vmm.SendInstructions | api/src/vmm/mod.rs:130-137 | exactly one write, of the framed serialised request |
| Vmm.ParseResponseCases | api/src/vmm/mod.rs:99-128 | the four answers of `parse_response`: text without the marker comes back unchanged and writes nothing; `ready` comes back empty and writes the framed request once; any other code is `BadAgentStatus` and writes nothing; a status line whose code cannot be cut out panics and writes nothing |
| Vmm.ParseResponse | api/src/vmm/mod.rs:99-128 | the result and the stream's new contents are those of the line's kind, as the four cases above describe |
| Vmm.ListenFrom | api/src/vmm/mod.rs:84-91 | the read loop over the kinds of the remaining lines: at most one frame is written per line, and every frame is the framed request; `Vmm.ListenCompletes`, `Vmm.ListenStopsAtRejection` and `Vmm.ListenPanicsIffRefused` give its meaning |
| Vmm.ClassifiedAt | api/src/vmm/mod.rs:84-85 | the kind recorded for line `i` is the kind of that line |
| Vmm.ListenCompletes | api/src/vmm/mod.rs:84-95 | when no line is refused, the loop returns every non-empty output text with a newline after each, in order, and has written one framed request per `ready` line |
| Vmm.ListenStopsAtRejection | api/src/vmm/mod.rs:84-85 | the first refused line (a code other than `ready`, or a code that cannot be cut out) ends the thread with a panic; the frames written before it stay written |
| Vmm.ListenPanicsIffRefused | api/src/vmm/mod.rs:84-85 | the thread panics exactly when some line is refused |
| Vmm.ListenAcceptedStep | api/src/vmm/mod.rs:85-90 | an accepted line writes its frames and adds its text, and the loop goes on with the rest |
| Vmm.ListenStep | api/src/vmm/mod.rs:85-90 | one pass of the loop: a result that unwraps carries on with the grown response, and anything else ends the loop with the frames for that line |
| Vmm.AgentReceivesRequests | api/src/vmm/mod.rs:84-92 | when the loop runs to the end, the agent reads exactly one copy of the request per `ready` line from what was written |
| Vmm.WithoutStatusAccumulated | api/src/vmm/mod.rs:86-90 | lines without the status marker are all accepted, send nothing, and accumulate as the non-empty lines with a newline after each |
| Vmm.ListenWithoutStatus | api/src/vmm/mod.rs:84-95 | a stream that closes without any status message is no failure: the loop returns the non-empty lines with a newline after each, and writes nothing |
| Vmm.ReadLine | api/src/vmm/mod.rs:85 | one call of `parse_response` in the loop: its result and writes are those of the line's kind |
| Vmm.Listen | api/src/vmm/mod.rs:79-95 | the loop's outcome and everything it writes to the stream are those of the read loop run over the kinds of the lines, starting from the empty response |
| Controller.AllStdoutAppend | api/src/controller.rs:49-52 | standard output of two runs of steps, one after the other, equals their outputs one after the other |
| Controller.AllStderrAppend | api/src/controller.rs:49-53 | standard error of two runs of steps, one after the other, equals their errors one after the other |
| Controller.SingleStep | api/src/controller.rs:49-54 | a single step contributes its own output (nothing when absent) and its own error |
| Controller.AllStdoutAbsent | api/src/controller.rs:50-52 | steps without an output leave the standard output empty |
| Controller.AllStdoutSkipsAbsent | api/src/controller.rs:50-52 | steps without an output contribute nothing to it, wherever they stand |
| Controller.ParseResponse | api/src/controller.rs:46-64 | panics exactly when there is no step or the last exit code does not fit the status; otherwise the status is the last step's exit code, and the output and error are the ordered concatenations over all steps |
| Controller.Run | api/src/controller.rs:27-42 | a failed execution answers status 1, empty output and `Internal server error`; a successful one answers as `parse_response` does |
| Controller.LastStepWins | api/src/controller.rs:56-60 | steps with exit codes 0, 0 and 2 answer status 2; output and error are concatenated in step order, and the step without output adds none |

## Left out

- `vmm::run` and `VMMOpts` (api/src/vmm/mod.rs:28-73) are left out. They configure and start the hypervisor and attach the tap interface to the bridge, which are foreign calls into `lumper` and the network code. The `VmmNew`, `VmmConfigure` and `VmmRun` variants of `Error` carry the hypervisor's error as text.
- Threading is not modelled. `listen` spawns a thread and hands back its join handle; the model is the body of that thread, and a panic in it is `Panicked`.
- `accept`, `try_clone` and the line reader's I/O errors (the `unwrap`s at api/src/vmm/mod.rs:78, 81 and 85 on `line`) are not modelled. The input is the sequence of lines the agent sent.
- A failed `write_all` is not modelled; every write succeeds.
- JSON serialisation (`serde_json::to_string`) is left out. The request arrives already serialised, and its own failure is not modelled.
- The UUID generator is left out; the identifier is a parameter of `Service.RunCodeRequest`.
- Logging is left out.
- The asynchronous state, the mutex, the `actix` handler and the call into the VM manager in `run_code` (api/src/api/service.rs:25-30 and 54-61) are left out. The model covers the request assembly and the two panics before the VM manager is called.
- The call that parses the response text into a `ResponseMessage` is not modelled. `Controller.Run` takes the parse's result as a `Result`.
- The agent side (agent/lib/src/internal_api/model.rs) and the guest HTTP client (initramfs/src/httpclient.rs) are not part of this model. `Vmm.ParseFrame` stands in for the agent reading frames.
- Controller.ParseResponse: `RunResponse` and `ResponseStep` are defined outside the modelled files (`crate::model`, the `shared` crate). The exit code is taken as `i32`, as in the agent's `CodeReturn`. The status is taken as `u8`, so `try_into().unwrap()` panics for a code outside 0..255.
- Vmm.FormatMessage: counts characters, one per byte. Multi-byte UTF-8 characters, for which Rust's `len()` counts more than one, are not modelled.
- Vmm.Classify: the line is searched only as text. It is not parsed as JSON, exactly as in the source, so key order and incidental substrings are treated the way the splitting treats them.
