/**
 * The execution dispatcher of the API service: looking a language profile
 * up by name, turning its step templates into request steps, and
 * assembling the request that is sent to a virtual machine
 * (api/src/api/service.rs).
 */
module Service {
  import opened Wrappers
  import opened Text

  /** `LambdoLanguageStepOutputConfig`. */
  datatype LanguageStepOutputConfig = LanguageStepOutputConfig(enabled: bool, debug: bool)

  /** One step template of a language profile (`LambdoLanguageStepConfig`). */
  datatype LanguageStepConfig = LanguageStepConfig(name: Option<string>, command: string, output: LanguageStepOutputConfig)

  /** A language profile (`LambdoLanguageConfig`). */
  datatype LanguageConfig = LanguageConfig(name: string, version: string, initramfs: string, steps: seq<LanguageStepConfig>)

  /** The part of `LambdoConfig` the service reads: the configured profiles, in order. */
  datatype Config = Config(languages: seq<LanguageConfig>)

  /** One submitted source file of a `RunRequest`. */
  datatype CodeFile = CodeFile(filename: string, content: string)

  /** The inbound job: language, version, submitted files and standard input. */
  datatype RunRequest = RunRequest(language: string, version: string, code: seq<CodeFile>, input: string)

  datatype ExecuteRequestStep = ExecuteRequestStep(command: string, enableOutput: bool)

  datatype FileModel = FileModel(filename: string, content: string)

  /** The request sent to the virtual machine manager. */
  datatype ExecuteRequest = ExecuteRequest(id: string, steps: seq<ExecuteRequestStep>, files: seq<FileModel>)

  const Placeholder: string := "{{filename}}"
  const InputFilename: string := "input.input"
  const LanguageNotFound: string := "Language not found"

  /** The first profile named exactly `name`, or the not-found error. */
  function Lookup(languages: seq<LanguageConfig>, name: string): (r: Result<LanguageConfig, string>)
    ensures r.Success? ==> r.value in languages && r.value.name == name
    ensures r.Failure? <==> forall l :: l in languages ==> l.name != name
    ensures r.Failure? ==> r.error == LanguageNotFound
  {
    if |languages| == 0 then Failure(LanguageNotFound)
    else if languages[0].name == name then Success(languages[0])
    else Lookup(languages[1..], name)
  }

  /** Of several profiles with the requested name, the first one is returned. */
  lemma {:induction false} LookupFindsFirst(languages: seq<LanguageConfig>, name: string, i: nat)
    requires i < |languages| && languages[i].name == name
    requires forall j :: 0 <= j < i ==> languages[j].name != name
    ensures Lookup(languages, name) == Success(languages[i])
  {
    if i > 0 {
      LookupFindsFirst(languages[1..], name, i - 1);
    }
  }

  /** `find_language`: a linear scan with an early return. */
  method FindLanguage(config: Config, language: string) returns (r: Result<LanguageConfig, string>)
    ensures r == Lookup(config.languages, language)
  {
    var languages := config.languages;
    var i := 0;
    while i < |languages|
      invariant 0 <= i <= |languages|
      invariant Lookup(languages, language) == Lookup(languages[i..], language)
    {
      if languages[i].name == language {
        return Success(languages[i]);
      }
      i := i + 1;
    }
    return Failure(LanguageNotFound);
  }

  /** The request step that one template yields for the entry point. */
  function Instantiate(template: LanguageStepConfig, entrypoint: string): ExecuteRequestStep {
    ExecuteRequestStep(ReplaceAll(template.command, Placeholder, entrypoint), template.output.enabled)
  }

  /** `generate_steps`: one request step per template, in order. */
  method GenerateSteps(language: LanguageConfig, entrypoint: string) returns (steps: seq<ExecuteRequestStep>)
    ensures |steps| == |language.steps|
    ensures forall i :: 0 <= i < |steps| ==>
      steps[i].command == ReplaceAll(language.steps[i].command, Placeholder, entrypoint) &&
      steps[i].enableOutput == language.steps[i].output.enabled
  {
    steps := [];
    for i := 0 to |language.steps|
      invariant |steps| == i
      invariant forall j :: 0 <= j < i ==> steps[j] == Instantiate(language.steps[j], entrypoint)
    {
      var step := language.steps[i];
      var command := ReplaceAll(step.command, Placeholder, entrypoint);
      steps := steps + [ExecuteRequestStep(command, step.output.enabled)];
    }
  }

  /**
   * The request assembly of `run_code`: the entry point is the first
   * submitted file, the standard input travels as a file of its own, and
   * `id` stands for the fresh UUID.
   */
  method RunCodeRequest(config: Config, request: RunRequest, id: string) returns (r: Outcome<ExecuteRequest>)
    ensures r.Panicked? <==> |request.code| == 0 || Lookup(config.languages, request.language).Failure?
    ensures r.Returned? ==> r.value.id == id
    ensures r.Returned? ==>
      r.value.files == [FileModel(request.code[0].filename, request.code[0].content), FileModel(InputFilename, request.input)]
    ensures r.Returned? ==> var language := Lookup(config.languages, request.language).value;
      |r.value.steps| == |language.steps| &&
      forall i :: 0 <= i < |r.value.steps| ==> r.value.steps[i] == Instantiate(language.steps[i], request.code[0].filename)
  {
    if |request.code| == 0 {
      return Panicked;
    }
    var entrypoint := request.code[0].filename;
    var found := FindLanguage(config, request.language);
    if found.Failure? {
      return Panicked;
    }
    var language := found.value;
    var steps := GenerateSteps(language, entrypoint);
    var file := FileModel(entrypoint, request.code[0].content);
    var input := FileModel(InputFilename, request.input);
    return Returned(ExecuteRequest(id, steps, [file, input]));
  }

  /** The profiles of the service's test configuration. */
  function TestConfig(): Config {
    var output := LanguageStepOutputConfig(true, false);
    Config([
      LanguageConfig("NODE", "1.0", "test", [
        LanguageStepConfig(Some("step 1"), "echo {{filename}}", output),
        LanguageStepConfig(Some("step 2"), "echo hello", output),
        LanguageStepConfig(Some("step 3"), "cat {{filename}} > {{filename}}", output)]),
      LanguageConfig("PYTHON", "3.0", "test", [
        LanguageStepConfig(Some("step"), "echo {{filename}}", output)])])
  }

  /**
   * Scanning left to right, text without a `{` is copied and the
   * placeholder after it is replaced by the entry point.
   */
  lemma PlaceholderReplaced(pre: string, post: string, entrypoint: string)
    requires '{' !in pre
    ensures ReplaceAll(pre + Placeholder + post, Placeholder, entrypoint) ==
            pre + entrypoint + ReplaceAll(post, Placeholder, entrypoint)
  {
    var p := Placeholder;
    ReplaceAtStart(p, post, entrypoint);
    ReplaceSkipsPrefix(pre, p + post, p, entrypoint);
    assert pre + p + post == pre + (p + post);
  }

  /** The NODE test templates instantiated for `index.js`: the placeholder is replaced. */
  lemma TestEchoInstantiated()
    ensures ReplaceAll("echo {{filename}}", Placeholder, "index.js") == "echo index.js"
  {
    var command := "echo " + Placeholder + [];
    assert command == "echo {{filename}}";
    assert ReplaceAll(command, Placeholder, "index.js") == "echo " + "index.js" + [] by {
      PlaceholderReplaced("echo ", [], "index.js");
    }
    assert "echo " + "index.js" + [] == "echo index.js";
  }

  /** A template without the placeholder is kept as it is. */
  lemma TestEchoHelloInstantiated()
    ensures ReplaceAll("echo hello", Placeholder, "index.js") == "echo hello"
  {
    ReplaceSkipsPrefix("echo hello", [], Placeholder, "index.js");
    assert "echo hello" + [] == "echo hello";
  }

  /** Two occurrences of the placeholder, separated by text without a `{`, are both replaced. */
  lemma TwoPlaceholdersReplaced(pre: string, middle: string, entrypoint: string)
    requires '{' !in pre && '{' !in middle
    ensures ReplaceAll(pre + Placeholder + middle + Placeholder, Placeholder, entrypoint) ==
            pre + entrypoint + middle + entrypoint
  {
    var rest := middle + Placeholder + [];
    PlaceholderReplaced(middle, [], entrypoint);
    PlaceholderReplaced(pre, rest, entrypoint);
    assert pre + Placeholder + middle + Placeholder == pre + Placeholder + rest;
  }

  /** Both occurrences of the placeholder are replaced. */
  lemma TestCatInstantiated()
    ensures ReplaceAll("cat {{filename}} > {{filename}}", Placeholder, "index.js") == "cat index.js > index.js"
  {
    var command := "cat " + Placeholder + " > " + Placeholder;
    assert command == "cat {{filename}} > {{filename}}";
    var expected := "cat " + "index.js" + " > " + "index.js";
    assert expected == "cat index.js > index.js";
    assert ReplaceAll(command, Placeholder, "index.js") == expected by {
      TwoPlaceholdersReplaced("cat ", " > ", "index.js");
    }
  }

  /** `test_generate_steps`: the NODE templates instantiated for `index.js`. */
  method TestGenerateSteps() returns (steps: seq<ExecuteRequestStep>)
    ensures |steps| == 3
    ensures steps[0].command == "echo index.js"
    ensures steps[1].command == "echo hello"
    ensures steps[2].command == "cat index.js > index.js"
  {
    TestEchoInstantiated();
    TestEchoHelloInstantiated();
    TestCatInstantiated();
    steps := GenerateSteps(TestConfig().languages[0], "index.js");
  }

  /** `test_find_language`: looking up `NODE` yields the NODE profile. */
  method TestFindLanguage() returns (language: LanguageConfig)
    ensures language.name == "NODE" && |language.steps| > 0 && language.steps[0].name == Some("step 1")
  {
    var found := FindLanguage(TestConfig(), "NODE");
    language := found.value;
  }
}
