/**
 * The decisions `main` makes before and around extraction: which API key
 * is used, how a `.env` line gives a key, whether the schema is consulted,
 * and the exit code. The environment variable, the `.env` file, the
 * schema-to-prompt generator and `extract_tables` itself are inputs.
 */
module Cli {
  import opened Wrappers
  import opened Strings

  /** The options after parsing; an option not given is `None`. */
  datatype Args = Args(
    pdfPath: string,
    outputDir: string,
    apiKey: Option<string>,
    pages: string,
    model: string,
    dpi: int,
    merge: bool,
    schema: Option<string>,
    prompt: Option<string>,
    debug: bool)

  const DefaultPages := "all"
  const DefaultModel := "pixtral-12b-2409"
  const DefaultDpi := 150

  /** The options when only the two positional paths are given. */
  function DefaultArgs(pdfPath: string, outputDir: string): (a: Args)
    ensures a.pdfPath == pdfPath && a.outputDir == outputDir
  {
    Args(pdfPath, outputDir, None, DefaultPages, DefaultModel, DefaultDpi, false, None, None, false)
  }

  /** Python truthiness of an optional string: present and not empty. */
  predicate Truthy(s: Option<string>) {
    s.Some? && s.value != ""
  }

  const VariablePrefix := "MISTRAL_API_KEY="
  const PlainPrefix := "api_key="

  /** A `.env` line that sets the key. */
  predicate IsKeyLine(line: string) {
    StartsWith(line, VariablePrefix) || StartsWith(line, PlainPrefix)
  }

  /** The prefix a key line starts with. */
  function KeyPrefix(line: string): (p: string)
    requires IsKeyLine(line)
    ensures p == VariablePrefix || p == PlainPrefix
    ensures StartsWith(line, p)
  {
    if StartsWith(line, VariablePrefix) then VariablePrefix else PlainPrefix
  }

  /** In a key line the first `=` is the one closing its prefix. */
  lemma {:induction false} KeyLineFirstEquals(line: string)
    requires IsKeyLine(line)
    ensures Contains(line, "=") && FindFirst(line, "=") == Some(|KeyPrefix(line)| - 1)
  {
    var p := KeyPrefix(line);
    var k := |p| - 1;
    assert line[..|p|] == p;
    OccursAtChar(line, '=', k);
    forall j: nat | j < k ensures !OccursAt(line, "=", j) {
      OccursAtChar(line, '=', j);
      assert line[j] == p[j];
    }
    FindFirstUnique(line, "=", k);
  }

  /** `line.split("=", 1)[1].strip().strip('"')`: the text after the first `=`, cleaned. */
  function KeyValue(line: string): (v: string)
    requires IsKeyLine(line)
    ensures v == StripChar(Strip(line[|KeyPrefix(line)|..]), '"')
  {
    KeyLineFirstEquals(line);
    StripChar(Strip(After(line, "=")), '"')
  }

  /** The index of the first key line of a `.env` file, if it has one. */
  function FirstKeyLine(lines: seq<string>): (r: Option<nat>)
    ensures r.None? <==> forall k :: 0 <= k < |lines| ==> !IsKeyLine(lines[k])
    ensures r.Some? ==> r.value < |lines| && IsKeyLine(lines[r.value])
    ensures r.Some? ==> forall j :: 0 <= j < r.value ==> !IsKeyLine(lines[j])
  {
    if lines == [] then None
    else if IsKeyLine(lines[0]) then Some(0)
    else
      assert forall k :: 1 <= k < |lines| ==> lines[k] == lines[1..][k - 1];
      match FirstKeyLine(lines[1..])
      case None => None
      case Some(k) => Some(k + 1)
  }

  /** The key the `.env` file gives: the value of its first key line. */
  function EnvKey(lines: seq<string>): Option<string> {
    match FirstKeyLine(lines)
    case None => None
    case Some(k) => Some(KeyValue(lines[k]))
  }

  /** The scan of the `.env` lines, stopping at the first key line. */
  method ScanEnv(lines: seq<string>) returns (found: Option<string>)
    ensures found == EnvKey(lines)
  {
    found := None;
    var i := 0;
    while i < |lines|
      invariant 0 <= i <= |lines|
      invariant forall j :: 0 <= j < i ==> !IsKeyLine(lines[j])
    {
      if IsKeyLine(lines[i]) {
        assert FirstKeyLine(lines) == Some(i);
        found := Some(KeyValue(lines[i]));
        return;
      }
      i := i + 1;
    }
  }

  /** Lines before the first key line do not matter, nor do lines after it. */
  lemma {:induction false} FirstKeyLineWins(before: seq<string>, line: string, after: seq<string>)
    requires forall k :: 0 <= k < |before| ==> !IsKeyLine(before[k])
    requires IsKeyLine(line)
    ensures EnvKey(before + [line] + after) == Some(KeyValue(line))
  {
    FirstKeyLineAt(before, line, after);
    assert (before + [line] + after)[|before|] == line;
  }

  lemma {:induction false} FirstKeyLineAt(before: seq<string>, line: string, after: seq<string>)
    requires forall k :: 0 <= k < |before| ==> !IsKeyLine(before[k])
    requires IsKeyLine(line)
    ensures FirstKeyLine(before + [line] + after) == Some(|before|)
  {
    var lines := before + [line] + after;
    assert lines[|before|] == line;
    assert forall j :: 0 <= j < |before| ==> lines[j] == before[j];
  }

  /**
   * A quoted value on a key line reads back as the value: the line end is
   * stripped first, then the quotes. The value may itself hold `=`.
   */
  lemma {:induction false} QuotedValueReadsBack(prefix: string, value: string)
    requires prefix == VariablePrefix || prefix == PlainPrefix
    requires value != [] && value[0] != '"' && value[|value| - 1] != '"'
    ensures IsKeyLine(prefix + "\"" + value + "\"\n")
    ensures KeyValue(prefix + "\"" + value + "\"\n") == value
  {
    var rest := "\"" + value + "\"\n";
    assert prefix + "\"" + value + "\"\n" == prefix + rest;
    KeyLineOf(prefix, rest);
    StripQuoted(value);
  }

  lemma {:induction false} KeyLineOf(prefix: string, rest: string)
    requires prefix == VariablePrefix || prefix == PlainPrefix
    ensures IsKeyLine(prefix + rest) && KeyPrefix(prefix + rest) == prefix
    ensures (prefix + rest)[|prefix|..] == rest
  {
    var line := prefix + rest;
    assert line[..|prefix|] == prefix;
    assert prefix == PlainPrefix ==> line[0] != VariablePrefix[0];
  }

  lemma {:induction false} StripQuoted(value: string)
    requires value != [] && value[0] != '"' && value[|value| - 1] != '"'
    ensures StripChar(Strip("\"" + value + "\"\n"), '"') == value
  {
    var quoted := "\"" + value + "\"";
    assert "\"" + value + "\"\n" == [] + quoted + "\n";
    TrimAround([], quoted, "\n", IsSpace);
    TrimAround("\"", value, "\"", IsChar('"'));
  }

  /** The key as `main` resolves it: `None` when every source is empty or missing. */
  function ResolveKey(flag: Option<string>, variable: Option<string>, dotEnv: Option<seq<string>>): (key: Option<string>)
    ensures key.Some? ==> key.value != ""
    ensures key.None? <==> !Truthy(flag) && !Truthy(variable) && !(dotEnv.Some? && Truthy(EnvKey(dotEnv.value)))
    ensures Truthy(flag) ==> key == flag
    ensures !Truthy(flag) && Truthy(variable) ==> key == variable
    ensures !Truthy(flag) && !Truthy(variable) && key.Some? ==> dotEnv.Some? && key == EnvKey(dotEnv.value)
  {
    if Truthy(flag) then flag
    else if Truthy(variable) then variable
    else if dotEnv.Some? && Truthy(EnvKey(dotEnv.value)) then EnvKey(dotEnv.value)
    else None
  }

  /** An empty flag or variable is the same as none: the next source is tried. */
  lemma {:induction false} EmptyKeyFallsThrough(variable: Option<string>, dotEnv: Option<seq<string>>)
    ensures ResolveKey(Some(""), variable, dotEnv) == ResolveKey(None, variable, dotEnv)
    ensures ResolveKey(None, Some(""), dotEnv) == ResolveKey(None, None, dotEnv)
  {
  }

  /** The key lookup as `main` runs it: the flag or the variable, then the `.env` scan. */
  method ResolveApiKey(flag: Option<string>, variable: Option<string>, dotEnv: Option<seq<string>>)
    returns (apiKey: Option<string>)
    ensures Truthy(apiKey) <==> ResolveKey(flag, variable, dotEnv).Some?
    ensures Truthy(apiKey) ==> apiKey == ResolveKey(flag, variable, dotEnv)
  {
    apiKey := if Truthy(flag) then flag else variable;
    if !Truthy(apiKey) && dotEnv.Some? {
      var found := ScanEnv(dotEnv.value);
      if found.Some? {
        apiKey := found;
      }
    }
  }

  /** The arguments `main` passes to `extract_tables`. */
  datatype Request = Request(
    pdfPath: string,
    outputDir: string,
    apiKey: string,
    pages: string,
    model: string,
    dpi: int,
    merge: bool,
    customPrompt: Option<string>)

  /** How `main` ends: a return code, or the exception re-raised in debug mode. */
  datatype Outcome = Exit(code: int) | Reraised

  /** The outcome, and the call made to `extract_tables`, if any. */
  datatype Run = Run(outcome: Outcome, request: Option<Request>)

  /**
   * What `main` cannot see: the `MISTRAL_API_KEY` variable, the lines of
   * `.env` (`None` when there is no such file), the schema-to-prompt
   * generator and `extract_tables`, each failure standing for an exception.
   */
  datatype Environment = Environment(
    variable: Option<string>,
    dotEnv: Option<seq<string>>,
    generate: string -> Result<string, string>,
    extract: Request -> Result<nat, string>)

  /** The outcome of an error: re-raised in debug mode, exit code 1 otherwise. */
  function Fail(debug: bool): (o: Outcome)
    ensures o == Reraised <==> debug
    ensures o.Exit? ==> o.code == 1
  {
    if debug then Reraised else Exit(1)
  }

  /** The schema is consulted only when one is given and no prompt is. */
  predicate UsesSchema(args: Args) {
    Truthy(args.schema) && !Truthy(args.prompt)
  }

  /** `main` after the options are parsed. */
  function Main(args: Args, env: Environment): (run: Run)
    ensures run.outcome == Exit(0) <==> run.request.Some? && env.extract(run.request.value).Success?
    ensures run.outcome == Reraised ==> args.debug
    ensures run.outcome.Exit? ==> run.outcome.code == 0 || run.outcome.code == 1
    ensures run.request.Some? ==> Some(run.request.value.apiKey) == ResolveKey(args.apiKey, env.variable, env.dotEnv)
    ensures run.request.Some? ==>
      var r := run.request.value;
      r.pdfPath == args.pdfPath && r.outputDir == args.outputDir && r.pages == args.pages
      && r.model == args.model && r.dpi == args.dpi && r.merge == args.merge
  {
    var key := ResolveKey(args.apiKey, env.variable, env.dotEnv);
    if key.None? then Run(Exit(1), None)
    else if UsesSchema(args) then
      match env.generate(args.schema.value)
      case Failure(_) => Run(Fail(args.debug), None)
      case Success(prompt) => Extract(args, key.value, Some(prompt), env)
    else Extract(args, key.value, args.prompt, env)
  }

  /** The call to `extract_tables` and the outcome it gives. */
  function Extract(args: Args, apiKey: string, customPrompt: Option<string>, env: Environment): (run: Run)
    ensures run.request.Some? && run.request.value.apiKey == apiKey && run.request.value.customPrompt == customPrompt
    ensures run.outcome == Exit(0) <==> env.extract(run.request.value).Success?
    ensures run.outcome == Reraised <==> env.extract(run.request.value).Failure? && args.debug
    ensures run.outcome != Exit(0) && run.outcome != Reraised ==> run.outcome == Exit(1)
  {
    var request := Request(args.pdfPath, args.outputDir, apiKey, args.pages, args.model, args.dpi, args.merge, customPrompt);
    Run(if env.extract(request).Success? then Exit(0) else Fail(args.debug), Some(request))
  }

  /** With no key from any source, `main` returns 1 and never extracts. */
  lemma {:induction false} NoKeyNoExtraction(args: Args, env: Environment)
    requires !Truthy(args.apiKey) && !Truthy(env.variable)
    requires env.dotEnv.None? || !Truthy(EnvKey(env.dotEnv.value))
    ensures Main(args, env) == Run(Exit(1), None)
  {
  }

  /**
   * A prompt overrides the schema: the generator is never consulted, so
   * any two generators give the same run, and the prompt is passed on.
   */
  lemma {:induction false} PromptOverridesSchema(args: Args, env: Environment, other: string -> Result<string, string>)
    requires Truthy(args.prompt)
    ensures Main(args, env) == Main(args, env.(generate := other))
    ensures Main(args, env).request.Some? ==> Main(args, env).request.value.customPrompt == args.prompt
  {
  }

  /** Without a schema the generator is not consulted either, and the prompt (possibly none) is passed on. */
  lemma {:induction false} NoSchemaNoGenerator(args: Args, env: Environment, other: string -> Result<string, string>)
    requires !Truthy(args.schema)
    ensures Main(args, env) == Main(args, env.(generate := other))
    ensures Main(args, env).request.Some? ==> Main(args, env).request.value.customPrompt == args.prompt
  {
  }

  /** A schema that loads gives the prompt passed to extraction. */
  lemma {:induction false} SchemaGivesPrompt(args: Args, env: Environment)
    requires UsesSchema(args) && ResolveKey(args.apiKey, env.variable, env.dotEnv).Some?
    requires env.generate(args.schema.value).Success?
    ensures Main(args, env).request.Some?
    ensures Main(args, env).request.value.customPrompt == Some(env.generate(args.schema.value).value)
  {
  }

  /** A schema that fails to load ends `main` with 1, or re-raises in debug mode, before extraction. */
  lemma {:induction false} SchemaFailureStops(args: Args, env: Environment)
    requires UsesSchema(args) && ResolveKey(args.apiKey, env.variable, env.dotEnv).Some?
    requires env.generate(args.schema.value).Failure?
    ensures Main(args, env) == Run(if args.debug then Reraised else Exit(1), None)
  {
  }

  /** Once extraction is called, success returns 0 and an exception returns 1 or is re-raised in debug mode. */
  lemma {:induction false} ExtractionDecidesExit(args: Args, env: Environment)
    requires Main(args, env).request.Some?
    ensures var run := Main(args, env);
      run.outcome == (if env.extract(run.request.value).Success? then Exit(0) else if args.debug then Reraised else Exit(1))
  {
  }

  /** Given a key and nothing else, extraction runs on every page with the default model, 150 dpi and no merge. */
  lemma {:induction false} DefaultsReachExtraction(pdfPath: string, outputDir: string, env: Environment)
    requires ResolveKey(None, env.variable, env.dotEnv).Some?
    ensures var run := Main(DefaultArgs(pdfPath, outputDir), env);
      run.request.Some? && run.request.value.pages == "all" && run.request.value.model == "pixtral-12b-2409"
      && run.request.value.dpi == 150 && !run.request.value.merge && run.request.value.customPrompt.None?
  {
  }
}
