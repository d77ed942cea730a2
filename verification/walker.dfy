/** The command-tree walker (`process_command`): each command with a script
    gets a handler, its file is created exclusively in the output directory,
    and, unless only dumping, the handler's analyser runs and a non-empty
    `Findings` result counts one. Subcommands follow in document order and
    their counts are summed; the first error ends the walk.

    Files already present in the output directory are a map from path to
    content; creating a file at a path in that map fails. What the walker
    prints is kept as a list of reports. */
module Walker {
  import opened Wrappers
  import opened Text
  import opened Handlers
  import opened Naming

  /** A maskfile command: a name, an optional script, and subcommands. */
  datatype Command = Command(name: string, script: Option<Script>, subcommands: seq<Command>)

  /** `ProcessCommandContext`. */
  datatype Context = Context(outDir: string, isDump: bool, noWarnings: bool)

  type Files = map<string, string>

  /** One printed block: the bold full command name, then the message. */
  datatype Report = Report(header: string, message: string)

  /** What a successful walk produced: the findings count, the output
      directory afterwards, and what was printed. */
  datatype Walked = Walked(findings: nat, files: Files, printed: seq<Report>)

  datatype WalkError =
    | FileExists(path: string)
    | MissingExecutable(handler: Handler)
    | IoFailure(description: string)

  /** The message a missing analyser binary is reported with: the text that
      `MissingExecutable(h)` stands for. The walk carries the error itself. */
  function MissingExecutableMessage(h: Handler): (m: string)
    ensures "executable for " <= m
  {
    "executable for " + Name(h) + " not found in $PATH"
  }

  /** The message names the handler, so different handlers give different
      messages. */
  lemma MissingExecutableMessageIdentifiesHandler(h1: Handler, h2: Handler)
    ensures MissingExecutableMessage(h1) == MissingExecutableMessage(h2) <==> h1 == h2
  {
    var m1 := MissingExecutableMessage(h1);
    var m2 := MissingExecutableMessage(h2);
    var tail := " not found in $PATH";
    if m1 == m2 {
      var p := "executable for ";
      assert Name(h1) == m1[|p|..|m1| - |tail|];
      assert Name(h2) == m2[|p|..|m2| - |tail|];
      NameIdentifiesHandler(h1, h2);
    }
  }

  /** The handlers' `execute`, seen from the walker: handler and file path
      in, lint result or the kind of I/O error out. */
  type Executor = (Handler, string) -> Result<LintResult, IoErrorKind>

  /** The executor the real handlers make, given how their analysers answer. */
  function HandlerExecutor(tool: Tool): Executor {
    (h: Handler, path: string) => Execute(h, path, tool)
  }

  /** A result that adds one to the findings count. */
  predicate IsFinding(r: LintResult) {
    r.kind == Findings && r.message != ""
  }

  /** A result that gets printed. */
  predicate IsShown(ctx: Context, r: LintResult) {
    r.message != "" && (r.kind == Findings || !ctx.noWarnings)
  }

  /** The part of `process_command` that handles the command's own script:
      pick the handler, create the file, and (outside dump mode) run the
      analyser and classify its result. */
  function ProcessScript(ctx: Context, fullName: string, script: Script, files: Files, run: Executor): Result<Walked, WalkError> {
    var h := Dispatch(script.executor);
    Place(ctx, fullName, h, ScriptPath(ctx.outDir, fullName, h), Content(h, script), files, run)
  }

  /** Creates the script's file at `path` with `content` and, outside dump
      mode, runs handler `h`'s analyser on it. */
  function Place(ctx: Context, fullName: string, h: Handler, path: string, content: string, files: Files, run: Executor): Result<Walked, WalkError> {
    if path in files then Failure(FileExists(path))
    else
      var files' := files[path := content];
      if ctx.isDump then Success(Walked(0, files', []))
      else
        match run(h, path)
        case Failure(NotFound) => Failure(MissingExecutable(h))
        case Failure(OtherKind(d)) => Failure(IoFailure(d))
        case Success(res) =>
          var count := if res.kind == Findings && res.message != "" then 1 else 0;
          var shown := if res.message != "" && (res.kind == Findings || !ctx.noWarnings)
                       then [Report(fullName, res.message)] else [];
          Success(Walked(count, files', shown))
  }

  /** One script: an existing file at its path is an error; otherwise the
      file is created with the handler's content and, outside dump mode, the
      analyser's launch error becomes the walk's error (a missing binary
      names the handler), and its result counts one exactly when it is a
      non-empty finding and is printed exactly when it is shown. */
  lemma ProcessScriptContract(ctx: Context, fullName: string, script: Script, files: Files, run: Executor)
    ensures var r := ProcessScript(ctx, fullName, script, files, run);
            var h := Dispatch(script.executor);
            var path := ScriptPath(ctx.outDir, fullName, h);
            && (path in files ==> r == Failure(FileExists(path)))
            && (r.Success? <==> path !in files && (ctx.isDump || run(h, path).Success?))
            && (r.Success? ==> r.value.files == files[path := Content(h, script)])
            && (r.Success? && ctx.isDump ==> r.value.findings == 0 && r.value.printed == [])
            && (r.Success? && !ctx.isDump ==>
                  var res := run(h, path).value;
                  && (r.value.findings == if IsFinding(res) then 1 else 0)
                  && (r.value.printed == if IsShown(ctx, res) then [Report(fullName, res.message)] else []))
            && (r.Failure? && path !in files ==>
                  r.error == if run(h, path).error == NotFound then MissingExecutable(h)
                             else IoFailure(run(h, path).error.description))
  {
  }

  /** A command without a script changes nothing. */
  function VisitScript(ctx: Context, fullName: string, script: Option<Script>, files: Files, run: Executor): Result<Walked, WalkError> {
    match script
    case None => Success(Walked(0, files, []))
    case Some(s) => ProcessScript(ctx, fullName, s, files, run)
  }

  /** One walk followed by another that starts from the first's files. */
  function Combine(first: Walked, second: Walked): Walked {
    Walked(first.findings + second.findings, second.files, first.printed + second.printed)
  }

  /** `process_command`. */
  function Walk(ctx: Context, node: Command, parent: Option<string>, files: Files, run: Executor): Result<Walked, WalkError>
    decreases node
  {
    var fullName := FullName(parent, node.name);
    match VisitScript(ctx, fullName, node.script, files, run)
    case Failure(e) => Failure(e)
    case Success(own) =>
      match WalkAll(ctx, node.subcommands, Some(fullName), own.files, run)
      case Failure(e) => Failure(e)
      case Success(rest) => Success(Combine(own, rest))
  }

  /** The loop over sibling commands, all under the same parent name. */
  function WalkAll(ctx: Context, nodes: seq<Command>, parent: Option<string>, files: Files, run: Executor): Result<Walked, WalkError>
    decreases nodes
  {
    if |nodes| == 0 then Success(Walked(0, files, []))
    else
      match Walk(ctx, nodes[0], parent, files, run)
      case Failure(e) => Failure(e)
      case Success(first) =>
        match WalkAll(ctx, nodes[1..], parent, first.files, run)
        case Failure(e) => Failure(e)
        case Success(rest) => Success(Combine(first, rest))
  }

  /** A script together with the full name of the command carrying it. */
  datatype Entry = Entry(fullName: string, script: Script)

  /** The scripts of a command tree in the order the walker reaches them. */
  function Flatten(node: Command, parent: Option<string>): seq<Entry>
    decreases node
  {
    var fullName := FullName(parent, node.name);
    (if node.script.Some? then [Entry(fullName, node.script.value)] else [])
      + FlattenAll(node.subcommands, Some(fullName))
  }

  function FlattenAll(nodes: seq<Command>, parent: Option<string>): seq<Entry>
    decreases nodes
  {
    if |nodes| == 0 then [] else Flatten(nodes[0], parent) + FlattenAll(nodes[1..], parent)
  }

  /** What processing one script does to the output directory. */
  type Step = (Entry, Files) -> Result<Walked, WalkError>

  /** Runs a step for each script in turn, each starting from the output
      directory the previous one left, stopping at the first error. */
  function Sequence(step: Step, entries: seq<Entry>, files: Files): Result<Walked, WalkError>
    decreases |entries|
  {
    if |entries| == 0 then Success(Walked(0, files, []))
    else
      match step(entries[0], files)
      case Failure(e) => Failure(e)
      case Success(first) =>
        match Sequence(step, entries[1..], first.files)
        case Failure(e) => Failure(e)
        case Success(rest) => Success(Combine(first, rest))
  }

  function ScriptStep(ctx: Context, run: Executor): Step {
    (e: Entry, files: Files) => ProcessScript(ctx, e.fullName, e.script, files, run)
  }

  /** Reference semantics: the scripts processed one after another, with no
      tree in sight. */
  function ProcessEntries(ctx: Context, entries: seq<Entry>, files: Files, run: Executor): Result<Walked, WalkError> {
    Sequence(ScriptStep(ctx, run), entries, files)
  }
}
