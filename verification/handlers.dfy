/** The language handlers: each has a file extension, a way to turn a script
    into file content, and a normalisation of its analyser's standard output
    into a `LintResult`. Running the analyser itself is an oracle (`Tool`):
    it is given the handler and the file path and answers with the captured
    standard output or with the kind of I/O error the launch raised. */
module Handlers {
  import opened Wrappers
  import opened Text

  datatype LintKind = Warning | Findings

  datatype LintResult = LintResult(message: string, kind: LintKind)

  /** `LintResult::warning`: keeps the message, marks it a warning. */
  function WarningResult(message: string): (r: LintResult)
    ensures r.message == message && r.kind == Warning
  {
    LintResult(message, Warning)
  }

  /** `LintResult::findings`: keeps the message, marks it as findings. */
  function FindingsResult(message: string): (r: LintResult)
    ensures r.message == message && r.kind == Findings
  {
    LintResult(message, Findings)
  }

  /** A script embedded in a maskfile command: its executor tag and its body. */
  datatype Script = Script(executor: string, source: string)

  datatype Handler = Catchall | Shellcheck | Ruff | Rubocop | Nushell

  /** The `Display` name of each handler. */
  function Name(h: Handler): string {
    match h
    case Catchall => "catchall"
    case Shellcheck => "shellcheck"
    case Ruff => "ruff"
    case Rubocop => "rubocop"
    case Nushell => "nushell"
  }

  /** `file_extension`: empty by default, otherwise a dot and two letters. */
  function Extension(h: Handler): (ext: string)
    ensures ext == "" || (|ext| == 3 && ext[0] == '.' && 'a' <= ext[1] <= 'z' && 'a' <= ext[2] <= 'z')
  {
    match h
    case Catchall => ""
    case Shellcheck => ".sh"
    case Ruff => ".py"
    case Rubocop => ".rb"
    case Nushell => ".nu"
  }

  /** Every handler has its own extension, and only the catch-all has none. */
  lemma ExtensionIdentifiesHandler(h1: Handler, h2: Handler)
    ensures Extension(h1) == Extension(h2) <==> h1 == h2
    ensures Extension(h1) == "" <==> h1 == Catchall
  {
  }

  /** Every handler has its own display name. */
  lemma NameIdentifiesHandler(h1: Handler, h2: Handler)
    ensures Name(h1) == Name(h2) <==> h1 == h2
  {
  }

  const Shebang: string := "#!/bin/usr/env "

  /** `content`: the source unchanged, except that the shell handler puts a
      `#!/bin/usr/env <executor>` line in front of it. */
  function Content(h: Handler, script: Script): (r: string)
    ensures |script.source| <= |r| && r[|r| - |script.source|..] == script.source
    ensures h != Shellcheck ==> r == script.source
    ensures h == Shellcheck ==> Shebang <= r && |r| == |Shebang| + |script.executor| + 1 + |script.source|
  {
    if h == Shellcheck then Shebang + script.executor + "\n" + script.source
    else script.source
  }

  /** Index of the first occurrence of `c` in `s`. */
  function IndexOf(s: string, c: char): (i: nat)
    requires c in s
    ensures i < |s| && s[i] == c && c !in s[..i]
    decreases |s|
  {
    if s[0] == c then 0 else 1 + IndexOf(s[1..], c)
  }

  /** Reads a shell script file back into its executor and source: the
      executor is what follows the shebang prefix up to the first line feed. */
  function ParseShebangFile(content: string): Option<Script> {
    if Shebang <= content && '\n' in content[|Shebang|..] then
      var rest := content[|Shebang|..];
      var i := IndexOf(rest, '\n');
      Some(Script(rest[..i], rest[i + 1..]))
    else
      None
  }

  /** The shell handler's file content determines the script it came from,
      as long as the executor tag is a single line. */
  lemma ShellcheckContentRoundTrip(script: Script)
    requires '\n' !in script.executor
    ensures ParseShebangFile(Content(Shellcheck, script)) == Some(script)
  {
    var content := Content(Shellcheck, script);
    var rest := content[|Shebang|..];
    assert rest == script.executor + "\n" + script.source;
    IndexOfAfter(script.executor, '\n', script.source);
    assert rest[..|script.executor|] == script.executor;
    assert rest[|script.executor| + 1..] == script.source;
  }

  lemma {:induction false} IndexOfAfter(a: string, c: char, b: string)
    requires c !in a
    ensures c in a + [c] + b && IndexOf(a + [c] + b, c) == |a|
    decreases |a|
  {
    var s := a + [c] + b;
    assert s[|a|] == c;
    if |a| > 0 {
      assert s[1..] == a[1..] + [c] + b;
      IndexOfAfter(a[1..], c, b);
    }
  }

  const NoLinterMessage: string := "no linter found for target"

  /** The shell analyser's output, trimmed, with every `<path> ` removed. */
  function ShellcheckMessage(stdout: string, path: string): (m: string)
    ensures |m| <= |Trim(stdout)|
  {
    ReplaceAll(Trim(stdout), path + " ", "")
  }

  /** The message is the trimmed output verbatim exactly when the output
      never mentions `<path> `. */
  lemma ShellcheckMessageUnchangedIff(stdout: string, path: string)
    ensures ShellcheckMessage(stdout, path) == Trim(stdout) <==> !Contains(Trim(stdout), path + " ")
  {
    ReplaceShorterUnchangedIff(Trim(stdout), path + " ", "");
  }

  /** The first `<path> ` in the trimmed output is removed, and removing
      goes on after it. */
  lemma ShellcheckRemovesPath(stdout: string, path: string, a: string, b: string)
    requires Trim(stdout) == a + (path + " ") + b
    requires NoMatchBefore(a + (path + " ") + b, path + " ", |a|)
    ensures ShellcheckMessage(stdout, path) == a + ReplaceAll(b, path + " ", "")
  {
    var pat := path + " ";
    ReplaceFirstOccurrence(a, pat, "", b);
    assert a + "" == a;
  }

  const SummaryPrefix: string := "Found "

  /** The lines in front of the first line that starts with `Found `. */
  function LinesBeforeSummary(lines: seq<string>): (r: seq<string>)
    ensures r <= lines
    ensures forall i :: 0 <= i < |r| ==> !(SummaryPrefix <= r[i])
    ensures |r| < |lines| ==> SummaryPrefix <= lines[|r|]
    decreases |lines|
  {
    if |lines| == 0 || SummaryPrefix <= lines[0] then []
    else [lines[0]] + LinesBeforeSummary(lines[1..])
  }

  /** Applies the same replacement to every line. */
  function RewriteLines(lines: seq<string>, pat: string, rep: string): (r: seq<string>)
    ensures |r| == |lines|
    ensures forall i :: 0 <= i < |r| ==> r[i] == ReplaceAll(lines[i], pat, rep)
    decreases |lines|
  {
    if |lines| == 0 then [] else [ReplaceAll(lines[0], pat, rep)] + RewriteLines(lines[1..], pat, rep)
  }

  /** The Python analyser's output: the trimmed output's lines before the
      `Found ` summary, each with `<path>:` turned into `line `, joined with
      line feeds and trimmed again. */
  function RuffMessage(stdout: string, path: string): string {
    var kept := LinesBeforeSummary(Lines(Trim(stdout)));
    Trim(Join(RewriteLines(kept, path + ":", "line "), '\n'))
  }

  /** Output that opens with the `Found ` summary (followed by anything that
      is not all whitespace) reports nothing. */
  lemma RuffSummaryFirstIsEmpty(stdout: string, path: string)
    requires SummaryPrefix <= stdout
    requires !AllWhitespace(stdout[|SummaryPrefix|..])
    ensures RuffMessage(stdout, path) == ""
  {
    var tail := stdout[|SummaryPrefix|..];
    assert stdout == SummaryPrefix + tail;
    assert !IsWhitespace(stdout[0]);
    assert TrimStart(stdout) == stdout;
    var t := Trim(stdout);
    assert t == TrimEnd(stdout);
    TrimEndKeepsPrefix(SummaryPrefix, tail);
    var tt := t[|SummaryPrefix|..];
    assert t == SummaryPrefix + tt;
    FirstLineKeepsPrefix(SummaryPrefix, tt);
    RuffEmptyWhenSummaryFirst(stdout, path);
  }

  lemma FirstLineKeepsPrefix(a: string, t: string)
    requires '\n' !in a && |a| > 0
    ensures |Lines(a + t)| > 0 && a <= Lines(a + t)[0]
  {
    var p := Split(a + t, '\n');
    SplitAtFirstNoSep(a, t, '\n');
    assert p[0] != "";
    assert Lines(a + t)[0] == p[0];
  }

  lemma RuffEmptyWhenSummaryFirst(stdout: string, path: string)
    requires |Lines(Trim(stdout))| > 0 && SummaryPrefix <= Lines(Trim(stdout))[0]
    ensures RuffMessage(stdout, path) == ""
  {
    assert LinesBeforeSummary(Lines(Trim(stdout))) == [];
    assert Join([], '\n') == "";
    assert Trim("") == "" by { TrimEmptyIff(""); }
  }

  lemma TrimEndKeepsPrefix(a: string, b: string)
    requires !AllWhitespace(b)
    ensures a <= TrimEnd(a + b) && |TrimEnd(a + b)| > |a|
  {
    var s := a + b;
    var r := TrimEnd(s);
    var i :| 0 <= i < |b| && !IsWhitespace(b[i]);
    assert s[|a| + i] == b[i];
    forall j | |r| <= j < |s|
      ensures IsWhitespace(s[j])
    {
      assert s[j] == s[|r|..][j - |r|];
    }
    assert r == s[..|r|];
  }

  lemma {:induction false} SplitAtFirstNoSep(a: string, t: string, sep: char)
    requires sep !in a
    ensures a <= Split(a + t, sep)[0]
    decreases |a|
  {
    if |a| > 0 {
      var s := a + t;
      assert s[1..] == a[1..] + t;
      SplitAtFirstNoSep(a[1..], t, sep);
    }
  }

  /** Output that trims to `Found` (a stand-alone `Found ` line, for
      instance, by TrimFoundSpace) no longer starts with the summary prefix
      once trimmed, so it is reported as the message. */
  lemma RuffBareSummaryIsKept(stdout: string, path: string)
    requires Trim(stdout) == "Found"
    ensures RuffMessage(stdout, path) == "Found"
  {
    var line := Trim(stdout);
    assert '\n' !in line && ':' !in line;
    assert ':' in path + ":";
    ContainsKeepsChars(line, path + ":", ':');
    RuffSingleLineKept(stdout, path, line);
  }

  /** Output that trims to one line that neither starts with `Found ` nor
      mentions `<path>:` is reported as that line. */
  lemma RuffSingleLineKept(stdout: string, path: string, line: string)
    requires Trim(stdout) == line && '\n' !in line
    requires !(SummaryPrefix <= line) && !Contains(line, path + ":")
    ensures RuffMessage(stdout, path) == line
  {
    if line == [] {
      assert Lines(line) == [] by { SplitFree(line, '\n'); }
    } else {
      assert Lines(line) == [line] by { SplitFree(line, '\n'); }
    }
    RuffMessagePassThrough(stdout, path);
  }

  /** Trimming takes the space off a bare `Found `. */
  lemma TrimFoundSpace()
    ensures Trim("Found ") == "Found" && Trim("Found") == "Found"
  {
    var found := "Found";
    assert found[0] == 'F' && !IsWhitespace(found[0]);
    assert found[4] == 'd' && !IsWhitespace(found[4]);
    assert TrimStart(found) == found;
    assert TrimEnd(found) == found;
    var spaced := found + " ";
    assert spaced == "Found ";
    assert spaced[0] == 'F';
    assert TrimStart(spaced) == spaced;
    assert spaced[5] == ' ' && spaced[..5] == found;
    assert TrimEnd(spaced) == found;
  }

  /** Output with no summary line and no `<path>:` reference passes through
      trimmed but otherwise verbatim. */
  lemma RuffMessagePassThrough(stdout: string, path: string)
    requires forall i :: 0 <= i < |Lines(Trim(stdout))| ==>
      !(SummaryPrefix <= Lines(Trim(stdout))[i]) && !Contains(Lines(Trim(stdout))[i], path + ":")
    ensures RuffMessage(stdout, path) == Trim(stdout)
  {
    var ls := Lines(Trim(stdout));
    NoSummaryKeepsAll(ls);
    NothingToRewrite(ls, path + ":", "line ");
    JoinLinesOfTrim(stdout);
    TrimIdempotent(stdout);
  }

  lemma NoSummaryKeepsAll(lines: seq<string>)
    requires forall i :: 0 <= i < |lines| ==> !(SummaryPrefix <= lines[i])
    ensures LinesBeforeSummary(lines) == lines
  {
  }

  lemma NothingToRewrite(lines: seq<string>, pat: string, rep: string)
    requires |pat| > 0
    requires forall i :: 0 <= i < |lines| ==> !Contains(lines[i], pat)
    ensures RewriteLines(lines, pat, rep) == lines
  {
    var r := RewriteLines(lines, pat, rep);
    forall i | 0 <= i < |lines| ensures r[i] == lines[i] {
      assert !Contains(lines[i], pat);
    }
  }

  /** A trimmed text split into lines and joined back is itself. */
  lemma JoinLinesOfTrim(s: string)
    ensures Join(Lines(Trim(s)), '\n') == Trim(s)
  {
    var t := Trim(s);
    assert !EndsWithNewline(t) by {
      if t != [] { assert !IsWhitespace(t[|t| - 1]); }
    }
    LinesOfTrimmed(t);
  }

  /** In every kept line the first `<path>:` becomes `line `, and rewriting
      goes on after it. */
  lemma RuffRewritesPath(lines: seq<string>, i: nat, path: string, a: string, b: string)
    requires i < |lines| && lines[i] == a + (path + ":") + b
    requires NoMatchBefore(a + (path + ":") + b, path + ":", |a|)
    ensures RewriteLines(lines, path + ":", "line ")[i] == a + "line " + ReplaceAll(b, path + ":", "line ")
  {
    var pat := path + ":";
    ReplaceFirstOccurrence(a, pat, "line ", b);
  }

  const InspectedMarker: string := "1 file inspected"

  /** The lines that do not mention `1 file inspected`. */
  function DropInspected(lines: seq<string>): (r: seq<string>)
    ensures |r| <= |lines|
    ensures forall x :: x in r <==> x in lines && !Contains(x, InspectedMarker)
    ensures (forall i :: 0 <= i < |lines| ==> !Contains(lines[i], InspectedMarker)) ==> r == lines
    decreases |lines|
  {
    if |lines| == 0 then []
    else if Contains(lines[0], InspectedMarker) then DropInspected(lines[1..])
    else [lines[0]] + DropInspected(lines[1..])
  }

  /** Filtering splits over concatenation, so the kept lines stay in order
      and keep their repetitions. */
  lemma {:induction false} DropInspectedAppend(a: seq<string>, b: seq<string>)
    ensures DropInspected(a + b) == DropInspected(a) + DropInspected(b)
    decreases |a|
  {
    if |a| == 0 {
      assert a + b == b;
    } else {
      assert (a + b)[0] == a[0];
      assert (a + b)[1..] == a[1..] + b;
      DropInspectedAppend(a[1..], b);
    }
  }

  /** A single line is dropped exactly when it mentions `1 file inspected`. */
  lemma DropInspectedSingle(x: string)
    ensures DropInspected([x]) == if Contains(x, InspectedMarker) then [] else [x]
  {
    assert [x][1..] == [];
  }

  /** The Ruby analyser's output: its lines without the `1 file inspected`
      summary, joined with line feeds, trimmed, and with every `<path>:`
      turned into `line `. */
  function RubocopMessage(stdout: string, path: string): string {
    ReplaceAll(Trim(Join(DropInspected(Lines(stdout)), '\n')), path + ":", "line ")
  }

  /** Output with no summary line and no `<path>:` reference passes through
      trimmed but otherwise verbatim. */
  lemma RubocopMessagePassThrough(stdout: string, path: string)
    requires forall i :: 0 <= i < |Lines(stdout)| ==> !Contains(Lines(stdout)[i], InspectedMarker)
    requires !Contains(Trim(stdout), path + ":")
    ensures RubocopMessage(stdout, path) == Trim(stdout)
  {
    var joined := Join(DropInspected(Lines(stdout)), '\n');
    assert joined == Join(Lines(stdout), '\n');
    assert Trim(joined) == Trim(stdout) by { TrimJoinedLines(stdout); }
  }

  /** In the filtered, joined and trimmed output the first `<path>:` becomes
      `line `, and rewriting goes on after it. */
  lemma RubocopRewritesPath(stdout: string, path: string, a: string, b: string)
    requires Trim(Join(DropInspected(Lines(stdout)), '\n')) == a + (path + ":") + b
    requires NoMatchBefore(a + (path + ":") + b, path + ":", |a|)
    ensures RubocopMessage(stdout, path) == a + "line " + ReplaceAll(b, path + ":", "line ")
  {
    var pat := path + ":";
    ReplaceFirstOccurrence(a, pat, "line ", b);
  }

  /** A line mentioning `1 file inspected` anywhere in the output makes no
      difference to the message. */
  lemma RubocopIgnoresMarkerLine(withMarker: string, without: string, path: string,
                                 a: seq<string>, m: string, b: seq<string>)
    requires Lines(withMarker) == a + [m] + b && Lines(without) == a + b
    requires Contains(m, InspectedMarker)
    ensures RubocopMessage(withMarker, path) == RubocopMessage(without, path)
  {
    DropInspectedAppend(a + [m], b);
    DropInspectedAppend(a, [m]);
    DropInspectedAppend(a, b);
    DropInspectedSingle(m);
    assert DropInspected(a) + [] == DropInspected(a);
  }

  /** The same for output given as its lines: inserting a marker line among
      them leaves the message unchanged. */
  lemma RubocopIgnoresInsertedMarker(a: seq<string>, m: string, b: seq<string>, path: string)
    requires forall i :: 0 <= i < |a| ==> '\n' !in a[i]
    requires forall i :: 0 <= i < |b| ==> '\n' !in b[i]
    requires '\n' !in m && Contains(m, InspectedMarker)
    requires a + b == [] || (a + b)[|a + b| - 1] != ""
    ensures RubocopMessage(Join(a + [m] + b, '\n'), path) == RubocopMessage(Join(a + b, '\n'), path)
  {
    var with := a + [m] + b;
    assert m != "" by { ContainsFits(m, InspectedMarker); }
    assert with[|with| - 1] != "" by {
      if b != [] { assert with[|with| - 1] == (a + b)[|a + b| - 1]; }
    }
    NoNewlinesConcat(a, [m]);
    NoNewlinesConcat(a + [m], b);
    NoNewlinesConcat(a, b);
    LinesOfJoin(with);
    LinesOfJoin(a + b);
    RubocopIgnoresMarkerLine(Join(with, '\n'), Join(a + b, '\n'), path, a, m, b);
  }

  lemma NoNewlinesConcat(a: seq<string>, b: seq<string>)
    requires forall i :: 0 <= i < |a| ==> '\n' !in a[i]
    requires forall i :: 0 <= i < |b| ==> '\n' !in b[i]
    ensures forall i :: 0 <= i < |a + b| ==> '\n' !in (a + b)[i]
  {
    forall i | 0 <= i < |a + b| ensures '\n' !in (a + b)[i] {
      if i >= |a| { assert (a + b)[i] == b[i - |a|]; }
    }
  }

  /** The Nushell check's output, trimmed. */
  function NushellMessage(stdout: string): string {
    Trim(stdout)
  }

  /** Nushell reports nothing exactly when its output is blank. */
  lemma NushellMessageEmptyIff(stdout: string)
    ensures NushellMessage(stdout) == "" <==> AllWhitespace(stdout)
  {
    TrimEmptyIff(stdout);
  }

  /** The kind of error launching the analyser raised. */
  datatype IoErrorKind = NotFound | OtherKind(description: string)

  /** What running the analyser produced: its standard output or an error. */
  datatype ToolOutcome = Stdout(text: string) | ToolError(kind: IoErrorKind)

  /** The analyser runs, seen from outside: handler and file path in,
      outcome out. */
  type Tool = (Handler, string) -> ToolOutcome

  /** `execute`: the catch-all never runs anything and always warns; every
      other handler runs its analyser, passes launch errors through, and
      turns the output into findings. */
  function Execute(h: Handler, path: string, tool: Tool): (r: Result<LintResult, IoErrorKind>)
    ensures h == Catchall ==> r == Success(WarningResult(NoLinterMessage))
    ensures h != Catchall ==> (r.Success? <==> tool(h, path).Stdout?)
    ensures h != Catchall && r.Success? ==> r.value.kind == Findings
    ensures r.Failure? ==> r.error == tool(h, path).kind
    ensures r.Success? && h == Shellcheck ==> r.value.message == ShellcheckMessage(tool(h, path).text, path)
    ensures r.Success? && h == Ruff ==> r.value.message == RuffMessage(tool(h, path).text, path)
    ensures r.Success? && h == Rubocop ==> r.value.message == RubocopMessage(tool(h, path).text, path)
    ensures r.Success? && h == Nushell ==> r.value.message == NushellMessage(tool(h, path).text)
  {
    if h == Catchall then Success(WarningResult(NoLinterMessage))
    else
      match tool(h, path)
      case ToolError(kind) => Failure(kind)
      case Stdout(out) =>
        var message := match h
          case Shellcheck => ShellcheckMessage(out, path)
          case Ruff => RuffMessage(out, path)
          case Rubocop => RubocopMessage(out, path)
          case _ => NushellMessage(out);
        Success(FindingsResult(message))
  }

  /** The catch-all's result does not depend on any analyser. */
  lemma CatchallIgnoresTool(path: string, tool1: Tool, tool2: Tool)
    ensures Execute(Catchall, path, tool1) == Execute(Catchall, path, tool2)
    ensures Execute(Catchall, path, tool1).value.message != ""
  {
  }
}
