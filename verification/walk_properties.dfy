/** What the walker guarantees for a whole command tree. The tree walk is
    first shown to equal the flat, one-script-after-another reference
    `ProcessEntries` over the scripts in document order; the remaining facts
    are proved about that reference and carried over. */
module WalkProperties {
  import opened Wrappers
  import opened Text
  import opened Handlers
  import opened Naming
  import opened Walker

  /** Continues a partial result with further scripts. */
  function AndThen(step: Step, first: Result<Walked, WalkError>, more: seq<Entry>): Result<Walked, WalkError> {
    match first
    case Failure(e) => Failure(e)
    case Success(w) =>
      match Sequence(step, more, w.files)
      case Failure(e) => Failure(e)
      case Success(rest) => Success(Combine(w, rest))
  }

  /** Processing `a + b` is processing `a` and then `b` from where `a` left
      the output directory; an error in `a` is the error of the whole. */
  lemma {:induction false} SequenceAppend(step: Step, a: seq<Entry>, b: seq<Entry>, files: Files)
    ensures Sequence(step, a + b, files) == AndThen(step, Sequence(step, a, files), b)
    decreases |a|
  {
    if |a| == 0 {
      assert a + b == b;
      match Sequence(step, b, files)
      case Failure(_) =>
      case Success(rest) =>
        assert [] + rest.printed == rest.printed;
        assert Combine(Walked(0, files, []), rest) == rest;
    } else {
      var ab := a + b;
      assert ab[0] == a[0];
      assert ab[1..] == a[1..] + b;
      match step(a[0], files)
      case Failure(_) =>
      case Success(first) =>
        SequenceAppend(step, a[1..], b, first.files);
        match Sequence(step, a[1..], first.files)
        case Failure(_) =>
        case Success(middle) =>
          match Sequence(step, b, middle.files)
          case Failure(_) =>
          case Success(last) =>
            assert first.printed + (middle.printed + last.printed)
                == (first.printed + middle.printed) + last.printed;
            assert Combine(first, Combine(middle, last)) == Combine(Combine(first, middle), last);
    }
  }

  /** The tree walk from one command is the reference run over its scripts. */
  lemma {:induction false} WalkIsFold(ctx: Context, node: Command, parent: Option<string>, files: Files, run: Executor)
    ensures Walk(ctx, node, parent, files, run) == ProcessEntries(ctx, Flatten(node, parent), files, run)
    decreases node
  {
    var fullName := FullName(parent, node.name);
    var own := if node.script.Some? then [Entry(fullName, node.script.value)] else [];
    var rest := FlattenAll(node.subcommands, Some(fullName));
    assert Flatten(node, parent) == own + rest;
    SequenceAppend(ScriptStep(ctx, run), own, rest, files);
    if node.script.Some? {
      match ProcessScript(ctx, fullName, node.script.value, files, run)
      case Failure(e) =>
      case Success(w) =>
        assert ProcessEntries(ctx, own, files, run) == Success(Combine(w, Walked(0, w.files, [])));
        assert Combine(w, Walked(0, w.files, [])) == w;
    }
    match VisitScript(ctx, fullName, node.script, files, run)
    case Failure(e) =>
    case Success(w) =>
      WalkAllIsFold(ctx, node.subcommands, Some(fullName), w.files, run);
  }

  /** The walk over sibling commands is the reference run over their scripts. */
  lemma {:induction false} WalkAllIsFold(ctx: Context, nodes: seq<Command>, parent: Option<string>, files: Files, run: Executor)
    ensures WalkAll(ctx, nodes, parent, files, run) == ProcessEntries(ctx, FlattenAll(nodes, parent), files, run)
    decreases nodes
  {
    if |nodes| > 0 {
      var first := Flatten(nodes[0], parent);
      var more := FlattenAll(nodes[1..], parent);
      SequenceAppend(ScriptStep(ctx, run), first, more, files);
      WalkIsFold(ctx, nodes[0], parent, files, run);
      match Walk(ctx, nodes[0], parent, files, run)
      case Failure(e) =>
      case Success(w) =>
        WalkAllIsFold(ctx, nodes[1..], parent, w.files, run);
    }
  }

  /** The handler, path and analyser result of one script. */
  function EntryHandler(e: Entry): Handler {
    Dispatch(e.script.executor)
  }

  function EntryPath(ctx: Context, e: Entry): string {
    ScriptPath(ctx.outDir, e.fullName, EntryHandler(e))
  }

  function EntryContent(e: Entry): string {
    Content(EntryHandler(e), e.script)
  }

  function EntryResult(ctx: Context, e: Entry, run: Executor): Result<LintResult, IoErrorKind> {
    run(EntryHandler(e), EntryPath(ctx, e))
  }

  /** The paths the scripts are written to, in order. */
  function Paths(ctx: Context, entries: seq<Entry>): (ps: seq<string>)
    ensures |ps| == |entries|
    ensures forall i :: 0 <= i < |ps| ==> ps[i] == EntryPath(ctx, entries[i])
    decreases |entries|
  {
    if |entries| == 0 then [] else [EntryPath(ctx, entries[0])] + Paths(ctx, entries[1..])
  }

  /** No path is taken already and no two scripts share a path. */
  predicate FreshAndDistinct(ps: seq<string>, files: Files) {
    && (forall i :: 0 <= i < |ps| ==> ps[i] !in files)
    && (forall i, j :: 0 <= i < j < |ps| ==> ps[i] != ps[j])
  }

  /** Every analyser launch succeeds. */
  predicate AllRun(ctx: Context, entries: seq<Entry>, run: Executor) {
    forall i :: 0 <= i < |entries| ==> EntryResult(ctx, entries[i], run).Success?
  }

  /** The number of scripts whose analyser result is a non-empty finding. */
  function CountFindings(ctx: Context, entries: seq<Entry>, run: Executor): nat
    decreases |entries|
  {
    if |entries| == 0 then 0
    else
      var r := EntryResult(ctx, entries[0], run);
      (if r.Success? && IsFinding(r.value) then 1 else 0) + CountFindings(ctx, entries[1..], run)
  }

  /** The reports printed for the scripts, in order. */
  function Reports(ctx: Context, entries: seq<Entry>, run: Executor): seq<Report>
    decreases |entries|
  {
    if |entries| == 0 then []
    else
      var r := EntryResult(ctx, entries[0], run);
      (if r.Success? && IsShown(ctx, r.value) then [Report(entries[0].fullName, r.value.message)] else [])
        + Reports(ctx, entries[1..], run)
  }

  lemma FreshAndDistinctCons(p: string, ps: seq<string>, files: Files, content: string)
    ensures FreshAndDistinct([p] + ps, files) <==> p !in files && FreshAndDistinct(ps, files[p := content])
  {
    var qs := [p] + ps;
    if p !in files && FreshAndDistinct(ps, files[p := content]) {
      forall i, j | 0 <= i < j < |qs| ensures qs[i] != qs[j] {
        if i > 0 {
          assert qs[i] == ps[i - 1] && qs[j] == ps[j - 1];
        } else {
          assert qs[j] == ps[j - 1];
        }
      }
      forall i | 0 <= i < |qs| ensures qs[i] !in files {
        if i > 0 { assert qs[i] == ps[i - 1]; }
      }
    }
    if FreshAndDistinct(qs, files) {
      assert qs[0] == p;
      forall i | 0 <= i < |ps| ensures ps[i] !in files[p := content] {
        assert ps[i] == qs[i + 1];
        assert qs[0] != qs[i + 1];
      }
      forall i, j | 0 <= i < j < |ps| ensures ps[i] != ps[j] {
        assert ps[i] == qs[i + 1] && ps[j] == qs[j + 1];
      }
    }
  }

  /** One script, in the terms of its entry: it succeeds exactly when its
      path is free and, outside dump mode, its analyser launches; it then
      adds its file. */
  lemma StepEffect(ctx: Context, run: Executor, e: Entry, files: Files)
    ensures ScriptStep(ctx, run)(e, files).Success?
        <==> EntryPath(ctx, e) !in files && (ctx.isDump || EntryResult(ctx, e, run).Success?)
    ensures ScriptStep(ctx, run)(e, files).Success? ==>
      ScriptStep(ctx, run)(e, files).value.files == files[EntryPath(ctx, e) := EntryContent(e)]
  {
  }

  lemma PathsCons(ctx: Context, entries: seq<Entry>)
    requires |entries| > 0
    ensures Paths(ctx, entries) == [EntryPath(ctx, entries[0])] + Paths(ctx, entries[1..])
  {
  }

  lemma AllRunCons(ctx: Context, entries: seq<Entry>, run: Executor)
    requires |entries| > 0
    ensures AllRun(ctx, entries, run)
        <==> EntryResult(ctx, entries[0], run).Success? && AllRun(ctx, entries[1..], run)
  {
    if EntryResult(ctx, entries[0], run).Success? && AllRun(ctx, entries[1..], run) {
      forall i | 0 <= i < |entries| ensures EntryResult(ctx, entries[i], run).Success? {
        if i > 0 { assert entries[i] == entries[1..][i - 1]; }
      }
    }
    if AllRun(ctx, entries, run) {
      forall i | 0 <= i < |entries[1..]| ensures EntryResult(ctx, entries[1..][i], run).Success? {
        assert entries[1..][i] == entries[i + 1];
      }
    }
  }

  /** The reference run succeeds exactly when every script gets a path of
      its own that is not taken yet and, outside dump mode, every analyser
      launch succeeds. */
  lemma {:induction false} ProcessEntriesSucceedsIff(ctx: Context, entries: seq<Entry>, files: Files, run: Executor)
    ensures ProcessEntries(ctx, entries, files, run).Success?
        <==> FreshAndDistinct(Paths(ctx, entries), files) && (ctx.isDump || AllRun(ctx, entries, run))
    decreases |entries|
  {
    if |entries| > 0 {
      var e := entries[0];
      var files' := files[EntryPath(ctx, e) := EntryContent(e)];
      StepEffect(ctx, run, e, files);
      PathsCons(ctx, entries);
      AllRunCons(ctx, entries, run);
      FreshAndDistinctCons(EntryPath(ctx, e), Paths(ctx, entries[1..]), files, EntryContent(e));
      ProcessEntriesSucceedsIff(ctx, entries[1..], files', run);
    }
  }

  /** A successful run of several steps is a successful first step followed
      by a successful run of the rest. */
  lemma SequenceCons(step: Step, entries: seq<Entry>, files: Files, w: Walked)
    requires |entries| > 0 && Sequence(step, entries, files) == Success(w)
    ensures step(entries[0], files).Success?
    ensures Sequence(step, entries[1..], step(entries[0], files).value.files).Success?
    ensures w == Combine(step(entries[0], files).value,
                         Sequence(step, entries[1..], step(entries[0], files).value.files).value)
  {
  }

  /** After a successful reference run the output directory holds what it
      held before plus exactly one file per script, with the handler's
      content, and nothing that was there is changed. */
  lemma {:induction false} ProcessEntriesFiles(ctx: Context, entries: seq<Entry>, files: Files, run: Executor, w: Walked)
    requires ProcessEntries(ctx, entries, files, run) == Success(w)
    ensures forall k :: k in w.files <==> k in files || k in Paths(ctx, entries)
    ensures forall k :: k in files ==> w.files[k] == files[k]
    ensures forall i :: 0 <= i < |entries| ==>
      EntryPath(ctx, entries[i]) in w.files && w.files[EntryPath(ctx, entries[i])] == EntryContent(entries[i])
    decreases |entries|
  {
    if |entries| > 0 {
      var step := ScriptStep(ctx, run);
      var e := entries[0];
      var p := EntryPath(ctx, e);
      SequenceCons(step, entries, files, w);
      StepEffect(ctx, run, e, files);
      var first := step(e, files).value;
      var rest := Sequence(step, entries[1..], first.files).value;
      ProcessEntriesFiles(ctx, entries[1..], first.files, run, rest);
      ProcessEntriesSucceedsIff(ctx, entries, files, run);
      PathsCons(ctx, entries);
      var tailPaths := Paths(ctx, entries[1..]);
      assert p !in files;
      assert p !in tailPaths by {
        forall j | 0 <= j < |tailPaths| ensures tailPaths[j] != p {
          assert Paths(ctx, entries)[j + 1] == tailPaths[j];
        }
      }
      forall i | 0 <= i < |entries|
        ensures EntryPath(ctx, entries[i]) in w.files && w.files[EntryPath(ctx, entries[i])] == EntryContent(entries[i])
      {
        if i > 0 {
          assert entries[i] == entries[1..][i - 1];
        }
      }
    }
  }

  /** A successful reference run counts the scripts whose analyser reported
      non-empty findings (none when dumping) and prints the shown results in
      order (nothing when dumping). */
  lemma {:induction false} ProcessEntriesOutput(ctx: Context, entries: seq<Entry>, files: Files, run: Executor, w: Walked)
    requires ProcessEntries(ctx, entries, files, run) == Success(w)
    ensures w.findings == if ctx.isDump then 0 else CountFindings(ctx, entries, run)
    ensures w.printed == if ctx.isDump then [] else Reports(ctx, entries, run)
    decreases |entries|
  {
    if |entries| > 0 {
      var step := ScriptStep(ctx, run);
      var e := entries[0];
      SequenceCons(step, entries, files, w);
      var first := step(e, files).value;
      var rest := Sequence(step, entries[1..], first.files).value;
      ProcessEntriesOutput(ctx, entries[1..], first.files, run, rest);
    }
  }

  /** The walk of a command succeeds exactly when its scripts get distinct,
      untaken paths and, outside dump mode, every analyser launch succeeds. */
  lemma WalkSucceedsIff(ctx: Context, node: Command, parent: Option<string>, files: Files, run: Executor)
    ensures Walk(ctx, node, parent, files, run).Success?
        <==> FreshAndDistinct(Paths(ctx, Flatten(node, parent)), files)
             && (ctx.isDump || AllRun(ctx, Flatten(node, parent), run))
  {
    WalkIsFold(ctx, node, parent, files, run);
    ProcessEntriesSucceedsIff(ctx, Flatten(node, parent), files, run);
  }

  /** A successful walk writes one file per script, counts the scripts whose
      analyser reported non-empty findings (none when dumping), and prints
      the shown results in document order. */
  lemma WalkEffect(ctx: Context, node: Command, parent: Option<string>, files: Files, run: Executor, w: Walked)
    requires Walk(ctx, node, parent, files, run) == Success(w)
    ensures forall k :: k in w.files <==> k in files || k in Paths(ctx, Flatten(node, parent))
    ensures forall k :: k in files ==> w.files[k] == files[k]
    ensures forall e :: e in Flatten(node, parent) ==>
      EntryPath(ctx, e) in w.files && w.files[EntryPath(ctx, e)] == EntryContent(e)
    ensures w.findings == if ctx.isDump then 0 else CountFindings(ctx, Flatten(node, parent), run)
    ensures w.printed == if ctx.isDump then [] else Reports(ctx, Flatten(node, parent), run)
  {
    WalkIsFold(ctx, node, parent, files, run);
    ProcessEntriesFiles(ctx, Flatten(node, parent), files, run, w);
    ProcessEntriesOutput(ctx, Flatten(node, parent), files, run, w);
  }

  /** In dump mode no analyser is consulted: the walk is the same whatever
      the analysers would have answered. */
  lemma {:induction false} DumpIgnoresTools(ctx: Context, entries: seq<Entry>, files: Files, run1: Executor, run2: Executor)
    requires ctx.isDump
    ensures ProcessEntries(ctx, entries, files, run1) == ProcessEntries(ctx, entries, files, run2)
    decreases |entries|
  {
    if |entries| > 0 {
      var e := entries[0];
      assert ProcessScript(ctx, e.fullName, e.script, files, run1) == ProcessScript(ctx, e.fullName, e.script, files, run2);
      match ProcessScript(ctx, e.fullName, e.script, files, run1)
      case Failure(_) =>
      case Success(first) =>
        DumpIgnoresTools(ctx, entries[1..], first.files, run1, run2);
    }
  }

  /** A dump walk never runs an analyser and never counts anything. */
  lemma DumpWalk(ctx: Context, node: Command, parent: Option<string>, files: Files, run1: Executor, run2: Executor)
    requires ctx.isDump
    ensures Walk(ctx, node, parent, files, run1) == Walk(ctx, node, parent, files, run2)
    ensures Walk(ctx, node, parent, files, run1).Success? ==>
      Walk(ctx, node, parent, files, run1).value.findings == 0
  {
    WalkIsFold(ctx, node, parent, files, run1);
    WalkIsFold(ctx, node, parent, files, run2);
    DumpIgnoresTools(ctx, Flatten(node, parent), files, run1, run2);
    if Walk(ctx, node, parent, files, run1).Success? {
      WalkEffect(ctx, node, parent, files, run1, Walk(ctx, node, parent, files, run1).value);
    }
  }

  /** Two results that differ at most in what was printed. */
  predicate SameButPrinted(a: Result<Walked, WalkError>, b: Result<Walked, WalkError>) {
    && (a.Success? <==> b.Success?)
    && (a.Failure? ==> a == b)
    && (a.Success? ==> a.value.findings == b.value.findings && a.value.files == b.value.files)
  }

  /** Steps that agree on everything but printing give runs that do too. */
  lemma {:induction false} SequenceSameButPrinted(step1: Step, step2: Step, entries: seq<Entry>, files: Files)
    requires forall e, f :: SameButPrinted(step1(e, f), step2(e, f))
    ensures SameButPrinted(Sequence(step1, entries, files), Sequence(step2, entries, files))
    decreases |entries|
  {
    if |entries| > 0 {
      var r := step1(entries[0], files);
      assert SameButPrinted(r, step2(entries[0], files));
      if r.Success? {
        SequenceSameButPrinted(step1, step2, entries[1..], r.value.files);
      }
    }
  }

  /** Suppressing warnings changes what is printed and nothing else. */
  lemma NoWarningsOnlyAffectsPrinting(ctx: Context, entries: seq<Entry>, files: Files, run: Executor, quiet: bool)
    ensures SameButPrinted(ProcessEntries(ctx, entries, files, run),
                           ProcessEntries(ctx.(noWarnings := quiet), entries, files, run))
  {
    var ctx' := ctx.(noWarnings := quiet);
    forall e, f ensures SameButPrinted(ScriptStep(ctx, run)(e, f), ScriptStep(ctx', run)(e, f)) {
    }
    SequenceSameButPrinted(ScriptStep(ctx, run), ScriptStep(ctx', run), entries, files);
  }

  /** A command tree in which no command has a script. */
  predicate ScriptFree(node: Command)
    decreases node
  {
    node.script.None? && forall i :: 0 <= i < |node.subcommands| ==> ScriptFree(node.subcommands[i])
  }

  lemma {:induction false} ScriptFreeFlattensToNothing(node: Command, parent: Option<string>)
    requires ScriptFree(node)
    ensures Flatten(node, parent) == []
    decreases node
  {
    ScriptFreeAllFlattensToNothing(node.subcommands, Some(FullName(parent, node.name)));
  }

  lemma {:induction false} ScriptFreeAllFlattensToNothing(nodes: seq<Command>, parent: Option<string>)
    requires forall i :: 0 <= i < |nodes| ==> ScriptFree(nodes[i])
    ensures FlattenAll(nodes, parent) == []
    decreases nodes
  {
    if |nodes| > 0 {
      ScriptFreeFlattensToNothing(nodes[0], parent);
      ScriptFreeAllFlattensToNothing(nodes[1..], parent);
    }
  }

  /** A tree without scripts counts nothing, creates no file, prints
      nothing, and cannot fail. */
  lemma ScriptFreeWalkIsIdle(ctx: Context, node: Command, parent: Option<string>, files: Files, run: Executor)
    requires ScriptFree(node)
    ensures Walk(ctx, node, parent, files, run) == Success(Walked(0, files, []))
  {
    ScriptFreeFlattensToNothing(node, parent);
    WalkIsFold(ctx, node, parent, files, run);
  }

  /** Once a command fails, later siblings make no difference: the walk of
      all siblings fails with that same error. */
  lemma {:induction false} WalkAllStopsAtFirstError(ctx: Context, nodes: seq<Command>, k: nat, parent: Option<string>, files: Files, run: Executor)
    requires k <= |nodes|
    requires WalkAll(ctx, nodes[..k], parent, files, run).Failure?
    ensures WalkAll(ctx, nodes, parent, files, run) == WalkAll(ctx, nodes[..k], parent, files, run)
    decreases k
  {
    var prefix := nodes[..k];
    assert prefix[0] == nodes[0];
    match Walk(ctx, nodes[0], parent, files, run)
    case Failure(_) =>
    case Success(w) =>
      assert prefix[1..] == nodes[1..][..k - 1];
      WalkAllStopsAtFirstError(ctx, nodes[1..], k - 1, parent, w.files, run);
  }

  /** Two scripts that land on the same path make the walk fail instead of
      overwriting; this covers two commands with the same full name and the
      same handler. */
  lemma CollidingPathsFail(ctx: Context, node: Command, parent: Option<string>, files: Files, run: Executor, i: nat, j: nat)
    requires i < j < |Flatten(node, parent)|
    requires EntryPath(ctx, Flatten(node, parent)[i]) == EntryPath(ctx, Flatten(node, parent)[j])
    ensures Walk(ctx, node, parent, files, run).Failure?
  {
    WalkSucceedsIff(ctx, node, parent, files, run);
    var ps := Paths(ctx, Flatten(node, parent));
    assert ps[i] == ps[j];
  }

  /** Walking the same tree again into the directory the first walk filled
      fails on the first script's file. */
  lemma SecondWalkCollides(ctx: Context, node: Command, parent: Option<string>, files: Files, run1: Executor, run2: Executor, w: Walked)
    requires Walk(ctx, node, parent, files, run1) == Success(w)
    requires |Flatten(node, parent)| > 0
    ensures Walk(ctx, node, parent, w.files, run2) == Failure(FileExists(EntryPath(ctx, Flatten(node, parent)[0])))
  {
    var entries := Flatten(node, parent);
    WalkEffect(ctx, node, parent, files, run1, w);
    var p := EntryPath(ctx, entries[0]);
    assert p in w.files;
    WalkIsFold(ctx, node, parent, w.files, run2);
  }
}
