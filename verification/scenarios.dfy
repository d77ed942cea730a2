/** The walker together with the real handlers: scripts in languages without
    an analyser, and dumping a single script. */
module Scenarios {
  import opened Wrappers
  import opened Text
  import opened Handlers
  import opened Naming
  import opened Walker
  import opened WalkProperties
  import opened Summary

  /** Every script is in a language no analyser is known for. */
  predicate Unlinted(entries: seq<Entry>) {
    forall i :: 0 <= i < |entries| ==> EntryHandler(entries[i]) == Catchall
  }

  /** A script without an analyser yields the fixed warning, whatever the
      analysers would answer: it never counts, and it is printed unless
      warnings are suppressed. */
  lemma CatchallEntry(ctx: Context, e: Entry, tool: Tool)
    requires EntryHandler(e) == Catchall
    ensures EntryResult(ctx, e, HandlerExecutor(tool)) == Success(WarningResult(NoLinterMessage))
    ensures !IsFinding(EntryResult(ctx, e, HandlerExecutor(tool)).value)
    ensures IsShown(ctx, EntryResult(ctx, e, HandlerExecutor(tool)).value) <==> !ctx.noWarnings
  {
  }

  /** Scripts without analysers always launch, count nothing, and print one
      warning each unless warnings are suppressed. */
  lemma {:induction false} UnlintedOutput(ctx: Context, entries: seq<Entry>, tool: Tool)
    requires Unlinted(entries)
    ensures AllRun(ctx, entries, HandlerExecutor(tool))
    ensures CountFindings(ctx, entries, HandlerExecutor(tool)) == 0
    ensures var reports := Reports(ctx, entries, HandlerExecutor(tool));
            && |reports| == (if ctx.noWarnings then 0 else |entries|)
            && forall i :: 0 <= i < |reports| ==> reports[i] == Report(entries[i].fullName, NoLinterMessage)
    decreases |entries|
  {
    if |entries| > 0 {
      var run := HandlerExecutor(tool);
      CatchallEntry(ctx, entries[0], tool);
      assert Unlinted(entries[1..]) by {
        forall i | 0 <= i < |entries[1..]| ensures EntryHandler(entries[1..][i]) == Catchall {
          assert entries[1..][i] == entries[i + 1];
        }
      }
      UnlintedOutput(ctx, entries[1..], tool);
      AllRunCons(ctx, entries, run);
      var reports := Reports(ctx, entries, run);
      var tail := Reports(ctx, entries[1..], run);
      if !ctx.noWarnings {
        assert reports == [Report(entries[0].fullName, NoLinterMessage)] + tail;
        forall i | 0 <= i < |reports| ensures reports[i] == Report(entries[i].fullName, NoLinterMessage) {
          if i > 0 { assert reports[i] == tail[i - 1] && entries[i] == entries[1..][i - 1]; }
        }
      }
    }
  }

  /** A maskfile whose scripts all lack an analyser passes exactly when
      their files can all be created. */
  lemma UnlintedRun(ctx: Context, commands: seq<Command>, files: Files, tool: Tool)
    requires Unlinted(FlattenAll(commands, None))
    ensures Run(ctx, commands, files, HandlerExecutor(tool)).Success?
        <==> FreshAndDistinct(Paths(ctx, FlattenAll(commands, None)), files)
  {
    var run := HandlerExecutor(tool);
    var entries := FlattenAll(commands, None);
    WalkAllIsFold(ctx, commands, None, files, run);
    ProcessEntriesSucceedsIff(ctx, entries, files, run);
    UnlintedOutput(ctx, entries, tool);
    RunOutcome(ctx, commands, files, run);
    if ProcessEntries(ctx, entries, files, run).Success? {
      ProcessEntriesOutput(ctx, entries, files, run, ProcessEntries(ctx, entries, files, run).value);
    }
  }

  /** Dumping one script whose path is free adds its file and nothing else. */
  lemma DumpScript(ctx: Context, fullName: string, script: Script, files: Files, run: Executor)
    requires ctx.isDump
    requires ScriptPath(ctx.outDir, fullName, Dispatch(script.executor)) !in files
    ensures ProcessScript(ctx, fullName, script, files, run)
         == Success(Walked(0, files[ScriptPath(ctx.outDir, fullName, Dispatch(script.executor))
                                    := Content(Dispatch(script.executor), script)], []))
  {
  }

  /** Dumping a leaf command with a script whose path is free adds its file. */
  lemma DumpLeaf(ctx: Context, parent: Option<string>, name: string, script: Script, files: Files, run: Executor)
    requires ctx.isDump
    requires ScriptPath(ctx.outDir, FullName(parent, name), Dispatch(script.executor)) !in files
    ensures var p := ScriptPath(ctx.outDir, FullName(parent, name), Dispatch(script.executor));
            Walk(ctx, Command(name, Some(script), []), parent, files, run)
              == Success(Walked(0, files[p := Content(Dispatch(script.executor), script)], []))
  {
    var p := ScriptPath(ctx.outDir, FullName(parent, name), Dispatch(script.executor));
    var f := files[p := Content(Dispatch(script.executor), script)];
    DumpScript(ctx, FullName(parent, name), script, files, run);
    assert WalkAll(ctx, [], Some(FullName(parent, name)), f, run) == Success(Walked(0, f, []));
    assert Combine(Walked(0, f, []), Walked(0, f, [])) == Walked(0, f, []);
  }
}
