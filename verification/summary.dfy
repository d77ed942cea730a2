/** The top level (`main` after parsing): every top-level command is walked
    in order with no parent name, the findings are added up, and a positive
    total turns into an error whose message gives the number of files with
    lint failures. */
module Summary {
  import opened Wrappers
  import opened Decimal
  import opened Walker
  import opened WalkProperties

  const Tail := " with lint failures."

  /** "file" for exactly one, "files" otherwise. */
  function FileNoun(total: nat): (noun: string)
    ensures noun == "file" <==> total == 1
    ensures noun == "file" || noun == "files"
  {
    if total == 1 then "file" else "files"
  }

  /** The closing error message, or nothing when there were no findings. */
  function LintSummary(total: nat): (m: Option<string>)
    ensures m.Some? <==> total > 0
    ensures m.Some? ==> NatToString(total) <= m.value && |m.value| > |NatToString(total)|
  {
    if total > 0 then Some(NatToString(total) + " " + FileNoun(total) + Tail) else None
  }

  /** The number of files can be read back from the start of the message. */
  lemma SummaryRecoversCount(total: nat)
    requires total > 0
    ensures var digits := LeadingDigits(LintSummary(total).value);
            AllDigits(digits) && ParseDigits(digits) == total
  {
    var rest := " " + FileNoun(total) + Tail;
    assert LintSummary(total).value == NatToString(total) + rest;
    LeadingDigitsOfConcat(NatToString(total), rest);
    ParseNatToString(total);
  }

  /** Different totals give different messages. */
  lemma SummaryInjective(a: nat, b: nat)
    ensures LintSummary(a) == LintSummary(b) <==> a == b
  {
    if a != b && LintSummary(a) == LintSummary(b) {
      SummaryRecoversCount(a);
      SummaryRecoversCount(b);
    }
  }

  /** The singular message. */
  lemma SingleFileSummary()
    ensures LintSummary(1) == Some("1 file with lint failures.")
  {
    assert DigitChar(1) == '1';
    assert NatToString(1) == "1";
    assert "1" + " " + "file" + Tail == "1 file with lint failures.";
  }

  /** Every other positive total gives its digits and the plural noun. */
  lemma PluralSummary(total: nat)
    requires total > 1
    ensures LintSummary(total) == Some(NatToString(total) + " files with lint failures.")
  {
    assert " " + "files" + Tail == " files with lint failures.";
    assert NatToString(total) + " " + "files" + Tail == NatToString(total) + (" " + "files" + Tail);
  }

  datatype RunError =
    | WalkFailed(error: WalkError)
    | LintFailures(message: string)

  /** The run over the top-level commands: the walk's error is passed
      through; a walk with findings is an error with the summary message. */
  function Run(ctx: Context, commands: seq<Command>, files: Files, run: Executor): Result<Walked, RunError> {
    match WalkAll(ctx, commands, None, files, run)
    case Failure(e) => Failure(WalkFailed(e))
    case Success(w) =>
      match LintSummary(w.findings)
      case Some(m) => Failure(LintFailures(m))
      case None => Success(w)
  }

  /** The run succeeds exactly when the walk does and counts nothing; a walk
      error is reported unchanged, and findings are reported with their
      number. */
  lemma RunOutcome(ctx: Context, commands: seq<Command>, files: Files, run: Executor)
    ensures var walk := WalkAll(ctx, commands, None, files, run);
            var r := Run(ctx, commands, files, run);
            && (r.Success? <==> walk.Success? && walk.value.findings == 0)
            && (walk.Failure? ==> r == Failure(WalkFailed(walk.error)))
            && (walk.Success? && walk.value.findings > 0 ==>
                  r.Failure? && r.error.LintFailures?
                  && ParseDigits(LeadingDigits(r.error.message)) == walk.value.findings)
  {
    var walk := WalkAll(ctx, commands, None, files, run);
    if walk.Success? && walk.value.findings > 0 {
      SummaryRecoversCount(walk.value.findings);
    }
  }

  /** Dumping never ends in a lint-failure error: it either fails on a file
      or succeeds. */
  lemma DumpNeverReportsFindings(ctx: Context, commands: seq<Command>, files: Files, run: Executor)
    requires ctx.isDump
    ensures var r := Run(ctx, commands, files, run);
            r.Failure? ==> r.error.WalkFailed?
  {
    WalkAllIsFold(ctx, commands, None, files, run);
    var walk := WalkAll(ctx, commands, None, files, run);
    if walk.Success? {
      ProcessEntriesOutput(ctx, FlattenAll(commands, None), files, run, walk.value);
    }
  }
}
