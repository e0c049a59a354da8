/** Where the emitter's verdict and the final gate's verdict on the same run agree. */
module GateAgreement {
  import opened Text
  import opened JsonValue
  import opened GateEvidence
  import opened FinalGate

  /** The run earns a PASS from the emitter. */
  predicate EmittedPass(classify: string -> Option<Outcome>, gate: Gate, seen: Observed) {
    Core(classify, gate, seen) && OutcomesAgree(classify, gate, seen)
  }

  /** The verdict that stands in the gate's artifact on disk. */
  function WrittenVerdict(files: map<Path, File>, gate: Gate): Option<string> {
    if gate.jsonOut !in files || files[gate.jsonOut].Unreadable? then None
    else
      var document := files[gate.jsonOut].json;
      if document.JObject? && "verdict" in document.fields && document.fields["verdict"].JString?
      then Some(document.fields["verdict"].s) else None
  }

  /** The artifact on disk says PASS if the run earned it, and FAIL if it did not. */
  lemma WrittenIsEarned(files: map<Path, File>, classify: string -> Option<Outcome>, gate: Gate, seen: Observed, proof: Path)
    requires LeftBy(files, classify, gate, seen, proof)
    ensures WrittenVerdict(files, gate) == Some(if EmittedPass(classify, gate, seen) then "PASS" else "FAIL")
  {
    hide EmittedPass, ArtifactOf, GitRecordOf, ReportRecordOf, OutcomesOf;
    ArtifactRecords(classify, gate, seen, EmittedPass(classify, gate, seen));
  }

  lemma PassIsNotFail()
    ensures "PASS" != "FAIL"
  {
    assert "PASS"[0] != "FAIL"[0];
  }

  /** git told the emitter a revision. */
  predicate RevisionKnown(seen: Observed) {
    !Blank(GitText(seen.revision))
  }

  /** A gate is listed under its JSON artifact, or under its report with the artifact beside it. */
  predicate ListedUnder(gate: Gate, proof: Path) {
    && gate.jsonOut.suffix == ".json"
    && (proof == gate.jsonOut
        || (gate.xmlOut == Some(proof) && proof.suffix != ".json" && proof.(suffix := ".json") == gate.jsonOut))
  }

  /** The gate's proof and artifact are as its run left them. */
  predicate LeftBy(files: map<Path, File>, classify: string -> Option<Outcome>, gate: Gate, seen: Observed, proof: Path) {
    && gate.jsonOut in files
    && files[gate.jsonOut] == Document(ArtifactOf(classify, gate, seen, EmittedPass(classify, gate, seen)))
    && (proof in files <==> proof == gate.jsonOut || !XmlOf(gate, seen).NotWritten?)
  }

  /** If a revision was recorded, it is still there and its watched paths are unchanged. */
  predicate JudgedUnchanged(gate: Gate, seen: Observed, checkout: Checkout) {
    RevisionKnown(seen) ==> Unchanged(Strip(GitText(seen.revision)), WatchedPaths(gate), checkout)
  }

  /** Emit establishes LeftBy, whatever was on disk before. */
  lemma EmitLeaves(files: map<Path, File>, classify: string -> Option<Outcome>, gate: Gate, seen: Observed, proof: Path)
    requires ListedUnder(gate, proof)
    ensures LeftBy(FilesAfter(files, gate, XmlOf(gate, seen), ArtifactOf(classify, gate, seen, EmittedPass(classify, gate, seen))),
                   classify, gate, seen, proof)
  {
    hide ArtifactOf, EmittedPass;
  }

  // ---- reading the artifact back ------------------------------------------------------------------------

  lemma {:induction false} ScanOfAssertions(assertions: seq<Outcome>)
    ensures PassScan(AssertionsJson(assertions).items) == if AllPassed(assertions) then AllTrue else SomeNotTrue
  {
    if assertions != [] {
      var items := AssertionsJson(assertions).items;
      ScanOfAssertions(assertions[1..]);
      assert items[1..] == AssertionsJson(assertions[1..]).items;
      assert forall i :: 0 < i < |assertions| ==> assertions[i] == assertions[1..][i - 1];
      assert items[0] == AssertionJson(assertions[0]);
    }
  }

  lemma ReportReads(report: Option<Junit>, n: nat)
    ensures ReportDisagrees(Some(ReportJson(report)), n) <==>
            report.Some? && (!report.value.parses || report.value.count != n)
  {
  }

  lemma GitReads(gate: Gate, seen: Observed, checkout: Checkout)
    ensures RevisionStatus(Some(GitJson(gate, seen)), checkout) ==
            if !Blank(GitText(seen.dirty)) || !RevisionKnown(seen) then UNVERIFIED
            else WatchedStatus(Strip(GitText(seen.revision)), WatchedPaths(gate), checkout)
  {
    hide Strip, Blank, WatchedStatus;
    var fields := GitJson(gate, seen).fields;
    var items := fields["relevant_paths"].items;
    assert seq(|items|, i requires 0 <= i < |items| => Str(checkout, items[i])) == WatchedPaths(gate);
  }

  lemma ArtifactReads(gate: Gate, exitCode: int, verdict: string, git: Json, report: Option<Junit>,
                      assertions: seq<Outcome>, checkout: Checkout)
    ensures DocumentStatus(Artifact(gate, exitCode, verdict, git, ReportJson(report), AssertionsJson(assertions)), checkout) ==
            if assertions == [] then UNVERIFIED
            else if report.Some? && (!report.value.parses || report.value.count != |assertions|) then FAIL
            else if exitCode != 0 || !AllPassed(assertions) then FAIL
            else RevisionStatus(Some(git), checkout)
  {
    hide PassScan, AllPassed, ReportDisagrees, RevisionStatus, ReportJson;
    ScanOfAssertions(assertions);
    ReportReads(report, |assertions|);
    var fields := Artifact(gate, exitCode, verdict, git, ReportJson(report), AssertionsJson(assertions)).fields;
    assert EqualsInt(Get(fields, "exit_code"), 0) <==> exitCode == 0;
  }

  /** What the final gate makes of any run, in terms of what the run showed. */
  lemma JudgedState(files: map<Path, File>, classify: string -> Option<Outcome>, gate: Gate, seen: Observed,
                    proof: Path, checkout: Checkout)
    requires ListedUnder(gate, proof) && LeftBy(files, classify, gate, seen, proof)
    ensures var assertions := Assertions(classify, gate, seen);
            var report := ReportOf(gate, seen);
            ArtifactStatus(files, proof, checkout) ==
            if proof != gate.jsonOut && XmlOf(gate, seen).NotWritten? then MISSING
            else if assertions == [] then UNVERIFIED
            else if report.Some? && (!report.value.parses || report.value.count != |assertions|) then FAIL
            else if ExitCode(gate, seen) != 0 || !AllPassed(assertions) then FAIL
            else if !Blank(GitText(seen.dirty)) || !RevisionKnown(seen) then UNVERIFIED
            else WatchedStatus(Strip(GitText(seen.revision)), WatchedPaths(gate), checkout)
  {
    hide AllPassed, DocumentStatus, RevisionStatus, WatchedStatus, Artifact, GitJson, ReportJson, AssertionsJson;
    hide Blank, Strip, RevisionKnown, EmittedPass, ReportOf, Assertions, ExitCode;
    var verdict := if EmittedPass(classify, gate, seen) then "PASS" else "FAIL";
    ArtifactReads(gate, ExitCode(gate, seen), verdict, GitJson(gate, seen), ReportOf(gate, seen),
                  Assertions(classify, gate, seen), checkout);
    GitReads(gate, seen, checkout);
  }

  // ---- agreement ----------------------------------------------------------------------------------------

  /** The final gate's PASS, exactly: the core, a recorded revision, and unchanged watched paths. */
  lemma JudgedPassExactly(files: map<Path, File>, classify: string -> Option<Outcome>, gate: Gate, seen: Observed,
                          proof: Path, checkout: Checkout)
    requires ListedUnder(gate, proof) && LeftBy(files, classify, gate, seen, proof)
    ensures ArtifactStatus(files, proof, checkout) == PASS <==>
            && Core(classify, gate, seen) && RevisionKnown(seen)
            && Unchanged(Strip(GitText(seen.revision)), WatchedPaths(gate), checkout)
  {
    hide ArtifactStatus, WatchedStatus, Unchanged, Blank, Strip, RevisionKnown, LeftBy, AllPassed, OutcomesOf, CaseOutcomes;
    JudgedState(files, classify, gate, seen, proof, checkout);
    WatchedPass(Strip(GitText(seen.revision)), WatchedPaths(gate), checkout);
  }

  /**
   * THE TWO VERDICTS: judged at an unchanged watched revision, they differ exactly when the core holds
   * and just one of these does: the report lists the console's outcomes; the revision was recorded.
   */
  lemma VerdictsDifferExactly(files: map<Path, File>, classify: string -> Option<Outcome>, gate: Gate, seen: Observed,
                              proof: Path, checkout: Checkout)
    requires ListedUnder(gate, proof) && LeftBy(files, classify, gate, seen, proof)
    requires JudgedUnchanged(gate, seen, checkout)
    ensures (WrittenVerdict(files, gate) == Some("PASS") <==> ArtifactStatus(files, proof, checkout) == PASS) <==>
            !(Core(classify, gate, seen) && (OutcomesAgree(classify, gate, seen) != RevisionKnown(seen)))
    ensures WrittenVerdict(files, gate) == Some("PASS") <==> Core(classify, gate, seen) && OutcomesAgree(classify, gate, seen)
  {
    hide ArtifactStatus, Core, OutcomesAgree, Unchanged, LeftBy, WrittenVerdict;
    WrittenIsEarned(files, classify, gate, seen, proof);
    PassIsNotFail();
    JudgedPassExactly(files, classify, gate, seen, proof, checkout);
  }

  // ---- the project ----------------------------------------------------------------------------------------

  datatype Entry = Entry(gate: Gate, seen: Observed)

  /** `gates` is the index of the runs, each gate's files still being as its run left them. */
  ghost predicate Recorded(files: map<Path, File>, classify: string -> Option<Outcome>, entries: seq<Entry>,
                           gates: seq<IndexEntry>, checkout: Checkout) {
    |gates| == |entries| && forall i :: 0 <= i < |entries| ==> RecordedAt(files, classify, entries[i], gates[i].proof, checkout)
  }

  predicate RecordedAt(files: map<Path, File>, classify: string -> Option<Outcome>, e: Entry, proof: Path, checkout: Checkout) {
    ListedUnder(e.gate, proof) && LeftBy(files, classify, e.gate, e.seen, proof) && JudgedUnchanged(e.gate, e.seen, checkout)
  }

  /** A run on which one judge is stricter than the other. */
  predicate Exceptional(classify: string -> Option<Outcome>, e: Entry) {
    Core(classify, e.gate, e.seen) && (OutcomesAgree(classify, e.gate, e.seen) != RevisionKnown(e.seen))
  }

  /**
   * PROJECT PASS over recorded runs: every run has the core and a recorded revision, mandatory or not;
   * when no run is exceptional, that is the same as every artifact on disk saying PASS.
   */
  lemma ProjectPassExactly(files: map<Path, File>, classify: string -> Option<Outcome>, entries: seq<Entry>,
                           gates: seq<IndexEntry>, checkout: Checkout)
    requires Recorded(files, classify, entries, gates, checkout)
    ensures ProjectPasses(files, gates, checkout) <==> forall i :: 0 <= i < |entries| ==> Sound(classify, entries[i])
    ensures (forall i :: 0 <= i < |entries| ==> !Exceptional(classify, entries[i])) ==>
            (ProjectPasses(files, gates, checkout) <==> forall i :: 0 <= i < |entries| ==> SaysPass(files, entries[i]))
  {
    hide ArtifactStatus, Sound, Exceptional, RecordedAt, SaysPass;
    forall i | 0 <= i < |entries|
      ensures ArtifactStatus(files, gates[i].proof, checkout).PASS? <==> Sound(classify, entries[i])
      ensures !Exceptional(classify, entries[i]) ==> (SaysPass(files, entries[i]) <==> Sound(classify, entries[i]))
    {
      EntryPassExactly(files, classify, entries[i], gates[i].proof, checkout);
    }
  }

  /** The run has the core and a recorded revision. */
  predicate Sound(classify: string -> Option<Outcome>, e: Entry) {
    Core(classify, e.gate, e.seen) && RevisionKnown(e.seen)
  }

  predicate SaysPass(files: map<Path, File>, e: Entry) {
    WrittenVerdict(files, e.gate) == Some("PASS")
  }

  lemma EntryPassExactly(files: map<Path, File>, classify: string -> Option<Outcome>, e: Entry, proof: Path, checkout: Checkout)
    requires RecordedAt(files, classify, e, proof, checkout)
    ensures ArtifactStatus(files, proof, checkout).PASS? <==> Sound(classify, e)
    ensures !Exceptional(classify, e) ==> (SaysPass(files, e) <==> Sound(classify, e))
  {
    hide ArtifactStatus, Core, OutcomesAgree, LeftBy, ListedUnder, Unchanged, Blank, WrittenVerdict;
    WrittenIsEarned(files, classify, e.gate, e.seen, proof);
    PassIsNotFail();
    JudgedPassExactly(files, classify, e.gate, e.seen, proof, checkout);
  }

  // ---- the two exceptions do occur --------------------------------------------------------------------

  const CONSOLE := Outcome("test_refund", "PASSED")

  function OnePassing(line: string): Option<Outcome> {
    Some(CONSOLE)
  }

  const GATE := Gate("FG-07", ["tests/unit"], [], Path("fg07", ".json"), Some(Path("fg07", ".xml")))

  function Clean(xml: Xml, revision: GitRun): Observed {
    Observed({"tests/unit"}, Finished(0, ["tests/unit::test_refund PASSED"]), xml, revision, Exited(0, ""))
  }

  lemma OneOutcome()
    ensures OutcomesOf(OnePassing, ["tests/unit::test_refund PASSED"]) == [CONSOLE]
  {
    var lines := ["tests/unit::test_refund PASSED"];
    assert lines[..0] == [];
    assert OutcomesOf(OnePassing, lines[..0]) == [];
  }

  lemma OneCase(c: Case)
    ensures CaseOutcomes([c]) == [CaseOutcome(c)]
  {
    assert [c][..0] == [];
    assert CaseOutcomes([c][..0]) == [];
  }

  const SEEN_WITHOUT_REVISION := Clean(Suite([Case(Some("test_refund"), [])]), NoAnswer)

  const SEEN_SKIPPED := Clean(Suite([Case(Some("test_refund"), ["skipped"])]), Exited(0, "3f1ae2c"))

  /** The disk after such a run on an empty one. */
  function DiskAfter(seen: Observed): map<Path, File> {
    FilesAfter(map[], GATE, XmlOf(GATE, seen), ArtifactOf(OnePassing, GATE, seen, EmittedPass(OnePassing, GATE, seen)))
  }

  lemma VerdictsAfter(seen: Observed, checkout: Checkout)
    requires JudgedUnchanged(GATE, seen, checkout)
    ensures ArtifactStatus(DiskAfter(seen), GATE.xmlOut.value, checkout) == PASS <==> Core(OnePassing, GATE, seen) && RevisionKnown(seen)
    ensures WrittenVerdict(DiskAfter(seen), GATE) == Some(if EmittedPass(OnePassing, GATE, seen) then "PASS" else "FAIL")
  {
    hide ArtifactOf, ArtifactStatus, Unchanged, LeftBy, FilesAfter, EmittedPass, Core, OutcomesAgree, Blank, XmlOf, WrittenVerdict;
    var proof := GATE.xmlOut.value;
    EmitLeaves(map[], OnePassing, GATE, seen, proof);
    JudgedPassExactly(DiskAfter(seen), OnePassing, GATE, seen, proof, checkout);
    WrittenIsEarned(DiskAfter(seen), OnePassing, GATE, seen, proof);
  }

  lemma FactsWithoutRevision()
    ensures EmittedPass(OnePassing, GATE, SEEN_WITHOUT_REVISION) && !RevisionKnown(SEEN_WITHOUT_REVISION)
  {
    hide OutcomesOf, CaseOutcomes, OnePassing;
    OneOutcome();
    OneCase(Case(Some("test_refund"), []));
  }

  lemma FactsSkipped()
    ensures Core(OnePassing, GATE, SEEN_SKIPPED) && RevisionKnown(SEEN_SKIPPED)
    ensures !EmittedPass(OnePassing, GATE, SEEN_SKIPPED)
  {
    OneOutcome();
    OneCase(Case(Some("test_refund"), ["skipped"]));
    assert CaseOutcome(Case(Some("test_refund"), ["skipped"])).actual == "SKIPPED";
    assert CONSOLE !in multiset([Outcome("test_refund", "SKIPPED")]);
    assert CONSOLE in multiset([CONSOLE]);
    assert !IsSpace("3f1ae2c"[0]);
  }

  /** git unreadable while emitting: the artifact says PASS and no later checkout makes the final gate agree. */
  lemma EmitterAloneCanPass(checkout: Checkout)
    ensures WrittenVerdict(DiskAfter(SEEN_WITHOUT_REVISION), GATE) == Some("PASS")
    ensures ArtifactStatus(DiskAfter(SEEN_WITHOUT_REVISION), GATE.xmlOut.value, checkout) != PASS
  {
    hide EmittedPass, RevisionKnown, Core, DiskAfter, WrittenVerdict, ArtifactStatus;
    FactsWithoutRevision();
    VerdictsAfter(SEEN_WITHOUT_REVISION, checkout);
  }

  /** The report calls the one test skipped: the artifact says FAIL and the final gate PASS. */
  lemma FinalGateAloneCanPass(checkout: Checkout)
    requires JudgedUnchanged(GATE, SEEN_SKIPPED, checkout)
    ensures WrittenVerdict(DiskAfter(SEEN_SKIPPED), GATE) == Some("FAIL")
    ensures ArtifactStatus(DiskAfter(SEEN_SKIPPED), GATE.xmlOut.value, checkout) == PASS
  {
    hide EmittedPass, RevisionKnown, Core, DiskAfter, JudgedUnchanged, WrittenVerdict, ArtifactStatus;
    FactsSkipped();
    VerdictsAfter(SEEN_SKIPPED, checkout);
  }
}
