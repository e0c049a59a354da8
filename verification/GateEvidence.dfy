/** Running one gate's test target and writing what was observed, with a verdict (gate_evidence.py). */
module GateEvidence {
  import opened Text
  import opened JsonValue

  // ---- files and processes ----------------------------------------------------------------------------

  datatype Path = Path(stem: string, suffix: string)

  /** What reading a file as UTF-8 JSON gives. */
  datatype File = Document(json: Json) | Unreadable

  /** A git command either cannot be run, or exits with a code and some output. */
  datatype GitRun = NoAnswer | Exited(code: int, stdout: string)

  datatype Pytest = Finished(exitCode: int, lines: seq<string>) | Overran(lines: seq<string>)

  datatype Case = Case(name: Option<string>, children: seq<string>)

  datatype Xml = NotWritten | Malformed | Suite(cases: seq<Case>)

  datatype Gate = Gate(id: string, targets: seq<string>, relevantPaths: seq<string>, jsonOut: Path, xmlOut: Option<Path>)

  /** Everything one run shows: which targets exist, what pytest did and wrote, what git said. */
  datatype Observed = Observed(present: set<string>, pytest: Pytest, xml: Xml, revision: GitRun, dirty: GitRun)

  // ---- text --------------------------------------------------------------------------------------------

  /** The characters str.strip removes. */
  predicate IsSpace(c: char) {
    || '\t' <= c <= '\r' || '\U{1c}' <= c <= ' ' || c == '\U{85}' || c == '\U{a0}' || c == '\U{1680}'
    || '\U{2000}' <= c <= '\U{200a}' || c == '\U{2028}' || c == '\U{2029}' || c == '\U{202f}' || c == '\U{205f}'
    || c == '\U{3000}'
  }

  predicate Blank(s: string) {
    forall i :: 0 <= i < |s| ==> IsSpace(s[i])
  }

  function Strip(s: string): (t: string)
    ensures t == "" <==> Blank(s)
    decreases |s|
  {
    if s == "" then ""
    else if IsSpace(s[0]) then
      assert forall i :: 0 < i < |s| ==> s[i] == s[1..][i - 1];
      Strip(s[1..])
    else if IsSpace(s[|s| - 1]) then Strip(s[..|s| - 1])
    else s
  }

  /** Stripping takes away blanks at both ends and nothing else. */
  lemma {:induction false} StripExactly(s: string) returns (before: string, after: string)
    ensures s == before + Strip(s) + after && Blank(before) && Blank(after)
    ensures Strip(s) != "" ==> !IsSpace(Strip(s)[0]) && !IsSpace(Strip(s)[|Strip(s)| - 1])
    decreases |s|
  {
    hide IsSpace, Blank;
    BlankGrows("", ' ');
    before, after := "", "";
    if s != "" {
      var last := |s| - 1;
      if IsSpace(s[0]) {
        before, after := StripExactly(s[1..]);
        BlankGrows(before, s[0]);
        PutBefore(s, before, Strip(s[1..]), after);
        before := [s[0]] + before;
      } else if IsSpace(s[last]) {
        before, after := StripExactly(s[..last]);
        BlankGrows(after, s[last]);
        PutAfter(s, before, Strip(s[..last]), after);
        after := after + [s[last]];
      } else {
        Empty(s);
      }
    }
  }

  lemma BlankGrows(s: string, c: char)
    ensures Blank("")
    ensures Blank(s) && IsSpace(c) ==> Blank([c] + s) && Blank(s + [c])
  {
    hide IsSpace;
  }

  lemma PutBefore(s: string, a: string, b: string, c: string)
    requires s != "" && s[1..] == a + b + c
    ensures s == [s[0]] + a + b + c
  {
    assert s == [s[0]] + s[1..];
  }

  lemma PutAfter(s: string, a: string, b: string, c: string)
    requires s != "" && s[..|s| - 1] == a + b + c
    ensures s == a + b + (c + [s[|s| - 1]])
  {
    assert s == s[..|s| - 1] + [s[|s| - 1]];
  }

  // ---- what was observed -------------------------------------------------------------------------------

  datatype Outcome = Outcome(name: string, actual: string)

  /** The outcomes on the lines `classify` recognises, in order. */
  function OutcomesOf(classify: string -> Option<Outcome>, lines: seq<string>): seq<Outcome> {
    if lines == [] then [] else OutcomesOf(classify, lines[..|lines| - 1]) + Elements(classify(lines[|lines| - 1]))
  }

  /** Line by line: a recognised line gives its outcome, any other none. */
  lemma {:induction false} OutcomesInOrder(classify: string -> Option<Outcome>, a: seq<string>, b: seq<string>, line: string)
    ensures OutcomesOf(classify, a + b) == OutcomesOf(classify, a) + OutcomesOf(classify, b)
    ensures OutcomesOf(classify, []) == []
    ensures classify(line).Some? ==> OutcomesOf(classify, [line]) == [classify(line).value]
    ensures classify(line).None? ==> OutcomesOf(classify, [line]) == []
    decreases |b|
  {
    OneLine(classify, line);
    if b == [] {
      Empty(a);
      Empty(OutcomesOf(classify, a));
    } else {
      var init, last := b[..|b| - 1], b[|b| - 1];
      assert (a + b)[..|a + b| - 1] == a + init;
      OutcomesInOrder(classify, a, init, line);
      Assoc(OutcomesOf(classify, a), OutcomesOf(classify, init), Elements(classify(last)));
    }
  }

  lemma OneLine(classify: string -> Option<Outcome>, line: string)
    ensures OutcomesOf(classify, [line]) == Elements(classify(line))
  {
    assert [line][..0] == [];
    Empty(Elements(classify(line)));
  }

  const TAGS: map<string, string> := map["failure" := "FAILED", "error" := "ERROR", "skipped" := "SKIPPED"]

  /** A test case carries the verdict of its first verdict-bearing child, and passed without one. */
  ghost predicate Judged(children: seq<string>, actual: string) {
    || (actual == "PASSED" && forall k :: 0 <= k < |children| ==> children[k] !in TAGS)
    || exists k :: && 0 <= k < |children| && children[k] in TAGS && actual == TAGS[children[k]]
                   && forall j :: 0 <= j < k ==> children[j] !in TAGS
  }

  function ActualOf(children: seq<string>): (actual: string)
    ensures Judged(children, actual)
  {
    if children == [] then "PASSED"
    else if children[0] in TAGS then TAGS[children[0]]
    else
      var actual := ActualOf(children[1..]);
      assert forall k :: 0 < k < |children| ==> children[k] == children[1..][k - 1];
      assert forall k :: 0 <= k < |children| - 1 && children[1..][k] in TAGS ==> children[k + 1] in TAGS;
      actual
  }

  function CaseOutcome(c: Case): Outcome {
    Outcome(if c.name.None? || c.name.value == "" then "<unnamed>" else c.name.value, ActualOf(c.children))
  }

  function CaseOutcomes(cases: seq<Case>): (outcomes: seq<Outcome>)
    ensures |outcomes| == |cases|
    ensures forall i :: 0 <= i < |cases| ==> Judged(cases[i].children, outcomes[i].actual)
    ensures forall i :: 0 <= i < |cases| && cases[i].name.Some? && cases[i].name.value != "" ==> outcomes[i].name == cases[i].name.value
    ensures forall i :: 0 <= i < |cases| && (cases[i].name.None? || cases[i].name.value == "") ==> outcomes[i].name == "<unnamed>"
  {
    if cases == [] then [] else CaseOutcomes(cases[..|cases| - 1]) + [CaseOutcome(cases[|cases| - 1])]
  }

  datatype Junit = Junit(present: bool, parses: bool, count: nat, outcomes: seq<Outcome>)

  function ReadBack(xml: Xml): (report: Junit)
    ensures report.present <==> !xml.NotWritten?
    ensures report.parses <==> xml.Suite?
    ensures report.count == |report.outcomes| == if xml.Suite? then |xml.cases| else 0
  {
    match xml
    case NotWritten => Junit(false, false, 0, [])
    case Malformed => Junit(true, false, 0, [])
    case Suite(cases) => Junit(true, true, |cases|, CaseOutcomes(cases))
  }

  lemma PrefixGrows<T>(s: seq<T>, i: nat)
    requires i < |s|
    ensures s[..i + 1][..i] == s[..i] && s[..i + 1][i] == s[i]
  {
  }

  lemma WholePrefix<T>(s: seq<T>)
    ensures s[..|s|] == s
  {
  }

  method ParseStdoutOutcomes(classify: string -> Option<Outcome>, lines: seq<string>) returns (assertions: seq<Outcome>)
    ensures assertions == OutcomesOf(classify, lines)
  {
    assertions := [];
    for i := 0 to |lines|
      invariant assertions == OutcomesOf(classify, lines[..i])
    {
      PrefixGrows(lines, i);
      var match_ := classify(lines[i]);
      if match_.Some? {
        assertions := assertions + [match_.value];
      }
    }
    WholePrefix(lines);
  }

  lemma JudgedOnce(children: seq<string>, a: string, b: string)
    requires Judged(children, a) && Judged(children, b)
    ensures a == b
  {
  }

  method ParseJunit(xml: Xml) returns (report: Junit)
    ensures report == ReadBack(xml)
  {
    report := Junit(true, false, 0, []);
    if xml.NotWritten? {
      return report.(present := false);
    }
    if xml.Malformed? {
      return;
    }
    var outcomes: seq<Outcome>, count := [], 0;
    for i := 0 to |xml.cases|
      invariant outcomes == CaseOutcomes(xml.cases[..i]) && count == i
    {
      PrefixGrows(xml.cases, i);
      count := count + 1;
      var name := "<unnamed>";
      if xml.cases[i].name.Some? && xml.cases[i].name.value != "" {
        name := xml.cases[i].name.value;
      }
      var actual := FirstVerdict(xml.cases[i].children);
      outcomes := outcomes + [Outcome(name, actual)];
    }
    WholePrefix(xml.cases);
    report := Junit(true, true, count, outcomes);
  }

  /** The inner loop: stop at the first child that carries a verdict. */
  method FirstVerdict(children: seq<string>) returns (actual: string)
    ensures actual == ActualOf(children)
  {
    actual := "PASSED";
    var k := 0;
    while k < |children|
      invariant 0 <= k <= |children| && actual == "PASSED"
      invariant forall j :: 0 <= j < k ==> children[j] !in TAGS
      decreases |children| - k
    {
      if children[k] in TAGS {
        actual := TAGS[children[k]];
        break;
      }
      k := k + 1;
    }
    JudgedOnce(children, actual, ActualOf(children));
  }

  // ---- the run as the emitter sees it ------------------------------------------------------------------

  predicate TargetsExist(gate: Gate, seen: Observed) {
    forall i :: 0 <= i < |gate.targets| ==> gate.targets[i] in seen.present
  }

  /** Without its targets pytest is not started, so the exit code is 4 and nothing is printed. */
  function ExitCode(gate: Gate, seen: Observed): int {
    if !TargetsExist(gate, seen) then 4
    else match seen.pytest case Finished(code, _) => code case Overran(_) => 124
  }

  function Lines(gate: Gate, seen: Observed): seq<string> {
    if TargetsExist(gate, seen) then seen.pytest.lines else []
  }

  /** The stale report was removed, so a report on disk is this run's. */
  function XmlOf(gate: Gate, seen: Observed): Xml {
    if gate.xmlOut.Some? && TargetsExist(gate, seen) then seen.xml else NotWritten
  }

  function ReportOf(gate: Gate, seen: Observed): Option<Junit> {
    if gate.xmlOut.Some? then Some(ReadBack(XmlOf(gate, seen))) else None
  }

  function Assertions(classify: string -> Option<Outcome>, gate: Gate, seen: Observed): seq<Outcome> {
    OutcomesOf(classify, Lines(gate, seen))
  }

  /** The output of git, "" when it could not be run; the exit code is not looked at. */
  function GitText(run: GitRun): string {
    if run.Exited? then run.stdout else ""
  }

  function WatchedPaths(gate: Gate): (paths: seq<string>)
    ensures paths != []
  {
    if gate.relevantPaths == [] then ["backend/app", "backend/migrations"] else gate.relevantPaths
  }

  predicate AllPassed(outcomes: seq<Outcome>) {
    forall i :: 0 <= i < |outcomes| ==> outcomes[i].actual == "PASSED"
  }

  /** The common core of both verdicts: something ran, all of it passed, counts match, the tree was clean. */
  predicate Core(classify: string -> Option<Outcome>, gate: Gate, seen: Observed) {
    var assertions := Assertions(classify, gate, seen);
    && assertions != [] && AllPassed(assertions)
    && TargetsExist(gate, seen) && seen.pytest.Finished? && seen.pytest.exitCode == 0
    && (gate.xmlOut.Some? ==> seen.xml.Suite? && |seen.xml.cases| == |assertions|)
    && Blank(GitText(seen.dirty))
  }

  /** The report names the same tests with the same outcomes, each as often as the console did. */
  predicate OutcomesAgree(classify: string -> Option<Outcome>, gate: Gate, seen: Observed) {
    gate.xmlOut.Some? ==>
      multiset(ReadBack(XmlOf(gate, seen)).outcomes) == multiset(Assertions(classify, gate, seen))
  }

  // ---- the artifact -------------------------------------------------------------------------------------

  function OutcomeJson(o: Outcome): Json {
    JObject(map["name" := JString(o.name), "actual" := JString(o.actual)])
  }

  function AssertionJson(o: Outcome): Json {
    JObject(map["name" := JString(o.name), "expected" := JString("PASSED"), "actual" := JString(o.actual),
                "pass" := JBool(o.actual == "PASSED")])
  }

  function JunitJson(j: Junit): Json {
    JObject(map["exists" := JBool(j.present), "parses" := JBool(j.parses), "testcase_count" := JNumber(j.count as real),
                "outcomes" := JArray(seq(|j.outcomes|, i requires 0 <= i < |j.outcomes| => OutcomeJson(j.outcomes[i])))])
  }

  function ReportJson(report: Option<Junit>): Json {
    if report.Some? then JunitJson(report.value) else JNull
  }

  function AssertionsJson(assertions: seq<Outcome>): Json {
    JArray(seq(|assertions|, i requires 0 <= i < |assertions| => AssertionJson(assertions[i])))
  }

  function GitJson(gate: Gate, seen: Observed): Json {
    var paths := WatchedPaths(gate);
    JObject(map["revision" := JString(GitText(seen.revision)),
                "relevant_paths" := JArray(seq(|paths|, i requires 0 <= i < |paths| => JString(paths[i]))),
                "relevant_paths_dirty" := JBool(Strip(GitText(seen.dirty)) != "")])
  }

  function Artifact(gate: Gate, exitCode: int, verdict: string, git: Json, junit: Json, assertions: Json): Json {
    JObject(map["gate_id" := JString(gate.id), "exit_code" := JNumber(exitCode as real), "verdict" := JString(verdict),
                "git" := git, "junit_report" := junit, "assertions" := assertions])
  }

  /** The artifact a run leaves behind, when the verdict is `passed`. */
  function ArtifactOf(classify: string -> Option<Outcome>, gate: Gate, seen: Observed, passed: bool): Json {
    Artifact(gate, ExitCode(gate, seen), if passed then "PASS" else "FAIL", GitJson(gate, seen),
             ReportJson(ReportOf(gate, seen)), AssertionsJson(Assertions(classify, gate, seen)))
  }

  // ---- what the artifact says ---------------------------------------------------------------------------

  predicate Says(json: Json, key: string, value: Json) {
    json.JObject? && key in json.fields && json.fields[key] == value
  }

  /** The array lists these strings. */
  ghost predicate Lists(json: Json, strings: seq<string>) {
    json.JArray? && |json.items| == |strings| && forall i :: 0 <= i < |strings| ==> json.items[i] == JString(strings[i])
  }

  /** The array tells these outcomes, each with its name and what happened. */
  ghost predicate Tells(json: Json, outcomes: seq<Outcome>) {
    && json.JArray? && |json.items| == |outcomes|
    && forall i :: 0 <= i < |outcomes| ==>
         Says(json.items[i], "name", JString(outcomes[i].name)) && Says(json.items[i], "actual", JString(outcomes[i].actual))
  }

  ghost predicate MarksPasses(json: Json, outcomes: seq<Outcome>) {
    && json.JArray? && |json.items| == |outcomes|
    && forall i :: 0 <= i < |outcomes| ==> Says(json.items[i], "pass", JBool(outcomes[i].actual == "PASSED"))
  }

  /** Every target was there, so pytest was started. */
  predicate Started(gate: Gate, seen: Observed) {
    forall i :: 0 <= i < |gate.targets| ==> gate.targets[i] in seen.present
  }

  /** The document is the record of this run: each field says what was observed, and the verdict `verdict`. */
  ghost predicate RecordOf(document: Json, classify: string -> Option<Outcome>, gate: Gate, seen: Observed, verdict: string) {
    && Says(document, "gate_id", JString(gate.id))
    && Says(document, "verdict", JString(verdict))
    && Says(document, "exit_code", JNumber(
         if !Started(gate, seen) then 4.0 else if seen.pytest.Overran? then 124.0 else seen.pytest.exitCode as real))
    && "assertions" in document.fields
    && (var outcomes := OutcomesOf(classify, if Started(gate, seen) then seen.pytest.lines else []);
        Tells(document.fields["assertions"], outcomes) && MarksPasses(document.fields["assertions"], outcomes))
    && "git" in document.fields && GitRecordOf(document.fields["git"], gate, seen)
    && "junit_report" in document.fields
    && (if gate.xmlOut.None? then document.fields["junit_report"] == JNull
        else ReportRecordOf(document.fields["junit_report"], if Started(gate, seen) then seen.xml else NotWritten))
  }

  ghost predicate GitRecordOf(git: Json, gate: Gate, seen: Observed) {
    && Says(git, "revision", JString(if seen.revision.Exited? then seen.revision.stdout else ""))
    && Says(git, "relevant_paths_dirty", JBool(seen.dirty.Exited? && !Blank(seen.dirty.stdout)))
    && "relevant_paths" in git.fields
    && Lists(git.fields["relevant_paths"],
             if gate.relevantPaths == [] then ["backend/app", "backend/migrations"] else gate.relevantPaths)
  }

  ghost predicate ReportRecordOf(report: Json, xml: Xml) {
    && Says(report, "exists", JBool(!xml.NotWritten?))
    && Says(report, "parses", JBool(xml.Suite?))
    && Says(report, "testcase_count", JNumber(if xml.Suite? then |xml.cases| as real else 0.0))
    && "outcomes" in report.fields
    && Tells(report.fields["outcomes"], if xml.Suite? then CaseOutcomes(xml.cases) else [])
  }

  lemma ArtifactRecords(classify: string -> Option<Outcome>, gate: Gate, seen: Observed, passed: bool)
    ensures RecordOf(ArtifactOf(classify, gate, seen, passed), classify, gate, seen, if passed then "PASS" else "FAIL")
  {
    hide OutcomesOf, CaseOutcomes, Blank, Strip, GitRecordOf, ReportRecordOf, GitJson, JunitJson, AssertionsJson;
    GitRecorded(gate, seen);
    ReportRecorded(XmlOf(gate, seen));
    AssertionsRecorded(Assertions(classify, gate, seen));
  }

  lemma GitRecorded(gate: Gate, seen: Observed)
    ensures GitRecordOf(GitJson(gate, seen), gate, seen)
  {
    hide Blank, Strip;
    assert Blank("") by { NothingIsBlank(); }
  }

  lemma NothingIsBlank()
    ensures Blank("")
  {
  }

  lemma ReportRecorded(xml: Xml)
    ensures ReportRecordOf(JunitJson(ReadBack(xml)), xml)
  {
    hide CaseOutcomes;
  }

  lemma AssertionsRecorded(outcomes: seq<Outcome>)
    ensures Tells(AssertionsJson(outcomes), outcomes) && MarksPasses(AssertionsJson(outcomes), outcomes)
  {
  }

  // ---- emit -----------------------------------------------------------------------------------------------

  datatype Reason =
    | TargetMissing | TimedOut | NothingObserved | JunitUnusable | CountsDisagree | OutcomesDisagree
    | SomeNotPassed | ExitCodeNotZero | DirtyPaths

  /** The values the emitter weighs. */
  datatype Facts = Facts(
    targetExists: bool, timedOut: bool, assertions: seq<Outcome>, junit: Option<Junit>, exitCode: int, dirty: string)

  /** When each reason applies; the two about the report exclude each other. */
  predicate Applies(reason: Reason, f: Facts) {
    match reason
    case TargetMissing => !f.targetExists
    case TimedOut => f.timedOut
    case NothingObserved => f.assertions == []
    case JunitUnusable => f.junit.Some? && !f.junit.value.parses
    case CountsDisagree => f.junit.Some? && f.junit.value.count != |f.assertions|
    case OutcomesDisagree =>
      f.junit.Some? && f.junit.value.count == |f.assertions| && multiset(f.junit.value.outcomes) != multiset(f.assertions)
    case SomeNotPassed => !AllPassed(f.assertions)
    case ExitCodeNotZero => f.exitCode != 0
    case DirtyPaths => !Blank(f.dirty)
  }

  /** The order in which reasons are given. */
  function Rank(reason: Reason): nat {
    match reason
    case TargetMissing => 0
    case TimedOut => 1
    case NothingObserved => 2
    case JunitUnusable => 3
    case CountsDisagree => 4
    case OutcomesDisagree => 5
    case SomeNotPassed => 6
    case ExitCodeNotZero => 7
    case DirtyPaths => 8
  }

  predicate InOrder(reasons: seq<Reason>) {
    forall i, j :: 0 <= i < j < |reasons| ==> Rank(reasons[i]) < Rank(reasons[j])
  }

  /** The reasons ranked below `n` that apply, and no others. */
  ghost predicate WeighedTo(reasons: seq<Reason>, f: Facts, n: nat) {
    InOrder(reasons) && forall r: Reason :: r in reasons <==> Rank(r) < n && Applies(r, f)
  }

  lemma WeighOne(reasons: seq<Reason>, f: Facts, reason: Reason)
    requires WeighedTo(reasons, f, Rank(reason))
    ensures WeighedTo(if Applies(reason, f) then reasons + [reason] else reasons, f, Rank(reason) + 1)
  {
    hide Applies;
    forall r: Reason ensures Rank(r) < Rank(reason) + 1 <==> Rank(r) < Rank(reason) || r == reason { }
    assert forall i :: 0 <= i < |reasons| ==> reasons[i] in reasons;
  }

  method Note(reasons: seq<Reason>, f: Facts, applies: bool, reason: Reason) returns (noted: seq<Reason>)
    requires WeighedTo(reasons, f, Rank(reason)) && applies == Applies(reason, f)
    ensures WeighedTo(noted, f, Rank(reason) + 1)
  {
    hide Applies, WeighedTo;
    WeighOne(reasons, f, reason);
    noted := reasons;
    if applies {
      noted := noted + [reason];
    }
  }

  /** The reasons to fail: each is given exactly when it applies, in order and once. */
  method WeighReasons(f: Facts) returns (reasons: seq<Reason>)
    ensures InOrder(reasons) && forall r: Reason :: r in reasons <==> Applies(r, f)
  {
    hide WeighedTo, InOrder, AllPassed, Blank, Strip, Failures;
    reasons := [];
    NothingWeighed(f);
    reasons := Note(reasons, f, !f.targetExists, TargetMissing);
    reasons := Note(reasons, f, f.timedOut, TimedOut);
    reasons := Note(reasons, f, f.assertions == [], NothingObserved);
    if f.junit.Some? {
      reasons := WeighReport(reasons, f);
    } else {
      NoReport(reasons, f);
    }
    var failures := Failures(f.assertions);
    reasons := Note(reasons, f, failures != [], SomeNotPassed);
    reasons := Note(reasons, f, f.exitCode != 0, ExitCodeNotZero);
    reasons := Note(reasons, f, Strip(f.dirty) != "", DirtyPaths);
    AllWeighed(reasons, f);
  }

  method WeighReport(before: seq<Reason>, f: Facts) returns (reasons: seq<Reason>)
    requires f.junit.Some? && WeighedTo(before, f, 3)
    ensures WeighedTo(reasons, f, 6)
  {
    hide WeighedTo, InOrder, AllPassed, Blank;
    var report := f.junit.value;
    reasons := Note(before, f, !report.parses, JunitUnusable);
    WeighOne(reasons, f, CountsDisagree);
    if report.count != |f.assertions| {
      reasons := reasons + [CountsDisagree];
      WeighOne(reasons, f, OutcomesDisagree);
    } else {
      WeighOne(reasons, f, OutcomesDisagree);
      if multiset(report.outcomes) != multiset(f.assertions) {
        reasons := reasons + [OutcomesDisagree];
      }
    }
  }

  lemma NothingWeighed(f: Facts)
    ensures WeighedTo([], f, 0)
  {
  }

  lemma NoReport(reasons: seq<Reason>, f: Facts)
    requires f.junit.None? && WeighedTo(reasons, f, 3)
    ensures WeighedTo(reasons, f, 6)
  {
    hide AllPassed, Blank;
  }

  lemma AllWeighed(reasons: seq<Reason>, f: Facts)
    requires WeighedTo(reasons, f, 9)
    ensures InOrder(reasons) && forall r: Reason :: r in reasons <==> Applies(r, f)
  {
  }

  /** No reason to fail. */
  predicate Faultless(f: Facts) {
    && f.targetExists && !f.timedOut && f.assertions != [] && AllPassed(f.assertions) && f.exitCode == 0 && Blank(f.dirty)
    && (f.junit.Some? ==> f.junit.value.parses && f.junit.value.count == |f.assertions|
                          && multiset(f.junit.value.outcomes) == multiset(f.assertions))
  }

  lemma NoReasonsExactly(reasons: seq<Reason>, f: Facts)
    requires forall r: Reason :: r in reasons <==> Applies(r, f)
    ensures reasons == [] <==> Faultless(f)
  {
    hide AllPassed, Blank;
    if reasons == [] {
      assert !Applies(TargetMissing, f) && !Applies(TimedOut, f) && !Applies(NothingObserved, f);
      assert !Applies(JunitUnusable, f) && !Applies(CountsDisagree, f) && !Applies(OutcomesDisagree, f);
      assert !Applies(SomeNotPassed, f) && !Applies(ExitCodeNotZero, f) && !Applies(DirtyPaths, f);
    } else {
      assert Applies(reasons[0], f);
    }
  }

  /** What a run amounts to, in the terms the emitter weighs. */
  function FactsOf(classify: string -> Option<Outcome>, gate: Gate, seen: Observed): Facts {
    Facts(TargetsExist(gate, seen), TargetsExist(gate, seen) && seen.pytest.Overran?, Assertions(classify, gate, seen),
          ReportOf(gate, seen), ExitCode(gate, seen), GitText(seen.dirty))
  }

  lemma SameCounts(a: seq<Outcome>, b: seq<Outcome>)
    requires multiset(a) == multiset(b)
    ensures |a| == |b|
  {
    assert |multiset(a)| == |a| && |multiset(b)| == |b|;
  }

  /** A missing target shows as exit code 4 and an overrun as 124, so the core needs no clause of its own for them. */
  lemma FaultlessIsCore(classify: string -> Option<Outcome>, gate: Gate, seen: Observed)
    ensures Faultless(FactsOf(classify, gate, seen)) <==> Core(classify, gate, seen) && OutcomesAgree(classify, gate, seen)
  {
    hide OutcomesOf, AllPassed, Blank, CaseOutcomes;
    var assertions, report := Assertions(classify, gate, seen), ReadBack(XmlOf(gate, seen));
    if multiset(report.outcomes) == multiset(assertions) {
      SameCounts(report.outcomes, assertions);
    }
  }

  /** The two files of a gate after a run: earlier versions are gone. */
  function FilesAfter(files: map<Path, File>, gate: Gate, xml: Xml, artifact: Json): map<Path, File> {
    var cleared := files - {gate.jsonOut} - (if gate.xmlOut.Some? then {gate.xmlOut.value} else {});
    var reported := if gate.xmlOut.Some? && !xml.NotWritten? then cleared[gate.xmlOut.value := Unreadable] else cleared;
    reported[gate.jsonOut := Document(artifact)]
  }

  lemma FilesAfterExactly(files: map<Path, File>, gate: Gate, seen: Observed, artifact: Json)
    ensures var after := FilesAfter(files, gate, XmlOf(gate, seen), artifact);
            && gate.jsonOut in after && after[gate.jsonOut] == Document(artifact)
            && (gate.xmlOut.Some? && gate.xmlOut.value != gate.jsonOut ==>
                  (gate.xmlOut.value in after <==> Started(gate, seen) && !seen.xml.NotWritten?))
            && (forall path :: path != gate.jsonOut && Some(path) != gate.xmlOut ==>
                  (path in after <==> path in files) && (path in after ==> after[path] == files[path]))
  {
  }

  class Workspace {
    var files: map<Path, File>

    constructor (files: map<Path, File>)
      ensures this.files == files
    {
      this.files := files;
    }

    /**
     * Runs the gate and writes its artifact. The verdict is PASS exactly when the core holds and the
     * report lists the same outcomes as the console.
     */
    method Emit(classify: string -> Option<Outcome>, gate: Gate, seen: Observed) returns (reasons: seq<Reason>)
      modifies this
      ensures reasons == [] <==> Core(classify, gate, seen) && OutcomesAgree(classify, gate, seen)
      ensures InOrder(reasons) && forall r: Reason :: r in reasons <==> Applies(r, FactsOf(classify, gate, seen))
      ensures files == FilesAfter(old(files), gate, XmlOf(gate, seen), ArtifactOf(classify, gate, seen, reasons == []))
      ensures gate.jsonOut in files && files[gate.jsonOut].Document?
      ensures RecordOf(files[gate.jsonOut].json, classify, gate, seen, if reasons == [] then "PASS" else "FAIL")
      ensures gate.xmlOut.Some? && gate.xmlOut.value != gate.jsonOut ==>
                (gate.xmlOut.value in files <==> Started(gate, seen) && !seen.xml.NotWritten?)
      ensures forall path :: path != gate.jsonOut && Some(path) != gate.xmlOut ==>
                (path in files <==> path in old(files)) && (path in files ==> files[path] == old(files)[path])
    {
      hide Applies, Faultless, Core, OutcomesAgree, TargetsExist, Started, OutcomesOf, ReadBack;
      hide Blank, Strip, Artifact, ReportJson, AssertionsJson, GitJson, RecordOf;
      files := files - {gate.jsonOut} - (if gate.xmlOut.Some? then {gate.xmlOut.value} else {});
      var targetExists := TargetsExist(gate, seen);
      var timedOut := false;
      var lines, exitCode := [], 4;
      if targetExists {
        if gate.xmlOut.Some? && !seen.xml.NotWritten? {
          files := files[gate.xmlOut.value := Unreadable];
        }
        lines := seen.pytest.lines;
        match seen.pytest
        case Finished(code, _) => exitCode := code;
        case Overran(_) => exitCode, timedOut := 124, true;
      }
      var assertions := ParseStdoutOutcomes(classify, lines);
      var junit: Option<Junit> := None;
      if gate.xmlOut.Some? {
        var report := ParseJunit(if targetExists then seen.xml else NotWritten);
        junit := Some(report);
      }

      ghost var facts := FactsOf(classify, gate, seen);
      reasons := WeighReasons(Facts(targetExists, timedOut, assertions, junit, exitCode, GitText(seen.dirty)));
      NoReasonsExactly(reasons, facts);
      FaultlessIsCore(classify, gate, seen);
      ArtifactRecords(classify, gate, seen, reasons == []);
      FilesAfterExactly(old(files), gate, seen, ArtifactOf(classify, gate, seen, reasons == []));
      var verdict := if reasons == [] then "PASS" else "FAIL";
      files := files[gate.jsonOut := Document(
        Artifact(gate, exitCode, verdict, GitJson(gate, seen),
                 ReportJson(junit), AssertionsJson(assertions)))];
    }
  }

  function Failures(assertions: seq<Outcome>): (failures: seq<Outcome>)
    ensures failures == [] <==> AllPassed(assertions)
  {
    if assertions == [] then []
    else
      assert forall i :: 0 < i < |assertions| ==> assertions[i] == assertions[1..][i - 1];
      (if assertions[0].actual == "PASSED" then [] else [assertions[0]]) + Failures(assertions[1..])
  }
}
