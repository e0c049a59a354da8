/** Judging recorded artifacts later and summing them up as a project status (final_gate.py). */
module FinalGate {
  import opened Text
  import opened JsonValue
  import opened GateEvidence

  /** What git answers at judging time, and what str() makes of a value that is not a string. */
  datatype Checkout = Checkout(
    commit: string -> GitRun, diff: (string, seq<string>) -> GitRun, status: seq<string> -> GitRun, show: Json -> string)

  /** The states of an artifact; Raised is an exception that nothing here catches. */
  datatype State = MISSING | UNVERIFIED | FAIL | STALE | PASS | Raised

  // ---- Python readings of a JSON value ------------------------------------------------------------------

  function Get(fields: map<string, Json>, key: string): Option<Json> {
    if key in fields then Some(fields[key]) else None
  }

  /** value == n, where True counts as 1 and False as 0. */
  predicate EqualsInt(v: Option<Json>, n: int) {
    match v
    case Some(JNumber(x)) => x == n as real
    case Some(JBool(b)) => n == if b then 1 else 0
    case _ => false
  }

  predicate Truthy(v: Option<Json>) {
    match v
    case None | Some(JNull) => false
    case Some(JBool(b)) => b
    case Some(JNumber(n)) => n != 0.0
    case Some(JString(s)) => s != ""
    case Some(JArray(items)) => items != []
    case Some(JObject(fields)) => fields != map[]
  }

  function Str(checkout: Checkout, v: Json): string {
    if v.JString? then v.s else checkout.show(v)
  }

  /** any(item.get("pass") is not True ...): stops at the first such item; Raised when it meets a non-object first. */
  datatype Scan = AllTrue | SomeNotTrue | ScanRaised

  function PassScan(items: seq<Json>): (scan: Scan)
    ensures scan.AllTrue? <==> forall i :: 0 <= i < |items| ==> MarkedPassed(items[i])
  {
    if items == [] then AllTrue
    else if !items[0].JObject? then ScanRaised
    else if !MarkedPassed(items[0]) then SomeNotTrue
    else
      assert forall i :: 0 < i < |items| ==> items[i] == items[1..][i - 1];
      PassScan(items[1..])
  }

  predicate MarkedPassed(item: Json) {
    item.JObject? && Get(item.fields, "pass") == Some(JBool(true))
  }

  // ---- one artifact -------------------------------------------------------------------------------------

  function EvidencePath(proof: Path): Path {
    if proof.suffix == ".json" then proof else proof.(suffix := ".json")
  }

  predicate Absent(v: Option<Json>) {
    v.None? || v.value.JNull?
  }

  predicate ReportDisagrees(report: Option<Json>, n: nat) {
    !Absent(report) && (!report.value.JObject? || !Truthy(Get(report.value.fields, "parses"))
                        || !EqualsInt(Get(report.value.fields, "testcase_count"), n))
  }

  function ArtifactStatus(files: map<Path, File>, proof: Path, checkout: Checkout): State {
    if proof !in files then MISSING
    else if EvidencePath(proof) !in files then UNVERIFIED
    else
      match files[EvidencePath(proof)]
      case Unreadable => UNVERIFIED
      case Document(data) => DocumentStatus(data, checkout)
  }

  function DocumentStatus(data: Json, checkout: Checkout): State {
    if !data.JObject? then Raised
    else if Absent(Get(data.fields, "exit_code")) then UNVERIFIED
    else if !("assertions" in data.fields && data.fields["assertions"].JArray?) then UNVERIFIED
    else
      var assertions := data.fields["assertions"].items;
      if assertions == [] then UNVERIFIED
      else if ReportDisagrees(Get(data.fields, "junit_report"), |assertions|) then FAIL
      else if !EqualsInt(Get(data.fields, "exit_code"), 0) then FAIL
      else
        match PassScan(assertions)
        case ScanRaised => Raised
        case SomeNotTrue => FAIL
        case AllTrue => RevisionStatus(Get(data.fields, "git"), checkout)
  }

  function RevisionStatus(git: Option<Json>, checkout: Checkout): State {
    if git.None? || !git.value.JObject? then UNVERIFIED
    else
      var fields := git.value.fields;
      if Get(fields, "relevant_paths_dirty") != Some(JBool(false)) then UNVERIFIED
      else
        var revision := Strip(if "revision" in fields then Str(checkout, fields["revision"]) else "");
        var paths := Get(fields, "relevant_paths");
        if revision == "" || paths.None? || !paths.value.JArray? || paths.value.items == [] then UNVERIFIED
        else
          var items := paths.value.items;
          WatchedStatus(revision, seq(|items|, i requires 0 <= i < |items| => Str(checkout, items[i])), checkout)
  }

  /** A git command that cannot be started raises; one that fails answers nothing; output is stripped. */
  function WatchedStatus(revision: string, watched: seq<string>, checkout: Checkout): State {
    match checkout.commit(revision)
    case NoAnswer => Raised
    case Exited(code, _) =>
      if code != 0 then UNVERIFIED
      else
        match (checkout.diff(revision, watched), checkout.status(watched))
        case (Exited(c, changed), Exited(d, dirty)) =>
          if c != 0 || d != 0 then UNVERIFIED
          else if Strip(changed) != "" || Strip(dirty) != "" then STALE
          else PASS
        case _ => Raised
  }

  /** The commit is there and its watched paths are what they were. */
  predicate Unchanged(revision: string, watched: seq<string>, checkout: Checkout) {
    && checkout.commit(revision).Exited? && checkout.commit(revision).code == 0
    && checkout.diff(revision, watched).Exited? && checkout.diff(revision, watched).code == 0
    && Blank(checkout.diff(revision, watched).stdout)
    && checkout.status(watched).Exited? && checkout.status(watched).code == 0
    && Blank(checkout.status(watched).stdout)
  }

  lemma WatchedPass(revision: string, watched: seq<string>, checkout: Checkout)
    ensures WatchedStatus(revision, watched, checkout) == PASS <==> Unchanged(revision, watched, checkout)
  {
    hide Strip, Blank;
  }

  /** The other outcomes of the last checks: changed since, not checkable, and git not there at all. */
  lemma WatchedExactly(revision: string, watched: seq<string>, checkout: Checkout)
    ensures var state := WatchedStatus(revision, watched, checkout);
            var (commit, diff, status) := (checkout.commit(revision), checkout.diff(revision, watched), checkout.status(watched));
            && (state.STALE? <==>
                  && commit.Exited? && diff.Exited? && status.Exited? && commit.code == diff.code == status.code == 0
                  && (!Blank(diff.stdout) || !Blank(status.stdout)))
            && (state.UNVERIFIED? <==>
                  && commit.Exited?
                  && (commit.code != 0 || (diff.Exited? && status.Exited? && (diff.code != 0 || status.code != 0))))
            && (state.Raised? <==> commit.NoAnswer? || (commit.code == 0 && (diff.NoAnswer? || status.NoAnswer?)))
            && !state.MISSING? && !state.FAIL?
  {
    hide Strip, Blank;
  }

  /** Without the proof a gate is missing; without a readable artifact beside it, not verified. */
  lemma FilesExactly(files: map<Path, File>, proof: Path, checkout: Checkout)
    ensures proof !in files ==> ArtifactStatus(files, proof, checkout) == MISSING
    ensures proof in files ==>
              var evidence := proof.(suffix := ".json");
              if evidence !in files || files[evidence].Unreadable? then ArtifactStatus(files, proof, checkout) == UNVERIFIED
              else ArtifactStatus(files, proof, checkout) == DocumentStatus(files[evidence].json, checkout)
  {
    hide DocumentStatus;
  }

  // ---- any artifact, exactly ------------------------------------------------------------------------------

  /** An exit code and at least one assertion are recorded. */
  predicate Complete(fields: map<string, Json>) {
    && "exit_code" in fields && fields["exit_code"] != JNull
    && "assertions" in fields && fields["assertions"].JArray? && fields["assertions"].items != []
  }

  /** No report, or one that parsed (anything Python takes for true) and counts `n` test cases (True counts one). */
  predicate ReportStands(fields: map<string, Json>, n: nat) {
    "junit_report" in fields && fields["junit_report"] != JNull ==>
      var report := fields["junit_report"];
      && report.JObject?
      && "parses" in report.fields
      && report.fields["parses"] !in {JNull, JBool(false), JNumber(0.0), JString(""), JArray([]), JObject(map[])}
      && "testcase_count" in report.fields
      && (|| report.fields["testcase_count"] == JNumber(n as real)
          || (n == 1 && report.fields["testcase_count"] == JBool(true))
          || (n == 0 && report.fields["testcase_count"] == JBool(false)))
  }

  predicate ExitedZero(fields: map<string, Json>) {
    "exit_code" in fields && (fields["exit_code"] == JNumber(0.0) || fields["exit_code"] == JBool(false))
  }

  /** The first item that is not an object marked as passed. */
  predicate FirstNotPassed(items: seq<Json>, k: int) {
    0 <= k < |items| && !MarkedPassed(items[k]) && forall i :: 0 <= i < k ==> MarkedPassed(items[i])
  }

  lemma {:induction false} PassScanExactly(items: seq<Json>)
    ensures PassScan(items).SomeNotTrue? <==> exists k :: FirstNotPassed(items, k) && items[k].JObject?
    ensures PassScan(items).ScanRaised? <==> exists k :: FirstNotPassed(items, k) && !items[k].JObject?
  {
    hide MarkedPassed;
    if items != [] {
      NotObjectNotPassed(items[0]);
      if MarkedPassed(items[0]) {
        PassScanExactly(items[1..]);
        forall k ensures FirstNotPassed(items, k) <==> k > 0 && FirstNotPassed(items[1..], k - 1) {
          assert forall i :: 0 <= i < |items[1..]| ==> items[1..][i] == items[i + 1];
          if k > 0 && FirstNotPassed(items[1..], k - 1) {
            forall i | 0 <= i < k ensures MarkedPassed(items[i]) {
              if i > 0 { assert items[1..][i - 1] == items[i]; }
            }
          }
          if FirstNotPassed(items, k) {
            forall i | 0 <= i < k - 1 ensures MarkedPassed(items[1..][i]) { assert items[1..][i] == items[i + 1]; }
          }
        }
        if k :| FirstNotPassed(items[1..], k) { assert FirstNotPassed(items, k + 1) && items[k + 1] == items[1..][k]; }
      } else {
        assert FirstNotPassed(items, 0);
      }
    }
  }

  lemma NotObjectNotPassed(item: Json)
    ensures MarkedPassed(item) <==> item.JObject? && "pass" in item.fields && item.fields["pass"] == JBool(true)
  {
  }

  lemma ReportStandsExactly(fields: map<string, Json>, n: nat)
    ensures ReportDisagrees(Get(fields, "junit_report"), n) <==> !ReportStands(fields, n)
  {
  }

  /** ANY ARTIFACT: what the final gate makes of it, whoever wrote it. */
  lemma DocumentExactly(data: Json, checkout: Checkout)
    ensures !data.JObject? ==> DocumentStatus(data, checkout) == Raised
    ensures data.JObject? && !Complete(data.fields) ==> DocumentStatus(data, checkout) == UNVERIFIED
    ensures data.JObject? && Complete(data.fields) ==>
              var items := data.fields["assertions"].items;
              var state := DocumentStatus(data, checkout);
              && (state == FAIL <==>
                    || !ReportStands(data.fields, |items|) || !ExitedZero(data.fields)
                    || exists k :: FirstNotPassed(items, k) && items[k].JObject?)
              && (ReportStands(data.fields, |items|) && ExitedZero(data.fields) ==>
                    && ((exists k :: FirstNotPassed(items, k) && !items[k].JObject?) ==> state == Raised)
                    && ((forall i :: 0 <= i < |items| ==> MarkedPassed(items[i])) ==>
                          state == RevisionStatus(Get(data.fields, "git"), checkout)))
  {
    hide PassScan, MarkedPassed, ReportDisagrees, ReportStands, RevisionStatus;
    if data.JObject? && Complete(data.fields) {
      var items := data.fields["assertions"].items;
      PassScanExactly(items);
      ReportStandsExactly(data.fields, |items|);
      RevisionNeverFails(Get(data.fields, "git"), checkout);
    }
  }

  /** The git record must say clean, and name a revision and watched paths; then the watched paths decide. */
  lemma RevisionExactly(git: Json, checkout: Checkout, revision: string, paths: seq<string>)
    requires git.JObject? && "revision" in git.fields && git.fields["revision"] == JString(revision)
    requires "relevant_paths" in git.fields && Lists(git.fields["relevant_paths"], paths)
    ensures var state := RevisionStatus(Some(git), checkout);
            if Says(git, "relevant_paths_dirty", JBool(false)) && !Blank(revision) && paths != []
            then state == WatchedStatus(Strip(revision), paths, checkout) else state == UNVERIFIED
  {
    hide Strip, Blank, WatchedStatus;
    var items := git.fields["relevant_paths"].items;
    assert seq(|items|, i requires 0 <= i < |items| => Str(checkout, items[i])) == paths;
  }

  lemma RevisionNeverFails(git: Option<Json>, checkout: Checkout)
    ensures RevisionStatus(git, checkout) != FAIL
  {
    hide Strip, Blank;
  }

  // ---- the project ----------------------------------------------------------------------------------------

  datatype IndexEntry = IndexEntry(id: string, name: string, proof: Path)

  datatype Row = Row(id: string, name: string, mandatory: bool, proof: Path, state: State)

  datatype ProjectStatus = ProjectFail | ProjectPass | InProgress

  ghost predicate ProjectPasses(files: map<Path, File>, gates: seq<IndexEntry>, checkout: Checkout) {
    forall i :: 0 <= i < |gates| ==> ArtifactStatus(files, gates[i].proof, checkout).PASS?
  }

  function RowOf(files: map<Path, File>, mandatory: set<string>, gate: IndexEntry, checkout: Checkout): Row {
    Row(gate.id, gate.name, gate.id in mandatory, gate.proof, ArtifactStatus(files, gate.proof, checkout))
  }

  /**
   * The index: one row per gate in order, and the project status. None is an exception, which any gate
   * can cause. Being mandatory shows in a row and decides nothing.
   */
  method Render(files: map<Path, File>, gates: seq<IndexEntry>, mandatory: set<string>, checkout: Checkout)
    returns (rows: seq<Row>, status: Option<ProjectStatus>)
    ensures status.None? <==> exists i :: 0 <= i < |gates| && ArtifactStatus(files, gates[i].proof, checkout).Raised?
    ensures status.Some? ==> |rows| == |gates|
                             && forall i :: 0 <= i < |gates| ==> rows[i] == RowOf(files, mandatory, gates[i], checkout)
    ensures status == Some(ProjectPass) <==> ProjectPasses(files, gates, checkout)
    ensures status == Some(ProjectFail) <==>
            && (exists i :: 0 <= i < |gates| && ArtifactStatus(files, gates[i].proof, checkout).FAIL?)
            && (forall i :: 0 <= i < |gates| ==> !ArtifactStatus(files, gates[i].proof, checkout).Raised?)
  {
    hide ArtifactStatus;
    rows := [];
    var states: seq<State> := [];
    for k := 0 to |gates|
      invariant |rows| == |states| == k
      invariant forall i :: 0 <= i < k ==> states[i] == ArtifactStatus(files, gates[i].proof, checkout) && !states[i].Raised?
      invariant forall i :: 0 <= i < k ==> rows[i] == RowOf(files, mandatory, gates[i], checkout)
    {
      var state := ArtifactStatus(files, gates[k].proof, checkout);
      if state.Raised? {
        return rows, None;
      }
      states := states + [state];
      rows := rows + [Row(gates[k].id, gates[k].name, gates[k].id in mandatory, gates[k].proof, state)];
    }
    if exists i :: 0 <= i < |states| && states[i].FAIL? {
      status := Some(ProjectFail);
    } else if forall i :: 0 <= i < |states| ==> states[i].PASS? {
      status := Some(ProjectPass);
    } else {
      status := Some(InProgress);
    }
  }
}
