/** What an empty report of the walker means: for payloads as they are, and for redacted ones. */
module RedactionAudit {
  import opened Text
  import opened Redaction
  import opened RedactionShape
  import opened RedactionNames
  import opened RedactionWalker

  // ---- any payload -----------------------------------------------------------------------------------

  /** The key holds something other than a removal marker or null, anywhere in the payload. */
  ghost predicate LiveKey(v: Value, key: string)
    decreases v
  {
    match v
    case Mapping(es) =>
      exists i :: 0 <= i < |es| && ((es[i].key == key && !Harmless(es[i].value)) || LiveKey(es[i].value, key))
    case Items(items) => exists i :: 0 <= i < |items| && LiveKey(items[i], key)
    case Stream(parts) => exists i :: 0 <= i < |parts| && LiveKey(parts[i], key)
    case _ => false
  }

  /** It does so where the walker looks: through mappings and sequences only, and not too deep. */
  ghost predicate SeenKey(v: Value, key: string, depth: nat)
    decreases v
  {
    depth <= MAX_DEPTH &&
    match v
    case Mapping(es) =>
      exists i :: 0 <= i < |es| && ((es[i].key == key && !Harmless(es[i].value)) || SeenKey(es[i].value, key, depth + 1))
    case Items(items) => exists i :: 0 <= i < |items| && SeenKey(items[i], key, depth + 1)
    case _ => false
  }

  /** Some secret-named key is live. */
  ghost predicate Leaks(rt: Runtime, v: Value) {
    exists key :: LiveKey(v, key) && IsSecretKey(rt, key)
  }

  /** Nothing is reported at the entry, nor below it. */
  predicate Quiet(rt: Runtime, e: Entry, path: string, depth: nat) {
    (IsSecretKey(rt, e.key) ==> Harmless(e.value)) && Walk(rt, e.value, path + "." + e.key, depth + 1) == []
  }

  lemma {:induction false} EntriesQuiet(rt: Runtime, es: seq<Entry>, path: string, depth: nat)
    ensures WalkEntries(rt, es, path, depth) == [] <==> forall i :: 0 <= i < |es| ==> Quiet(rt, es[i], path, depth)
    decreases |es|
  {
    hide Walk, IsSecretKey, Harmless;
    if es != [] {
      var init := es[..|es| - 1];
      EntriesQuiet(rt, init, path, depth);
      assert forall i :: 0 <= i < |init| ==> init[i] == es[i];
      assert Quiet(rt, es[|es| - 1], path, depth) || !Quiet(rt, es[|es| - 1], path, depth);
    }
  }

  function ItemPath(path: string, i: nat): string {
    path + "[" + Decimal(i) + "]"
  }

  lemma {:induction false} ItemsQuiet(rt: Runtime, items: seq<Value>, path: string, depth: nat)
    ensures WalkItems(rt, items, path, depth) == [] <==>
            forall i :: 0 <= i < |items| ==> Walk(rt, items[i], ItemPath(path, i), depth + 1) == []
    decreases |items|
  {
    hide Walk, Decimal;
    if items != [] {
      var init := items[..|items| - 1];
      ItemsQuiet(rt, init, path, depth);
      assert forall i :: 0 <= i < |init| ==> init[i] == items[i];
    }
  }

  /** EMPTY REPORT, EXACTLY: no key that is live where the walker looks is secret-named. */
  lemma {:induction false} EmptyReportExactly(rt: Runtime, v: Value, path: string, depth: nat)
    ensures Walk(rt, v, path, depth) == [] <==> forall key :: SeenKey(v, key, depth) ==> !IsSecretKey(rt, key)
    decreases v
  {
    hide IsSecretKey, Harmless, WalkEntries, WalkItems;
    if depth <= MAX_DEPTH {
      match v
      case Mapping(es) =>
        EntriesQuiet(rt, es, path, depth);
        forall i | 0 <= i < |es|
          ensures Quiet(rt, es[i], path, depth) <==>
                  forall key :: SeenAt(es[i], key, depth) ==> !IsSecretKey(rt, key)
        {
          EmptyReportExactly(rt, es[i].value, path + "." + es[i].key, depth + 1);
          if Quiet(rt, es[i], path, depth) {
          } else if IsSecretKey(rt, es[i].key) && !Harmless(es[i].value) {
            assert SeenAt(es[i], es[i].key, depth);
          } else {
            var key :| SeenKey(es[i].value, key, depth + 1) && IsSecretKey(rt, key);
            assert SeenAt(es[i], key, depth);
          }
        }
        SeenInMapping(es, depth);
      case Items(items) =>
        ItemsQuiet(rt, items, path, depth);
        forall i | 0 <= i < |items|
          ensures Walk(rt, items[i], ItemPath(path, i), depth + 1) == [] <==>
                  forall key :: SeenKey(items[i], key, depth + 1) ==> !IsSecretKey(rt, key)
        {
          EmptyReportExactly(rt, items[i], ItemPath(path, i), depth + 1);
        }
      case _ =>
    }
  }

  ghost predicate SeenAt(e: Entry, key: string, depth: nat) {
    (e.key == key && !Harmless(e.value)) || SeenKey(e.value, key, depth + 1)
  }

  lemma SeenInMapping(es: seq<Entry>, depth: nat)
    requires depth <= MAX_DEPTH
    ensures forall key :: SeenKey(Mapping(es), key, depth) <==> exists i :: 0 <= i < |es| && SeenAt(es[i], key, depth)
  {
    hide Harmless;
    forall key ensures SeenKey(Mapping(es), key, depth) <==> exists i :: 0 <= i < |es| && SeenAt(es[i], key, depth) {
      if exists i :: 0 <= i < |es| && SeenAt(es[i], key, depth) {
        var i :| 0 <= i < |es| && SeenAt(es[i], key, depth);
      }
    }
  }

  // ---- which paths are reported ------------------------------------------------------------------------

  /** The `i`-th child of a mapping or a sequence, and its name in a path. */
  function Child(v: Value, i: nat): Option<Value> {
    match v
    case Mapping(es) => if i < |es| then Some(es[i].value) else None
    case Items(items) => if i < |items| then Some(items[i]) else None
    case _ => None
  }

  function Label(v: Value, i: nat): string
    requires Child(v, i).Some?
  {
    if v.Mapping? then "." + v.entries[i].key else "[" + Decimal(i) + "]"
  }

  /** Following `at` from child to child leads to an entry that is secret-named and live, at path `q`. */
  ghost predicate LeakAt(rt: Runtime, v: Value, at: seq<nat>, path: string, q: string)
    decreases |at|
  {
    at != [] && Child(v, at[0]).Some? &&
    if |at| == 1 then
      && v.Mapping? && IsSecretKey(rt, v.entries[at[0]].key) && !Harmless(v.entries[at[0]].value)
      && q == path + Label(v, at[0])
    else LeakAt(rt, Child(v, at[0]).value, at[1..], path + Label(v, at[0]), q)
  }

  lemma Step(rt: Runtime, v: Value, i: nat, at: seq<nat>, path: string, q: string)
    requires Child(v, i).Some? && LeakAt(rt, Child(v, i).value, at, path + Label(v, i), q)
    ensures LeakAt(rt, v, [i] + at, path, q)
  {
    assert ([i] + at)[1..] == at;
  }

  /** A path the walker reports leads to a leak, and not too deep. */
  lemma {:induction false} ReportedIsLeak(rt: Runtime, v: Value, path: string, depth: nat, q: string) returns (at: seq<nat>)
    requires q in Walk(rt, v, path, depth)
    ensures LeakAt(rt, v, at, path, q) && depth + |at| <= MAX_DEPTH + 1
    decreases v
  {
    hide IsSecretKey, Harmless, WalkEntries, WalkItems, Label;
    match v
    case Mapping(es) =>
      var i := ReportedEntry(rt, es, path, depth, q);
      Pathed(path, es, i);
      if q in Walk(rt, es[i].value, path + "." + es[i].key, depth + 1) {
        var below := ReportedIsLeak(rt, es[i].value, path + "." + es[i].key, depth + 1, q);
        at := [i] + below;
        Step(rt, v, i, below, path, q);
      } else {
        at := [i];
      }
    case Items(items) =>
      var i := ReportedItem(rt, items, path, depth, q);
      PathedItem(path, items, i);
      var below := ReportedIsLeak(rt, items[i], ItemPath(path, i), depth + 1, q);
      at := [i] + below;
      Step(rt, v, i, below, path, q);
  }

  lemma Pathed(path: string, es: seq<Entry>, i: nat)
    requires i < |es|
    ensures path + Label(Mapping(es), i) == path + "." + es[i].key
  {
    Assoc(path, ".", es[i].key);
  }

  lemma PathedItem(path: string, items: seq<Value>, i: nat)
    requires i < |items|
    ensures path + Label(Items(items), i) == ItemPath(path, i)
  {
    Assoc(path, "[", Decimal(i));
    Assoc(path, "[" + Decimal(i), "]");
  }

  lemma {:induction false} ReportedEntry(rt: Runtime, es: seq<Entry>, path: string, depth: nat, q: string) returns (i: nat)
    requires q in WalkEntries(rt, es, path, depth)
    ensures i < |es|
    ensures (IsSecretKey(rt, es[i].key) && !Harmless(es[i].value) && q == path + "." + es[i].key)
            || q in Walk(rt, es[i].value, path + "." + es[i].key, depth + 1)
    decreases |es|
  {
    hide IsSecretKey, Harmless, Walk;
    var init := es[..|es| - 1];
    if q in WalkEntries(rt, init, path, depth) {
      i := ReportedEntry(rt, init, path, depth, q);
      assert init[i] == es[i];
    } else {
      i := |es| - 1;
    }
  }

  lemma {:induction false} ReportedItem(rt: Runtime, items: seq<Value>, path: string, depth: nat, q: string) returns (i: nat)
    requires q in WalkItems(rt, items, path, depth)
    ensures i < |items| && q in Walk(rt, items[i], ItemPath(path, i), depth + 1)
    decreases |items|
  {
    hide Walk, Decimal;
    var init := items[..|items| - 1];
    if q in WalkItems(rt, init, path, depth) {
      i := ReportedItem(rt, init, path, depth, q);
      assert init[i] == items[i];
    } else {
      i := |items| - 1;
    }
  }

  lemma {:induction false} EntryReported(rt: Runtime, es: seq<Entry>, path: string, depth: nat, i: nat, q: string)
    requires i < |es|
    requires (IsSecretKey(rt, es[i].key) && !Harmless(es[i].value) && q == path + "." + es[i].key)
             || q in Walk(rt, es[i].value, path + "." + es[i].key, depth + 1)
    ensures q in WalkEntries(rt, es, path, depth)
    decreases |es|
  {
    hide IsSecretKey, Harmless, Walk;
    if i < |es| - 1 { EntryReported(rt, es[..|es| - 1], path, depth, i, q); }
  }

  lemma {:induction false} ItemReported(rt: Runtime, items: seq<Value>, path: string, depth: nat, i: nat, q: string)
    requires i < |items| && q in Walk(rt, items[i], ItemPath(path, i), depth + 1)
    ensures q in WalkItems(rt, items, path, depth)
    decreases |items|
  {
    hide Walk, Decimal;
    if i < |items| - 1 { ItemReported(rt, items[..|items| - 1], path, depth, i, q); }
  }

  /** And a leak that is not too deep is reported at its path. */
  lemma {:induction false} LeakIsReported(rt: Runtime, v: Value, at: seq<nat>, path: string, depth: nat, q: string)
    requires LeakAt(rt, v, at, path, q) && depth + |at| <= MAX_DEPTH + 1
    ensures q in Walk(rt, v, path, depth)
    decreases |at|
  {
    hide IsSecretKey, Harmless, WalkEntries, WalkItems, Label;
    var i := at[0];
    match v
    case Mapping(es) =>
      Pathed(path, es, i);
      if |at| > 1 { LeakIsReported(rt, es[i].value, at[1..], path + "." + es[i].key, depth + 1, q); }
      EntryReported(rt, es, path, depth, i, q);
    case Items(items) =>
      PathedItem(path, items, i);
      LeakIsReported(rt, items[i], at[1..], ItemPath(path, i), depth + 1, q);
      ItemReported(rt, items, path, depth, i, q);
    case _ =>
  }

  /** THE REPORT, EXACTLY: the paths of the live secret-named entries at most nine steps from the root. */
  lemma ReportExactly(rt: Runtime, v: Value, q: string)
    ensures q in Walk(rt, v, "$", 0) <==> exists at :: LeakAt(rt, v, at, "$", q) && |at| <= 9
  {
    hide Walk, LeakAt;
    if q in Walk(rt, v, "$", 0) { var at := ReportedIsLeak(rt, v, "$", 0, q); }
    if at :| LeakAt(rt, v, at, "$", q) && |at| <= 9 { LeakIsReported(rt, v, at, "$", 0, q); }
  }

  // ---- does an empty report mean that the payload is clean? ------------------------------------------

  /**
   * AN EMPTY REPORT MEANS CLEAN exactly for the payloads that, if they leak at all, leak where the walker
   * looks.
   */
  lemma EmptyMeansCleanExactly(rt: Runtime, v: Value)
    ensures (Walk(rt, v, "$", 0) == [] ==> !Leaks(rt, v))
            <==> (Leaks(rt, v) ==> exists key :: SeenKey(v, key, 0) && IsSecretKey(rt, key))
  {
    hide Walk, IsSecretKey, Leaks, SeenKey;
    EmptyReportExactly(rt, v, "$", 0);
  }

  /** No iterable that is not a sequence, and nothing deeper than the walker goes. */
  predicate Shallow(v: Value, depth: nat)
    decreases v
  {
    match v
    case Mapping(es) => es == [] || (depth <= MAX_DEPTH && forall i :: 0 <= i < |es| ==> Shallow(es[i].value, depth + 1))
    case Items(items) => items == [] || (depth <= MAX_DEPTH && forall i :: 0 <= i < |items| ==> Shallow(items[i], depth + 1))
    case Stream(parts) => parts == []
    case _ => true
  }

  lemma {:induction false} ShallowSeen(v: Value, key: string, depth: nat)
    requires Shallow(v, depth) && LiveKey(v, key)
    ensures SeenKey(v, key, depth)
    decreases v
  {
    hide Harmless;
    match v
    case Mapping(es) =>
      var i :| 0 <= i < |es| && ((es[i].key == key && !Harmless(es[i].value)) || LiveKey(es[i].value, key));
      if LiveKey(es[i].value, key) { ShallowSeen(es[i].value, key, depth + 1); }
    case Items(items) =>
      var i :| 0 <= i < |items| && LiveKey(items[i], key);
      ShallowSeen(items[i], key, depth + 1);
    case _ =>
  }

  lemma {:induction false} SeenIsLive(v: Value, key: string, depth: nat)
    requires SeenKey(v, key, depth)
    ensures LiveKey(v, key)
    decreases v
  {
    hide Harmless;
    match v
    case Mapping(es) =>
      var i :| 0 <= i < |es| && ((es[i].key == key && !Harmless(es[i].value)) || SeenKey(es[i].value, key, depth + 1));
      if SeenKey(es[i].value, key, depth + 1) { SeenIsLive(es[i].value, key, depth + 1); }
    case Items(items) =>
      var i :| 0 <= i < |items| && SeenKey(items[i], key, depth + 1);
      SeenIsLive(items[i], key, depth + 1);
    case _ =>
  }

  /** On payloads as they are there are no false alarms: a report means a leak. */
  lemma ReportMeansLeak(rt: Runtime, v: Value)
    requires Walk(rt, v, "$", 0) != []
    ensures Leaks(rt, v)
  {
    hide Walk, IsSecretKey, LiveKey, SeenKey;
    EmptyReportExactly(rt, v, "$", 0);
    var key :| SeenKey(v, key, 0) && IsSecretKey(rt, key);
    SeenIsLive(v, key, 0);
  }

  /** A GUARD on the shape alone: on shallow payloads the report is empty iff nothing leaks. */
  lemma ShallowReportExactly(rt: Runtime, v: Value)
    requires Shallow(v, 0)
    ensures Walk(rt, v, "$", 0) == [] <==> !Leaks(rt, v)
  {
    hide Walk, IsSecretKey, LiveKey, SeenKey, Shallow;
    EmptyReportExactly(rt, v, "$", 0);
    forall key ensures LiveKey(v, key) <==> SeenKey(v, key, 0) {
      if LiveKey(v, key) { ShallowSeen(v, key, 0); }
      if SeenKey(v, key, 0) { SeenIsLive(v, key, 0); }
    }
  }

  // ---- the same for all key vocabularies at once -------------------------------------------------------

  /** Python with a key vocabulary that knows one secret name only. */
  function OnlySecret(key: string): Runtime {
    Runtime((s: string) => s, (s: string) => if s == key then "password" else "", (ch: char) => false)
  }

  lemma OnlySecretIs(key: string, other: string)
    ensures IsSecretKey(OnlySecret(key), other) <==> other == key
  {
    hide ContainsAny, EqualsAny;
    if other == key {
      SquashPlain("password");
      Empty("password");
      PasswordIsSecret(OnlySecret(key), key, "");
    } else {
      NothingIsSecret(OnlySecret(key), other);
    }
  }

  /** An empty report means that nothing leaks, for every conceivable key vocabulary. */
  ghost predicate TrustedForAllNames(v: Value) {
    forall rt: Runtime :: Walk(rt, v, "$", 0) == [] ==> !Leaks(rt, v)
  }

  /** Every live key is live somewhere the walker looks. */
  ghost predicate AllSeen(v: Value) {
    forall key :: LiveKey(v, key) ==> SeenKey(v, key, 0)
  }

  lemma UnseenKeyLeaks(v: Value, key: string)
    requires TrustedForAllNames(v) && LiveKey(v, key)
    ensures SeenKey(v, key, 0)
  {
    hide Walk, IsSecretKey, LiveKey, SeenKey, OnlySecret;
    var rt := OnlySecret(key);
    OnlySecretIs(key, key);
    assert Leaks(rt, v);
    EmptyReportExactly(rt, v, "$", 0);
    var seen :| SeenKey(v, seen, 0) && IsSecretKey(rt, seen);
    OnlySecretIs(key, seen);
  }

  lemma SeenKeysTold(rt: Runtime, v: Value)
    requires AllSeen(v) && Walk(rt, v, "$", 0) == []
    ensures !Leaks(rt, v)
  {
    hide Walk, IsSecretKey, LiveKey, SeenKey;
    EmptyReportExactly(rt, v, "$", 0);
  }

  /**
   * Uniformly over vocabularies (also ones the code does not have) an empty report can be trusted exactly
   * for the payloads whose live keys are all live somewhere the walker looks.
   */
  lemma TrustedForAllNamesExactly(v: Value)
    ensures TrustedForAllNames(v) <==> AllSeen(v)
  {
    hide Walk, Leaks, LiveKey, SeenKey;
    if TrustedForAllNames(v) {
      forall key | LiveKey(v, key) ensures SeenKey(v, key, 0) { UnseenKeyLeaks(v, key); }
    }
    if AllSeen(v) {
      forall rt: Runtime | Walk(rt, v, "$", 0) == [] ensures !Leaks(rt, v) { SeenKeysTold(rt, v); }
    }
  }

  function Nested(v: Value, n: nat): Value {
    if n == 0 then v else Items([Nested(v, n - 1)])
  }

  lemma {:induction false} NestedKeys(v: Value, n: nat, key: string, depth: nat)
    ensures LiveKey(Nested(v, n), key) <==> LiveKey(v, key)
    ensures depth + n > MAX_DEPTH ==> !SeenKey(Nested(v, n), key, depth)
    decreases n
  {
    if n > 0 {
      NestedKeys(v, n - 1, key, depth + 1);
      assert Nested(v, n).items[0] == Nested(v, n - 1);
    }
  }

  /** COUNTEREXAMPLES: nine lists around a leak, or one iterable that is no sequence, and nothing is reported. */
  lemma HiddenLeaks(rt: Runtime, v: Value)
    requires Leaks(rt, v)
    ensures Leaks(rt, Nested(v, 9)) && Walk(rt, Nested(v, 9), "$", 0) == []
    ensures Leaks(rt, Stream([v])) && Walk(rt, Stream([v]), "$", 0) == []
  {
    hide IsSecretKey, Walk, Nested;
    var leak :| LiveKey(v, leak) && IsSecretKey(rt, leak);
    forall key ensures !SeenKey(Nested(v, 9), key, 0) && (LiveKey(v, key) ==> LiveKey(Nested(v, 9), key)) {
      NestedKeys(v, 9, key, 0);
    }
    EmptyReportExactly(rt, Nested(v, 9), "$", 0);
    EmptyReportExactly(rt, Stream([v]), "$", 0);
    assert Stream([v]).parts[0] == v;
    assert LiveKey(Stream([v]), leak);
  }

  const PASSWORD_LEAK := Mapping([Entry("password", Str("hunter2"))])

  lemma PasswordIsLive()
    ensures LiveKey(PASSWORD_LEAK, "password")
  {
    assert |"hunter2"| != |SECRET_REMOVED|;
    assert PASSWORD_LEAK.entries[0].key == "password" && !Harmless(PASSWORD_LEAK.entries[0].value);
  }

  lemma PasswordLeaks(rt: Runtime)
    requires rt.lower("password") == "password"
    ensures Leaks(rt, PASSWORD_LEAK)
  {
    hide IsSecretKey, Squash, LiveKey;
    SquashPlain("password");
    Empty("password");
    PasswordIsSecret(rt, "password", "");
    PasswordIsLive();
  }

  /** For example a password. */
  lemma HiddenPassword(rt: Runtime)
    requires rt.lower("password") == "password"
    ensures Leaks(rt, Nested(PASSWORD_LEAK, 9)) && Walk(rt, Nested(PASSWORD_LEAK, 9), "$", 0) == []
    ensures Leaks(rt, Stream([PASSWORD_LEAK])) && Walk(rt, Stream([PASSWORD_LEAK]), "$", 0) == []
  {
    hide Leaks, Walk, Nested;
    PasswordLeaks(rt);
    HiddenLeaks(rt, PASSWORD_LEAK);
  }

  // ---- redacted payloads -------------------------------------------------------------------------------

  /**
   * A doubly named key of the payload comes out of the redaction (which starts at `depth`) at a place
   * where the walker (which starts at `level`) still looks.
   */
  ghost predicate Alarm(c: Job, v: Value, depth: nat, level: nat)
    decreases v, 1
  {
    depth <= c.maxDepth && level <= MAX_DEPTH &&
    match v
    case Mapping(es) => exists j :: Kept(es, j) && EntryAlarm(c, es[j], depth, level)
    case Items(items) =>
      exists i :: 0 <= i < |items| && i < MAX_SEQUENCE_LEN && Alarm(c, items[i], depth + 1, level + 1)
    case Stream(parts) =>
      depth + 1 <= c.maxDepth &&
      exists i :: 0 <= i < |parts| && i < MAX_SEQUENCE_LEN && Alarm(c, parts[i], depth + 2, level + 1)
    case _ => false
  }

  ghost predicate EntryAlarm(c: Job, e: Entry, depth: nat, level: nat)
    decreases e, 0
  {
    || DoublyNamed(c.rt, e.key)
    || (!IsSecretKey(c.rt, e.key) && !IsCotKey(c.rt, e.key) && Alarm(c, e.value, depth + 1, level + 1))
  }

  lemma WalkOfText(rt: Runtime, s: string, path: string, level: nat)
    ensures Walk(rt, Str(s), path, level) == []
  {
  }

  /**
   * AUDIT OF REDACTED PAYLOADS, EXACTLY: the report is empty iff no doubly named key of the payload comes
   * out where the walker looks.
   */
  lemma {:induction false} RedactedReportExactly(c: Job, v: Value, path: string, depth: nat, level: nat)
    requires LowerKeepsNote(c.rt)
    ensures Walk(c.rt, Redact(c, v, depth), path, level) == [] <==> !Alarm(c, v, depth, level)
    decreases v, 1
  {
    hide IsSecretKey, IsCotKey, FieldOf, RedactMapping, RedactItems, WalkEntries, WalkItems, EntryAlarm, Kept, LowerKeepsNote;
    if depth <= c.maxDepth && level <= MAX_DEPTH {
      match v
      case Mapping(es) => RedactedMappingReport(c, es, path, depth, level);
      case Items(items) => RedactedItemsReport(c, items, path, depth, level);
      case Stream(parts) => if depth + 1 <= c.maxDepth { RedactedItemsReport(c, parts, path, depth + 1, level); }
      case _ =>
    }
  }

  lemma {:induction false} RedactedEntryReport(c: Job, e: Entry, path: string, depth: nat, level: nat)
    requires LowerKeepsNote(c.rt)
    ensures Quiet(c.rt, Entry(e.key, RedactEntry(c, e, depth)), path, level) <==> !EntryAlarm(c, e, depth, level)
    decreases e, 0
  {
    hide IsSecretKey, IsCotKey, FieldOf, MaskField, Redact, Walk, LowerKeepsNote;
    MarkersDiffer();
    var out, here := RedactEntry(c, e, depth), path + "." + e.key;
    if out.Str? { WalkOfText(c.rt, out.s, here, level + 1); }
    RedactedReportExactly(c, e.value, here, depth + 1, level + 1);
  }

  lemma {:induction false} RedactedMappingReport(c: Job, es: seq<Entry>, path: string, depth: nat, level: nat)
    requires LowerKeepsNote(c.rt)
    ensures WalkEntries(c.rt, RedactMapping(c, es, depth), path, level) == []
            <==> !exists j :: Kept(es, j) && EntryAlarm(c, es[j], depth, level)
    decreases es, 0
  {
    hide RedactMapping, RedactEntry, WalkEntries, Quiet, EntryAlarm, LowerKeepsNote;
    var out := RedactMapping(c, es, depth);
    EntriesQuiet(c.rt, out, path, level);
    forall i | 0 <= i < |out|
      ensures Quiet(c.rt, out[i], path, level) || exists j :: Kept(es, j) && EntryAlarm(c, es[j], depth, level)
    {
      var j := MappingOrigin(c, es, depth, i);
      if j >= 0 {
        RedactedEntryReport(c, es[j], path, depth, level);
      } else {
        NoteQuiet(c.rt, MoreKeys(|es| - MAX_KEYS), path, level);
      }
    }
    forall j | Kept(es, j) && EntryAlarm(c, es[j], depth, level)
      ensures exists i :: 0 <= i < |out| && !Quiet(c.rt, out[i], path, level)
    {
      var i := MappingTarget(c, es, depth, j);
      RedactedEntryReport(c, es[j], path, depth, level);
      assert !Quiet(c.rt, out[i], path, level);
    }
  }

  lemma NoteQuiet(rt: Runtime, note: string, path: string, level: nat)
    requires LowerKeepsNote(rt)
    ensures Quiet(rt, Entry(TRUNCATED_KEY, Str(note)), path, level)
  {
    hide IsSecretKey, LowerKeepsNote;
    NoteKeyIsPlain(rt);
  }

  lemma {:induction false} RedactedItemsReport(c: Job, items: seq<Value>, path: string, depth: nat, level: nat)
    requires LowerKeepsNote(c.rt)
    ensures WalkItems(c.rt, RedactItems(c, items, depth), path, level) == []
            <==> !exists i :: 0 <= i < |items| && i < MAX_SEQUENCE_LEN && Alarm(c, items[i], depth + 1, level + 1)
    decreases items, 0
  {
    hide RedactItems, Redact, WalkItems, Walk, Alarm, LowerKeepsNote;
    var out := RedactItems(c, items, depth);
    ItemsQuiet(c.rt, out, path, level);
    ItemsLength(c, items, depth);
    forall i | 0 <= i < |out|
      ensures Walk(c.rt, out[i], ItemPath(path, i), level + 1) == [] <==>
              !(i < |items| && i < MAX_SEQUENCE_LEN && Alarm(c, items[i], depth + 1, level + 1))
    {
      ItemOrigin(c, items, depth, i);
      if i < MAX_SEQUENCE_LEN {
        RedactedReportExactly(c, items[i], ItemPath(path, i), depth + 1, level + 1);
      } else {
        WalkOfText(c.rt, MoreItems(|items| - MAX_SEQUENCE_LEN), ItemPath(path, i), level + 1);
      }
    }
  }

  predicate NoDoubleNames(rt: Runtime, v: Value)
    decreases v
  {
    match v
    case Mapping(es) => forall i :: 0 <= i < |es| ==> !DoublyNamed(rt, es[i].key) && NoDoubleNames(rt, es[i].value)
    case Items(items) => forall i :: 0 <= i < |items| ==> NoDoubleNames(rt, items[i])
    case Stream(parts) => forall i :: 0 <= i < |parts| ==> NoDoubleNames(rt, parts[i])
    case _ => true
  }

  lemma {:induction false} NoAlarm(c: Job, v: Value, depth: nat, level: nat)
    requires NoDoubleNames(c.rt, v)
    ensures !Alarm(c, v, depth, level)
    decreases v
  {
    hide DoublyNamed, IsSecretKey, IsCotKey;
    match v
    case Mapping(es) =>
      forall j | Kept(es, j) ensures !EntryAlarm(c, es[j], depth, level) { NoAlarm(c, es[j].value, depth + 1, level + 1); }
    case Items(items) =>
      forall i | 0 <= i < |items| ensures !Alarm(c, items[i], depth + 1, level + 1) { NoAlarm(c, items[i], depth + 1, level + 1); }
    case Stream(parts) =>
      forall i | 0 <= i < |parts| ensures !Alarm(c, parts[i], depth + 2, level + 1) { NoAlarm(c, parts[i], depth + 2, level + 1); }
    case _ =>
  }

  /** In particular a payload without doubly named keys always comes out clean. */
  lemma CleanPayload(c: Job, v: Value)
    requires LowerKeepsNote(c.rt) && NoDoubleNames(c.rt, v)
    ensures Walk(c.rt, Redact(c, v, 0), "$", 0) == []
  {
    hide Redact, Walk, NoDoubleNames, LowerKeepsNote, Alarm;
    RedactedReportExactly(c, v, "$", 0, 0);
    NoAlarm(c, v, 0, 0);
  }

  /** FALSE ALARM: a doubly named key is redacted, and reported all the same, whatever it held. */
  lemma DoublyNamedIsReported(c: Job, v: Value)
    requires LowerKeepsNote(c.rt) && c.rt.lower(DOUBLE) == DOUBLE && c.maxDepth >= 0
    ensures var r := Redact(c, Mapping([Entry(DOUBLE, v)]), 0);
            SecretsRemoved(c.rt, r) && Walk(c.rt, r, "$", 0) != []
  {
    hide Redact, Walk, SecretsRemoved, DoublyNamed, LowerKeepsNote, IsSecretKey, IsCotKey;
    var es := [Entry(DOUBLE, v)];
    DoubleIsDoublyNamed(c.rt);
    RedactRemovesSecrets(c, Mapping(es), 0);
    RedactedReportExactly(c, Mapping(es), "$", 0, 0);
    assert Kept(es, 0) && EntryAlarm(c, es[0], 0, 0);
  }
}
