/** The independent check that no secret remains (redaction.py, assertion_that_no_secret_remains). */
module RedactionWalker {
  import opened Text
  import opened Redaction
  import opened RedactionShape
  import opened RedactionNames

  const MAX_DEPTH := 8

  predicate Harmless(v: Value) {
    v == Str(SECRET_REMOVED) || v == Null
  }

  /** Paths of the secret-named keys whose value is neither removed nor null. */
  function Walk(rt: Runtime, v: Value, path: string, depth: nat): seq<string>
    decreases v, 1
  {
    if depth > MAX_DEPTH then []
    else
      match v
      case Mapping(es) => WalkEntries(rt, es, path, depth)
      case Items(items) => WalkItems(rt, items, path, depth)
      case _ => []
  }

  function WalkEntries(rt: Runtime, es: seq<Entry>, path: string, depth: nat): seq<string>
    decreases es, 0
  {
    if es == [] then []
    else
      var last := es[|es| - 1];
      var here := path + "." + last.key;
      WalkEntries(rt, es[..|es| - 1], path, depth)
      + (if IsSecretKey(rt, last.key) && !Harmless(last.value) then [here] else [])
      + Walk(rt, last.value, here, depth + 1)
  }

  function WalkItems(rt: Runtime, items: seq<Value>, path: string, depth: nat): seq<string>
    decreases items, 0
  {
    if items == [] then []
    else
      WalkItems(rt, items[..|items| - 1], path, depth)
      + Walk(rt, items[|items| - 1], path + "[" + Decimal(|items| - 1) + "]", depth + 1)
  }

  /** The walker itself: it appends to one list while it descends. */
  method CollectProblems(rt: Runtime, v: Value, path: string, depth: nat, before: seq<string>) returns (problems: seq<string>)
    ensures problems == before + Walk(rt, v, path, depth)
    decreases v, 1
  {
    hide IsSecretKey;
    problems := before;
    Empty(before);
    if depth > MAX_DEPTH {
      return;
    }
    match v
    case Mapping(es) => problems := CollectEntries(rt, es, path, depth, before);
    case Items(items) => problems := CollectItems(rt, items, path, depth, before);
    case _ =>
  }

  method CollectEntries(rt: Runtime, es: seq<Entry>, path: string, depth: nat, before: seq<string>) returns (problems: seq<string>)
    ensures problems == before + WalkEntries(rt, es, path, depth)
    decreases es, 0
  {
    hide IsSecretKey, Walk;
    problems := before;
    Empty(before);
    var n := 0;
    while n < |es|
      invariant 0 <= n <= |es|
      invariant problems == before + WalkEntries(rt, es[..n], path, depth)
    {
      var key, value := es[n].key, es[n].value;
      var here := path + "." + key;
      assert es[..n + 1][..n] == es[..n];
      ghost var found := if IsSecretKey(rt, key) && !Harmless(value) then [here] else [];
      Append3(before, WalkEntries(rt, es[..n], path, depth), found, Walk(rt, value, here, depth + 1));
      if IsSecretKey(rt, key) && !Harmless(value) {
        problems := problems + [here];
      } else {
        Empty(problems);
      }
      problems := CollectProblems(rt, value, here, depth + 1, problems);
      n := n + 1;
    }
    assert es[..n] == es;
  }

  method CollectItems(rt: Runtime, items: seq<Value>, path: string, depth: nat, before: seq<string>) returns (problems: seq<string>)
    ensures problems == before + WalkItems(rt, items, path, depth)
    decreases items, 0
  {
    hide IsSecretKey, Walk;
    problems := before;
    Empty(before);
    var n := 0;
    while n < |items|
      invariant 0 <= n <= |items|
      invariant problems == before + WalkItems(rt, items[..n], path, depth)
    {
      var here := path + "[" + Decimal(n) + "]";
      assert items[..n + 1][..n] == items[..n];
      Assoc(before, WalkItems(rt, items[..n], path, depth), Walk(rt, items[n], here, depth + 1));
      problems := CollectProblems(rt, items[n], here, depth + 1, problems);
      n := n + 1;
    }
    assert items[..n] == items;
  }

  lemma Append3(a: seq<string>, b: seq<string>, c: seq<string>, d: seq<string>)
    ensures a + (b + c + d) == ((a + b) + c) + d
  {
  }

  // ---- what redaction leaves under secret keys -----------------------------------------------------

  /** Every secret-named key, at any depth, holds a removal marker. */
  predicate SecretsRemoved(rt: Runtime, v: Value)
    decreases v
  {
    match v
    case Mapping(es) =>
      forall i :: 0 <= i < |es| ==>
        && (IsSecretKey(rt, es[i].key) ==>
              es[i].value == if IsCotKey(rt, es[i].key) then Str(COT_REMOVED) else Str(SECRET_REMOVED))
        && SecretsRemoved(rt, es[i].value)
    case Items(items) => forall i :: 0 <= i < |items| ==> SecretsRemoved(rt, items[i])
    case Stream(_) => false
    case _ => true
  }

  /** REMOVAL: in every redacted payload each secret-named key, at any depth, holds a removal marker. */
  lemma {:induction false} RedactRemovesSecrets(c: Job, v: Value, depth: nat)
    requires LowerKeepsNote(c.rt)
    ensures SecretsRemoved(c.rt, Redact(c, v, depth))
    decreases v, 1
  {
    hide IsCotKey, IsSecretKey, FieldOf, RedactMapping, RedactItems, LowerKeepsNote;
    if depth <= c.maxDepth {
      match v
      case Mapping(es) => EntriesRemoveSecrets(c, es, depth);
      case Items(items) => ItemsRemoveSecrets(c, items, depth);
      case Stream(parts) => if depth + 1 <= c.maxDepth { ItemsRemoveSecrets(c, parts, depth + 1); }
      case _ =>
    }
  }

  lemma {:induction false} EntriesRemoveSecrets(c: Job, es: seq<Entry>, depth: nat)
    requires LowerKeepsNote(c.rt)
    ensures SecretsRemoved(c.rt, Mapping(RedactMapping(c, es, depth)))
    decreases es, 0
  {
    hide IsCotKey, IsSecretKey, FieldOf, RedactMapping, Redact, MaskField, LowerKeepsNote;
    var out := RedactMapping(c, es, depth);
    NoteKeyIsPlain(c.rt);
    forall i | 0 <= i < |out|
      ensures IsSecretKey(c.rt, out[i].key) ==>
                out[i].value == if IsCotKey(c.rt, out[i].key) then Str(COT_REMOVED) else Str(SECRET_REMOVED)
      ensures SecretsRemoved(c.rt, out[i].value)
    {
      var j := MappingOrigin(c, es, depth, i);
      if j >= 0 { RedactRemovesSecrets(c, es[j].value, depth + 1); }
    }
  }

  lemma {:induction false} ItemsRemoveSecrets(c: Job, items: seq<Value>, depth: nat)
    requires LowerKeepsNote(c.rt)
    ensures SecretsRemoved(c.rt, Items(RedactItems(c, items, depth)))
    decreases items, 0
  {
    hide RedactItems, Redact, LowerKeepsNote, IsSecretKey, IsCotKey;
    var out := RedactItems(c, items, depth);
    forall i | 0 <= i < |out| ensures SecretsRemoved(c.rt, out[i]) {
      ItemOrigin(c, items, depth, i);
      if i < MAX_SEQUENCE_LEN { RedactRemovesSecrets(c, items[i], depth + 1); }
    }
  }

  // ---- the walker's verdict --------------------------------------------------------------------------

  /** Paths of the keys that are secret-named and reasoning-named at once, as deep as the walker looks. */
  function DoubleNamed(rt: Runtime, v: Value, path: string, depth: nat): seq<string>
    decreases v, 1
  {
    if depth > MAX_DEPTH then []
    else
      match v
      case Mapping(es) => DoubleNamedEntries(rt, es, path, depth)
      case Items(items) => DoubleNamedItems(rt, items, path, depth)
      case _ => []
  }

  function DoubleNamedEntries(rt: Runtime, es: seq<Entry>, path: string, depth: nat): seq<string>
    decreases es, 0
  {
    if es == [] then []
    else
      var last := es[|es| - 1];
      var here := path + "." + last.key;
      DoubleNamedEntries(rt, es[..|es| - 1], path, depth)
      + (if IsSecretKey(rt, last.key) && IsCotKey(rt, last.key) then [here] else [])
      + DoubleNamed(rt, last.value, here, depth + 1)
  }

  function DoubleNamedItems(rt: Runtime, items: seq<Value>, path: string, depth: nat): seq<string>
    decreases items, 0
  {
    if items == [] then []
    else
      DoubleNamedItems(rt, items[..|items| - 1], path, depth)
      + DoubleNamed(rt, items[|items| - 1], path + "[" + Decimal(|items| - 1) + "]", depth + 1)
  }

  lemma {:induction false} WalkOfRemoved(rt: Runtime, v: Value, path: string, depth: nat)
    requires SecretsRemoved(rt, v)
    ensures Walk(rt, v, path, depth) == DoubleNamed(rt, v, path, depth)
    decreases v, 1
  {
    hide IsCotKey, IsSecretKey;
    match v
    case Mapping(es) => WalkOfRemovedEntries(rt, es, path, depth);
    case Items(items) => WalkOfRemovedItems(rt, items, path, depth);
    case _ =>
  }

  lemma {:induction false} WalkOfRemovedEntries(rt: Runtime, es: seq<Entry>, path: string, depth: nat)
    requires SecretsRemoved(rt, Mapping(es))
    ensures WalkEntries(rt, es, path, depth) == DoubleNamedEntries(rt, es, path, depth)
    decreases es, 0
  {
    hide IsCotKey, IsSecretKey, Walk, DoubleNamed;
    if es != [] {
      var init, last := es[..|es| - 1], es[|es| - 1];
      assert forall i :: 0 <= i < |init| ==> init[i] == es[i];
      WalkOfRemovedEntries(rt, init, path, depth);
      WalkOfRemoved(rt, last.value, path + "." + last.key, depth + 1);
      MarkersDiffer();
    }
  }

  lemma MarkersDiffer()
    ensures !Harmless(Str(COT_REMOVED)) && Harmless(Str(SECRET_REMOVED))
  {
    assert |COT_REMOVED| != |SECRET_REMOVED|;
  }

  lemma {:induction false} WalkOfRemovedItems(rt: Runtime, items: seq<Value>, path: string, depth: nat)
    requires SecretsRemoved(rt, Items(items))
    ensures WalkItems(rt, items, path, depth) == DoubleNamedItems(rt, items, path, depth)
    decreases items, 0
  {
    hide Walk, DoubleNamed, IsSecretKey, IsCotKey;
    if items != [] {
      var init := items[..|items| - 1];
      assert forall i :: 0 <= i < |init| ==> init[i] == items[i];
      WalkOfRemovedItems(rt, init, path, depth);
      WalkOfRemoved(rt, items[|items| - 1], path + "[" + Decimal(|items| - 1) + "]", depth + 1);
    }
  }

  /**
   * AUDIT: on a redacted payload the walker reports exactly the keys that are both secret-named and
   * reasoning-named; the reasoning marker they hold is not the one it accepts.
   */
  lemma WalkerReportsDoubleNamed(c: Job, v: Value)
    requires LowerKeepsNote(c.rt)
    ensures var r := Redact(c, v, 0); Walk(c.rt, r, "$", 0) == DoubleNamed(c.rt, r, "$", 0)
  {
    hide Redact, Walk, DoubleNamed, SecretsRemoved;
    RedactRemovesSecrets(c, v, 0);
    WalkOfRemoved(c.rt, Redact(c, v, 0), "$", 0);
  }
}
