/** How long the keys of a redacted payload are, and how much text it holds in all. */
module RedactionKeys {
  import opened Text
  import opened Redaction
  import opened RedactionShape
  import opened RedactionBounds

  // ---- keys ---------------------------------------------------------------------------------------------

  predicate KeysAtMost(v: Value, most: nat)
    decreases v
  {
    match v
    case Mapping(es) => forall i :: 0 <= i < |es| ==> |es[i].key| <= most && KeysAtMost(es[i].value, most)
    case Items(items) => forall i :: 0 <= i < |items| ==> KeysAtMost(items[i], most)
    case Stream(parts) => forall i :: 0 <= i < |parts| ==> KeysAtMost(parts[i], most)
    case _ => true
  }

  /**
   * The payload keys that come out of a redaction starting at `depth` are at most `most` long: those of
   * entries that are kept, not below a withheld one, not behind the caps; and the note's key where one is
   * written.
   */
  ghost predicate KeptKeysAtMost(c: Job, v: Value, depth: nat, most: nat)
    decreases v, 1
  {
    depth <= c.maxDepth ==>
    match v
    case Mapping(es) =>
      && (|es| > MAX_KEYS ==> |TRUNCATED_KEY| <= most)
      && forall j :: Kept(es, j) ==> EntryKeysAtMost(c, es[j], depth, most)
    case Items(items) =>
      forall i :: 0 <= i < |items| && i < MAX_SEQUENCE_LEN ==> KeptKeysAtMost(c, items[i], depth + 1, most)
    case Stream(parts) =>
      depth + 1 <= c.maxDepth ==>
        forall i :: 0 <= i < |parts| && i < MAX_SEQUENCE_LEN ==> KeptKeysAtMost(c, parts[i], depth + 2, most)
    case _ => true
  }

  ghost predicate EntryKeysAtMost(c: Job, e: Entry, depth: nat, most: nat)
    decreases e, 0
  {
    |e.key| <= most && (Withheld(c, e.key) || KeptKeysAtMost(c, e.value, depth + 1, most))
  }

  /** KEYS, EXACTLY: for every payload and every bound, the keys of the result keep it iff the kept keys do. */
  lemma {:induction false} KeyBoundExactly(c: Job, v: Value, depth: nat, most: nat)
    ensures KeysAtMost(Redact(c, v, depth), most) <==> KeptKeysAtMost(c, v, depth, most)
    decreases v, 1
  {
    hide IsSecretKey, IsCotKey, FieldOf, RedactMapping, RedactItems, EntryKeysAtMost, Kept;
    if depth <= c.maxDepth {
      match v
      case Mapping(es) => MappingKeyBound(c, es, depth, most);
      case Items(items) => ItemsKeyBound(c, items, depth, most);
      case Stream(parts) => if depth + 1 <= c.maxDepth { ItemsKeyBound(c, parts, depth + 1, most); }
      case _ =>
    }
  }

  lemma {:induction false} EntryKeyBound(c: Job, e: Entry, depth: nat, most: nat)
    ensures |e.key| <= most && KeysAtMost(RedactEntry(c, e, depth), most) <==> EntryKeysAtMost(c, e, depth, most)
    decreases e, 0
  {
    hide IsSecretKey, IsCotKey, FieldOf, MaskField, Redact;
    KeyBoundExactly(c, e.value, depth + 1, most);
  }

  lemma {:induction false} MappingKeyBound(c: Job, es: seq<Entry>, depth: nat, most: nat)
    ensures KeysAtMost(Mapping(RedactMapping(c, es, depth)), most) <==>
            && (|es| > MAX_KEYS ==> |TRUNCATED_KEY| <= most)
            && forall j :: Kept(es, j) ==> EntryKeysAtMost(c, es[j], depth, most)
    decreases es, 0
  {
    hide RedactMapping, RedactEntry, EntryKeysAtMost, MoreKeys;
    var out := RedactMapping(c, es, depth);
    if (|es| > MAX_KEYS ==> |TRUNCATED_KEY| <= most) && forall j :: Kept(es, j) ==> EntryKeysAtMost(c, es[j], depth, most) {
      forall i | 0 <= i < |out| ensures |out[i].key| <= most && KeysAtMost(out[i].value, most) {
        var j := MappingOrigin(c, es, depth, i);
        if j >= 0 { EntryKeyBound(c, es[j], depth, most); }
      }
    }
    if KeysAtMost(Mapping(out), most) {
      forall j | Kept(es, j) ensures EntryKeysAtMost(c, es[j], depth, most) {
        var i := MappingTarget(c, es, depth, j);
        EntryKeyBound(c, es[j], depth, most);
      }
      if |es| > MAX_KEYS {
        var i := NoteTarget(c, es, depth);
      }
    }
  }

  lemma {:induction false} ItemsKeyBound(c: Job, items: seq<Value>, depth: nat, most: nat)
    ensures KeysAtMost(Items(RedactItems(c, items, depth)), most) <==>
            forall i :: 0 <= i < |items| && i < MAX_SEQUENCE_LEN ==> KeptKeysAtMost(c, items[i], depth + 1, most)
    decreases items, 0
  {
    hide RedactItems, Redact, KeptKeysAtMost, MoreItems;
    var out := RedactItems(c, items, depth);
    ItemsLength(c, items, depth);
    forall i | 0 <= i < |out|
      ensures KeysAtMost(out[i], most) <==>
              (i < |items| && i < MAX_SEQUENCE_LEN ==> KeptKeysAtMost(c, items[i], depth + 1, most))
    {
      ItemOrigin(c, items, depth, i);
      if i < MAX_SEQUENCE_LEN { KeyBoundExactly(c, items[i], depth + 1, most); }
    }
  }

  /** Nothing cuts a key: a mapping key that is alone comes out whole, however long it is. */
  lemma KeysComeOutWhole(c: Job, key: string, v: Value)
    requires c.maxDepth >= 0
    ensures Redact(c, Mapping([Entry(key, v)]), 0) == Mapping([Entry(key, RedactEntry(c, Entry(key, v), 0))])
    ensures forall most: nat :: KeysAtMost(Redact(c, Mapping([Entry(key, v)]), 0), most) ==> |key| <= most
  {
    hide RedactEntry;
    var es := [Entry(key, v)];
    EntriesPointwise(c, es, 0);
    forall most: nat | KeysAtMost(Redact(c, Mapping(es), 0), most) ensures |key| <= most {
      KeyBoundExactly(c, Mapping(es), 0, most);
      assert Kept(es, 0);
    }
  }

  // ---- all the text -------------------------------------------------------------------------------------

  /** The characters of all strings and all keys. */
  function TextOf(v: Value): nat
    decreases v, 0
  {
    match v
    case Str(s) => |s|
    case Mapping(es) => EntryText(es)
    case Items(items) => ItemText(items)
    case Stream(parts) => ItemText(parts)
    case _ => 0
  }

  function EntryText(es: seq<Entry>): nat
    decreases es
  {
    if es == [] then 0 else |es[0].key| + TextOf(es[0].value) + EntryText(es[1..])
  }

  function ItemText(items: seq<Value>): nat
    decreases items
  {
    if items == [] then 0 else TextOf(items[0]) + ItemText(items[1..])
  }

  /** Every node brings at most one string and one key, and the root has no key. */
  lemma {:induction false} TextBound(c: Job, v: Value, limit: nat, emails: nat, keys: nat)
    requires StringsAtMost(c, v, limit, emails) && KeysAtMost(v, keys)
    ensures TextOf(v) + keys <= Nodes(v) * (Max(limit, emails) + keys)
    decreases v, 1
  {
    hide Max, EntryText, ItemText, EntryNodes, ItemNodes, FieldOf;
    var each := Max(limit, emails) + keys;
    assert each >= limit + keys by { AtMostMax(limit, emails); }
    Distribute(1, 0, each);
    match v
    case Mapping(es) =>
      EntryTextBound(c, es, limit, emails, keys);
      Distribute(1, EntryNodes(es), each);
    case Items(items) =>
      ItemTextBound(c, items, limit, emails, keys);
      Distribute(1, ItemNodes(items), each);
    case _ =>
  }

  lemma AtMostMax(a: nat, b: nat)
    ensures a <= Max(a, b) && b <= Max(a, b)
  {
  }

  lemma {:induction false} EntryTextBound(c: Job, es: seq<Entry>, limit: nat, emails: nat, keys: nat)
    requires StringsAtMost(c, Mapping(es), limit, emails) && KeysAtMost(Mapping(es), keys)
    ensures EntryText(es) <= EntryNodes(es) * (Max(limit, emails) + keys)
    decreases es, 0
  {
    hide FieldOf;
    if es != [] {
      var each, first, later := Max(limit, emails) + keys, es[0].value, es[1..];
      assert forall i :: 0 <= i < |later| ==> later[i] == es[i + 1];
      EntryTextBound(c, later, limit, emails, keys);
      if StringsAtMost(c, first, limit, emails) {
        TextBound(c, first, limit, emails, keys);
      }
      assert TextOf(first) + keys <= Nodes(first) * each;
      Distribute(Nodes(first), EntryNodes(later), each);
    }
  }

  lemma {:induction false} ItemTextBound(c: Job, items: seq<Value>, limit: nat, emails: nat, keys: nat)
    requires StringsAtMost(c, Items(items), limit, emails) && KeysAtMost(Items(items), keys)
    ensures ItemText(items) <= ItemNodes(items) * (Max(limit, emails) + keys)
    decreases items, 0
  {
    if items != [] {
      var each, later := Max(limit, emails) + keys, items[1..];
      assert forall i :: 0 <= i < |later| ==> later[i] == items[i + 1];
      ItemTextBound(c, later, limit, emails, keys);
      TextBound(c, items[0], limit, emails, keys);
      Distribute(Nodes(items[0]), ItemNodes(later), each);
    }
  }

  lemma Distribute(a: nat, b: nat, each: nat)
    ensures (a + b) * each == a * each + b * each
  {
  }

  /** TOTAL TEXT: bounded for every payload whose notes, kept e-mail fields and kept keys are. */
  lemma TotalTextBounded(c: Job, v: Value, limit: nat, longest: nat, most: nat)
    requires c.maxDepth >= 0 && limit >= SCRUBBED_LIMIT
    requires NotesAtMost(c, v, limit) && EmailsAtMost(c, v, longest) && KeptKeysAtMost(c, v, 0, most)
    ensures 200 * TextOf(Redact(c, v, 0)) <= (Pow(201, c.maxDepth + 2) - 1) * (Max(limit, longest + 3) + most)
  {
    hide Redact, Pow, Nodes, TextOf, Within, Nesting, Max;
    var r, each := Redact(c, v, 0), Max(limit, longest + 3) + most;
    KeyBoundExactly(c, v, 0, most);
    StringsBounded(c, v, 0, limit, longest);
    TextBound(c, r, limit, longest + 3, most);
    RedactBounded(c, v);
    Times(200 * Nodes(r), Pow(201, c.maxDepth + 2) - 1, each);
    assert 200 * (Nodes(r) * each) == (200 * Nodes(r)) * each;
  }

  /** And only for those: a bound on the text is one on the kept keys. */
  lemma TextBoundsKeys(c: Job, v: Value, depth: nat)
    ensures KeptKeysAtMost(c, v, depth, TextOf(Redact(c, v, depth)))
  {
    hide Redact, TextOf, KeptKeysAtMost;
    var r := Redact(c, v, depth);
    KeysWithinText(r, TextOf(r));
    KeyBoundExactly(c, v, depth, TextOf(r));
  }

  lemma {:induction false} KeysWithinText(v: Value, most: nat)
    requires TextOf(v) <= most
    ensures KeysAtMost(v, most)
    decreases v
  {
    match v
    case Mapping(es) =>
      forall i | 0 <= i < |es| ensures |es[i].key| <= most && KeysAtMost(es[i].value, most) {
        EntryWithinText(es, i);
        KeysWithinText(es[i].value, most);
      }
    case Items(items) =>
      forall i | 0 <= i < |items| ensures KeysAtMost(items[i], most) {
        ItemWithinText(items, i);
        KeysWithinText(items[i], most);
      }
    case Stream(parts) =>
      forall i | 0 <= i < |parts| ensures KeysAtMost(parts[i], most) {
        ItemWithinText(parts, i);
        KeysWithinText(parts[i], most);
      }
    case _ =>
  }

  lemma {:induction false} EntryWithinText(es: seq<Entry>, i: nat)
    requires i < |es|
    ensures |es[i].key| + TextOf(es[i].value) <= EntryText(es)
  {
    if i > 0 { EntryWithinText(es[1..], i - 1); }
  }

  lemma {:induction false} ItemWithinText(items: seq<Value>, i: nat)
    requires i < |items|
    ensures TextOf(items[i]) <= ItemText(items)
  {
    if i > 0 { ItemWithinText(items[1..], i - 1); }
  }
}
