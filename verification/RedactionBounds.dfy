/** What every redacted payload keeps to, whatever the payload was. */
module RedactionBounds {
  import opened Text
  import opened Redaction
  import opened RedactionShape

  // ---- size --------------------------------------------------------------------------------------

  /** At most `h` containers nested, none of them with more than 201 members. */
  predicate Within(v: Value, h: nat)
    decreases v
  {
    match v
    case Mapping(es) => h > 0 && |es| <= 201 && forall i :: 0 <= i < |es| ==> Within(es[i].value, h - 1)
    case Items(items) => h > 0 && |items| <= 201 && forall i :: 0 <= i < |items| ==> Within(items[i], h - 1)
    case Stream(_) => false
    case _ => true
  }

  function Room(c: Job, depth: nat): nat {
    if depth > c.maxDepth then 0 else c.maxDepth - depth + 1
  }

  lemma {:induction false} RedactWithin(c: Job, v: Value, depth: nat)
    ensures Within(Redact(c, v, depth), Room(c, depth))
    decreases v, 1
  {
    hide IsCotKey, IsSecretKey, FieldOf, RedactEntry, RedactMapping, RedactItems, Truncated;
    if depth <= c.maxDepth {
      match v
      case Mapping(es) => MappingWithin(c, es, depth);
      case Items(items) => ItemsWithin(c, items, depth);
      case Stream(parts) =>
        if depth + 1 <= c.maxDepth {
          ItemsWithin(c, parts, depth + 1);
          WithinMore(Items(RedactItems(c, parts, depth + 1)), Room(c, depth + 1), Room(c, depth));
        }
      case _ =>
    }
  }

  lemma {:induction false} WithinMore(v: Value, h: nat, more: nat)
    requires Within(v, h) && h <= more
    ensures Within(v, more)
    decreases v
  {
    match v
    case Mapping(es) =>
      forall i | 0 <= i < |es| ensures Within(es[i].value, more - 1) { WithinMore(es[i].value, h - 1, more - 1); }
    case Items(items) =>
      forall i | 0 <= i < |items| ensures Within(items[i], more - 1) { WithinMore(items[i], h - 1, more - 1); }
    case _ =>
  }

  lemma {:induction false} MappingWithin(c: Job, es: seq<Entry>, depth: nat)
    requires depth <= c.maxDepth
    ensures Within(Mapping(RedactMapping(c, es, depth)), Room(c, depth))
    decreases es, 0
  {
    hide IsCotKey, IsSecretKey, FieldOf, RedactMapping, Redact;
    var out := RedactMapping(c, es, depth);
    MappingWidth(c, es, depth);
    forall i | 0 <= i < |out| ensures Within(out[i].value, Room(c, depth) - 1) {
      var j := MappingOrigin(c, es, depth, i);
      if j >= 0 { RedactWithin(c, es[j].value, depth + 1); }
    }
  }

  lemma {:induction false} ItemsWithin(c: Job, items: seq<Value>, depth: nat)
    requires depth <= c.maxDepth
    ensures Within(Items(RedactItems(c, items, depth)), Room(c, depth))
    decreases items, 0
  {
    hide RedactItems, Redact;
    var out := RedactItems(c, items, depth);
    if out != [] { ItemOrigin(c, items, depth, 0); }
    forall i | 0 <= i < |out| ensures Within(out[i], Room(c, depth) - 1) {
      ItemOrigin(c, items, depth, i);
      if i < MAX_SEQUENCE_LEN { RedactWithin(c, items[i], depth + 1); }
    }
  }

  function Nodes(v: Value): nat
    decreases v, 0
  {
    match v
    case Mapping(es) => 1 + EntryNodes(es)
    case Items(items) => 1 + ItemNodes(items)
    case Stream(parts) => 1 + ItemNodes(parts)
    case _ => 1
  }

  function EntryNodes(es: seq<Entry>): nat
    decreases es
  {
    if es == [] then 0 else Nodes(es[0].value) + EntryNodes(es[1..])
  }

  function ItemNodes(items: seq<Value>): nat
    decreases items
  {
    if items == [] then 0 else Nodes(items[0]) + ItemNodes(items[1..])
  }

  function Nesting(v: Value): nat
    decreases v, 0
  {
    match v
    case Mapping(es) => 1 + EntryNesting(es)
    case Items(items) => 1 + ItemNesting(items)
    case Stream(parts) => 1 + ItemNesting(parts)
    case _ => 0
  }

  function Max(a: nat, b: nat): nat { if a < b then b else a }

  function EntryNesting(es: seq<Entry>): nat
    decreases es
  {
    if es == [] then 0 else Max(Nesting(es[0].value), EntryNesting(es[1..]))
  }

  function ItemNesting(items: seq<Value>): nat
    decreases items
  {
    if items == [] then 0 else Max(Nesting(items[0]), ItemNesting(items[1..]))
  }

  /** 1 + 201 + ... + 201^h */
  function MostNodes(h: nat): nat {
    if h == 0 then 1 else 1 + 201 * MostNodes(h - 1)
  }

  function Pow(b: nat, e: nat): nat {
    if e == 0 then 1 else b * Pow(b, e - 1)
  }

  lemma {:induction false} MostNodesIsGeometric(h: nat)
    ensures 200 * MostNodes(h) == Pow(201, h + 1) - 1
  {
    if h > 0 { MostNodesIsGeometric(h - 1); }
  }

  lemma {:induction false} WithinBounds(v: Value, h: nat)
    requires Within(v, h)
    ensures Nodes(v) <= MostNodes(h) && Nesting(v) <= h
    decreases v, 1
  {
    hide MostNodes;
    MostNodesStep(h);
    match v
    case Mapping(es) =>
      EntriesBound(es, h - 1);
      Times(|es|, 201, MostNodes(h - 1));
    case Items(items) =>
      ItemsBound(items, h - 1);
      Times(|items|, 201, MostNodes(h - 1));
    case _ =>
  }

  lemma Times(a: nat, b: nat, m: nat)
    requires a <= b
    ensures a * m <= b * m
  {
  }

  lemma MostNodesStep(h: nat)
    ensures MostNodes(h) >= 1
    ensures h > 0 ==> MostNodes(h) == 1 + 201 * MostNodes(h - 1)
  {
  }

  lemma {:induction false} EntriesBound(es: seq<Entry>, h: nat)
    requires forall i :: 0 <= i < |es| ==> Within(es[i].value, h)
    ensures EntryNodes(es) <= |es| * MostNodes(h) && EntryNesting(es) <= h
    decreases es
  {
    hide MostNodes, Within;
    if es != [] {
      WithinBounds(es[0].value, h);
      assert forall i :: 0 <= i < |es[1..]| ==> es[1..][i] == es[i + 1];
      EntriesBound(es[1..], h);
      assert |es| * MostNodes(h) == MostNodes(h) + |es[1..]| * MostNodes(h);
    }
  }

  lemma {:induction false} ItemsBound(items: seq<Value>, h: nat)
    requires forall i :: 0 <= i < |items| ==> Within(items[i], h)
    ensures ItemNodes(items) <= |items| * MostNodes(h) && ItemNesting(items) <= h
    decreases items
  {
    hide MostNodes, Within;
    if items != [] {
      WithinBounds(items[0], h);
      assert forall i :: 0 <= i < |items[1..]| ==> items[1..][i] == items[i + 1];
      ItemsBound(items[1..], h);
      assert |items| * MostNodes(h) == MostNodes(h) + |items[1..]| * MostNodes(h);
    }
  }

  /** SIZE: nesting, width and node count of a redacted payload are bounded for any payload at all. */
  lemma RedactBounded(c: Job, v: Value)
    requires c.maxDepth >= 0
    ensures var r := Redact(c, v, 0); var h := c.maxDepth + 1;
            Within(r, h) && Nesting(r) <= h && 200 * Nodes(r) <= Pow(201, h + 1) - 1
  {
    hide Redact, Pow, MostNodes, Within, Nodes, Nesting;
    RedactWithin(c, v, 0);
    WithinBounds(Redact(c, v, 0), c.maxDepth + 1);
    MostNodesIsGeometric(c.maxDepth + 1);
  }

  // ---- string lengths ------------------------------------------------------------------------------

  predicate Withheld(c: Job, key: string) {
    IsCotKey(c.rt, key) || IsSecretKey(c.rt, key)
  }

  /** An e-mail field whose mask keeps the domain. */
  predicate KeptEmail(c: Job, e: Entry) {
    !NoPii(c.purpose) && e.value.Str? && FieldOf(c.rt, e.key) == Some(Email)
  }

  /** Every string is at most `limit` long, except e-mail fields, which are at most `emails` long. */
  predicate StringsAtMost(c: Job, v: Value, limit: nat, emails: nat)
    decreases v
  {
    match v
    case Str(s) => |s| <= limit
    case Mapping(es) => forall i :: 0 <= i < |es| ==>
                          (KeptEmail(c, es[i]) && |es[i].value.s| <= emails) || StringsAtMost(c, es[i].value, limit, emails)
    case Items(items) => forall i :: 0 <= i < |items| ==> StringsAtMost(c, items[i], limit, emails)
    case Bytes(_) => false
    case Stream(_) => false
    case Opaque(_) => false
    case _ => true
  }

  /** What the redactor writes about byte strings, unknown objects and left-out entries, outside withheld values. */
  predicate NotesAtMost(c: Job, v: Value, most: nat)
    decreases v
  {
    match v
    case Bytes(n) => |BytesText(n)| <= most
    case Opaque(name) => |TypeText(name)| <= most
    case Mapping(es) =>
      && (|es| > MAX_KEYS ==> |MoreKeys(|es| - MAX_KEYS)| <= most)
      && forall i :: 0 <= i < |es| ==> Withheld(c, es[i].key) || NotesAtMost(c, es[i].value, most)
    case Items(items) =>
      && (|items| > MAX_SEQUENCE_LEN ==> |MoreItems(|items| - MAX_SEQUENCE_LEN)| <= most)
      && forall i :: 0 <= i < |items| ==> NotesAtMost(c, items[i], most)
    case Stream(parts) =>
      && (|parts| > MAX_SEQUENCE_LEN ==> |MoreItems(|parts| - MAX_SEQUENCE_LEN)| <= most)
      && forall i :: 0 <= i < |parts| ==> NotesAtMost(c, parts[i], most)
    case _ => true
  }

  /** Every string kept under an e-mail key that is not withheld is at most `longest` long. */
  predicate EmailsAtMost(c: Job, v: Value, longest: nat)
    decreases v
  {
    match v
    case Mapping(es) => forall i :: 0 <= i < |es| ==>
                          Withheld(c, es[i].key) || (&& (KeptEmail(c, es[i]) ==> |es[i].value.s| <= longest)
                                                     && EmailsAtMost(c, es[i].value, longest))
    case Items(items) => forall i :: 0 <= i < |items| ==> EmailsAtMost(c, items[i], longest)
    case Stream(parts) => forall i :: 0 <= i < |parts| ==> EmailsAtMost(c, parts[i], longest)
    case _ => true
  }

  lemma MaskShort(c: Job, f: Field, s: string)
    ensures |MaskField(c, f, s)| <= 14 || (f == Email && !NoPii(c.purpose) && |MaskField(c, f, s)| <= |s| + 3)
  {
    hide DigitsOf, IndexOf;
  }

  const SCRUBBED_LIMIT := MAX_STRING_LEN + |TRUNCATED|

  /** STRINGS: 4107, unless the notes on this very payload are longer, and e-mail fields by their input plus 3. */
  lemma {:induction false} StringsBounded(c: Job, v: Value, depth: nat, limit: nat, longest: nat)
    requires limit >= SCRUBBED_LIMIT && NotesAtMost(c, v, limit) && EmailsAtMost(c, v, longest)
    ensures StringsAtMost(c, Redact(c, v, depth), limit, longest + 3)
    decreases v, 1
  {
    hide IsCotKey, IsSecretKey, FieldOf, RedactMapping, RedactItems, BytesText, TypeText, Decimal;
    if depth <= c.maxDepth {
      match v
      case Mapping(es) => EntryStringsBounded(c, es, depth, limit, longest);
      case Items(items) => ItemStringsBounded(c, items, depth, limit, longest);
      case Stream(parts) => if depth + 1 <= c.maxDepth { ItemStringsBounded(c, parts, depth + 1, limit, longest); }
      case _ =>
    }
  }

  lemma {:induction false} EntryStringsBounded(c: Job, es: seq<Entry>, depth: nat, limit: nat, longest: nat)
    requires limit >= SCRUBBED_LIMIT && NotesAtMost(c, Mapping(es), limit) && EmailsAtMost(c, Mapping(es), longest)
    ensures StringsAtMost(c, Mapping(RedactMapping(c, es, depth)), limit, longest + 3)
    decreases es, 0
  {
    hide IsCotKey, IsSecretKey, FieldOf, RedactMapping, Redact, MaskField, MoreKeys;
    var out := RedactMapping(c, es, depth);
    forall i | 0 <= i < |out|
      ensures (KeptEmail(c, out[i]) && |out[i].value.s| <= longest + 3) || StringsAtMost(c, out[i].value, limit, longest + 3)
    {
      var j := MappingOrigin(c, es, depth, i);
      if j >= 0 {
        var e := es[j];
        if MaskedField(c, e) { MaskShort(c, FieldOf(c.rt, e.key).value, e.value.s); }
        if !Withheld(c, e.key) { StringsBounded(c, e.value, depth + 1, limit, longest); }
      }
    }
  }

  lemma {:induction false} ItemStringsBounded(c: Job, items: seq<Value>, depth: nat, limit: nat, longest: nat)
    requires limit >= SCRUBBED_LIMIT && NotesAtMost(c, Items(items), limit) && EmailsAtMost(c, Items(items), longest)
    ensures StringsAtMost(c, Items(RedactItems(c, items, depth)), limit, longest + 3)
    decreases items, 0
  {
    hide RedactItems, Redact, MoreItems;
    var out := RedactItems(c, items, depth);
    forall i | 0 <= i < |out| ensures StringsAtMost(c, out[i], limit, longest + 3) {
      ItemOrigin(c, items, depth, i);
      if i < MAX_SEQUENCE_LEN { StringsBounded(c, items[i], depth + 1, limit, longest); }
    }
  }

  const SIZE_LIMIT := 0x1_0000_0000_0000_0000

  /** Lengths fit 64 bits, and type names are no longer than the note on them may be. */
  predicate OrdinarySizes(v: Value)
    decreases v
  {
    match v
    case Bytes(n) => n < SIZE_LIMIT
    case Opaque(name) => |name| + 2 <= SCRUBBED_LIMIT
    case Mapping(es) => |es| < SIZE_LIMIT && forall i :: 0 <= i < |es| ==> OrdinarySizes(es[i].value)
    case Items(items) => |items| < SIZE_LIMIT && forall i :: 0 <= i < |items| ==> OrdinarySizes(items[i])
    case Stream(parts) => |parts| < SIZE_LIMIT && forall i :: 0 <= i < |parts| ==> OrdinarySizes(parts[i])
    case _ => true
  }

  lemma {:induction false} DecimalShort(n: nat, k: nat)
    requires k >= 1 && n < Pow(10, k)
    ensures |Decimal(n)| <= k
  {
    if n >= 10 {
      assert k > 1 by { assert Pow(10, 1) == 10 * Pow(10, 0); }
      DecimalShort(n / 10, k - 1);
    }
  }

  lemma CountNotesShort(n: nat)
    requires n < SIZE_LIMIT
    ensures |BytesText(n)| <= 40 && |MoreKeys(n)| <= 40 && |MoreItems(n)| <= 40
  {
    hide Decimal;
    assert Pow(10, 5) == 100000;
    assert Pow(10, 10) == 10000000000;
    assert Pow(10, 15) == 1000000000000000;
    assert Pow(10, 20) == 100000000000000000000;
    DecimalShort(n, 20);
  }

  lemma {:induction false} OrdinaryNotes(c: Job, v: Value)
    requires OrdinarySizes(v)
    ensures NotesAtMost(c, v, SCRUBBED_LIMIT)
    decreases v
  {
    hide BytesText, MoreKeys, MoreItems, Pow;
    match v
    case Bytes(n) => CountNotesShort(n);
    case Mapping(es) =>
      if |es| > MAX_KEYS { CountNotesShort(|es| - MAX_KEYS); }
      forall i | 0 <= i < |es| ensures NotesAtMost(c, es[i].value, SCRUBBED_LIMIT) { OrdinaryNotes(c, es[i].value); }
    case Items(items) =>
      if |items| > MAX_SEQUENCE_LEN { CountNotesShort(|items| - MAX_SEQUENCE_LEN); }
      forall i | 0 <= i < |items| ensures NotesAtMost(c, items[i], SCRUBBED_LIMIT) { OrdinaryNotes(c, items[i]); }
    case Stream(parts) =>
      if |parts| > MAX_SEQUENCE_LEN { CountNotesShort(|parts| - MAX_SEQUENCE_LEN); }
      forall i | 0 <= i < |parts| ensures NotesAtMost(c, parts[i], SCRUBBED_LIMIT) { OrdinaryNotes(c, parts[i]); }
    case _ =>
  }

  /** So with sizes a machine can have, every string is at most 4107 long, e-mail fields aside. */
  lemma OrdinaryStringsBounded(c: Job, v: Value, longest: nat)
    requires OrdinarySizes(v) && EmailsAtMost(c, v, longest)
    ensures StringsAtMost(c, Redact(c, v, 0), 4107, longest + 3)
  {
    hide Redact;
    OrdinaryNotes(c, v);
    StringsBounded(c, v, 0, SCRUBBED_LIMIT, longest);
  }

  // ---- secrets never matter ------------------------------------------------------------------------

  /** Two payloads that differ only in withheld values, and in masked strings where masks keep nothing. */
  predicate Indistinct(c: Job, v: Value, w: Value)
    decreases v
  {
    match v
    case Mapping(es) =>
      w.Mapping? && |w.entries| == |es| &&
      forall i :: 0 <= i < |es| ==>
        && es[i].key == w.entries[i].key
        && (|| Withheld(c, es[i].key)
            || (NoPii(c.purpose) && MaskedField(c, es[i]) && MaskedField(c, w.entries[i]))
            || Indistinct(c, es[i].value, w.entries[i].value))
    case Items(items) => w.Items? && |w.items| == |items| && forall i :: 0 <= i < |items| ==> Indistinct(c, items[i], w.items[i])
    case Stream(parts) => w.Stream? && |w.parts| == |parts| && forall i :: 0 <= i < |parts| ==> Indistinct(c, parts[i], w.parts[i])
    case _ => v == w
  }

  /** NON-INTERFERENCE: what stands under secret or reasoning keys has no influence on the result. */
  lemma {:induction false} SecretsDoNotMatter(c: Job, v: Value, w: Value, depth: nat)
    requires Indistinct(c, v, w)
    ensures Redact(c, v, depth) == Redact(c, w, depth)
    decreases v, 1
  {
    hide RedactEntries, RedactItems, IsCotKey, IsSecretKey, FieldOf, DictSet;
    match v
    case Mapping(es) =>
      var ws := w.entries;
      if |es| <= MAX_KEYS {
        SameEntries(c, es, ws, depth);
      } else {
        SameEntries(c, es[..MAX_KEYS], ws[..MAX_KEYS], depth);
      }
    case Items(items) => SameItems(c, items, w.items, depth);
    case Stream(parts) => SameItems(c, parts, w.parts, depth + 1);
    case _ =>
  }

  lemma {:induction false} SameEntries(c: Job, es: seq<Entry>, ws: seq<Entry>, depth: nat)
    requires Indistinct(c, Mapping(es), Mapping(ws))
    ensures RedactEntries(c, es, depth) == RedactEntries(c, ws, depth)
    decreases es, 0
  {
    hide IsCotKey, IsSecretKey, FieldOf, Redact, DictSet;
    if es != [] {
      var e, w := es[|es| - 1], ws[|ws| - 1];
      assert forall i :: 0 <= i < |es| - 1 ==> es[..|es| - 1][i] == es[i] && ws[..|ws| - 1][i] == ws[i];
      SameEntries(c, es[..|es| - 1], ws[..|ws| - 1], depth);
      if !Withheld(c, e.key) && !(NoPii(c.purpose) && MaskedField(c, e) && MaskedField(c, w)) {
        SecretsDoNotMatter(c, e.value, w.value, depth + 1);
      }
      assert RedactEntry(c, e, depth) == RedactEntry(c, w, depth);
    }
  }

  lemma {:induction false} SameItems(c: Job, items: seq<Value>, ws: seq<Value>, depth: nat)
    requires Indistinct(c, Items(items), Items(ws))
    ensures RedactItems(c, items, depth) == RedactItems(c, ws, depth)
    decreases items, 0
  {
    hide RedactItems, Redact;
    var r, t := RedactItems(c, items, depth), RedactItems(c, ws, depth);
    ItemsLength(c, items, depth);
    ItemsLength(c, ws, depth);
    forall i | 0 <= i < |r| ensures r[i] == t[i] {
      ItemOrigin(c, items, depth, i);
      ItemOrigin(c, ws, depth, i);
      if i < MAX_SEQUENCE_LEN { SecretsDoNotMatter(c, items[i], ws[i], depth + 1); }
    }
  }
}
