/** Redacting a redacted payload again: when nothing changes, and that a third pass never changes anything. */
module RedactionTwice {
  import opened Text
  import opened Redaction
  import opened RedactionShape
  import opened RedactionNames

  // ---- assumptions on the runtime --------------------------------------------------------------

  /** Scrubbing the text a second time finds nothing more (a scrubber could create new matches). */
  predicate ScrubSettles(rt: Runtime, s: string) {
    RedactText(rt, RedactText(rt, s)) == RedactText(rt, s)
  }

  /** Stars, brackets and the letters of the mask are not digits. */
  predicate PlainDigits(rt: Runtime) {
    !rt.isDigit('*') && forall i :: 0 <= i < |MASK| ==> !rt.isDigit(MASK[i])
  }

  // ---- the masks --------------------------------------------------------------------------------

  lemma MaskEmailParts(s: string, at: nat)
    requires at < |s| && s[at] == '@' && forall i :: 0 <= i < at ==> s[i] != '@'
    ensures MaskEmail(s) == if at == |s| - 1 then MASK else (if at == 0 then "" else s[..1]) + "***@" + s[at + 1..]
  {
    assert IndexOf(s, '@') == at;
  }

  lemma MaskOfMaskedEmail(head: string, domain: string)
    requires |head| <= 1 && (head != "" ==> head[0] != '@') && domain != ""
    ensures MaskEmail(head + "***@" + domain) == (if head == "" then "*" else head) + "***@" + domain
  {
    var s := head + "***@" + domain;
    var at := |head| + 3;
    assert s[at] == '@' && forall i :: 0 <= i < at ==> s[i] != '@';
    MaskEmailParts(s, at);
    assert s[at + 1..] == domain;
    assert s[..1] == if head == "" then "*" else head;
  }

  lemma MaskIsNoEmail()
    ensures MaskEmail(MASK) == MASK
  {
    hide IndexOf;
    assert forall i :: 0 <= i < |MASK| ==> MASK[i] != '@';
  }

  predicate EmptyLocal(s: string) {
    |s| > 1 && s[0] == '@'
  }

  lemma EmailTwice(s: string)
    ensures MaskEmail(MaskEmail(s)) == MaskEmail(s) <==> !EmptyLocal(s)
    ensures MaskEmail(MaskEmail(MaskEmail(s))) == MaskEmail(MaskEmail(s))
  {
    var at := IndexOf(s, '@');
    if at == -1 || at == |s| - 1 {
      MaskIsNoEmail();
    } else {
      var head, domain := if at == 0 then "" else s[..1], s[at + 1..];
      hide MaskEmail;
      MaskEmailParts(s, at);
      MaskOfMaskedEmail(head, domain);
      MaskOfMaskedEmail("*", domain);
      if at == 0 {
        assert |"*" + "***@" + domain| != |"" + "***@" + domain|;
      }
    }
  }

  lemma {:induction false} DigitsAppend(rt: Runtime, a: string, b: string)
    ensures DigitsOf(rt, a + b) == DigitsOf(rt, a) + DigitsOf(rt, b)
  {
    if a == "" {
      Empty(b);
      Empty(DigitsOf(rt, b));
    } else {
      Tail(a, b);
      DigitsAppend(rt, a[1..], b);
      Assoc(if rt.isDigit(a[0]) then [a[0]] else "", DigitsOf(rt, a[1..]), DigitsOf(rt, b));
    }
  }

  predicate AllDigits(rt: Runtime, s: string) {
    forall i :: 0 <= i < |s| ==> rt.isDigit(s[i])
  }

  lemma {:induction false} DigitsAreDigits(rt: Runtime, s: string)
    ensures AllDigits(rt, DigitsOf(rt, s))
  {
    if s != "" { DigitsAreDigits(rt, s[1..]); }
  }

  lemma {:induction false} DigitsOfDigits(rt: Runtime, s: string)
    requires AllDigits(rt, s)
    ensures DigitsOf(rt, s) == s
  {
    if s != "" { DigitsOfDigits(rt, s[1..]); }
  }

  lemma {:induction false} DigitsOfNone(rt: Runtime, s: string)
    requires forall i :: 0 <= i < |s| ==> !rt.isDigit(s[i])
    ensures DigitsOf(rt, s) == ""
  {
    if s != "" { DigitsOfNone(rt, s[1..]); }
  }

  lemma PhoneTwice(rt: Runtime, s: string)
    requires PlainDigits(rt)
    ensures MaskPhone(rt, MaskPhone(rt, s)) == MaskPhone(rt, s)
  {
    hide DigitsOf;
    var digits := DigitsOf(rt, s);
    if |digits| < 7 {
      DigitsOfNone(rt, MASK);
    } else {
      var a, b := digits[..3], digits[|digits| - 4..];
      DigitsAreDigits(rt, s);
      DigitsOfDigits(rt, a);
      DigitsOfDigits(rt, b);
      DigitsOfNone(rt, "****");
      DigitsAppend(rt, a, "****");
      DigitsAppend(rt, a + "****", b);
      Empty(a);
      assert DigitsOf(rt, a + "****" + b) == a + b;
      assert (a + b)[..3] == a && (a + b)[3..] == b;
    }
  }

  lemma AddressTwice(s: string)
    ensures MaskAddress(MaskAddress(s)) == MaskAddress(s) <==> |s| > 6
    ensures MaskAddress(MaskAddress(MaskAddress(s))) == MaskAddress(MaskAddress(s))
  {
    var m := MaskAddress(s);
    if |s| > 6 {
      assert m[..6] == s[..6];
    } else {
      assert |MaskAddress(m)| == 10 && |m| == 14;
      assert MaskAddress(m)[..6] == m[..6];
    }
  }

  /** A field value whose mask is changed by masking it once more. */
  predicate Unstable(c: Job, f: Field, s: string) {
    !NoPii(c.purpose) && ((f == Email && EmptyLocal(s)) || (f == Address && |s| <= 6))
  }

  lemma MaskTwice(c: Job, f: Field, s: string)
    requires PlainDigits(c.rt)
    ensures var m := MaskField(c, f, s);
            && (MaskField(c, f, m) == m <==> !Unstable(c, f, s))
            && MaskField(c, f, MaskField(c, f, m)) == MaskField(c, f, m)
            && m != ""
  {
    hide DigitsOf, IndexOf;
    EmailTwice(s);
    PhoneTwice(c.rt, s);
    AddressTwice(s);
  }

  // ---- payloads within the caps -------------------------------------------------------------------

  /** The text redaction writes for a leaf survives a second scrubbing. */
  predicate NoteFits(rt: Runtime, s: string) {
    rt.scrub(s) == s && |s| <= MAX_STRING_LEN
  }

  /**
   * No cap takes effect on the payload, its free text is settled by one scrubbing, and no value that
   * redaction turns into a string stands under a key that names personal data (the second pass would
   * mask that string).
   */
  predicate Fits(c: Job, v: Value, depth: nat)
    decreases v, 1
  {
    depth <= c.maxDepth &&
    match v
    case Str(s) => |RedactText(c.rt, s)| <= MAX_STRING_LEN && ScrubSettles(c.rt, s)
    case Bytes(n) => NoteFits(c.rt, BytesText(n))
    case Opaque(name) => NoteFits(c.rt, TypeText(name))
    case Mapping(es) => |es| <= MAX_KEYS && forall i :: 0 <= i < |es| ==> EntryFits(c, es[i], depth)
    case Items(items) => |items| <= MAX_SEQUENCE_LEN && forall i :: 0 <= i < |items| ==> Fits(c, items[i], depth + 1)
    case Stream(parts) =>
      depth + 1 <= c.maxDepth && |parts| <= MAX_SEQUENCE_LEN && forall i :: 0 <= i < |parts| ==> Fits(c, parts[i], depth + 2)
    case _ => true
  }

  predicate EntryFits(c: Job, e: Entry, depth: nat)
    decreases e, 0
  {
    || IsCotKey(c.rt, e.key) || IsSecretKey(c.rt, e.key) || MaskedField(c, e)
    || (Fits(c, e.value, depth + 1) && (FieldOf(c.rt, e.key).Some? ==> !e.value.Bytes? && !e.value.Opaque?))
  }

  /** No short address and no e-mail without a local part, among the entries that are not overwritten. */
  ghost predicate Stable(c: Job, v: Value)
    decreases v, 1
  {
    match v
    case Mapping(es) => forall j :: LastOf(es, j) ==> EntryStable(c, es[j])
    case Items(items) => forall i :: 0 <= i < |items| ==> Stable(c, items[i])
    case Stream(parts) => forall i :: 0 <= i < |parts| ==> Stable(c, parts[i])
    case _ => true
  }

  ghost predicate EntryStable(c: Job, e: Entry)
    decreases e, 0
  {
    if IsCotKey(c.rt, e.key) || IsSecretKey(c.rt, e.key) then true
    else if MaskedField(c, e) then !Unstable(c, FieldOf(c.rt, e.key).value, e.value.s)
    else Stable(c, e.value)
  }

  // ---- passes ----------------------------------------------------------------------------------------

  /**
   * Three passes over one value, the later ones at any depths no greater than the first: the third
   * equals the second, and the second equals the first exactly when the value is stable.
   */
  ghost predicate Passes(c: Job, v: Value, depth: nat, d2: nat, d3: nat) {
    var r1 := Redact(c, v, depth);
    var r2 := Redact(c, r1, d2);
    && Redact(c, r2, d3) == r2
    && (r2 == r1 <==> Stable(c, v))
    && (!PlainString(v) && !v.Bytes? && !v.Opaque? ==> !PlainString(r1) && !PlainString(r2))
  }

  /** A string that a field key would mask. */
  predicate PlainString(v: Value) {
    v.Str? && v.s != ""
  }

  ghost predicate EntryPasses(c: Job, e: Entry, depth: nat, d2: nat, d3: nat) {
    var x1 := RedactEntry(c, e, depth);
    var x2 := RedactEntry(c, Entry(e.key, x1), d2);
    && RedactEntry(c, Entry(e.key, x2), d3) == x2
    && (x2 == x1 <==> EntryStable(c, e))
  }

  lemma {:induction false} ThreePasses(c: Job, v: Value, depth: nat, d2: nat, d3: nat)
    requires PlainDigits(c.rt) && Fits(c, v, depth) && d2 <= depth && d3 <= depth
    ensures Passes(c, v, depth, d2, d3)
    decreases v, 1
  {
    hide EntryFits, EntryStable;
    hide IsCotKey, IsSecretKey, FieldOf, RedactMapping, RedactItems, BytesText, TypeText;
    match v
    case Mapping(es) => MappingPasses(c, es, depth, d2, d3);
    case Items(items) => ItemsPasses(c, items, depth, d2, d3);
    case Stream(parts) => ItemsPasses(c, parts, depth + 1, d2, d3);
    case Str(s) =>
    case Bytes(n) => NotesAreStrings(n, "");
    case Opaque(name) => NotesAreStrings(0, name);
    case _ =>
  }

  lemma NotesAreStrings(n: nat, name: string)
    ensures BytesText(n) != "" && TypeText(name) != ""
  {
  }

  lemma {:induction false} EntryThreePasses(c: Job, e: Entry, depth: nat, d2: nat, d3: nat)
    requires PlainDigits(c.rt) && EntryFits(c, e, depth) && d2 <= depth && d3 <= depth
    ensures EntryPasses(c, e, depth, d2, d3)
    decreases e, 0
  {
    hide IsCotKey, IsSecretKey, FieldOf, Redact, MaskField, Unstable, Fits, Stable;
    if IsCotKey(c.rt, e.key) || IsSecretKey(c.rt, e.key) {
    } else if MaskedField(c, e) {
      MaskTwice(c, FieldOf(c.rt, e.key).value, e.value.s);
      MaskTwice(c, FieldOf(c.rt, e.key).value, MaskField(c, FieldOf(c.rt, e.key).value, e.value.s));
    } else {
      ThreePasses(c, e.value, depth + 1, d2 + 1, d3 + 1);
    }
  }

  /** A pass over entries that already went through one is done entry by entry. */
  lemma SecondPass(c: Job, es: seq<Entry>, depth: nat, d2: nat)
    requires |es| <= MAX_KEYS
    ensures var out := RedactMapping(c, es, depth);
            && DistinctKeys(out) && |out| <= MAX_KEYS
            && |RedactMapping(c, out, d2)| == |out|
            && forall i :: 0 <= i < |out| ==> RedactMapping(c, out, d2)[i] == Entry(out[i].key, RedactEntry(c, out[i], d2))
  {
    hide RedactEntry, RedactEntries;
    EntriesDistinct(c, es, depth);
    EntriesPointwise(c, RedactEntries(c, es, depth), d2);
  }

  lemma ThirdPass(c: Job, out: seq<Entry>, d2: nat, d3: nat)
    requires |out| <= MAX_KEYS && DistinctKeys(out)
    ensures var again := RedactMapping(c, out, d2);
            && |again| == |out| && DistinctKeys(again)
            && |RedactMapping(c, again, d3)| == |again|
            && forall i :: 0 <= i < |again| ==> RedactMapping(c, again, d3)[i] == Entry(again[i].key, RedactEntry(c, again[i], d3))
  {
    hide RedactEntry, RedactEntries;
    EntriesPointwise(c, out, d2);
    EntriesPointwise(c, RedactEntries(c, out, d2), d3);
  }

  lemma {:induction false} MappingPasses(c: Job, es: seq<Entry>, depth: nat, d2: nat, d3: nat)
    requires PlainDigits(c.rt) && Fits(c, Mapping(es), depth) && d2 <= depth && d3 <= depth
    ensures var out := RedactMapping(c, es, depth);
            var again := RedactMapping(c, out, d2);
            && RedactMapping(c, again, d3) == again
            && (again == out <==> Stable(c, Mapping(es)))
    decreases es, 0
  {
    hide RedactMapping, RedactEntry, EntryFits, EntryStable, PlainDigits;
    var out := RedactMapping(c, es, depth);
    var again := RedactMapping(c, out, d2);
    SecondPass(c, es, depth, d2);
    ThirdPass(c, out, d2, d3);
    forall i | 0 <= i < |out| ensures RedactMapping(c, again, d3)[i] == again[i] {
      var j := LastOrigin(c, es, depth, i);
      EntryThreePasses(c, es[j], depth, d2, d3);
    }
    assert RedactMapping(c, again, d3) == again;
    if Stable(c, Mapping(es)) {
      forall i | 0 <= i < |out| ensures again[i] == out[i] {
        var j := LastOrigin(c, es, depth, i);
        EntryThreePasses(c, es[j], depth, d2, d3);
      }
      assert again == out;
    }
    if again == out {
      forall j | LastOf(es, j) ensures EntryStable(c, es[j]) {
        var i := LastTarget(c, es, depth, j);
        EntryThreePasses(c, es[j], depth, d2, d3);
      }
    }
  }

  lemma LastOrigin(c: Job, es: seq<Entry>, depth: nat, i: nat) returns (j: nat)
    requires |es| <= MAX_KEYS && i < |RedactMapping(c, es, depth)|
    ensures j < |es| && LastOf(es, j)
    ensures RedactMapping(c, es, depth)[i] == Entry(es[j].key, RedactEntry(c, es[j], depth))
  {
    hide RedactEntry, RedactEntries;
    j := Origin(c, es, depth, i);
  }

  lemma LastTarget(c: Job, es: seq<Entry>, depth: nat, j: int) returns (i: nat)
    requires |es| <= MAX_KEYS && LastOf(es, j)
    ensures i < |RedactMapping(c, es, depth)| && 0 <= j < |es|
    ensures RedactMapping(c, es, depth)[i] == Entry(es[j].key, RedactEntry(c, es[j], depth))
  {
    hide RedactEntry, RedactEntries;
    i := Target(c, es, depth, j);
  }

  lemma {:induction false} ItemsPasses(c: Job, items: seq<Value>, depth: nat, d2: nat, d3: nat)
    requires PlainDigits(c.rt) && Fits(c, Items(items), depth) && d2 <= depth && d3 <= depth
    ensures var out := RedactItems(c, items, depth);
            var again := RedactItems(c, out, d2);
            && RedactItems(c, again, d3) == again
            && (again == out <==> Stable(c, Items(items)))
    decreases items, 0
  {
    hide Redact, RedactItems, PlainDigits, Stable, Fits;
    ItemsUnfold(c, items, depth);
    var out := RedactItems(c, items, depth);
    var again := RedactItems(c, out, d2);
    ItemsAt(c, items, depth);
    ItemsAt(c, out, d2);
    ItemsAt(c, again, d3);
    forall i | 0 <= i < |items|
      ensures RedactItems(c, again, d3)[i] == again[i]
      ensures again[i] == out[i] <==> Stable(c, items[i])
    {
      ThreePasses(c, items[i], depth + 1, d2 + 1, d3 + 1);
    }
    if again == out {
      forall i | 0 <= i < |items| ensures Stable(c, items[i]) { assert again[i] == out[i]; }
    }
  }

  lemma ItemsUnfold(c: Job, items: seq<Value>, depth: nat)
    ensures Stable(c, Items(items)) <==> forall i :: 0 <= i < |items| ==> Stable(c, items[i])
    ensures Fits(c, Items(items), depth) ==>
              depth <= c.maxDepth && |items| <= MAX_SEQUENCE_LEN && forall i :: 0 <= i < |items| ==> Fits(c, items[i], depth + 1)
  {
  }

  lemma ItemsAt(c: Job, items: seq<Value>, depth: nat)
    requires |items| <= MAX_SEQUENCE_LEN
    ensures |RedactItems(c, items, depth)| == |items|
    ensures forall i :: 0 <= i < |items| ==> RedactItems(c, items, depth)[i] == Redact(c, items[i], depth + 1)
  {
    hide Redact, RedactAll;
    forall i | 0 <= i < |items| ensures RedactAll(c, items, depth)[i] == Redact(c, items[i], depth + 1) {
      AllAt(c, items, depth, i);
    }
  }

  // ---- the results --------------------------------------------------------------------------------------

  /** THIRD PASS: within the caps a third pass never changes what the second left, for any purpose. */
  lemma ThirdPassChangesNothing(c: Job, v: Value)
    requires PlainDigits(c.rt) && Fits(c, v, 0)
    ensures var r2 := Redact(c, Redact(c, v, 0), 0); Redact(c, r2, 0) == r2
  {
    hide Redact, Fits, PlainDigits, Stable;
    ThreePasses(c, v, 0, 0, 0);
  }

  /** SECOND PASS, EXACTLY: it changes something iff a short address or an empty local part was masked. */
  lemma SecondPassExact(c: Job, v: Value)
    requires PlainDigits(c.rt) && Fits(c, v, 0)
    ensures Redact(c, Redact(c, v, 0), 0) == Redact(c, v, 0) <==> Stable(c, v)
  {
    hide Redact, Fits, PlainDigits, Stable;
    ThreePasses(c, v, 0, 0, 0);
  }

  /** For the purposes that keep no personal data everything is stable: redaction is idempotent. */
  lemma NoPiiIdempotent(c: Job, v: Value)
    requires PlainDigits(c.rt) && Fits(c, v, 0) && NoPii(c.purpose)
    ensures Redact(c, Redact(c, v, 0), 0) == Redact(c, v, 0)
  {
    hide Redact, Fits, PlainDigits;
    NoPiiStable(c, v);
    SecondPassExact(c, v);
  }

  lemma {:induction false} NoPiiStable(c: Job, v: Value)
    requires NoPii(c.purpose)
    ensures Stable(c, v)
    decreases v
  {
    hide IsCotKey, IsSecretKey, FieldOf;
    match v
    case Mapping(es) =>
      forall j | LastOf(es, j) ensures EntryStable(c, es[j]) { NoPiiStable(c, es[j].value); }
    case Items(items) =>
      forall i | 0 <= i < |items| ensures Stable(c, items[i]) { NoPiiStable(c, items[i]); }
    case Stream(parts) =>
      forall i | 0 <= i < |parts| ensures Stable(c, parts[i]) { NoPiiStable(c, parts[i]); }
    case _ =>
  }

  /** COUNTEREXAMPLE to idempotence elsewhere: a six-letter address is masked to two different texts. */
  lemma ShortAddressChangesTwice(s: string)
    requires |s| <= 6
    ensures MaskAddress(s) == "***REDACTED***" && MaskAddress(MaskAddress(s)) == "***RED****"
  {
    assert MASK[..6] == "***RED";
  }

  /** COUNTEREXAMPLE: an e-mail with an empty local part gains a star in the second pass. */
  lemma EmptyLocalChangesTwice(domain: string)
    requires domain != ""
    ensures MaskEmail("@" + domain) == "***@" + domain
    ensures MaskEmail(MaskEmail("@" + domain)) == "****@" + domain
  {
    hide MaskEmail;
    MaskEmailParts("@" + domain, 0);
    assert ("@" + domain)[1..] == domain;
    Empty("***@");
    MaskOfMaskedEmail("", domain);
    assert "*" + "***@" == "****@";
  }

  /** A payload of one field whose string is masked, and what a pass makes of it. */
  lemma OneFieldPass(c: Job, key: string, f: Field, s: string)
    requires c.maxDepth >= 0 && s != "" && !IsSecretKey(c.rt, key) && !IsCotKey(c.rt, key) && FieldOf(c.rt, key) == Some(f)
    ensures Redact(c, Mapping([Entry(key, Str(s))]), 0) == Mapping([Entry(key, Str(MaskField(c, f, s)))])
  {
    hide IsSecretKey, IsCotKey, FieldOf, MaskField;
    EntriesPointwise(c, [Entry(key, Str(s))], 0);
  }

  /** COUNTEREXAMPLE: so is a payload with a short address, by every purpose that keeps masked data. */
  lemma ShortAddressPayload(c: Job, s: string)
    requires c.rt.lower("address") == "address" && c.maxDepth >= 0 && !NoPii(c.purpose) && 0 < |s| <= 6
    ensures var r1 := Redact(c, Mapping([Entry("address", Str(s))]), 0);
            && r1 == Mapping([Entry("address", Str("***REDACTED***"))])
            && Redact(c, r1, 0) == Mapping([Entry("address", Str("***RED****"))]) != r1
  {
    hide IsSecretKey, IsCotKey, FieldOf, Redact, MaskAddress;
    AddressIsField(c.rt);
    ShortAddressChangesTwice(s);
    OneFieldPass(c, "address", Address, s);
    OneFieldPass(c, "address", Address, MASK);
    assert |"***RED****"| != |"***REDACTED***"|;
  }

  /** COUNTEREXAMPLE: and one with an e-mail without local part. */
  lemma EmptyLocalPayload(c: Job, domain: string)
    requires c.rt.lower("email") == "email" && c.maxDepth >= 0 && !NoPii(c.purpose) && domain != ""
    ensures var r1 := Redact(c, Mapping([Entry("email", Str("@" + domain))]), 0);
            && r1 == Mapping([Entry("email", Str("***@" + domain))])
            && Redact(c, r1, 0) == Mapping([Entry("email", Str("****@" + domain))]) != r1
  {
    hide IsSecretKey, IsCotKey, FieldOf, Redact, MaskEmail;
    EmailIsField(c.rt);
    EmptyLocalChangesTwice(domain);
    OneFieldPass(c, "email", Email, "@" + domain);
    OneFieldPass(c, "email", Email, "***@" + domain);
    assert |"****@" + domain| != |"***@" + domain|;
  }
}
