/** What redaction does to a payload, said without its own functions: text, fields, markers, notes. */
module RedactionMeaning {
  import opened Text
  import opened Redaction
  import opened RedactionShape
  import opened RedactionNames
  import opened RedactionBounds

  // ---- free text is scrubbed, everywhere ------------------------------------------------------------------

  /** Every string of the result satisfies `p`, except those under keys that name personal data. */
  ghost predicate StringsSatisfy(c: Job, p: string -> bool, v: Value)
    decreases v
  {
    match v
    case Str(s) => p(s)
    case Mapping(es) =>
      forall i :: 0 <= i < |es| ==>
        || StringsSatisfy(c, p, es[i].value)
        || (es[i].value.Str? && FieldOf(c.rt, es[i].key).Some? && !Withheld(c, es[i].key))
    case Items(items) => forall i :: 0 <= i < |items| ==> StringsSatisfy(c, p, items[i])
    case Bytes(_) => false
    case Stream(_) => false
    case Opaque(_) => false
    case _ => true
  }

  /** `p` holds of everything the scrubber returns, cut or not, of the empty text and of the markers. */
  ghost predicate AdmitsScrubbed(c: Job, p: string -> bool) {
    && p("") && p("[TRUNCATED]") && p("[SECRET_REMOVED]") && p("[REASONING_WITHHELD]")
    && (forall s :: p(c.rt.scrub(s)))
    && (forall s :: |c.rt.scrub(s)| > 4096 ==> p(c.rt.scrub(s)[..4096] + "[TRUNCATED]"))
  }

  /** `p` holds of the notes on this payload, outside withheld values. */
  ghost predicate AdmitsNotes(c: Job, p: string -> bool, v: Value)
    decreases v
  {
    match v
    case Bytes(n) => p("<bytes:" + Decimal(n) + ">")
    case Opaque(name) => p("<" + name + ">")
    case Mapping(es) =>
      && (|es| > 200 ==> p(Decimal(|es| - 200) + " more keys"))
      && forall i :: 0 <= i < |es| ==> Withheld(c, es[i].key) || AdmitsNotes(c, p, es[i].value)
    case Items(items) =>
      && (|items| > 200 ==> p("[TRUNCATED]" + " +" + Decimal(|items| - 200)))
      && forall i :: 0 <= i < |items| ==> AdmitsNotes(c, p, items[i])
    case Stream(parts) =>
      && (|parts| > 200 ==> p("[TRUNCATED]" + " +" + Decimal(|parts| - 200)))
      && forall i :: 0 <= i < |parts| ==> AdmitsNotes(c, p, parts[i])
    case _ => true
  }

  /** SCRUBBING: whatever holds of all scrubbed text and of the notes holds of every string that comes out. */
  lemma {:induction false} EverythingIsScrubbed(c: Job, p: string -> bool, v: Value, depth: nat)
    requires AdmitsScrubbed(c, p) && AdmitsNotes(c, p, v)
    ensures StringsSatisfy(c, p, Redact(c, v, depth))
    decreases v, 1
  {
    hide IsCotKey, IsSecretKey, FieldOf, RedactMapping, RedactItems;
    if depth <= c.maxDepth {
      match v
      case Mapping(es) => EntriesAreScrubbed(c, p, es, depth);
      case Items(items) => ItemsAreScrubbed(c, p, items, depth);
      case Stream(parts) => if depth + 1 <= c.maxDepth { ItemsAreScrubbed(c, p, parts, depth + 1); }
      case _ =>
    }
  }

  lemma {:induction false} EntriesAreScrubbed(c: Job, p: string -> bool, es: seq<Entry>, depth: nat)
    requires AdmitsScrubbed(c, p) && AdmitsNotes(c, p, Mapping(es))
    ensures StringsSatisfy(c, p, Mapping(RedactMapping(c, es, depth)))
    decreases es, 0
  {
    hide IsCotKey, IsSecretKey, FieldOf, RedactMapping, Redact, MaskField, AdmitsScrubbed;
    MarkersAdmitted(c, p);
    var out := RedactMapping(c, es, depth);
    forall i | 0 <= i < |out|
      ensures StringsSatisfy(c, p, out[i].value)
              || (out[i].value.Str? && FieldOf(c.rt, out[i].key).Some? && !Withheld(c, out[i].key))
    {
      var j := MappingOrigin(c, es, depth, i);
      if j >= 0 && !Withheld(c, es[j].key) {
        EverythingIsScrubbed(c, p, es[j].value, depth + 1);
      }
    }
  }

  lemma MarkersAdmitted(c: Job, p: string -> bool)
    requires AdmitsScrubbed(c, p)
    ensures p(SECRET_REMOVED) && p(COT_REMOVED)
  {
  }

  lemma {:induction false} ItemsAreScrubbed(c: Job, p: string -> bool, items: seq<Value>, depth: nat)
    requires AdmitsScrubbed(c, p) && AdmitsNotes(c, p, Items(items))
    ensures StringsSatisfy(c, p, Items(RedactItems(c, items, depth)))
    decreases items, 0
  {
    hide RedactItems, Redact, AdmitsScrubbed;
    var out := RedactItems(c, items, depth);
    forall i | 0 <= i < |out| ensures StringsSatisfy(c, p, out[i]) {
      ItemOrigin(c, items, depth, i);
      if i < MAX_SEQUENCE_LEN { EverythingIsScrubbed(c, p, items[i], depth + 1); }
    }
  }

  /** LEAVES: text comes out as the scrubber leaves it, cut at 4096; what is no text is replaced by a note. */
  lemma LeavesComeOut(c: Job, v: Value, depth: nat)
    ensures depth > c.maxDepth ==> Redact(c, v, depth) == Str("[TRUNCATED]")
    ensures depth <= c.maxDepth ==>
              match v
              case Str(s) =>
                if s == "" then Redact(c, v, depth) == v
                else if |c.rt.scrub(s)| <= 4096 then Redact(c, v, depth) == Str(c.rt.scrub(s))
                else Redact(c, v, depth) == Str(c.rt.scrub(s)[..4096] + "[TRUNCATED]")
              case Bytes(n) => Redact(c, v, depth) == Str("<bytes:" + Decimal(n) + ">")
              case Opaque(name) => Redact(c, v, depth) == Str("<" + name + ">")
              case _ => true
  {
  }

  // ---- ordinary payloads survive --------------------------------------------------------------------------

  /** Within the caps, under keys of no vocabulary, with text that the scrubber leaves alone. */
  ghost predicate Ordinary(c: Job, v: Value, depth: nat)
    decreases v
  {
    depth <= c.maxDepth &&
    match v
    case Str(s) => s == "" || (c.rt.scrub(s) == s && |s| <= 4096)
    case Mapping(es) =>
      && |es| <= 200 && DistinctKeys(es)
      && forall i :: 0 <= i < |es| ==>
           && !IsCotKey(c.rt, es[i].key) && !IsSecretKey(c.rt, es[i].key)
           && (FieldOf(c.rt, es[i].key).Some? ==> !es[i].value.Str? || es[i].value.s == "")
           && Ordinary(c, es[i].value, depth + 1)
    case Items(items) => |items| <= 200 && forall i :: 0 <= i < |items| ==> Ordinary(c, items[i], depth + 1)
    case Bytes(_) => false
    case Stream(_) => false
    case Opaque(_) => false
    case _ => true
  }

  /** SURVIVAL: an ordinary payload comes back as it is. */
  lemma {:induction false} OrdinaryUnchanged(c: Job, v: Value, depth: nat)
    requires Ordinary(c, v, depth)
    ensures Redact(c, v, depth) == v
    decreases v
  {
    hide IsCotKey, IsSecretKey, FieldOf, RedactEntries, RedactAll;
    match v
    case Mapping(es) =>
      EntriesPointwise(c, es, depth);
      forall i | 0 <= i < |es| ensures RedactEntry(c, es[i], depth) == es[i].value {
        OrdinaryUnchanged(c, es[i].value, depth + 1);
      }
      assert RedactEntries(c, es, depth) == es;
    case Items(items) =>
      forall i | 0 <= i < |items| ensures RedactAll(c, items, depth)[i] == items[i] {
        AllAt(c, items, depth, i);
        OrdinaryUnchanged(c, items[i], depth + 1);
      }
      assert RedactAll(c, items, depth) == items;
    case _ =>
  }

  // ---- what stands under a key ----------------------------------------------------------------------------

  /** How a non-empty string `s` of field `f` is shown. */
  ghost predicate ShownAs(c: Job, f: Field, s: string, shown: string) {
    if c.purpose.Llm? || c.purpose.Mcp? || c.purpose.Trace? then shown == "***REDACTED***"
    else
      match f
      case Email =>
        if exists local, domain :: EmailParts(s, local, domain)
        then exists local, domain :: EmailParts(s, local, domain)
                                     && shown == (if local == "" then "" else [local[0]]) + "***@" + domain
        else shown == "***REDACTED***"
      case Phone =>
        var digits := DigitsOf(c.rt, s);
        if |digits| >= 7 then shown == digits[..3] + "****" + digits[|digits| - 4..] else shown == "***REDACTED***"
      case Address => if |s| > 6 then shown == s[..6] + "****" else shown == "***REDACTED***"
      case Card => shown == "***REDACTED***"
  }

  /** `local` is what stands before the first at sign, `domain`, which is not empty, what stands after it. */
  predicate EmailParts(s: string, local: string, domain: string) {
    s == local + "@" + domain && '@' !in local && domain != ""
  }

  lemma MaskIsShown(c: Job, f: Field, s: string)
    ensures ShownAs(c, f, s, MaskField(c, f, s))
  {
    hide DigitsOf, IndexOf;
    if f == Email && !NoPii(c.purpose) {
      var at := IndexOf(s, '@');
      if at == -1 || at == |s| - 1 {
        forall local, domain ensures !EmailParts(s, local, domain) {
          if EmailParts(s, local, domain) { PartsAt(s, local, domain); }
        }
      } else {
        assert EmailParts(s, s[..at], s[at + 1..]);
      }
    }
  }

  lemma PartsAt(s: string, local: string, domain: string)
    requires EmailParts(s, local, domain)
    ensures IndexOf(s, '@') == |local| < |s| - 1
  {
    hide IndexOf;
    assert s[|local|] == '@';
    assert forall i :: 0 <= i < |local| ==> s[i] == local[i];
  }

  /**
   * KEYS: of every kept entry, at any depth, the key comes out, with the reasoning marker if it names
   * reasoning, else the removal marker if it names a secret, else the shown form of a field's string, else
   * the redacted value.
   */
  lemma KeptEntryComesOut(c: Job, es: seq<Entry>, depth: nat, j: nat) returns (out: Value)
    requires depth <= c.maxDepth && Kept(es, j)
    ensures Redact(c, Mapping(es), depth).Mapping? && Entry(es[j].key, out) in Redact(c, Mapping(es), depth).entries
    ensures IsCotKey(c.rt, es[j].key) ==> out == Str("[REASONING_WITHHELD]")
    ensures !IsCotKey(c.rt, es[j].key) && IsSecretKey(c.rt, es[j].key) ==> out == Str("[SECRET_REMOVED]")
    ensures !IsCotKey(c.rt, es[j].key) && !IsSecretKey(c.rt, es[j].key) ==>
              if es[j].value.Str? && es[j].value.s != "" && FieldOf(c.rt, es[j].key).Some?
              then out.Str? && ShownAs(c, FieldOf(c.rt, es[j].key).value, es[j].value.s, out.s)
              else out == Redact(c, es[j].value, depth + 1)
  {
    hide IsCotKey, IsSecretKey, FieldOf, RedactMapping, MaskField, ShownAs;
    var i := MappingTarget(c, es, depth, j);
    out := RedactEntry(c, es[j], depth);
    if MaskedField(c, es[j]) { MaskIsShown(c, FieldOf(c.rt, es[j].key).value, es[j].value.s); }
  }

  /** No two entries of a redacted mapping have the same key, so a key tells what came out. */
  lemma KeysComeOutOnce(c: Job, es: seq<Entry>, depth: nat)
    requires depth <= c.maxDepth
    ensures DistinctKeys(Redact(c, Mapping(es), depth).entries)
  {
    hide RedactEntries, DictSet, MoreKeys;
    if |es| <= MAX_KEYS {
      EntriesDistinct(c, es, depth);
    } else {
      EntriesDistinct(c, es[..MAX_KEYS], depth);
      DictSetShape(RedactEntries(c, es[..MAX_KEYS], depth), TRUNCATED_KEY, Str(MoreKeys(|es| - MAX_KEYS)));
    }
  }

  /** Of a sequence the first 200 come out in order, and a longer one is noted with how many more there were. */
  lemma ItemsComeOut(c: Job, items: seq<Value>, depth: nat)
    requires depth <= c.maxDepth
    ensures var r := Redact(c, Items(items), depth);
            && r.Items?
            && |r.items| == (if |items| <= 200 then |items| else 201)
            && (forall i :: 0 <= i < |items| && i < 200 ==> r.items[i] == Redact(c, items[i], depth + 1))
            && (|items| > 200 ==> r.items[200] == Str("[TRUNCATED]" + " +" + Decimal(|items| - 200)))
  {
    hide RedactItems, Decimal;
    var r := Redact(c, Items(items), depth);
    ItemsLength(c, items, depth);
    forall i | 0 <= i < |r.items|
      ensures i < 200 ==> i < |items| && r.items[i] == Redact(c, items[i], depth + 1)
      ensures i >= 200 ==> |items| > 200 && r.items[i] == Str("[TRUNCATED]" + " +" + Decimal(|items| - 200))
    {
      ItemOrigin(c, items, depth, i);
    }
  }

  /** A mapping over the cap is noted with how many more entries there were. */
  lemma MoreKeysNoted(c: Job, es: seq<Entry>, depth: nat)
    requires depth <= c.maxDepth && |es| > 200
    ensures Entry("__truncated__", Str(Decimal(|es| - 200) + " more keys")) in Redact(c, Mapping(es), depth).entries
  {
    hide RedactMapping, Decimal;
    var i := NoteTarget(c, es, depth);
  }

  /** An iterable that is no sequence comes out as the sequence of its items, two levels down. */
  lemma StreamsComeOut(c: Job, parts: seq<Value>, depth: nat)
    ensures depth + 1 <= c.maxDepth ==> Redact(c, Stream(parts), depth) == Redact(c, Items(parts), depth + 1)
    ensures depth + 1 > c.maxDepth ==> Redact(c, Stream(parts), depth) == Str("[TRUNCATED]")
  {
  }

  // ---- the name vocabulary ----------------------------------------------------------------------------------

  lemma ContainsExactly(text: string, part: string)
    ensures Contains(text, part) <==> exists before, after :: text == before + part + after
  {
    if Contains(text, part) {
      var i :| 0 <= i <= |text| && part <= text[i..];
      assert text == text[..i] + part + text[i + |part|..];
    }
    if before, after :| text == before + part + after {
      assert text[|before|..] == part + after;
    }
  }

  lemma {:induction false} ContainsAnyExactly(text: string, markers: seq<string>)
    ensures ContainsAny(text, markers) <==> exists m :: m in markers && Contains(text, Squash(m))
  {
    hide Contains, Squash;
    if markers != [] {
      ContainsAnyExactly(text, markers[1..]);
      assert markers == [markers[0]] + markers[1..];
      if m :| m in markers && Contains(text, Squash(m)) { assert m == markers[0] || m in markers[1..]; }
      if m :| m in markers[1..] && Contains(text, Squash(m)) { assert m in markers; }
    }
  }

  lemma {:induction false} EqualsAnyExactly(text: string, names: seq<string>)
    ensures EqualsAny(text, names) <==> exists n :: n in names && text == Squash(n)
  {
    hide Squash;
    if names != [] {
      EqualsAnyExactly(text, names[1..]);
      assert names == [names[0]] + names[1..];
      if n :| n in names && text == Squash(n) { assert n == names[0] || n in names[1..]; }
      if n :| n in names[1..] && text == Squash(n) { assert n in names; }
    }
  }

  /** SECRET NAMES: some marker occurs in the squashed key, which is not one of the safe names. */
  lemma SecretNameExactly(rt: Runtime, key: string)
    ensures IsSecretKey(rt, key) <==>
            && (exists m :: m in SECRET_MARKERS && Contains(Squash(rt.lower(key)), Squash(m)))
            && !exists n :: n in SECRET_ALLOWLIST && Squash(rt.lower(key)) == Squash(n)
  {
    hide ContainsAny, EqualsAny, Squash, Contains;
    ContainsAnyExactly(NormaliseKey(rt, key), SECRET_MARKERS);
    EqualsAnyExactly(NormaliseKey(rt, key), SECRET_ALLOWLIST);
  }

  lemma ReasoningNameExactly(rt: Runtime, key: string)
    ensures IsCotKey(rt, key) <==> exists m :: m in COT_MARKERS && Contains(Squash(rt.lower(key)), Squash(m))
  {
    hide ContainsAny, Squash, Contains;
    ContainsAnyExactly(NormaliseKey(rt, key), COT_MARKERS);
  }

  ghost predicate Names(rt: Runtime, key: string, markers: seq<string>) {
    exists m :: m in markers && Contains(Squash(rt.lower(key)), Squash(m))
  }

  /** FIELD NAMES: the first of the four groups that has a marker in the key. */
  lemma FieldNameExactly(rt: Runtime, key: string)
    ensures FieldOf(rt, key) ==
            if Names(rt, key, EMAIL_MARKERS) then Some(Email)
            else if Names(rt, key, PHONE_MARKERS) then Some(Phone)
            else if Names(rt, key, ADDRESS_MARKERS) then Some(Address)
            else if Names(rt, key, CARD_MARKERS) then Some(Card)
            else None
  {
    hide ContainsAny, Squash, Contains;
    var k := NormaliseKey(rt, key);
    ContainsAnyExactly(k, EMAIL_MARKERS);
    ContainsAnyExactly(k, PHONE_MARKERS);
    ContainsAnyExactly(k, ADDRESS_MARKERS);
    ContainsAnyExactly(k, CARD_MARKERS);
  }

  /** Squashing goes character by character and keeps ASCII lower-case letters and digits. */
  lemma SquashExactly(a: string, x: char, b: string)
    ensures Squash(a + [x] + b) ==
            Squash(a) + (if 'a' <= x <= 'z' || '0' <= x <= '9' then [x] else "") + Squash(b)
  {
    SquashAppend(a + [x], b);
    SquashAppend(a, [x]);
    assert [x][1..] == "" && Squash("") == "";
  }
}
