/** Purpose-driven redaction of nested payloads (redaction.py). */
module Redaction {
  import opened Text

  // ---- payloads --------------------------------------------------------------------------------

  /** A payload; mapping keys are what `str(key)` gives, so two keys of one mapping may coincide. */
  datatype Value =
    | Null
    | Bool(b: bool)
    | Number(n: real)
    | Str(s: string)
    | Bytes(length: nat)
    | Mapping(entries: seq<Entry>)
    | Items(items: seq<Value>)      // a sequence
    | Stream(parts: seq<Value>)     // any other iterable
    | Opaque(typeName: string)      // anything else

  datatype Entry = Entry(key: string, value: Value)

  datatype Purpose = Llm | Mcp | Trace | Audit | ToolSnapshot | Idempotency | Callback

  predicate NoPii(p: Purpose) {
    p.Llm? || p.Mcp? || p.Trace?
  }

  /** What Python supplies: the pattern scrubber for free text, case folding, and the digit class. */
  datatype Runtime = Runtime(scrub: string -> string, lower: string -> string, isDigit: char -> bool)

  datatype Job = Job(rt: Runtime, purpose: Purpose, maxDepth: int)

  const MASK := "***REDACTED***"
  const SECRET_REMOVED := "[SECRET_REMOVED]"
  const COT_REMOVED := "[REASONING_WITHHELD]"
  const TRUNCATED := "[TRUNCATED]"
  const TRUNCATED_KEY := "__truncated__"

  const MAX_STRING_LEN := 4096
  const MAX_SEQUENCE_LEN := 200
  const MAX_KEYS := 200

  // ---- key vocabulary --------------------------------------------------------------------------

  const SECRET_MARKERS: seq<string> := [
    "password", "passwd", "pwd", "secret", "token", "apikey", "api_key", "accesskey", "secretkey",
    "privatekey", "clientsecret", "credential", "authorization", "auth", "cookie", "sessionid",
    "signature", "sign", "salt", "otp", "pin", "cvv", "cardnumber", "refreshtoken", "idtoken",
    "bearertoken", "jwt"
  ]

  const SECRET_ALLOWLIST: seq<string> := [
    "authorization_status", "auth_sessions_count", "token_input", "token_output", "token_count",
    "tokens_used", "signature_valid", "sign_verified"
  ]

  const COT_MARKERS: seq<string> := [
    "chain_of_thought", "chainofthought", "reasoning_trace", "raw_reasoning", "scratchpad",
    "internal_thought", "hidden_reasoning", "thought_process"
  ]

  datatype Field = Email | Phone | Address | Card

  const EMAIL_MARKERS: seq<string> := ["email", "mail", "emailaddress"]
  const PHONE_MARKERS: seq<string> := ["phone", "mobile", "tel", "telephone", "phonenumber", "contactphone"]
  const ADDRESS_MARKERS: seq<string> := ["address", "addr", "shippingaddress", "receiveraddress", "fulladdress"]
  const CARD_MARKERS: seq<string> := ["idcard", "idnumber", "cardno", "bankcard"]

  /** Keeps the ASCII lower-case letters and digits. */
  function Squash(s: string): string {
    if s == "" then ""
    else (if 'a' <= s[0] <= 'z' || '0' <= s[0] <= '9' then [s[0]] else "") + Squash(s[1..])
  }

  function NormaliseKey(rt: Runtime, key: string): string {
    Squash(rt.lower(key))
  }

  predicate Contains(text: string, part: string) {
    exists i {:trigger text[i..]} :: 0 <= i <= |text| && part <= text[i..]
  }

  predicate ContainsAny(text: string, markers: seq<string>) {
    markers != [] && (Contains(text, Squash(markers[0])) || ContainsAny(text, markers[1..]))
  }

  predicate EqualsAny(text: string, names: seq<string>) {
    names != [] && (text == Squash(names[0]) || EqualsAny(text, names[1..]))
  }

  predicate IsSecretKey(rt: Runtime, key: string) {
    var k := NormaliseKey(rt, key);
    !EqualsAny(k, SECRET_ALLOWLIST) && ContainsAny(k, SECRET_MARKERS)
  }

  predicate IsCotKey(rt: Runtime, key: string) {
    ContainsAny(NormaliseKey(rt, key), COT_MARKERS)
  }

  /** The first field group one of whose markers occurs in the key. */
  function FieldOf(rt: Runtime, key: string): Option<Field> {
    var k := NormaliseKey(rt, key);
    if ContainsAny(k, EMAIL_MARKERS) then Some(Email)
    else if ContainsAny(k, PHONE_MARKERS) then Some(Phone)
    else if ContainsAny(k, ADDRESS_MARKERS) then Some(Address)
    else if ContainsAny(k, CARD_MARKERS) then Some(Card)
    else None
  }

  // ---- scalars ---------------------------------------------------------------------------------

  function MaskEmail(s: string): string {
    var at := IndexOf(s, '@');
    if at == -1 || at == |s| - 1 then MASK
    else (if at == 0 then "" else s[..1]) + "***@" + s[at + 1..]
  }

  function DigitsOf(rt: Runtime, s: string): string {
    if s == "" then "" else (if rt.isDigit(s[0]) then [s[0]] else "") + DigitsOf(rt, s[1..])
  }

  function MaskPhone(rt: Runtime, s: string): string {
    var digits := DigitsOf(rt, s);
    if |digits| < 7 then MASK else digits[..3] + "****" + digits[|digits| - 4..]
  }

  function MaskAddress(s: string): string {
    if |s| <= 6 then MASK else s[..6] + "****"
  }

  function MaskField(c: Job, f: Field, s: string): string {
    if NoPii(c.purpose) then MASK
    else
      match f
      case Email => MaskEmail(s)
      case Phone => MaskPhone(c.rt, s)
      case Address => MaskAddress(s)
      case Card => MASK
  }

  function RedactText(rt: Runtime, s: string): string {
    if s == "" then s else rt.scrub(s)
  }

  function Truncated(s: string): string {
    if |s| > MAX_STRING_LEN then s[..MAX_STRING_LEN] + TRUNCATED else s
  }

  function BytesText(n: nat): string { "<bytes:" + Decimal(n) + ">" }
  function TypeText(name: string): string { "<" + name + ">" }
  function MoreKeys(n: nat): string { Decimal(n) + " more keys" }
  function MoreItems(n: nat): string { TRUNCATED + " +" + Decimal(n) }

  // ---- structures ------------------------------------------------------------------------------

  /** Assignment into a Python dict: an existing key keeps its place. */
  function DictSet(out: seq<Entry>, key: string, value: Value): seq<Entry> {
    if out == [] then [Entry(key, value)]
    else if out[0].key == key then [Entry(key, value)] + out[1..]
    else [out[0]] + DictSet(out[1..], key, value)
  }

  function Redact(c: Job, v: Value, depth: nat): Value
    decreases v, 1
  {
    if depth > c.maxDepth then Str(TRUNCATED)
    else
      match v
      case Null => v
      case Bool(_) => v
      case Number(_) => v
      case Str(s) => Str(Truncated(RedactText(c.rt, s)))
      case Bytes(n) => Str(BytesText(n))
      case Mapping(entries) => Mapping(RedactMapping(c, entries, depth))
      case Items(items) => Items(RedactItems(c, items, depth))
      // list(payload) goes one level deeper before its items do
      case Stream(parts) => if depth + 1 > c.maxDepth then Str(TRUNCATED) else Items(RedactItems(c, parts, depth + 1))
      case Opaque(name) => Str(TypeText(name))
  }

  function RedactMapping(c: Job, entries: seq<Entry>, depth: nat): seq<Entry>
    decreases entries, 1
  {
    if |entries| <= MAX_KEYS then RedactEntries(c, entries, depth)
    else DictSet(RedactEntries(c, entries[..MAX_KEYS], depth), TRUNCATED_KEY, Str(MoreKeys(|entries| - MAX_KEYS)))
  }

  function RedactEntries(c: Job, entries: seq<Entry>, depth: nat): seq<Entry>
    decreases entries, 0
  {
    if entries == [] then []
    else
      var last := entries[|entries| - 1];
      DictSet(RedactEntries(c, entries[..|entries| - 1], depth), last.key, RedactEntry(c, last, depth))
  }

  function RedactEntry(c: Job, e: Entry, depth: nat): Value
    decreases e, 0
  {
    if IsCotKey(c.rt, e.key) then Str(COT_REMOVED)
    else if IsSecretKey(c.rt, e.key) then Str(SECRET_REMOVED)
    else if MaskedField(c, e) then Str(MaskField(c, FieldOf(c.rt, e.key).value, e.value.s))
    else Redact(c, e.value, depth + 1)
  }

  /** A non-empty string under a key that names personal data. */
  predicate MaskedField(c: Job, e: Entry) {
    e.value.Str? && e.value.s != "" && FieldOf(c.rt, e.key).Some?
  }

  function RedactItems(c: Job, items: seq<Value>, depth: nat): seq<Value>
    decreases items, 1
  {
    if |items| <= MAX_SEQUENCE_LEN then RedactAll(c, items, depth)
    else RedactAll(c, items[..MAX_SEQUENCE_LEN], depth) + [Str(MoreItems(|items| - MAX_SEQUENCE_LEN))]
  }

  function RedactAll(c: Job, items: seq<Value>, depth: nat): (r: seq<Value>)
    ensures |r| == |items|
    decreases items, 0
  {
    if items == [] then []
    else RedactAll(c, items[..|items| - 1], depth) + [Redact(c, items[|items| - 1], depth + 1)]
  }

  // ---- the loops -------------------------------------------------------------------------------

  method RedactPayload(c: Job, payload: Value, depth: nat) returns (r: Value)
    ensures r == Redact(c, payload, depth)
    decreases payload, 1
  {
    if depth > c.maxDepth {
      return Str(TRUNCATED);
    }
    match payload
    case Null => r := payload;
    case Bool(_) => r := payload;
    case Number(_) => r := payload;
    case Str(s) =>
      var scrubbed := RedactText(c.rt, s);
      if |scrubbed| > MAX_STRING_LEN {
        r := Str(scrubbed[..MAX_STRING_LEN] + TRUNCATED);
      } else {
        r := Str(scrubbed);
      }
    case Bytes(n) => r := Str(BytesText(n));
    case Mapping(entries) =>
      var out := RedactMappingLoop(c, entries, depth);
      r := Mapping(out);
    case Items(items) =>
      var out := RedactItemsLoop(c, items, depth);
      r := Items(out);
    case Stream(parts) =>
      if depth + 1 > c.maxDepth {
        r := Str(TRUNCATED);
      } else {
        var out := RedactItemsLoop(c, parts, depth + 1);
        r := Items(out);
      }
    case Opaque(name) => r := Str(TypeText(name));
  }

  method RedactMappingLoop(c: Job, entries: seq<Entry>, depth: nat) returns (out: seq<Entry>)
    ensures out == RedactMapping(c, entries, depth)
    decreases entries, 0
  {
    hide IsCotKey, IsSecretKey, FieldOf, DictSet, Redact;
    out := [];
    var index := 0;
    while index < |entries|
      invariant 0 <= index <= |entries| && index <= MAX_KEYS
      invariant out == RedactEntries(c, entries[..index], depth)
    {
      if index >= MAX_KEYS {
        out := DictSet(out, TRUNCATED_KEY, Str(MoreKeys(|entries| - MAX_KEYS)));
        return;
      }
      var entry := entries[index];
      assert entries[..index + 1][..index] == entries[..index];
      if IsCotKey(c.rt, entry.key) {
        out := DictSet(out, entry.key, Str(COT_REMOVED));
      } else if IsSecretKey(c.rt, entry.key) {
        out := DictSet(out, entry.key, Str(SECRET_REMOVED));
      } else if MaskedField(c, entry) {
        out := DictSet(out, entry.key, Str(MaskField(c, FieldOf(c.rt, entry.key).value, entry.value.s)));
      } else {
        var value := RedactPayload(c, entry.value, depth + 1);
        out := DictSet(out, entry.key, value);
      }
      index := index + 1;
    }
    assert entries[..index] == entries;
  }

  method RedactItemsLoop(c: Job, items: seq<Value>, depth: nat) returns (out: seq<Value>)
    ensures out == RedactItems(c, items, depth)
    decreases items, 0
  {
    hide Redact;
    out := [];
    var index := 0;
    while index < |items|
      invariant 0 <= index <= |items| && index <= MAX_SEQUENCE_LEN
      invariant out == RedactAll(c, items[..index], depth)
    {
      if index >= MAX_SEQUENCE_LEN {
        out := out + [Str(MoreItems(|items| - MAX_SEQUENCE_LEN))];
        return;
      }
      assert items[..index + 1][..index] == items[..index];
      var value := RedactPayload(c, items[index], depth + 1);
      out := out + [value];
      index := index + 1;
    }
    assert items[..index] == items;
  }
}
