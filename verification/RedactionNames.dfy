/** Which keys the name vocabulary catches: facts about the markers of redaction.py. */
module RedactionNames {
  import opened Text
  import opened Redaction

  // ---- squashing -----------------------------------------------------------------------------------------

  lemma {:induction false} SquashPlain(s: string)
    requires forall i :: 0 <= i < |s| ==> 'a' <= s[i] <= 'z'
    ensures Squash(s) == s
  {
    if s != "" { SquashPlain(s[1..]); }
  }

  lemma {:induction false} SquashAppend(a: string, b: string)
    ensures Squash(a + b) == Squash(a) + Squash(b)
  {
    if a == "" {
      Empty(b);
      Empty(Squash(b));
    } else {
      Tail(a, b);
      SquashAppend(a[1..], b);
      Assoc(if 'a' <= a[0] <= 'z' || '0' <= a[0] <= '9' then [a[0]] else "", Squash(a[1..]), Squash(b));
    }
  }

  predicate LettersIn(letters: set<char>, s: string) {
    forall i :: 0 <= i < |s| ==> s[i] in letters
  }

  lemma {:induction false} SquashLetters(letters: set<char>, s: string)
    requires LettersIn(letters, s)
    ensures LettersIn(letters, Squash(s))
  {
    if s != "" { SquashLetters(letters, s[1..]); }
  }

  lemma {:induction false} SquashKeeps(marker: string, k: nat)
    requires k < |marker| && 'a' <= marker[k] <= 'z'
    ensures exists l :: 0 <= l < |Squash(marker)| && Squash(marker)[l] == marker[k]
  {
    if k > 0 {
      SquashKeeps(marker[1..], k - 1);
      var rest := Squash(marker[1..]);
      var l :| 0 <= l < |rest| && rest[l] == marker[k];
      assert Squash(marker)[|Squash(marker)| - |rest| + l] == marker[k];
    } else {
      assert Squash(marker)[0] == marker[0];
    }
  }

  // ---- which markers a text contains -----------------------------------------------------------------------

  lemma {:induction false} NotAmong(text: string, names: seq<string>)
    requires text != ""
    requires forall i :: 0 <= i < |names| ==> names[i] != "" && 'a' <= names[i][0] <= 'z' && names[i][0] != text[0]
    ensures !EqualsAny(text, names)
    decreases |names|
  {
    if names != [] {
      assert Squash(names[0])[0] == names[0][0];
      assert forall i :: 0 <= i < |names[1..]| ==> names[1..][i] == names[i + 1];
      NotAmong(text, names[1..]);
    }
  }

  lemma {:induction false} OneContained(text: string, markers: seq<string>, n: nat)
    requires n < |markers| && Contains(text, Squash(markers[n]))
    ensures ContainsAny(text, markers)
    decreases n
  {
    hide Contains, Squash;
    if n > 0 { OneContained(text, markers[1..], n - 1); }
  }

  /** A letter of the marker that is none of `letters`. */
  predicate Stranger(letters: set<char>, marker: string, k: int) {
    0 <= k < |marker| && 'a' <= marker[k] <= 'z' && marker[k] !in letters
  }

  lemma StrangerNotContained(letters: set<char>, text: string, marker: string, k: int)
    requires LettersIn(letters, text) && Stranger(letters, marker, k)
    ensures !Contains(text, Squash(marker))
  {
    hide Squash;
    SquashKeeps(marker, k);
    var part := Squash(marker);
    var l :| 0 <= l < |part| && part[l] == marker[k];
    assert part[l] !in letters;
  }

  lemma {:induction false} NoneContained(letters: set<char>, text: string, markers: seq<string>, places: seq<int>)
    requires LettersIn(letters, text)
    requires |places| == |markers| && forall i :: 0 <= i < |markers| ==> Stranger(letters, markers[i], places[i])
    ensures !ContainsAny(text, markers)
    decreases |markers|
  {
    hide Contains, Stranger, LettersIn;
    if markers != [] {
      StrangerNotContained(letters, text, markers[0], places[0]);
      assert forall i :: 0 <= i < |markers[1..]| ==> markers[1..][i] == markers[i + 1] && places[1..][i] == places[i + 1];
      NoneContained(letters, text, markers[1..], places[1..]);
    }
  }

  // ---- the key the redactor adds -----------------------------------------------------------------------------

  /** Lower-casing leaves the redactor's own key alone. */
  predicate LowerKeepsNote(rt: Runtime) {
    rt.lower(TRUNCATED_KEY) == TRUNCATED_KEY
  }

  const NOTE_LETTERS: set<char> := {'_', 't', 'r', 'u', 'n', 'c', 'a', 'e', 'd'}

  const NOTE_STRANGERS: seq<int> := [
    0, 0, 0, 0, 1, 1, 1, 4, 0, 0, 1, 7, 3, 3,
    1, 0, 0, 0, 0, 0, 0, 1, 6, 2, 0, 0, 0
  ]

  lemma NoteStrangers()
    ensures |NOTE_STRANGERS| == |SECRET_MARKERS|
    ensures forall i :: 0 <= i < |SECRET_MARKERS| ==> Stranger(NOTE_LETTERS, SECRET_MARKERS[i], NOTE_STRANGERS[i])
  {
  }

  /** The redactor's own key is not secret-named. */
  lemma NoteKeyIsPlain(rt: Runtime)
    requires LowerKeepsNote(rt)
    ensures !IsSecretKey(rt, TRUNCATED_KEY)
  {
    hide ContainsAny, EqualsAny, Squash, Stranger;
    SquashLetters(NOTE_LETTERS, TRUNCATED_KEY);
    NoteStrangers();
    NoneContained(NOTE_LETTERS, NormaliseKey(rt, TRUNCATED_KEY), SECRET_MARKERS, NOTE_STRANGERS);
  }

  lemma NothingIsSecret(rt: Runtime, key: string)
    requires rt.lower(key) == ""
    ensures !IsSecretKey(rt, key)
  {
    hide ContainsAny, EqualsAny, Stranger;
    NoteStrangers();
    NoneContained(NOTE_LETTERS, "", SECRET_MARKERS, NOTE_STRANGERS);
  }

  // ---- ordinary field names -----------------------------------------------------------------------------------

  /** The letters of "address" and "email". */
  const FIELD_LETTERS: set<char> := {'a', 'd', 'r', 'e', 's', 'm', 'i', 'l'}

  const FIELD_SECRET_STRANGERS: seq<int> := [
    0, 0, 0, 2, 0, 1, 1, 1, 2, 0, 0, 0, 1, 1,
    0, 5, 2, 2, 3, 0, 0, 0, 0, 2, 2, 0, 0
  ]

  const FIELD_COT_STRANGERS: seq<int> := [0, 0, 4, 2, 1, 1, 0, 0]

  const FIELD_PHONE_STRANGERS: seq<int> := [0, 2, 0, 0, 0, 0]

  lemma FieldSecretStrangers()
    ensures |FIELD_SECRET_STRANGERS| == |SECRET_MARKERS|
    ensures forall i :: 0 <= i < |SECRET_MARKERS| ==> Stranger(FIELD_LETTERS, SECRET_MARKERS[i], FIELD_SECRET_STRANGERS[i])
  {
  }

  lemma FieldOtherStrangers()
    ensures |FIELD_COT_STRANGERS| == |COT_MARKERS| && |FIELD_PHONE_STRANGERS| == |PHONE_MARKERS|
    ensures forall i :: 0 <= i < |COT_MARKERS| ==> Stranger(FIELD_LETTERS, COT_MARKERS[i], FIELD_COT_STRANGERS[i])
    ensures forall i :: 0 <= i < |PHONE_MARKERS| ==> Stranger(FIELD_LETTERS, PHONE_MARKERS[i], FIELD_PHONE_STRANGERS[i])
  {
  }

  lemma FieldNameIsPlain(rt: Runtime, key: string)
    requires LettersIn(FIELD_LETTERS, rt.lower(key))
    ensures !IsSecretKey(rt, key) && !IsCotKey(rt, key) && !ContainsAny(NormaliseKey(rt, key), PHONE_MARKERS)
  {
    hide ContainsAny, EqualsAny, Squash, Stranger;
    var text := NormaliseKey(rt, key);
    SquashLetters(FIELD_LETTERS, rt.lower(key));
    FieldSecretStrangers();
    FieldOtherStrangers();
    NoneContained(FIELD_LETTERS, text, SECRET_MARKERS, FIELD_SECRET_STRANGERS);
    NoneContained(FIELD_LETTERS, text, COT_MARKERS, FIELD_COT_STRANGERS);
    NoneContained(FIELD_LETTERS, text, PHONE_MARKERS, FIELD_PHONE_STRANGERS);
  }

  lemma EmailIsField(rt: Runtime)
    requires rt.lower("email") == "email"
    ensures !IsSecretKey(rt, "email") && !IsCotKey(rt, "email") && FieldOf(rt, "email") == Some(Email)
  {
    hide ContainsAny, Squash, IsSecretKey, IsCotKey;
    FieldNameIsPlain(rt, "email");
    SquashPlain("email");
    assert "email" <= "email"[0..];
    OneContained("email", EMAIL_MARKERS, 0);
  }

  lemma AddressIsField(rt: Runtime)
    requires rt.lower("address") == "address"
    ensures !IsSecretKey(rt, "address") && !IsCotKey(rt, "address") && FieldOf(rt, "address") == Some(Address)
  {
    hide ContainsAny, Squash, IsSecretKey, IsCotKey;
    FieldNameIsPlain(rt, "address");
    SquashPlain("address");
    AddressIsNoEmail();
    assert "address" <= "address"[0..];
    OneContained("address", ADDRESS_MARKERS, 0);
  }

  lemma AddressIsNoEmail()
    ensures !ContainsAny("address", EMAIL_MARKERS)
  {
    hide ContainsAny;
    NoneContained({'a', 'd', 'r', 'e', 's'}, "address", EMAIL_MARKERS, [1, 0, 1]);
  }

  // ---- secret-named and doubly named keys ------------------------------------------------------------------------

  /** A key that begins with "password" is secret-named. */
  lemma PasswordIsSecret(rt: Runtime, key: string, tail: string)
    requires Squash(rt.lower(key)) == "password" + tail
    ensures IsSecretKey(rt, key)
  {
    hide ContainsAny, EqualsAny, Squash;
    var text := "password" + tail;
    SquashPlain("password");
    assert "password" <= text[0..];
    OneContained(text, SECRET_MARKERS, 0);
    NotAmong(text, SECRET_ALLOWLIST);
  }

  predicate DoublyNamed(rt: Runtime, key: string) {
    IsSecretKey(rt, key) && IsCotKey(rt, key)
  }

  const DOUBLE := "password_scratchpad"

  lemma DoubleIsDoublyNamed(rt: Runtime)
    requires rt.lower(DOUBLE) == DOUBLE
    ensures DoublyNamed(rt, DOUBLE)
  {
    hide ContainsAny, EqualsAny, Squash, IsSecretKey;
    SquashOfDouble();
    PasswordIsSecret(rt, DOUBLE, "scratchpad");
    var text := "password" + "scratchpad";
    SquashPlain("scratchpad");
    assert text[8..] == "scratchpad" && "scratchpad" <= text[8..];
    OneContained(text, COT_MARKERS, 4);
  }

  lemma SquashUnderscore()
    ensures Squash("_") == ""
  {
  }

  lemma SquashOfDouble()
    ensures Squash(DOUBLE) == "password" + "scratchpad"
  {
    hide Squash;
    assert DOUBLE == "password" + ("_" + "scratchpad");
    SquashPlain("password");
    SquashPlain("scratchpad");
    SquashAppend("password", "_" + "scratchpad");
    SquashAppend("_", "scratchpad");
    SquashUnderscore();
    Empty("scratchpad");
  }
}
