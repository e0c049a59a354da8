/** How the entries of a redacted mapping relate to the entries of the payload. */
module RedactionShape {
  import opened Text
  import opened Redaction

  ghost predicate DistinctKeys(es: seq<Entry>) {
    forall i, j :: 0 <= i < j < |es| ==> es[i].key != es[j].key
  }

  /** The entry a later equal key has not overwritten. */
  ghost predicate LastOf(es: seq<Entry>, j: int) {
    0 <= j < |es| && forall l :: j < l < |es| ==> es[l].key != es[j].key
  }

  /** Place of a key, or -1. */
  function PlaceOf(out: seq<Entry>, key: string): (p: int)
    ensures -1 <= p < |out|
    ensures p >= 0 ==> out[p].key == key
    ensures p == -1 ==> forall i :: 0 <= i < |out| ==> out[i].key != key
  {
    if out == [] then -1
    else if out[|out| - 1].key == key then |out| - 1
    else
      PlaceOf(out[..|out| - 1], key)
  }

  lemma {:induction false} DictSetAt(out: seq<Entry>, key: string, value: Value, p: nat)
    requires p < |out| && out[p].key == key && forall i :: 0 <= i < p ==> out[i].key != key
    ensures DictSet(out, key, value) == out[p := Entry(key, value)]
  {
    if p > 0 {
      var rest := out[1..];
      assert rest[p - 1] == out[p] && forall i :: 0 <= i < p - 1 ==> rest[i] == out[i + 1];
      DictSetAt(rest, key, value, p - 1);
      assert [out[0]] + rest[p - 1 := Entry(key, value)] == out[p := Entry(key, value)];
    } else {
      assert [Entry(key, value)] + out[1..] == out[0 := Entry(key, value)];
    }
  }

  lemma {:induction false} DictSetNew(out: seq<Entry>, key: string, value: Value)
    requires forall i :: 0 <= i < |out| ==> out[i].key != key
    ensures DictSet(out, key, value) == out + [Entry(key, value)]
  {
    if out != [] {
      var rest := out[1..];
      assert forall i :: 0 <= i < |rest| ==> rest[i] == out[i + 1];
      DictSetNew(rest, key, value);
      assert [out[0]] + (rest + [Entry(key, value)]) == out + [Entry(key, value)];
    }
  }

  lemma DictSetShape(out: seq<Entry>, key: string, value: Value)
    requires DistinctKeys(out)
    ensures DistinctKeys(DictSet(out, key, value))
    ensures |out| <= |DictSet(out, key, value)| <= |out| + 1
    ensures forall i :: 0 <= i < |DictSet(out, key, value)| ==>
              var e := DictSet(out, key, value)[i];
              e == Entry(key, value) || (i < |out| && e == out[i] && e.key != key)
    ensures exists i :: 0 <= i < |DictSet(out, key, value)| && DictSet(out, key, value)[i] == Entry(key, value)
    ensures forall i :: 0 <= i < |out| && out[i].key != key ==> DictSet(out, key, value)[i] == out[i]
  {
    hide DictSet;
    var p := PlaceOf(out, key);
    if p >= 0 {
      DictSetAt(out, key, value, p);
      assert DictSet(out, key, value)[p] == Entry(key, value);
    } else {
      DictSetNew(out, key, value);
      assert DictSet(out, key, value)[|out|] == Entry(key, value);
    }
  }

  lemma {:induction false} EntriesDistinct(c: Job, es: seq<Entry>, depth: nat)
    ensures DistinctKeys(RedactEntries(c, es, depth)) && |RedactEntries(c, es, depth)| <= |es|
    decreases |es|
  {
    hide RedactEntry, DictSet;
    if es != [] {
      var init, last := es[..|es| - 1], es[|es| - 1];
      EntriesDistinct(c, init, depth);
      DictSetShape(RedactEntries(c, init, depth), last.key, RedactEntry(c, last, depth));
    }
  }

  /** Every entry of the result comes from the last payload entry with its key. */
  lemma {:induction false} Origin(c: Job, es: seq<Entry>, depth: nat, i: nat) returns (j: nat)
    requires i < |RedactEntries(c, es, depth)|
    ensures LastOf(es, j)
    ensures RedactEntries(c, es, depth)[i] == Entry(es[j].key, RedactEntry(c, es[j], depth))
    decreases |es|
  {
    hide RedactEntry, DictSet;
    var init, last := es[..|es| - 1], es[|es| - 1];
    var out := RedactEntries(c, init, depth);
    EntriesDistinct(c, init, depth);
    DictSetShape(out, last.key, RedactEntry(c, last, depth));
    if RedactEntries(c, es, depth)[i] == Entry(last.key, RedactEntry(c, last, depth)) {
      j := |es| - 1;
    } else {
      j := Origin(c, init, depth, i);
      assert es[j] == init[j] && forall l :: j < l < |init| ==> es[l] == init[l];
    }
  }

  /** And every last payload entry is found in the result. */
  lemma {:induction false} Target(c: Job, es: seq<Entry>, depth: nat, j: nat) returns (i: nat)
    requires LastOf(es, j)
    ensures i < |RedactEntries(c, es, depth)|
    ensures RedactEntries(c, es, depth)[i] == Entry(es[j].key, RedactEntry(c, es[j], depth))
    decreases |es|
  {
    hide RedactEntry, DictSet;
    var init, last := es[..|es| - 1], es[|es| - 1];
    var out, value := RedactEntries(c, init, depth), RedactEntry(c, last, depth);
    EntriesDistinct(c, init, depth);
    DictSetShape(out, last.key, value);
    if j == |es| - 1 {
      i :| 0 <= i < |DictSet(out, last.key, value)| && DictSet(out, last.key, value)[i] == Entry(last.key, value);
    } else {
      assert init[j] == es[j] && forall l :: j < l < |init| ==> es[l] == init[l];
      assert es[|es| - 1].key != es[j].key;
      i := Target(c, init, depth, j);
    }
  }

  /** With distinct keys the result is the payload, entry by entry. */
  lemma {:induction false} EntriesPointwise(c: Job, es: seq<Entry>, depth: nat)
    requires DistinctKeys(es)
    ensures |RedactEntries(c, es, depth)| == |es|
    ensures forall i :: 0 <= i < |es| ==> RedactEntries(c, es, depth)[i] == Entry(es[i].key, RedactEntry(c, es[i], depth))
    decreases |es|
  {
    hide RedactEntry, DictSet;
    if es != [] {
      var init, last := es[..|es| - 1], es[|es| - 1];
      assert forall i :: 0 <= i < |init| ==> init[i] == es[i];
      EntriesPointwise(c, init, depth);
      var out := RedactEntries(c, init, depth);
      assert forall i :: 0 <= i < |out| ==> out[i].key == es[i].key;
      DictSetNew(out, last.key, RedactEntry(c, last, depth));
    }
  }

  lemma {:induction false} AllAt(c: Job, items: seq<Value>, depth: nat, i: nat)
    requires i < |items|
    ensures RedactAll(c, items, depth)[i] == Redact(c, items[i], depth + 1)
    decreases |items|
  {
    hide Redact;
    if i < |items| - 1 {
      AllAt(c, items[..|items| - 1], depth, i);
    }
  }

  /** An entry that comes out: among the first 200, and overwritten neither by a later one nor by the note. */
  ghost predicate Kept(es: seq<Entry>, j: int) {
    && 0 <= j < |es| && j < MAX_KEYS
    && (forall l :: j < l < |es| && l < MAX_KEYS ==> es[l].key != es[j].key)
    && (|es| > MAX_KEYS ==> es[j].key != TRUNCATED_KEY)
  }

  /** Entries of a redacted mapping: a kept payload entry, or the note on the rest. */
  lemma MappingOrigin(c: Job, es: seq<Entry>, depth: nat, i: nat) returns (j: int)
    requires i < |RedactMapping(c, es, depth)|
    ensures j == -1 || Kept(es, j)
    ensures j == -1 ==> |es| > MAX_KEYS && RedactMapping(c, es, depth)[i] == Entry(TRUNCATED_KEY, Str(MoreKeys(|es| - MAX_KEYS)))
    ensures j >= 0 ==> RedactMapping(c, es, depth)[i] == Entry(es[j].key, RedactEntry(c, es[j], depth))
  {
    hide RedactEntry, RedactEntries, DictSet, MoreKeys;
    if |es| <= MAX_KEYS {
      j := Origin(c, es, depth, i);
    } else {
      var first := es[..MAX_KEYS];
      var out := RedactEntries(c, first, depth);
      EntriesDistinct(c, first, depth);
      DictSetShape(out, TRUNCATED_KEY, Str(MoreKeys(|es| - MAX_KEYS)));
      if RedactMapping(c, es, depth)[i] == Entry(TRUNCATED_KEY, Str(MoreKeys(|es| - MAX_KEYS))) {
        j := -1;
      } else {
        j := Origin(c, first, depth, i);
        assert first[j] == es[j] && forall l :: j < l < |first| ==> first[l] == es[l];
      }
    }
  }

  /** And every kept entry is found in the result. */
  lemma MappingTarget(c: Job, es: seq<Entry>, depth: nat, j: nat) returns (i: nat)
    requires Kept(es, j)
    ensures i < |RedactMapping(c, es, depth)|
    ensures RedactMapping(c, es, depth)[i] == Entry(es[j].key, RedactEntry(c, es[j], depth))
  {
    hide RedactEntry, RedactEntries, DictSet, MoreKeys;
    if |es| <= MAX_KEYS {
      i := Target(c, es, depth, j);
    } else {
      var first := es[..MAX_KEYS];
      assert first[j] == es[j] && forall l :: j < l < |first| ==> first[l] == es[l];
      EntriesDistinct(c, first, depth);
      DictSetShape(RedactEntries(c, first, depth), TRUNCATED_KEY, Str(MoreKeys(|es| - MAX_KEYS)));
      i := Target(c, first, depth, j);
    }
  }

  /** Over the cap the note is there. */
  lemma NoteTarget(c: Job, es: seq<Entry>, depth: nat) returns (i: nat)
    requires |es| > MAX_KEYS
    ensures i < |RedactMapping(c, es, depth)|
    ensures RedactMapping(c, es, depth)[i] == Entry(TRUNCATED_KEY, Str(MoreKeys(|es| - MAX_KEYS)))
  {
    hide RedactEntry, RedactEntries, DictSet, MoreKeys;
    var first, note := es[..MAX_KEYS], Str(MoreKeys(|es| - MAX_KEYS));
    var out := RedactEntries(c, first, depth);
    EntriesDistinct(c, first, depth);
    DictSetShape(out, TRUNCATED_KEY, note);
    i :| 0 <= i < |DictSet(out, TRUNCATED_KEY, note)| && DictSet(out, TRUNCATED_KEY, note)[i] == Entry(TRUNCATED_KEY, note);
  }

  lemma MappingWidth(c: Job, es: seq<Entry>, depth: nat)
    ensures |RedactMapping(c, es, depth)| <= MAX_KEYS + 1
  {
    hide RedactEntry, RedactEntries, DictSet, MoreKeys;
    if |es| <= MAX_KEYS {
      EntriesDistinct(c, es, depth);
    } else {
      EntriesDistinct(c, es[..MAX_KEYS], depth);
      DictSetShape(RedactEntries(c, es[..MAX_KEYS], depth), TRUNCATED_KEY, Str(MoreKeys(|es| - MAX_KEYS)));
    }
  }

  lemma ItemsLength(c: Job, items: seq<Value>, depth: nat)
    ensures |RedactItems(c, items, depth)| == if |items| <= MAX_SEQUENCE_LEN then |items| else MAX_SEQUENCE_LEN + 1
  {
    hide Redact;
  }

  lemma ItemOrigin(c: Job, items: seq<Value>, depth: nat, i: nat)
    requires i < |RedactItems(c, items, depth)|
    ensures |RedactItems(c, items, depth)| <= MAX_SEQUENCE_LEN + 1
    ensures i < MAX_SEQUENCE_LEN ==> i < |items| && RedactItems(c, items, depth)[i] == Redact(c, items[i], depth + 1)
    ensures i >= MAX_SEQUENCE_LEN ==>
              |items| > MAX_SEQUENCE_LEN && RedactItems(c, items, depth)[i] == Str(MoreItems(|items| - MAX_SEQUENCE_LEN))
  {
    hide Redact, RedactAll, MoreItems;
    if |items| <= MAX_SEQUENCE_LEN {
      AllAt(c, items, depth, i);
    } else if i < MAX_SEQUENCE_LEN {
      AllAt(c, items[..MAX_SEQUENCE_LEN], depth, i);
    }
  }
}
