/**
 * The event stream interpretation of the WHATWG HTML Living Standard (sections 9.2.5 and 9.2.6),
 * restricted to the `event` and `data` fields, and the proof that the block cutter refines it.
 */
module SseStandard {
  import opened Text
  import opened SseParser

  /** The standard's event type buffer and data buffer; each data line is stored with an LF after it. */
  datatype Buffers = Buffers(eventType: string, data: string)

  const RESET := Buffers("", "")

  function ProcessField(st: Buffers, field: string, value: string): Buffers {
    if field == "event" then st.(eventType := value)
    else if field == "data" then st.(data := st.data + value + "\n")
    else st
  }

  function ProcessLine(st: Buffers, line: string): Buffers
    requires line != ""
  {
    if line[0] == ':' then st
    else
      var colon := IndexOf(line, ':');
      if colon == -1 then ProcessField(st, line, "")
      else
        var value := line[colon + 1..];
        ProcessField(st, line[..colon], if value != "" && value[0] == ' ' then value[1..] else value)
  }

  /** Dispatching: an empty data buffer only resets, otherwise the last LF of the buffer goes. */
  function Dispatch(st: Buffers): seq<Frame> {
    if st.data == "" then [] else [Frame(st.eventType, st.data[..|st.data| - 1])]
  }

  /** Position of the first line end: a CR or an LF. */
  function LineEnd(s: string): (r: int)
    ensures -1 <= r < |s|
    ensures r >= 0 ==> s[r] == '\n' || s[r] == '\r'
    ensures forall i :: 0 <= i < |s| && (s[i] == '\n' || s[i] == '\r') ==> 0 <= r <= i
  {
    if s == [] then -1
    else if s[0] == '\n' || s[0] == '\r' then 0
    else
      var t := LineEnd(s[1..]);
      if t == -1 then
        assert forall i :: 0 < i < |s| ==> s[i] == s[1..][i - 1];
        -1
      else t + 1
  }

  /** A CR LF pair ends one line, and so does a lone CR or a lone LF. */
  function AfterLineEnd(text: string, k: nat): (rest: string)
    requires k < |text|
    ensures |rest| < |text|
  {
    if text[k] == '\r' && k + 1 < |text| && text[k + 1] == '\n' then text[k + 2..] else text[k + 1..]
  }

  /** Line by line over raw text; an unterminated last line, and buffers never dispatched, are discarded. */
  function Interpret(text: string, st: Buffers): seq<Frame>
    decreases |text|
  {
    var k := LineEnd(text);
    if k == -1 then []
    else if k == 0 then Dispatch(st) + Interpret(AfterLineEnd(text, k), RESET)
    else Interpret(AfterLineEnd(text, k), ProcessLine(st, text[..k]))
  }

  // ---- normalisation is the standard's line-end rule -----------------------------------

  lemma NormaliseStep(s: string)
    requires s != []
    ensures s[0] == '\r' && |s| > 1 && s[1] == '\n' ==> Normalise(s) == "\n" + Normalise(s[2..])
    ensures s[0] == '\r' && !(|s| > 1 && s[1] == '\n') ==> Normalise(s) == "\n" + Normalise(s[1..])
    ensures s[0] != '\r' ==> Normalise(s) == [s[0]] + Normalise(s[1..])
  {
    if s[0] == '\r' && |s| > 1 && s[1] == '\n' {
      assert ("\n" + ReplaceCrLf(s[2..]))[1..] == ReplaceCrLf(s[2..]);
    } else {
      assert ([s[0]] + ReplaceCrLf(s[1..]))[1..] == ReplaceCrLf(s[1..]);
    }
  }

  predicate CrFree(s: string) {
    '\r' !in s
  }

  lemma {:induction false} NormaliseCrFree(s: string)
    ensures CrFree(Normalise(s))
    decreases |s|
  {
    if s != [] {
      NormaliseStep(s);
      if s[0] == '\r' && |s| > 1 && s[1] == '\n' { NormaliseCrFree(s[2..]); } else { NormaliseCrFree(s[1..]); }
    }
  }

  lemma {:induction false} NormaliseId(s: string)
    requires CrFree(s)
    ensures Normalise(s) == s
  {
    if s != [] {
      NormaliseStep(s);
      NormaliseId(s[1..]);
    }
  }

  /** Up to its first line end a text is left alone; the line end itself becomes one LF. */
  lemma {:induction false} NormaliseFirstLine(text: string)
    ensures var k := LineEnd(text);
            if k == -1 then Normalise(text) == text
            else Normalise(text) == text[..k] + "\n" + Normalise(AfterLineEnd(text, k))
  {
    hide Normalise, LineEnd, AfterLineEnd;
    var k := LineEnd(text);
    if k == -1 {
      assert CrFree(text);
      NormaliseId(text);
    } else if k == 0 {
      NormaliseLineEnd(text);
      Empty("\n" + Normalise(AfterLineEnd(text, 0)));
    } else {
      NormaliseStep(text);
      LineEndTail(text);
      NormaliseFirstLine(text[1..]);
      PutInFront(text, k, "\n", Normalise(AfterLineEnd(text, k)));
    }
  }

  lemma NormaliseLineEnd(text: string)
    requires LineEnd(text) == 0
    ensures Normalise(text) == text[..0] + "\n" + Normalise(AfterLineEnd(text, 0))
  {
    hide Normalise;
    NormaliseStep(text);
    Empty("\n");
  }

  lemma PutInFront(text: string, k: nat, end: string, rest: string)
    requires 0 < k <= |text|
    ensures [text[0]] + (text[1..][..k - 1] + end + rest) == text[..k] + end + rest
  {
    var p := text[1..][..k - 1];
    assert text[..k] == [text[0]] + p;
    Assoc([text[0]], p, end);
    Assoc([text[0]], p + end, rest);
  }

  lemma LineEndTail(text: string)
    requires LineEnd(text) > 0
    ensures LineEnd(text[1..]) == LineEnd(text) - 1
    ensures AfterLineEnd(text[1..], LineEnd(text) - 1) == AfterLineEnd(text, LineEnd(text))
  {
  }

  /** The standard reads the same frames from a text and from its normalised form. */
  lemma {:induction false} InterpretNormalised(text: string, st: Buffers)
    ensures Interpret(Normalise(text), st) == Interpret(text, st)
    decreases |text|
  {
    var k := LineEnd(text);
    NormaliseFirstLine(text);
    if k != -1 {
      var rest := AfterLineEnd(text, k);
      var n := Normalise(text);
      assert n[k] == '\n';
      assert n[..k] == text[..k];
      assert forall i :: 0 <= i < k ==> n[i] == text[..k][i];
      assert LineEnd(n) == k;
      assert AfterLineEnd(n, k) == Normalise(rest);
      InterpretNormalised(rest, if k == 0 then RESET else ProcessLine(st, text[..k]));
    }
  }

  // ---- the block cutter against the standard --------------------------------------------

  function Terminated(lines: seq<string>): string {
    if lines == [] then "" else Terminated(lines[..|lines| - 1]) + lines[|lines| - 1] + "\n"
  }

  /** The buffers the standard holds once the lines collected in `b` were processed. */
  function BuffersOf(b: Block): Buffers {
    Buffers(b.event, Terminated(b.data))
  }

  /** Blocks the standard dispatches: exactly those that collected a data line. */
  function Dispatched(blocks: seq<Block>): seq<Frame> {
    if blocks == [] then []
    else (if |blocks[0].data| > 0 then [FrameOf(blocks[0])] else []) + Dispatched(blocks[1..])
  }

  lemma {:induction false} JoinSnoc(lines: seq<string>, last: string)
    requires lines != []
    ensures Join(lines + [last]) == Join(lines) + "\n" + last
  {
    assert (lines + [last])[1..] == lines[1..] + [last];
    if |lines| > 1 { JoinSnoc(lines[1..], last); }
  }

  lemma {:induction false} TerminatedIsJoin(lines: seq<string>)
    requires lines != []
    ensures Terminated(lines) == Join(lines) + "\n"
  {
    var init, last := lines[..|lines| - 1], lines[|lines| - 1];
    assert lines == init + [last];
    if init != [] {
      TerminatedIsJoin(init);
      JoinSnoc(init, last);
    }
  }

  lemma DispatchOf(b: Block)
    ensures Dispatch(BuffersOf(b)) == Dispatched([b])
  {
    if b.data != [] {
      TerminatedIsJoin(b.data);
      assert Terminated(b.data)[..|Join(b.data)|] == Join(b.data);
    }
  }

  lemma ProcessLineOf(b: Block, line: string)
    requires line != ""
    ensures ProcessLine(BuffersOf(b), line) == BuffersOf(ApplyLine(b, line))
  {
    var c := ApplyLine(b, line);
    if c.data != b.data {
      assert c.data[..|c.data| - 1] == b.data;
    }
  }

  /**
   * One block at a time: from the start of a line, with the lines of `b` behind it, the standard
   * dispatches nothing before the first blank line, then the block if it has data, then starts afresh.
   */
  lemma {:induction false} InterpretBlock(t: string, b: Block)
    requires CrFree(t)
    requires t == [] || t[0] != '\n' || b == EMPTY_BLOCK
    ensures Interpret(t, BuffersOf(b)) == AfterBlock(t, b)
    decreases |t|
  {
    hide Interpret, AfterBlock, Separator, ApplyLine;
    var k := LineEnd(t);
    if k == -1 {
      NoLine(t, b);
    } else {
      var t' := t[k + 1..];
      InterpretLine(t, b);
      if t' != [] && t'[0] == '\n' {
        BlockEnds(t, b);
      } else {
        InterpretBlock(t', FirstLine(t, b));
        BlockContinues(t, b);
      }
    }
  }

  lemma NoLine(t: string, b: Block)
    requires LineEnd(t) == -1
    ensures Interpret(t, BuffersOf(b)) == AfterBlock(t, b)
  {
    assert Separator(t) == -1;
  }

  /** What is left to dispatch: the block up to the first blank line, then the text behind it. */
  ghost function AfterBlock(t: string, b: Block): seq<Frame> {
    var i := Separator(t);
    if i == -1 then []
    else Dispatched([ApplyLines(b, Split(t[..i]))]) + Interpret(t[i + 2..], RESET)
  }

  /** The block after the first line of `t` (an empty line can only open a block). */
  ghost function FirstLine(t: string, b: Block): Block
    requires LineEnd(t) != -1
  {
    if LineEnd(t) == 0 then b else ApplyLine(b, t[..LineEnd(t)])
  }

  lemma SliceOfSlice(t: string, i: nat, j: nat)
    requires i + j <= |t|
    ensures t[i..][j..] == t[i + j..]
  {
  }

  lemma FirstLineApplied(t: string, b: Block)
    requires LineEnd(t) != -1
    ensures FirstLine(t, b) == ApplyLine(b, t[..LineEnd(t)])
  {
  }

  lemma InterpretLine(t: string, b: Block)
    requires CrFree(t) && LineEnd(t) != -1
    requires t[0] != '\n' || b == EMPTY_BLOCK
    ensures Interpret(t, BuffersOf(b)) == Interpret(t[LineEnd(t) + 1..], BuffersOf(FirstLine(t, b)))
  {
    if LineEnd(t) > 0 { ProcessLineOf(b, t[..LineEnd(t)]); } else { DispatchOf(b); }
  }

  lemma BlockEnds(t: string, b: Block)
    requires CrFree(t) && LineEnd(t) != -1 && BlankLineAt(t, LineEnd(t))
    ensures Interpret(t[LineEnd(t) + 1..], BuffersOf(FirstLine(t, b))) == AfterBlock(t, b)
  {
    var k := LineEnd(t);
    SeparatorIs(t, k);
    assert IndexOf(t[..k], '\n') == -1;
    assert Split(t[..k]) == [t[..k]];
    assert ApplyLines(b, [t[..k]]) == FirstLine(t, b);
    DispatchOf(FirstLine(t, b));
    var t' := t[k + 1..];
    assert LineEnd(t') == 0;
    assert AfterLineEnd(t', 0) == t[k + 2..];
  }

  lemma BlockContinues(t: string, b: Block)
    requires CrFree(t) && LineEnd(t) != -1 && !BlankLineAt(t, LineEnd(t))
    ensures AfterBlock(t, b) == AfterBlock(t[LineEnd(t) + 1..], FirstLine(t, b))
  {
    hide AfterBlock, Separator, LineEnd, FirstLine, Dispatched, Interpret, Split, ApplyLine, ApplyLines;
    var k, i := LineEnd(t), Separator(t);
    var u := t[k + 1..];
    SeparatorAfterLine(t, k);
    if i == -1 {
      NothingAfter(t, b);
      NothingAfter(u, FirstLine(t, b));
    } else {
      LinesAfterFirst(t, b, i);
      SliceOfSlice(t, k + 1, i - k + 1);
      AfterSeparator(t, b, i);
      AfterSeparator(u, FirstLine(t, b), i - k - 1);
    }
  }

  lemma NothingAfter(t: string, b: Block)
    requires Separator(t) == -1
    ensures AfterBlock(t, b) == []
  {
  }

  lemma AfterSeparator(t: string, b: Block, i: nat)
    requires Separator(t) == i
    ensures AfterBlock(t, b) == Dispatched([ApplyLines(b, Split(t[..i]))]) + Interpret(t[i + 2..], RESET)
  {
  }

  /** Reading a block line by line: the first line, then the others. */
  lemma LinesAfterFirst(t: string, b: Block, i: nat)
    requires CrFree(t) && LineEnd(t) != -1 && LineEnd(t) < i <= |t|
    ensures var k := LineEnd(t);
            ApplyLines(b, Split(t[..i])) == ApplyLines(FirstLine(t, b), Split(t[k + 1..][..i - k - 1]))
  {
    hide Split, ApplyLine, ApplyLines, LineEnd, FirstLine;
    var k := LineEnd(t);
    FirstLineApplied(t, b);
    SplitFirst(t, k, i);
    ApplyLinesCons(b, t[..k], Split(t[k + 1..][..i - k - 1]));
  }

  lemma SeparatorAfterLine(t: string, k: nat)
    requires k < |t| && t[k] == '\n' && forall i :: 0 <= i < k ==> t[i] != '\n'
    requires k + 1 == |t| || t[k + 1] != '\n'
    ensures Separator(t) == if Separator(t[k + 1..]) == -1 then -1 else Separator(t[k + 1..]) + k + 1
  {
    var u := t[k + 1..];
    assert forall i :: BlankLineAt(t, i) ==> i > k && BlankLineAt(u, i - k - 1);
    if Separator(u) != -1 {
      assert BlankLineAt(t, Separator(u) + k + 1);
    }
  }

  lemma SplitFirst(t: string, k: nat, i: nat)
    requires k < i <= |t| && t[k] == '\n' && forall j :: 0 <= j < k ==> t[j] != '\n'
    ensures Split(t[..i]) == [t[..k]] + Split(t[k + 1..][..i - k - 1])
  {
    assert IndexOf(t[..i], '\n') == k;
    assert t[..i][..k] == t[..k];
    assert t[..i][k + 1..] == t[k + 1..][..i - k - 1];
  }

  /** REFINEMENT: on any text the cutter closes exactly the blocks the standard dispatches. */
  lemma {:induction false} CutRefinesStandard(t: string)
    requires CrFree(t)
    ensures Interpret(t, RESET) == Dispatched(Cut(t).blocks)
    decreases |t|
  {
    hide Interpret, Separator, ApplyLines, Split, Dispatched;
    InterpretBlock(t, EMPTY_BLOCK);
    assert BuffersOf(EMPTY_BLOCK) == RESET;
    var i := Separator(t);
    if i == -1 {
      NothingDispatched();
    } else {
      CutRefinesStandard(t[i + 2..]);
      DispatchedCons(ParseBlock(t[..i]), Cut(t[i + 2..]).blocks);
    }
  }

  /** The same from raw text, whatever its line ends: cutting the normalised text refines the standard. */
  lemma RawTextRefinesStandard(text: string)
    ensures Interpret(text, RESET) == Dispatched(Cut(Normalise(text)).blocks)
  {
    hide Interpret, Normalise, Cut, Dispatched;
    NormaliseCrFree(text);
    CutRefinesStandard(Normalise(text));
    InterpretNormalised(text, RESET);
  }

  lemma NothingDispatched()
    ensures Dispatched([]) == []
  {
  }

  lemma DispatchedCons(first: Block, later: seq<Block>)
    ensures Dispatched([first] + later) == Dispatched([first]) + Dispatched(later)
  {
    assert ([first] + later)[1..] == later;
    assert [first][1..] == [];
  }
}
