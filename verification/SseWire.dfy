/** Printing frames in the wire format, with inert lines in between, and reading them back. */
module SseWire {
  import opened Text
  import opened SseParser
  import opened SseStandard
  import opened SseChunks

  // ---- the printer -------------------------------------------------------------------------

  predicate WireFrame(f: Frame) {
    LineText(f.event) && CrFree(f.data)
  }

  function DataLines(values: seq<string>): seq<string> {
    if values == [] then [] else ["data: " + values[0]] + DataLines(values[1..])
  }

  function EventLines(event: string): seq<string> {
    if event == "" then [] else ["event: " + event]
  }

  /** An `event` line when there is a name, and one `data` line per line of the data. */
  function FrameLines(f: Frame): seq<string> {
    EventLines(f.event) + DataLines(Split(f.data))
  }

  /** A line that may stand in a block: not blank, and without a line end inside. */
  predicate WireLine(line: string) {
    line != "" && LineText(line)
  }

  predicate WireBlock(lines: seq<string>) {
    lines != [] && forall i :: 0 <= i < |lines| ==> WireLine(lines[i])
  }

  function PrintBlock(lines: seq<string>): string {
    Join(lines) + "\n\n"
  }

  function PrintBlocks(blocks: seq<seq<string>>): string {
    if blocks == [] then "" else PrintBlock(blocks[0]) + PrintBlocks(blocks[1..])
  }

  // ---- lines that carry nothing ------------------------------------------------------------

  function FieldName(line: string): string {
    if IndexOf(line, ':') == -1 then line else line[..IndexOf(line, ':')]
  }

  /** A comment (keep-alive) line, or a field that is neither `event` nor `data`. */
  predicate Inert(line: string) {
    line == "" || line[0] == ':' || (FieldName(line) != "event" && FieldName(line) != "data")
  }

  function Telling(lines: seq<string>): seq<string> {
    if lines == [] then []
    else if Inert(lines[0]) then Telling(lines[1..])
    else [lines[0]] + Telling(lines[1..])
  }

  /** The telling lines of every block, without the blocks that are inert as a whole. */
  function TellingBlocks(blocks: seq<seq<string>>): seq<seq<string>> {
    if blocks == [] then []
    else if Telling(blocks[0]) == [] then TellingBlocks(blocks[1..])
    else [Telling(blocks[0])] + TellingBlocks(blocks[1..])
  }

  lemma {:induction false} InertLinesChangeNothing(b: Block, lines: seq<string>)
    ensures ApplyLines(b, Telling(lines)) == ApplyLines(b, lines)
    decreases |lines|
  {
    if lines != [] {
      InertLinesChangeNothing(ApplyLine(b, lines[0]), lines[1..]);
      hide ApplyLines;
      assert lines == [lines[0]] + lines[1..];
      ApplyLinesCons(b, lines[0], lines[1..]);
      ApplyLinesCons(b, lines[0], Telling(lines[1..]));
    }
  }

  // ---- one printed block is cut out as one block -------------------------------------------

  lemma {:induction false} SplitJoin(lines: seq<string>)
    requires lines != [] && forall i :: 0 <= i < |lines| ==> LfFree(lines[i])
    ensures Split(Join(lines)) == lines
  {
    hide Split;
    if |lines| == 1 {
      SplitLfFreeLine(lines[0]);
    } else {
      SplitJoin(lines[1..]);
      SplitAt(lines[0], Join(lines[1..]));
    }
  }

  lemma {:induction false} JoinHasNoBlankLine(lines: seq<string>)
    requires WireBlock(lines)
    ensures var raw := Join(lines);
            CrFree(raw) && Separator(raw) == -1 && raw != "" && raw[0] != '\n' && raw[|raw| - 1] != '\n'
  {
    assert WireLine(lines[0]);
    if |lines| == 1 {
      assert forall i :: 0 <= i < |lines[0]| ==> lines[0][i] != '\n';
    } else {
      var rest := lines[1..];
      assert forall i :: 0 <= i < |rest| ==> rest[i] == lines[i + 1];
      JoinHasNoBlankLine(rest);
      NoBlankBetween(lines[0], Join(rest));
    }
  }

  lemma NoBlankBetween(line: string, raw: string)
    requires WireLine(line) && Separator(raw) == -1 && raw != "" && raw[0] != '\n'
    ensures Separator(line + "\n" + raw) == -1
  {
    hide Inert, FieldName;
    var t, k := line + "\n" + raw, |line|;
    assert forall i :: 0 <= i < k ==> t[i] == line[i];
    assert forall i :: 0 <= i < |raw| ==> t[k + 1 + i] == raw[i];
    forall i ensures !BlankLineAt(t, i) {
      if i == k {
        assert t[k + 1 + 0] == raw[0];
      } else if i > k && i < |t| - 1 {
        assert t[k + 1 + (i - k - 1)] == raw[i - k - 1] && t[k + 1 + (i - k)] == raw[i - k];
        assert !BlankLineAt(raw, i - k - 1);
      }
    }
  }

  lemma CutPrintedBlock(lines: seq<string>, rest: string)
    requires WireBlock(lines)
    ensures Cut(PrintBlock(lines) + rest) == Behind([ApplyLines(EMPTY_BLOCK, lines)], Cut(rest))
  {
    hide Cut, ApplyLines, Separator, Split;
    JoinHasNoBlankLine(lines);
    OneBlock(Join(lines), rest);
    forall i | 0 <= i < |lines| ensures LfFree(lines[i]) { assert WireLine(lines[i]); }
    SplitJoin(lines);
  }

  // ---- one printed frame is read back as that frame ----------------------------------------

  lemma DataLineTells(v: string)
    ensures !Inert("data: " + v)
    ensures forall b: Block :: ApplyLine(b, "data: " + v) == b.(data := b.data + [v])
  {
    forall b: Block ensures ApplyLine(b, "data: " + v) == b.(data := b.data + [v]) { DataLine(b, v); }
    var line := "data: " + v;
    IndexOfIs(line, ':', 4);
    assert line[..4] == "data";
  }

  lemma EventLineTells(v: string)
    ensures !Inert("event: " + v)
    ensures forall b: Block :: ApplyLine(b, "event: " + v) == b.(event := v)
  {
    var line := "event: " + v;
    assert line[5] == ':';
    IndexOfIs(line, ':', 5);
    assert line[..5] == "event";
    assert line[6..] == " " + v;
    assert (" " + v)[1..] == v;
  }

  /**
   * FIELDS: the name is what stands before the first colon, one space after it is dropped, and a line
   * without a colon is a name with an empty value; the last `event` counts, every `data` is collected.
   */
  lemma FieldLineExactly(b: Block, field: string, value: string)
    requires field != "" && ':' !in field
    ensures value != "" && value[0] == ' ' ==>
              ApplyLine(b, field + ":" + value) == FieldApplied(b, field, value[1..])
    ensures value == "" || value[0] != ' ' ==>
              ApplyLine(b, field + ":" + value) == FieldApplied(b, field, value)
    ensures ApplyLine(b, field) == FieldApplied(b, field, "")
  {
    var line := field + ":" + value;
    assert line[|field|] == ':' && forall i :: 0 <= i < |field| ==> line[i] == field[i];
    IndexOfIs(line, ':', |field|);
    assert line[..|field|] == field && line[|field| + 1..] == value;
  }

  function FieldApplied(b: Block, field: string, value: string): Block {
    if field == "event" then Block(value, b.data)
    else if field == "data" then Block(b.event, b.data + [value])
    else b
  }

  lemma CommentLineExactly(b: Block, text: string)
    ensures ApplyLine(b, ":" + text) == b && ApplyLine(b, "") == b
  {
  }

  lemma {:induction false} DataLinesRead(b: Block, values: seq<string>)
    ensures ApplyLines(b, DataLines(values)) == b.(data := b.data + values)
    decreases |values|
  {
    if values == [] {
      Empty(b.data);
    } else {
      hide ApplyLines, ApplyLine;
      var b' := b.(data := b.data + [values[0]]);
      DataLineTells(values[0]);
      DataLinesRead(b', values[1..]);
      ApplyLinesCons(b, "data: " + values[0], DataLines(values[1..]));
      Assoc(b.data, [values[0]], values[1..]);
      assert [values[0]] + values[1..] == values;
    }
  }

  lemma FrameLinesRead(f: Frame)
    ensures ApplyLines(EMPTY_BLOCK, FrameLines(f)) == Block(f.event, Split(f.data))
    ensures FrameOf(Block(f.event, Split(f.data))) == f
  {
    hide ApplyLines, ApplyLine, Split, DataLines;
    DataLinesRead(Block(f.event, []), Split(f.data));
    Empty(Split(f.data));
    if f.event == "" {
      Empty(DataLines(Split(f.data)));
    } else {
      EventLineTells(f.event);
      ApplyLinesCons(EMPTY_BLOCK, "event: " + f.event, DataLines(Split(f.data)));
    }
    JoinSplit(f.data);
  }

  // ---- whole streams -----------------------------------------------------------------------

  /** Every block of the wire, inert or not, yields the frames of its telling lines. */
  lemma {:induction false} PrintedBlocksRead(frames: seq<Frame>, blocks: seq<seq<string>>)
    requires forall i :: 0 <= i < |blocks| ==> WireBlock(blocks[i])
    requires TellingBlocks(blocks) == Printed(frames)
    ensures Frames(Cut(PrintBlocks(blocks)).blocks) == frames && Cut(PrintBlocks(blocks)).rest == ""
    decreases |blocks|
  {
    hide Cut, ApplyLines, ApplyLine, FrameLines, Telling, PrintBlock, Frames;
    if blocks == [] {
      CutLineFeeds();
      FramesNothing();
    } else {
      var block, later := blocks[0], blocks[1..];
      assert forall i :: 0 <= i < |later| ==> later[i] == blocks[i + 1];
      CutPrintedBlock(block, PrintBlocks(later));
      InertLinesChangeNothing(EMPTY_BLOCK, block);
      var b := ApplyLines(EMPTY_BLOCK, block);
      FramesAppend([b], Cut(PrintBlocks(later)).blocks);
      FramesOfTwo(b, b);
      if Telling(block) == [] {
        ApplyNothing();
        PrintedBlocksRead(frames, later);
        Empty(frames);
      } else {
        assert Printed(frames)[0] == Telling(block) && Printed(frames)[1..] == TellingBlocks(later);
        FrameLinesRead(frames[0]);
        PrintedBlocksRead(frames[1..], later);
        assert [frames[0]] + frames[1..] == frames;
      }
    }
  }

  lemma FramesNothing()
    ensures Frames([]) == []
  {
  }

  lemma ApplyNothing()
    ensures ApplyLines(EMPTY_BLOCK, []) == EMPTY_BLOCK
  {
  }

  function Printed(frames: seq<Frame>): seq<seq<string>> {
    if frames == [] then [] else [FrameLines(frames[0])] + Printed(frames[1..])
  }

  lemma {:induction false} CrFreeHasNoPairs(chunks: seq<string>)
    requires CrFree(Concat(chunks))
    ensures PairCuts(chunks) == 0
  {
    if chunks != [] {
      var later := Concat(chunks[1..]);
      assert forall i :: 0 <= i < |chunks[0]| ==> chunks[0][i] == Concat(chunks)[i];
      assert forall i :: 0 <= i < |later| ==> later[i] == Concat(chunks)[|chunks[0]| + i];
      CrFreeHasNoPairs(chunks[1..]);
    }
  }

  lemma {:induction false} PrintBlocksCrFree(blocks: seq<seq<string>>)
    requires forall i :: 0 <= i < |blocks| ==> WireBlock(blocks[i])
    ensures CrFree(PrintBlocks(blocks))
  {
    if blocks != [] {
      assert forall i :: 0 <= i < |blocks[1..]| ==> blocks[1..][i] == blocks[i + 1];
      PrintBlocksCrFree(blocks[1..]);
      JoinHasNoBlankLine(blocks[0]);
    }
  }

  /**
   * ROUND TRIP: frames printed line by line, with comments, keep-alive blocks and unknown fields put
   * in anywhere, and cut into chunks anywhere, are read back exactly; nothing stays in the buffer.
   */
  lemma WireRoundTrip(frames: seq<Frame>, blocks: seq<seq<string>>, chunks: seq<string>)
    requires forall i :: 0 <= i < |blocks| ==> WireBlock(blocks[i])
    requires TellingBlocks(blocks) == Printed(frames)
    requires Concat(chunks) == PrintBlocks(blocks)
    ensures FeedAll("", chunks) == Run(frames, "")
  {
    hide Cut, FeedAll, Normalise, PairCuts, PrintBlocks, Frames;
    PrintBlocksCrFree(blocks);
    CrFreeHasNoPairs(chunks);
    ChunkingIndependence(chunks);
    TwoChunks(Concat(chunks), "");
    NormaliseId(Concat(chunks));
    PrintedBlocksRead(frames, blocks);
  }

  /** Any list of wire frames can be printed: the plain printing meets the round trip's conditions. */
  lemma {:induction false} PlainPrinting(frames: seq<Frame>)
    requires forall i :: 0 <= i < |frames| ==> WireFrame(frames[i])
    ensures forall i :: 0 <= i < |Printed(frames)| ==> WireBlock(Printed(frames)[i])
    ensures TellingBlocks(Printed(frames)) == Printed(frames)
  {
    hide FrameLines, Telling;
    if frames != [] {
      var later := frames[1..];
      assert forall i :: 0 <= i < |later| ==> later[i] == frames[i + 1];
      PlainPrinting(later);
      FrameLinesTell(frames[0]);
      assert Printed(frames)[1..] == Printed(later);
    }
  }

  lemma {:induction false} DataLinesTell(values: seq<string>)
    requires forall i :: 0 <= i < |values| ==> LineText(values[i])
    ensures Telling(DataLines(values)) == DataLines(values)
    ensures |DataLines(values)| == |values|
    ensures forall i :: 0 <= i < |values| ==> WireLine(DataLines(values)[i])
  {
    if values != [] {
      assert forall i :: 0 <= i < |values[1..]| ==> values[1..][i] == values[i + 1];
      DataLinesTell(values[1..]);
      DataLineTells(values[0]);
      DataLineIsLineText(values[0]);
      assert DataLines(values)[1..] == DataLines(values[1..]);
    }
  }

  lemma FrameLinesTell(f: Frame)
    requires WireFrame(f)
    ensures WireBlock(FrameLines(f)) && Telling(FrameLines(f)) == FrameLines(f)
  {
    hide DataLines, Inert, Split;
    SplitLineText(f.data);
    DataLinesTell(Split(f.data));
    var lines := DataLines(Split(f.data));
    if f.event == "" {
      Empty(lines);
    } else {
      EventLineTells(f.event);
      assert ("event: " + f.event) != "" && LineText("event: " + f.event);
      assert FrameLines(f)[1..] == lines;
    }
  }

  lemma {:induction false} SplitLineText(s: string)
    requires CrFree(s)
    ensures |Split(s)| >= 1 && forall i :: 0 <= i < |Split(s)| ==> LineText(Split(s)[i])
    decreases |s|
  {
    var k := IndexOf(s, '\n');
    if k != -1 { SplitLineText(s[k + 1..]); }
  }
}
