/** The incremental block-cutting frame parser of the agent stream (sse.ts, createSseParser). */
module SseParser {
  import opened Text

  datatype Frame = Frame(event: string, data: string)

  // ---- newline normalisation, chunk by chunk -------------------------------------------

  /** Every CR LF pair, left to right, becomes one LF. */
  function ReplaceCrLf(s: string): string {
    if s == [] then []
    else if s[0] == '\r' && |s| > 1 && s[1] == '\n' then "\n" + ReplaceCrLf(s[2..])
    else [s[0]] + ReplaceCrLf(s[1..])
  }

  /** Every CR becomes one LF. */
  function ReplaceCr(s: string): string {
    if s == [] then [] else [if s[0] == '\r' then '\n' else s[0]] + ReplaceCr(s[1..])
  }

  function Normalise(chunk: string): string {
    ReplaceCr(ReplaceCrLf(chunk))
  }

  // ---- one block of lines ---------------------------------------------------------------

  /** What one block has collected: the last event name and the data lines in order. */
  datatype Block = Block(event: string, data: seq<string>)

  const EMPTY_BLOCK := Block("", [])

  function ApplyLine(b: Block, line: string): Block {
    if line == "" || line[0] == ':' then b
    else
      var colon := IndexOf(line, ':');
      var field := if colon == -1 then line else line[..colon];
      var rawValue := if colon == -1 then "" else line[colon + 1..];
      var value := if rawValue != "" && rawValue[0] == ' ' then rawValue[1..] else rawValue;
      if field == "event" then b.(event := value)
      else if field == "data" then b.(data := b.data + [value])
      else b
  }

  function ApplyLines(b: Block, lines: seq<string>): Block
    decreases |lines|
  {
    if lines == [] then b else ApplyLines(ApplyLine(b, lines[0]), lines[1..])
  }

  lemma ApplyLinesCons(b: Block, line: string, later: seq<string>)
    ensures ApplyLines(b, [line] + later) == ApplyLines(ApplyLine(b, line), later)
    ensures ApplyLines(b, [line]) == ApplyLine(b, line)
  {
    hide ApplyLine;
    assert ([line] + later)[1..] == later;
    assert [line][1..] == [];
  }

  function ParseBlock(raw: string): Block {
    ApplyLines(EMPTY_BLOCK, Split(raw))
  }

  predicate Emitted(b: Block) {
    |b.data| > 0 || b.event != ""
  }

  function FrameOf(b: Block): Frame {
    Frame(b.event, Join(b.data))
  }

  /** The frame of one block, if it is emitted at all. */
  function Frames1(b: Block): seq<Frame> {
    if Emitted(b) then [FrameOf(b)] else []
  }

  function Frames(blocks: seq<Block>): seq<Frame> {
    if blocks == [] then [] else Frames1(blocks[0]) + Frames(blocks[1..])
  }

  lemma {:induction false} FramesAppend(a: seq<Block>, b: seq<Block>)
    ensures Frames(a + b) == Frames(a) + Frames(b)
  {
    if a == [] {
      Empty(b);
      Empty(Frames(b));
    } else {
      Tail(a, b);
      FramesAppend(a[1..], b);
      Assoc(Frames1(a[0]), Frames(a[1..]), Frames(b));
    }
  }

  lemma FramesSnoc(done: seq<Block>, b: Block)
    ensures Emitted(b) ==> Frames(done + [b]) == Frames(done) + [FrameOf(b)]
    ensures !Emitted(b) ==> Frames(done + [b]) == Frames(done)
  {
    FramesAppend(done, [b]);
    assert [b][1..] == [];
    Empty(Frames1(b));
    Empty(Frames(done));
  }

  // ---- cutting a buffer at blank lines --------------------------------------------------

  predicate BlankLineAt(s: string, i: int) {
    0 <= i < |s| - 1 && s[i] == '\n' && s[i + 1] == '\n'
  }

  /** Position of the first two adjacent line feeds, or -1. */
  function Separator(s: string): (r: int)
    ensures r == -1 || BlankLineAt(s, r)
    ensures forall i :: BlankLineAt(s, i) ==> 0 <= r <= i
  {
    if |s| < 2 then -1
    else if s[0] == '\n' && s[1] == '\n' then 0
    else
      var t := Separator(s[1..]);
      assert forall i :: BlankLineAt(s, i) ==> i > 0 && BlankLineAt(s[1..], i - 1);
      if t == -1 then -1 else t + 1
  }

  lemma SeparatorIs(s: string, k: nat)
    requires BlankLineAt(s, k)
    requires forall i :: BlankLineAt(s, i) ==> k <= i
    ensures Separator(s) == k
  {
  }

  datatype Parsed = Parsed(blocks: seq<Block>, rest: string)

  /** All blocks closed by a blank line, and the text after the last one. */
  function Cut(text: string): (p: Parsed)
    ensures Separator(p.rest) == -1
    decreases |text|
  {
    var i := Separator(text);
    if i == -1 then Parsed([], text)
    else
      Behind([ParseBlock(text[..i])], Cut(text[i + 2..]))
  }

  /** The raw blocks, each with its blank line behind it. */
  function Closing(raws: seq<string>): string {
    if raws == [] then "" else raws[0] + "\n\n" + Closing(raws[1..])
  }

  /** A text that neither holds a blank line nor lets one begin at its end. */
  predicate Unbroken(raw: string) {
    Separator(raw) == -1 && (raw != "" ==> raw[|raw| - 1] != '\n')
  }

  /** The text is its raw blocks, each closed by the first blank line there is, and then the leftover. */
  lemma {:induction false} CutPlaces(text: string) returns (raws: seq<string>)
    ensures text == Closing(raws) + Cut(text).rest
    ensures |raws| == |Cut(text).blocks|
    ensures forall n :: 0 <= n < |raws| ==> Unbroken(raws[n]) && Cut(text).blocks[n] == ParseBlock(raws[n])
    decreases |text|
  {
    hide ParseBlock, Unbroken, Separator, Closing, Cut;
    CutUnfold(text);
    var i := Separator(text);
    if i == -1 {
      raws := [];
      ClosingNothing(text);
    } else {
      var first, later := text[..i], text[i + 2..];
      var others := CutPlaces(later);
      raws := [first] + others;
      FirstUnbroken(text, i);
      ClosingCons(first, others, Cut(later).rest);
      assert forall n :: 0 < n < |raws| ==> raws[n] == others[n - 1] && Cut(text).blocks[n] == Cut(later).blocks[n - 1];
    }
  }

  lemma CutUnfold(text: string)
    ensures var i := Separator(text);
            if i == -1 then Cut(text) == Parsed([], text)
            else Cut(text) == Parsed([ParseBlock(text[..i])] + Cut(text[i + 2..]).blocks, Cut(text[i + 2..]).rest)
  {
  }

  lemma ClosingNothing(rest: string)
    ensures Closing([]) + rest == rest
  {
  }

  lemma ClosingCons(first: string, others: seq<string>, rest: string)
    ensures Closing([first] + others) + rest == first + "\n\n" + (Closing(others) + rest)
  {
    hide Closing;
    ClosingUnfold(first, others);
    Assoc(first + "\n\n", Closing(others), rest);
  }

  lemma ClosingUnfold(first: string, others: seq<string>)
    ensures Closing([first] + others) == first + "\n\n" + Closing(others)
  {
    Tail([first], others);
    Empty(others);
  }

  lemma FirstUnbroken(text: string, i: nat)
    requires Separator(text) == i
    ensures Unbroken(text[..i]) && text == text[..i] + "\n\n" + text[i + 2..]
  {
    assert forall k :: BlankLineAt(text[..i], k) ==> BlankLineAt(text, k);
    assert i > 0 ==> !BlankLineAt(text, i - 1);
  }

  function Behind(blocks: seq<Block>, p: Parsed): Parsed {
    Parsed(blocks + p.blocks, p.rest)
  }

  lemma BehindBehind(a: seq<Block>, b: seq<Block>, p: Parsed)
    ensures Behind(a, Behind(b, p)) == Behind(a + b, p)
  {
    Assoc(a, b, p.blocks);
  }

  /** The parser object: the buffer a chunk sequence leaves behind, and the frames it yields. */
  class Parser {
    var buffer: string

    constructor ()
      ensures buffer == ""
    {
      buffer := "";
    }

    method Feed(chunk: string) returns (frames: seq<Frame>)
      modifies this
      ensures var p := Cut(old(buffer) + Normalise(chunk));
              frames == Frames(p.blocks) && buffer == p.rest
      ensures Separator(buffer) == -1
    {
      hide Normalise, Separator, Cut, Closed, ParseBlock, Frames, Emitted, FrameOf;
      buffer := buffer + Normalise(chunk);
      ghost var whole := Cut(buffer);
      ghost var done: seq<Block> := [];
      frames := [];
      NothingClosedYet(buffer);

      var separator := Separator(buffer);
      while separator != -1
        invariant separator == Separator(buffer)
        invariant Closed(whole, done, buffer)
        invariant frames == Frames(done)
        decreases |buffer|
      {
        var rawFrame := buffer[..separator];
        var block := ReadBlock(rawFrame);
        CloseOne(whole, done, buffer);
        buffer := buffer[separator + 2..];
        FramesSnoc(done, block);
        if Emitted(block) {
          frames := frames + [FrameOf(block)];
        }
        done := done + [block];
        separator := Separator(buffer);
      }
      CloseAll(whole, done, buffer);
    }
  }

  /** The blocks `done`, then whatever cutting `left` gives. */
  ghost predicate Closed(whole: Parsed, done: seq<Block>, left: string) {
    whole == Behind(done, Cut(left))
  }

  lemma NothingClosedYet(text: string)
    ensures Closed(Cut(text), [], text) && Frames([]) == []
  {
    Empty(Cut(text).blocks);
  }

  lemma CloseOne(whole: Parsed, done: seq<Block>, left: string)
    requires Closed(whole, done, left) && Separator(left) != -1
    ensures var i := Separator(left); Closed(whole, done + [ParseBlock(left[..i])], left[i + 2..])
  {
    hide ParseBlock;
    hide Separator;
    var i := Separator(left);
    BehindBehind(done, [ParseBlock(left[..i])], Cut(left[i + 2..]));
  }

  lemma CloseAll(whole: Parsed, done: seq<Block>, left: string)
    requires Closed(whole, done, left) && Separator(left) == -1
    ensures whole == Parsed(done, left)
  {
    Empty(done);
  }

  /** The line loop inside the parser. */
  method ReadBlock(rawFrame: string) returns (block: Block)
    ensures block == ParseBlock(rawFrame)
  {
    var lines := Split(rawFrame);
    block := EMPTY_BLOCK;
    var n := 0;
    while n < |lines|
      invariant 0 <= n <= |lines|
      invariant ApplyLines(block, lines[n..]) == ParseBlock(rawFrame)
    {
      block := ApplyLine(block, lines[n]);
      assert lines[n..][1..] == lines[n + 1..];
      n := n + 1;
    }
  }
}
