/** What cutting the network stream into chunks can and cannot change (sse.ts, lines 49-81). */
module SseChunks {
  import opened Text
  import opened SseParser
  import opened SseStandard

  datatype Run = Run(frames: seq<Frame>, buffer: string)

  /** Feeding chunks one after the other to a parser that starts with `buffer`. */
  function FeedAll(buffer: string, chunks: seq<string>): Run
    decreases |chunks|
  {
    if chunks == [] then Run([], buffer)
    else
      var p := Cut(buffer + Normalise(chunks[0]));
      var later := FeedAll(p.rest, chunks[1..]);
      Run(Frames(p.blocks) + later.frames, later.buffer)
  }

  function NormaliseEach(chunks: seq<string>): string {
    if chunks == [] then "" else Normalise(chunks[0]) + NormaliseEach(chunks[1..])
  }

  // ---- cutting a longer buffer ------------------------------------------------------------

  lemma SeparatorOfPrefix(x: string, y: string)
    requires Separator(x) != -1
    ensures Separator(x + y) == Separator(x)
  {
    var k := Separator(x);
    assert BlankLineAt(x + y, k);
    assert forall i :: BlankLineAt(x + y, i) && i < k ==> BlankLineAt(x, i);
    SeparatorIs(x + y, k);
  }

  lemma CutStep(x: string, y: string)
    requires Separator(x) != -1
    ensures var k := Separator(x);
            Cut(x + y) == Behind([ParseBlock(x[..k])], Cut(x[k + 2..] + y))
  {
    hide ParseBlock, Separator;
    var k := Separator(x);
    SeparatorOfPrefix(x, y);
    PrefixSlices(x, y, k, k + 2);
  }

  lemma PrefixSlices<T>(x: seq<T>, y: seq<T>, i: nat, j: nat)
    requires i <= |x| && j <= |x|
    ensures (x + y)[..i] == x[..i]
    ensures (x + y)[j..] == x[j..] + y
  {
  }

  /** Text that arrives later never reopens a closed block. */
  lemma {:induction false} CutAppend(x: string, y: string)
    ensures Cut(x + y) == Behind(Cut(x).blocks, Cut(Cut(x).rest + y))
    decreases |x|
  {
    var k := Separator(x);
    if k != -1 {
      CutStep(x, y);
      CutAppend(x[k + 2..], y);
      var later := Cut(x[k + 2..]);
      BehindBehind([ParseBlock(x[..k])], later.blocks, Cut(later.rest + y));
    }
  }

  /** Chunk by chunk is the same as the chunks, each normalised on its own, in one piece. */
  lemma {:induction false} FeedAllIsCut(buffer: string, chunks: seq<string>)
    requires Separator(buffer) == -1
    ensures FeedAll(buffer, chunks) == RunOf(Cut(buffer + NormaliseEach(chunks)))
    decreases |chunks|
  {
    hide Normalise, ParseBlock, Separator, Frames;
    if chunks == [] {
      Empty(buffer);
      NothingClosed(buffer);
    } else {
      var x, y := buffer + Normalise(chunks[0]), NormaliseEach(chunks[1..]);
      FeedAllIsCut(Cut(x).rest, chunks[1..]);
      CutAppend(x, y);
      Assoc(buffer, Normalise(chunks[0]), y);
      FramesAppend(Cut(x).blocks, Cut(Cut(x).rest + y).blocks);
    }
  }

  lemma NothingClosed(buffer: string)
    requires Separator(buffer) == -1
    ensures RunOf(Cut(buffer)) == Run([], buffer)
  {
  }

  function RunOf(p: Parsed): Run {
    Run(Frames(p.blocks), p.rest)
  }

  // ---- where normalisation per chunk differs ----------------------------------------------

  /** The cut between `a` and `b` separates a CR from its LF. */
  predicate PairAcross(a: string, b: string) {
    a != "" && b != "" && a[|a| - 1] == '\r' && b[0] == '\n'
  }

  lemma {:induction false} NormaliseAppend(a: string, b: string)
    requires !PairAcross(a, b)
    ensures Normalise(a + b) == Normalise(a) + Normalise(b)
    decreases |a|
  {
    if a == "" {
      assert a + b == b;
    } else {
      hide Normalise;
      var n := if a[0] == '\r' && |a| > 1 && a[1] == '\n' then 2 else 1;
      var first := if a[0] == '\r' then "\n" else [a[0]];
      NormaliseStep(a);
      NormaliseStep(a + b);
      PrefixSlices(a, b, 0, n);
      PrefixSlices(a, b, 0, 1);
      NormaliseAppend(a[n..], b);
      Assoc(first, Normalise(a[n..]), Normalise(b));
    }
  }

  /** A cut inside a CR LF pair makes a blank line out of one line end. */
  lemma NormaliseAcross(a: string, b: string)
    requires PairAcross(a, b)
    ensures Normalise(a) + Normalise(b) == Normalise(a[..|a| - 1]) + "\n\n" + Normalise(b[1..])
    ensures Normalise(a + b) == Normalise(a[..|a| - 1]) + "\n" + Normalise(b[1..])
  {
    var init := a[..|a| - 1];
    assert a == init + "\r";
    assert b == "\n" + b[1..];
    NormaliseAppend(init, "\r");
    NormaliseStep("\r");
    NormaliseStep(b);
    assert Normalise("\r") == "\n";
    assert a + b == init + ("\r\n" + b[1..]);
    NormaliseAppend(init, "\r\n" + b[1..]);
    NormaliseStep("\r\n" + b[1..]);
    assert ("\r\n" + b[1..])[2..] == b[1..];
  }

  /** Number of chunk borders that fall between a CR and its LF (empty chunks do not hide one). */
  function PairCuts(chunks: seq<string>): nat {
    if chunks == [] then 0
    else (if PairAcross(chunks[0], Concat(chunks[1..])) then 1 else 0) + PairCuts(chunks[1..])
  }

  lemma {:induction false} NormaliseEachGap(chunks: seq<string>)
    ensures |NormaliseEach(chunks)| == |Normalise(Concat(chunks))| + PairCuts(chunks)
    ensures PairCuts(chunks) == 0 ==> NormaliseEach(chunks) == Normalise(Concat(chunks))
  {
    if chunks != [] {
      var later := Concat(chunks[1..]);
      NormaliseEachGap(chunks[1..]);
      if PairAcross(chunks[0], later) {
        NormaliseAcross(chunks[0], later);
      } else {
        NormaliseAppend(chunks[0], later);
      }
    }
  }

  /** EXACT CONDITION on the text: the parser sees the stream's own line ends iff no pair is cut. */
  lemma NormalisedStreamExact(chunks: seq<string>)
    ensures NormaliseEach(chunks) == Normalise(Concat(chunks)) <==> PairCuts(chunks) == 0
  {
    NormaliseEachGap(chunks);
  }

  /** CHUNKING INDEPENDENCE: without a cut pair, chunks give the frames and the leftover of the whole. */
  lemma ChunkingIndependence(chunks: seq<string>)
    requires PairCuts(chunks) == 0
    ensures FeedAll("", chunks) == FeedAll("", [Concat(chunks)])
  {
    NormaliseEachGap(chunks);
    FeedAllIsCut("", chunks);
    var whole := [Concat(chunks)];
    FeedAllIsCut("", whole);
    assert whole[1..] == [];
    assert Concat(chunks) + "" == Concat(chunks);
    NormaliseEachGap(whole);
    assert PairCuts(whole) == 0;
    assert Concat(whole) == Concat(chunks);
  }

  predicate SameParse(a: string, b: string) {
    FeedAll("", [a, b]) == FeedAll("", [a + b])
  }

  ghost predicate SafeCut(x: char, y: char) {
    forall before: string, after: string :: SameParse(before + [x], [y] + after)
  }

  /** EXACT CONDITION on the cut: a border between `x` and `y` never matters iff they are not CR, LF. */
  lemma SafeCutExact(x: char, y: char)
    ensures SafeCut(x, y) <==> !(x == '\r' && y == '\n')
  {
    if x == '\r' && y == '\n' {
      CutPairLeavesNothing();
      assert "" + [x] == "\r" && [y] + "" == "\n";
      assert !SameParse("" + [x], [y] + "");
    } else {
      forall before: string, after: string ensures SameParse(before + [x], [y] + after) {
        var a, b := before + [x], [y] + after;
        var chunks := [a, b];
        var last := chunks[1..];
        assert last == [b] && last[1..] == [];
        assert Concat(last) == b && Concat(chunks) == a + b;
        assert a[|a| - 1] == x && b[0] == y;
        assert !PairAcross(a, b);
        assert PairCuts(last) == 0;
        assert PairCuts(chunks) == 0;
        ChunkingIndependence(chunks);
      }
    }
  }

  lemma NormalisedEnds()
    ensures Normalise("") == "" && Normalise("\r") == "\n" && Normalise("\n") == "\n" && Normalise("\r\n") == "\n"
  {
    NormaliseStep("\r");
    NormaliseStep("\n");
    NormaliseStep("\r\n");
    assert "\r"[1..] == "" && "\n"[1..] == "" && "\r\n"[2..] == "";
  }

  lemma TwoChunks(a: string, b: string)
    ensures FeedAll("", [a, b]) == RunOf(Cut(Normalise(a) + Normalise(b)))
    ensures FeedAll("", [a]) == RunOf(Cut(Normalise(a)))
  {
    assert [a, b][1..] == [b] && [b][1..] == [] && [a][1..] == [];
    FeedAllIsCut("", [a, b]);
    FeedAllIsCut("", [a]);
    assert "" + NormaliseEach([a, b]) == Normalise(a) + Normalise(b);
    assert "" + NormaliseEach([a]) == Normalise(a);
  }

  lemma CutLineFeeds()
    ensures Cut("") == Parsed([], "") && Cut("\n").rest == "\n" && Cut("\n\n").rest == ""
  {
    hide ParseBlock;
    assert BlankLineAt("\n\n", 0);
    assert "\n\n"[2..] == "";
  }

  lemma CutPairLeavesNothing()
    ensures !SameParse("\r", "\n")
  {
    hide Cut, Normalise, FeedAll, Frames;
    NormalisedEnds();
    TwoChunks("\r", "\n");
    TwoChunks("\r\n", "");
    assert "\r" + "\n" == "\r\n";
    assert "\n" + "\n" == "\n\n";
    CutLineFeeds();
  }

  // ---- the cut pair in full ---------------------------------------------------------------

  lemma DataLine(b: Block, v: string)
    ensures ApplyLine(b, "data: " + v) == b.(data := b.data + [v])
  {
    var line := "data: " + v;
    assert line[4] == ':';
    assert IndexOf(line, ':') == 4;
    assert line[..4] == "data";
    assert line[5..] == " " + v;
    assert (" " + v)[1..] == v;
  }

  lemma IndexOfIs(s: string, c: char, k: nat)
    requires k < |s| && s[k] == c && forall i :: 0 <= i < k ==> s[i] != c
    ensures IndexOf(s, c) == k
  {
  }

  lemma SplitAt(line: string, rest: string)
    requires LfFree(line)
    ensures Split(line + "\n" + rest) == [line] + Split(rest)
  {
    var s := line + "\n" + rest;
    assert forall i :: 0 <= i < |line| ==> s[i] == line[i];
    IndexOfIs(s, '\n', |line|);
    assert s[..|line|] == line && s[|line| + 1..] == rest;
  }

  /** A block without a blank line inside, its blank line, and what follows. */
  lemma OneBlock(raw: string, rest: string)
    requires Separator(raw) == -1 && raw != "" && raw[|raw| - 1] != '\n'
    ensures Cut(raw + "\n\n" + rest) == Behind([ParseBlock(raw)], Cut(rest))
  {
    var t := raw + "\n\n" + rest;
    assert BlankLineAt(t, |raw|);
    assert forall i :: BlankLineAt(t, i) && i < |raw| - 1 ==> BlankLineAt(raw, i);
    SeparatorIs(t, |raw|);
    assert t[..|raw|] == raw && t[|raw| + 2..] == rest;
  }

  /** A block of one data line, and a block of two. */
  lemma DataBlocks(v: string, w: string)
    requires LfFree(v) && LfFree(w)
    ensures ParseBlock("data: " + v) == Block("", [v])
    ensures ParseBlock("data: " + v + "\n" + ("data: " + w)) == Block("", [v, w])
  {
    hide ApplyLine, ApplyLines, Split;
    var a, b := "data: " + v, "data: " + w;
    DataLine(EMPTY_BLOCK, v);
    DataLine(Block("", [v]), w);
    Empty([v]);
    SplitLfFreeLine(a);
    SplitLfFreeLine(b);
    SplitAt(a, b);
    ApplyLinesCons(EMPTY_BLOCK, a, [b]);
    ApplyLinesCons(Block("", [v]), b, []);
    assert [v] + [w] == [v, w];
  }

  lemma SplitLfFreeLine(line: string)
    requires LfFree(line)
    ensures Split(line) == [line]
  {
  }

  lemma FramesOfTwo(x: Block, y: Block)
    ensures Frames([x]) == if Emitted(x) then [FrameOf(x)] else []
    ensures Frames([x, y]) == Frames([x]) + Frames([y])
  {
    assert [x][1..] == [] && [x, y] == [x] + [y];
    FramesAppend([x], [y]);
  }

  predicate LineText(v: string) {
    LfFree(v) && CrFree(v)
  }

  lemma DataLineIsLineText(v: string)
    requires LineText(v)
    ensures LineText("data: " + v) && CrFree("data: " + v + "\n\n")
    ensures Separator("data: " + v) == -1
  {
    var line := "data: " + v;
    assert forall i :: 0 <= i < |line| ==> line[i] != '\n';
  }

  /** Two data lines joined by CR LF and closed by a blank line: one frame when they arrive whole... */
  lemma PairArrivesWhole(v: string, w: string)
    requires LineText(v) && LineText(w)
    ensures FeedAll("", [("data: " + v + "\r") + ("\ndata: " + w + "\n\n")]) == Run([Frame("", v + "\n" + w)], "")
  {
    hide Normalise, FeedAll, Cut, ParseBlock, Frames, Separator;
    var a, b := "data: " + v, "data: " + w;
    DataLineIsLineText(v);
    DataLineIsLineText(w);
    NormaliseCut(a, b + "\n\n");
    assert "\n" + (b + "\n\n") == "\ndata: " + w + "\n\n";
    TwoChunks((a + "\r") + ("\n" + (b + "\n\n")), "");
    var raw := a + "\n" + b;
    TwoLinesNoBlank(a, b);
    assert a + "\n" + (b + "\n\n") == raw + "\n\n" + "";
    OneBlock(raw, "");
    CutLineFeeds();
    Empty([ParseBlock(raw)]);
    DataBlocks(v, w);
    FramesOfTwo(Block("", [v, w]), EMPTY_BLOCK);
    assert [v, w][1..] == [w];
    assert Join([v, w]) == v + "\n" + w;
    assert ("data: " + v + "\r") + ("\ndata: " + w + "\n\n") == (a + "\r") + ("\n" + (b + "\n\n"));
  }

  /** ... and two frames when the CR LF is cut. */
  lemma PairArrivesCut(v: string, w: string)
    requires LineText(v) && LineText(w)
    ensures FeedAll("", ["data: " + v + "\r", "\ndata: " + w + "\n\n"]) == Run([Frame("", v), Frame("", w)], "")
  {
    hide Normalise, FeedAll, Cut, ParseBlock, Frames, Separator;
    var a, b := "data: " + v, "data: " + w;
    DataLineIsLineText(v);
    DataLineIsLineText(w);
    NormaliseCut(a, b + "\n\n");
    assert "\n" + (b + "\n\n") == "\ndata: " + w + "\n\n";
    TwoChunks(a + "\r", "\n" + (b + "\n\n"));
    OneBlock(b, "");
    assert b + "\n\n" == b + "\n\n" + "";
    OneBlock(a, b + "\n\n");
    CutLineFeeds();
    BehindBehind([ParseBlock(a)], [ParseBlock(b)], Cut(""));
    assert [ParseBlock(a)] + [ParseBlock(b)] == [ParseBlock(a), ParseBlock(b)];
    Empty([ParseBlock(a), ParseBlock(b)]);
    DataBlocks(v, w);
    DataBlocks(w, v);
    FramesOfTwo(Block("", [v]), Block("", [w]));
    FramesOfTwo(Block("", [w]), EMPTY_BLOCK);
  }

  lemma NormaliseCut(x: string, y: string)
    requires CrFree(x) && CrFree(y)
    ensures Normalise((x + "\r") + ("\n" + y)) == x + "\n" + y
    ensures Normalise(x + "\r") + Normalise("\n" + y) == x + "\n\n" + y
  {
    hide Normalise;
    var cr, lf := x + "\r", "\n" + y;
    assert cr[..|cr| - 1] == x && lf[1..] == y;
    NormaliseAcross(cr, lf);
    NormaliseId(x);
    NormaliseId(y);
  }

  lemma TwoLinesNoBlank(a: string, b: string)
    requires LfFree(a) && LfFree(b) && a != "" && b != ""
    ensures var raw := a + "\n" + b; Separator(raw) == -1 && raw != "" && raw[|raw| - 1] != '\n'
  {
    var raw := a + "\n" + b;
    assert forall i :: 0 <= i < |raw| && i != |a| ==> raw[i] == if i < |a| then a[i] else b[i - |a| - 1];
    assert forall i :: 0 <= i < |raw| && raw[i] == '\n' ==> i == |a|;
  }

  /** COUNTEREXAMPLE: cutting one CR LF turns a frame with two data lines into two frames. */
  lemma CutPairSplitsAFrame()
    ensures FeedAll("", ["data: a\r\ndata: b\n\n"]) == Run([Frame("", "a\nb")], "")
    ensures FeedAll("", ["data: a\r", "\ndata: b\n\n"]) == Run([Frame("", "a"), Frame("", "b")], "")
  {
    hide FeedAll;
    PairArrivesWhole("a", "b");
    PairArrivesCut("a", "b");
    assert "data: " + "a" + "\r" == "data: a\r" && "\ndata: " + "b" + "\n\n" == "\ndata: b\n\n";
    assert "data: a\r" + "\ndata: b\n\n" == "data: a\r\ndata: b\n\n";
    assert "a" + "\n" + "b" == "a\nb";
  }
}
