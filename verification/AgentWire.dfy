/** Agent events printed onto the wire and pumped back to the listener. */
module AgentWire {
  import opened Text
  import opened JsonValue
  import opened SseParser
  import opened SseStandard
  import opened SseChunks
  import opened SseWire
  import opened AgentStream

  /** What a server may send: a known event of some run, with a chart only on the final answer. */
  predicate Sendable(e: AgentEvent) {
    && e.name in EVENT_NAMES
    && "event" in e.fields && e.fields["event"] == JString(e.name)
    && HasString(e.fields, "run_id")
    && ("chart_spec" in e.fields ==> e.name == "final_answer")
  }

  /** The name on the `event:` line only, in the data only, or in both. */
  datatype Naming = OnLine | InData | Both

  function FrameFor(write: map<string, Json> -> string, e: AgentEvent, naming: Naming): Frame {
    match naming
    case OnLine => Frame(e.name, write(e.fields - {"event"}))
    case InData => Frame("", write(e.fields))
    case Both => Frame(e.name, write(e.fields))
  }

  /** `write` writes objects so that `parse` reads them back. */
  ghost predicate Prints(parse: string -> Option<Json>, write: map<string, Json> -> string) {
    forall fields :: write(fields) != "" && parse(write(fields)) == Some(JObject(fields))
  }

  lemma FrameCarries(parse: string -> Option<Json>, write: map<string, Json> -> string, e: AgentEvent, naming: Naming)
    requires Prints(parse, write) && Sendable(e)
    ensures Carries(parse, FrameFor(write, e, naming), e)
  {
    var rest := e.fields - {"event"};
    assert rest["event" := JString(e.name)] == e.fields;
  }

  lemma {:induction false} FramesDecode(parse: string -> Option<Json>, frames: seq<Frame>, events: seq<AgentEvent>)
    requires |frames| == |events| && forall i :: 0 <= i < |frames| ==> Carries(parse, frames[i], events[i])
    ensures Decodes(parse, frames, events)
  {
    hide Carries;
    if frames != [] {
      assert forall i :: 0 <= i < |frames[1..]| ==> frames[1..][i] == frames[i + 1] && events[1..][i] == events[i + 1];
      FramesDecode(parse, frames[1..], events[1..]);
    }
  }

  /**
   * EVENTS ROUND TRIP: any list of events, each named on its `event:` line, in its data, or both, printed
   * with comments and keep-alive blocks anywhere and cut into chunks anywhere, is what the chunks decode to.
   */
  lemma EventsRoundTrip(parse: string -> Option<Json>, write: map<string, Json> -> string, events: seq<AgentEvent>,
                        namings: seq<Naming>, blocks: seq<seq<string>>, chunks: seq<string>)
    requires Prints(parse, write) && |namings| == |events| && forall i :: 0 <= i < |events| ==> Sendable(events[i])
    requires forall i :: 0 <= i < |blocks| ==> WireBlock(blocks[i])
    requires TellingBlocks(blocks)
             == Printed(seq(|events|, i requires 0 <= i < |events| && |namings| == |events| => FrameFor(write, events[i], namings[i])))
    requires Concat(chunks) == PrintBlocks(blocks)
    ensures Decodes(parse, FeedAll("", chunks).frames, events)
  {
    hide Carries, Decodes, WireBlock, TellingBlocks, Printed, PrintBlocks, FeedAll, Sendable, Prints, FrameFor;
    var frames := seq(|events|, i requires 0 <= i < |events| && |namings| == |events| => FrameFor(write, events[i], namings[i]));
    forall i | 0 <= i < |events| ensures Carries(parse, frames[i], events[i]) {
      FrameCarries(parse, write, events[i], namings[i]);
    }
    FramesDecode(parse, frames, events);
    WireRoundTrip(frames, blocks, chunks);
  }

  /** So what the pump hands the listener (see its contract) is these very events, up to the first that ends the run. */
  lemma PrintedIsDelivered(parse: string -> Option<Json>, write: map<string, Json> -> string, events: seq<AgentEvent>,
                           namings: seq<Naming>, blocks: seq<seq<string>>, chunks: seq<string>,
                           all: seq<AgentEvent>, delivered: seq<AgentEvent>)
    requires Prints(parse, write) && |namings| == |events| && forall i :: 0 <= i < |events| ==> Sendable(events[i])
    requires forall i :: 0 <= i < |blocks| ==> WireBlock(blocks[i])
    requires TellingBlocks(blocks)
             == Printed(seq(|events|, i requires 0 <= i < |events| && |namings| == |events| => FrameFor(write, events[i], namings[i])))
    requires Concat(chunks) == PrintBlocks(blocks)
    requires Decodes(parse, FeedAll("", chunks).frames, all) && Delivers(all, delivered)
    ensures Delivers(events, delivered)
  {
    hide Carries, WireBlock, TellingBlocks, Printed, PrintBlocks, FeedAll, Sendable, Prints, FrameFor, Decodes, Delivers;
    EventsRoundTrip(parse, write, events, namings, blocks, chunks);
    EventsAreDecoded(parse, FeedAll("", chunks).frames, events);
    EventsAreDecoded(parse, FeedAll("", chunks).frames, all);
  }

  // ---- blocks without data -----------------------------------------------------------------------------

  /** A block that only names an event is a frame without data; it decodes to nothing. */
  lemma EventOnlyBlock(parse: string -> Option<Json>, name: string)
    requires LineText(name) && name != ""
    ensures FeedAll("", ["event: " + name + "\n\n"]) == Run([Frame(name, "")], "")
    ensures Decodes(parse, [Frame(name, "")], [])
  {
    var line := "event: " + name;
    OneLineBlock(line);
    EventLineTells(name);
    assert Frames([Block(name, [])]) == [Frame(name, "")] by {
      assert [Block(name, [])][1..] == [];
    }
    assert [Frame(name, "")][1..] == [];
  }

  /** A block of one comment is no frame at all. */
  lemma CommentBlock(text: string)
    requires LineText(text)
    ensures FeedAll("", [":" + text + "\n\n"]) == Run([], "")
  {
    OneLineBlock(":" + text);
    assert Frames([EMPTY_BLOCK]) == [] by {
      assert [EMPTY_BLOCK][1..] == [];
    }
  }

  lemma OneLineBlock(line: string)
    requires WireLine(line)
    ensures FeedAll("", [line + "\n\n"]) == Run(Frames([ApplyLine(EMPTY_BLOCK, line)]), "")
  {
    hide ApplyLine, Frames, Cut, Normalise;
    var text := line + "\n\n";
    TwoChunks(text, "");
    NormaliseId(text);
    assert Join([line]) == line;
    CutPrintedBlock([line], "");
    Empty(PrintBlock([line]));
    CutLineFeeds();
    ApplyLinesCons(EMPTY_BLOCK, line, []);
    Empty([ApplyLine(EMPTY_BLOCK, line)]);
  }
}
