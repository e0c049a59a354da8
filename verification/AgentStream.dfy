/** Decoding frames into agent events (events.ts, sse.ts) and the pump that delivers them. */
module AgentStream {
  import opened Text
  import opened JsonValue
  import opened SseParser
  import opened SseStandard
  import opened SseChunks

  const EVENT_NAMES: set<string> := {
    "run_started", "route_selected", "plan_created", "tool_started", "tool_completed", "evidence_ready",
    "action_pending", "action_approved", "action_executing", "action_completed", "final_answer", "run_failed"
  }

  datatype AgentEvent = AgentEvent(name: string, fields: map<string, Json>)

  predicate Terminal(e: AgentEvent) {
    e.name == "final_answer" || e.name == "run_failed"
  }

  predicate HasString(fields: map<string, Json>, key: string) {
    key in fields && fields[key].JString?
  }

  /** Accepted: an object with a known `event`, a string `run_id`, and a chart only on the final answer. */
  function ParseAgentEvent(raw: Json): (r: Option<AgentEvent>)
    ensures r.Some? <==> raw.JObject? && HasString(raw.fields, "run_id") && HasString(raw.fields, "event")
                         && raw.fields["event"].s in EVENT_NAMES
                         && ("chart_spec" in raw.fields ==> raw.fields["event"].s == "final_answer")
    ensures r.Some? ==> raw.JObject? && r.value.fields == raw.fields
    ensures r.Some? ==> raw.fields["event"] == JString(r.value.name)
  {
    if !raw.JObject? then None // an array never has these keys
    else if !HasString(raw.fields, "event") then None
    else
      var name := raw.fields["event"].s;
      if name !in EVENT_NAMES then None
      else if !HasString(raw.fields, "run_id") then None
      else if "chart_spec" in raw.fields && name != "final_answer" then None
      else Some(AgentEvent(name, raw.fields))
  }

  /** The own keys of an array, as object spread sees them. */
  function IndexFields(items: seq<Json>): map<string, Json> {
    if items == [] then map[]
    else IndexFields(items[..|items| - 1])[Decimal(|items| - 1) := items[|items| - 1]]
  }

  /** A payload without its own `event` takes the frame's. */
  function WithEvent(parsed: Json, event: string): Json {
    match parsed
    case JObject(fields) => if "event" in fields then parsed else JObject(fields["event" := JString(event)])
    case JArray(items) => JObject(IndexFields(items)["event" := JString(event)])
    case _ => parsed
  }

  /** `parse` stands for JSON.parse; None is a syntax error. */
  function DecodeFrame(parse: string -> Option<Json>, f: Frame): Option<AgentEvent> {
    if f.data == "" then None
    else
      match parse(f.data)
      case None => None
      case Some(parsed) => ParseAgentEvent(WithEvent(parsed, f.event))
  }

  /** What the pump makes of one frame: unknown event names are skipped before decoding. */
  function EventOf(parse: string -> Option<Json>, f: Frame): Option<AgentEvent> {
    if f.event != "" && f.event !in EVENT_NAMES then None else DecodeFrame(parse, f)
  }

  function EventsOf(parse: string -> Option<Json>, frames: seq<Frame>): seq<AgentEvent> {
    if frames == [] then [] else Elements(EventOf(parse, frames[0])) + EventsOf(parse, frames[1..])
  }

  predicate NoTerminal(events: seq<AgentEvent>) {
    forall i :: 0 <= i < |events| ==> !Terminal(events[i])
  }

  /** The events up to and including the first terminal one. */
  function UpToTerminal(events: seq<AgentEvent>): (r: seq<AgentEvent>)
    ensures r <= events
    ensures r == [] || NoTerminal(r[..|r| - 1])
    ensures r == events || (r != [] && Terminal(r[|r| - 1]))
  {
    if events == [] then []
    else if Terminal(events[0]) then [events[0]]
    else
      var later := UpToTerminal(events[1..]);
      assert later != [] ==> ([events[0]] + later)[..|later|] == [events[0]] + later[..|later| - 1];
      [events[0]] + later
  }

  lemma {:induction false} EventsAppend(parse: string -> Option<Json>, a: seq<Frame>, b: seq<Frame>)
    ensures EventsOf(parse, a + b) == EventsOf(parse, a) + EventsOf(parse, b)
  {
    hide EventOf;
    if a == [] {
      Empty(b);
      Empty(EventsOf(parse, b));
    } else {
      Tail(a, b);
      EventsAppend(parse, a[1..], b);
      Assoc(Elements(EventOf(parse, a[0])), EventsOf(parse, a[1..]), EventsOf(parse, b));
    }
  }

  /** Before the first terminal event everything is delivered. */
  lemma {:induction false} NothingTerminalYet(a: seq<AgentEvent>, b: seq<AgentEvent>)
    requires NoTerminal(a)
    ensures UpToTerminal(a + b) == a + UpToTerminal(b)
  {
    if a == [] {
      Empty(b);
      Empty(UpToTerminal(b));
    } else {
      Tail(a, b);
      NothingTerminalYet(a[1..], b);
      Assoc([a[0]], a[1..], UpToTerminal(b));
      assert [a[0]] + a[1..] == a;
    }
  }

  /** After the first terminal event nothing is. */
  lemma {:induction false} NothingAfterTerminal(a: seq<AgentEvent>, b: seq<AgentEvent>)
    requires !NoTerminal(a)
    ensures UpToTerminal(a + b) == UpToTerminal(a)
  {
    Tail(a, b);
    if !Terminal(a[0]) {
      var i :| 0 <= i < |a| && Terminal(a[i]);
      assert Terminal(a[1..][i - 1]);
      NothingAfterTerminal(a[1..], b);
    }
  }

  lemma UpToTerminalPrefix(a: seq<AgentEvent>, b: seq<AgentEvent>)
    ensures UpToTerminal(a) <= UpToTerminal(a + b)
    ensures NoTerminal(a) ==> UpToTerminal(a) == a
    ensures !NoTerminal(a) ==> UpToTerminal(a) != [] && Terminal(UpToTerminal(a)[|UpToTerminal(a)| - 1])
  {
    if NoTerminal(a) {
      NothingTerminalYet(a, b);
      NothingTerminalYet(a, []);
      Empty(a);
    } else {
      NothingAfterTerminal(a, b);
      var r := UpToTerminal(a);
      if r == a {
        assert forall i :: 0 <= i < |a| - 1 ==> a[i] == a[..|a| - 1][i];
      }
    }
  }

  // ---- what a frame carries ----------------------------------------------------------------------

  /**
   * The frame carries the event: its data is an object, whose fields the event has; where they do not
   * include `event`, the frame's own name is added; and the result is a known event with a run, and with
   * a chart only on the final answer. A frame under an unknown name carries nothing.
   */
  ghost predicate Carries(parse: string -> Option<Json>, f: Frame, e: AgentEvent) {
    && f.data != "" && (f.event == "" || f.event in EVENT_NAMES)
    && parse(f.data).Some? && parse(f.data).value.JObject?
    && (var fields := parse(f.data).value.fields;
        e.fields == if "event" in fields then fields else fields["event" := JString(f.event)])
    && e.name in EVENT_NAMES && e.fields["event"] == JString(e.name)
    && HasString(e.fields, "run_id")
    && ("chart_spec" in e.fields ==> e.name == "final_answer")
  }

  lemma {:induction false} IndexKeysAreDigits(items: seq<Json>, key: string)
    requires key in IndexFields(items)
    ensures Digits(key)
  {
    if key != Decimal(|items| - 1) { IndexKeysAreDigits(items[..|items| - 1], key); }
  }

  /** An array has no run. */
  lemma ArraysCarryNothing(items: seq<Json>, event: string)
    ensures ParseAgentEvent(WithEvent(JArray(items), event)) == None
  {
    assert "run_id"[0] == 'r' && !Digits("run_id");
    if "run_id" in IndexFields(items) {
      IndexKeysAreDigits(items, "run_id");
    }
  }

  /** DECODING, EXACTLY: a frame decodes to the event it carries, and to nothing if it carries none. */
  lemma EventOfExactly(parse: string -> Option<Json>, f: Frame, e: AgentEvent)
    ensures EventOf(parse, f) == Some(e) <==> Carries(parse, f, e)
  {
    if parse(f.data).Some? && parse(f.data).value.JArray? {
      ArraysCarryNothing(parse(f.data).value.items, f.event);
    }
  }

  /** The events are what the frames carry, in order. */
  ghost predicate Decodes(parse: string -> Option<Json>, frames: seq<Frame>, events: seq<AgentEvent>)
    decreases |frames|
  {
    if frames == [] then events == []
    else if exists e :: Carries(parse, frames[0], e) then
      events != [] && Carries(parse, frames[0], events[0]) && Decodes(parse, frames[1..], events[1..])
    else Decodes(parse, frames[1..], events)
  }

  lemma {:induction false} EventsAreDecoded(parse: string -> Option<Json>, frames: seq<Frame>, events: seq<AgentEvent>)
    ensures Decodes(parse, frames, events) <==> events == EventsOf(parse, frames)
    decreases |frames|
  {
    hide EventOf, Carries;
    if frames != [] {
      var first := EventOf(parse, frames[0]);
      forall e ensures first == Some(e) <==> Carries(parse, frames[0], e) { EventOfExactly(parse, frames[0], e); }
      if first.Some? {
        assert Carries(parse, frames[0], first.value);
        if events != [] {
          EventsAreDecoded(parse, frames[1..], events[1..]);
          assert events == [events[0]] + events[1..];
        }
      } else {
        EventsAreDecoded(parse, frames[1..], events);
        Empty(EventsOf(parse, frames[1..]));
      }
    }
  }

  /** The part of the events that is delivered: up to the first that ends the run. */
  ghost predicate Delivers(all: seq<AgentEvent>, events: seq<AgentEvent>) {
    && events <= all
    && (forall i :: 0 <= i < |events| - 1 ==> events[i].name != "final_answer" && events[i].name != "run_failed")
    && (events == all || (events != [] && (events[|events| - 1].name == "final_answer" || events[|events| - 1].name == "run_failed")))
  }

  lemma UpToTerminalDelivers(all: seq<AgentEvent>)
    ensures Delivers(all, UpToTerminal(all))
  {
    var r := UpToTerminal(all);
    assert r != [] ==> forall i :: 0 <= i < |r| - 1 ==> r[i] == r[..|r| - 1][i];
  }

  // ---- the pump ------------------------------------------------------------------------------

  /** The events still to come, with this text in the buffer and these chunks outstanding. */
  ghost function Coming(parse: string -> Option<Json>, buffer: string, chunks: seq<string>): seq<AgentEvent> {
    EventsOf(parse, FeedAll(buffer, chunks).frames)
  }

  lemma ComingStep(parse: string -> Option<Json>, buffer: string, chunks: seq<string>, n: nat)
    requires n < |chunks|
    ensures var p := Cut(buffer + Normalise(chunks[n]));
            Coming(parse, buffer, chunks[n..]) == EventsOf(parse, Frames(p.blocks)) + Coming(parse, p.rest, chunks[n + 1..])
  {
    hide Cut, Normalise, Frames, EventsOf, FeedAll;
    FeedStep(buffer, chunks, n);
    var p := Cut(buffer + Normalise(chunks[n]));
    EventsAppend(parse, Frames(p.blocks), FeedAll(p.rest, chunks[n + 1..]).frames);
  }

  lemma DeliveredIsDecoded(parse: string -> Option<Json>, chunks: seq<string>)
    ensures exists all :: Decodes(parse, FeedAll("", chunks).frames, all) && Delivers(all, UpToTerminal(Coming(parse, "", chunks)))
  {
    hide Decodes, Delivers, FeedAll, EventsOf, UpToTerminal;
    var all := Coming(parse, "", chunks);
    EventsAreDecoded(parse, FeedAll("", chunks).frames, all);
    UpToTerminalDelivers(all);
  }

  /** The read loop over the decoded chunks; the result is what the caller's listener was given. */
  method Pump(parse: string -> Option<Json>, chunks: seq<string>) returns (events: seq<AgentEvent>)
    ensures events == UpToTerminal(EventsOf(parse, FeedAll("", chunks).frames))
    ensures exists all :: Decodes(parse, FeedAll("", chunks).frames, all) && Delivers(all, events)
  {
    DeliveredIsDecoded(parse, chunks);
    events := ReadLoop(parse, chunks);
  }

  method ReadLoop(parse: string -> Option<Json>, chunks: seq<string>) returns (events: seq<AgentEvent>)
    ensures events == UpToTerminal(Coming(parse, "", chunks))
  {
    hide FeedAll, Cut, Normalise, Frames, EventsOf, UpToTerminal, Coming;
    ghost var goal := Coming(parse, "", chunks);
    var parser := new Parser();
    var terminal := false;
    var n := 0;
    events := [];
    Empty(goal);
    assert chunks[0..] == chunks;
    while !terminal && n < |chunks|
      invariant 0 <= n <= |chunks|
      invariant terminal ==> events == UpToTerminal(goal)
      invariant !terminal ==> NoTerminal(events) && goal == events + Coming(parse, parser.buffer, chunks[n..])
      decreases |chunks| - n
    {
      ComingStep(parse, parser.buffer, chunks, n);
      ghost var before := events;
      var frames := parser.Feed(chunks[n]);
      events, terminal := Deliver(parse, frames, events);
      DeliverStep(before, EventsOf(parse, frames), Coming(parse, parser.buffer, chunks[n + 1..]), goal);
      n := n + 1;
    }
    if !terminal {
      assert chunks[n..] == [];
      NothingComing(parse, parser.buffer);
      Empty(events);
      UpToTerminalPrefix(events, []);
    }
  }

  lemma NothingComing(parse: string -> Option<Json>, buffer: string)
    ensures Coming(parse, buffer, []) == []
  {
  }

  lemma FeedStep(buffer: string, chunks: seq<string>, n: nat)
    requires n < |chunks|
    ensures var p := Cut(buffer + Normalise(chunks[n]));
            FeedAll(buffer, chunks[n..]).frames == Frames(p.blocks) + FeedAll(p.rest, chunks[n + 1..]).frames
  {
    hide Cut, Normalise, Frames;
    assert chunks[n..][0] == chunks[n] && chunks[n..][1..] == chunks[n + 1..];
  }

  lemma DeliverStep(before: seq<AgentEvent>, now: seq<AgentEvent>, later: seq<AgentEvent>, goal: seq<AgentEvent>)
    requires NoTerminal(before) && goal == before + (now + later)
    ensures goal == (before + now) + later
    ensures !NoTerminal(before + now) ==> UpToTerminal(before + now) == UpToTerminal(goal)
  {
    Assoc(before, now, later);
    if !NoTerminal(before + now) {
      NothingAfterTerminal(before + now, later);
    }
  }

  /** The frame loop: stops right after the first terminal event. */
  method Deliver(parse: string -> Option<Json>, frames: seq<Frame>, before: seq<AgentEvent>)
    returns (events: seq<AgentEvent>, terminal: bool)
    requires NoTerminal(before)
    ensures events == UpToTerminal(before + EventsOf(parse, frames))
    ensures terminal <==> !NoTerminal(before + EventsOf(parse, frames))
    ensures !terminal ==> events == before + EventsOf(parse, frames)
  {
    hide DecodeFrame;
    ghost var goal := before + EventsOf(parse, frames);
    terminal := false;
    events := before;
    var i := 0;
    assert frames[0..] == frames;
    while i < |frames|
      invariant 0 <= i <= |frames|
      invariant !terminal && NoTerminal(events)
      invariant goal == events + EventsOf(parse, frames[i..])
    {
      ghost var done, rest := events, frames[i..];
      assert rest[1..] == frames[i + 1..];
      var frame := frames[i];
      i := i + 1;
      Assoc(done, Elements(EventOf(parse, frame)), EventsOf(parse, rest[1..]));
      Empty(done);
      if frame.event != "" && frame.event !in EVENT_NAMES {
        continue;
      }
      var event := DecodeFrame(parse, frame);
      if event.None? {
        continue;
      }
      events := events + [event.value];
      if Terminal(event.value) {
        terminal := true;
        assert events == done + [event.value];
        assert Terminal(events[|done|]);
        NothingTerminalYet(done, [event.value]);
        NothingAfterTerminal(events, EventsOf(parse, rest[1..]));
        assert Terminal(goal[|done|]);
        return;
      }
    }
    assert frames[i..] == [];
    Empty(events);
    UpToTerminalPrefix(events, []);
  }

  // ---- what is delivered, in terms of the stream ---------------------------------------------

  /** Blocks the standard does not dispatch carry no data, so no event is decoded from them. */
  lemma {:induction false} EventsOfDispatched(parse: string -> Option<Json>, blocks: seq<Block>)
    ensures EventsOf(parse, Frames(blocks)) == EventsOf(parse, Dispatched(blocks))
  {
    hide ParseAgentEvent, WithEvent;
    if blocks != [] {
      var b, later := blocks[0], blocks[1..];
      EventsOfDispatched(parse, later);
      EventsAppend(parse, Frames1(b), Frames(later));
      DispatchedCons(b, later);
      assert [b] + later == blocks;
      EventsAppend(parse, Dispatched([b]), Dispatched(later));
      assert [b][1..] == [];
      Empty([FrameOf(b)]);
      if b.data == [] {
        assert FrameOf(b).data == "";
        EventsOfOne(parse, FrameOf(b));
        assert EventsOf(parse, Frames1(b)) == [] == EventsOf(parse, Dispatched([b]));
      } else {
        assert Frames1(b) == Dispatched([b]);
      }
    }
  }

  lemma EventsOfOne(parse: string -> Option<Json>, f: Frame)
    ensures EventsOf(parse, [f]) == Elements(EventOf(parse, f))
    ensures f.data == "" ==> EventOf(parse, f) == None
  {
    assert [f][1..] == [];
    Empty(Elements(EventOf(parse, f)));
  }

  /**
   * DELIVERY: as long as no CR LF pair is cut by a chunk border, the listener is given exactly the
   * decodable events of the standard's reading of the whole stream, up to the first terminal one.
   */
  lemma DeliveredIsStandard(parse: string -> Option<Json>, chunks: seq<string>)
    requires PairCuts(chunks) == 0
    ensures EventsOf(parse, FeedAll("", chunks).frames) == EventsOf(parse, Interpret(Concat(chunks), RESET))
    ensures UpToTerminal(EventsOf(parse, FeedAll("", chunks).frames))
            == UpToTerminal(EventsOf(parse, Interpret(Concat(chunks), RESET)))
  {
    hide Cut, FeedAll, Normalise, EventsOf, Frames, Dispatched, Interpret, PairCuts, UpToTerminal;
    var text := Concat(chunks);
    ChunkingIndependence(chunks);
    TwoChunks(text, "");
    RawTextRefinesStandard(text);
    EventsOfDispatched(parse, Cut(Normalise(text)).blocks);
  }

  /** A stream that breaks off early (network error, abort) has delivered a prefix of the whole delivery. */
  lemma {:induction false} BrokenStreamDeliversPrefix(parse: string -> Option<Json>, chunks: seq<string>, later: seq<string>)
    ensures UpToTerminal(EventsOf(parse, FeedAll("", chunks).frames))
            <= UpToTerminal(EventsOf(parse, FeedAll("", chunks + later).frames))
  {
    hide FeedAll, EventsOf;
    FeedAllAppend("", chunks, later);
    var a := FeedAll("", chunks);
    var b := FeedAll(a.buffer, later).frames;
    EventsAppend(parse, a.frames, b);
    UpToTerminalPrefix(EventsOf(parse, a.frames), EventsOf(parse, b));
  }

  lemma {:induction false} FeedAllAppend(buffer: string, a: seq<string>, b: seq<string>)
    ensures FeedAll(buffer, a + b).frames == FeedAll(buffer, a).frames + FeedAll(FeedAll(buffer, a).buffer, b).frames
    decreases |a|
  {
    hide Cut, Normalise, Frames;
    if a == [] {
      Empty(b);
      Empty(FeedAll(buffer, b).frames);
    } else {
      Tail(a, b);
      var p := Cut(buffer + Normalise(a[0]));
      FeedAllAppend(p.rest, a[1..], b);
      Assoc(Frames(p.blocks), FeedAll(p.rest, a[1..]).frames, FeedAll(FeedAll(buffer, a).buffer, b).frames);
    }
  }
}
