/** What every reachable state of the refresh protocol keeps, and that every run comes to an end. */
module RefreshSafety {
  import opened Text
  import opened TokenStore
  import opened RefreshProtocol

  // ---- the slot: single flight -----------------------------------------------------------------

  /** At most one refresh is unfinished, it is the one in the slot, and a filled slot holds one. */
  ghost predicate SingleFlight(s: State) {
    && (s.slot.Some? ==> s.slot.value == |s.refreshes| - 1 && !s.refreshes[s.slot.value].phase.Done?)
    && (forall k :: 0 <= k < |s.refreshes| && !s.refreshes[k].phase.Done? ==> s.slot == Some(k))
  }

  /** The slot and the waiters hold refreshes that exist. */
  ghost predicate WaitersJoined(s: State) {
    && (s.slot.Some? ==> s.slot.value < |s.refreshes|)
    && forall id :: 0 <= id < |s.requests| && s.requests[id].phase.Waiting? ==> s.requests[id].phase.refresh < |s.refreshes|
  }

  // ---- the cookie: no reuse ----------------------------------------------------------------------

  /** The browser's cookie, and any cookie on its way to the server, is the generation in force. */
  ghost predicate CookieCurrent(s: State) {
    && s.cookie == s.current && !s.reuseDetected
    && (forall k :: 0 <= k < |s.refreshes| && s.refreshes[k].phase.AtServer? ==> s.refreshes[k].phase.presented == s.current)
    && (forall i :: 0 <= i < |s.presented| ==> s.presented[i].0 == s.presented[i].1)
  }

  /** Every refresh goes out at most once: those still asked for have not been presented. */
  ghost predicate PresentedOnce(s: State) {
    |s.presented| + Total(s.refreshes, Pending) <= |s.refreshes|
  }

  function Pending(r: Refresh): nat {
    if r.phase.Asked? then 1 else 0
  }

  // ---- the requests ------------------------------------------------------------------------------

  /** Everything a replay owes to the first attempt. */
  predicate ReplayOf(r: Request, again: Headers)
    requires r.sent != []
  {
    var first := r.sent[0];
    && again.trace == first.trace
    && again.idem == first.idem
    && (r.reread != "" ==> again.auth == Some(Bearer(r.reread)))
    && (r.reread == "" && first.auth.Some? ==> again.auth == first.auth)
  }

  /** The trace header is missing only on absolute paths, the idempotency header only without a key. */
  predicate Stamped(cfg: Config, h: Headers) {
    (!cfg.absolute ==> h.trace.Some?) && (cfg.idempotencyKey != "" ==> h.idem.Some?)
  }

  predicate RequestOk(r: Request) {
    && (r.replayed ==> r.cfg.retried)
    && (forall i :: 0 <= i < |r.sent| ==> Stamped(r.cfg, r.sent[i]))
    && (match r.phase
        case Queued => |r.sent| == (if r.replayed then 1 else 0) && (r.replayed ==> ReplayOf(r, r.cfg.headers))
        case OnWire => |r.sent| == (if r.replayed then 2 else 1) && r.cfg.headers == r.sent[|r.sent| - 1]
        case Waiting(_) => !r.replayed && !r.cfg.retried && |r.sent| == 1 && r.cfg.headers == r.sent[0]
        case Settled(_) => |r.sent| == (if r.replayed then 2 else 1))
    && (|r.sent| == 2 ==> ReplayOf(r, r.sent[1]))
  }

  ghost predicate RequestsOk(s: State) {
    forall id :: 0 <= id < |s.requests| ==> RequestOk(s.requests[id])
  }

  /** A request that has started a refresh is past its first attempt. */
  predicate Spent(r: Request) {
    r.replayed || r.phase.Waiting? || r.phase.Settled?
  }

  ghost predicate StartersDistinct(s: State) {
    && (forall k :: 0 <= k < |s.refreshes| ==> s.refreshes[k].starter < |s.requests| && Spent(s.requests[s.refreshes[k].starter]))
    && (forall j, k :: 0 <= j < k < |s.refreshes| ==> s.refreshes[j].starter != s.refreshes[k].starter)
  }

  // ---- the token a replay finds -------------------------------------------------------------------

  /** If a refresh touched the store last, its token is what a read returns, and no later one has delivered. */
  ghost predicate TokenDelivered(s: State) {
    s.touch.ByRefresh? ==>
      && s.touch.token != "" && s.store.memory == s.touch.token
      && s.touch.refresh < |s.refreshes|
      && (forall k :: 0 <= k < |s.refreshes| && Delivered(s.refreshes[k]) ==> k <= s.touch.refresh)
  }

  predicate Delivered(r: Refresh) {
    (r.phase.Finishing? || r.phase.Done?) && r.phase.ok
  }

  /** What holds in every run, whatever the refresh handler does. */
  ghost predicate Frugal(s: State) {
    WaitersJoined(s) && PresentedOnce(s) && RequestsOk(s) && StartersDistinct(s)
  }

  /** What holds as long as no handler throws before its first await. */
  ghost predicate Inv(s: State) {
    SingleFlight(s) && CookieCurrent(s) && TokenDelivered(s) && Frugal(s)
  }

  // ---- every step keeps it ------------------------------------------------------------------------

  lemma SingleFlightKept(s: State, a: Action)
    requires SingleFlight(s) && Enabled(s, a) && !ThrowsAtStart(s, a)
    ensures SingleFlight(Next(s, a))
  {
    hide Intercept, Sent, Replayed, Recall, Set, Clear, Token;
    match a
    case Receive(id, reply, handlerThrows) => SingleFlightReceive(s, id, reply, handlerThrows);
    case RefreshReceive(k, answer) => SingleFlightPhase(s, DoRefreshReceive(s, k, answer), k);
    case RefreshContinue(k) => SingleFlightPhase(s, DoRefreshContinue(s, k), k);
    case RefreshSend(k) => SingleFlightPhase(s, Next(s, a), k);
    case RefreshFinally(k) =>
    case _ =>
  }

  lemma SingleFlightReceive(s: State, id: nat, reply: Reply, handlerThrows: bool)
    requires var a := Receive(id, reply, handlerThrows);
             SingleFlight(s) && Enabled(s, a) && !ThrowsAtStart(s, a)
    ensures SingleFlight(DoReceive(s, id, reply, handlerThrows))
  {
    var t := DoReceive(s, id, reply, handlerThrows);
    if t.refreshes != s.refreshes {
      assert t.refreshes == s.refreshes + [Refresh(id, Asked)];
    }
  }

  /** A refresh moves on without finishing; nothing else in the slot or the list changes. */
  lemma SingleFlightPhase(s: State, t: State, k: nat)
    requires SingleFlight(s) && k < |s.refreshes| && !s.refreshes[k].phase.Done?
    requires t.slot == s.slot && |t.refreshes| == |s.refreshes| && !t.refreshes[k].phase.Done?
    requires t.refreshes == s.refreshes[k := t.refreshes[k]]
    ensures SingleFlight(t)
  {
    forall j | 0 <= j < |t.refreshes| && !t.refreshes[j].phase.Done? ensures t.slot == Some(j) {
      assert j != k ==> t.refreshes[j] == s.refreshes[j];
    }
  }

  /** Which request an action moves, if any. */
  function Mover(a: Action): Option<nat> {
    match a
    case Send(id, _) => Some(id)
    case Receive(id, _, _) => Some(id)
    case Resume(id) => Some(id)
    case _ => None
  }

  /** An action moves one request, adds one, or leaves them all alone; refreshes are never forgotten. */
  lemma OneRequestMoves(s: State, a: Action)
    requires Enabled(s, a)
    ensures var t := Next(s, a);
            && (a.Submit? ==> t.requests == s.requests + [Request(a.cfg, Queued, [], false, "")])
            && (Mover(a).Some? ==> Mover(a).value < |s.requests| && |t.requests| == |s.requests|
                                   && t.requests == s.requests[Mover(a).value := t.requests[Mover(a).value]])
            && (!a.Submit? && Mover(a).None? ==> t.requests == s.requests)
    ensures |Next(s, a).refreshes| >= |s.refreshes|
    ensures forall k :: 0 <= k < |s.refreshes| ==> Next(s, a).refreshes[k].starter == s.refreshes[k].starter
  {
    hide Intercept, Sent, Replayed, Recall, Set, Clear, Token;
  }

  lemma WaitersJoinedKept(s: State, a: Action)
    requires WaitersJoined(s) && Enabled(s, a)
    ensures WaitersJoined(Next(s, a))
  {
    OneRequestMoves(s, a);
    SlotInRange(s, a);
    var t := Next(s, a);
    if Mover(a).Some? { MovedRequestJoins(s, a); }
    hide Next;
    forall id | 0 <= id < |t.requests| && t.requests[id].phase.Waiting? ensures t.requests[id].phase.refresh < |t.refreshes| {
      if Mover(a) != Some(id) && id < |s.requests| { assert t.requests[id] == s.requests[id]; }
    }
  }

  lemma SlotInRange(s: State, a: Action)
    requires WaitersJoined(s) && Enabled(s, a)
    ensures var t := Next(s, a); t.slot.Some? ==> t.slot.value < |t.refreshes|
  {
    hide Intercept, Sent, Replayed, Recall, Set, Clear, Token;
  }

  lemma MovedRequestJoins(s: State, a: Action)
    requires WaitersJoined(s) && Enabled(s, a) && Mover(a).Some?
    ensures var t := Next(s, a); var id := Mover(a).value;
            id < |t.requests| && (t.requests[id].phase.Waiting? ==> t.requests[id].phase.refresh < |t.refreshes|)
  {
    hide Intercept, Recall, Set, Clear, Token;
  }

  lemma CookieCurrentKept(s: State, a: Action)
    requires SingleFlight(s) && CookieCurrent(s) && Enabled(s, a)
    ensures CookieCurrent(Next(s, a))
  {
    hide Intercept, Recall, Set, Clear;
  }

  lemma PresentedOnceKept(s: State, a: Action)
    requires PresentedOnce(s) && Enabled(s, a)
    ensures PresentedOnce(Next(s, a))
  {
    hide Next, Enabled, Total, Pending;
    var t := Next(s, a);
    if Mover(a).Some? {
      NothingPresented(s, a);
      if t.refreshes != s.refreshes {
        StarterAppended(s, a);
        TotalSnoc(s.refreshes, t.refreshes[|s.refreshes|], Pending);
      }
    } else if Internal(a) {
      RefreshMoves(s, a);
      OnePresented(s, a);
      TotalUpdate(s.refreshes, a.k, t.refreshes[a.k], Pending);
    } else {
      NothingPresented(s, a);
    }
  }

  lemma NothingPresented(s: State, a: Action)
    requires Enabled(s, a) && (Mover(a).Some? || !Internal(a))
    ensures Next(s, a).presented == s.presented
    ensures !Internal(a) ==> Next(s, a).refreshes == s.refreshes
    ensures forall r: Refresh :: Pending(r) <= 1
  {
    hide Intercept, Sent, Replayed, Recall, Clear, Token, Set;
  }

  lemma OnePresented(s: State, a: Action)
    requires Enabled(s, a) && Internal(a) && Mover(a).None?
    ensures var t := Next(s, a);
            && a.k < |s.refreshes| == |t.refreshes|
            && |t.presented| + Pending(t.refreshes[a.k]) == |s.presented| + Pending(s.refreshes[a.k])
  {
    hide Recall, Clear, Token, Set;
  }

  lemma RequestsOkKept(s: State, a: Action)
    requires RequestsOk(s) && Enabled(s, a)
    ensures RequestsOk(Next(s, a))
  {
    OneRequestMoves(s, a);
    var t := Next(s, a);
    if Mover(a).Some? { MovedRequestOk(s, a); }
    hide Next, RequestOk;
    forall id | 0 <= id < |t.requests| ensures RequestOk(t.requests[id]) {
      if id == |s.requests| {
        SubmittedOk(a.cfg);
      } else if Mover(a) != Some(id) {
        assert t.requests[id] == s.requests[id];
      }
    }
  }

  lemma SubmittedOk(cfg: Config)
    ensures RequestOk(Request(cfg, Queued, [], false, ""))
  {
  }

  lemma MovedRequestOk(s: State, a: Action)
    requires RequestsOk(s) && Enabled(s, a) && Mover(a).Some?
    ensures var id := Mover(a).value; id < |Next(s, a).requests| && RequestOk(Next(s, a).requests[id])
  {
    hide Recall, Set, Clear, Token, Sent, Replayed, RequestOk;
    var r := s.requests[Mover(a).value];
    match a
    case Send(id, newTrace) => SentOk(r, Token(s.store), newTrace);
    case Receive(id, reply, throws) => ReceivedOk(r, reply);
    case Resume(id) => ResumedOk(r, Token(s.store));
    case _ =>
  }

  /** The interceptor stamps what is missing and leaves alone what the first attempt carried. */
  lemma SentOk(r: Request, token: string, newTrace: string)
    requires RequestOk(r) && r.phase.Queued?
    ensures RequestOk(Sent(r, token, newTrace))
  {
    hide Bearer;
    var t := Sent(r, token, newTrace);
    if r.replayed {
      assert t.sent[0] == r.sent[0];
    }
  }

  lemma ReceivedOk(r: Request, reply: Reply)
    requires RequestOk(r) && r.phase.OnWire?
    ensures forall ok :: RequestOk(r.(phase := Settled(ok)))
    ensures Refreshable(r.cfg, reply) ==> forall k :: RequestOk(r.(phase := Waiting(k)))
  {
  }

  lemma ResumedOk(r: Request, token: string)
    requires RequestOk(r) && r.phase.Waiting?
    ensures forall ok :: RequestOk(r.(phase := Settled(ok)))
    ensures RequestOk(Replayed(r, token))
  {
    hide Bearer;
  }

  lemma StartersDistinctKept(s: State, a: Action)
    requires RequestsOk(s) && StartersDistinct(s) && Enabled(s, a)
    ensures StartersDistinct(Next(s, a))
  {
    var t := Next(s, a);
    OneRequestMoves(s, a);
    SpentStays(s, a);
    if |t.refreshes| == |s.refreshes| {
      hide Next;
      StartersKept(s, t);
    } else {
      StarterIsNew(s, a);
      hide Next;
      StarterAdded(s, t, Mover(a).value);
    }
  }

  lemma SpentStays(s: State, a: Action)
    requires RequestsOk(s) && Enabled(s, a)
    ensures |Next(s, a).requests| >= |s.requests|
    ensures forall id :: 0 <= id < |s.requests| && Spent(s.requests[id]) ==> Spent(Next(s, a).requests[id])
  {
    hide Recall, Set, Clear, Token, Intercept, Bearer;
    OneRequestMoves(s, a);
  }

  lemma StarterIsNew(s: State, a: Action)
    requires RequestsOk(s) && Enabled(s, a) && |Next(s, a).refreshes| != |s.refreshes|
    ensures var t := Next(s, a); var id := Mover(a);
            && id.Some? && id.value < |s.requests| && !Spent(s.requests[id.value])
            && id.value < |t.requests| && Spent(t.requests[id.value])
            && |t.refreshes| == |s.refreshes| + 1 && t.refreshes[|s.refreshes|].starter == id.value
            && t.refreshes[..|s.refreshes|] == s.refreshes
  {
    hide Recall, Set, Clear, Token, Intercept, Bearer;
    assert a.Receive?;
    var r := s.requests[a.id];
    assert RequestOk(r) && !r.cfg.retried;
  }

  lemma StartersKept(s: State, t: State)
    requires StartersDistinct(s) && |t.refreshes| == |s.refreshes| && |t.requests| >= |s.requests|
    requires forall k :: 0 <= k < |s.refreshes| ==> t.refreshes[k].starter == s.refreshes[k].starter
    requires forall id :: 0 <= id < |s.requests| && Spent(s.requests[id]) ==> Spent(t.requests[id])
    ensures StartersDistinct(t)
  {
  }

  lemma StarterAdded(s: State, t: State, id: nat)
    requires StartersDistinct(s) && id < |s.requests| && !Spent(s.requests[id])
    requires |t.requests| >= |s.requests| && Spent(t.requests[id])
    requires forall i :: 0 <= i < |s.requests| && Spent(s.requests[i]) ==> Spent(t.requests[i])
    requires |t.refreshes| == |s.refreshes| + 1 && t.refreshes[|s.refreshes|].starter == id
    requires forall k :: 0 <= k < |s.refreshes| ==> t.refreshes[k].starter == s.refreshes[k].starter
    ensures StartersDistinct(t)
  {
    assert forall k :: 0 <= k < |s.refreshes| ==> s.refreshes[k].starter != id;
  }

  lemma TokenDeliveredKept(s: State, a: Action)
    requires SingleFlight(s) && TokenDelivered(s) && Enabled(s, a)
    ensures TokenDelivered(Next(s, a))
  {
    hide Intercept, Sent, Replayed;
    if s.touch.ByRefresh? && !a.RefreshContinue? {
      TouchStays(s, a);
    } else if a.RefreshContinue? {
      assert s.slot == Some(a.k) && a.k == |s.refreshes| - 1;
    }
  }

  lemma TouchStays(s: State, a: Action)
    requires SingleFlight(s) && TokenDelivered(s) && Enabled(s, a) && s.touch.ByRefresh? && !a.RefreshContinue?
    ensures TokenDelivered(Next(s, a))
  {
    hide Next, Enabled, SingleFlight, Delivered;
    TouchKeepsToken(s, a);
    NoNewDelivery(s, a);
  }

  /** Unless the last touch is no refresh any more, the store still holds what the refresh wrote. */
  lemma TouchKeepsToken(s: State, a: Action)
    requires Enabled(s, a) && !a.RefreshContinue?
    requires s.touch.ByRefresh? && s.touch.token != "" && s.store.memory == s.touch.token
    ensures var t := Next(s, a); t.touch.ByRefresh? ==> t.touch == s.touch && t.store.memory == s.touch.token
  {
    hide Intercept, Sent, Replayed;
  }

  lemma NoNewDelivery(s: State, a: Action)
    requires Enabled(s, a) && !a.RefreshContinue?
    ensures |Next(s, a).refreshes| >= |s.refreshes|
    ensures forall k :: 0 <= k < |Next(s, a).refreshes| && Delivered(Next(s, a).refreshes[k]) ==>
              k < |s.refreshes| && Delivered(s.refreshes[k])
  {
    hide Intercept, Sent, Replayed, Recall, Clear, Token, Set;
    var t := Next(s, a);
    if a.RefreshSend? || a.RefreshReceive? || a.RefreshFinally? {
      assert t.refreshes == s.refreshes[a.k := t.refreshes[a.k]];
    } else if a.Receive? {
    } else {
      assert t.refreshes == s.refreshes;
    }
  }

  lemma FrugalKept(s: State, a: Action)
    requires Frugal(s) && Enabled(s, a)
    ensures Frugal(Next(s, a))
  {
    hide Next, Enabled, WaitersJoined, PresentedOnce, RequestsOk, StartersDistinct;
    WaitersJoinedKept(s, a);
    PresentedOnceKept(s, a);
    RequestsOkKept(s, a);
    StartersDistinctKept(s, a);
  }

  lemma InvKept(s: State, a: Action)
    requires Inv(s) && Enabled(s, a) && !ThrowsAtStart(s, a)
    ensures Inv(Next(s, a))
  {
    hide Next, Enabled, SingleFlight, CookieCurrent, TokenDelivered, Frugal, ThrowsAtStart;
    SingleFlightKept(s, a);
    CookieCurrentKept(s, a);
    TokenDeliveredKept(s, a);
    FrugalKept(s, a);
  }

  // ---- over whole runs ----------------------------------------------------------------------------

  lemma {:induction false} InvReached(s: State, actions: seq<Action>)
    requires Inv(s) && Runs(s, actions) && Polite(s, actions)
    ensures Inv(After(s, actions))
    decreases |actions|
  {
    hide Next, Enabled, Inv, ThrowsAtStart;
    if actions != [] {
      InvKept(s, actions[0]);
      InvReached(Next(s, actions[0]), actions[1..]);
    }
  }

  lemma {:induction false} FrugalReached(s: State, actions: seq<Action>)
    requires Frugal(s) && Runs(s, actions)
    ensures Frugal(After(s, actions))
    decreases |actions|
  {
    hide Next, Enabled, Frugal;
    if actions != [] {
      FrugalKept(s, actions[0]);
      FrugalReached(Next(s, actions[0]), actions[1..]);
    }
  }

  lemma InitInv(s: State)
    requires Init(s)
    ensures Inv(s)
  {
  }

  predicate Outstanding(s: State, k: int) {
    0 <= k < |s.refreshes| && !s.refreshes[k].phase.Done?
  }

  /**
   * SINGLE FLIGHT AND NO REUSE, in every interleaving: at most one refresh is outstanding and an empty
   * slot means none is; the client never presented a cookie generation that had been rotated away, so
   * the server never saw a reused one.
   */
  lemma RefreshIsSafe(s: State, actions: seq<Action>)
    requires Init(s) && Runs(s, actions) && Polite(s, actions)
    ensures var t := After(s, actions);
            && (forall j, k :: Outstanding(t, j) && Outstanding(t, k) ==> j == k)
            && (t.slot.None? ==> forall k :: !Outstanding(t, k))
            && !t.reuseDetected
            && (forall i :: 0 <= i < |t.presented| ==> t.presented[i].0 == t.presented[i].1)
            && (forall k :: 0 <= k < |t.refreshes| && t.refreshes[k].phase.AtServer? ==> t.refreshes[k].phase.presented == t.current)
  {
    hide Next, Enabled, After, Polite, Runs, Frugal, TokenDelivered;
    InitInv(s);
    InvReached(s, actions);
  }

  /**
   * ATTEMPTS, in every run, even if a refresh handler throws at once: every request goes out at most
   * twice, the second time with the first attempt's trace and idempotency headers; no refresh goes out
   * twice, and refreshes never outnumber requests.
   */
  lemma AttemptsBounded(s: State, actions: seq<Action>)
    requires Init(s) && Runs(s, actions)
    ensures var t := After(s, actions);
            && |t.presented| <= |t.refreshes| <= |t.requests|
            && (forall id :: 0 <= id < |t.requests| ==>
                  var r := t.requests[id];
                  |r.sent| <= 2 && (|r.sent| == 2 ==> r.sent[1].trace == r.sent[0].trace && r.sent[1].idem == r.sent[0].idem))
  {
    hide Next, Enabled, After, Runs, WaitersJoined, SingleFlight, TokenDelivered, CookieCurrent, Stamped, Total;
    InitInv(s);
    FrugalReached(s, actions);
    var t := After(s, actions);
    var starters := seq(|t.refreshes|, k requires 0 <= k < |t.refreshes| => t.refreshes[k].starter);
    Pigeonhole(starters, |t.requests|);
    forall id | 0 <= id < |t.requests| ensures |t.requests[id].sent| <= 2 {
      assert RequestOk(t.requests[id]);
    }
    forall id | 0 <= id < |t.requests| && |t.requests[id].sent| == 2
      ensures t.requests[id].sent[1].trace == t.requests[id].sent[0].trace && t.requests[id].sent[1].idem == t.requests[id].sent[0].idem
    {
      assert RequestOk(t.requests[id]);
    }
  }

  lemma {:induction false} Pigeonhole(xs: seq<nat>, n: nat)
    requires forall i :: 0 <= i < |xs| ==> xs[i] < n
    requires forall i, j :: 0 <= i < j < |xs| ==> xs[i] != xs[j]
    ensures |xs| <= n
    decreases n
  {
    if |xs| > 0 {
      if n - 1 in xs {
        var k :| 0 <= k < |xs| && xs[k] == n - 1;
        var rest := xs[..k] + xs[k + 1..];
        assert forall i :: 0 <= i < |rest| ==> rest[i] == if i < k then xs[i] else xs[i + 1];
        Pigeonhole(rest, n - 1);
      } else {
        assert forall i :: 0 <= i < |xs| ==> xs[i] in xs;
        Pigeonhole(xs, n - 1);
      }
    }
  }

  // ---- the token of a replay ----------------------------------------------------------------------

  /** The replay is stamped with what the store returns at that moment, over any stale header. */
  lemma ReplayReadsStore(s: State, id: nat)
    requires Inv(s) && Enabled(s, Resume(id)) && s.refreshes[s.requests[id].phase.refresh].phase.ok
    ensures var r := Next(s, Resume(id)).requests[id]; var token := Token(s.store);
            && r.phase.Queued? && r.replayed && r.reread == token
            && (token != "" ==> r.cfg.headers.auth == Some(Bearer(token)))
            && (token == "" ==> r.cfg.headers.auth == s.requests[id].sent[0].auth)
            && (s.touch.ByRefresh? ==> token == s.touch.token != "" && s.touch.refresh >= s.requests[id].phase.refresh)
  {
    hide Bearer, Intercept, Sent, SingleFlight, CookieCurrent, StartersDistinct;
    assert RequestOk(s.requests[id]);
  }

  predicate OutsideFree(actions: seq<Action>) {
    forall i :: 0 <= i < |actions| ==> !actions[i].Outside?
  }

  /** Only the auth store and session expiry take the last touch away from the refreshes. */
  lemma TouchStep(s: State, a: Action)
    requires Inv(s) && Enabled(s, a) && s.touch.ByRefresh? && !a.Outside?
    ensures Next(s, a).expiries >= s.expiries
    ensures Next(s, a).expiries == s.expiries ==> Next(s, a).touch.ByRefresh? && Next(s, a).touch.refresh >= s.touch.refresh
  {
    hide Intercept, Sent, Replayed, Recall, Clear, Token, RequestOk, StartersDistinct;
    if a.RefreshContinue? {
      assert s.slot == Some(a.k) && a.k == |s.refreshes| - 1;
    }
  }

  lemma ExpiriesGrow(s: State, a: Action)
    requires Enabled(s, a)
    ensures Next(s, a).expiries >= s.expiries
  {
    hide Intercept, Sent, Replayed, Recall, Clear, Token, Set;
  }

  lemma {:induction false} ExpiriesGrowOver(s: State, actions: seq<Action>)
    requires Runs(s, actions)
    ensures After(s, actions).expiries >= s.expiries
    decreases |actions|
  {
    hide Next, Enabled;
    if actions != [] {
      ExpiriesGrow(s, actions[0]);
      ExpiriesGrowOver(Next(s, actions[0]), actions[1..]);
    }
  }

  lemma {:induction false} TouchOver(s: State, actions: seq<Action>)
    requires Inv(s) && Runs(s, actions) && Polite(s, actions) && s.touch.ByRefresh?
    requires OutsideFree(actions) && After(s, actions).expiries == s.expiries
    ensures var t := After(s, actions); t.touch.ByRefresh? && t.touch.refresh >= s.touch.refresh
    decreases |actions|
  {
    hide Next, Enabled, Inv, ThrowsAtStart;
    if actions != [] {
      var u := Next(s, actions[0]);
      ExpiriesGrow(s, actions[0]);
      ExpiriesGrowOver(u, actions[1..]);
      TouchStep(s, actions[0]);
      InvKept(s, actions[0]);
      TouchOver(u, actions[1..]);
    }
  }

  /**
   * REPLAY AFTER DELIVERY: refresh `k` delivers a token; then anything may happen except that the auth
   * store writes or the session expires. A request that resumes then is replayed with the token of
   * refresh `k` or of a later one, whatever token its first attempt carried.
   */
  lemma ReplayAfterDelivery(s: State, k: nat, actions: seq<Action>, id: nat)
    requires Inv(s) && Enabled(s, RefreshContinue(k)) && s.refreshes[k].phase.token != ""
    requires var u := Next(s, RefreshContinue(k));
             && Runs(u, actions) && Polite(u, actions) && OutsideFree(actions)
             && After(u, actions).expiries == u.expiries
             && Enabled(After(u, actions), Resume(id))
             && After(u, actions).refreshes[After(u, actions).requests[id].phase.refresh].phase.ok
    ensures var t := After(Next(s, RefreshContinue(k)), actions);
            var r := Next(t, Resume(id)).requests[id];
            && t.touch.ByRefresh? && t.touch.refresh >= k && t.touch.token != ""
            && r.cfg.headers.auth == Some(Bearer(t.touch.token))
  {
    hide Runs, Polite, After, Inv, Bearer;
    var u := Next(s, RefreshContinue(k));
    assert u.touch == ByRefresh(k, s.refreshes[k].phase.token);
    InvKept(s, RefreshContinue(k));
    TouchOver(u, actions);
    InvReached(u, actions);
    hide Next, Enabled;
    ReplayReadsStore(After(u, actions), id);
  }

  // ---- every run settles --------------------------------------------------------------------------

  function Work(r: Request): nat {
    match r.phase
    case Queued => if r.replayed then 2 else 10
    case OnWire => if r.replayed then 1 else 9
    case Waiting(_) => 3
    case Settled(_) => 0
  }

  function RefreshWork(r: Refresh): nat {
    match r.phase
    case Asked => 4
    case AtServer(_) => 3
    case Answered(_) => 2
    case Finishing(_) => 1
    case Done(_) => 0
  }

  function Total<T>(xs: seq<T>, f: T -> nat): nat {
    if xs == [] then 0 else f(xs[0]) + Total(xs[1..], f)
  }

  lemma {:induction false} TotalUpdate<T>(xs: seq<T>, i: nat, x: T, f: T -> nat)
    requires i < |xs|
    ensures Total(xs[i := x], f) + f(xs[i]) == Total(xs, f) + f(x)
  {
    if i > 0 {
      assert xs[i := x][1..] == xs[1..][i - 1 := x];
      TotalUpdate(xs[1..], i - 1, x, f);
    } else {
      assert xs[i := x][1..] == xs[1..];
    }
  }

  lemma {:induction false} TotalSnoc<T>(xs: seq<T>, x: T, f: T -> nat)
    ensures Total(xs + [x], f) == Total(xs, f) + f(x)
  {
    if xs == [] {
      assert [] + [x] == [x] && [x][1..] == [];
    } else {
      assert (xs + [x])[1..] == xs[1..] + [x];
      TotalSnoc(xs[1..], x, f);
    }
  }

  function Measure(s: State): nat {
    Total(s.requests, Work) + Total(s.refreshes, RefreshWork)
  }

  /** Every action of the client or the wire uses up work. */
  lemma WorkIsDone(s: State, a: Action)
    requires RequestsOk(s) && Enabled(s, a) && Internal(a)
    ensures Measure(Next(s, a)) < Measure(s)
  {
    hide Total;
    var t := Next(s, a);
    if Mover(a).Some? {
      var id := Mover(a).value;
      OneRequestMoves(s, a);
      TotalUpdate(s.requests, id, t.requests[id], Work);
      if t.refreshes != s.refreshes {
        StarterAppended(s, a);
        TotalSnoc(s.refreshes, t.refreshes[|s.refreshes|], RefreshWork);
      }
      RequestWorkDone(s, a);
    } else {
      RefreshMoves(s, a);
      TotalUpdate(s.refreshes, a.k, t.refreshes[a.k], RefreshWork);
    }
  }

  lemma StarterAppended(s: State, a: Action)
    requires Enabled(s, a) && Mover(a).Some? && Next(s, a).refreshes != s.refreshes
    ensures |Next(s, a).refreshes| == |s.refreshes| + 1
    ensures Next(s, a).refreshes == s.refreshes + [Next(s, a).refreshes[|s.refreshes|]]
    ensures RefreshWork(Next(s, a).refreshes[|s.refreshes|]) <= 4
    ensures a.Receive? && s.slot.None? && Refreshable(s.requests[a.id].cfg, a.reply)
  {
    hide Intercept, Sent, Replayed, Recall, Clear, Token, Set;
  }

  lemma RequestWorkDone(s: State, a: Action)
    requires RequestsOk(s) && Enabled(s, a) && Mover(a).Some?
    ensures var id := Mover(a).value; var t := Next(s, a);
            && id < |s.requests| && id < |t.requests|
            && Work(t.requests[id]) + (if t.refreshes != s.refreshes then 4 else 0) < Work(s.requests[id])
  {
    hide Intercept, Recall, Clear, Token, Set;
    assert RequestOk(s.requests[Mover(a).value]);
  }

  lemma RefreshMoves(s: State, a: Action)
    requires Enabled(s, a) && Internal(a) && Mover(a).None?
    ensures var t := Next(s, a);
            && (a.RefreshSend? || a.RefreshReceive? || a.RefreshContinue? || a.RefreshFinally?)
            && a.k < |s.refreshes| == |t.refreshes|
            && t.refreshes == s.refreshes[a.k := t.refreshes[a.k]]
            && RefreshWork(t.refreshes[a.k]) < RefreshWork(s.refreshes[a.k])
            && t.requests == s.requests
  {
    hide Recall, Clear, Token, Set;
  }

  predicate AllInternal(actions: seq<Action>) {
    forall i :: 0 <= i < |actions| ==> Internal(actions[i])
  }

  /** Nothing is left to do for the client or the wire. */
  ghost predicate Quiescent(s: State) {
    forall a: Action :: Internal(a) ==> !Enabled(s, a)
  }

  lemma {:induction false} RunsAreBounded(s: State, actions: seq<Action>)
    requires RequestsOk(s) && Runs(s, actions) && AllInternal(actions)
    ensures |actions| + Measure(After(s, actions)) <= Measure(s)
    decreases |actions|
  {
    hide Next, Enabled, Measure, Internal, RequestsOk;
    if actions != [] {
      WorkIsDone(s, actions[0]);
      RequestsOkKept(s, actions[0]);
      RunsAreBounded(Next(s, actions[0]), actions[1..]);
    }
  }

  lemma QuiescentIsSettled(s: State)
    requires WaitersJoined(s) && Quiescent(s)
    ensures forall id :: 0 <= id < |s.requests| ==> s.requests[id].phase.Settled?
    ensures forall k :: 0 <= k < |s.refreshes| ==> s.refreshes[k].phase.Done?
    ensures s.slot.None? <==> SingleFlight(s)
  {
    forall k | 0 <= k < |s.refreshes| ensures s.refreshes[k].phase.Done? {
      assert !Enabled(s, RefreshSend(k));
      assert !Enabled(s, RefreshReceive(k, Refused(false)));
      assert !Enabled(s, RefreshContinue(k));
      assert !Enabled(s, RefreshFinally(k));
    }
    forall id | 0 <= id < |s.requests| ensures s.requests[id].phase.Settled? {
      assert !Enabled(s, Send(id, ""));
      assert !Enabled(s, Receive(id, Success, false));
      assert !Enabled(s, Resume(id));
    }
  }

  /**
   * EVERYTHING SETTLES: without new requests any run takes at most `Measure` further steps of client and
   * wire, and when no step is left every request is settled and every refresh over. The slot is empty
   * then if no handler threw before its first await.
   */
  lemma EveryRunSettles(s: State, before: seq<Action>, actions: seq<Action>)
    requires Init(s) && Runs(s, before)
    requires var u := After(s, before); Runs(u, actions) && AllInternal(actions)
    ensures var u := After(s, before); var t := After(u, actions);
            && |actions| <= Measure(u) <= 10 * |u.requests| + 4 * |u.refreshes|
            && (Quiescent(t) ==>
                  && (forall id :: 0 <= id < |t.requests| ==> t.requests[id].phase.Settled?)
                  && (forall k :: 0 <= k < |t.refreshes| ==> t.refreshes[k].phase.Done?)
                  && (Polite(s, before) && Polite(u, actions) ==> t.slot.None?))
  {
    hide Next, Enabled, After, Polite, Runs, Measure, Quiescent;
    hide SingleFlight, WaitersJoined, RequestsOk, StartersDistinct, TokenDelivered, CookieCurrent, PresentedOnce;
    InitInv(s);
    FrugalReached(s, before);
    var u := After(s, before);
    FrugalReached(u, actions);
    RunsAreBounded(u, actions);
    MeasureBound(u);
    var t := After(u, actions);
    if Quiescent(t) {
      QuiescentIsSettled(t);
      if Polite(s, before) && Polite(u, actions) {
        InvReached(s, before);
        InvReached(u, actions);
      }
    }
  }

  lemma {:induction false} TotalBound<T>(xs: seq<T>, f: T -> nat, most: nat)
    requires forall x :: x in xs ==> f(x) <= most
    ensures Total(xs, f) <= most * |xs|
  {
    if xs != [] {
      TotalBound(xs[1..], f, most);
      assert most * |xs| == most + most * |xs[1..]|;
    }
  }

  lemma MeasureBound(s: State)
    ensures Measure(s) <= 10 * |s.requests| + 4 * |s.refreshes|
  {
    TotalBound(s.requests, Work, 10);
    TotalBound(s.refreshes, RefreshWork, 4);
  }

  // ---- a handler that throws at once ---------------------------------------------------------------

  /** Every refresh is over, but a failed one sits in the slot. */
  ghost predicate Poisoned(s: State) {
    && s.slot.Some? && s.slot.value < |s.refreshes| && s.refreshes[s.slot.value].phase == Done(false)
    && (forall k :: 0 <= k < |s.refreshes| ==> s.refreshes[k].phase.Done?)
  }

  lemma ThrowPoisons(s: State, a: Action)
    requires SingleFlight(s) && Enabled(s, a) && ThrowsAtStart(s, a)
    ensures Poisoned(Next(s, a))
  {
  }

  /** No action empties the slot again or starts another refresh. */
  lemma PoisonStays(s: State, a: Action)
    requires Poisoned(s) && Enabled(s, a)
    ensures Poisoned(Next(s, a)) && Next(s, a).refreshes == s.refreshes && Next(s, a).slot == s.slot
  {
    hide Intercept, Sent, Replayed, Recall, Clear, Token, Set;
  }

  lemma {:induction false} PoisonForever(s: State, actions: seq<Action>)
    requires Poisoned(s) && Runs(s, actions)
    ensures Poisoned(After(s, actions)) && After(s, actions).refreshes == s.refreshes
    decreases |actions|
  {
    hide Next, Enabled, Poisoned;
    if actions != [] {
      PoisonStays(s, actions[0]);
      PoisonForever(Next(s, actions[0]), actions[1..]);
    }
  }

  /** In a poisoned client every refreshable failure ends the session without asking the server. */
  lemma PoisonedRequestFails(s: State, id: nat, reply: Reply, throws: bool)
    requires Poisoned(s) && Enabled(s, Receive(id, reply, throws)) && Refreshable(s.requests[id].cfg, reply)
    ensures var u := Next(s, Receive(id, reply, throws));
            && Enabled(u, Resume(id))
            && Next(u, Resume(id)).requests[id].phase == Settled(false)
            && Next(u, Resume(id)).expiries == s.expiries + 1
  {
  }

  /** EXACT CONDITION: single flight holds after a run iff no handler threw before its first await. */
  lemma {:induction false} SingleFlightExact(s: State, actions: seq<Action>)
    requires SingleFlight(s) && Runs(s, actions)
    ensures SingleFlight(After(s, actions)) <==> Polite(s, actions)
    decreases |actions|
  {
    hide Next, Enabled, ThrowsAtStart;
    if actions != [] {
      var u := Next(s, actions[0]);
      if ThrowsAtStart(s, actions[0]) {
        ThrowPoisons(s, actions[0]);
        PoisonForever(u, actions[1..]);
        PoisonIsNotSingleFlight(After(u, actions[1..]));
      } else {
        SingleFlightKept(s, actions[0]);
        SingleFlightExact(u, actions[1..]);
      }
    }
  }

  lemma PoisonIsNotSingleFlight(s: State)
    requires Poisoned(s)
    ensures !SingleFlight(s)
  {
  }
}
