/**
 * The client's token refresh as a state machine (client.ts). Each action is one run of code between
 * two `await`s, or one event on the wire; requests, refreshes and outside events interleave freely.
 */
module RefreshProtocol {
  import opened Text
  import opened TokenStore

  datatype Headers = Headers(auth: Option<string>, trace: Option<string>, idem: Option<string>)

  datatype Config = Config(
    headers: Headers,
    absolute: bool,          // a path outside the API prefix: no trace header is added
    idempotencyKey: string,  // "" when the caller gave none
    skipAuthRefresh: bool,
    retried: bool)

  datatype Phase =
    | Queued               // handed to axios, the request interceptor has not run yet
    | OnWire
    | Waiting(refresh: nat)
    | Settled(ok: bool)

  /** `sent` logs the headers of every wire attempt, `reread` the token read when the wait ended. */
  datatype Request = Request(cfg: Config, phase: Phase, sent: seq<Headers>, replayed: bool, reread: string)

  datatype RefreshPhase =
    | Asked                    // handed to axios
    | AtServer(presented: nat) // the cookie generation that went out
    | Answered(token: string)
    | Finishing(ok: bool)      // the handler is through, the `finally` has not run yet
    | Done(ok: bool)

  datatype Refresh = Refresh(starter: nat, phase: RefreshPhase)

  /** Who touched the token store last. */
  datatype Touch = ByRefresh(refresh: nat, token: string) | ByOthers

  datatype State = State(
    store: Store,
    cookie: nat,                     // generation of the refresh cookie in the browser
    current: nat,                    // the one generation the server still accepts
    reuseDetected: bool,
    slot: Option<nat>,               // refreshPromise
    refreshes: seq<Refresh>,
    requests: seq<Request>,
    expiries: nat,                   // calls of onSessionExpired
    presented: seq<(nat, nat)>,      // (generation presented, generation then current)
    touch: Touch)

  /** `authLike`: status 401 or a business code for a missing or expired token. */
  datatype Reply = Success | Failure(authLike: bool, unauthenticated: bool)
  datatype RefreshReply = Rotated(token: string) | Refused(unauthenticated: bool)

  datatype Action =
    | Submit(cfg: Config)
    | Outside(pair: TokenPair)               // the auth store writes tokens: login, logout
    | StorageChange(now: Storage)
    | Send(id: nat, newTrace: string)
    | Receive(id: nat, reply: Reply, handlerThrows: bool)
    | Resume(id: nat)
    | RefreshSend(k: nat)
    | RefreshReceive(k: nat, answer: RefreshReply)
    | RefreshContinue(k: nat)
    | RefreshFinally(k: nat)

  /** Actions of the client and the wire; the others come from the user or the browser. */
  predicate Internal(a: Action) {
    !a.Submit? && !a.Outside? && !a.StorageChange?
  }

  function Bearer(token: string): string {
    "Bearer " + token
  }

  /** The request interceptor: headers already present are left alone. */
  function Intercept(cfg: Config, token: string, newTrace: string): Config {
    var h := cfg.headers;
    var h1 := if !cfg.absolute && h.trace.None? then h.(trace := Some(newTrace)) else h;
    var h2 := if token != "" && h1.auth.None? then h1.(auth := Some(Bearer(token))) else h1;
    var h3 := if cfg.idempotencyKey != "" && h2.idem.None? then h2.(idem := Some(cfg.idempotencyKey)) else h2;
    cfg.(headers := h3)
  }

  function Refreshable(cfg: Config, reply: Reply): bool {
    reply.Failure? && reply.authLike && !cfg.skipAuthRefresh && !cfg.retried
  }

  function SessionExpired(s: State): State {
    s.(store := Clear(s.store), expiries := s.expiries + 1, touch := ByOthers)
  }

  /** refreshOnce: join the promise in the slot, or start a refresh and fill the slot with it. */
  function RefreshOnce(s: State, id: nat, handlerThrows: bool): (State, nat) {
    if s.slot.Some? then (s, s.slot.value)
    else
      var k := |s.refreshes|;
      // A handler that throws before its first await has run the `finally` by now: the slot is filled last.
      var phase := if handlerThrows then Done(false) else Asked;
      (s.(refreshes := s.refreshes + [Refresh(id, phase)], slot := Some(k)), k)
  }

  predicate Enabled(s: State, a: Action) {
    match a
    case Submit(_) => true
    case Outside(_) => true
    case StorageChange(_) => true
    case Send(id, _) => id < |s.requests| && s.requests[id].phase.Queued?
    case Receive(id, _, _) => id < |s.requests| && s.requests[id].phase.OnWire?
    case Resume(id) =>
      && id < |s.requests| && s.requests[id].phase.Waiting?
      && s.requests[id].phase.refresh < |s.refreshes| && s.refreshes[s.requests[id].phase.refresh].phase.Done?
    case RefreshSend(k) => k < |s.refreshes| && s.refreshes[k].phase.Asked?
    case RefreshReceive(k, _) => k < |s.refreshes| && s.refreshes[k].phase.AtServer?
    case RefreshContinue(k) => k < |s.refreshes| && s.refreshes[k].phase.Answered?
    case RefreshFinally(k) => k < |s.refreshes| && s.refreshes[k].phase.Finishing?
  }

  function SetRequest(s: State, id: nat, r: Request): State
    requires id < |s.requests|
  {
    s.(requests := s.requests[id := r])
  }

  function SetPhase(s: State, k: nat, phase: RefreshPhase): State
    requires k < |s.refreshes|
  {
    s.(refreshes := s.refreshes[k := s.refreshes[k].(phase := phase)])
  }

  /** One wire attempt: the interceptor completes the headers, and they go out. */
  function Sent(r: Request, token: string, newTrace: string): Request {
    var cfg := Intercept(r.cfg, token, newTrace);
    r.(cfg := cfg, phase := OnWire, sent := r.sent + [cfg.headers])
  }

  /** The replay overwrites the stale Authorization header with the token the store returns now. */
  function Replayed(r: Request, token: string): Request {
    var headers := if token != "" then r.cfg.headers.(auth := Some(Bearer(token))) else r.cfg.headers;
    r.(cfg := r.cfg.(headers := headers, retried := true), phase := Queued, replayed := true, reread := token)
  }

  function DoSend(s: State, id: nat, newTrace: string): State
    requires Enabled(s, Send(id, newTrace))
  {
    SetRequest(s.(store := Recall(s.store)), id, Sent(s.requests[id], Token(s.store), newTrace))
  }

  function DoReceive(s: State, id: nat, reply: Reply, handlerThrows: bool): State
    requires Enabled(s, Receive(id, reply, handlerThrows))
  {
    var r := s.requests[id];
    if reply.Success? then SetRequest(s, id, r.(phase := Settled(true)))
    else if Refreshable(r.cfg, reply) then
      var (s1, k) := RefreshOnce(s, id, handlerThrows);
      SetRequest(s1, id, r.(phase := Waiting(k)))
    else
      SetRequest(if reply.unauthenticated then SessionExpired(s) else s, id, r.(phase := Settled(false)))
  }

  function DoResume(s: State, id: nat): State
    requires Enabled(s, Resume(id))
  {
    var r := s.requests[id];
    if s.refreshes[r.phase.refresh].phase.ok then
      SetRequest(s.(store := Recall(s.store)), id, Replayed(r, Token(s.store)))
    else
      SetRequest(SessionExpired(s), id, r.(phase := Settled(false)))
  }

  /** The server accepts one generation only; an older one it reports as reuse. */
  function DoRefreshReceive(s: State, k: nat, answer: RefreshReply): State
    requires Enabled(s, RefreshReceive(k, answer))
  {
    match answer
    case Refused(unauthenticated) =>
      SetPhase(if unauthenticated then SessionExpired(s) else s, k, Finishing(false))
    case Rotated(token) =>
      if s.refreshes[k].phase.presented == s.current then
        SetPhase(s.(current := s.current + 1, cookie := s.current + 1), k, Answered(token))
      else
        SetPhase(SessionExpired(s.(reuseDetected := true)), k, Finishing(false))
  }

  /** defaultRefresh after its await: an answer without a token is a failure. */
  function DoRefreshContinue(s: State, k: nat): State
    requires Enabled(s, RefreshContinue(k))
  {
    var token := s.refreshes[k].phase.token;
    if token == "" then SetPhase(s, k, Finishing(false))
    else SetPhase(s.(store := Set(s.store, Pair(token)), touch := ByRefresh(k, token)), k, Finishing(true))
  }

  function Next(s: State, a: Action): State
    requires Enabled(s, a)
  {
    match a
    case Submit(cfg) => s.(requests := s.requests + [Request(cfg, Queued, [], false, "")])
    case Outside(pair) => s.(store := Set(s.store, pair), touch := ByOthers)
    case StorageChange(now) => s.(store := s.store.(storage := now))
    case Send(id, newTrace) => DoSend(s, id, newTrace)
    case Receive(id, reply, handlerThrows) => DoReceive(s, id, reply, handlerThrows)
    case Resume(id) => DoResume(s, id)
    case RefreshSend(k) =>
      SetPhase(s.(store := Recall(s.store), presented := s.presented + [(s.cookie, s.current)]), k, AtServer(s.cookie))
    case RefreshReceive(k, answer) => DoRefreshReceive(s, k, answer)
    case RefreshContinue(k) => DoRefreshContinue(s, k)
    case RefreshFinally(k) => SetPhase(s.(slot := None), k, Done(s.refreshes[k].phase.ok))
  }

  predicate Init(s: State) {
    && s.cookie == s.current && !s.reuseDetected && s.slot.None?
    && s.refreshes == [] && s.requests == [] && s.expiries == 0 && s.presented == [] && s.touch.ByOthers?
  }

  // ---- runs ----------------------------------------------------------------------------------

  ghost predicate Runs(s: State, actions: seq<Action>)
    decreases |actions|
  {
    actions == [] || (Enabled(s, actions[0]) && Runs(Next(s, actions[0]), actions[1..]))
  }

  ghost function After(s: State, actions: seq<Action>): State
    requires Runs(s, actions)
    decreases |actions|
  {
    if actions == [] then s else After(Next(s, actions[0]), actions[1..])
  }

  /** A refresh handler that throws before its first await, at the moment it is asked to refresh. */
  predicate ThrowsAtStart(s: State, a: Action)
    requires Enabled(s, a)
  {
    a.Receive? && a.handlerThrows && Refreshable(s.requests[a.id].cfg, a.reply) && s.slot.None?
  }

  /** No refresh handler of the run throws before its first await (an async handler cannot). */
  ghost predicate Polite(s: State, actions: seq<Action>)
    requires Runs(s, actions)
    decreases |actions|
  {
    actions == [] || (!ThrowsAtStart(s, actions[0]) && Polite(Next(s, actions[0]), actions[1..]))
  }
}
