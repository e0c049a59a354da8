/**
 * The client object (client.ts). Each method is the code between two `await`s. Its contract names the
 * protocol action it is, says that a valid client stays valid, and what a caller of a valid client can
 * rely on; so the protocol's invariant holds after every sequence of calls.
 */
module HttpClient {
  import opened Text
  import opened TokenStore
  import opened RefreshProtocol
  import opened RefreshSafety
  import opened RefreshLaws

  // ---- what a valid client guarantees ------------------------------------------------------------

  lemma SentTwiceAtMost(s: State, id: nat)
    requires Inv(s) && id < |s.requests|
    ensures |s.requests[id].sent| <= 2
  {
    assert RequestOk(s.requests[id]);
  }

  lemma ReplayOwes(s: State, id: nat)
    requires Inv(s) && Enabled(s, Resume(id))
    ensures var r := Next(s, Resume(id)).requests[id];
            r.phase.Queued? ==> r.replayed && |r.sent| == 1 && ReplayOf(r, r.cfg.headers)
  {
    hide Next, Enabled, ReplayOf;
    InvKept(s, Resume(id));
    ResumedIsReplay(s, id);
    assert RequestOk(Next(s, Resume(id)).requests[id]);
  }

  lemma ResumedIsReplay(s: State, id: nat)
    requires Enabled(s, Resume(id))
    ensures var t := Next(s, Resume(id)); id < |t.requests| && (t.requests[id].phase.Queued? ==> t.requests[id].replayed)
  {
    hide Recall, Clear, Token;
  }

  lemma PresentsCurrent(s: State, k: nat)
    requires Inv(s) && Enabled(s, RefreshSend(k))
    ensures var t := Next(s, RefreshSend(k)); t.refreshes[k].phase == AtServer(t.current) && |t.presented| <= |t.refreshes|
  {
    InvKept(s, RefreshSend(k));
  }

  /** A refresh that is answered with a rotation was the one generation in force, and so is its successor. */
  lemma AnswersCurrent(s: State, k: nat, answer: RefreshReply)
    requires Inv(s) && Enabled(s, RefreshReceive(k, answer))
    ensures var t := Next(s, RefreshReceive(k, answer));
            && !t.reuseDetected && t.cookie == t.current
            && (answer.Rotated? ==> t.current == s.current + 1 && t.refreshes[k].phase == Answered(answer.token))
  {
    hide Clear;
  }

  lemma FinishesAll(s: State, k: nat)
    requires Inv(s) && Enabled(s, RefreshFinally(k))
    ensures var t := Next(s, RefreshFinally(k));
            t.slot.None? && forall j :: 0 <= j < |t.refreshes| ==> t.refreshes[j].phase.Done?
  {
    InvKept(s, RefreshFinally(k));
  }

  lemma ExpiryKeepsInv(s: State)
    ensures Inv(s) ==> Inv(SessionExpired(s))
  {
    hide RequestOk;
  }

  lemma ReceiveKeepsOrPoisons(s: State, a: Action)
    requires Enabled(s, a)
    ensures Inv(s) && !ThrowsAtStart(s, a) ==> Inv(Next(s, a))
    ensures Inv(s) && ThrowsAtStart(s, a) ==> Poisoned(Next(s, a))
    ensures Poisoned(s) ==> Poisoned(Next(s, a)) && Next(s, a).refreshes == s.refreshes
  {
    hide Next, Enabled, Poisoned, SingleFlight, ThrowsAtStart;
    if Inv(s) {
      if ThrowsAtStart(s, a) { ThrowPoisons(s, a); } else { InvKept(s, a); }
    }
    if Poisoned(s) { PoisonStays(s, a); }
  }

  class NovaHttpClient {
    const tokens: Tokens
    var refreshPromise: Option<nat>
    var refreshes: seq<Refresh>
    var requests: seq<Request>
    var expiries: nat

    // The browser's cookie jar and the server behind the wire.
    var cookie: nat
    var current: nat
    var reuseDetected: bool

    ghost var presented: seq<(nat, nat)>
    ghost var touch: Touch

    ghost function Abs(): State
      reads this, tokens
    {
      State(tokens.Abs(), cookie, current, reuseDetected, refreshPromise, refreshes, requests, expiries, presented, touch)
    }

    /** The protocol's invariant: single flight, no stale cookie, every request and token accounted for. */
    ghost predicate Valid()
      reads this, tokens
    {
      Inv(Abs())
    }

    constructor (storage: Storage, generation: nat)
      ensures fresh(tokens) && Init(Abs()) && Valid()
    {
      tokens := new Tokens(storage);
      refreshPromise, refreshes, requests, expiries := None, [], [], 0;
      cookie, current, reuseDetected := generation, generation, false;
      presented, touch := [], ByOthers;
      new;
      InitInv(Abs());
    }

    method Request(cfg: Config) returns (id: nat)
      modifies this
      ensures Abs() == Next(old(Abs()), Submit(cfg)) && id == |old(requests)|
      ensures old(Valid()) ==> Valid()
    {
      hide Inv;
      ghost var before := Abs();
      if Inv(before) {
        InvKept(before, Submit(cfg));
      }
      id := |requests|;
      requests := requests + [RefreshProtocol.Request(cfg, Queued, [], false, "")];
    }

    method RequestInterceptor(cfg: Config, newTrace: string) returns (out: Config)
      modifies tokens
      ensures out == Intercept(cfg, Token(old(tokens.Abs())), newTrace)
      ensures tokens.Abs() == Recall(old(tokens.Abs()))
      ensures FirstHeaders(cfg, tokens.accessToken, newTrace, out.headers)
      ensures out == cfg.(headers := out.headers)
    {
      var headers := cfg.headers;
      if !cfg.absolute {
        if headers.trace.None? {
          headers := headers.(trace := Some(newTrace));
        }
      }
      var token := tokens.GetAccessToken();
      if token != "" && headers.auth.None? {
        headers := headers.(auth := Some(Bearer(token)));
      }
      if cfg.idempotencyKey != "" && headers.idem.None? {
        headers := headers.(idem := Some(cfg.idempotencyKey));
      }
      out := cfg.(headers := headers);
    }

    method Dispatch(id: nat, newTrace: string)
      requires Enabled(Abs(), Send(id, newTrace))
      modifies this, tokens
      ensures Abs() == Next(old(Abs()), Send(id, newTrace))
      ensures old(Valid()) ==> Valid() && |requests[id].sent| <= 2
    {
      hide Inv;
      ghost var before := Abs();
      if Inv(before) {
        InvKept(before, Send(id, newTrace));
        SentTwiceAtMost(Next(before, Send(id, newTrace)), id);
      }
      var r := requests[id];
      var cfg := RequestInterceptor(r.cfg, newTrace);
      requests := requests[id := r.(cfg := cfg, phase := OnWire, sent := r.sent + [cfg.headers])];
    }

    method ExpireSession()
      modifies this, tokens
      ensures Abs() == SessionExpired(old(Abs()))
      ensures old(Valid()) ==> Valid()
    {
      ExpiryKeepsInv(Abs());
      tokens.ClearTokens();
      expiries := expiries + 1;
      touch := ByOthers;
    }

    /** The promise in the slot if there is one; otherwise a new refresh, then the slot. */
    method JoinRefresh(id: nat, handlerThrows: bool) returns (k: nat)
      modifies this
      ensures (Abs(), k) == RefreshOnce(old(Abs()), id, handlerThrows)
      ensures old(SingleFlight(Abs())) ==> (SingleFlight(Abs()) <==> !(handlerThrows && old(refreshPromise).None?))
    {
      if refreshPromise.Some? {
        return refreshPromise.value;
      }
      k := |refreshes|;
      if handlerThrows {
        // The async wrapper runs up to the throw and through its `finally` before the assignment below.
        refreshPromise := None;
        refreshes := refreshes + [Refresh(id, Done(false))];
      } else {
        refreshes := refreshes + [Refresh(id, Asked)];
      }
      refreshPromise := Some(k);
    }

    /** The response interceptors, up to the await of the refresh. */
    method HandleResponse(id: nat, reply: Reply, handlerThrows: bool)
      requires Enabled(Abs(), Receive(id, reply, handlerThrows))
      modifies this, tokens
      ensures Abs() == Next(old(Abs()), Receive(id, reply, handlerThrows))
      ensures old(Valid()) && !old(ThrowsAtStart(Abs(), Receive(id, reply, handlerThrows))) ==> Valid()
      ensures old(Valid()) && old(ThrowsAtStart(Abs(), Receive(id, reply, handlerThrows))) ==> Poisoned(Abs())
      ensures old(Poisoned(Abs())) ==> Poisoned(Abs()) && refreshes == old(refreshes)
    {
      hide Inv, Poisoned, SingleFlight, ThrowsAtStart;
      ReceiveKeepsOrPoisons(Abs(), Receive(id, reply, handlerThrows));
      var r := requests[id];
      if reply.Success? {
        requests := requests[id := r.(phase := Settled(true))];
        return;
      }
      var refreshable := !r.cfg.skipAuthRefresh && !r.cfg.retried && reply.authLike;
      if refreshable {
        var k := JoinRefresh(id, handlerThrows);
        requests := requests[id := r.(phase := Waiting(k))];
        return;
      }
      if reply.unauthenticated {
        ExpireSession();
      }
      requests := requests[id := r.(phase := Settled(false))];
    }

    /** The response handler after its await: fail, or replay with the token the store has now. */
    method ResumeAfterRefresh(id: nat)
      requires Enabled(Abs(), Resume(id))
      modifies this, tokens
      ensures Abs() == Next(old(Abs()), Resume(id))
      ensures old(Valid()) ==> Valid()
      ensures old(Valid()) && requests[id].phase.Queued? ==>
                requests[id].replayed && |requests[id].sent| == 1 && ReplayOf(requests[id], requests[id].cfg.headers)
    {
      hide Inv;
      ghost var before := Abs();
      if Inv(before) {
        InvKept(before, Resume(id));
        ReplayOwes(before, id);
      }
      var r := requests[id];
      if !refreshes[r.phase.refresh].phase.ok {
        ExpireSession();
        requests := requests[id := r.(phase := Settled(false))];
        return;
      }
      var headers := r.cfg.headers;
      var reread := tokens.GetAccessToken();
      if reread != "" {
        headers := headers.(auth := Some(Bearer(reread)));
      }
      var replay := r.cfg.(headers := headers, retried := true);
      requests := requests[id := r.(cfg := replay, phase := Queued, replayed := true, reread := reread)];
    }

    /** The refresh request leaves with the cookie the browser holds. */
    method DispatchRefresh(k: nat)
      requires Enabled(Abs(), RefreshSend(k))
      modifies this, tokens
      ensures Abs() == Next(old(Abs()), RefreshSend(k))
      ensures old(Valid()) ==> Valid() && refreshes[k].phase == AtServer(current) && |presented| <= |refreshes|
    {
      hide Inv;
      ghost var before := Abs();
      if Inv(before) {
        InvKept(before, RefreshSend(k));
        PresentsCurrent(before, k);
      }
      var _ := tokens.GetAccessToken();
      refreshes := refreshes[k := refreshes[k].(phase := AtServer(cookie))];
      presented := presented + [(cookie, current)];
    }

    /** The server answers: it rotates the generation in force and reports an older one as reuse. */
    method AnswerRefresh(k: nat, answer: RefreshReply)
      requires Enabled(Abs(), RefreshReceive(k, answer))
      modifies this, tokens
      ensures Abs() == Next(old(Abs()), RefreshReceive(k, answer))
      ensures old(Valid()) ==> Valid() && !reuseDetected && cookie == current
      ensures old(Valid()) && answer.Rotated? ==> current == old(current) + 1 && refreshes[k].phase == Answered(answer.token)
    {
      hide Inv;
      ghost var before := Abs();
      if Inv(before) {
        InvKept(before, RefreshReceive(k, answer));
        AnswersCurrent(before, k, answer);
      }
      var next := Finishing(false);
      if answer.Refused? {
        if answer.unauthenticated {
          ExpireSession();
        }
      } else if refreshes[k].phase.presented == current {
        current := current + 1;
        cookie := current;
        next := Answered(answer.token);
      } else {
        reuseDetected := true;
        ExpireSession();
      }
      refreshes := refreshes[k := refreshes[k].(phase := next)];
    }

    /** defaultRefresh after its await. */
    method StoreRefreshedToken(k: nat)
      requires Enabled(Abs(), RefreshContinue(k))
      modifies this, tokens
      ensures Abs() == Next(old(Abs()), RefreshContinue(k))
      ensures old(Valid()) ==> Valid()
      ensures old(refreshes[k].phase.token) != "" ==> Token(tokens.Abs()) == old(refreshes[k].phase.token)
    {
      hide Inv;
      ghost var before := Abs();
      if Inv(before) {
        InvKept(before, RefreshContinue(k));
      }
      var token := refreshes[k].phase.token;
      if token == "" {
        refreshes := refreshes[k := refreshes[k].(phase := Finishing(false))];
        return;
      }
      tokens.SetTokens(Pair(token));
      touch := ByRefresh(k, token);
      refreshes := refreshes[k := refreshes[k].(phase := Finishing(true))];
    }

    /** The `finally` of refreshOnce: the slot is emptied before any waiter runs. */
    method FinishRefresh(k: nat)
      requires Enabled(Abs(), RefreshFinally(k))
      modifies this
      ensures Abs() == Next(old(Abs()), RefreshFinally(k))
      ensures old(Valid()) ==> Valid() && refreshPromise.None? && forall j :: 0 <= j < |refreshes| ==> refreshes[j].phase.Done?
    {
      hide Inv;
      ghost var before := Abs();
      if Inv(before) {
        InvKept(before, RefreshFinally(k));
        FinishesAll(before, k);
      }
      refreshPromise := None;
      refreshes := refreshes[k := refreshes[k].(phase := Done(refreshes[k].phase.ok))];
    }
  }
}
