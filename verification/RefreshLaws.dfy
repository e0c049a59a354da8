/** What a whole run says about one request or one refresh: its headers, its outcome, what started it. */
module RefreshLaws {
  import opened Text
  import opened TokenStore
  import opened RefreshProtocol
  import opened RefreshSafety

  // ---- prefixes of a run ----------------------------------------------------------------------------

  lemma {:induction false} LastStep(s: State, actions: seq<Action>, a: Action)
    requires Runs(s, actions + [a])
    ensures Runs(s, actions) && Enabled(After(s, actions), a)
    ensures After(s, actions + [a]) == Next(After(s, actions), a)
    decreases |actions|
  {
    hide Next, Enabled;
    if actions != [] {
      Tail(actions, [a]);
      LastStep(Next(s, actions[0]), actions[1..], a);
    } else {
      assert [] + [a] == [a] && [a][1..] == [];
    }
  }

  lemma {:induction false} PrefixRuns(s: State, actions: seq<Action>, n: nat)
    requires Runs(s, actions) && n <= |actions|
    ensures Runs(s, actions[..n])
    decreases |actions| - n
  {
    hide Next, Enabled, Runs;
    if n < |actions| {
      PrefixRuns(s, actions, n + 1);
      assert actions[..n + 1] == actions[..n] + [actions[n]];
      LastStep(s, actions[..n], actions[n]);
    } else {
      assert actions[..n] == actions;
    }
  }

  /** The state before the `n`-th action. */
  ghost function Before(s: State, actions: seq<Action>, n: nat): State
    requires Runs(s, actions) && n <= |actions|
  {
    PrefixRuns(s, actions, n);
    After(s, actions[..n])
  }

  lemma BeforeStays(s: State, actions: seq<Action>, a: Action, n: nat)
    requires Runs(s, actions + [a]) && n <= |actions|
    ensures Runs(s, actions) && Before(s, actions + [a], n) == Before(s, actions, n)
  {
    hide Runs, After;
    LastStep(s, actions, a);
    assert (actions + [a])[..n] == actions[..n];
  }

  /** What one action does to a request it does not move, and where it leaves the one it moves. */
  lemma OthersStay(s: State, a: Action, id: nat)
    requires Enabled(s, a) && id < |s.requests| && Mover(a) != Some(id)
    ensures id < |Next(s, a).requests| && Next(s, a).requests[id] == s.requests[id]
  {
    hide Next, Enabled;
    OneRequestMoves(s, a);
  }

  lemma NewOnly(s: State, a: Action, id: nat)
    requires Enabled(s, a) && |s.requests| <= id < |Next(s, a).requests|
    ensures a.Submit? && id == |s.requests| && Next(s, a).requests[id] == Request(a.cfg, Queued, [], false, "")
  {
    hide Next, Enabled;
    OneRequestMoves(s, a);
  }

  // ---- the headers of a first attempt ---------------------------------------------------------------

  /**
   * The caller's headers win; else the token in the store, the caller's idempotency key, and a new trace
   * id unless the path is outside the API prefix.
   */
  predicate FirstHeaders(cfg: Config, token: string, newTrace: string, h: Headers) {
    && h.auth == (if cfg.headers.auth.Some? then cfg.headers.auth else if token != "" then Some("Bearer " + token) else None)
    && h.idem == (if cfg.headers.idem.Some? then cfg.headers.idem
                  else if cfg.idempotencyKey != "" then Some(cfg.idempotencyKey) else None)
    && h.trace == (if cfg.headers.trace.Some? then cfg.headers.trace else if cfg.absolute then None else Some(newTrace))
  }

  /** The `j`-th action handed in request `id` with this configuration. */
  ghost predicate SubmittedAt(s: State, actions: seq<Action>, j: int, id: nat, cfg: Config)
    requires Runs(s, actions)
  {
    0 <= j < |actions| && actions[j] == Submit(cfg) && |Before(s, actions, j).requests| == id
  }

  /** The `k`-th action sent it out with the headers that were due, given the token the store returned then. */
  ghost predicate SentAt(s: State, actions: seq<Action>, k: int, id: nat, cfg: Config, h: Headers)
    requires Runs(s, actions)
  {
    && 0 <= k < |actions| && actions[k].Send? && actions[k].id == id
    && FirstHeaders(cfg, Token(Before(s, actions, k).store), actions[k].newTrace, h)
  }

  ghost predicate Handed(s: State, actions: seq<Action>, id: nat, cfg: Config)
    requires Runs(s, actions)
  {
    exists j :: SubmittedAt(s, actions, j, id, cfg)
  }

  ghost predicate FirstSent(s: State, actions: seq<Action>, id: nat, h: Headers)
    requires Runs(s, actions)
  {
    exists j, k, cfg :: SubmittedAt(s, actions, j, id, cfg) && SentAt(s, actions, k, id, cfg, h) && j < k
  }

  ghost predicate HeaderLaw(s: State, actions: seq<Action>, id: nat)
    requires Runs(s, actions)
  {
    var t := After(s, actions);
    id < |t.requests| ==>
      var r := t.requests[id];
      && (r.phase.Queued? && !r.replayed ==> Handed(s, actions, id, r.cfg))
      && (r.sent != [] ==> FirstSent(s, actions, id, r.sent[0]))
  }

  lemma HandedStays(s: State, actions: seq<Action>, a: Action, id: nat, cfg: Config)
    requires Runs(s, actions + [a]) && Runs(s, actions) && Handed(s, actions, id, cfg)
    ensures Handed(s, actions + [a], id, cfg)
  {
    hide Runs, Before;
    var j :| SubmittedAt(s, actions, j, id, cfg);
    BeforeStays(s, actions, a, j);
    assert SubmittedAt(s, actions + [a], j, id, cfg);
  }

  lemma FirstSentStays(s: State, actions: seq<Action>, a: Action, id: nat, h: Headers)
    requires Runs(s, actions + [a]) && Runs(s, actions) && FirstSent(s, actions, id, h)
    ensures FirstSent(s, actions + [a], id, h)
  {
    hide Runs, Before, FirstHeaders;
    var j, k, cfg :| SubmittedAt(s, actions, j, id, cfg) && SentAt(s, actions, k, id, cfg, h) && j < k;
    BeforeStays(s, actions, a, j);
    BeforeStays(s, actions, a, k);
    assert SubmittedAt(s, actions + [a], j, id, cfg) && SentAt(s, actions + [a], k, id, cfg, h);
  }

  /** What a move does to the log of attempts. */
  lemma MoveOfRequest(s: State, a: Action, id: nat)
    requires Enabled(s, a) && Mover(a) == Some(id) && RequestsOk(s)
    ensures id < |s.requests| && id < |Next(s, a).requests|
    ensures var r, u := s.requests[id], Next(s, a).requests[id];
            && !(u.phase.Queued? && !u.replayed)
            && (!a.Send? ==> u.sent == r.sent)
            && (a.Send? ==> r.phase.Queued? && |u.sent| == |r.sent| + 1 && u.sent[..|r.sent|] == r.sent)
            && (a.Send? && r.sent == [] ==>
                  !r.replayed && FirstHeaders(r.cfg, Token(s.store), a.newTrace, u.sent[0]))
  {
    hide Recall, Clear, Token, Set;
    assert RequestOk(s.requests[id]);
  }

  lemma HeaderLawKept(s: State, actions: seq<Action>, a: Action, id: nat)
    requires Init(s) && Runs(s, actions + [a]) && Runs(s, actions) && HeaderLaw(s, actions, id)
    ensures HeaderLaw(s, actions + [a], id)
  {
    hide Runs, After, Before, Next, Enabled, Handed, FirstSent, RequestsOk;
    var u := After(s, actions);
    LastStep(s, actions, a);
    InitInv(s);
    FrugalReached(s, actions);
    var t := Next(u, a);
    if id < |t.requests| {
      if id >= |u.requests| {
        NewOnly(u, a, id);
        NowHanded(s, actions, a, id);
      } else if Mover(a) != Some(id) {
        OthersStay(u, a, id);
        var r := u.requests[id];
        if r.phase.Queued? && !r.replayed { HandedStays(s, actions, a, id, r.cfg); }
        if r.sent != [] { FirstSentStays(s, actions, a, id, r.sent[0]); }
      } else {
        MoveOfRequest(u, a, id);
        var r := u.requests[id];
        if r.sent != [] {
          FirstSentStays(s, actions, a, id, r.sent[0]);
          assert t.requests[id].sent[0] == r.sent[0] by {
            if a.Send? { assert t.requests[id].sent[..|r.sent|][0] == r.sent[0]; }
          }
        } else if a.Send? {
          NowSent(s, actions, a, id, t.requests[id].sent[0]);
        }
      }
    }
  }

  lemma NowHanded(s: State, actions: seq<Action>, a: Action, id: nat)
    requires Runs(s, actions + [a]) && Runs(s, actions) && a.Submit? && id == |After(s, actions).requests|
    ensures Handed(s, actions + [a], id, a.cfg)
  {
    hide Runs, After;
    assert (actions + [a])[..|actions|] == actions;
    assert SubmittedAt(s, actions + [a], |actions|, id, a.cfg);
  }

  lemma NowSent(s: State, actions: seq<Action>, a: Action, id: nat, h: Headers)
    requires Runs(s, actions + [a]) && Runs(s, actions) && a.Send? && a.id == id && id < |After(s, actions).requests|
    requires var r := After(s, actions).requests[id];
             Handed(s, actions, id, r.cfg) && FirstHeaders(r.cfg, Token(After(s, actions).store), a.newTrace, h)
    ensures FirstSent(s, actions + [a], id, h)
  {
    hide Runs, After, FirstHeaders, Token;
    var cfg := After(s, actions).requests[id].cfg;
    var j :| SubmittedAt(s, actions, j, id, cfg);
    BeforeStays(s, actions, a, j);
    assert (actions + [a])[..|actions|] == actions;
    assert SubmittedAt(s, actions + [a], j, id, cfg) && SentAt(s, actions + [a], |actions|, id, cfg, h);
  }

  lemma {:induction false} HeaderLawHolds(s: State, actions: seq<Action>, id: nat)
    requires Init(s) && Runs(s, actions)
    ensures HeaderLaw(s, actions, id)
    decreases |actions|
  {
    hide Runs, After, HeaderLaw, Next, Enabled;
    if actions != [] {
      var init, last := actions[..|actions| - 1], actions[|actions| - 1];
      assert actions == init + [last];
      LastStep(s, init, last);
      HeaderLawHolds(s, init, id);
      HeaderLawKept(s, init, last, id);
    } else {
      NothingYet(s, id);
    }
  }

  lemma NothingYet(s: State, id: nat)
    requires Init(s)
    ensures HeaderLaw(s, [], id)
  {
  }

  /**
   * FIRST ATTEMPTS, in every run: what went out first under a request is what its caller handed in, with
   * the token that the store returned at that moment, the caller's key and the trace id made for it.
   */
  lemma FirstAttemptHeaders(s: State, actions: seq<Action>, id: nat)
    requires Init(s) && Runs(s, actions)
    requires id < |After(s, actions).requests| && After(s, actions).requests[id].sent != []
    ensures FirstSent(s, actions, id, After(s, actions).requests[id].sent[0])
  {
    hide Runs, After, FirstSent;
    HeaderLawHolds(s, actions, id);
  }

  // ---- how requests end -----------------------------------------------------------------------------

  predicate SuccessFor(a: Action, id: nat) {
    a.Receive? && a.id == id && a.reply.Success?
  }

  lemma SettlesOkExactly(s: State, a: Action, id: nat)
    requires Enabled(s, a) && id < |Next(s, a).requests|
    ensures Next(s, a).requests[id].phase == Settled(true) <==>
            SuccessFor(a, id) || (id < |s.requests| && s.requests[id].phase == Settled(true))
  {
    hide Intercept, Recall, Clear, Token, Set;
    if Mover(a) != Some(id) {
      if id < |s.requests| { OthersStay(s, a, id); } else { NewOnly(s, a, id); }
    }
  }

  /** SUCCESS, in every run: a request ends well exactly if it received a success. */
  lemma {:induction false} SuccessExactly(s: State, actions: seq<Action>, id: nat)
    requires Init(s) && Runs(s, actions)
    ensures id < |After(s, actions).requests| && After(s, actions).requests[id].phase == Settled(true)
            <==> exists k :: 0 <= k < |actions| && SuccessFor(actions[k], id)
    decreases |actions|
  {
    hide Runs, After, Next, Enabled, SuccessFor;
    if actions != [] {
      var init, last := actions[..|actions| - 1], actions[|actions| - 1];
      assert actions == init + [last];
      LastStep(s, init, last);
      SuccessExactly(s, init, id);
      var u := After(s, init);
      OneRequestMoves(u, last);
      MoverIsThere(u, last);
      if id < |Next(u, last).requests| { SettlesOkExactly(u, last, id); }
      SuccessNeedsRequest(u, last, id);
      assert forall k :: 0 <= k < |init| ==> init[k] == actions[k];
    } else {
      assert After(s, actions) == s by { Unmoved(s); }
    }
  }

  lemma Unmoved(s: State)
    ensures Runs(s, []) && After(s, []) == s
  {
  }

  lemma MoverIsThere(s: State, a: Action)
    requires Enabled(s, a)
    ensures |Next(s, a).requests| >= |s.requests|
  {
    hide Next, Enabled;
    OneRequestMoves(s, a);
  }

  lemma SuccessNeedsRequest(s: State, a: Action, id: nat)
    requires Enabled(s, a)
    ensures SuccessFor(a, id) ==> id < |s.requests|
  {
    hide Next;
  }

  // ---- what starts a refresh, and what ends a session --------------------------------------------------

  /** A refresh starts exactly on a 401-like failure of a request that may refresh, while none is in the slot. */
  lemma RefreshStartsExactly(s: State, a: Action)
    requires Enabled(s, a)
    ensures |Next(s, a).refreshes| > |s.refreshes| <==>
            && a.Receive? && a.reply.Failure? && a.reply.authLike
            && !s.requests[a.id].cfg.skipAuthRefresh && !s.requests[a.id].cfg.retried && s.slot.None?
  {
    hide Intercept, Recall, Clear, Token, Set;
  }

  /** The three ways a reply can take a request: success, waiting for the refresh in the slot, failure. */
  lemma ReplyExactly(s: State, id: nat, reply: Reply, throws: bool)
    requires Enabled(s, Receive(id, reply, throws))
    ensures var r, t := s.requests[id], Next(s, Receive(id, reply, throws));
            var u := t.requests[id];
            && (reply.Success? ==> u.phase == Settled(true) && t.slot == s.slot && t.store == s.store)
            && (reply.Failure? && reply.authLike && !r.cfg.skipAuthRefresh && !r.cfg.retried ==>
                  u.phase.Waiting? && t.slot == Some(u.phase.refresh) && (s.slot.Some? ==> t.slot == s.slot))
            && (reply.Failure? && (!reply.authLike || r.cfg.skipAuthRefresh || r.cfg.retried) ==>
                  u.phase == Settled(false) && t.slot == s.slot)
  {
    hide Recall, Clear, Token, Set;
  }

  /** After its wait a request is replayed if the refresh succeeded, and fails if it did not. */
  lemma ResumeExactly(s: State, id: nat)
    requires Enabled(s, Resume(id))
    ensures var ok := s.refreshes[s.requests[id].phase.refresh].phase.ok;
            var r, u := s.requests[id], Next(s, Resume(id)).requests[id];
            && (ok ==> u.phase.Queued? && u.replayed && u.cfg.retried && u.cfg.idempotencyKey == r.cfg.idempotencyKey
                       && u.cfg.headers.trace == r.cfg.headers.trace && u.cfg.headers.idem == r.cfg.headers.idem)
            && (!ok ==> u.phase == Settled(false))
  {
    hide Recall, Clear, Token;
  }

  /** The session is reported as expired exactly in these four cases. */
  lemma ExpiresExactly(s: State, a: Action)
    requires Enabled(s, a)
    ensures Next(s, a).expiries == s.expiries + 1 <==>
            || (a.Receive? && a.reply.Failure? && a.reply.unauthenticated
                && (!a.reply.authLike || s.requests[a.id].cfg.skipAuthRefresh || s.requests[a.id].cfg.retried))
            || (a.Resume? && s.refreshes[s.requests[a.id].phase.refresh].phase == Done(false))
            || (a.RefreshReceive? && a.answer.Refused? && a.answer.unauthenticated)
            || (a.RefreshReceive? && a.answer.Rotated? && s.refreshes[a.k].phase.presented != s.current)
    ensures Next(s, a).expiries == s.expiries || Next(s, a).expiries == s.expiries + 1
    ensures Next(s, a).expiries == s.expiries + 1 ==> Next(s, a).store.memory == ""
  {
    hide Intercept, Recall, Token, Set;
  }

  // ---- how refreshes end -----------------------------------------------------------------------------

  lemma {:induction false} PoliteBefore(s: State, actions: seq<Action>, a: Action)
    requires Runs(s, actions + [a]) && Polite(s, actions + [a])
    ensures Runs(s, actions) && Polite(s, actions)
    decreases |actions|
  {
    hide Next, Enabled, ThrowsAtStart;
    LastStep(s, actions, a);
    if actions != [] {
      Tail(actions, [a]);
      PoliteBefore(Next(s, actions[0]), actions[1..], a);
    }
  }

  /** The server answered the refresh, and if so with a rotation to this token. */
  predicate AnswerFor(a: Action, k: nat) {
    a.RefreshReceive? && a.k == k
  }

  predicate RotationFor(a: Action, k: nat, token: string) {
    a == RefreshReceive(k, Rotated(token))
  }

  ghost predicate AnswerCame(actions: seq<Action>, k: nat) {
    exists i :: 0 <= i < |actions| && AnswerFor(actions[i], k)
  }

  ghost predicate RotatedTo(actions: seq<Action>, k: nat, token: string) {
    exists i :: 0 <= i < |actions| && RotationFor(actions[i], k, token)
  }

  lemma OneMoreAnswer(actions: seq<Action>, a: Action, k: nat)
    ensures AnswerCame(actions + [a], k) <==> AnswerCame(actions, k) || AnswerFor(a, k)
    ensures forall token :: RotatedTo(actions + [a], k, token) <==> RotatedTo(actions, k, token) || RotationFor(a, k, token)
    ensures forall token :: RotatedTo(actions, k, token) ==> AnswerCame(actions, k)
  {
    hide AnswerFor, RotationFor;
    RotationIsAnswer(k);
    var more := actions + [a];
    assert more[|actions|] == a && forall i :: 0 <= i < |actions| ==> more[i] == actions[i];
  }

  lemma RotationIsAnswer(k: nat)
    ensures forall a: Action, token :: RotationFor(a, k, token) ==> AnswerFor(a, k)
  {
  }

  /** How a refresh moves. */
  lemma MoveOfRefresh(s: State, a: Action, k: nat)
    requires Enabled(s, a) && CookieCurrent(s) && k < |Next(s, a).refreshes|
    ensures k == |s.refreshes| ==> (Next(s, a).refreshes[k].phase.Asked? || Next(s, a).refreshes[k].phase == Done(false))
                                   && !AnswerFor(a, k)
    ensures k < |s.refreshes| ==>
              var was, now := s.refreshes[k].phase, Next(s, a).refreshes[k].phase;
              if a == RefreshSend(k) then was.Asked? && now.AtServer?
              else if AnswerFor(a, k) then
                was.AtServer? && now == if a.answer.Refused? then Finishing(false) else Answered(a.answer.token)
              else if a == RefreshContinue(k) then was.Answered? && now == Finishing(was.token != "")
              else if a == RefreshFinally(k) then was.Finishing? && now == Done(was.ok)
              else now == was
    ensures k <= |s.refreshes|
  {
    hide Intercept, Sent, Replayed, Recall, Clear, Token, Set;
  }

  ghost predicate OutcomeLaw(s: State, actions: seq<Action>, k: nat)
    requires Runs(s, actions)
  {
    var t := After(s, actions);
    if k >= |t.refreshes| then !AnswerCame(actions, k)
    else
      match t.refreshes[k].phase
      case Asked => !AnswerCame(actions, k)
      case AtServer(_) => !AnswerCame(actions, k)
      case Answered(token) => forall w :: RotatedTo(actions, k, w) <==> w == token
      case Finishing(ok) => ok <==> exists w :: w != "" && RotatedTo(actions, k, w)
      case Done(ok) => ok <==> exists w :: w != "" && RotatedTo(actions, k, w)
  }

  lemma OutcomeLawKept(s: State, actions: seq<Action>, a: Action, k: nat)
    requires Runs(s, actions + [a]) && Runs(s, actions) && CookieCurrent(After(s, actions)) && OutcomeLaw(s, actions, k)
    ensures OutcomeLaw(s, actions + [a], k)
  {
    hide Runs, After, Next, Enabled, CookieCurrent, AnswerCame, RotatedTo;
    var u := After(s, actions);
    LastStep(s, actions, a);
    OneMoreAnswer(actions, a, k);
    AnswerNeedsRefresh(u, a, k);
    if k < |Next(u, a).refreshes| {
      MoveOfRefresh(u, a, k);
      if k < |u.refreshes| && u.refreshes[k].phase.Answered? {
        var token := u.refreshes[k].phase.token;
        assert RotatedTo(actions, k, token) && RotatedTo(actions + [a], k, token);
      }
      if AnswerFor(a, k) && a.answer.Rotated? { assert RotationFor(a, k, a.answer.token); }
    }
  }

  lemma AnswerNeedsRefresh(s: State, a: Action, k: nat)
    requires Enabled(s, a)
    ensures AnswerFor(a, k) ==> k < |s.refreshes|
    ensures |Next(s, a).refreshes| >= |s.refreshes|
  {
    hide Next;
    OneRequestMoves(s, a);
  }

  lemma {:induction false} OutcomeLawHolds(s: State, actions: seq<Action>, k: nat)
    requires Init(s) && Runs(s, actions) && Polite(s, actions)
    ensures OutcomeLaw(s, actions, k)
    decreases |actions|
  {
    hide Runs, After, Next, Enabled, Polite, Inv, OutcomeLaw;
    if actions != [] {
      var init, last := actions[..|actions| - 1], actions[|actions| - 1];
      assert actions == init + [last];
      PoliteBefore(s, init, last);
      OutcomeLawHolds(s, init, k);
      InitInv(s);
      InvReached(s, init);
      CookieOfInv(After(s, init));
      OutcomeLawKept(s, init, last, k);
    } else {
      NoAnswerYet(s, k);
    }
  }

  lemma CookieOfInv(s: State)
    requires Inv(s)
    ensures CookieCurrent(s)
  {
  }

  lemma NoAnswerYet(s: State, k: nat)
    requires Init(s)
    ensures OutcomeLaw(s, [], k)
  {
  }

  /** REFRESHES: one that is over succeeded exactly if the server answered it with a rotation and a token. */
  lemma RefreshSucceedsExactly(s: State, actions: seq<Action>, k: nat)
    requires Init(s) && Runs(s, actions) && Polite(s, actions)
    requires k < |After(s, actions).refreshes| && After(s, actions).refreshes[k].phase.Done?
    ensures After(s, actions).refreshes[k].phase.ok <==>
            exists i, token :: 0 <= i < |actions| && token != "" && actions[i] == RefreshReceive(k, Rotated(token))
  {
    hide Runs, After, Polite;
    OutcomeLawHolds(s, actions, k);
    if i, token :| 0 <= i < |actions| && token != "" && actions[i] == RefreshReceive(k, Rotated(token)) {
      assert RotationFor(actions[i], k, token) && RotatedTo(actions, k, token);
    }
  }
}
