/** The best-effort lease: acquire loop, fail-open path, compare-and-delete release (distributed_lock). */
module RedisLock {
  import opened Text
  import opened RedisServer

  // ---- the acquire loop of one caller -------------------------------------------------------------

  /** Smallest integer that is not below `x`. */
  function Ceil(x: real): (n: int)
    ensures n as real >= x && n as real - 1.0 < x
  {
    -((-x).Floor)
  }

  function AtLeastOne(n: int): nat {
    if n < 1 then 1 else n
  }

  /** After one SET: enter the body (with or without the lease), or sleep and try again. */
  datatype Turn = Enter(acquired: bool, token: string) | Again(deadline: real)

  function AfterSet(token: string, deadline: real, blocking: bool, result: SetResult): Turn {
    match result
    case Error => Enter(true, "") // proceed unlocked
    case Reply(true) => Enter(true, token)
    case Reply(false) =>
      if !blocking || deadline - 1.0 <= 0.0 then Enter(false, token) else Again(deadline - 1.0)
  }

  /**
   * The loop, with `results(n)` what the backend answers to the n-th SET. A caller that gives up made
   * exactly max(1, ceil(timeout)) attempts when blocking and one otherwise; nobody makes more.
   */
  method Acquire(token: string, blocking: bool, timeout: real, results: nat -> SetResult)
    returns (acquired: bool, held: string, attempts: nat)
    ensures 1 <= attempts <= if blocking then AtLeastOne(Ceil(timeout)) else 1
    ensures forall n :: 0 <= n < attempts - 1 ==> results(n) == Reply(false)
    ensures acquired <==> results(attempts - 1) != Reply(false)
    ensures held == if results(attempts - 1).Error? then "" else token
    ensures !acquired ==> attempts == if blocking then AtLeastOne(Ceil(timeout)) else 1
    ensures forall n :: 0 <= n < attempts - 1 ==> AfterSet(token, timeout - n as real, blocking, results(n)).Again?
    ensures AfterSet(token, timeout - (attempts - 1) as real, blocking, results(attempts - 1)) == Enter(acquired, held)
  {
    acquired, held := false, token;
    attempts := 0;
    var deadline := timeout;
    while true
      invariant deadline == timeout - attempts as real
      invariant attempts > 0 ==> blocking && deadline > 0.0
      invariant forall n :: 0 <= n < attempts ==> results(n) == Reply(false)
      invariant !acquired && held == token
      decreases Ceil(timeout) - attempts
    {
      var result := results(attempts);
      attempts := attempts + 1;
      if result.Error? {
        return true, "", attempts;
      }
      acquired := result.stored;
      if acquired || !blocking {
        break;
      }
      deadline := deadline - 1.0;
      if deadline <= 0.0 {
        break;
      }
    }
  }

  /** The `finally` of the context manager; errors of the release are suppressed. */
  method ReleaseOnExit(redis: Redis, name: string, acquired: bool, held: string, fault: Fault)
    modifies redis
    ensures redis.Abs() ==
            if acquired && held != "" && !fault.FailsBefore? then CompareAndDelete(old(redis.Abs()), LockKey(name), held)
            else old(redis.Abs())
    ensures LockKey(name) in old(redis.cells) && LockKey(name) !in redis.cells <==>
            && acquired && held != "" && !fault.FailsBefore? && LockKey(name) in old(redis.cells)
            && old(redis.now) < old(redis.cells)[LockKey(name)].expiresAt && old(redis.cells)[LockKey(name)].value == held
    ensures forall key :: key != LockKey(name) ==> (key in redis.cells <==> key in old(redis.cells))
    ensures forall key :: key in redis.cells ==> redis.cells[key] == old(redis.cells)[key]
  {
    if acquired && held != "" {
      if !fault.FailsBefore? {
        var _ := redis.ReleaseScript(LockKey(name), held);
      }
    }
  }

  // ---- any number of callers -----------------------------------------------------------------------

  datatype Phase =
    | Trying(token: string, deadline: real)
    | Inside(acquired: bool, token: string, until: nat) // `until`: end of the lease, for a real token
    | Left

  datatype Client = Client(name: string, px: int, blocking: bool, phase: Phase)

  datatype State = State(server: Server, clients: seq<Client>, used: set<string>)

  const LOCK_PREFIX := "nova:lock:"

  function LockKey(name: string): string {
    LOCK_PREFIX + name
  }

  datatype Action =
    | Begin(name: string, ttlSeconds: int, blocking: bool, timeout: real, token: string)
    | TrySet(i: nat, fault: Fault)
    | Leave(i: nat, fault: Fault)
    | Tick(dt: nat)
    | Elsewhere(key: string, cell: Option<Cell>) // caches, counters and claims use other keys

  predicate Enabled(s: State, a: Action) {
    match a
    case Begin(_, _, _, _, token) => token != "" && token !in s.used // uuid4
    case TrySet(i, _) => i < |s.clients| && s.clients[i].phase.Trying?
    case Leave(i, _) => i < |s.clients| && s.clients[i].phase.Inside?
    case Tick(_) => true
    case Elsewhere(key, _) => !(LOCK_PREFIX <= key)
  }

  function SetPhase(s: State, i: nat, phase: Phase): State
    requires i < |s.clients|
  {
    s.(clients := s.clients[i := s.clients[i].(phase := phase)])
  }

  function DoTrySet(s: State, i: nat, fault: Fault): State
    requires Enabled(s, TrySet(i, fault))
  {
    var c := s.clients[i];
    var (server, result) := SetIfAbsent(s.server, LockKey(c.name), c.phase.token, c.px, fault);
    var t := s.(server := server);
    match AfterSet(c.phase.token, c.phase.deadline, c.blocking, result)
    case Enter(acquired, token) => SetPhase(t, i, Inside(acquired, token, if c.px > 0 then s.server.now + c.px else 0))
    case Again(deadline) => SetPhase(t, i, Trying(c.phase.token, deadline))
  }

  /** Leaving the body: release only a lease held under a real token; a failing release is swallowed. */
  function DoLeave(s: State, i: nat, fault: Fault): State
    requires Enabled(s, Leave(i, fault))
  {
    var c := s.clients[i];
    var releases := c.phase.acquired && c.phase.token != "" && !fault.FailsBefore?;
    SetPhase(if releases then s.(server := CompareAndDelete(s.server, LockKey(c.name), c.phase.token)) else s, i, Left)
  }

  function Next(s: State, a: Action): State
    requires Enabled(s, a)
  {
    match a
    case Begin(name, ttl, blocking, timeout, token) =>
      s.(clients := s.clients + [Client(name, ttl * 1000, blocking, Trying(token, timeout))], used := s.used + {token})
    case TrySet(i, fault) => DoTrySet(s, i, fault)
    case Leave(i, fault) => DoLeave(s, i, fault)
    case Tick(dt) => s.(server := Advance(s.server, dt))
    case Elsewhere(key, cell) =>
      s.(server := s.server.(cells := if cell.None? then s.server.cells - {key} else s.server.cells[key := cell.value]))
  }

  predicate Init(s: State) {
    s.clients == []
  }

  ghost predicate Runs(s: State, actions: seq<Action>)
    decreases |actions|
  {
    actions == [] || (Enabled(s, actions[0]) && Runs(Next(s, actions[0]), actions[1..]))
  }

  ghost function After(s: State, actions: seq<Action>): State
    requires Runs(s, actions)
    decreases |actions|
  {
    if actions == [] then s else After(Next(s, actions[0]), actions[1..])
  }

  // ---- the invariant -----------------------------------------------------------------------------

  /** Inside the body under a real token, and the lease has not run out. */
  predicate Holds(s: State, i: int) {
    && 0 <= i < |s.clients| && s.clients[i].phase.Inside? && s.clients[i].phase.acquired
    && s.clients[i].phase.token != "" && s.server.now < s.clients[i].phase.until
  }

  /** The token a client carries; "" once it has none. */
  function TokenOf(c: Client): string {
    if c.phase.Left? then "" else c.phase.token
  }

  ghost predicate TokensDistinct(s: State) {
    && (forall i :: 0 <= i < |s.clients| && TokenOf(s.clients[i]) != "" ==> TokenOf(s.clients[i]) in s.used)
    && (forall i, j :: 0 <= i < j < |s.clients| && TokenOf(s.clients[i]) != "" ==> TokenOf(s.clients[i]) != TokenOf(s.clients[j]))
  }

  predicate CellOf(s: State, i: int)
    requires Holds(s, i)
  {
    var c := s.clients[i];
    LockKey(c.name) in s.server.cells && s.server.cells[LockKey(c.name)] == Cell(c.phase.token, c.phase.until)
  }

  /** Every unexpired lease is backed by its cell on the server. */
  ghost predicate LeasesBacked(s: State) {
    forall i :: Holds(s, i) ==> CellOf(s, i)
  }

  ghost predicate Inv(s: State) {
    TokensDistinct(s) && LeasesBacked(s)
  }

  lemma TokensKept(s: State, a: Action)
    requires TokensDistinct(s) && Enabled(s, a)
    ensures TokensDistinct(Next(s, a))
  {
    hide SetIfAbsent, CompareAndDelete;
  }

  lemma TrySetBacked(s: State, i: nat, fault: Fault)
    requires Inv(s) && Enabled(s, TrySet(i, fault))
    ensures LeasesBacked(DoTrySet(s, i, fault))
  {
    var t := DoTrySet(s, i, fault);
    forall j | Holds(t, j) ensures CellOf(t, j) {
      if j != i { assert Holds(s, j) && t.clients[j] == s.clients[j]; }
    }
  }

  lemma LeaveBacked(s: State, i: nat, fault: Fault)
    requires Inv(s) && Enabled(s, Leave(i, fault))
    ensures LeasesBacked(DoLeave(s, i, fault))
  {
    var t := DoLeave(s, i, fault);
    forall j | Holds(t, j) ensures CellOf(t, j) {
      assert j != i && Holds(s, j) && t.clients[j] == s.clients[j];
      assert TokenOf(s.clients[i]) == "" || TokenOf(s.clients[i]) != TokenOf(s.clients[j]);
    }
  }

  lemma InvKept(s: State, a: Action)
    requires Inv(s) && Enabled(s, a)
    ensures Inv(Next(s, a))
  {
    TokensKept(s, a);
    var t := Next(s, a);
    match a
    case TrySet(i, fault) => TrySetBacked(s, i, fault);
    case Leave(i, fault) => LeaveBacked(s, i, fault);
    case _ =>
      forall j | Holds(t, j) ensures CellOf(t, j) {
        assert Holds(s, j) && t.clients[j] == s.clients[j];
        assert LOCK_PREFIX <= LockKey(s.clients[j].name);
      }
  }

  lemma {:induction false} InvReached(s: State, actions: seq<Action>)
    requires Inv(s) && Runs(s, actions)
    ensures Inv(After(s, actions))
    decreases |actions|
  {
    hide Next, Enabled, Inv;
    if actions != [] {
      InvKept(s, actions[0]);
      InvReached(Next(s, actions[0]), actions[1..]);
    }
  }

  /** MUTUAL EXCLUSION: in every interleaving, with backend failures anywhere, at most one client holds a name. */
  lemma AtMostOneHolder(s: State, actions: seq<Action>, i: int, j: int)
    requires Init(s) && Runs(s, actions)
    requires var t := After(s, actions); Holds(t, i) && Holds(t, j) && t.clients[i].name == t.clients[j].name
    ensures i == j
  {
    hide Next, Enabled, Runs, After;
    InvReached(s, actions);
    var t := After(s, actions);
    assert CellOf(t, i) && CellOf(t, j);
    assert TokenOf(t.clients[i]) == TokenOf(t.clients[j]);
  }

  /**
   * So two clients can be inside one lock together only if one of them went in unlocked (backend error)
   * or outstayed its lease.
   */
  lemma TogetherOnlyIfUnlockedOrExpired(s: State, actions: seq<Action>, i: nat, j: nat)
    requires Init(s) && Runs(s, actions)
    requires var t := After(s, actions);
             && i < |t.clients| && j < |t.clients| && i != j && t.clients[i].name == t.clients[j].name
             && t.clients[i].phase.Inside? && t.clients[i].phase.acquired
             && t.clients[j].phase.Inside? && t.clients[j].phase.acquired
    ensures var t := After(s, actions);
            || t.clients[i].phase.token == "" || t.clients[i].phase.until <= t.server.now
            || t.clients[j].phase.token == "" || t.clients[j].phase.until <= t.server.now
  {
    hide Next, Enabled, Runs, After;
    var t := After(s, actions);
    if Holds(t, i) && Holds(t, j) {
      AtMostOneHolder(s, actions, i, j);
    }
  }

  /**
   * RELEASE: leaving deletes at most the cell that still carries the leaver's own token; no other client
   * loses its lease by it, not even one that took the name over after the leaver's lease had run out.
   */
  lemma ReleaseIsOwn(s: State, actions: seq<Action>, i: nat, fault: Fault)
    requires Init(s) && Runs(s, actions) && Enabled(After(s, actions), Leave(i, fault))
    ensures var t := After(s, actions); var u := Next(t, Leave(i, fault));
            && (forall key :: key in t.server.cells && key !in u.server.cells ==>
                  key == LockKey(t.clients[i].name) && t.server.cells[key].value == t.clients[i].phase.token != "")
            && (forall key :: key in u.server.cells ==> key in t.server.cells && u.server.cells[key] == t.server.cells[key])
            && (forall j :: j != i && Holds(t, j) ==> Holds(u, j) && CellOf(u, j))
  {
    hide Runs, After;
    InvReached(s, actions);
    var t := After(s, actions);
    LeaveBacked(t, i, fault);
    var u := Next(t, Leave(i, fault));
    forall j | j != i && Holds(t, j) ensures Holds(u, j) && CellOf(u, j) {
      assert u.clients[j] == t.clients[j];
    }
  }

  // ---- leases can be had ------------------------------------------------------------------------------

  /** Nobody's unexpired lease, nor anything else live, stands under the name. */
  predicate Free(s: State, name: string) {
    LockKey(name) !in s.server.cells || s.server.cells[LockKey(name)].expiresAt <= s.server.now
  }

  /**
   * ACQUIRING: an undisturbed attempt with a positive TTL enters with the lease, under the caller's own
   * token and for the whole TTL, exactly when the name is free.
   */
  lemma EntersExactlyIfFree(s: State, actions: seq<Action>, i: nat)
    requires Init(s) && Runs(s, actions)
    requires var t := After(s, actions); Enabled(t, TrySet(i, NoFault)) && t.clients[i].px > 0
    ensures var t := After(s, actions); var u := Next(t, TrySet(i, NoFault)); var c := t.clients[i];
            && (Free(t, c.name) <==> Holds(u, i))
            && (Free(t, c.name) ==> u.clients[i].phase == Inside(true, c.phase.token, t.server.now + c.px) && CellOf(u, i))
            && (!Free(t, c.name) ==> u.server == t.server)
  {
    hide Runs, After;
    TriesUnderToken(s, actions, i);
  }

  ghost predicate TokensReal(s: State) {
    forall i :: 0 <= i < |s.clients| && s.clients[i].phase.Trying? ==> s.clients[i].phase.token != ""
  }

  lemma TokensRealKept(s: State, a: Action)
    requires TokensReal(s) && Enabled(s, a)
    ensures TokensReal(Next(s, a))
  {
    hide SetIfAbsent, CompareAndDelete;
  }

  lemma {:induction false} TokensRealReached(s: State, actions: seq<Action>)
    requires TokensReal(s) && Runs(s, actions)
    ensures TokensReal(After(s, actions))
    decreases |actions|
  {
    hide Next, Enabled, TokensReal;
    if actions != [] {
      TokensRealKept(s, actions[0]);
      TokensRealReached(Next(s, actions[0]), actions[1..]);
    }
  }

  lemma TriesUnderToken(s: State, actions: seq<Action>, i: nat)
    requires Init(s) && Runs(s, actions)
    requires i < |After(s, actions).clients| && After(s, actions).clients[i].phase.Trying?
    ensures After(s, actions).clients[i].phase.token != ""
  {
    hide Next, Enabled, Runs, After;
    TokensRealReached(s, actions);
  }

  /** RELEASING: a holder that leaves frees the name, unless the backend fails before it runs the script. */
  lemma ReleaseFrees(s: State, actions: seq<Action>, i: nat, fault: Fault)
    requires Init(s) && Runs(s, actions) && Holds(After(s, actions), i)
    ensures var t := After(s, actions); var u := Next(t, Leave(i, fault));
            && u.clients[i].phase.Left?
            && (!fault.FailsBefore? ==> LockKey(t.clients[i].name) !in u.server.cells)
            && (fault.FailsBefore? ==> u.server == t.server)
  {
    hide Runs, After;
    InvReached(s, actions);
    assert CellOf(After(s, actions), i);
  }

  /** EXPIRY: time takes a lease away exactly when its TTL is over, and frees the name. */
  lemma LeaseRunsOut(s: State, actions: seq<Action>, i: nat, dt: nat)
    requires Init(s) && Runs(s, actions) && Holds(After(s, actions), i)
    ensures var t := After(s, actions); var u := Next(t, Tick(dt));
            && (Holds(u, i) <==> t.server.now + dt < t.clients[i].phase.until)
            && (Free(u, t.clients[i].name) <==> t.clients[i].phase.until <= t.server.now + dt)
  {
    hide Runs, After;
    InvReached(s, actions);
    assert CellOf(After(s, actions), i);
  }

  /** HAND-OVER: whoever tries the name next, undisturbed and with a positive TTL, gets the lease. */
  lemma NextCallerGetsLease(s: State, actions: seq<Action>, i: nat, fault: Fault, j: nat)
    requires Init(s) && Runs(s, actions) && !fault.FailsBefore?
    requires var t := After(s, actions);
             && Holds(t, i) && j != i && Enabled(t, TrySet(j, NoFault))
             && t.clients[j].name == t.clients[i].name && t.clients[j].px > 0
    ensures var t := After(s, actions);
            var u := Next(t, Leave(i, fault));
            && Enabled(u, TrySet(j, NoFault))
            && Holds(Next(u, TrySet(j, NoFault)), j) && CellOf(Next(u, TrySet(j, NoFault)), j)
  {
    hide Runs, After;
    TriesUnderToken(s, actions, j);
    ReleaseFrees(s, actions, i, fault);
  }

  /**
   * A new caller's first undisturbed attempt: on a free name it enters holding the lease for its TTL in
   * milliseconds; on a taken one it enters without, or waits a second if it blocks and has time left.
   */
  lemma FirstAttempt(s: State, actions: seq<Action>, name: string, ttl: int, blocking: bool, timeout: real, token: string)
    requires Init(s) && Runs(s, actions) && Enabled(After(s, actions), Begin(name, ttl, blocking, timeout, token)) && ttl > 0
    ensures var t := After(s, actions);
            var b := Next(t, Begin(name, ttl, blocking, timeout, token));
            var i := |t.clients|;
            && Enabled(b, TrySet(i, NoFault))
            && var u := Next(b, TrySet(i, NoFault));
               && u.clients[i].name == name
               && (Free(t, name) ==>
                     && u.clients[i].phase == Inside(true, token, t.server.now + ttl * 1000)
                     && u.server.cells == t.server.cells[LockKey(name) := Cell(token, t.server.now + ttl * 1000)])
               && (!Free(t, name) && (!blocking || timeout <= 1.0) ==> u.clients[i].phase.Inside? && !u.clients[i].phase.acquired)
               && (!Free(t, name) && blocking && timeout > 1.0 ==> u.clients[i].phase == Trying(token, timeout - 1.0))
  {
    hide Runs, After;
  }
}
