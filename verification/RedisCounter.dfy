/** Sliding counters and once-only claims of one key (increment_counter, reset_counter, claim_once). */
module RedisCounter {
  import opened Text
  import opened RedisServer

  // ---- counters ------------------------------------------------------------------------------------

  datatype Counter = Counter(count: nat, expiresAt: nat)

  /** INCR then EXPIRE in one transaction; a TTL that is not positive deletes the key right away. */
  function Increment(c: Option<Counter>, now: nat, ttl: int): (Option<Counter>, nat) {
    var n := if c.Some? && now < c.value.expiresAt then c.value.count + 1 else 1;
    (if ttl > 0 then Some(Counter(n, now + ttl)) else None, n)
  }

  /** What takes effect on one key, in order of time; times and TTL are in milliseconds. */
  datatype Event = Hit(at: nat) | Wipe(at: nat)

  function KeyAfter(h: seq<Event>, ttl: int): Option<Counter> {
    if h == [] then None
    else
      match h[|h| - 1]
      case Wipe(_) => None
      case Hit(at) => Increment(KeyAfter(h[..|h| - 1], ttl), at, ttl).0
  }

  /** The value the last call of the history returned. */
  function LastReturned(h: seq<Event>, ttl: int): nat
    requires h != [] && h[|h| - 1].Hit?
  {
    Increment(KeyAfter(h[..|h| - 1], ttl), h[|h| - 1].at, ttl).1
  }

  predicate Ordered(h: seq<Event>) {
    forall i, j :: 0 <= i < j < |h| ==> h[i].at <= h[j].at
  }

  /** The last `n` events are calls, each less than the TTL after the one before it. */
  predicate Run(h: seq<Event>, n: nat, ttl: int) {
    && n <= |h|
    && (forall i :: |h| - n <= i < |h| ==> h[i].Hit?)
    && (forall i :: |h| - n < i < |h| ==> h[i].at - h[i - 1].at < ttl)
  }

  ghost predicate LongestRun(h: seq<Event>, n: nat, ttl: int) {
    Run(h, n, ttl) && forall m: nat :: Run(h, m, ttl) ==> m <= n
  }

  /** The cell holds the longest run, until one TTL after its last call. */
  lemma {:induction false} KeyHoldsRun(h: seq<Event>, ttl: int)
    requires ttl > 0 && Ordered(h)
    ensures var k := KeyAfter(h, ttl);
            if h == [] || h[|h| - 1].Wipe? then k.None?
            else k.Some? && k.value.expiresAt == h[|h| - 1].at + ttl && LongestRun(h, k.value.count, ttl)
  {
    if h != [] && h[|h| - 1].Hit? {
      var init, last := h[..|h| - 1], h[|h| - 1];
      KeyHoldsRun(init, ttl);
      RunGrows(h, ttl);
    }
  }

  /** One more call extends the longest run, or starts a new one. */
  lemma RunGrows(h: seq<Event>, ttl: int)
    requires ttl > 0 && h != [] && h[|h| - 1].Hit?
    ensures var init := h[..|h| - 1];
            if init == [] || init[|init| - 1].Wipe? || h[|h| - 1].at - init[|init| - 1].at >= ttl then LongestRun(h, 1, ttl)
            else forall n: nat :: LongestRun(init, n, ttl) ==> LongestRun(h, n + 1, ttl)
  {
    var init := h[..|h| - 1];
    if init == [] || init[|init| - 1].Wipe? || h[|h| - 1].at - init[|init| - 1].at >= ttl {
      assert init != [] ==> h[|h| - 2] == init[|init| - 1];
    } else {
      forall n: nat | LongestRun(init, n, ttl) ensures LongestRun(h, n + 1, ttl) {
        forall m: nat | Run(h, m, ttl) ensures m <= n + 1 {
          if m > 0 { assert Run(init, m - 1, ttl); }
        }
      }
    }
  }

  /**
   * COUNTING: with one TTL, a call that Redis answers returns the length of the longest run of calls
   * since the last reset, ending with itself, whose successive gaps are all shorter than the TTL.
   */
  lemma ReturnsLongestRun(h: seq<Event>, ttl: int)
    requires ttl > 0 && Ordered(h) && h != [] && h[|h| - 1].Hit?
    ensures LongestRun(h, LastReturned(h, ttl), ttl)
  {
    KeyHoldsRun(h, ttl);
  }

  /** One more event at the end of the history. */
  lemma OneMore(h: seq<Event>, e: Event, ttl: int)
    requires Ordered(h) && (h != [] ==> h[|h| - 1].at <= e.at)
    ensures Ordered(h + [e])
    ensures KeyAfter(h + [e], ttl) == if e.Hit? then Increment(KeyAfter(h, ttl), e.at, ttl).0 else None
    ensures e.Hit? ==> LastReturned(h + [e], ttl) == Increment(KeyAfter(h, ttl), e.at, ttl).1
  {
    hide Increment;
    assert (h + [e])[..|h|] == h;
  }

  lemma NoTtlNoKey(h: seq<Event>, ttl: int)
    requires ttl <= 0
    ensures KeyAfter(h, ttl) == None
  {
  }

  class RateCounter {
    var cell: Option<Counter>
    ghost var history: seq<Event>
    const ttl: int

    ghost predicate Valid()
      reads this
    {
      Ordered(history) && cell == KeyAfter(history, ttl)
    }

    constructor (ttl: int)
      ensures Valid() && history == [] && this.ttl == ttl
    {
      this.ttl, cell, history := ttl, None, [];
    }

    /**
     * increment_counter. 0 stands for "unknown": the call may have counted all the same, when the
     * backend failed only after the transaction took effect.
     */
    method IncrementCounter(now: nat, fault: Fault) returns (count: nat)
      requires Valid() && (history != [] ==> history[|history| - 1].at <= now)
      modifies this
      ensures Valid()
      ensures history == if fault.FailsBefore? then old(history) else old(history) + [Hit(now)]
      ensures count == 0 <==> !fault.NoFault?
      ensures fault.NoFault? && ttl > 0 ==> LongestRun(history, count, ttl)
      ensures fault.NoFault? && ttl <= 0 ==> count == 1
    {
      hide LongestRun, Ordered, KeyAfter, LastReturned;
      if fault.FailsBefore? {
        return 0;
      }
      var n := 1;
      if cell.Some? && now < cell.value.expiresAt {
        n := cell.value.count + 1;
      }
      cell := if ttl > 0 then Some(Counter(n, now + ttl)) else None;
      OneMore(history, Hit(now), ttl);
      history := history + [Hit(now)];
      if ttl > 0 { ReturnsLongestRun(history, ttl); } else { NoTtlNoKey(old(history), ttl); }
      count := if fault.FailsAfter? then 0 else n;
    }

    /** reset_counter; a backend error is swallowed, whether or not the key went. */
    method ResetCounter(now: nat, fault: Fault)
      requires Valid() && (history != [] ==> history[|history| - 1].at <= now)
      modifies this
      ensures Valid()
      ensures history == if fault.FailsBefore? then old(history) else old(history) + [Wipe(now)]
    {
      hide Ordered, KeyAfter, LastReturned;
      if !fault.FailsBefore? {
        cell := None;
        OneMore(history, Wipe(now), ttl);
        history := history + [Wipe(now)];
      }
    }
  }

  // ---- claims -------------------------------------------------------------------------------------

  /** One call of claim_once for the key. */
  datatype Claim = Claim(at: nat, ttlSeconds: int, fault: Fault)

  /** A backend error is raised to the caller, whether or not the SET took effect. */
  datatype Answer = Claimed | Taken | Raised

  function AnswerOf(result: SetResult): Answer {
    match result
    case Error => Raised
    case Reply(stored) => if stored then Claimed else Taken
  }

  /** claim_once: fails closed, so a backend error is raised even if the SET took effect. */
  method ClaimOnce(redis: Redis, key: string, ttlSeconds: int, fault: Fault) returns (answer: Answer)
    modifies redis
    ensures var (t, result) := SetIfAbsent(old(redis.Abs()), key, "1", ttlSeconds * 1000, fault);
            redis.Abs() == t && answer == AnswerOf(result)
    ensures answer.Raised? <==> ttlSeconds <= 0 || !fault.NoFault?
    ensures answer.Taken? <==> ttlSeconds > 0 && fault.NoFault?
                               && key in old(redis.cells) && old(redis.now) < old(redis.cells)[key].expiresAt
    ensures answer.Claimed? ==> !Live(old(redis.Abs()), key)
                                && key in redis.cells && redis.cells[key].expiresAt == redis.now + ttlSeconds * 1000
  {
    var result := redis.Set(key, "1", ttlSeconds * 1000, fault);
    if result.Error? {
      return Raised;
    }
    answer := if result.stored then Claimed else Taken;
  }

  function ServerAt(s: Server, at: nat): Server {
    s.(now := at)
  }

  /** The server after the claims, which come in order of time. */
  function ClaimsDone(s: Server, key: string, claims: seq<Claim>): Server {
    if claims == [] then s
    else
      var last := claims[|claims| - 1];
      SetIfAbsent(ServerAt(ClaimsDone(s, key, claims[..|claims| - 1]), last.at), key, "1", last.ttlSeconds * 1000, last.fault).0
  }

  function AnswerAt(s: Server, key: string, claims: seq<Claim>, i: nat): Answer
    requires i < |claims|
  {
    var c := claims[i];
    AnswerOf(SetIfAbsent(ServerAt(ClaimsDone(s, key, claims[..i]), c.at), key, "1", c.ttlSeconds * 1000, c.fault).1)
  }

  predicate InOrder(claims: seq<Claim>) {
    forall i, j :: 0 <= i < j < |claims| ==> claims[i].at <= claims[j].at
  }

  function Expiry(c: Claim): int {
    c.at + c.ttlSeconds * 1000
  }

  /** The SET of claim `i` took effect, whatever the caller was told. */
  predicate Effective(s: Server, key: string, claims: seq<Claim>, i: int) {
    0 <= i < |claims| &&
    var c := claims[i];
    c.ttlSeconds > 0 && !c.fault.FailsBefore? && !Live(ServerAt(ClaimsDone(s, key, claims[..i]), c.at), key)
  }

  /** The key's cell is that of the latest effective claim, whose expiry is beyond all earlier ones. */
  lemma {:induction false} CellIsLatest(s: Server, key: string, claims: seq<Claim>)
    requires InOrder(claims) && key !in s.cells
    ensures var t := ClaimsDone(s, key, claims);
            && (forall i :: Effective(s, key, claims, i) ==> key in t.cells && Expiry(claims[i]) <= t.cells[key].expiresAt)
            && (key in t.cells ==> exists i :: Effective(s, key, claims, i) && Expiry(claims[i]) == t.cells[key].expiresAt)
  {
    if claims != [] {
      var n := |claims| - 1;
      var init, last := claims[..n], claims[n];
      CellIsLatest(s, key, init);
      var u, t := ClaimsDone(s, key, init), ClaimsDone(s, key, claims);
      assert forall i :: 0 <= i < n ==> claims[..i] == init[..i] && claims[i] == init[i];
      assert forall i :: i < n ==> (Effective(s, key, claims, i) <==> Effective(s, key, init, i));
      if Effective(s, key, claims, n) {
        assert t.cells[key].expiresAt == Expiry(last);
      } else {
        assert t.cells == u.cells;
        if key in t.cells {
          var i :| Effective(s, key, init, i) && Expiry(init[i]) == u.cells[key].expiresAt;
          assert Effective(s, key, claims, i);
        }
      }
    }
  }

  /**
   * ONCE, EXACTLY: an undisturbed claim succeeds iff every earlier effective claim of the key is at
   * least its own TTL old.
   */
  lemma ClaimedExactly(s: Server, key: string, claims: seq<Claim>, j: nat)
    requires InOrder(claims) && key !in s.cells && j < |claims|
    requires claims[j].fault.NoFault? && claims[j].ttlSeconds > 0
    ensures AnswerAt(s, key, claims, j) == Claimed <==>
            forall i :: i < j && Effective(s, key, claims, i) ==> claims[j].at >= Expiry(claims[i])
  {
    var init := claims[..j];
    CellIsLatest(s, key, init);
    var u := ClaimsDone(s, key, init);
    assert forall i :: 0 <= i < j ==> claims[..i] == init[..i] && claims[i] == init[i];
    assert forall i :: i < j ==> (Effective(s, key, claims, i) <==> Effective(s, key, init, i));
    if key in u.cells {
      var i :| Effective(s, key, init, i) && Expiry(init[i]) == u.cells[key].expiresAt;
      assert Effective(s, key, claims, i);
    }
  }

  /** Two successful claims of one key are at least the TTL of the first apart, errors in between or not. */
  lemma ClaimsApart(s: Server, key: string, claims: seq<Claim>, i: nat, j: nat)
    requires InOrder(claims) && key !in s.cells && i < j < |claims|
    requires AnswerAt(s, key, claims, i) == Claimed && AnswerAt(s, key, claims, j) == Claimed
    ensures claims[j].at >= claims[i].at + claims[i].ttlSeconds * 1000
  {
    assert Effective(s, key, claims, i);
    ClaimedExactly(s, key, claims, j);
  }
}
