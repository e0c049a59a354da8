/** The Redis commands the helpers rely on, with one clock in milliseconds (redis_client.py). */
module RedisServer {
  datatype Cell = Cell(value: string, expiresAt: nat)

  datatype Server = Server(now: nat, cells: map<string, Cell>)

  /** A cell counts until the clock reaches its expiry. */
  predicate Live(s: Server, key: string) {
    key in s.cells && s.now < s.cells[key].expiresAt
  }

  /** The backend answers, or fails before or after the command took effect. */
  datatype Fault = NoFault | FailsBefore | FailsAfter

  datatype SetResult = Reply(stored: bool) | Error

  /** SET key value NX PX px; a non-positive px is an error. */
  function SetIfAbsent(s: Server, key: string, value: string, px: int, fault: Fault): (Server, SetResult) {
    if px <= 0 || fault.FailsBefore? then (s, Error)
    else
      var stored := !Live(s, key);
      var t := if stored then s.(cells := s.cells[key := Cell(value, s.now + px)]) else s;
      (t, if fault.FailsAfter? then Error else Reply(stored))
  }

  /** The release script: delete the cell only if it still holds the caller's token. */
  function CompareAndDelete(s: Server, key: string, token: string): Server {
    if Live(s, key) && s.cells[key].value == token then s.(cells := s.cells - {key}) else s
  }

  function Advance(s: Server, dt: nat): Server {
    s.(now := s.now + dt)
  }

  class Redis {
    var now: nat
    var cells: map<string, Cell>

    function Abs(): Server
      reads this
    {
      Server(now, cells)
    }

    constructor ()
      ensures Abs() == Server(0, map[])
    {
      now, cells := 0, map[];
    }

    method Set(key: string, value: string, px: int, fault: Fault) returns (result: SetResult)
      modifies this
      ensures (Abs(), result) == SetIfAbsent(old(Abs()), key, value, px, fault)
      ensures result.Error? <==> px <= 0 || !fault.NoFault?
      ensures result.Reply? ==> (result.stored <==> key !in old(cells) || old(cells)[key].expiresAt <= old(now))
      ensures px > 0 && !fault.FailsBefore? && (key !in old(cells) || old(cells)[key].expiresAt <= old(now)) ==>
                cells == old(cells)[key := Cell(value, old(now) + px)]
      ensures px <= 0 || fault.FailsBefore? || (key in old(cells) && old(now) < old(cells)[key].expiresAt) ==> cells == old(cells)
      ensures now == old(now)
    {
      if px <= 0 || fault.FailsBefore? {
        return Error;
      }
      var stored := false;
      if !(key in cells && now < cells[key].expiresAt) {
        cells := cells[key := Cell(value, now + px)];
        stored := true;
      }
      result := if fault.FailsAfter? then Error else Reply(stored);
    }

    method ReleaseScript(key: string, token: string) returns (deleted: nat)
      modifies this
      ensures Abs() == CompareAndDelete(old(Abs()), key, token)
      ensures deleted == 1 || deleted == 0
      ensures deleted == 1 <==> key in old(cells) && old(now) < old(cells)[key].expiresAt && old(cells)[key].value == token
      ensures deleted == 1 ==> key !in cells
      ensures deleted == 0 ==> cells == old(cells)
      ensures forall other :: other != key ==> (other in cells <==> other in old(cells))
      ensures forall other :: other in cells ==> cells[other] == old(cells)[other]
      ensures now == old(now)
    {
      if key in cells && now < cells[key].expiresAt && cells[key].value == token {
        cells := cells - {key};
        return 1;
      }
      deleted := 0;
    }

    method Wait(dt: nat)
      modifies this
      ensures Abs() == Advance(old(Abs()), dt)
      ensures now == old(now) + dt && cells == old(cells)
    {
      now := now + dt;
    }
  }
}
