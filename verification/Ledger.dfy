/**
 * The stock ledger as the schema defines it: CHECK and UNIQUE constraints over 64-bit columns, before
 * and after its quantity columns became signed.
 */
module Ledger {
  const I32_MIN := -0x8000_0000
  const I32_MAX := 0x7FFF_FFFF
  const I64_MIN := -0x8000_0000_0000_0000
  const I64_MAX := 0x7FFF_FFFF_FFFF_FFFF
  const U64_MAX := 0xFFFF_FFFF_FFFF_FFFF

  datatype Signedness = Unsigned | Signed

  // ---- SQL arithmetic -----------------------------------------------------------------------------

  predicate Fits(sign: Signedness, x: int) {
    if sign.Signed? then I64_MIN <= x <= I64_MAX else 0 <= x <= U64_MAX
  }

  predicate FitsInt(x: int) {
    I32_MIN <= x <= I32_MAX
  }

  /** A BIGINT expression either has a value of its type or raises an out-of-range error. */
  datatype SqlInt = Val(v: int) | OutOfRange

  function Typed(sign: Signedness, x: int): SqlInt {
    if Fits(sign, x) then Val(x) else OutOfRange
  }

  function Minus(sign: Signedness, a: SqlInt, b: SqlInt): SqlInt {
    if a.OutOfRange? || b.OutOfRange? then OutOfRange else Typed(sign, a.v - b.v)
  }

  function Plus(sign: Signedness, a: SqlInt, b: SqlInt): SqlInt {
    if a.OutOfRange? || b.OutOfRange? then OutOfRange else Typed(sign, a.v + b.v)
  }

  /** An error in a CHECK rejects the statement just as a false CHECK does. */
  datatype Check = Holds | Fails | Errs

  function Equals(x: int, e: SqlInt): Check {
    match e
    case OutOfRange => Errs
    case Val(v) => if x == v then Holds else Fails
  }

  function AtLeastZero(x: int): Check {
    if x >= 0 then Holds else Fails
  }

  // ---- one row --------------------------------------------------------------------------------------

  datatype Stock = Stock(warehouse: nat, sku: nat)

  datatype Movement = Movement(
    stock: Stock, key: string, movementType: string, operatorType: string,
    deltaAvailable: int, deltaLocked: int,
    beforeAvailable: int, afterAvailable: int, beforeLocked: int, afterLocked: int)

  const MOVEMENT_TYPES: set<string> := {
    "PURCHASE_IN", "ORDER_LOCK", "ORDER_RELEASE", "ORDER_DEDUCT", "RETURN_IN", "MANUAL_ADJUST", "DAMAGED_OUT"
  }

  const OPERATOR_TYPES: set<string> := {"SYSTEM", "CUSTOMER", "STAFF", "AGENT", "MCP", "WORKER"}

  predicate Vocabulary(m: Movement) {
    m.movementType in MOVEMENT_TYPES && m.operatorType in OPERATOR_TYPES
  }

  predicate ColumnsFit(sign: Signedness, m: Movement) {
    && FitsInt(m.deltaAvailable) && FitsInt(m.deltaLocked)
    && Fits(sign, m.beforeAvailable) && Fits(sign, m.afterAvailable)
    && Fits(sign, m.beforeLocked) && Fits(sign, m.afterLocked)
  }

  /** The CHECKs of inventory_movements, evaluated on columns of the given signedness. */
  function Checks(sign: Signedness, m: Movement): seq<Check> {
    [ if m.movementType in MOVEMENT_TYPES then Holds else Fails,
      if m.operatorType in OPERATOR_TYPES then Holds else Fails,
      AtLeastZero(m.afterAvailable), AtLeastZero(m.afterLocked),
      AtLeastZero(m.beforeAvailable), AtLeastZero(m.beforeLocked),
      Equals(m.deltaAvailable, Minus(sign, Val(m.afterAvailable), Val(m.beforeAvailable))),
      Equals(m.deltaLocked, Minus(sign, Val(m.afterLocked), Val(m.beforeLocked))) ]
  }

  predicate Accepts(sign: Signedness, m: Movement) {
    ColumnsFit(sign, m) && forall i :: 0 <= i < |Checks(sign, m)| ==> Checks(sign, m)[i] == Holds
  }

  /** What a ledger row is meant to say, in unbounded integers. */
  predicate Correct(m: Movement) {
    && 0 <= m.beforeAvailable && 0 <= m.afterAvailable && 0 <= m.beforeLocked && 0 <= m.afterLocked
    && m.deltaAvailable == m.afterAvailable - m.beforeAvailable
    && m.deltaLocked == m.afterLocked - m.beforeLocked
  }

  predicate QuantitiesAtMost(m: Movement, most: int) {
    m.beforeAvailable <= most && m.afterAvailable <= most && m.beforeLocked <= most && m.afterLocked <= most
  }

  lemma AcceptsUnfolded(sign: Signedness, m: Movement)
    ensures Accepts(sign, m) <==>
            && ColumnsFit(sign, m) && Vocabulary(m)
            && 0 <= m.afterAvailable && 0 <= m.afterLocked && 0 <= m.beforeAvailable && 0 <= m.beforeLocked
            && Equals(m.deltaAvailable, Minus(sign, Val(m.afterAvailable), Val(m.beforeAvailable))) == Holds
            && Equals(m.deltaLocked, Minus(sign, Val(m.afterLocked), Val(m.beforeLocked))) == Holds
  {
    hide Equals, Minus;
    var c := Checks(sign, m);
    if Accepts(sign, m) {
      assert c[0] == Holds && c[1] == Holds && c[2] == Holds && c[3] == Holds && c[4] == Holds && c[5] == Holds;
      assert c[6] == Holds && c[7] == Holds;
    }
  }

  /** SIGNED COLUMNS accept exactly the correct rows that fit; no correct row is lost to overflow. */
  lemma SignedAcceptsExactly(m: Movement)
    ensures Accepts(Signed, m) <==>
            && Vocabulary(m) && Correct(m) && QuantitiesAtMost(m, I64_MAX)
            && FitsInt(m.deltaAvailable) && FitsInt(m.deltaLocked)
  {
    AcceptsUnfolded(Signed, m);
  }

  /** UNSIGNED COLUMNS accept only correct rows without a negative delta. */
  lemma UnsignedAcceptsExactly(m: Movement)
    ensures Accepts(Unsigned, m) <==>
            && Vocabulary(m) && Correct(m) && QuantitiesAtMost(m, U64_MAX)
            && 0 <= m.deltaAvailable <= I32_MAX && 0 <= m.deltaLocked <= I32_MAX
  {
    AcceptsUnfolded(Unsigned, m);
  }

  /** The upgrade loses only rows beyond the signed range; the downgrade loses exactly the negative deltas. */
  lemma SignednessExactly(m: Movement)
    ensures Accepts(Unsigned, m) ==> (Accepts(Signed, m) <==> QuantitiesAtMost(m, I64_MAX))
    ensures Accepts(Signed, m) ==> (Accepts(Unsigned, m) <==> m.deltaAvailable >= 0 && m.deltaLocked >= 0)
  {
    SignedAcceptsExactly(m);
    UnsignedAcceptsExactly(m);
  }

  /** THE PROMOTION BUG: locking stock for an order could never be recorded in unsigned columns. */
  lemma LockingNeedsSigned(stock: Stock, key: string, available: int, locked: int, quantity: int)
    requires 0 < quantity <= available && quantity <= I32_MAX && 0 <= locked && available + locked <= I64_MAX
    ensures var m := Movement(stock, key, "ORDER_LOCK", "CUSTOMER", -quantity, quantity,
                              available, available - quantity, locked, locked + quantity);
            Accepts(Signed, m) && !Accepts(Unsigned, m)
  {
    var m := Movement(stock, key, "ORDER_LOCK", "CUSTOMER", -quantity, quantity,
                      available, available - quantity, locked, locked + quantity);
    SignedAcceptsExactly(m);
    UnsignedAcceptsExactly(m);
  }

  // ---- the table --------------------------------------------------------------------------------------

  predicate KeyUsed(rows: seq<Movement>, key: string) {
    exists i :: 0 <= i < |rows| && rows[i].key == key
  }

  function Insert(sign: Signedness, rows: seq<Movement>, m: Movement): seq<Movement> {
    if Accepts(sign, m) && !KeyUsed(rows, m.key) then rows + [m] else rows
  }

  function InsertAll(sign: Signedness, attempts: seq<Movement>): seq<Movement> {
    if attempts == [] then []
    else Insert(sign, InsertAll(sign, attempts[..|attempts| - 1]), attempts[|attempts| - 1])
  }

  class MovementTable {
    const sign: Signedness
    var rows: seq<Movement>
    ghost var attempts: seq<Movement>

    ghost predicate Valid()
      reads this
    {
      rows == InsertAll(sign, attempts)
    }

    constructor (sign: Signedness)
      ensures Valid() && rows == [] && attempts == [] && this.sign == sign
    {
      this.sign, rows, attempts := sign, [], [];
    }

    method TryInsert(m: Movement) returns (inserted: bool)
      requires Valid()
      modifies this
      ensures Valid() && attempts == old(attempts) + [m]
      ensures inserted <==> Accepts(sign, m) && !KeyUsed(old(rows), m.key)
      ensures rows == if inserted then old(rows) + [m] else old(rows)
    {
      ghost var before := attempts;
      attempts := attempts + [m];
      assert attempts[..|before|] == before;
      var duplicate := false;
      var i := 0;
      while i < |rows| && !duplicate
        invariant 0 <= i <= |rows|
        invariant duplicate <==> KeyUsed(rows[..i], m.key)
      {
        duplicate := rows[i].key == m.key;
        if duplicate { assert rows[..i + 1][i].key == m.key; }
        i := i + 1;
      }
      assert duplicate <==> KeyUsed(rows, m.key);
      inserted := Accepts(sign, m) && !duplicate;
      if inserted {
        rows := rows + [m];
      }
    }
  }

  // ---- runs of insert attempts ------------------------------------------------------------------------

  /** An earlier attempt with the key would have passed the CHECKs. */
  predicate SeenPassing(sign: Signedness, attempts: seq<Movement>, key: string) {
    exists i :: 0 <= i < |attempts| && Accepts(sign, attempts[i]) && attempts[i].key == key
  }

  /** The attempts that pass the CHECKs and are the first to do so with their key. */
  function FirstPassing(sign: Signedness, attempts: seq<Movement>): seq<Movement> {
    if attempts == [] then []
    else
      var init, last := attempts[..|attempts| - 1], attempts[|attempts| - 1];
      FirstPassing(sign, init) + if Accepts(sign, last) && !SeenPassing(sign, init, last.key) then [last] else []
  }

  lemma {:induction false} UsedIsSeen(sign: Signedness, attempts: seq<Movement>, key: string)
    ensures KeyUsed(InsertAll(sign, attempts), key) <==> SeenPassing(sign, attempts, key)
  {
    hide Accepts;
    if attempts != [] {
      var init, last := attempts[..|attempts| - 1], attempts[|attempts| - 1];
      var rows, after := InsertAll(sign, init), InsertAll(sign, attempts);
      UsedIsSeen(sign, init, key);
      UsedIsSeen(sign, init, last.key);
      assert forall i :: 0 <= i < |init| ==> init[i] == attempts[i];
      if KeyUsed(after, key) {
        if KeyUsed(rows, key) {
          var i :| 0 <= i < |init| && Accepts(sign, init[i]) && init[i].key == key;
          assert attempts[i].key == key;
        } else {
          assert attempts[|attempts| - 1].key == key;
        }
      }
      if SeenPassing(sign, attempts, key) {
        var i :| 0 <= i < |attempts| && Accepts(sign, attempts[i]) && attempts[i].key == key;
        if i < |init| {
          assert SeenPassing(sign, init, key);
          var j :| 0 <= j < |rows| && rows[j].key == key;
          assert after[j] == rows[j];
        } else if !KeyUsed(rows, key) {
          assert after[|after| - 1].key == key;
        } else {
          var j :| 0 <= j < |rows| && rows[j].key == key;
          assert after[j] == rows[j];
        }
      }
    }
  }

  /** RETRIES ARE FREE: over any run the table holds each key's first passing attempt, in order. */
  lemma {:induction false} LedgerHoldsFirstPassing(sign: Signedness, attempts: seq<Movement>)
    ensures InsertAll(sign, attempts) == FirstPassing(sign, attempts)
  {
    hide Accepts, KeyUsed, SeenPassing;
    if attempts != [] {
      var init, last := attempts[..|attempts| - 1], attempts[|attempts| - 1];
      LedgerHoldsFirstPassing(sign, init);
      UsedIsSeen(sign, init, last.key);
    }
  }

  // ---- quantities ---------------------------------------------------------------------------------------

  datatype Quantity = Quantity(available: int, locked: int)

  /** The quantities the latest row of the stock records, or the opening ones. */
  function Current(rows: seq<Movement>, opening: Stock -> Quantity, stock: Stock): Quantity {
    if rows == [] then opening(stock)
    else
      var last := rows[|rows| - 1];
      if last.stock == stock then Quantity(last.afterAvailable, last.afterLocked)
      else Current(rows[..|rows| - 1], opening, stock)
  }

  function Sum(rows: seq<Movement>, stock: Stock): Quantity {
    if rows == [] then Quantity(0, 0)
    else
      var last, s := rows[|rows| - 1], Sum(rows[..|rows| - 1], stock);
      if last.stock == stock then Quantity(s.available + last.deltaAvailable, s.locked + last.deltaLocked) else s
  }

  /** An attempt that is accepted starts from the quantities in force. */
  ghost predicate ChainedAt(sign: Signedness, rows: seq<Movement>, m: Movement, opening: Stock -> Quantity) {
    Accepts(sign, m) && !KeyUsed(rows, m.key) ==>
      Current(rows, opening, m.stock) == Quantity(m.beforeAvailable, m.beforeLocked)
  }

  /** So does every attempt of the run (the writer's duty). */
  ghost predicate Chained(sign: Signedness, attempts: seq<Movement>, opening: Stock -> Quantity) {
    forall i :: 0 <= i < |attempts| ==> ChainedAt(sign, InsertAll(sign, attempts[..i]), attempts[i], opening)
  }

  /** CONSERVATION: whatever is repeated or rejected, quantities are the opening plus the distinct deltas. */
  lemma {:induction false} QuantitiesConserved(sign: Signedness, attempts: seq<Movement>, opening: Stock -> Quantity, stock: Stock)
    requires Chained(sign, attempts, opening)
    requires opening(stock).available >= 0 && opening(stock).locked >= 0
    ensures Conserved(InsertAll(sign, attempts), FirstPassing(sign, attempts), opening, stock)
  {
    hide FirstPassing, InsertAll, Conserved, Chained;
    LedgerHoldsFirstPassing(sign, attempts);
    if attempts == [] {
      NothingMoved(sign, opening, stock);
    } else {
      var n := |attempts| - 1;
      var init, last := attempts[..n], attempts[n];
      ChainedBefore(sign, attempts, opening);
      QuantitiesConserved(sign, init, opening, stock);
      LedgerHoldsFirstPassing(sign, init);
      InsertKeeps(sign, attempts, opening, stock);
    }
  }

  /** The quantities of `rows` are the opening ones plus what the distinct rows `moved`, and not negative. */
  ghost predicate Conserved(rows: seq<Movement>, moved: seq<Movement>, opening: Stock -> Quantity, stock: Stock) {
    var now, sum := Current(rows, opening, stock), Sum(moved, stock);
    now.available == opening(stock).available + sum.available >= 0 && now.locked == opening(stock).locked + sum.locked >= 0
  }

  lemma NothingMoved(sign: Signedness, opening: Stock -> Quantity, stock: Stock)
    requires opening(stock).available >= 0 && opening(stock).locked >= 0
    ensures Conserved(InsertAll(sign, []), InsertAll(sign, []), opening, stock)
  {
  }

  lemma ChainedBefore(sign: Signedness, attempts: seq<Movement>, opening: Stock -> Quantity)
    requires attempts != [] && Chained(sign, attempts, opening)
    ensures var n := |attempts| - 1;
            Chained(sign, attempts[..n], opening) && ChainedAt(sign, InsertAll(sign, attempts[..n]), attempts[n], opening)
  {
    hide InsertAll, ChainedAt;
    var n := |attempts| - 1;
    assert forall i :: 0 <= i < n ==> attempts[..n][..i] == attempts[..i] && attempts[..n][i] == attempts[i];
  }

  /** One more attempt keeps the conservation. */
  lemma InsertKeeps(sign: Signedness, attempts: seq<Movement>, opening: Stock -> Quantity, stock: Stock)
    requires attempts != []
    requires var rows := InsertAll(sign, attempts[..|attempts| - 1]);
             ChainedAt(sign, rows, attempts[|attempts| - 1], opening) && Conserved(rows, rows, opening, stock)
    ensures var rows := InsertAll(sign, attempts); Conserved(rows, rows, opening, stock)
  {
    hide Accepts, KeyUsed;
    var n := |attempts| - 1;
    var rows, last := InsertAll(sign, attempts[..n]), attempts[n];
    if Accepts(sign, last) && !KeyUsed(rows, last.key) {
      AcceptedIsCorrect(sign, last);
      assert (rows + [last])[..|rows|] == rows;
    }
  }

  lemma AcceptedIsCorrect(sign: Signedness, m: Movement)
    requires Accepts(sign, m)
    ensures Correct(m)
  {
    SignedAcceptsExactly(m);
    UnsignedAcceptsExactly(m);
  }
}
