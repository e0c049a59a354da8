/** Money on orders and their lines as the CHECK constraints bound it (phases 4 and 5 of the schema). */
module Orders {
  import opened Ledger

  datatype Order = Order(
    original: int, promotion: int, coupon: int, shipping: int, payable: int, paid: int, refunded: int)

  datatype Item = Item(
    quantity: int, original: int, promotion: int, coupon: int, discount: int, payable: int, refunded: int)

  // ---- the constraints --------------------------------------------------------------------------------

  predicate OrderColumnsFit(sign: Signedness, o: Order) {
    && Fits(sign, o.original) && Fits(sign, o.promotion) && Fits(sign, o.coupon) && Fits(sign, o.shipping)
    && Fits(sign, o.payable) && Fits(sign, o.paid) && Fits(sign, o.refunded)
  }

  /** payable_amount = original - promotion - coupon + shipping, evaluated from the left. */
  function PayableExpression(sign: Signedness, o: Order): SqlInt {
    Plus(sign, Minus(sign, Minus(sign, Val(o.original), Val(o.promotion)), Val(o.coupon)), Val(o.shipping))
  }

  /** The money CHECKs of `orders`, with the refund cap of phase 5. */
  predicate OrderAccepted(sign: Signedness, o: Order) {
    && OrderColumnsFit(sign, o)
    && o.original >= 0 && o.promotion >= 0 && o.coupon >= 0 && o.shipping >= 0
    && o.payable >= 0 && o.paid >= 0 && o.refunded >= 0
    && Equals(o.payable, PayableExpression(sign, o)) == Holds
    && o.refunded <= o.paid
  }

  predicate ItemAccepted(sign: Signedness, i: Item) {
    && FitsInt(i.quantity) && i.quantity > 0
    && Fits(sign, i.original) && Fits(sign, i.promotion) && Fits(sign, i.coupon) && Fits(sign, i.discount)
    && Fits(sign, i.payable) && Fits(sign, i.refunded)
    && i.original >= 0 && i.promotion >= 0 && i.coupon >= 0 && i.discount >= 0 && i.payable >= 0 && i.refunded >= 0
    && Equals(i.discount, Plus(sign, Val(i.promotion), Val(i.coupon))) == Holds
    && Equals(i.payable, Minus(sign, Val(i.original), Val(i.discount))) == Holds
    && i.refunded <= i.payable
  }

  /** What an order's amounts are meant to satisfy, in unbounded integers. */
  predicate OrderCorrect(o: Order) {
    && o.original >= 0 && o.promotion >= 0 && o.coupon >= 0 && o.shipping >= 0
    && o.payable >= 0 && 0 <= o.refunded <= o.paid
    && o.payable == o.original - o.promotion - o.coupon + o.shipping
  }

  predicate AmountsAtMost(o: Order, most: int) {
    && o.original <= most && o.promotion <= most && o.coupon <= most && o.shipping <= most
    && o.payable <= most && o.paid <= most && o.refunded <= most
  }

  /** SIGNED MONEY accepts exactly the correct orders that fit: no intermediate difference overflows. */
  lemma SignedMoneyExact(o: Order)
    ensures OrderAccepted(Signed, o) <==> OrderCorrect(o) && AmountsAtMost(o, I64_MAX)
  {
  }

  /**
   * UNSIGNED MONEY would also reject every correct order whose discounts exceed its original amount
   * (shipping makes up for them), because an intermediate difference is negative.
   */
  lemma UnsignedMoneyExact(o: Order)
    ensures OrderAccepted(Unsigned, o) <==>
            OrderCorrect(o) && AmountsAtMost(o, U64_MAX) && o.promotion + o.coupon <= o.original
  {
  }

  lemma ItemExact(i: Item)
    ensures ItemAccepted(Signed, i) <==>
            && 0 < i.quantity <= I32_MAX && i.promotion >= 0 && i.coupon >= 0
            && i.discount == i.promotion + i.coupon && i.payable == i.original - i.discount
            && 0 <= i.refunded <= i.payable && i.original <= I64_MAX
  {
  }

  // ---- sums over the lines --------------------------------------------------------------------------------

  function Total(items: seq<Item>, f: Item -> int): int {
    if items == [] then 0 else f(items[0]) + Total(items[1..], f)
  }

  lemma {:induction false} TotalAddsUp(a: seq<Item>, b: seq<Item>, i: Item, f: Item -> int)
    ensures Total(a + b, f) == Total(a, f) + Total(b, f) && Total([i], f) == f(i) && Total([], f) == 0
  {
    assert [i][1..] == [];
    if a == [] {
      assert a + b == b;
    } else {
      assert (a + b)[1..] == a[1..] + b;
      TotalAddsUp(a[1..], b, i, f);
    }
  }

  ghost predicate ItemsAccepted(items: seq<Item>) {
    forall k :: 0 <= k < |items| ==> ItemAccepted(Signed, items[k])
  }

  /** The lines share out the order's original, promotion and coupon amounts. */
  ghost predicate Allocated(o: Order, items: seq<Item>) {
    && Total(items, (i: Item) => i.original) == o.original
    && Total(items, (i: Item) => i.promotion) == o.promotion
    && Total(items, (i: Item) => i.coupon) == o.coupon
  }

  function Payable(i: Item): int { i.payable }
  function Refunded(i: Item): int { i.refunded }

  lemma {:induction false} PayablesAddUp(items: seq<Item>)
    requires ItemsAccepted(items)
    ensures Total(items, Payable)
            == Total(items, (i: Item) => i.original) - Total(items, (i: Item) => i.promotion) - Total(items, (i: Item) => i.coupon)
  {
    if items != [] {
      ItemExact(items[0]);
      assert forall k :: 0 <= k < |items[1..]| ==> items[1..][k] == items[k + 1];
      PayablesAddUp(items[1..]);
    }
  }

  /** INV-006: the line payables sum to the order's payable less shipping, so to the payable iff shipping is 0. */
  lemma Inv006(o: Order, items: seq<Item>)
    requires OrderAccepted(Signed, o) && ItemsAccepted(items) && Allocated(o, items)
    ensures Total(items, Payable) == o.payable - o.shipping
    ensures Total(items, Payable) == o.payable <==> o.shipping == 0
  {
    SignedMoneyExact(o);
    PayablesAddUp(items);
  }

  lemma {:induction false} RefundsWithinPayables(items: seq<Item>)
    requires ItemsAccepted(items)
    ensures 0 <= Total(items, Refunded) <= Total(items, Payable)
  {
    if items != [] {
      ItemExact(items[0]);
      assert forall k :: 0 <= k < |items[1..]| ==> items[1..][k] == items[k + 1];
      RefundsWithinPayables(items[1..]);
    }
  }

  /** The same lines, whatever was refunded on each. */
  predicate SameLines(items: seq<Item>, others: seq<Item>) {
    |items| == |others| && forall k :: 0 <= k < |items| ==> others[k] == items[k].(refunded := others[k].refunded)
  }

  function RefundAll(items: seq<Item>): seq<Item> {
    if items == [] then [] else [items[0].(refunded := items[0].payable)] + RefundAll(items[1..])
  }

  lemma {:induction false} RefundAllAccepted(items: seq<Item>)
    requires ItemsAccepted(items)
    ensures ItemsAccepted(RefundAll(items)) && SameLines(items, RefundAll(items))
    ensures Total(RefundAll(items), Refunded) == Total(items, Payable)
  {
    if items != [] {
      ItemExact(items[0]);
      ItemExact(items[0].(refunded := items[0].payable));
      assert forall k :: 0 <= k < |items[1..]| ==> items[1..][k] == items[k + 1];
      RefundAllAccepted(items[1..]);
      assert RefundAll(items)[1..] == RefundAll(items[1..]);
    }
  }

  lemma {:induction false} SameLinesPayable(items: seq<Item>, others: seq<Item>)
    requires SameLines(items, others)
    ensures Total(others, Payable) == Total(items, Payable)
  {
    if items != [] {
      assert forall k :: 0 <= k < |items[1..]| ==> items[1..][k] == items[k + 1] && others[1..][k] == others[k + 1];
      SameLinesPayable(items[1..], others[1..]);
    }
  }

  /**
   * REFUNDS: the per-line caps keep the total of line refunds within what was paid, for every way of
   * refunding the lines, exactly when the order was paid at least its payable less shipping.
   */
  lemma LineCapsBoundRefundsExactly(o: Order, items: seq<Item>)
    requires OrderAccepted(Signed, o) && ItemsAccepted(items) && Allocated(o, items)
    ensures (forall others :: SameLines(items, others) && ItemsAccepted(others) ==> Total(others, Refunded) <= o.paid)
            <==> o.payable - o.shipping <= o.paid
  {
    Inv006(o, items);
    RefundAllAccepted(items);
    if o.payable - o.shipping <= o.paid {
      forall others | SameLines(items, others) && ItemsAccepted(others) ensures Total(others, Refunded) <= o.paid {
        SameLinesPayable(items, others);
        RefundsWithinPayables(others);
      }
    }
  }

  /** In particular a fully paid order can never refund more on its lines than was paid. */
  lemma FullyPaidRefundsWithinPaid(o: Order, items: seq<Item>)
    requires OrderAccepted(Signed, o) && ItemsAccepted(items) && Allocated(o, items) && o.paid == o.payable
    ensures Total(items, Refunded) <= o.paid
  {
    Inv006(o, items);
    RefundsWithinPayables(items);
    SignedMoneyExact(o);
  }
}
