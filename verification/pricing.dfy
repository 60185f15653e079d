/**
 * Money arithmetic: the two-decimal rounding `Math.round(x * 100) / 100`
 * used for order totals and statistics, the order subtotal, and the
 * revenue of a collection of orders. Numbers are exact reals here.
 */
module Pricing {
  import opened OrderTypes

  /** `x` is a whole number of cents. */
  predicate IsWholeCents(x: real)
  {
    (x * 100.0).Floor as real == x * 100.0
  }

  /** `x` is a whole number. */
  predicate IsWhole(x: real)
  {
    x.Floor as real == x
  }

  /**
   * `Math.round(x * 100) / 100`: `Math.round` rounds half-way cases up,
   * that is, it is `floor(y + 1/2)`. The result is a whole number of cents
   * within half a cent of `x` (ties go up).
   */
  function Round2(x: real): (r: real)
    ensures IsWholeCents(r)
    ensures x - 0.005 < r <= x + 0.005
  {
    ((x * 100.0 + 0.5).Floor as real) / 100.0
  }

  /** Rounding to cents leaves an amount that is already in whole cents unchanged. */
  lemma Round2OfWholeCents(x: real)
    requires IsWholeCents(x)
    ensures Round2(x) == x
  {
    var c := (x * 100.0).Floor;
    assert (x * 100.0 + 0.5).Floor == c;
  }

  /** Σ price × quantity over the lines, folded from the left as `reduce` does. */
  function Subtotal(items: seq<OrderItem>): real
  {
    if items == [] then 0.0
    else Subtotal(items[..|items| - 1]) + items[|items| - 1].price * items[|items| - 1].quantity
  }

  /** Σ totalPrice over the orders. */
  function Revenue(orders: seq<Order>): real
  {
    if orders == [] then 0.0 else orders[0].totalPrice + Revenue(orders[1..])
  }

  /** Revenue adds up over a split of the collection. */
  lemma {:induction false} RevenueAppend(a: seq<Order>, b: seq<Order>)
    ensures Revenue(a + b) == Revenue(a) + Revenue(b)
  {
    if a != [] {
      assert (a + b)[1..] == a[1..] + b;
      RevenueAppend(a[1..], b);
    } else {
      assert a + b == b;
    }
  }

  /** Whole cents times a whole quantity is whole cents. */
  lemma WholeCentsLine(price: real, quantity: real, line: real)
    requires IsWholeCents(price) && IsWhole(quantity) && line == price * quantity
    ensures IsWholeCents(line)
  {
    var c := (price * 100.0).Floor;
    var q := quantity.Floor;
    assert price * 100.0 == c as real;
    calc {
      (price * quantity) * 100.0;
      (price * 100.0) * quantity;
      (c as real) * (q as real);
      (c * q) as real;
    }
    assert ((c * q) as real).Floor == c * q;
  }

  /** A sum of whole cents is whole cents. */
  lemma WholeCentsSum(a: real, b: real, sum: real)
    requires IsWholeCents(a) && IsWholeCents(b) && sum == a + b
    ensures IsWholeCents(sum)
  {
    var ca, cb := (a * 100.0).Floor, (b * 100.0).Floor;
    assert sum * 100.0 == (ca + cb) as real;
  }

  /**
   * When every price is in whole cents and every quantity is a whole
   * number, the subtotal is in whole cents, so rounding it changes nothing.
   */
  lemma {:induction false} SubtotalOfWholeCents(items: seq<OrderItem>)
    requires forall i :: 0 <= i < |items| ==> IsWholeCents(items[i].price) && IsWhole(items[i].quantity)
    ensures IsWholeCents(Subtotal(items))
    ensures Round2(Subtotal(items)) == Subtotal(items)
  {
    if items != [] {
      var init, last := items[..|items| - 1], items[|items| - 1];
      assert forall i :: 0 <= i < |init| ==> init[i] == items[i];
      SubtotalOfWholeCents(init);
      var b := last.price * last.quantity;
      WholeCentsLine(last.price, last.quantity, b);
      WholeCentsSum(Subtotal(init), b, Subtotal(items));
    }
    Round2OfWholeCents(Subtotal(items));
  }
}
