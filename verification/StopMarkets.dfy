/** Markets in prices, and the frames of relative prices the study derives from them. */
module StopMarkets {
  import opened Wrappers
  import opened Vectors
  import opened SleeveBook

  /** A market in prices. The closes are carried forward after a name's last bar and missing before its first,
      where `price` stands still at the first close to come. */
  datatype Market = Market(close: Frame, open: Frame, low: Frame, price: (nat, nat) -> real) {
    ghost predicate Valid() {
      forall i: nat, j: nat :: ValidAt(i, j)
    }

    /** A session's price is its close; before the first bar it stands still. */
    ghost predicate ValidAt(i: nat, j: nat) {
      && price(i, j) > 0.0
      && (close(i, j).Some? ==> price(i, j) == close(i, j).value && close(i + 1, j).Some?)
      && (close(i, j).None? ==> price(i + 1, j) == price(i, j))
    }

    predicate Quoted(i: nat, j: nat) {
      close(i, j).Some?
    }
  }

  /** A recorded close is positive and carried forward for good. */
  ghost predicate CarriedForward(close: Frame) {
    forall i: nat, j: nat :: CarriedForwardAt(close, i, j)
  }

  ghost predicate CarriedForwardAt(close: Frame, i: nat, j: nat) {
    close(i, j).Some? ==> close(i, j).value > 0.0 && close(i + 1, j).Some?
  }

  /** The first session from `i` on with a close. */
  ghost predicate FirstClose(close: Frame, i: nat, j: nat, k: nat) {
    i <= k && close(k, j).Some? && forall l: nat :: i <= l < k ==> close(l, j).None?
  }

  ghost function PriceAt(close: Frame, i: nat, j: nat): real {
    if exists k: nat :: FirstClose(close, i, j, k)
    then var k: nat :| FirstClose(close, i, j, k); close(k, j).value
    else 1.0
  }

  lemma OneFirstClose(close: Frame, i: nat, j: nat, k: nat, l: nat)
    requires FirstClose(close, i, j, k) && FirstClose(close, i, j, l)
    ensures k == l
  {
    assert k < l ==> close(k, j).None?;
    assert l < k ==> close(l, j).None?;
  }

  lemma PriceIsFirstClose(close: Frame, i: nat, j: nat, k: nat)
    requires FirstClose(close, i, j, k)
    ensures PriceAt(close, i, j) == close(k, j).value
  {
    forall l: nat | FirstClose(close, i, j, l)
      ensures l == k
    {
      OneFirstClose(close, i, j, k, l);
    }
  }

  /** Every frame of positive, carried closes has such prices: the model leaves no market out. */
  lemma {:induction false} EveryMarketHasPrices(close: Frame, open: Frame, low: Frame)
    requires CarriedForward(close)
    ensures Market(close, open, low, (i: nat, j: nat) => PriceAt(close, i, j)).Valid()
  {
    var mk := Market(close, open, low, (i: nat, j: nat) => PriceAt(close, i, j));
    hide PriceAt;
    forall i: nat, j: nat
      ensures mk.ValidAt(i, j)
    {
      assert CarriedForwardAt(close, i, j);
      if close(i, j).Some? {
        PriceIsFirstClose(close, i, j, i);
      } else {
        PriceStandsStill(close, i, i + 1, j);
      }
    }
  }

  lemma PriceStandsStill(close: Frame, i: nat, next: nat, j: nat)
    requires CarriedForward(close) && next == i + 1 && close(i, j).None?
    ensures PriceAt(close, i, j) == PriceAt(close, next, j) > 0.0
  {
    forall k: nat
      ensures FirstClose(close, i, j, k) <==> FirstClose(close, next, j, k)
    {
      if FirstClose(close, i, j, k) || FirstClose(close, next, j, k) {
        assert k != i;
      }
    }
    if k: nat :| FirstClose(close, i, j, k) {
      PriceIsFirstClose(close, i, j, k);
      PriceIsFirstClose(close, next, j, k);
      assert CarriedForwardAt(close, k, j);
    }
  }

  /** `price / close before - 1`. */
  function Rel(price: real, before: real): real
    requires before != 0.0
  {
    price / before - 1.0
  }

  /** A price of session `i` relative to the close before it, where both are there. */
  function RelTo(mk: Market, price: Option<real>, i: nat, j: nat): Option<real>
    requires i > 0 && (mk.Quoted(i - 1, j) ==> mk.close(i - 1, j).value > 0.0)
  {
    if price.Some? && mk.Quoted(i - 1, j) then Some(Rel(price.value, mk.close(i - 1, j).value)) else None
  }

  /** The frames the study derives from a market, each relative to the previous close. */
  ghost predicate Derived(x: Inputs, mk: Market)
    requires mk.Valid()
  {
    forall i: nat, j: nat :: i > 0 ==> DerivedAt(x, mk, i, j)
  }

  ghost predicate DerivedAt(x: Inputs, mk: Market, i: nat, j: nat)
    requires mk.Valid() && i > 0
  {
    assert mk.ValidAt(i - 1, j);
    && x.closeRel(i, j) == RelTo(mk, mk.close(i, j), i, j)
    && x.openRel(i, j) == RelTo(mk, mk.open(i, j), i, j)
    && x.lowRel(i, j) == RelTo(mk, mk.low(i, j), i, j)
  }

  /** The study's close-to-close return is the move of the price, a missing one included. */
  lemma ReturnIsPriceMove(x: Inputs, mk: Market, i: nat, j: nat)
    requires mk.Valid() && Derived(x, mk) && i > 0
    ensures mk.price(i - 1, j) > 0.0 && mk.price(i, j) > 0.0
    ensures OrZero(x.closeRel(i, j)) == Rel(mk.price(i, j), mk.price(i - 1, j))
  {
    assert mk.ValidAt(i - 1, j) && mk.ValidAt(i, j) && DerivedAt(x, mk, i, j);
    QuotientIs(mk.price(i - 1, j), mk.price(i - 1, j), 1.0);
  }
}
