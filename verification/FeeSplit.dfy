/** How the proceeds of a sale are divided between the fee recipients and the seller. */
module FeeSplit {
  import opened Wrappers

  const MAX64 := 0x1_0000_0000_0000_0000

  /** Rates are in thousandths of a percent. */
  const RATE_UNIT := 100_000

  /**
   * The fee loop: from `remaining`, take funds * rate / 100_000 for each rate in turn. The product
   * traps when it leaves Nat64, the subtraction when it would go below zero.
   */
  function Split(rates: seq<nat>, funds: nat, remaining: nat): Outcome<(seq<nat>, nat)> {
    if rates == [] then Value(([], remaining))
    else if funds * rates[0] >= MAX64 then Trap
    else
      var amount := funds * rates[0] / RATE_UNIT;
      if amount > remaining then Trap
      else
        var (amounts, rest) :- Split(rates[1..], funds, remaining - amount);
        Value(([amount] + amounts, rest))
  }

  function Sum(xs: seq<nat>): nat {
    if xs == [] then 0 else xs[0] + Sum(xs[1..])
  }

  /** Every product the fee loop computes fits in 64 bits. */
  predicate ProductsFit(rates: seq<nat>, funds: nat) {
    forall i :: 0 <= i < |rates| ==> funds * rates[i] < MAX64
  }

  lemma {:induction false} SumAppend(xs: seq<nat>, ys: seq<nat>)
    ensures Sum(xs + ys) == Sum(xs) + Sum(ys)
  {
    if xs == [] {
      assert xs + ys == ys;
    } else {
      assert (xs + ys)[1..] == xs[1..] + ys;
      SumAppend(xs[1..], ys);
    }
  }

  lemma Distribute(funds: nat, a: nat, b: nat)
    ensures funds * (a + b) == funds * a + funds * b
  {
  }

  /** The loop started with enough left for all remaining shares runs to the end. */
  lemma {:induction false} SplitFrom(rates: seq<nat>, funds: nat, remaining: nat)
    requires RATE_UNIT * remaining >= funds * Sum(rates)
    ensures Split(rates, funds, remaining).Value? <==> ProductsFit(rates, funds)
    ensures Split(rates, funds, remaining).Value? ==>
              var (amounts, rest) := Split(rates, funds, remaining).value;
              && |amounts| == |rates|
              && (forall i :: 0 <= i < |rates| ==> amounts[i] == funds * rates[i] / RATE_UNIT)
              && Sum(amounts) + rest == remaining
              && RATE_UNIT * remaining - funds * Sum(rates) <= RATE_UNIT * rest
              && RATE_UNIT * rest <= RATE_UNIT * remaining - funds * Sum(rates) + (RATE_UNIT - 1) * |rates|
  {
    if rates != [] && funds * rates[0] < MAX64 {
      var amount := funds * rates[0] / RATE_UNIT;
      Distribute(funds, rates[0], Sum(rates[1..]));
      SplitFrom(rates[1..], funds, remaining - amount);
      assert ProductsFit(rates, funds) <==> ProductsFit(rates[1..], funds) by {
        assert forall i :: 0 < i < |rates| ==> rates[i] == rates[1..][i - 1];
      }
    }
  }

  /**
   * For every fee table whose rates add up to at most 100%: the split completes exactly when no
   * product overflows, so the subtraction never underflows; each recipient gets the floor of its
   * share; nothing is lost or made; and the seller's rest exceeds the exact share by at least zero
   * and by less than one unit per fee.
   */
  lemma SplitIsExact(rates: seq<nat>, funds: nat)
    requires Sum(rates) <= RATE_UNIT
    ensures Split(rates, funds, funds).Value? <==> ProductsFit(rates, funds)
    ensures ProductsFit(rates, funds) ==>
              var (amounts, rest) := Split(rates, funds, funds).value;
              && |amounts| == |rates|
              && (forall i :: 0 <= i < |rates| ==> amounts[i] == funds * rates[i] / RATE_UNIT)
              && Sum(amounts) + rest == funds
              && 0 <= RATE_UNIT * rest - funds * (RATE_UNIT - Sum(rates)) <= (RATE_UNIT - 1) * |rates|
  {
    var s := Sum(rates);
    assert funds * s + funds * (RATE_UNIT - s) == RATE_UNIT * funds by {
      Distribute(funds, s, RATE_UNIT - s);
    }
    assert funds * s <= RATE_UNIT * funds by {
      assert funds * (RATE_UNIT - s) >= 0;
    }
    SplitFrom(rates, funds, funds);
  }

  /**
   * A rate table above 100% makes the split trap on underflow for some funds: the bound on the
   * rates is needed.
   */
  lemma OverfullTableTraps()
    ensures Sum([60_000, 60_000]) > RATE_UNIT
    ensures ProductsFit([60_000, 60_000], 10)
    ensures Split([60_000, 60_000], 10, 10).Trap?
  {
    assert [60_000, 60_000][1..] == [60_000];
    assert Sum([60_000]) == 60_000;
    assert Split([60_000], 10, 4).Trap?;
  }
}
