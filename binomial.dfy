/**
 * A model of the Cox-Ross-Rubinstein binomial pricer for a European call.
 *
 * The market arithmetic that turns an option record into the one-step
 * factors (exp and sqrt on doubles) is not modelled: the up factor u, the
 * down factor v, the risk-neutral up probability p, the one-step discount
 * factor and the number of steps n are inputs, held in a Params value.
 * Arithmetic is over mathematical reals.
 *
 * Layout: specification functions (Pow, Price, Payoff, Lattice), the pure
 * effect of one in-place pass over a buffer (ForwardStep, BackStep, Sweeps),
 * the imperative routine (OptionPrice and its phases), and the lemmas that
 * connect the passes to the lattice and state its financial properties.
 */
module Binomial {

  /** The quantities OptionPrice works with once u, v, p and discount are known. */
  datatype Params = Params(
    asset: real,     // spot price of the underlying
    strike: real,    // exercise price
    u: real,         // up-move factor
    v: real,         // down-move factor
    p: real,         // risk-neutral probability of an up-move
    discount: real,  // one-step discount factor
    n: nat           // number of lattice steps
  )

  /**
   * p is risk-neutral for u, v and discount: the discounted expected one-step
   * growth factor is 1, as p = (1/discount - v) / (u - v) makes it.
   */
  predicate RiskNeutral(t: Params) {
    t.discount * (t.p * t.u + (1.0 - t.p) * t.v) == 1.0
  }

  /** The weights of the backward step form a probability and the discount is not negative. */
  predicate ProperWeights(t: Params) {
    0.0 <= t.p <= 1.0 && t.discount >= 0.0
  }

  // ---------------------------------------------------------------------------
  // Specification functions
  // ---------------------------------------------------------------------------

  /** x raised to the k-th power. */
  function Pow(x: real, k: nat): real {
    if k == 0 then 1.0 else x * Pow(x, k - 1)
  }

  /** Asset price at node (level, j): j up-moves and level - j down-moves. */
  function Price(t: Params, level: nat, j: nat): real
    requires j <= level
  {
    t.asset * Pow(t.u, j) * Pow(t.v, level - j)
  }

  /** Value of a call at expiry: the positive part of price - strike. */
  function Payoff(price: real, strike: real): (r: real)
    ensures r >= 0.0 && r >= price - strike
    ensures r == 0.0 || r == price - strike
  {
    if price > strike then price - strike else 0.0
  }

  /** The discounted risk-neutral expectation of an up child and a down child. */
  function Rollback(p: real, discount: real, up: real, down: real): real {
    discount * (p * up + (1.0 - p) * down)
  }

  /**
   * The risk-neutral value of the option at node (level, j): the payoff at
   * the terminal level, the discounted expectation of its two children at the
   * next level otherwise.
   */
  function Lattice(t: Params, level: nat, j: nat): real
    requires j <= level <= t.n
    decreases t.n - level
  {
    if level == t.n then Payoff(Price(t, level, j), t.strike)
    else Rollback(t.p, t.discount, Lattice(t, level + 1, j + 1), Lattice(t, level + 1, j))
  }

  /** The payoffs at the terminal level, indexed by the number of up-moves. */
  function Terminal(t: Params): (r: seq<real>)
    ensures |r| == t.n + 1
  {
    seq(t.n + 1, j requires 0 <= j <= t.n => Payoff(Price(t, t.n, j), t.strike))
  }

  // ---------------------------------------------------------------------------
  // What one in-place pass does to a buffer
  // ---------------------------------------------------------------------------

  /**
   * Forward level idx on a row: every entry 1..idx becomes u times the entry
   * before it as it was BEFORE the pass, entry 0 becomes v times itself, and
   * entries beyond idx are untouched.
   */
  function ForwardStep(s: seq<real>, idx: nat, u: real, v: real): (r: seq<real>)
    requires idx < |s|
    ensures |r| == |s|
  {
    seq(|s|, j requires 0 <= j < |s| =>
      if j == 0 then v * s[0] else if j <= idx then u * s[j - 1] else s[j])
  }

  /**
   * One backward pass over the whole row: every entry but the last becomes
   * the discounted expectation of itself and its right neighbour as they
   * were BEFORE the pass; the last entry is untouched.
   */
  function BackStep(s: seq<real>, p: real, discount: real): (r: seq<real>)
    ensures |r| == |s|
  {
    seq(|s|, j requires 0 <= j < |s| =>
      if j + 1 < |s| then Rollback(p, discount, s[j + 1], s[j]) else s[j])
  }

  /** k backward passes. */
  function Sweeps(s: seq<real>, k: nat, p: real, discount: real): (r: seq<real>)
    ensures |r| == |s|
  {
    if k == 0 then s else BackStep(Sweeps(s, k - 1, p, discount), p, discount)
  }

  // ---------------------------------------------------------------------------
  // The routine
  // ---------------------------------------------------------------------------

  /** Prices the call: forward pass, terminal payoffs, n backward passes, entry 0. */
  method OptionPrice(t: Params) returns (price: real)
    ensures price == Lattice(t, 0, 0)
    ensures ProperWeights(t) ==> price >= 0.0
  {
    var assetPrices := new real[t.n + 1];
    var optionPrices := new real[t.n + 1];

    ForwardPass(assetPrices, t);
    FillPayoffs(assetPrices, optionPrices, t.n, t.strike);
    assert optionPrices[..] == Terminal(t);
    BackwardInduction(optionPrices, t.n, t.p, t.discount);

    SweepsMatchLattice(t, t.n, 0);
    price := optionPrices[0];
    if ProperWeights(t) {
      LatticeNonNegative(t, 0, 0);
    }
  }

  /** Builds the terminal row of asset prices in one buffer, level by level. */
  method ForwardPass(assetPrices: array<real>, t: Params)
    requires assetPrices.Length == t.n + 1
    modifies assetPrices
    ensures forall j :: 0 <= j <= t.n ==> assetPrices[j] == Price(t, t.n, j)
  {
    assetPrices[0] := t.asset;
    var idx := 1;
    while idx <= t.n
      invariant 1 <= idx <= t.n + 1
      invariant forall j :: 0 <= j < idx ==> assetPrices[j] == Price(t, idx - 1, j)
    {
      ghost var before := assetPrices[..];
      ForwardLevel(assetPrices, idx, t.u, t.v);
      ForwardStepAdvancesLevel(before, t, idx);
      idx := idx + 1;
    }
  }

  /** One level of the forward pass; the index runs downward so each read precedes its overwrite. */
  method ForwardLevel(assetPrices: array<real>, idx: nat, u: real, v: real)
    requires idx < assetPrices.Length
    modifies assetPrices
    ensures assetPrices[..] == ForwardStep(old(assetPrices[..]), idx, u, v)
  {
    ghost var before := assetPrices[..];
    ghost var after := ForwardStep(before, idx, u, v);
    var jdx := idx;
    while jdx >= 1
      invariant 0 <= jdx <= idx
      invariant forall j :: 0 <= j <= jdx ==> assetPrices[j] == before[j]
      invariant forall j :: jdx < j < assetPrices.Length ==> assetPrices[j] == after[j]
    {
      assetPrices[jdx] := u * assetPrices[jdx - 1];
      jdx := jdx - 1;
    }
    assetPrices[0] := v * assetPrices[0];
    forall j | 0 <= j < assetPrices.Length ensures assetPrices[j] == after[j] {
      if j == 0 {
        assert after[0] == v * before[0];
      }
    }
    assert assetPrices[..] == after;
  }

  /** Maps Payoff over the terminal row into the second buffer. */
  method FillPayoffs(assetPrices: array<real>, optionPrices: array<real>, n: nat, strike: real)
    requires assetPrices.Length == n + 1 && optionPrices.Length == n + 1
    requires assetPrices != optionPrices
    modifies optionPrices
    ensures forall j :: 0 <= j <= n ==> optionPrices[j] == Payoff(assetPrices[j], strike)
    ensures assetPrices[..] == old(assetPrices[..])
  {
    var jdx := 0;
    while jdx <= n
      invariant 0 <= jdx <= n + 1
      invariant forall j :: 0 <= j < jdx ==> optionPrices[j] == Payoff(assetPrices[j], strike)
      invariant assetPrices[..] == old(assetPrices[..])
    {
      optionPrices[jdx] := Payoff(assetPrices[jdx], strike);
      jdx := jdx + 1;
    }
  }

  /** n backward passes over the option-value buffer. */
  method BackwardInduction(optionPrices: array<real>, n: nat, p: real, discount: real)
    requires optionPrices.Length == n + 1
    modifies optionPrices
    ensures optionPrices[..] == Sweeps(old(optionPrices[..]), n, p, discount)
    ensures optionPrices[n] == old(optionPrices[n])
  {
    ghost var start := optionPrices[..];
    var idx := n;
    while idx >= 1
      invariant 0 <= idx <= n
      invariant optionPrices[..] == Sweeps(start, n - idx, p, discount)
    {
      BackwardSweep(optionPrices, n, p, discount);
      idx := idx - 1;
    }
    assert idx == 0;
    assert optionPrices[n] == Sweeps(start, n, p, discount)[n] == start[n] by {
      SweepsKeepLast(start, n, p, discount);
    }
  }

  /** One backward pass over indices 0..n-1; the index runs upward so entry jdx+1 still holds the previous level. */
  method BackwardSweep(optionPrices: array<real>, n: nat, p: real, discount: real)
    requires optionPrices.Length == n + 1
    modifies optionPrices
    ensures optionPrices[..] == BackStep(old(optionPrices[..]), p, discount)
  {
    ghost var before := optionPrices[..];
    ghost var after := BackStep(before, p, discount);
    var jdx := 0;
    while jdx < n
      invariant 0 <= jdx <= n
      invariant forall j :: 0 <= j < jdx ==> optionPrices[j] == after[j]
      invariant forall j :: jdx <= j <= n ==> optionPrices[j] == before[j]
    {
      optionPrices[jdx] := discount * (p * optionPrices[jdx + 1] + (1.0 - p) * optionPrices[jdx]);
      jdx := jdx + 1;
    }
    assert optionPrices[..] == after;
  }

  // ---------------------------------------------------------------------------
  // Lemmas: the passes compute the lattice
  // ---------------------------------------------------------------------------

  /** Moving one level down the tree multiplies a price by u (up-move) or v (down-move). */
  lemma {:induction false} PriceChildren(t: Params, level: nat, j: nat)
    requires j <= level
    ensures Price(t, level + 1, j + 1) == t.u * Price(t, level, j)
    ensures Price(t, level + 1, j) == t.v * Price(t, level, j)
  {
  }

  /** A forward level turns the prices of level idx - 1 into those of level idx. */
  lemma {:induction false} ForwardStepAdvancesLevel(s: seq<real>, t: Params, idx: nat)
    requires 1 <= idx < |s|
    requires forall j :: 0 <= j < idx ==> s[j] == Price(t, idx - 1, j)
    ensures forall j :: 0 <= j <= idx ==> ForwardStep(s, idx, t.u, t.v)[j] == Price(t, idx, j)
  {
    forall j | 0 <= j <= idx
      ensures ForwardStep(s, idx, t.u, t.v)[j] == Price(t, idx, j)
    {
      if j == 0 {
        PriceChildren(t, idx - 1, 0);
      } else {
        PriceChildren(t, idx - 1, j - 1);
      }
    }
  }

  /** After k backward passes from the terminal payoffs, entries 0..n-k are the lattice values of level n-k. */
  lemma {:induction false} SweepsMatchLattice(t: Params, k: nat, j: nat)
    requires k <= t.n && j <= t.n - k
    ensures Sweeps(Terminal(t), k, t.p, t.discount)[j] == Lattice(t, t.n - k, j)
  {
    if k > 0 {
      SweepsMatchLattice(t, k - 1, j);
      SweepsMatchLattice(t, k - 1, j + 1);
    }
  }

  /** The last entry is never written by a backward pass. */
  lemma {:induction false} SweepsKeepLast(s: seq<real>, k: nat, p: real, discount: real)
    requires |s| > 0
    ensures Sweeps(s, k, p, discount)[|s| - 1] == s[|s| - 1]
  {
    if k > 0 {
      SweepsKeepLast(s, k - 1, p, discount);
    }
  }

  /** A discounted expectation with proper weights is monotone in both children. */
  lemma ExpectationMonotone(p: real, discount: real, up: real, down: real, up': real, down': real)
    requires 0.0 <= p <= 1.0 && discount >= 0.0
    requires up <= up' && down <= down'
    ensures Rollback(p, discount, up, down) <= Rollback(p, discount, up', down')
  {
    assert p * (up' - up) >= 0.0;
    assert (1.0 - p) * (down' - down) >= 0.0;
    var e, e' := p * up + (1.0 - p) * down, p * up' + (1.0 - p) * down';
    assert e <= e';
    assert discount * (e' - e) >= 0.0;
  }

  /** With proper weights, every backward pass keeps every entry of the buffer non-negative. */
  lemma {:induction false} SweepsNonNegative(s: seq<real>, k: nat, p: real, discount: real)
    requires 0.0 <= p <= 1.0 && discount >= 0.0
    requires forall i :: 0 <= i < |s| ==> s[i] >= 0.0
    ensures forall i :: 0 <= i < |s| ==> Sweeps(s, k, p, discount)[i] >= 0.0
  {
    if k > 0 {
      SweepsNonNegative(s, k - 1, p, discount);
      var prev := Sweeps(s, k - 1, p, discount);
      forall i | 0 <= i < |s| ensures BackStep(prev, p, discount)[i] >= 0.0 {
        if i + 1 < |s| {
          ExpectationMonotone(p, discount, 0.0, 0.0, prev[i + 1], prev[i]);
        }
      }
    }
  }

  /** With proper weights the value at every node, and so the returned price, is non-negative. */
  lemma {:induction false} LatticeNonNegative(t: Params, level: nat, j: nat)
    requires ProperWeights(t)
    requires j <= level <= t.n
    ensures Lattice(t, level, j) >= 0.0
  {
    SweepsNonNegative(Terminal(t), t.n - level, t.p, t.discount);
    SweepsMatchLattice(t, t.n - level, j);
  }

  // ---------------------------------------------------------------------------
  // Lemmas: the terminal row
  // ---------------------------------------------------------------------------

  lemma {:induction false} PowPositive(x: real, k: nat)
    requires x > 0.0
    ensures Pow(x, k) > 0.0
  {
    if k > 0 {
      PowPositive(x, k - 1);
    }
  }

  /** With a positive spot and positive move factors every node price is positive. */
  lemma {:induction false} PricePositive(t: Params, level: nat, j: nat)
    requires t.asset > 0.0 && t.u > 0.0 && t.v > 0.0
    requires j <= level
    ensures Price(t, level, j) > 0.0
  {
    PowPositive(t.u, j);
    PowPositive(t.v, level - j);
    var a, b := Pow(t.u, j), Pow(t.v, level - j);
    assert t.asset * a > 0.0;
    assert t.asset * a * b > 0.0;
  }

  /** With v == 1/u, u > 1 and a positive spot, the prices of every level are positive and strictly increasing in j. */
  lemma {:induction false} RowIncreasing(t: Params, level: nat, j: nat)
    requires t.u > 1.0 && t.v == 1.0 / t.u && t.asset > 0.0
    requires j < level
    ensures 0.0 < Price(t, level, j) < Price(t, level, j + 1)
  {
    assert 0.0 < t.v < t.u by {
      assert t.v * t.u == 1.0;
    }
    var below := Price(t, level - 1, j);
    PricePositive(t, level - 1, j);
    PriceChildren(t, level - 1, j);
    assert t.v * below < t.u * below by {
      assert (t.u - t.v) * below > 0.0;
    }
  }

  // ---------------------------------------------------------------------------
  // Lemmas: properties of the price
  // ---------------------------------------------------------------------------

  /** The payoff is non-decreasing in the price and non-increasing in the strike. */
  lemma PayoffMonotone(price: real, strike: real, price': real, strike': real)
    requires price <= price' && strike' <= strike
    ensures Payoff(price, strike) <= Payoff(price', strike')
  {
  }

  /**
   * The option value is non-decreasing in the spot price and non-increasing
   * in the strike, when the move factors are non-negative and the weights proper.
   */
  lemma {:induction false} LatticeMonotone(t: Params, t': Params, level: nat, j: nat)
    requires t'.u == t.u && t'.v == t.v && t'.p == t.p && t'.discount == t.discount && t'.n == t.n
    requires t.asset <= t'.asset && t'.strike <= t.strike
    requires t.u >= 0.0 && t.v >= 0.0 && ProperWeights(t)
    requires j <= level <= t.n
    ensures Lattice(t, level, j) <= Lattice(t', level, j)
    decreases t.n - level
  {
    if level == t.n {
      PriceMonotoneInAsset(t, t', level, j);
      PayoffMonotone(Price(t, level, j), t.strike, Price(t', level, j), t'.strike);
    } else {
      var up, down := Lattice(t, level + 1, j + 1), Lattice(t, level + 1, j);
      var up', down' := Lattice(t', level + 1, j + 1), Lattice(t', level + 1, j);
      LatticeMonotone(t, t', level + 1, j + 1);
      LatticeMonotone(t, t', level + 1, j);
      ExpectationMonotone(t.p, t.discount, up, down, up', down');
    }
  }

  /** A higher spot gives a higher price at every node when the move factors are non-negative. */
  lemma {:induction false} PriceMonotoneInAsset(t: Params, t': Params, level: nat, j: nat)
    requires t'.u == t.u && t'.v == t.v && t.asset <= t'.asset
    requires t.u >= 0.0 && t.v >= 0.0
    requires j <= level
    ensures Price(t, level, j) <= Price(t', level, j)
  {
    PowNonNegative(t.u, j);
    PowNonNegative(t.v, level - j);
    var a, b := Pow(t.u, j), Pow(t.v, level - j);
    assert a * b >= 0.0;
    assert t.asset * (a * b) <= t'.asset * (a * b);
    assert Price(t, level, j) == t.asset * (a * b);
    assert Price(t', level, j) == t'.asset * (a * b);
  }

  lemma {:induction false} PowNonNegative(x: real, k: nat)
    requires x >= 0.0
    ensures Pow(x, k) >= 0.0
  {
    if k > 0 {
      PowNonNegative(x, k - 1);
    }
  }

  // ---------------------------------------------------------------------------
  // Lemmas: bounds under the risk-neutral probability
  // ---------------------------------------------------------------------------

  lemma {:induction false} PriceNonNegative(t: Params, level: nat, j: nat)
    requires t.asset >= 0.0 && t.u >= 0.0 && t.v >= 0.0
    requires j <= level
    ensures Price(t, level, j) >= 0.0
  {
    PowNonNegative(t.u, j);
    PowNonNegative(t.v, level - j);
    var a, b := Pow(t.u, j), Pow(t.v, level - j);
    assert t.asset * a >= 0.0;
    assert t.asset * a * b >= 0.0;
  }

  /**
   * Under the risk-neutral probability the discounted asset price is a
   * martingale: rolling back a node's two child prices gives the node's price.
   */
  lemma {:induction false} PriceMartingale(t: Params, level: nat, j: nat)
    requires RiskNeutral(t)
    requires j <= level
    ensures Rollback(t.p, t.discount, Price(t, level + 1, j + 1), Price(t, level + 1, j)) == Price(t, level, j)
  {
  }

  /** Rolling back shifted children shifts the result by the discounted shift. */
  lemma RollbackShift(p: real, discount: real, up: real, down: real, c: real)
    ensures Rollback(p, discount, up - c, down - c) == Rollback(p, discount, up, down) - discount * c
  {
  }

  /**
   * Under the risk-neutral probability, with non-negative spot, factors and
   * strike, the call is worth at most the underlying at every node.
   */
  lemma {:induction false} LatticeAtMostPrice(t: Params, level: nat, j: nat)
    requires RiskNeutral(t) && ProperWeights(t)
    requires t.asset >= 0.0 && t.u >= 0.0 && t.v >= 0.0 && t.strike >= 0.0
    requires j <= level <= t.n
    ensures Lattice(t, level, j) <= Price(t, level, j)
    decreases t.n - level
  {
    if level == t.n {
      PriceNonNegative(t, level, j);
    } else {
      LatticeAtMostPrice(t, level + 1, j + 1);
      LatticeAtMostPrice(t, level + 1, j);
      ExpectationMonotone(t.p, t.discount,
        Lattice(t, level + 1, j + 1), Lattice(t, level + 1, j),
        Price(t, level + 1, j + 1), Price(t, level + 1, j));
      PriceMartingale(t, level, j);
    }
  }

  /** The spot minus the strike discounted over the steps left after level. */
  function ForwardValue(t: Params, level: nat, j: nat): real
    requires j <= level <= t.n
  {
    Price(t, level, j) - t.strike * Pow(t.discount, t.n - level)
  }

  /** Rolling back the forward values of a node's children gives the node's forward value. */
  lemma {:induction false} ForwardValueMartingale(t: Params, level: nat, j: nat)
    requires RiskNeutral(t)
    requires j <= level < t.n
    ensures Rollback(t.p, t.discount, ForwardValue(t, level + 1, j + 1), ForwardValue(t, level + 1, j))
         == ForwardValue(t, level, j)
  {
    var x := Pow(t.discount, t.n - (level + 1));
    var c := t.strike * x;
    var up, down := Price(t, level + 1, j + 1), Price(t, level + 1, j);
    assert ForwardValue(t, level + 1, j + 1) == up - c;
    assert ForwardValue(t, level + 1, j) == down - c;
    RollbackShift(t.p, t.discount, up, down, c);
    PriceMartingale(t, level, j);
    assert Pow(t.discount, t.n - level) == t.discount * x;
    assert t.discount * c == t.strike * (t.discount * x);
  }

  /**
   * Under the risk-neutral probability the call is worth at least the spot
   * minus the strike discounted over the remaining steps, at every node.
   */
  lemma {:induction false} LatticeAtLeastForward(t: Params, level: nat, j: nat)
    requires RiskNeutral(t) && ProperWeights(t)
    requires j <= level <= t.n
    ensures Lattice(t, level, j) >= ForwardValue(t, level, j)
    decreases t.n - level
  {
    if level < t.n {
      LatticeAtLeastForward(t, level + 1, j + 1);
      LatticeAtLeastForward(t, level + 1, j);
      ExpectationMonotone(t.p, t.discount,
        ForwardValue(t, level + 1, j + 1), ForwardValue(t, level + 1, j),
        Lattice(t, level + 1, j + 1), Lattice(t, level + 1, j));
      ForwardValueMartingale(t, level, j);
    }
  }

  /**
   * The price OptionPrice returns lies between max(0, spot - strike * discount^n)
   * and the spot, under the risk-neutral probability.
   */
  lemma PriceBounds(t: Params)
    requires RiskNeutral(t) && ProperWeights(t)
    requires t.asset >= 0.0 && t.u >= 0.0 && t.v >= 0.0 && t.strike >= 0.0
    ensures 0.0 <= Lattice(t, 0, 0) <= t.asset
    ensures Lattice(t, 0, 0) >= t.asset - t.strike * Pow(t.discount, t.n)
  {
    LatticeNonNegative(t, 0, 0);
    LatticeAtMostPrice(t, 0, 0);
    LatticeAtLeastForward(t, 0, 0);
  }

  /**
   * Deep out of the money: when the strike is at least every terminal price,
   * every node, and so the price OptionPrice returns, is worth exactly 0.
   */
  lemma {:induction false} OutOfMoney(t: Params, level: nat, j: nat)
    requires forall i :: 0 <= i <= t.n ==> t.strike >= Price(t, t.n, i)
    requires j <= level <= t.n
    ensures Lattice(t, level, j) == 0.0
    decreases t.n - level
  {
    if level < t.n {
      OutOfMoney(t, level + 1, j + 1);
      OutOfMoney(t, level + 1, j);
    }
  }

  /**
   * Deep in the money: under the risk-neutral probability, when the strike is
   * at most every terminal price, every node is worth exactly the spot minus
   * the strike discounted over the remaining steps.
   */
  lemma {:induction false} InTheMoney(t: Params, level: nat, j: nat)
    requires RiskNeutral(t)
    requires forall i :: 0 <= i <= t.n ==> t.strike <= Price(t, t.n, i)
    requires j <= level <= t.n
    ensures Lattice(t, level, j) == ForwardValue(t, level, j)
    decreases t.n - level
  {
    if level < t.n {
      InTheMoney(t, level + 1, j + 1);
      InTheMoney(t, level + 1, j);
      ForwardValueMartingale(t, level, j);
    }
  }

  /**
   * With p == 1 (zero volatility and a positive rate, so every step is an
   * up-move) the value of a
   * node is the payoff of the single terminal node it leads to, discounted
   * over the remaining steps.
   */
  lemma {:induction false} CertainUpMoves(t: Params, level: nat, j: nat)
    requires t.p == 1.0
    requires j <= level <= t.n
    ensures Lattice(t, level, j)
         == Pow(t.discount, t.n - level) * Payoff(Price(t, t.n, j + (t.n - level)), t.strike)
    decreases t.n - level
  {
    if level < t.n {
      CertainUpMoves(t, level + 1, j + 1);
      var up, down := Lattice(t, level + 1, j + 1), Lattice(t, level + 1, j);
      var rest := Pow(t.discount, t.n - (level + 1));
      var pay := Payoff(Price(t, t.n, j + (t.n - level)), t.strike);
      assert up == rest * pay;
      assert Lattice(t, level, j) == Rollback(1.0, t.discount, up, down);
      RollbackCertain(t.discount, up, down);
      assert Pow(t.discount, t.n - level) == t.discount * rest;
      MulAssoc(t.discount, rest, pay);
    }
  }

  /** With p == 1 the update keeps only the discounted up child. */
  lemma RollbackCertain(discount: real, up: real, down: real)
    ensures Rollback(1.0, discount, up, down) == discount * up
  {
  }

  lemma MulAssoc(a: real, b: real, c: real)
    ensures a * (b * c) == (a * b) * c
  {
  }

  /** With p == 1 the price is discount^n times the payoff of asset * u^n. */
  lemma CertainUpMovesPrice(t: Params)
    requires t.p == 1.0
    ensures Lattice(t, 0, 0) == Pow(t.discount, t.n) * Payoff(t.asset * Pow(t.u, t.n), t.strike)
  {
    CertainUpMoves(t, 0, 0);
    assert Price(t, t.n, t.n) == t.asset * Pow(t.u, t.n);
  }

  // ---------------------------------------------------------------------------
  // Lemmas: convexity in the strike
  // ---------------------------------------------------------------------------

  /** The weighted mix w * a + (1 - w) * b. */
  function Mix(w: real, a: real, b: real): real {
    w * a + (1.0 - w) * b
  }

  /** A mix with a weight in [0, 1] is monotone in both arguments. */
  lemma MixMonotone(w: real, a: real, b: real, a': real, b': real)
    requires 0.0 <= w <= 1.0 && a <= a' && b <= b'
    ensures Mix(w, a, b) <= Mix(w, a', b')
  {
    assert w * (a' - a) >= 0.0;
    assert (1.0 - w) * (b' - b) >= 0.0;
  }

  /** Mixing two shortfalls from the same price is the shortfall from the mixed level. */
  lemma MixShift(w: real, x: real, a: real, b: real)
    ensures Mix(w, x - a, x - b) == x - Mix(w, a, b)
  {
  }

  /** The payoff is convex in the strike. */
  lemma PayoffConvexInStrike(price: real, k1: real, k2: real, w: real)
    requires 0.0 <= w <= 1.0
    ensures Payoff(price, Mix(w, k1, k2)) <= Mix(w, Payoff(price, k1), Payoff(price, k2))
  {
    var r1, r2 := Payoff(price, k1), Payoff(price, k2);
    if price > Mix(w, k1, k2) {
      MixShift(w, price, k1, k2);
      MixMonotone(w, price - k1, price - k2, r1, r2);
    } else {
      MixMonotone(w, 0.0, 0.0, r1, r2);
      assert Mix(w, 0.0, 0.0) == 0.0;
    }
  }

  /** Rolling back is linear in the children. */
  lemma RollbackLinear(p: real, discount: real, w: real, up1: real, down1: real, up2: real, down2: real)
    ensures Rollback(p, discount, Mix(w, up1, up2), Mix(w, down1, down2))
         == Mix(w, Rollback(p, discount, up1, down1), Rollback(p, discount, up2, down2))
  {
  }

  /** With proper weights the option value at every node is convex in the strike. */
  lemma {:induction false} LatticeConvexInStrike(t: Params, k1: real, k2: real, w: real, level: nat, j: nat)
    requires ProperWeights(t) && 0.0 <= w <= 1.0
    requires j <= level <= t.n
    ensures Lattice(t.(strike := Mix(w, k1, k2)), level, j)
         <= Mix(w, Lattice(t.(strike := k1), level, j), Lattice(t.(strike := k2), level, j))
    decreases t.n - level
  {
    var tm, t1, t2 := t.(strike := Mix(w, k1, k2)), t.(strike := k1), t.(strike := k2);
    if level == t.n {
      assert Price(tm, level, j) == Price(t1, level, j) == Price(t2, level, j);
      PayoffConvexInStrike(Price(tm, level, j), k1, k2, w);
    } else {
      LatticeConvexInStrike(t, k1, k2, w, level + 1, j + 1);
      LatticeConvexInStrike(t, k1, k2, w, level + 1, j);
      var up1, down1 := Lattice(t1, level + 1, j + 1), Lattice(t1, level + 1, j);
      var up2, down2 := Lattice(t2, level + 1, j + 1), Lattice(t2, level + 1, j);
      ExpectationMonotone(t.p, t.discount,
        Lattice(tm, level + 1, j + 1), Lattice(tm, level + 1, j),
        Mix(w, up1, up2), Mix(w, down1, down2));
      RollbackLinear(t.p, t.discount, w, up1, down1, up2, down2);
    }
  }

  // ---------------------------------------------------------------------------
  // Put-call parity
  // ---------------------------------------------------------------------------

  /** The put payoff: strike - price when the strike is above the price, 0 otherwise. */
  function PutPayoff(price: real, strike: real): (r: real)
    ensures r >= 0.0 && r >= strike - price
    ensures r == 0.0 || r == strike - price
  {
    if strike > price then strike - price else 0.0
  }

  /** The risk-neutral value at node (level, j) of the put with the same strike and expiry. */
  function PutLattice(t: Params, level: nat, j: nat): real
    requires j <= level <= t.n
    decreases t.n - level
  {
    if level == t.n then PutPayoff(Price(t, level, j), t.strike)
    else Rollback(t.p, t.discount, PutLattice(t, level + 1, j + 1), PutLattice(t, level + 1, j))
  }

  /** The update is linear: rolling back differences gives the difference of the rollbacks. */
  lemma RollbackSub(p: real, discount: real, up1: real, down1: real, up2: real, down2: real)
    ensures Rollback(p, discount, up1 - up2, down1 - down2)
         == Rollback(p, discount, up1, down1) - Rollback(p, discount, up2, down2)
  {
  }

  /**
   * Put-call parity at every node: call minus put is the spot minus the strike
   * discounted over the remaining steps, so P = C - S + E * discount^(n - level).
   */
  lemma {:induction false} Parity(t: Params, level: nat, j: nat)
    requires RiskNeutral(t)
    requires j <= level <= t.n
    ensures Lattice(t, level, j) - PutLattice(t, level, j) == ForwardValue(t, level, j)
    decreases t.n - level
  {
    if level < t.n {
      Parity(t, level + 1, j + 1);
      Parity(t, level + 1, j);
      RollbackSub(t.p, t.discount,
        Lattice(t, level + 1, j + 1), Lattice(t, level + 1, j),
        PutLattice(t, level + 1, j + 1), PutLattice(t, level + 1, j));
      ForwardValueMartingale(t, level, j);
    }
  }

  /** Parity at the root: the put price is the call price minus the spot plus the strike discounted over n steps. */
  lemma ParityPrice(t: Params)
    requires RiskNeutral(t)
    ensures PutLattice(t, 0, 0) == Lattice(t, 0, 0) - t.asset + t.strike * Pow(t.discount, t.n)
  {
    Parity(t, 0, 0);
  }
}
