# Binomial option pricer — a Dafny model

The repository prices a European call option on a Cox-Ross-Rubinstein
binomial lattice. Everything happens in one C routine, `OptionPrice` in
`code/binomial.c`, and its helper `Payoff`. `OptionPrice` works in three phases:

1. **Forward pass.** One buffer of length n+1 is rebuilt in place, level by level.
   It ends up holding the terminal asset prices `asset * u^j * v^(n-j)`.
2. **Payoff fill.** `max(price - strike, 0)` is mapped over that row into a
   second buffer.
3. **Backward induction.** The second buffer is overwritten n times with the
   discounted risk-neutral expectation `discount * (p*next + (1-p)*cur)`.
   Entry 0 is then the price.

This project models that routine in `binomial.dfy` (module `Binomial`).

- `Params` holds what the routine works with once the market arithmetic is
  done: spot `asset`, `strike`, up factor `u`, down factor `v`, up
  probability `p`, one-step `discount` and step count `n`. The C code fixes
  `n = 1000`; here it is a parameter.
- Specification functions:
  - `Pow` and `Price(t, level, j) = asset * u^j * v^(level-j)` give the closed form of the node prices.
  - `Payoff` is the call payoff.
  - `Lattice(t, level, j)` is the recursive risk-neutral value of node (level, j): the payoff at level n, and `Rollback` of its two children above that.
- In-place passes as functions of the old buffer:
  - `ForwardStep` is one forward level.
  - `BackStep` is one full-width backward pass.
  - `Sweeps` is k backward passes.
- The routine itself is imperative Dafny over two freshly allocated `array<real>` buffers:
  - `OptionPrice` calls `ForwardPass` (whose loop calls `ForwardLevel`), `FillPayoffs` and `BackwardInduction` (whose loop calls `BackwardSweep`).
  - Each loop runs over the same index range and in the same direction as the C loop.
  - The postconditions of `ForwardLevel`, `BackwardSweep` and `BackwardInduction` tie the new buffer to a step function of the old buffer. `ForwardPass` ends with the closed-form prices, and `FillPayoffs` maps `Payoff` over the asset buffer.
  - Lemmas show that those functions compute the closed-form prices and the lattice values.
- Further lemmas state the pricing properties expected of a call price: non-negativity, monotonicity in spot and strike, convexity in strike, the bounds `max(0, S - K*discount^n) <= price <= S` under the risk-neutral probability, a zero price deep out of the money, exactly `S - K*discount^n` deep in the money, the discounted payoff of `S*u^n` when every step is an up-move (p = 1), and put-call parity.

The textbook formulation of backward induction shrinks the active range to
`0..level-1` on each pass. The code (`code/binomial.c:96-100`) instead sweeps
the full width `0..n-1` on every pass. The model follows the code: `BackStep` rewrites
every entry but the last. `SweepsMatchLattice` shows that entries `0..n-k` still
hold the level-(n-k) lattice values after k passes. Entry `n` is never written
(`SweepsKeepLast`), so it keeps the terminal payoff `Lattice(t, n, n)`. Entries
`n-k+1..n-1` hold values that belong to no lattice level, and nothing reads them
into the price.

## Model

| member | source | states |
|---|---|---|
| `Binomial.Payoff` | code/binomial.c:115-120 | the result is non-negative, at least price - strike, and equal to one of the two, so it is exactly max(price - strike, 0): price - strike when price > strike, 0 otherwise |
| `Binomial.PayoffMonotone` | code/binomial.c:115-120 | the payoff is non-decreasing in the price and non-increasing in the strike |
| `Binomial.PayoffConvexInStrike` | code/binomial.c:115-120 | the payoff is convex in the strike |
| `Binomial.OptionPrice` | code/binomial.c:50-106 | the returned price equals the lattice value at node (0, 0); with 0 <= p <= 1 and discount >= 0 it is non-negative |
| `Binomial.ForwardPass` | code/binomial.c:67-74 | after the forward pass, entry j of the buffer is asset * u^j * v^(n-j) for every 0 <= j <= n |
| `Binomial.ForwardLevel` | code/binomial.c:70-73 | one level rewrites entries 1..idx as u times the entry to their left as it was before the level, entry 0 as v times itself, and leaves entries beyond idx untouched; so every read sees the previous level |
| `Binomial.PriceChildren` | code/binomial.c:71-73 | a node's up child is u times its price and its down child v times its price |
| `Binomial.ForwardStepAdvancesLevel` | code/binomial.c:69-74 | if entries 0..idx-1 are the prices of level idx-1, one forward level makes entries 0..idx the prices of level idx |
| `Binomial.PricePositive` | code/binomial.c:68-74 | with a positive spot and positive factors every node price is positive |
| `Binomial.RowIncreasing` | code/binomial.c:59-74 | with v = 1/u, u > 1 and a positive spot the prices of every level the forward pass builds are positive and strictly increasing in j |
| `Binomial.FillPayoffs` | code/binomial.c:84-86 | entry j of the option buffer becomes Payoff(assetPrices[j], strike) for every 0 <= j <= n, and the asset buffer is unchanged |
| `Binomial.BackwardSweep` | code/binomial.c:97-99 | one pass rewrites every entry but the last as the discounted expectation of itself and its right neighbour as they were before the pass, because the index runs upward; the last entry is untouched |
| `Binomial.BackwardInduction` | code/binomial.c:96-100 | after the n passes the buffer is n full-width backward passes of its old contents, and entry n was never written |
| `Binomial.SweepsMatchLattice` | code/binomial.c:96-100 | after k passes over the terminal payoffs, entries 0..n-k equal the lattice values of level n-k |
| `Binomial.SweepsKeepLast` | code/binomial.c:97 | no number of passes changes the last entry, since the inner loop stops before index n |
| `Binomial.ExpectationMonotone` | code/binomial.c:98 | with 0 <= p <= 1 and discount >= 0 the update is monotone in both children |
| `Binomial.SweepsNonNegative` | code/binomial.c:96-100 | with 0 <= p <= 1 and discount >= 0, passes over a non-negative buffer keep every entry non-negative, including those outside the active range |
| `Binomial.LatticeNonNegative` | code/binomial.c:102-105 | with 0 <= p <= 1 and discount >= 0 every lattice value, and so the returned price, is non-negative |
| `Binomial.PriceMonotoneInAsset` | code/binomial.c:68-74 | with non-negative factors a higher spot gives a higher price at every node |
| `Binomial.LatticeMonotone` | code/binomial.c:84-100 | the option value at every node is non-decreasing in the spot and non-increasing in the strike |
| `Binomial.LatticeConvexInStrike` | code/binomial.c:84-100 | the option value at every node is convex in the strike |
| `Binomial.PriceMartingale` | code/binomial.c:55-60 | under the risk-neutral p of line 60, rolling back a node's two child prices gives the node's price |
| `Binomial.ForwardValueMartingale` | code/binomial.c:96-100 | under the risk-neutral p, rolling back the children's spot-minus-discounted-strike gives the node's |
| `Binomial.LatticeAtMostPrice` | code/binomial.c:84-105 | under the risk-neutral p, with non-negative spot, factors and strike, the call is worth at most the underlying at every node |
| `Binomial.LatticeAtLeastForward` | code/binomial.c:84-105 | under the risk-neutral p the call is worth at least spot minus strike discounted over the remaining steps |
| `Binomial.PriceBounds` | code/binomial.c:50-106 | the price lies between max(0, asset - strike * discount^n) and asset |
| `Binomial.OutOfMoney` | code/binomial.c:84-100 | when the strike is at least every terminal price, every node value, and so the price, is exactly 0 |
| `Binomial.InTheMoney` | code/binomial.c:84-100 | under the risk-neutral p, when the strike is at most every terminal price, every node is worth exactly its spot minus the strike discounted over the remaining steps |
| `Binomial.CertainUpMoves` | code/binomial.c:84-100 | with p = 1 a node's value is the payoff of the terminal node reached by up-moves only, discounted over the remaining steps |
| `Binomial.Parity` | code/binomial.c:4 | under the risk-neutral p, at every node the call value minus the value of the put with the same strike is the spot minus the strike discounted over the remaining steps |
| `Binomial.ParityPrice` | code/binomial.c:4 | under the risk-neutral p the put price is the call price minus the spot plus the strike discounted over n steps, discount^n standing for e^(-rt) |
| `Binomial.PutPayoff` | code/binomial.c:4 | the put payoff is non-negative, at least strike - price, and equal to one of the two, so it is exactly max(strike - price, 0) |
| `Binomial.CertainUpMovesPrice` | code/binomial.c:50-106 | with p = 1 (zero volatility and a positive rate) the price is discount^n times the payoff of asset * u^n |

## Left out

- `main` (`code/binomial.c:26-42`) is not part of this model. It covers the prompts, the `scanf` reads, the percent-to-decimal and months-to-years conversions, and the `%.2lf` output; this is console I/O.
- The derivation of `step`, `discount`, `ufactor`, `u`, `v` and `p` with `exp` and `sqrt` (`code/binomial.c:54-60`) is left out. These are floating-point transcendental functions. They appear as fields of `Params`. Where a lemma needs what they guarantee, it states that as a precondition: `v = 1/u`, 0 <= p <= 1, or `RiskNeutral` (discount * (p*u + (1-p)*v) = 1). The exception is u = v (zero rate and zero volatility, or zero expiry): line 60 then divides 0 by 0 and the C code returns NaN, which the model does not represent, since it works over reals and takes p as an input.
- The `option` record (`code/binomial.c:15-21`) is not modelled. Its `expiry`, `rate` and `volatility` fields are only read by that arithmetic.
- IEEE double rounding is not modelled; arithmetic is over exact reals.
- `malloc` and `free` (`code/binomial.c:64-65, 103-104`) become fresh Dafny arrays. Allocation failure is not modelled.
- The `DEBUG1` and `DEBUG2` print blocks (`code/binomial.c:76-81, 88-93`) are left out. They only print.
- Convergence to the Black-Scholes price as n grows is left out, and so are the concrete numeric scenarios. They depend on `exp` and on limits in n. The put itself is not computed by the code; `PutLattice` exists only to state the parity of `code/binomial.c:4`, with `e^(-rt)` as `discount^n`.
