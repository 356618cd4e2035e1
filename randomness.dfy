/**
 * The model of the engine's random number generator. Neither `Random.value`
 * nor `Random.Range` is simulated: the caller supplies the sequence of draws
 * in advance, and every consumer reads the next draw in program order.
 */
module Randomness {

  /** The k-th draw of a stream; a stream that is used up reads as 0. */
  function Roll(draws: seq<real>, k: nat): real
  {
    if k < |draws| then draws[k] else 0.0
  }

  /**
   * `Random.Range(0, n)` driven by the draw v: the index floor(v * n), which
   * lies in [0, n) for a draw in [0, 1); other draws are clamped into range.
   */
  function Pick(v: real, n: nat): (k: nat)
    requires n > 0
    ensures k < n
    ensures 0.0 <= v < 1.0 ==> k as real <= v * n as real < k as real + 1.0
  {
    var f := (v * n as real).Floor;
    if 0.0 <= v < 1.0 then
      ScaledBelow(v, n as real);
      f
    else if f < 0 then 0 else if f >= n then n - 1 else f
  }

  /** A draw in [0, 1) scaled by a positive m lies in [0, m). */
  lemma ScaledBelow(v: real, m: real)
    requires 0.0 <= v < 1.0 && m > 0.0
    ensures 0.0 <= v * m < m
  {
  }

  /** A quotient a / m with 0 < a < m lies in (0, 1) and scales back to a. */
  lemma QuotientBelow(a: real, m: real)
    requires 0.0 < a < m
    ensures 0.0 < a / m < 1.0 && (a / m) * m == a
  {
    var q := a / m;
    assert q * m == a;
    assert (1.0 - q) * m == m - a;
    PositiveFactor(q, m);
    PositiveFactor(1.0 - q, m);
  }

  /** A factor whose product with a positive m is positive is itself positive. */
  lemma PositiveFactor(x: real, m: real)
    requires m > 0.0 && x * m > 0.0
    ensures x > 0.0
  {
  }

  /** Every index of [0, n) is reached by some draw in [0, 1): the pick is onto. */
  lemma PickReachesEveryIndex(i: nat, n: nat)
    requires i < n
    ensures var v := (i as real + 0.5) / n as real;
            0.0 <= v < 1.0 && Pick(v, n) == i
  {
    QuotientBelow(i as real + 0.5, n as real);
  }

  /**
   * The tie-break of an unstable sort: which of several equal candidates
   * comes first, named by the draw position at which the sort happens; an
   * exhausted sequence reads as 0.
   */
  function TieAt(ties: seq<nat>, n: nat): nat
  {
    if n < |ties| then ties[n] else 0
  }

  /** A caller-supplied stream of draws and sort tie-breaks, and the position of the next draw. */
  class Rng {
    const draws: seq<real>
    const ties: seq<nat>
    var next: nat

    constructor (draws: seq<real>, ties: seq<nat>)
      ensures this.draws == draws && this.ties == ties && next == 0
    {
      this.draws := draws;
      this.ties := ties;
      next := 0;
    }

    /** The tie-break of a sort made now; no draw is consumed. */
    function Tie(): nat
      reads this
    {
      TieAt(ties, next)
    }

    /** `Random.value`: the next draw. */
    method Value() returns (v: real)
      modifies this
      ensures v == Roll(draws, old(next)) && next == old(next) + 1
    {
      v := Roll(draws, next);
      next := next + 1;
    }

    /** `Random.Range(0, n)`: an index in [0, n) taken from the next draw. */
    method Range(n: nat) returns (k: nat)
      requires n > 0
      modifies this
      ensures k < n
      ensures k == Pick(Roll(draws, old(next)), n) && next == old(next) + 1
    {
      k := Pick(Roll(draws, next), n);
      next := next + 1;
    }

    /** Consumes the draws that a pure decision function has read. */
    method Skip(count: nat)
      modifies this
      ensures next == old(next) + count
    {
      next := next + count;
    }
  }
}
