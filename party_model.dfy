/**
 * The value-level model of a party's queries (Party.cs, and the ally
 * queries of BattleManager.cs and of the two faction classes): each is a
 * function of the members' records, in list order. Members are named by
 * their index in the party.
 */
module PartyModel {
  import opened AgentModel
  import opened Randomness

  datatype Option<T> = None | Some(value: T)

  /** Every member has a positive maximum health, so that fractions are defined. */
  predicate Positive(ps: seq<AgentView>)
  {
    forall j :: 0 <= j < |ps| ==> ps[j].maxHealth > 0.0
  }

  /** The health fraction `current / max` that every targeting rule compares. */
  function Fraction(v: AgentView): real
    requires v.maxHealth > 0.0
  {
    v.currentHealth / v.maxHealth
  }

  /** Strictly increasing indices below a bound. */
  predicate Increasing(idx: seq<nat>, bound: nat)
  {
    && (forall p :: 0 <= p < |idx| ==> idx[p] < bound)
    && (forall p, q :: 0 <= p < q < |idx| ==> idx[p] < idx[q])
  }

  // ---------------------------------------------------------------------
  // GetAliveAgents, HasAliveAgents, GetRandomAgent
  // ---------------------------------------------------------------------

  /** The indices below n of living members, in list order (the list `GetAliveAgents` builds). */
  function AliveBelow(ps: seq<AgentView>, n: nat): (r: seq<nat>)
    requires n <= |ps|
    ensures forall p :: 0 <= p < |r| ==> r[p] < n
  {
    if n == 0 then [] else AliveBelow(ps, n - 1) + (if ps[n - 1].isAlive then [n - 1] else [])
  }

  /** The alive list holds exactly the living members below n, in increasing order. */
  lemma {:induction false} AliveBelowFacts(ps: seq<AgentView>, n: nat)
    requires n <= |ps|
    ensures Increasing(AliveBelow(ps, n), n)
    ensures forall j :: j in AliveBelow(ps, n) <==> 0 <= j < n && ps[j].isAlive
  {
    if n > 0 {
      AliveBelowFacts(ps, n - 1);
    }
  }

  function AliveIndices(ps: seq<AgentView>): seq<nat>
  {
    AliveBelow(ps, |ps|)
  }

  /** `HasAliveAgents`: the alive list is not empty. */
  function HasAlive(ps: seq<AgentView>): (b: bool)
    ensures b <==> exists j :: 0 <= j < |ps| && ps[j].isAlive
  {
    var idx := AliveIndices(ps);
    AliveBelowFacts(ps, |ps|);
    assert |idx| > 0 ==> idx[0] in idx;
    |idx| > 0
  }

  /** The choice `Random.Range(0, count)` among candidate indices, and the draw cursor after it. */
  function Choose(idx: seq<nat>, draws: seq<real>, n: nat): (r: (Option<nat>, nat))
    ensures r.0.None? <==> |idx| == 0
    ensures r.0.Some? ==> r.0.value in idx
    ensures r.1 == if |idx| == 0 then n else n + 1
  {
    if |idx| == 0 then (None, n) else (Some(idx[Pick(Roll(draws, n), |idx|)]), n + 1)
  }

  /** `GetRandomAgent`: no member when none is alive, otherwise a living one. */
  function RandomMember(ps: seq<AgentView>, draws: seq<real>, n: nat): (r: (Option<nat>, nat))
    ensures r.0.None? <==> !HasAlive(ps)
    ensures r.0.Some? ==> r.0.value < |ps| && ps[r.0.value].isAlive
    ensures r.1 == if r.0.None? then n else n + 1
  {
    AliveBelowFacts(ps, |ps|);
    Choose(AliveIndices(ps), draws, n)
  }

  /** Every candidate is the one chosen by some draw in [0, 1). */
  lemma ChooseReaches(idx: seq<nat>, k: nat, draws: seq<real>, n: nat)
    requires k < |idx| && n < |draws| && draws[n] == (k as real + 0.5) / |idx| as real
    ensures 0.0 <= draws[n] < 1.0 && Choose(idx, draws, n) == (Some(idx[k]), n + 1)
  {
    PickReachesEveryIndex(k, |idx|);
  }

  /** Every living member is the one `GetRandomAgent` returns for some draw. */
  lemma RandomMemberReachesAll(ps: seq<AgentView>, j: nat)
    requires j < |ps| && ps[j].isAlive
    ensures exists v :: 0.0 <= v < 1.0 && RandomMember(ps, [v], 0) == (Some(j), 1)
  {
    var idx := AliveIndices(ps);
    AliveBelowFacts(ps, |ps|);
    assert j in idx;
    var k :| 0 <= k < |idx| && idx[k] == j;
    var v := (k as real + 0.5) / |idx| as real;
    ChooseReaches(idx, k, [v], 0);
    assert RandomMember(ps, [v], 0) == (Some(j), 1);
  }

  // ---------------------------------------------------------------------
  // GetLowestHealthAgent
  // ---------------------------------------------------------------------

  /** Position bp of idx[..t] holds a minimal fraction, and every earlier position a larger one. */
  ghost predicate FirstMinimal(ps: seq<AgentView>, idx: seq<nat>, t: nat, bp: nat)
    requires Positive(ps) && Increasing(idx, |ps|) && t <= |idx|
  {
    && bp < t
    && (forall q :: 0 <= q < t ==> Fraction(ps[idx[bp]]) <= Fraction(ps[idx[q]]))
    && (forall q :: 0 <= q < bp ==> Fraction(ps[idx[q]]) > Fraction(ps[idx[bp]]))
  }

  /** The running minimum of `GetLowestHealthAgent` from position t on: a position replaces it only when strictly lower. */
  function LowestFrom(ps: seq<AgentView>, idx: seq<nat>, t: nat, bp: nat): (r: nat)
    requires Positive(ps) && Increasing(idx, |ps|) && t <= |idx| && bp < |idx|
    ensures r < |idx|
    decreases |idx| - t
  {
    if t == |idx| then bp
    else LowestFrom(ps, idx, t + 1, if Fraction(ps[idx[t]]) < Fraction(ps[idx[bp]]) then t else bp)
  }

  /** Started from the first minimal position of a prefix, the running minimum ends at the first minimal position of all. */
  lemma {:induction false} LowestFromMinimal(ps: seq<AgentView>, idx: seq<nat>, t: nat, bp: nat)
    requires Positive(ps) && Increasing(idx, |ps|) && 0 < t <= |idx|
    requires FirstMinimal(ps, idx, t, bp)
    ensures FirstMinimal(ps, idx, |idx|, LowestFrom(ps, idx, t, bp))
    decreases |idx| - t
  {
    if t < |idx| {
      var nb := if Fraction(ps[idx[t]]) < Fraction(ps[idx[bp]]) then t else bp;
      assert FirstMinimal(ps, idx, t + 1, nb);
      LowestFromMinimal(ps, idx, t + 1, nb);
    }
  }

  /** A minimal position of the alive list names a minimal living member, and the first in list order. */
  lemma LowestOfAlive(ps: seq<AgentView>, b: nat)
    requires Positive(ps) && Increasing(AliveIndices(ps), |ps|) && b < |AliveIndices(ps)|
    requires FirstMinimal(ps, AliveIndices(ps), |AliveIndices(ps)|, b)
    ensures var j := AliveIndices(ps)[b];
            && (forall k :: 0 <= k < |ps| && ps[k].isAlive ==> Fraction(ps[j]) <= Fraction(ps[k]))
            && (forall k :: 0 <= k < j && ps[k].isAlive ==> Fraction(ps[k]) > Fraction(ps[j]))
  {
    var idx := AliveIndices(ps);
    AliveBelowFacts(ps, |ps|);
    forall k | 0 <= k < |ps| && ps[k].isAlive
      ensures Fraction(ps[idx[b]]) <= Fraction(ps[k])
      ensures k < idx[b] ==> Fraction(ps[k]) > Fraction(ps[idx[b]])
    {
      assert k in idx;
      var q :| 0 <= q < |idx| && idx[q] == k;
      assert k < idx[b] ==> q < b;
    }
  }

  /**
   * `GetLowestHealthAgent`: no member when none is alive; otherwise a
   * living member of minimal fraction, and the first of them in list
   * order (the comparison is strict).
   */
  function Lowest(ps: seq<AgentView>): (r: Option<nat>)
    requires Positive(ps)
    ensures r.None? <==> !HasAlive(ps)
    ensures r.Some? ==> r.value < |ps| && ps[r.value].isAlive
    ensures r.Some? ==> forall k :: 0 <= k < |ps| && ps[k].isAlive ==> Fraction(ps[r.value]) <= Fraction(ps[k])
    ensures r.Some? ==> forall k :: 0 <= k < r.value && ps[k].isAlive ==> Fraction(ps[k]) > Fraction(ps[r.value])
  {
    var idx := AliveIndices(ps);
    AliveBelowFacts(ps, |ps|);
    if |idx| == 0 then None
    else
      var b := LowestFrom(ps, idx, 1, 0);
      LowestFromMinimal(ps, idx, 1, 0);
      LowestOfAlive(ps, b);
      assert idx[b] in idx;
      Some(idx[b])
  }

  /** `GetLowestHealthAlly` and its enemy twin: the lowest member, unless it is the caller itself. */
  function LowestAlly(ps: seq<AgentView>, self: nat): (r: Option<nat>)
    requires Positive(ps)
    ensures r.Some? ==> r.value != self && r == Lowest(ps)
    ensures Lowest(ps) == Some(self) ==> r.None?
  {
    if Lowest(ps) == Some(self) then None else Lowest(ps)
  }

  // ---------------------------------------------------------------------
  // GetRandomAlly and FindAnyAllyNeedingHealing
  // ---------------------------------------------------------------------

  /** The indices below n of living members other than self, in list order. */
  function OthersBelow(ps: seq<AgentView>, self: nat, n: nat): (r: seq<nat>)
    requires n <= |ps|
    ensures forall p :: 0 <= p < |r| ==> r[p] < n
  {
    if n == 0 then []
    else OthersBelow(ps, self, n - 1) + (if n - 1 != self && ps[n - 1].isAlive then [n - 1] else [])
  }

  /** The ally list holds exactly the living members below n other than self, in increasing order. */
  lemma {:induction false} OthersBelowFacts(ps: seq<AgentView>, self: nat, n: nat)
    requires n <= |ps|
    ensures Increasing(OthersBelow(ps, self, n), n)
    ensures forall j :: j in OthersBelow(ps, self, n) <==> 0 <= j < n && j != self && ps[j].isAlive
  {
    if n > 0 {
      OthersBelowFacts(ps, self, n - 1);
    }
  }

  /** `GetRandomAlly`: a living member other than the caller, or none. */
  function RandomAlly(ps: seq<AgentView>, self: nat, draws: seq<real>, n: nat): (r: (Option<nat>, nat))
    ensures r.0.None? <==> forall j :: 0 <= j < |ps| && j != self ==> !ps[j].isAlive
    ensures r.0.Some? ==> r.0.value < |ps| && r.0.value != self && ps[r.0.value].isAlive
    ensures r.1 == if r.0.None? then n else n + 1
  {
    var idx := OthersBelow(ps, self, |ps|);
    OthersBelowFacts(ps, self, |ps|);
    Choose(idx, draws, n)
  }

  /** The indices below n of living members other than self below full health (the list `FindAnyAllyNeedingHealing` builds). */
  function NeedyBelow(ps: seq<AgentView>, self: nat, n: nat): (r: seq<nat>)
    requires n <= |ps|
    ensures forall p :: 0 <= p < |r| ==> r[p] < n
  {
    if n == 0 then []
    else
      var v := ps[n - 1];
      NeedyBelow(ps, self, n - 1) + (if n - 1 != self && v.isAlive && v.currentHealth < v.maxHealth then [n - 1] else [])
  }

  /** The candidate list holds exactly the living members below n other than self below full health, in increasing order. */
  lemma {:induction false} NeedyBelowFacts(ps: seq<AgentView>, self: nat, n: nat)
    requires n <= |ps|
    ensures Increasing(NeedyBelow(ps, self, n), n)
    ensures forall j :: j in NeedyBelow(ps, self, n) <==>
              0 <= j < n && j != self && ps[j].isAlive && ps[j].currentHealth < ps[j].maxHealth
  {
    if n > 0 {
      NeedyBelowFacts(ps, self, n - 1);
    }
  }

  /** The candidates whose fraction is at most m, in order. */
  function AtMost(ps: seq<AgentView>, idx: seq<nat>, m: real): (r: seq<nat>)
    requires Positive(ps) && forall p :: 0 <= p < |idx| ==> idx[p] < |ps|
    ensures forall q :: 0 <= q < |r| ==> r[q] < |ps|
    ensures forall j :: j in r <==> j in idx && Fraction(ps[j]) <= m
  {
    if |idx| == 0 then []
    else AtMost(ps, idx[..|idx| - 1], m) + (if Fraction(ps[idx[|idx| - 1]]) <= m then [idx[|idx| - 1]] else [])
  }

  /** A position of the candidates holding the least fraction. */
  function MinPos(ps: seq<AgentView>, idx: seq<nat>): (r: nat)
    requires Positive(ps) && |idx| > 0 && forall p :: 0 <= p < |idx| ==> idx[p] < |ps|
    ensures r < |idx|
    ensures forall p :: 0 <= p < |idx| ==> Fraction(ps[idx[r]]) <= Fraction(ps[idx[p]])
  {
    if |idx| == 1 then 0
    else
      var rest := MinPos(ps, idx[1..]) + 1;
      assert forall p :: 1 <= p < |idx| ==> idx[1..][p - 1] == idx[p];
      if Fraction(ps[idx[0]]) <= Fraction(ps[idx[rest]]) then 0 else rest
  }

  /**
   * The head of the candidates sorted by fraction, lowest first. The sort
   * is unstable, so which of several equal candidates comes first is not
   * determined: `tie` names it (see `NeedyTieReachesAll`).
   */
  function SortedHead(ps: seq<AgentView>, c: seq<nat>, tie: nat): (r: nat)
    requires Positive(ps) && |c| > 0 && forall p :: 0 <= p < |c| ==> c[p] < |ps|
    ensures r in c && forall k :: k in c ==> Fraction(ps[r]) <= Fraction(ps[k])
  {
    var m := Fraction(ps[c[MinPos(ps, c)]]);
    var best := AtMost(ps, c, m);
    assert c[MinPos(ps, c)] in best;
    assert forall k :: k in c ==> m <= Fraction(ps[k]);
    best[tie % |best|]
  }

  /**
   * `FindAnyAllyNeedingHealing`: none when no member but the caller is
   * alive and below full health, else the head of those candidates sorted
   * by fraction (see `NeedyAllyFacts`).
   */
  function NeedyAlly(ps: seq<AgentView>, self: nat, tie: nat): (r: Option<nat>)
    requires Positive(ps)
    ensures r.Some? ==> r.value < |ps|
  {
    var c := NeedyBelow(ps, self, |ps|);
    if |c| == 0 then None else Some(SortedHead(ps, c, tie))
  }

  /**
   * None when no living ally other than the caller is below full health;
   * otherwise such an ally, of least fraction among them.
   */
  lemma NeedyAllyFacts(ps: seq<AgentView>, self: nat, tie: nat)
    requires Positive(ps)
    ensures var r := NeedyAlly(ps, self, tie);
            r.None? <==> forall j :: 0 <= j < |ps| && j != self && ps[j].isAlive ==> ps[j].currentHealth >= ps[j].maxHealth
    ensures var r := NeedyAlly(ps, self, tie);
            r.Some? ==> var j := r.value;
              && j < |ps| && j != self && ps[j].isAlive && ps[j].currentHealth < ps[j].maxHealth
              && forall k :: 0 <= k < |ps| && k != self && ps[k].isAlive && ps[k].currentHealth < ps[k].maxHealth ==>
                   Fraction(ps[j]) <= Fraction(ps[k])
  {
    var c := NeedyBelow(ps, self, |ps|);
    NeedyBelowFacts(ps, self, |ps|);
    assert forall j :: 0 <= j < |ps| && j != self && ps[j].isAlive && ps[j].currentHealth < ps[j].maxHealth ==> j in c;
  }

  /** Every candidate of minimal fraction is the one `FindAnyAllyNeedingHealing` returns for some tie. */
  lemma NeedyTieReachesAll(ps: seq<AgentView>, self: nat, j: nat)
    requires Positive(ps) && j < |ps| && j != self && ps[j].isAlive && ps[j].currentHealth < ps[j].maxHealth
    requires forall k :: 0 <= k < |ps| && k != self && ps[k].isAlive && ps[k].currentHealth < ps[k].maxHealth ==>
               Fraction(ps[j]) <= Fraction(ps[k])
    ensures exists tie :: NeedyAlly(ps, self, tie) == Some(j)
  {
    var c := NeedyBelow(ps, self, |ps|);
    NeedyBelowFacts(ps, self, |ps|);
    assert j in c;
    var m := Fraction(ps[c[MinPos(ps, c)]]);
    assert c[MinPos(ps, c)] in c;
    assert Fraction(ps[j]) <= m;
    var best := AtMost(ps, c, m);
    assert j in best;
    var t :| 0 <= t < |best| && best[t] == j;
    SmallMod(t, |best|);
    assert SortedHead(ps, c, t) == j;
    assert NeedyAlly(ps, self, t) == Some(j);
  }

  lemma SmallMod(t: nat, n: nat)
    requires t < n
    ensures t % n == t
  {
  }
}
