/**
 * The value-level model of the behaviour Player.cs and Enemy.cs share:
 * choosing an action, and performing each kind of action on the world.
 * The two classes differ only in which party is "allies" and which is
 * "opponents", so the acting agent is named by its party (`side`) and its
 * index `i`; its allies are `w.Party(side)` and its opponents
 * `w.Party(!side)`. Every function returns the world after the action and
 * the position of the next unread draw.
 */
module FactionModel {
  import opened Kinds
  import opened Randomness
  import opened Effects
  import opened AgentModel
  import opened PartyModel
  import opened BattleModel

  /** The ally fraction under which healing is considered, and the chance it is chosen. */
  const HealThreshold: real := 0.5
  const HealChance: real := 0.8
  /** The fraction under which the party counts as in danger, and the chance a debuff is then chosen. */
  const DangerThreshold: real := 0.3
  const DebuffChance: real := 0.7

  /** Some member, living or dead, self included, is below fraction m (the `Any` of `ChooseAction`). */
  function AnyBelow(ps: seq<AgentView>, m: real): (b: bool)
    requires Positive(ps)
    ensures b <==> exists j :: 0 <= j < |ps| && Fraction(ps[j]) < m
  {
    if |ps| == 0 then false
    else
      var init := ps[..|ps| - 1];
      assert forall j :: 0 <= j < |init| ==> init[j] == ps[j];
      Fraction(ps[|ps| - 1]) < m || AnyBelow(init, m)
  }

  /** The healing rule applies: Heal is available and the lowest ally other than the actor is below half health. */
  predicate HealWanted(ps: seq<AgentView>, i: nat)
    requires i < |ps| && Positive(ps)
  {
    var l := LowestAlly(ps, i);
    ActionType.Heal in ps[i].availableActions && l.Some? && Fraction(ps[l.value]) < HealThreshold
  }

  /** The danger rule applies: someone in the party is below 30% and DebuffEnemy is available. */
  predicate InDanger(ps: seq<AgentView>, i: nat)
    requires i < |ps| && Positive(ps)
  {
    AnyBelow(ps, DangerThreshold) && ActionType.DebuffEnemy in ps[i].availableActions
  }

  // ---------------------------------------------------------------------
  // ChooseAction (Player) and ChooseActionType (Enemy)
  // ---------------------------------------------------------------------

  /**
   * The action choice: Attack with no draw when nothing is available;
   * otherwise Heal when the healing rule applies and its draw is below
   * 0.8, else DebuffEnemy when the danger rule applies and its draw is
   * below 0.7, else a uniform pick from the available actions. A rule
   * draws only when it applies.
   */
  function ChooseAction(w: World, side: bool, i: nat, draws: seq<real>, n: nat): (r: (ActionType, nat))
    requires i < |w.Party(side)| && Positive(w.Party(side))
    ensures var acts := w.Party(side)[i].availableActions;
            && (|acts| == 0 ==> r == (ActionType.Attack, n))
            && (|acts| > 0 ==> r.0 in acts)
            && n <= r.1 <= n + 3
  {
    Choice(w.Party(side), i, draws, n)
  }

  /** The choice of member i of the party ps: no draw without actions, else the two rules, then the pick. */
  function Choice(ps: seq<AgentView>, i: nat, draws: seq<real>, n: nat): (ActionType, nat)
    requires i < |ps| && Positive(ps)
  {
    var acts := ps[i].availableActions;
    if |acts| == 0 then (ActionType.Attack, n)
    else RuleChoice(acts, HealWanted(ps, i), InDanger(ps, i), draws, n)
  }

  /** The choice once its two rules are decided: the healing rule draws only when it applies, then the danger rule, then the uniform pick. */
  function RuleChoice(acts: seq<ActionType>, heal: bool, danger: bool, draws: seq<real>, n: nat): (ActionType, nat)
    requires |acts| > 0
  {
    if heal && Roll(draws, n) < HealChance then (ActionType.Heal, n + 1)
    else DangerChoice(acts, danger, draws, if heal then n + 1 else n)
  }

  /** The rest of the choice after the healing rule: the danger rule draws only when it applies, then the uniform pick. */
  function DangerChoice(acts: seq<ActionType>, danger: bool, draws: seq<real>, n: nat): (ActionType, nat)
    requires |acts| > 0
  {
    var n2 := if danger then n + 1 else n;
    if danger && Roll(draws, n) < DebuffChance then (ActionType.DebuffEnemy, n2)
    else (acts[Pick(Roll(draws, n2), |acts|)], n2 + 1)
  }

  /** Every available action is chosen for some draws: draws that fail both rules, then the pick of that action. */
  lemma ChooseReachesEvery(w: World, side: bool, i: nat, k: nat)
    requires i < |w.Party(side)| && Positive(w.Party(side))
    requires k < |w.Party(side)[i].availableActions|
    ensures exists draws :: ChooseAction(w, side, i, draws, 0).0 == w.Party(side)[i].availableActions[k]
  {
    var ps := w.Party(side);
    var acts := ps[i].availableActions;
    var v := (k as real + 0.5) / |acts| as real;
    PickReachesEveryIndex(k, |acts|);
    var h := HealWanted(ps, i);
    var d := InDanger(ps, i);
    if h && d {
      assert ChooseAction(w, side, i, [0.9, 0.9, v], 0).0 == acts[k];
    } else if h {
      assert ChooseAction(w, side, i, [0.9, v], 0).0 == acts[k];
    } else if d {
      assert ChooseAction(w, side, i, [0.9, v], 0).0 == acts[k];
    } else {
      assert ChooseAction(w, side, i, [v], 0).0 == acts[k];
    }
  }

  /** A draw below 0.8 always heals when the healing rule applies. */
  lemma HealRuleWins(w: World, side: bool, i: nat, draws: seq<real>, n: nat)
    requires i < |w.Party(side)| && Positive(w.Party(side))
    requires HealWanted(w.Party(side), i) && Roll(draws, n) < HealChance
    ensures ChooseAction(w, side, i, draws, n) == (ActionType.Heal, n + 1)
  {
  }

  /** Without the healing rule, a danger draw below 0.7 always debuffs. */
  lemma DangerRuleWins(w: World, side: bool, i: nat, draws: seq<real>, n: nat)
    requires i < |w.Party(side)| && Positive(w.Party(side))
    requires !HealWanted(w.Party(side), i) && InDanger(w.Party(side), i) && Roll(draws, n) < DebuffChance
    ensures ChooseAction(w, side, i, draws, n) == (ActionType.DebuffEnemy, n + 1)
  {
  }

  /** A dead member at 0 HP puts the party in danger: the danger test counts the dead. */
  lemma DeadMemberMeansDanger(ps: seq<AgentView>, i: nat, j: nat)
    requires i < |ps| && j < |ps| && Positive(ps)
    requires ps[j].currentHealth == 0.0 && ActionType.DebuffEnemy in ps[i].availableActions
    ensures InDanger(ps, i)
  {
    assert Fraction(ps[j]) == 0.0;
  }

  // ---------------------------------------------------------------------
  // The Perform* methods
  // ---------------------------------------------------------------------

  /** `PerformAttack`: a random living opponent takes the actor's current attack as damage; nothing without one. */
  function PerformAttack(w: World, side: bool, i: nat, draws: seq<real>, n: nat): (r: (World, nat))
    requires i < |w.Party(side)|
    ensures !HasAlive(w.Party(!side)) ==> r == (w, n)
    ensures HasAlive(w.Party(!side)) ==>
              && r.1 == n + 1
              && exists j :: 0 <= j < |w.Opponents(side)| && w.Opponents(side)[j].isAlive
                             && r.0 == DamageAgent(w, !side, j, w.Party(side)[i].currentAttack)
  {
    var t := RandomMember(w.Party(!side), draws, n);
    if t.0.None? then (w, t.1)
    else
      assert w.Opponents(side)[t.0.value].isAlive;
      (DamageAgent(w, !side, t.0.value, w.Party(side)[i].currentAttack), t.1)
  }

  /** Every living opponent is the one attacked for some draw. */
  lemma AttackReachesEvery(w: World, side: bool, i: nat, j: nat)
    requires i < |w.Party(side)| && j < |w.Party(!side)| && w.Party(!side)[j].isAlive
    ensures exists v :: 0.0 <= v < 1.0 &&
              PerformAttack(w, side, i, [v], 0) == (DamageAgent(w, !side, j, w.Party(side)[i].currentAttack), 1)
  {
    RandomMemberReachesAll(w.Party(!side), j);
  }

  /**
   * The target of `PerformHeal` and `PerformHealOverTime`: the lowest ally
   * other than the actor unless there is none or it is at full health
   * (`Mathf.Approximately` taken as equality); else `FindAnyAllyNeedingHealing`.
   */
  function HealTarget(ps: seq<AgentView>, i: nat, tie: nat): (r: Option<nat>)
    requires Positive(ps)
    ensures r.Some? ==> r.value < |ps| && r.value != i && ps[r.value].isAlive
    ensures var l := LowestAlly(ps, i);
            l.Some? && ps[l.value].currentHealth != ps[l.value].maxHealth ==> r == l
    ensures var l := LowestAlly(ps, i);
            l.None? || ps[l.value].currentHealth == ps[l.value].maxHealth ==> r == NeedyAlly(ps, i, tie)
  {
    var l := LowestAlly(ps, i);
    NeedyAllyFacts(ps, i, tie);
    if l.None? || ps[l.value].currentHealth == ps[l.value].maxHealth then NeedyAlly(ps, i, tie) else l
  }

  /** No heal target exactly when no living ally other than the actor is below full health and the lowest is not usable. */
  lemma NoHealTarget(ps: seq<AgentView>, i: nat, tie: nat)
    requires Positive(ps)
    ensures HealTarget(ps, i, tie).None? <==>
              && (LowestAlly(ps, i).None? || ps[LowestAlly(ps, i).value].currentHealth == ps[LowestAlly(ps, i).value].maxHealth)
              && forall j :: 0 <= j < |ps| && j != i && ps[j].isAlive ==> ps[j].currentHealth >= ps[j].maxHealth
  {
    NeedyAllyFacts(ps, i, tie);
  }

  /** The amounts of the faction actions, as functions of the actor's current attack. */
  function HealAmount(atk: real): real { atk * 0.8 }
  function BuffAmount(atk: real): real { 5.0 + atk * 0.1 }
  function DotTick(atk: real): real { atk * 0.2 }
  function HotTick(atk: real): real { atk * 0.15 }

  /** Nothing but the agents' records differs: flags, speed and the event log are the same. */
  predicate OnlyAgents(w: World, w': World)
  {
    w'.(players := w.players, enemies := w.enemies) == w
  }

  /** `PerformBuffAlly`: a random living ally other than the actor gets BuffAmount on a random stat for 10 s. */
  function PerformBuffAlly(w: World, side: bool, i: nat, draws: seq<real>, n: nat): (r: (World, nat))
    requires i < |w.Party(side)|
    ensures OnlyAgents(w, r.0) && r.0.Opponents(side) == w.Opponents(side)
    ensures (forall j :: 0 <= j < |w.Party(side)| && j != i ==> !w.Party(side)[j].isAlive) ==> r == (w, n)
    ensures (exists j :: 0 <= j < |w.Party(side)| && j != i && w.Party(side)[j].isAlive) ==>
              && r.1 == n + 2
              && exists j, s :: 0 <= j < |w.Party(side)| && j != i && w.Party(side)[j].isAlive
                                && r.0.Party(side) == w.Party(side)[j := ApplyBuffSpec(w.Party(side)[j], s, BuffAmount(w.Party(side)[i].currentAttack), 10.0)]
  {
    var t := RandomAlly(w.Party(side), i, draws, n);
    if t.0.None? then (w, t.1)
    else
      var s := StatOf(Pick(Roll(draws, t.1), 3));
      (BuffAgent(w, side, t.0.value, s, BuffAmount(w.Party(side)[i].currentAttack), 10.0), t.1 + 1)
  }

  /** `PerformDebuffEnemy`: a random living opponent loses BuffAmount on a random stat for 8 s. */
  function PerformDebuffEnemy(w: World, side: bool, i: nat, draws: seq<real>, n: nat): (r: (World, nat))
    requires i < |w.Party(side)|
    ensures OnlyAgents(w, r.0) && r.0.Party(side) == w.Party(side)
    ensures !HasAlive(w.Opponents(side)) ==> r == (w, n)
    ensures HasAlive(w.Opponents(side)) ==>
              && r.1 == n + 2
              && exists j, s :: 0 <= j < |w.Opponents(side)| && w.Opponents(side)[j].isAlive
                                && r.0.Opponents(side) == w.Opponents(side)[j := ApplyDebuffSpec(w.Opponents(side)[j], s, BuffAmount(w.Party(side)[i].currentAttack), 8.0)]
  {
    var t := RandomMember(w.Party(!side), draws, n);
    if t.0.None? then (w, t.1)
    else
      var s := StatOf(Pick(Roll(draws, t.1), 3));
      (DebuffAgent(w, !side, t.0.value, s, BuffAmount(w.Party(side)[i].currentAttack), 8.0), t.1 + 1)
  }

  /** `PerformDamageOverTime`: a random living opponent gets DotTick every 2 s for 8 s. */
  function PerformDamageOverTime(w: World, side: bool, i: nat, draws: seq<real>, n: nat): (r: (World, nat))
    requires i < |w.Party(side)|
    ensures OnlyAgents(w, r.0) && r.0.Party(side) == w.Party(side)
    ensures !HasAlive(w.Opponents(side)) ==> r == (w, n)
    ensures HasAlive(w.Opponents(side)) ==>
              && r.1 == n + 1
              && exists j :: 0 <= j < |w.Opponents(side)| && w.Opponents(side)[j].isAlive
                             && r.0.Opponents(side) == w.Opponents(side)[j := ApplyDamageOverTimeSpec(w.Opponents(side)[j], DotTick(w.Party(side)[i].currentAttack), 2.0, 8.0)]
  {
    var t := RandomMember(w.Party(!side), draws, n);
    if t.0.None? then (w, t.1)
    else (DotAgent(w, !side, t.0.value, DotTick(w.Party(side)[i].currentAttack), 2.0, 8.0), t.1)
  }

  /**
   * `PerformAlternativeAction`: DebuffEnemy, else BuffAlly, else
   * DamageOverTime, whichever is first available; Attack otherwise, even
   * when Attack is not available.
   */
  function PerformAlternative(w: World, side: bool, i: nat, draws: seq<real>, n: nat): (r: (World, nat))
    requires i < |w.Party(side)|
    ensures var acts := w.Party(side)[i].availableActions;
            && (ActionType.DebuffEnemy in acts ==> r == PerformDebuffEnemy(w, side, i, draws, n))
            && (ActionType.DebuffEnemy !in acts && ActionType.BuffAlly in acts ==> r == PerformBuffAlly(w, side, i, draws, n))
            && (ActionType.DebuffEnemy !in acts && ActionType.BuffAlly !in acts && ActionType.DamageOverTime in acts ==>
                  r == PerformDamageOverTime(w, side, i, draws, n))
            && (ActionType.DebuffEnemy !in acts && ActionType.BuffAlly !in acts && ActionType.DamageOverTime !in acts ==>
                  r == PerformAttack(w, side, i, draws, n))
  {
    var acts := w.Party(side)[i].availableActions;
    if ActionType.DebuffEnemy in acts then PerformDebuffEnemy(w, side, i, draws, n)
    else if ActionType.BuffAlly in acts then PerformBuffAlly(w, side, i, draws, n)
    else if ActionType.DamageOverTime in acts then PerformDamageOverTime(w, side, i, draws, n)
    else PerformAttack(w, side, i, draws, n)
  }

  /** `PerformHeal`: the heal target gets 0.8 * attack; without one the alternative action runs. */
  function PerformHeal(w: World, side: bool, i: nat, draws: seq<real>, ties: seq<nat>, n: nat): (r: (World, nat))
    requires i < |w.Party(side)| && Positive(w.Party(side))
    ensures var t := HealTarget(w.Party(side), i, TieAt(ties, n));
            t.Some? ==>
              && r.1 == n && OnlyAgents(w, r.0) && r.0.Opponents(side) == w.Opponents(side)
              && r.0.Party(side) == w.Party(side)[t.value := HealSpec(w.Party(side)[t.value], w.Party(side)[i].currentAttack * 0.8)]
    ensures HealTarget(w.Party(side), i, TieAt(ties, n)).None? ==> r == PerformAlternative(w, side, i, draws, n)
  {
    HealOn(w, side, i, HealTarget(w.Party(side), i, TieAt(ties, n)), draws, n)
  }

  /** The rest of `PerformHeal` once its target is known. */
  function HealOn(w: World, side: bool, i: nat, t: Option<nat>, draws: seq<real>, n: nat): (r: (World, nat))
    requires i < |w.Party(side)| && (t.Some? ==> t.value < |w.Party(side)|)
  {
    match t
    case None => PerformAlternative(w, side, i, draws, n)
    case Some(j) => (HealAgent(w, side, j, HealAmount(w.Party(side)[i].currentAttack)), n)
  }

  /** `PerformHealOverTime`: the heal target gets 0.15 * attack every 2 s for 10 s; without one the alternative action runs. */
  function PerformHealOverTime(w: World, side: bool, i: nat, draws: seq<real>, ties: seq<nat>, n: nat): (r: (World, nat))
    requires i < |w.Party(side)| && Positive(w.Party(side))
    ensures var t := HealTarget(w.Party(side), i, TieAt(ties, n));
            t.Some? ==>
              && r.1 == n && OnlyAgents(w, r.0) && r.0.Opponents(side) == w.Opponents(side)
              && r.0.Party(side) == w.Party(side)[t.value := ApplyHealOverTimeSpec(w.Party(side)[t.value], w.Party(side)[i].currentAttack * 0.15, 2.0, 10.0)]
              && r.0.Party(side)[t.value].effects
                   == w.Party(side)[t.value].effects + [Fresh(EffectKind.HealOverTime(w.Party(side)[i].currentAttack * 0.15, 2.0), 10.0)]
    ensures HealTarget(w.Party(side), i, TieAt(ties, n)).None? ==> r == PerformAlternative(w, side, i, draws, n)
  {
    HotOn(w, side, i, HealTarget(w.Party(side), i, TieAt(ties, n)), draws, n)
  }

  /** The rest of `PerformHealOverTime` once its target is known. */
  function HotOn(w: World, side: bool, i: nat, t: Option<nat>, draws: seq<real>, n: nat): (r: (World, nat))
    requires i < |w.Party(side)| && (t.Some? ==> t.value < |w.Party(side)|)
  {
    match t
    case None => PerformAlternative(w, side, i, draws, n)
    case Some(j) => (HotAgent(w, side, j, HotTick(w.Party(side)[i].currentAttack), 2.0, 10.0), n)
  }

  /** `TakeAction`: the chosen action is performed. */
  function TakeAction(w: World, side: bool, i: nat, draws: seq<real>, ties: seq<nat>, n: nat): (r: (World, nat))
    requires i < |w.Party(side)| && Positive(w.Party(side))
    ensures var c := ChooseAction(w, side, i, draws, n);
            && (c.0 == ActionType.Attack ==> r == PerformAttack(w, side, i, draws, c.1))
            && (c.0 == ActionType.Heal ==> r == PerformHeal(w, side, i, draws, ties, c.1))
            && (c.0 == ActionType.BuffAlly ==> r == PerformBuffAlly(w, side, i, draws, c.1))
            && (c.0 == ActionType.DebuffEnemy ==> r == PerformDebuffEnemy(w, side, i, draws, c.1))
            && (c.0 == ActionType.DamageOverTime ==> r == PerformDamageOverTime(w, side, i, draws, c.1))
            && (c.0 == ActionType.HealOverTime ==> r == PerformHealOverTime(w, side, i, draws, ties, c.1))
  {
    var c := ChooseAction(w, side, i, draws, n);
    match c.0
    case Attack => PerformAttack(w, side, i, draws, c.1)
    case Heal => PerformHeal(w, side, i, draws, ties, c.1)
    case BuffAlly => PerformBuffAlly(w, side, i, draws, c.1)
    case DebuffEnemy => PerformDebuffEnemy(w, side, i, draws, c.1)
    case DamageOverTime => PerformDamageOverTime(w, side, i, draws, c.1)
    case HealOverTime => PerformHealOverTime(w, side, i, draws, ties, c.1)
  }

  // ---------------------------------------------------------------------
  // What an action keeps
  // ---------------------------------------------------------------------

  lemma AttackEvolves(w: World, side: bool, i: nat, draws: seq<real>, n: nat)
    requires i < |w.Party(side)|
    ensures Evolves(w, PerformAttack(w, side, i, draws, n).0) && PerformAttack(w, side, i, draws, n).1 >= n
  {
    var t := RandomMember(w.Party(!side), draws, n);
    if t.0.Some? { DamageEvolves(w, !side, t.0.value, w.Party(side)[i].currentAttack); }
  }

  lemma BuffAllyEvolves(w: World, side: bool, i: nat, draws: seq<real>, n: nat)
    requires i < |w.Party(side)|
    ensures Evolves(w, PerformBuffAlly(w, side, i, draws, n).0) && PerformBuffAlly(w, side, i, draws, n).1 >= n
  {
    var t := RandomAlly(w.Party(side), i, draws, n);
    if t.0.Some? {
      BuffEvolves(w, side, t.0.value, StatOf(Pick(Roll(draws, t.1), 3)), BuffAmount(w.Party(side)[i].currentAttack), 10.0);
    }
  }

  lemma DebuffEnemyEvolves(w: World, side: bool, i: nat, draws: seq<real>, n: nat)
    requires i < |w.Party(side)|
    ensures Evolves(w, PerformDebuffEnemy(w, side, i, draws, n).0) && PerformDebuffEnemy(w, side, i, draws, n).1 >= n
  {
    var t := RandomMember(w.Party(!side), draws, n);
    if t.0.Some? {
      DebuffEvolves(w, !side, t.0.value, StatOf(Pick(Roll(draws, t.1), 3)), BuffAmount(w.Party(side)[i].currentAttack), 8.0);
    }
  }

  lemma DamageOverTimeEvolves(w: World, side: bool, i: nat, draws: seq<real>, n: nat)
    requires i < |w.Party(side)|
    ensures Evolves(w, PerformDamageOverTime(w, side, i, draws, n).0) && PerformDamageOverTime(w, side, i, draws, n).1 >= n
  {
    var t := RandomMember(w.Party(!side), draws, n);
    if t.0.Some? {
      DotEvolves(w, !side, t.0.value, DotTick(w.Party(side)[i].currentAttack), 2.0, 8.0);
    }
  }

  lemma AlternativeEvolves(w: World, side: bool, i: nat, draws: seq<real>, n: nat)
    requires i < |w.Party(side)|
    ensures Evolves(w, PerformAlternative(w, side, i, draws, n).0) && PerformAlternative(w, side, i, draws, n).1 >= n
  {
    var acts := w.Party(side)[i].availableActions;
    if ActionType.DebuffEnemy in acts {
      DebuffEnemyEvolves(w, side, i, draws, n);
    } else if ActionType.BuffAlly in acts {
      BuffAllyEvolves(w, side, i, draws, n);
    } else if ActionType.DamageOverTime in acts {
      DamageOverTimeEvolves(w, side, i, draws, n);
    } else {
      AttackEvolves(w, side, i, draws, n);
    }
  }

  lemma HealOnEvolves(w: World, side: bool, i: nat, t: Option<nat>, draws: seq<real>, n: nat)
    requires i < |w.Party(side)| && (t.Some? ==> t.value < |w.Party(side)|)
    ensures Evolves(w, HealOn(w, side, i, t, draws, n).0) && HealOn(w, side, i, t, draws, n).1 >= n
  {
    if t.Some? {
      HealEvolves(w, side, t.value, HealAmount(w.Party(side)[i].currentAttack));
    } else {
      AlternativeEvolves(w, side, i, draws, n);
    }
  }

  lemma HotOnEvolves(w: World, side: bool, i: nat, t: Option<nat>, draws: seq<real>, n: nat)
    requires i < |w.Party(side)| && (t.Some? ==> t.value < |w.Party(side)| && w.Party(side)[t.value].isAlive)
    ensures Evolves(w, HotOn(w, side, i, t, draws, n).0) && HotOn(w, side, i, t, draws, n).1 >= n
  {
    if t.Some? {
      HotEvolves(w, side, t.value, HotTick(w.Party(side)[i].currentAttack), 2.0, 10.0);
    } else {
      AlternativeEvolves(w, side, i, draws, n);
    }
  }

  /**
   * Every action is a change the battle keeps: party sizes and maxima stay,
   * the dead stay dead (effects go only to living targets), the invariant
   * and the outcome guard hold on, and the draw position never moves back.
   */
  lemma TakeActionEvolves(w: World, side: bool, i: nat, draws: seq<real>, ties: seq<nat>, n: nat)
    requires i < |w.Party(side)| && Positive(w.Party(side))
    ensures Evolves(w, TakeAction(w, side, i, draws, ties, n).0) && TakeAction(w, side, i, draws, ties, n).1 >= n
  {
    var c := ChooseAction(w, side, i, draws, n);
    match c.0
    case Attack => AttackEvolves(w, side, i, draws, c.1);
    case Heal => HealOnEvolves(w, side, i, HealTarget(w.Party(side), i, TieAt(ties, c.1)), draws, c.1);
    case BuffAlly => BuffAllyEvolves(w, side, i, draws, c.1);
    case DebuffEnemy => DebuffEnemyEvolves(w, side, i, draws, c.1);
    case DamageOverTime => DamageOverTimeEvolves(w, side, i, draws, c.1);
    case HealOverTime => HotOnEvolves(w, side, i, HealTarget(w.Party(side), i, TieAt(ties, c.1)), draws, c.1);
  }

  /** With nothing to heal and only Heal available, the healer attacks instead. */
  lemma LoneHealerAttacks(w: World, side: bool, i: nat, draws: seq<real>, ties: seq<nat>, n: nat)
    requires i < |w.Party(side)| && Positive(w.Party(side))
    requires w.Party(side)[i].availableActions == [ActionType.Heal]
    requires HealTarget(w.Party(side), i, TieAt(ties, n)).None?
    ensures PerformHeal(w, side, i, draws, ties, n) == PerformAttack(w, side, i, draws, n)
  {
    var acts := w.Party(side)[i].availableActions;
    assert ActionType.DebuffEnemy !in acts && ActionType.BuffAlly !in acts && ActionType.DamageOverTime !in acts;
    assert PerformHeal(w, side, i, draws, ties, n) == PerformAlternative(w, side, i, draws, n);
  }
}
