/**
 * The value-level model of a battle (BattleManager.cs): both parties'
 * agent records, the two state flags, the speed multiplier and the log of
 * the four battle events, with one function per operation. Agents are
 * named by their party (`side`: true for the player party) and their index
 * in it. Party.HandleAgentDeath and the two defeat handlers appear here as
 * `DeathNotice`, the chain a death runs through.
 */
module BattleModel {
  import opened Kinds
  import opened Effects
  import opened AgentModel
  import opened AgentFacts
  import opened PartyModel

  /** The events BattleManager raises: OnBattleStart, OnBattleEnd, OnPlayerVictory, OnPlayerDefeat. */
  datatype BattleEvent = BattleStart | BattleEnd | PlayerVictory | PlayerDefeat
  {
    predicate IsOutcome()
    {
      this == PlayerVictory || this == PlayerDefeat
    }
  }

  datatype World = World(players: seq<AgentView>, enemies: seq<AgentView>,
                         isBattleActive: bool, isBattleOver: bool, battleSpeed: real,
                         events: seq<BattleEvent>)
  {
    function Party(side: bool): seq<AgentView>
    {
      if side then players else enemies
    }

    /** The other party. */
    function Opponents(side: bool): (r: seq<AgentView>)
      ensures r == Party(!side)
    {
      if side then enemies else players
    }

    /** The world with agent j of the given party replaced. */
    function With(side: bool, j: nat, v: AgentView): (r: World)
      requires j < |Party(side)|
      ensures r.Party(side) == Party(side)[j := v] && r.Party(!side) == Party(!side)
      ensures r.(players := players, enemies := enemies) == this
    {
      if side then this.(players := players[j := v]) else this.(enemies := enemies[j := v])
    }
  }

  /** Every agent keeps its invariant (so every health fraction is defined). */
  ghost predicate WorldInv(w: World)
  {
    && (forall j :: 0 <= j < |w.players| ==> InvV(w.players[j]))
    && (forall j :: 0 <= j < |w.enemies| ==> InvV(w.enemies[j]))
  }

  lemma WorldPositive(w: World, side: bool)
    requires WorldInv(w)
    ensures Positive(w.Party(side))
  {
    assert forall j :: 0 <= j < |w.Party(side)| ==> InvV(w.Party(side)[j]);
  }

  // ---------------------------------------------------------------------
  // Flags and events
  // ---------------------------------------------------------------------

  /** The private `EndBattle()`: inactive, over, and OnBattleEnd raised. */
  function EndBattle(w: World): (r: World)
    ensures !r.isBattleActive && r.isBattleOver && r.events == w.events + [BattleEnd]
    ensures r.(isBattleActive := w.isBattleActive, isBattleOver := w.isBattleOver, events := w.events) == w
  {
    w.(isBattleActive := false, isBattleOver := true, events := w.events + [BattleEnd])
  }

  /**
   * `HandlePlayerPartyDefeated` (side true) and `HandleEnemyPartyDefeated`
   * (side false): ignored once the battle is over; otherwise defeat or
   * victory is raised and the battle ends.
   */
  function PartyDefeated(w: World, side: bool): (r: World)
    ensures w.isBattleOver ==> r == w
    ensures !w.isBattleOver ==>
              r == EndBattle(w.(events := w.events + [if side then PlayerDefeat else PlayerVictory]))
    ensures r.isBattleOver
  {
    if w.isBattleOver then w
    else EndBattle(w.(events := w.events + [if side then PlayerDefeat else PlayerVictory]))
  }

  /** `Party.HandleAgentDeath`: the party-defeated handler runs exactly when no member is left alive. */
  function DeathNotice(w: World, side: bool): (r: World)
    ensures HasAlive(w.Party(side)) ==> r == w
    ensures !HasAlive(w.Party(side)) ==> r == PartyDefeated(w, side)
  {
    if HasAlive(w.Party(side)) then w else PartyDefeated(w, side)
  }

  /** `CheckBattleEndConditions`: the battle ends when either party has no living member; there is no over guard. */
  function CheckEnd(w: World): (r: World)
    ensures (!HasAlive(w.players) || !HasAlive(w.enemies)) ==> r == EndBattle(w)
    ensures HasAlive(w.players) && HasAlive(w.enemies) ==> r == w
  {
    if !HasAlive(w.players) || !HasAlive(w.enemies) then EndBattle(w) else w
  }

  /** The public `EndBattle(bool)`: OnBattleEnd, then exactly one of victory and defeat; the flags stay. */
  function EndBattleWith(w: World, playerVictory: bool): (r: World)
    ensures r.events == w.events + [BattleEnd, if playerVictory then PlayerVictory else PlayerDefeat]
    ensures r.(events := w.events) == w
  {
    w.(events := w.events + [BattleEnd, if playerVictory then PlayerVictory else PlayerDefeat])
  }

  // ---------------------------------------------------------------------
  // Agent operations within the battle
  // ---------------------------------------------------------------------

  /** `TakeDamage` on agent j, followed by the death notification when it kills. */
  function DamageAgent(w: World, side: bool, j: nat, amount: real): World
    requires j < |w.Party(side)|
  {
    var v := w.Party(side)[j];
    var w1 := w.With(side, j, TakeDamageSpec(v, amount));
    if v.isAlive && !w1.Party(side)[j].isAlive then DeathNotice(w1, side) else w1
  }

  /** `UpdateEffects` on agent j, followed by the death notification when one of its effects kills it. */
  function EffectsAgent(w: World, side: bool, j: nat, dt: real): World
    requires j < |w.Party(side)|
  {
    var v := w.Party(side)[j];
    var w1 := w.With(side, j, UpdateEffectsSpec(v, dt));
    if v.isAlive && !w1.Party(side)[j].isAlive then DeathNotice(w1, side) else w1
  }

  function HealAgent(w: World, side: bool, j: nat, amount: real): World
    requires j < |w.Party(side)|
  {
    w.With(side, j, HealSpec(w.Party(side)[j], amount))
  }

  function BuffAgent(w: World, side: bool, j: nat, s: StatType, amount: real, duration: real): World
    requires j < |w.Party(side)|
  {
    w.With(side, j, ApplyBuffSpec(w.Party(side)[j], s, amount, duration))
  }

  function DebuffAgent(w: World, side: bool, j: nat, s: StatType, amount: real, duration: real): World
    requires j < |w.Party(side)|
  {
    w.With(side, j, ApplyDebuffSpec(w.Party(side)[j], s, amount, duration))
  }

  function DotAgent(w: World, side: bool, j: nat, perTick: real, interval: real, duration: real): World
    requires j < |w.Party(side)|
  {
    w.With(side, j, ApplyDamageOverTimeSpec(w.Party(side)[j], perTick, interval, duration))
  }

  function HotAgent(w: World, side: bool, j: nat, perTick: real, interval: real, duration: real): World
    requires j < |w.Party(side)|
  {
    w.With(side, j, ApplyHealOverTimeSpec(w.Party(side)[j], perTick, interval, duration))
  }

  function TimerAgent(w: World, side: bool, j: nat, t: real): World
    requires j < |w.Party(side)|
  {
    w.With(side, j, w.Party(side)[j].(actionTimer := t))
  }

  // ---------------------------------------------------------------------
  // What every change during a battle keeps
  // ---------------------------------------------------------------------

  /** The number of outcome events (victory, defeat) raised since the last OnBattleStart. */
  function Outcomes(es: seq<BattleEvent>): nat
  {
    if |es| == 0 then 0
    else if es[|es| - 1] == BattleStart then 0
    else Outcomes(es[..|es| - 1]) + (if es[|es| - 1].IsOutcome() then 1 else 0)
  }

  /** No outcome before the battle is over, at most one after. */
  ghost predicate OutcomeGuard(w: World)
  {
    Outcomes(w.events) <= if w.isBattleOver then 1 else 0
  }

  /**
   * What a change made during a tick keeps: the party sizes, every
   * maximum health and the speed; the dead stay dead, an over battle stays
   * over, the outcome guard and the agents' invariants hold on.
   */
  ghost predicate Evolves(w: World, w': World)
  {
    && |w'.players| == |w.players| && |w'.enemies| == |w.enemies|
    && w'.battleSpeed == w.battleSpeed
    && (forall j :: 0 <= j < |w.players| ==> w'.players[j].maxHealth == w.players[j].maxHealth)
    && (forall j :: 0 <= j < |w.enemies| ==> w'.enemies[j].maxHealth == w.enemies[j].maxHealth)
    && (forall j :: 0 <= j < |w.players| && !w.players[j].isAlive ==> !w'.players[j].isAlive)
    && (forall j :: 0 <= j < |w.enemies| && !w.enemies[j].isAlive ==> !w'.enemies[j].isAlive)
    && (w.isBattleOver ==> w'.isBattleOver)
    && (OutcomeGuard(w) ==> OutcomeGuard(w'))
    && (WorldInv(w) ==> WorldInv(w'))
  }

  lemma EvolvesTrans(w1: World, w2: World, w3: World)
    requires Evolves(w1, w2) && Evolves(w2, w3)
    ensures Evolves(w1, w3)
  {
  }

  lemma OutcomesAppend(es: seq<BattleEvent>, e: BattleEvent)
    ensures Outcomes(es + [e]) == if e == BattleStart then 0 else Outcomes(es) + (if e.IsOutcome() then 1 else 0)
  {
    assert (es + [e])[..|es|] == es;
  }

  /** Raising OnBattleEnd never adds an outcome, and the defeat handlers add one only to a battle not yet over. */
  lemma FlagsEvolve(w: World, side: bool)
    ensures Evolves(w, EndBattle(w))
    ensures Evolves(w, PartyDefeated(w, side))
    ensures Evolves(w, DeathNotice(w, side))
    ensures Evolves(w, CheckEnd(w))
  {
    OutcomesAppend(w.events, BattleEnd);
    if !w.isBattleOver {
      var o := if side then PlayerDefeat else PlayerVictory;
      OutcomesAppend(w.events, o);
      OutcomesAppend(w.events + [o], BattleEnd);
    }
  }

  /** Replacing one agent's record by one that keeps its maximum, stays dead if dead, and keeps the invariant. */
  lemma WithEvolves(w: World, side: bool, j: nat, v: AgentView)
    requires j < |w.Party(side)|
    requires v.maxHealth == w.Party(side)[j].maxHealth
    requires !w.Party(side)[j].isAlive ==> !v.isAlive
    requires InvV(w.Party(side)[j]) ==> InvV(v)
    ensures Evolves(w, w.With(side, j, v))
  {
    var r := w.With(side, j, v);
    if WorldInv(w) {
      if side {
        assert InvV(w.players[j]);
        assert forall k :: 0 <= k < |r.players| ==> InvV(r.players[k]);
      } else {
        assert InvV(w.enemies[j]);
        assert forall k :: 0 <= k < |r.enemies| ==> InvV(r.enemies[k]);
      }
    }
  }

  /** A hit, and the death notification it may cause, is such a change. */
  lemma DamageEvolves(w: World, side: bool, j: nat, amount: real)
    requires j < |w.Party(side)|
    ensures Evolves(w, DamageAgent(w, side, j, amount))
  {
    var v := w.Party(side)[j];
    var w1 := w.With(side, j, TakeDamageSpec(v, amount));
    if InvV(v) { TakeDamageKeepsInv(v, amount); }
    WithEvolves(w, side, j, TakeDamageSpec(v, amount));
    if v.isAlive && !w1.Party(side)[j].isAlive {
      FlagsEvolve(w1, side);
      EvolvesTrans(w, w1, DeathNotice(w1, side));
    }
  }

  /** An effect pass, and the death notification it may cause, is such a change. */
  lemma EffectsEvolves(w: World, side: bool, j: nat, dt: real)
    requires j < |w.Party(side)|
    ensures Evolves(w, EffectsAgent(w, side, j, dt))
  {
    var v := w.Party(side)[j];
    var u := UpdateEffectsSpec(v, dt);
    var w1 := w.With(side, j, u);
    if InvV(v) { UpdateEffectsKeepsInv(v, dt); }
    if !v.isAlive { UpdateEffectsNoRevival(v, dt); }
    UpdateEffectsKeepsFixed(v, dt);
    WithEvolves(w, side, j, u);
    if v.isAlive && !w1.Party(side)[j].isAlive {
      FlagsEvolve(w1, side);
      EvolvesTrans(w, w1, DeathNotice(w1, side));
    }
  }

  lemma HealEvolves(w: World, side: bool, j: nat, amount: real)
    requires j < |w.Party(side)|
    ensures Evolves(w, HealAgent(w, side, j, amount))
  {
    if InvV(w.Party(side)[j]) { HealKeepsInv(w.Party(side)[j], amount); }
    WithEvolves(w, side, j, HealSpec(w.Party(side)[j], amount));
  }

  lemma TimerEvolves(w: World, side: bool, j: nat, t: real)
    requires j < |w.Party(side)|
    ensures Evolves(w, TimerAgent(w, side, j, t))
  {
    WithEvolves(w, side, j, w.Party(side)[j].(actionTimer := t));
  }

  /** Attaching an effect to a living agent is such a change. */
  lemma BuffEvolves(w: World, side: bool, j: nat, s: StatType, amount: real, duration: real)
    requires j < |w.Party(side)| && w.Party(side)[j].isAlive
    ensures Evolves(w, BuffAgent(w, side, j, s, amount, duration))
  {
    var v := w.Party(side)[j];
    if InvV(v) { ApplyKeepsInv(v, s, amount, duration, 0.0); }
    WithEvolves(w, side, j, ApplyBuffSpec(v, s, amount, duration));
  }

  lemma DebuffEvolves(w: World, side: bool, j: nat, s: StatType, amount: real, duration: real)
    requires j < |w.Party(side)| && w.Party(side)[j].isAlive
    ensures Evolves(w, DebuffAgent(w, side, j, s, amount, duration))
  {
    var v := w.Party(side)[j];
    if InvV(v) { ApplyKeepsInv(v, s, amount, duration, 0.0); }
    WithEvolves(w, side, j, ApplyDebuffSpec(v, s, amount, duration));
  }

  lemma DotEvolves(w: World, side: bool, j: nat, perTick: real, interval: real, duration: real)
    requires j < |w.Party(side)| && w.Party(side)[j].isAlive
    ensures Evolves(w, DotAgent(w, side, j, perTick, interval, duration))
  {
    var v := w.Party(side)[j];
    if InvV(v) { ApplyKeepsInv(v, StatType.Attack, perTick, interval, duration); }
    WithEvolves(w, side, j, ApplyDamageOverTimeSpec(v, perTick, interval, duration));
  }

  lemma HotEvolves(w: World, side: bool, j: nat, perTick: real, interval: real, duration: real)
    requires j < |w.Party(side)| && w.Party(side)[j].isAlive
    ensures Evolves(w, HotAgent(w, side, j, perTick, interval, duration))
  {
    var v := w.Party(side)[j];
    if InvV(v) { ApplyKeepsInv(v, StatType.Attack, perTick, interval, duration); }
    WithEvolves(w, side, j, ApplyHealOverTimeSpec(v, perTick, interval, duration));
  }

  // ---------------------------------------------------------------------
  // The guard makes the outcome unique
  // ---------------------------------------------------------------------

  /** A world where the guard holds and the battle is over already has its outcome fixed: a further defeat notice changes nothing. */
  lemma DefeatAfterOverIgnored(w: World, side: bool)
    requires w.isBattleOver
    ensures PartyDefeated(w, side) == w && DeathNotice(w, side) == w
  {
  }

  /** Both parties wiped out in turn: only the first notice raises an outcome. */
  lemma FirstDefeatWins(w: World)
    requires !w.isBattleOver && OutcomeGuard(w)
    ensures var r := PartyDefeated(PartyDefeated(w, true), false);
            && r.events == w.events + [PlayerDefeat, BattleEnd]
            && Outcomes(r.events) == 1
  {
    OutcomesAppend(w.events, PlayerDefeat);
    OutcomesAppend(w.events + [PlayerDefeat], BattleEnd);
    assert w.events + [PlayerDefeat] + [BattleEnd] == w.events + [PlayerDefeat, BattleEnd];
  }
}
