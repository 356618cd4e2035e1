/**
 * The value-level model of the battle's per-frame driver: `Agent.UpdateAgent`,
 * `Party.UpdateParty` and `BattleManager.Update`, and of `StartBattle`.
 * A tick takes the frame's delta time and the stream of draws, and returns
 * the world after it with the position of the next unread draw.
 */
module SimulationModel {
  import opened Kinds
  import opened AgentModel
  import opened AgentFacts
  import opened PartyModel
  import opened BattleModel
  import opened FactionModel
  import opened ConfigModel

  /** The value the action bar must reach for an agent to act. */
  const ActionThreshold: real := 100.0

  lemma EvolvesPositive(w: World, w': World, side: bool)
    requires Positive(w.Party(side)) && Evolves(w, w')
    ensures Positive(w'.Party(side)) && |w'.Party(side)| == |w.Party(side)|
  {
    if side {
      assert forall j :: 0 <= j < |w'.players| ==> w'.players[j].maxHealth == w.players[j].maxHealth;
    } else {
      assert forall j :: 0 <= j < |w'.enemies| ==> w'.enemies[j].maxHealth == w.enemies[j].maxHealth;
    }
  }

  /** The action bar after the effect pass: it rises by dt times the current speed. */
  function Charged(w: World, side: bool, i: nat, dt: real): real
    requires i < |w.Party(side)|
  {
    var v := EffectsAgent(w, side, i, dt).Party(side)[i];
    v.actionTimer + dt * v.currentSpeed
  }

  /** The world after the effect pass of agent i and the charge of its bar, before it may act. */
  function Charge(w: World, side: bool, i: nat, dt: real): (r: World)
    requires i < |w.Party(side)| && Positive(w.Party(side))
    ensures Evolves(w, r) && Positive(r.Party(side)) && |r.Party(side)| == |w.Party(side)|
  {
    var w1 := EffectsAgent(w, side, i, dt);
    EffectsEvolves(w, side, i, dt);
    var t := Charged(w, side, i, dt);
    TimerEvolves(w1, side, i, t);
    EvolvesTrans(w, w1, TimerAgent(w1, side, i, t));
    EvolvesPositive(w, TimerAgent(w1, side, i, t), side);
    TimerAgent(w1, side, i, t)
  }

  /**
   * `UpdateAgent`: nothing for a dead agent. Otherwise the effect pass,
   * then the bar rises by dt times the current speed; once it reaches 100
   * exactly one action is taken and the bar drops to 0, losing any
   * overshoot. Below 100 no action is taken. Aliveness is tested only on
   * entry: an agent its own effects kill still charges and may act.
   */
  function UpdateAgent(w: World, side: bool, i: nat, dt: real, draws: seq<real>, ties: seq<nat>, n: nat): (r: (World, nat))
    requires i < |w.Party(side)| && Positive(w.Party(side))
    ensures Evolves(w, r.0) && r.1 >= n
    ensures !w.Party(side)[i].isAlive ==> r == (w, n)
    ensures w.Party(side)[i].isAlive && Charged(w, side, i, dt) < ActionThreshold ==> r == (Charge(w, side, i, dt), n)
    ensures w.Party(side)[i].isAlive && Charged(w, side, i, dt) >= ActionThreshold ==>
              var a := TakeAction(Charge(w, side, i, dt), side, i, draws, ties, n);
              i < |a.0.Party(side)| && r == (TimerAgent(a.0, side, i, 0.0), a.1)
  {
    if !w.Party(side)[i].isAlive then (w, n)
    else
      var w2 := Charge(w, side, i, dt);
      if Charged(w, side, i, dt) >= ActionThreshold then
        var a := TakeAction(w2, side, i, draws, ties, n);
        TakeActionEvolves(w2, side, i, draws, ties, n);
        EvolvesTrans(w, w2, a.0);
        EvolvesPositive(w, a.0, side);
        TimerEvolves(a.0, side, i, 0.0);
        EvolvesTrans(w, a.0, TimerAgent(a.0, side, i, 0.0));
        (TimerAgent(a.0, side, i, 0.0), a.1)
      else (w2, n)
  }

  /** The effect pass and its death notice leave the action bar alone. */
  lemma EffectsKeepTimer(w: World, side: bool, i: nat, dt: real)
    requires i < |w.Party(side)|
    ensures |EffectsAgent(w, side, i, dt).Party(side)| == |w.Party(side)|
    ensures EffectsAgent(w, side, i, dt).Party(side)[i].actionTimer == w.Party(side)[i].actionTimer
  {
    var v := w.Party(side)[i];
    UpdateEffectsKeepsFixed(v, dt);
    var w1 := w.With(side, i, UpdateEffectsSpec(v, dt));
    assert w1.Party(side)[i] == UpdateEffectsSpec(v, dt);
    if v.isAlive && !w1.Party(side)[i].isAlive {
      assert EffectsAgent(w, side, i, dt) == DeathNotice(w1, side);
    }
  }

  /** The bar of a living agent after its update: 0 when it reached 100 (one action was taken), otherwise the charged value. */
  lemma UpdateAgentTimer(w: World, side: bool, i: nat, dt: real, draws: seq<real>, ties: seq<nat>, n: nat)
    requires i < |w.Party(side)| && Positive(w.Party(side)) && w.Party(side)[i].isAlive
    ensures Charged(w, side, i, dt) == w.Party(side)[i].actionTimer + dt * EffectsAgent(w, side, i, dt).Party(side)[i].currentSpeed
    ensures UpdateAgent(w, side, i, dt, draws, ties, n).0.Party(side)[i].actionTimer
              == if Charged(w, side, i, dt) >= ActionThreshold then 0.0 else Charged(w, side, i, dt)
    ensures Charged(w, side, i, dt) < ActionThreshold ==> UpdateAgent(w, side, i, dt, draws, ties, n).1 == n
  {
    EffectsKeepTimer(w, side, i, dt);
    assert Charge(w, side, i, dt).Party(side)[i].actionTimer == Charged(w, side, i, dt);
  }

  /** `UpdateParty` from member k on: every member updated in list order. */
  function UpdatePartyFrom(w: World, side: bool, k: nat, dt: real, draws: seq<real>, ties: seq<nat>, n: nat): (r: (World, nat))
    requires k <= |w.Party(side)| && Positive(w.Party(side))
    ensures Evolves(w, r.0) && r.1 >= n
    decreases |w.Party(side)| - k
  {
    if k == |w.Party(side)| then (w, n)
    else
      var u := UpdateAgent(w, side, k, dt, draws, ties, n);
      EvolvesPositive(w, u.0, side);
      var rest := UpdatePartyFrom(u.0, side, k + 1, dt, draws, ties, u.1);
      EvolvesTrans(w, u.0, rest.0);
      rest
  }

  function UpdateParty(w: World, side: bool, dt: real, draws: seq<real>, ties: seq<nat>, n: nat): (r: (World, nat))
    requires Positive(w.Party(side))
    ensures Evolves(w, r.0) && r.1 >= n
  {
    UpdatePartyFrom(w, side, 0, dt, draws, ties, n)
  }

  /** A party of dead agents is left as it is by its update. */
  lemma {:induction false} DeadPartyUnchanged(w: World, side: bool, k: nat, dt: real, draws: seq<real>, ties: seq<nat>, n: nat)
    requires k <= |w.Party(side)| && Positive(w.Party(side))
    requires forall j :: 0 <= j < |w.Party(side)| ==> !w.Party(side)[j].isAlive
    ensures UpdatePartyFrom(w, side, k, dt, draws, ties, n) == (w, n)
    decreases |w.Party(side)| - k
  {
    if k < |w.Party(side)| {
      DeadPartyUnchanged(w, side, k + 1, dt, draws, ties, n);
    }
  }

  /**
   * `BattleManager.Update`: nothing unless the battle is active and not
   * over; otherwise the delta time is scaled by the battle speed, the player
   * party is updated, then the enemy party, then the end condition is checked.
   */
  function Tick(w: World, dt: real, draws: seq<real>, ties: seq<nat>, n: nat): (r: (World, nat))
    requires Positive(w.players) && Positive(w.enemies)
    ensures Evolves(w, r.0) && r.1 >= n
    ensures !w.isBattleActive || w.isBattleOver ==> r == (w, n)
    ensures w.isBattleActive && !w.isBattleOver && (!HasAlive(r.0.players) || !HasAlive(r.0.enemies)) ==>
              !r.0.isBattleActive && r.0.isBattleOver
  {
    if !w.isBattleActive || w.isBattleOver then (w, n)
    else
      var d := dt * w.battleSpeed;
      var p := UpdateParty(w, true, d, draws, ties, n);
      EvolvesPositive(w, p.0, false);
      var e := UpdateParty(p.0, false, d, draws, ties, p.1);
      EvolvesTrans(w, p.0, e.0);
      FlagsEvolve(e.0, true);
      EvolvesTrans(w, e.0, CheckEnd(e.0));
      (CheckEnd(e.0), e.1)
  }

  /** Ticks in sequence, one delta time each. */
  function Run(w: World, dts: seq<real>, draws: seq<real>, ties: seq<nat>, n: nat): (r: (World, nat))
    requires Positive(w.players) && Positive(w.enemies)
    ensures Evolves(w, r.0) && r.1 >= n
    decreases |dts|
  {
    if |dts| == 0 then (w, n)
    else
      var t := Tick(w, dts[0], draws, ties, n);
      EvolvesPositive(w, t.0, true);
      EvolvesPositive(w, t.0, false);
      var rest := Run(t.0, dts[1..], draws, ties, t.1);
      EvolvesTrans(w, t.0, rest.0);
      rest
  }

  /** Over is terminal: no number of further ticks changes an ended battle. */
  lemma {:induction false} OverIsTerminal(w: World, dts: seq<real>, draws: seq<real>, ties: seq<nat>, n: nat)
    requires Positive(w.players) && Positive(w.enemies) && w.isBattleOver
    ensures Run(w, dts, draws, ties, n) == (w, n)
    decreases |dts|
  {
    if |dts| > 0 {
      OverIsTerminal(w, dts[1..], draws, ties, n);
    }
  }

  /** `StartBattle`: both parties rebuilt from their configurations, active, not over, and OnBattleStart raised. */
  function StartBattle(w: World, playerConfigs: seq<ConfigData>, enemyConfigs: seq<ConfigData>): (r: World)
    ensures r.isBattleActive && !r.isBattleOver && r.events == w.events + [BattleStart]
    ensures r.players == BuiltParty(playerConfigs, true) && r.enemies == BuiltParty(enemyConfigs, false)
    ensures r.battleSpeed == w.battleSpeed
  {
    w.(players := BuiltParty(playerConfigs, true), enemies := BuiltParty(enemyConfigs, false),
       isBattleActive := true, isBattleOver := false, events := w.events + [BattleStart])
  }

  /** A battle starts with every agent at its configuration, no outcome yet, and the invariant in force. */
  lemma StartBattleFacts(w: World, playerConfigs: seq<ConfigData>, enemyConfigs: seq<ConfigData>)
    requires forall c :: c in playerConfigs ==> c.maxHealth > 0.0
    requires forall c :: c in enemyConfigs ==> c.maxHealth > 0.0
    ensures var r := StartBattle(w, playerConfigs, enemyConfigs);
            WorldInv(r) && OutcomeGuard(r) && Outcomes(r.events) == 0
  {
    var r := StartBattle(w, playerConfigs, enemyConfigs);
    OutcomesAppend(w.events, BattleStart);
    forall j | 0 <= j < |r.players| ensures InvV(r.players[j]) {
      assert playerConfigs[j] in playerConfigs;
      BuiltFacts(playerConfigs[j], true);
    }
    forall j | 0 <= j < |r.enemies| ensures InvV(r.enemies[j]) {
      assert enemyConfigs[j] in enemyConfigs;
      BuiltFacts(enemyConfigs[j], false);
    }
  }

  /**
   * At most one outcome per battle: from a start, whatever the frames and
   * the draws, at most one of victory and defeat is raised, and none while
   * the battle is still running. Every agent keeps its invariant and no
   * dead agent comes back.
   */
  lemma OneOutcomePerBattle(w: World, playerConfigs: seq<ConfigData>, enemyConfigs: seq<ConfigData>,
                            dts: seq<real>, draws: seq<real>, ties: seq<nat>)
    requires forall c :: c in playerConfigs ==> c.maxHealth > 0.0
    requires forall c :: c in enemyConfigs ==> c.maxHealth > 0.0
    ensures var s := StartBattle(w, playerConfigs, enemyConfigs);
            WorldInv(s) && Positive(s.players) && Positive(s.enemies) &&
            var r := Run(s, dts, draws, ties, 0).0;
            && Outcomes(r.events) <= 1
            && (!r.isBattleOver ==> Outcomes(r.events) == 0)
            && WorldInv(r)
  {
    var s := StartBattle(w, playerConfigs, enemyConfigs);
    StartBattleFacts(w, playerConfigs, enemyConfigs);
    WorldPositive(s, true);
    WorldPositive(s, false);
  }

  /** `SetBattleSpeed` and `GetBattleSpeed`: the speed read back is the last one set, and a tick scales time by it. */
  function SetBattleSpeed(w: World, speed: real): (r: World)
    ensures r.battleSpeed == speed && r.(battleSpeed := w.battleSpeed) == w
  {
    w.(battleSpeed := speed)
  }
}
