/**
 * The battle manager of BattleManager.cs as an object: the two parties, the
 * lifecycle flags, the battle speed and the log of raised events. Every
 * method is proved against the function of BattleModel (or SimulationModel)
 * on `Snapshot()`, the battle as the value model sees it.
 */
module Battles {
  import opened Kinds
  import opened Randomness
  import opened AgentModel
  import opened PartyModel
  import opened BattleModel
  import opened SimulationModel
  import opened FactionModel
  import opened ConfigModel
  import opened Agents
  import opened Configs
  import opened Parties

  /** `agent as Player` (side true) or `agent as Enemy` (side false): null unless the agent is of that faction. */
  function AsFaction(a: Agent?, side: bool): (r: Agent?)
    ensures r != null <==> a != null && a.isPlayer == side
    ensures r != null ==> r == a
  {
    if a != null && a.isPlayer == side then a else null
  }

  /** The health fields and the liveness of a record are those of the agent. */
  predicate Mirrors(v: AgentView, a: Agent)
    reads a
  {
    v.isAlive == a.isAlive && v.currentHealth == a.currentHealth && v.maxHealth == a.maxHealth
  }

  /** `self` is the member at position selfIdx and at no other, or no member at all when selfIdx is past the end. */
  predicate SelfAt(agents: seq<Agent>, self: Agent?, selfIdx: nat)
  {
    forall j :: 0 <= j < |agents| ==> (agents[j] == self <==> j == selfIdx)
  }

  class BattleManager {
    const playerParty: Party
    const enemyParty: Party
    var isBattleActive: bool
    var isBattleOver: bool
    var battleSpeed: real
    var events: seq<BattleEvent>

    /** A scene's manager before its first battle: idle, at speed 1. */
    constructor (playerParty: Party, enemyParty: Party)
      ensures this.playerParty == playerParty && this.enemyParty == enemyParty
      ensures !isBattleActive && !isBattleOver && battleSpeed == 1.0 && events == []
    {
      this.playerParty := playerParty;
      this.enemyParty := enemyParty;
      isBattleActive, isBattleOver := false, false;
      battleSpeed := 1.0;
      events := [];
    }

    /** The player party for side true, the enemy party for side false. */
    function PartyOf(side: bool): (p: Party)
      ensures p == if side then playerParty else enemyParty
    {
      if side then playerParty else enemyParty
    }

    /** The two parties are distinct objects, of the player and of the enemy faction. */
    predicate Valid()
      reads playerParty, enemyParty
    {
      playerParty != enemyParty && playerParty.isPlayerParty && !enemyParty.isPlayerParty
    }

    /** The battle as the value model sees it, the members' effect lists left out. */
    function Snapshot(): World
      reads this, playerParty, enemyParty, playerParty.agents, enemyParty.agents
    {
      World(playerParty.Cores(), enemyParty.Cores(), isBattleActive, isBattleOver, battleSpeed, events)
    }

    /**
     * `StartBattle`: both parties are rebuilt from their configurations,
     * the battle becomes active and not over, and OnBattleStart is raised.
     */
    method StartBattle()
      requires Valid()
      modifies this, playerParty, enemyParty
      ensures Snapshot() == SimulationModel.StartBattle(old(Snapshot()), old(DataOf(playerParty.agentConfigs)),
                                                        old(DataOf(enemyParty.agentConfigs)))
      ensures playerParty.agentConfigs == old(playerParty.agentConfigs)
      ensures enemyParty.agentConfigs == old(enemyParty.agentConfigs)
    {
      ghost var pc, ec := DataOf(playerParty.agentConfigs), DataOf(enemyParty.agentConfigs);
      InitializeParties();
      ghost var ps, es := playerParty.Cores(), enemyParty.Cores();
      assert ps == BuiltParty(pc, true) && es == BuiltParty(ec, false);
      isBattleActive := true;
      isBattleOver := false;
      events := events + [BattleStart];
      assert playerParty.Cores() == ps;
      assert enemyParty.Cores() == es;
    }

    /** The two `Initialize` calls of `StartBattle`, the player party's first. */
    method InitializeParties()
      requires Valid()
      modifies playerParty, enemyParty
      ensures playerParty.Cores() == BuiltParty(old(DataOf(playerParty.agentConfigs)), true)
      ensures enemyParty.Cores() == BuiltParty(old(DataOf(enemyParty.agentConfigs)), false)
      ensures playerParty.agentConfigs == old(playerParty.agentConfigs)
      ensures enemyParty.agentConfigs == old(enemyParty.agentConfigs)
    {
      playerParty.Initialize();
      enemyParty.Initialize();
    }

    /** The private `EndBattle()`: inactive, over, OnBattleEnd raised. */
    method EndBattle()
      modifies this
      ensures playerParty.Cores() == old(playerParty.Cores()) && enemyParty.Cores() == old(enemyParty.Cores())
      ensures Snapshot() == BattleModel.EndBattle(old(Snapshot()))
    {
      isBattleActive := false;
      isBattleOver := true;
      events := events + [BattleEnd];
    }

    /** `HandlePlayerPartyDefeated` (side true) and `HandleEnemyPartyDefeated` (side false). */
    method HandlePartyDefeated(side: bool)
      modifies this
      ensures playerParty.Cores() == old(playerParty.Cores()) && enemyParty.Cores() == old(enemyParty.Cores())
      ensures Snapshot() == PartyDefeated(old(Snapshot()), side)
    {
      if isBattleOver {
        return;
      }
      events := events + [if side then PlayerDefeat else PlayerVictory];
      EndBattle();
    }

    /** An agent of the given side has died: the party's `HandleAgentDeath`, which calls the handler when no member is left. */
    method NotifyDeath(side: bool)
      modifies this
      ensures playerParty.Cores() == old(playerParty.Cores()) && enemyParty.Cores() == old(enemyParty.Cores())
      ensures Snapshot() == DeathNotice(old(Snapshot()), side)
    {
      var allDefeated := PartyOf(side).HandleAgentDeath();
      if allDefeated {
        HandlePartyDefeated(side);
      }
    }

    /** `CheckBattleEndConditions`: the battle ends once either party has no living member, with no over guard. */
    method CheckBattleEndConditions()
      modifies this
      ensures playerParty.Cores() == old(playerParty.Cores()) && enemyParty.Cores() == old(enemyParty.Cores())
      ensures Snapshot() == CheckEnd(old(Snapshot()))
    {
      ghost var w := Snapshot();
      var playersLeft := playerParty.HasAliveAgents();
      assert enemyParty.Cores() == w.enemies;
      var enemiesLeft := enemyParty.HasAliveAgents();
      assert playerParty.Cores() == w.players;
      assert Snapshot() == w;
      if !playersLeft || !enemiesLeft {
        EndBattle();
      }
    }

    /** The public `EndBattle(bool)`: OnBattleEnd, then victory or defeat; the flags are left as they are. */
    method EndBattleWith(playerVictory: bool)
      modifies this
      ensures playerParty.Cores() == old(playerParty.Cores()) && enemyParty.Cores() == old(enemyParty.Cores())
      ensures Snapshot() == BattleModel.EndBattleWith(old(Snapshot()), playerVictory)
    {
      events := events + [BattleEnd];
      if playerVictory {
        events := events + [PlayerVictory];
      } else {
        events := events + [PlayerDefeat];
      }
    }

    method SetBattleSpeed(speed: real)
      modifies this
      ensures playerParty.Cores() == old(playerParty.Cores()) && enemyParty.Cores() == old(enemyParty.Cores())
      ensures Snapshot() == SimulationModel.SetBattleSpeed(old(Snapshot()), speed)
    {
      battleSpeed := speed;
    }

    method GetBattleSpeed() returns (speed: real)
      ensures speed == Snapshot().battleSpeed
    {
      speed := battleSpeed;
    }

    /** `GetRandomPlayer` (side true) and `GetRandomEnemy` (side false): the party's random living member, cast to the faction. */
    method GetRandomMember(side: bool, rng: Rng) returns (a: Agent?)
      modifies rng
      ensures var c := RandomMember(old(PartyOf(side).Cores()), rng.draws, old(rng.next));
              && rng.next == c.1
              && a == (if c.0.None? then null else AsFaction(old(PartyOf(side).agents)[c.0.value], side))
    {
      var agent := PartyOf(side).GetRandomAgent(rng);
      a := AsFaction(agent, side);
    }

    /**
     * `GetLowestHealthAlly` (side true) and `GetLowestHealthEnemyAlly`
     * (side false): the party's lowest living member, or null when that is
     * the caller itself; there is no second choice.
     */
    method GetLowestAlly(side: bool, self: Agent?, ghost selfIdx: nat) returns (a: Agent?)
      requires Positive(PartyOf(side).Cores()) && SelfAt(PartyOf(side).agents, self, selfIdx)
      ensures var l := LowestAlly(old(PartyOf(side).Cores()), selfIdx);
              a == (if l.None? then null else AsFaction(PartyOf(side).agents[l.value], side))
    {
      var party := PartyOf(side);
      ghost var ps := party.Cores();
      var agent := party.GetLowestHealthAgent();
      if agent == self {
        return null;
      }
      a := AsFaction(agent, side);
    }

    /**
     * `FindAnyAllyNeedingHealing` of Player.cs (side true) and Core/Enemy.cs
     * (side false), for the member `self` at selfIdx: the living members
     * other than the caller below full health, sorted by fraction, and the
     * head of that list; null when there is none. The sort is unstable, so
     * among equal fractions the tie-break `tie` decides.
     */
    method FindAnyAllyNeedingHealing(side: bool, self: Agent?, ghost selfIdx: nat, tie: nat) returns (a: Agent?)
      requires Positive(PartyOf(side).Cores()) && SelfAt(PartyOf(side).agents, self, selfIdx)
      ensures var r := NeedyAlly(old(PartyOf(side).Cores()), selfIdx, tie);
              a == (if r.None? then null else AsFaction(PartyOf(side).agents[r.value], side))
    {
      var first := FirstNeedyOf(PartyOf(side), self, selfIdx, tie);
      a := AsFaction(first, side);
    }

    /**
     * The target choice of `PerformHeal` and `PerformHealOverTime` (Player.cs
     * and Core/Enemy.cs): the lowest ally, unless there is none or it is at
     * full health (`Mathf.Approximately` taken as equality), and then any
     * ally needing healing; null when there is none. The party holds agents
     * of its own faction only, so the casts to the faction change nothing.
     */
    method HealTargetOf(side: bool, self: Agent?, ghost selfIdx: nat, tie: nat) returns (t: Agent?)
      requires Positive(PartyOf(side).Cores()) && SelfAt(PartyOf(side).agents, self, selfIdx)
      requires forall j :: 0 <= j < |PartyOf(side).agents| ==> PartyOf(side).agents[j].isPlayer == side
      ensures var r := HealTarget(old(PartyOf(side).Cores()), selfIdx, tie);
              t == (if r.None? then null else PartyOf(side).agents[r.value])
    {
      t := HealTargetIn(PartyOf(side), self, selfIdx, tie);
    }

    /**
     * `GetRandomAlly` (side true) and `GetRandomEnemyAlly` (side false): the
     * living members other than the caller, in list order, and one of them
     * picked by the next draw; null when there is none.
     */
    method GetRandomAlly(side: bool, self: Agent?, ghost selfIdx: nat, rng: Rng) returns (a: Agent?)
      requires SelfAt(PartyOf(side).agents, self, selfIdx)
      modifies rng
      ensures var c := RandomAlly(old(PartyOf(side).Cores()), selfIdx, rng.draws, old(rng.next));
              && rng.next == c.1
              && a == (if c.0.None? then null else AsFaction(old(PartyOf(side).agents)[c.0.value], side))
    {
      var party := PartyOf(side);
      ghost var ps := party.Cores();
      var allies := LivingOthers(party.agents, self, ps, selfIdx);
      ghost var idx := OthersBelow(ps, selfIdx, |ps|);
      if |allies| == 0 {
        return null;
      }
      var i := rng.Range(|allies|);
      assert Choose(idx, rng.draws, old(rng.next)) == (Some(idx[i]), rng.next);
      a := AsFaction(allies[i], side);
    }
  }

  /**
   * The loop of `GetRandomAlly`: the members other than `self` that are
   * alive, in list order, given the members' records `ps`.
   */
  method LivingOthers(agents: seq<Agent>, self: Agent?, ghost ps: seq<AgentView>, ghost selfIdx: nat) returns (allies: seq<Agent>)
    requires |ps| == |agents| && SelfAt(agents, self, selfIdx)
    requires forall j :: 0 <= j < |agents| ==> ps[j].isAlive == agents[j].isAlive
    ensures var idx := OthersBelow(ps, selfIdx, |ps|);
            |allies| == |idx| && forall p :: 0 <= p < |allies| ==> allies[p] == agents[idx[p]]
  {
    allies := [];
    var k := 0;
    while k < |agents|
      invariant 0 <= k <= |agents|
      invariant allies == AgentsAt(agents, OthersBelow(ps, selfIdx, k))
    {
      ghost var before := OthersBelow(ps, selfIdx, k);
      ghost var keep := k != selfIdx && ps[k].isAlive;
      assert OthersBelow(ps, selfIdx, k + 1) == before + (if keep then [k] else []);
      assert (agents[k] != self && agents[k].isAlive) == keep;
      if agents[k] != self && agents[k].isAlive {
        AgentsAtAppend(agents, before, k);
        allies := allies + [agents[k]];
      } else {
        assert before + [] == before;
      }
      k := k + 1;
    }
  }

  /** The records of a party's members mirror the members. */
  lemma MirrorsCores(party: Party)
    ensures forall j :: 0 <= j < |party.agents| ==> Mirrors(party.Cores()[j], party.agents[j])
  {
  }

  /**
   * `HealTargetOf` over one party: the lowest member unless it is `self`, is
   * missing or is at full health, else the head of the sorted needy allies.
   */
  method HealTargetIn(party: Party, self: Agent?, ghost selfIdx: nat, tie: nat) returns (t: Agent?)
    requires Positive(party.Cores()) && SelfAt(party.agents, self, selfIdx)
    ensures var r := HealTarget(old(party.Cores()), selfIdx, tie);
            t == (if r.None? then null else party.agents[r.value])
  {
    ghost var ps := party.Cores();
    var lowest := party.GetLowestHealthAgent();
    if lowest == self {
      lowest := null;
    }
    MirrorsCores(party);
    t := PickHealTarget(party.agents, self, ps, selfIdx, tie, lowest);
  }

  /** The choice of `HealTargetIn` once `lowest`, the lowest member unless it is the caller, is known. */
  method PickHealTarget(agents: seq<Agent>, self: Agent?, ghost ps: seq<AgentView>, ghost selfIdx: nat, tie: nat, lowest: Agent?)
    returns (t: Agent?)
    requires |ps| == |agents| && Positive(ps) && SelfAt(agents, self, selfIdx)
    requires forall j :: 0 <= j < |agents| ==> Mirrors(ps[j], agents[j])
    requires var l := LowestAlly(ps, selfIdx); lowest == (if l.None? then null else agents[l.value])
    ensures var r := HealTarget(ps, selfIdx, tie);
            t == (if r.None? then null else agents[r.value])
  {
    HealTargetPick(ps, agents, selfIdx, tie, lowest);
    if lowest != null && lowest.currentHealth != lowest.maxHealth {
      return lowest;
    }
    t := FirstNeedy(agents, self, ps, selfIdx, tie);
  }

  /** The two cases of `HealTargetIn`, given `lowest`, the lowest member unless it is the caller. */
  lemma HealTargetPick(ps: seq<AgentView>, agents: seq<Agent>, selfIdx: nat, tie: nat, lowest: Agent?)
    requires Positive(ps) && |ps| == |agents|
    requires forall j :: 0 <= j < |agents| ==> Mirrors(ps[j], agents[j])
    requires var l := LowestAlly(ps, selfIdx); lowest == (if l.None? then null else agents[l.value])
    ensures var r := HealTarget(ps, selfIdx, tie);
            && (lowest != null && lowest.currentHealth != lowest.maxHealth ==> r.Some? && lowest == agents[r.value])
            && (lowest == null || lowest.currentHealth == lowest.maxHealth ==> r == NeedyAlly(ps, selfIdx, tie))
  {
    var l := LowestAlly(ps, selfIdx);
    if l.Some? {
      assert Mirrors(ps[l.value], agents[l.value]);
    }
  }

  /** `FindAnyAllyNeedingHealing` over one party: the head of its sorted needy allies, or null. */
  method FirstNeedyOf(party: Party, self: Agent?, ghost selfIdx: nat, tie: nat) returns (first: Agent?)
    requires Positive(party.Cores()) && SelfAt(party.agents, self, selfIdx)
    ensures var r := NeedyAlly(old(party.Cores()), selfIdx, tie);
            first == (if r.None? then null else party.agents[r.value])
  {
    MirrorsCores(party);
    first := FirstNeedy(party.agents, self, party.Cores(), selfIdx, tie);
  }

  /** `FindAnyAllyNeedingHealing` over the members' list: the head of the sorted needy allies, as a member, or null. */
  method FirstNeedy(agents: seq<Agent>, self: Agent?, ghost ps: seq<AgentView>, ghost selfIdx: nat, tie: nat)
    returns (first: Agent?)
    requires |ps| == |agents| && Positive(ps) && SelfAt(agents, self, selfIdx)
    requires forall j :: 0 <= j < |agents| ==> Mirrors(ps[j], agents[j])
    ensures var r := NeedyAlly(ps, selfIdx, tie);
            first == (if r.None? then null else agents[r.value])
  {
    var allies := NeedyOthers(agents, self, ps, selfIdx);
    ghost var c := NeedyBelow(ps, selfIdx, |ps|);
    if |allies| == 0 {
      return null;
    }
    first := LeastFirst(allies, agents, ps, c, tie);
  }

  /** The loop of `FindAnyAllyNeedingHealing`: the members other than `self` that are alive and below full health, in list order. */
  method NeedyOthers(agents: seq<Agent>, self: Agent?, ghost ps: seq<AgentView>, ghost selfIdx: nat) returns (allies: seq<Agent>)
    requires |ps| == |agents| && SelfAt(agents, self, selfIdx)
    requires forall j :: 0 <= j < |agents| ==> Mirrors(ps[j], agents[j])
    ensures allies == AgentsAt(agents, NeedyBelow(ps, selfIdx, |ps|))
  {
    allies := [];
    var k := 0;
    while k < |agents|
      invariant 0 <= k <= |agents|
      invariant allies == AgentsAt(agents, NeedyBelow(ps, selfIdx, k))
    {
      assert Mirrors(ps[k], agents[k]);
      NeedyStep(agents, ps, selfIdx, k);
      var agent := agents[k];
      if agent != self && agent.isAlive && agent.currentHealth < agent.maxHealth {
        allies := allies + [agent];
      }
      k := k + 1;
    }
  }

  /** One step of the `NeedyOthers` loop: member k joins the list exactly when it is another living member below full health. */
  lemma NeedyStep(agents: seq<Agent>, ps: seq<AgentView>, selfIdx: nat, k: nat)
    requires k < |ps| == |agents|
    ensures AgentsAt(agents, NeedyBelow(ps, selfIdx, k + 1)) ==
            AgentsAt(agents, NeedyBelow(ps, selfIdx, k)) +
            (if k != selfIdx && ps[k].isAlive && ps[k].currentHealth < ps[k].maxHealth then [agents[k]] else [])
  {
    var before := NeedyBelow(ps, selfIdx, k);
    if k != selfIdx && ps[k].isAlive && ps[k].currentHealth < ps[k].maxHealth {
      AgentsAtAppend(agents, before, k);
    } else {
      assert NeedyBelow(ps, selfIdx, k + 1) == before + [];
    }
  }

  /** One step of the second `LeastFirst` loop: candidate p joins the list exactly when its fraction is at most m. */
  lemma AtMostStep(agents: seq<Agent>, ps: seq<AgentView>, c: seq<nat>, p: nat, m: real)
    requires p < |c| && |agents| == |ps| && Positive(ps)
    requires forall q :: 0 <= q < |c| ==> c[q] < |ps|
    ensures forall q :: 0 <= q < p ==> c[..p][q] < |ps|
    ensures AgentsAt(agents, AtMost(ps, c[..p + 1], m)) ==
            AgentsAt(agents, AtMost(ps, c[..p], m)) + (if Fraction(ps[c[p]]) <= m then [agents[c[p]]] else [])
  {
    assert c[..p + 1][..p] == c[..p];
    var before := AtMost(ps, c[..p], m);
    if Fraction(ps[c[p]]) <= m {
      AgentsAtAppend(agents, before, c[p]);
    } else {
      assert AtMost(ps, c[..p + 1], m) == before + [];
    }
  }

  /**
   * `allies.Sort` by health fraction followed by `allies[0]`: the least
   * fraction is found, then the candidates holding it, in order, and the
   * tie-break names one of them; `allies` are the members at the positions c.
   */
  method LeastFirst(allies: seq<Agent>, ghost agents: seq<Agent>, ghost ps: seq<AgentView>, ghost c: seq<nat>, tie: nat)
    returns (first: Agent)
    requires |allies| > 0 && |agents| == |ps| && Positive(ps)
    requires forall p :: 0 <= p < |c| ==> c[p] < |ps|
    requires allies == AgentsAt(agents, c)
    requires forall j :: 0 <= j < |agents| ==> Mirrors(ps[j], agents[j])
    ensures first == agents[SortedHead(ps, c, tie)]
  {
    var least := LeastFraction(allies, agents, ps, c);
    var best := HoldingAtMost(allies, agents, ps, c, least);
    assert c[MinPos(ps, c)] in AtMost(ps, c, least);
    first := best[tie % |best|];
  }

  /** The first `LeastFirst` loop: the least fraction among `allies`, the members at the positions c. */
  method LeastFraction(allies: seq<Agent>, ghost agents: seq<Agent>, ghost ps: seq<AgentView>, ghost c: seq<nat>)
    returns (least: real)
    requires |allies| > 0 && |agents| == |ps| && Positive(ps)
    requires forall p :: 0 <= p < |c| ==> c[p] < |ps|
    requires allies == AgentsAt(agents, c)
    requires forall j :: 0 <= j < |agents| ==> Mirrors(ps[j], agents[j])
    ensures least == Fraction(ps[c[MinPos(ps, c)]])
  {
    assert Mirrors(ps[c[0]], agents[c[0]]);
    least := allies[0].currentHealth / allies[0].maxHealth;
    ghost var at := 0;
    var p := 1;
    while p < |allies|
      invariant 1 <= p <= |allies| && at < p && least == Fraction(ps[c[at]])
      invariant forall q :: 0 <= q < p ==> least <= Fraction(ps[c[q]])
    {
      assert Mirrors(ps[c[p]], agents[c[p]]);
      var f := allies[p].currentHealth / allies[p].maxHealth;
      if f < least {
        least, at := f, p;
      }
      p := p + 1;
    }
    ghost var mp := MinPos(ps, c);
    assert Fraction(ps[c[mp]]) <= Fraction(ps[c[at]]);
  }

  /** The second `LeastFirst` loop: the members of `allies` whose fraction is at most m, in order. */
  method HoldingAtMost(allies: seq<Agent>, ghost agents: seq<Agent>, ghost ps: seq<AgentView>, ghost c: seq<nat>, m: real)
    returns (best: seq<Agent>)
    requires |agents| == |ps| && Positive(ps)
    requires forall p :: 0 <= p < |c| ==> c[p] < |ps|
    requires allies == AgentsAt(agents, c)
    requires forall j :: 0 <= j < |agents| ==> Mirrors(ps[j], agents[j])
    ensures best == AgentsAt(agents, AtMost(ps, c, m))
  {
    best := [];
    var p := 0;
    while p < |allies|
      invariant 0 <= p <= |allies|
      invariant best == AgentsAt(agents, AtMost(ps, c[..p], m))
    {
      assert Mirrors(ps[c[p]], agents[c[p]]);
      AtMostStep(agents, ps, c, p, m);
      if allies[p].currentHealth / allies[p].maxHealth <= m {
        best := best + [allies[p]];
      }
      p := p + 1;
    }
    assert c[..|allies|] == c;
  }
}
