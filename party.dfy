/**
 * A party (Party.cs): an ordered list of agent objects of one faction,
 * built from a list of configurations, with the queries the targeting
 * rules use. Every query is proved equal to the function of PartyModel on
 * the members' records.
 */
module Parties {
  import opened Kinds
  import opened Randomness
  import opened AgentModel
  import opened AgentFacts
  import opened PartyModel
  import opened ConfigModel
  import opened Agents
  import opened Configs

  /** The records of a list of agents with their effect lists left out, in order. */
  function CoresOf(agents: seq<Agent>): (r: seq<AgentView>)
    reads agents
    ensures |r| == |agents| && forall j :: 0 <= j < |agents| ==> r[j] == agents[j].Core()
  {
    if agents == [] then [] else [agents[0].Core()] + CoresOf(agents[1..])
  }

  /** The agents at the given positions, in the order of the positions. */
  function AgentsAt(agents: seq<Agent>, idx: seq<nat>): (r: seq<Agent>)
    requires forall p :: 0 <= p < |idx| ==> idx[p] < |agents|
    ensures |r| == |idx| && forall p :: 0 <= p < |idx| ==> r[p] == agents[idx[p]]
  {
    seq(|idx|, p requires 0 <= p < |idx| => agents[idx[p]])
  }

  lemma AgentsAtAppend(agents: seq<Agent>, idx: seq<nat>, k: nat)
    requires (forall p :: 0 <= p < |idx| ==> idx[p] < |agents|) && k < |agents|
    ensures AgentsAt(agents, idx + [k]) == AgentsAt(agents, idx) + [agents[k]]
  {
  }

  class Party {
    const isPlayerParty: bool
    var agentConfigs: seq<AgentConfig>
    var agents: seq<Agent>

    constructor (isPlayerParty: bool)
      ensures this.isPlayerParty == isPlayerParty && agentConfigs == [] && agents == []
    {
      this.isPlayerParty := isPlayerParty;
      agentConfigs := [];
      agents := [];
    }

    /** The members' records without their effect lists, which is all the queries read. */
    function Cores(): (r: seq<AgentView>)
      reads this, agents
      ensures |r| == |agents| && forall j :: 0 <= j < |agents| ==> r[j] == agents[j].Core()
    {
      CoresOf(agents)
    }

    /** No agent is listed twice. */
    predicate Unique()
      reads this
    {
      forall j, k :: 0 <= j < k < |agents| ==> agents[j] != agents[k]
    }

    /** `SetAgentConfigs`: the party's list becomes a copy of the given one. */
    method SetAgentConfigs(configs: seq<AgentConfig>)
      modifies this
      ensures agentConfigs == configs && agents == old(agents)
    {
      agentConfigs := configs;
    }

    /**
     * `CreateAgent`: a new agent of the party's faction, configured from
     * `config` and initialised once more; `Initialize` appends it.
     */
    method CreateAgent(config: AgentConfig) returns (agent: Agent)
      ensures fresh(agent) && agent.isPlayer == isPlayerParty && agent.activeEffects == []
      ensures agent.Core() == Built(config.Data(), isPlayerParty)
    {
      agent := new Agent(isPlayerParty);
      config.ApplyToAgent(agent);
      agent.Initialize();
    }

    /**
     * `Initialize`: the old members are dropped and one new agent is
     * created per configuration, in configuration order, each a fresh
     * object of the party's faction with nothing attached.
     */
    method Initialize()
      modifies this
      ensures agentConfigs == old(agentConfigs)
      ensures Cores() == BuiltParty(old(DataOf(agentConfigs)), isPlayerParty)
      ensures forall j :: 0 <= j < |agents| ==>
                fresh(agents[j]) && agents[j].isPlayer == isPlayerParty && agents[j].activeEffects == []
      ensures Unique()
    {
      ghost var cs := DataOf(agentConfigs);
      var created := CreateAgents();
      agents := created;
      assert Cores() == BuiltParty(cs, isPlayerParty);
    }

    /** The loop of `Initialize`: `CreateAgent` for each configuration in turn. */
    method CreateAgents() returns (created: seq<Agent>)
      ensures |created| == |agentConfigs|
      ensures forall j :: 0 <= j < |created| ==>
                && fresh(created[j]) && created[j].isPlayer == isPlayerParty && created[j].activeEffects == []
                && created[j].Core() == Built(agentConfigs[j].Data(), isPlayerParty)
      ensures forall j, k :: 0 <= j < k < |created| ==> created[j] != created[k]
    {
      created := [];
      var i := 0;
      while i < |agentConfigs|
        invariant 0 <= i <= |agentConfigs| && |created| == i
        invariant forall j :: 0 <= j < i ==>
                    && fresh(created[j]) && created[j].isPlayer == isPlayerParty && created[j].activeEffects == []
                    && created[j].Core() == Built(agentConfigs[j].Data(), isPlayerParty)
        invariant forall j, k :: 0 <= j < k < i ==> created[j] != created[k]
      {
        var agent := CreateAgent(agentConfigs[i]);
        created := created + [agent];
        i := i + 1;
      }
    }

    /** The loop of `HandleAgentDeath`: whether no member is alive any more. */
    method HandleAgentDeath() returns (allDefeated: bool)
      ensures allDefeated == !HasAlive(Cores()) && Cores() == old(Cores())
    {
      allDefeated := true;
      var k := 0;
      while k < |agents|
        invariant 0 <= k <= |agents|
        invariant allDefeated ==> forall j :: 0 <= j < k ==> !Cores()[j].isAlive
        invariant !allDefeated ==> HasAlive(Cores())
      {
        if agents[k].isAlive {
          assert Cores()[k].isAlive;
          allDefeated := false;
          break;
        }
        k := k + 1;
      }
    }

    /** `GetAliveAgents`: the living members, in list order. */
    method GetAliveAgents() returns (alive: seq<Agent>)
      ensures var idx := AliveIndices(old(Cores()));
              |alive| == |idx| && forall p :: 0 <= p < |alive| ==> alive[p] == agents[idx[p]]
      ensures Cores() == old(Cores())
    {
      ghost var ps := Cores();
      alive := [];
      var k := 0;
      while k < |agents|
        invariant 0 <= k <= |agents|
        invariant var idx := AliveBelow(ps, k);
                  |alive| == |idx| && forall p :: 0 <= p < |alive| ==> alive[p] == agents[idx[p]]
      {
        if agents[k].isAlive {
          alive := alive + [agents[k]];
        }
        k := k + 1;
      }
    }

    /** `HasAliveAgents`: some member is alive. */
    method HasAliveAgents() returns (b: bool)
      ensures b == HasAlive(Cores()) && Cores() == old(Cores())
      ensures b <==> exists j :: 0 <= j < |agents| && agents[j].isAlive
    {
      var alive := GetAliveAgents();
      b := |alive| > 0;
      assert forall j :: 0 <= j < |agents| ==> Cores()[j].isAlive == agents[j].isAlive;
    }

    /** `GetRandomAgent`: null when no member is alive, otherwise the living member the next draw picks. */
    method GetRandomAgent(rng: Rng) returns (a: Agent?)
      modifies rng
      ensures var c := RandomMember(old(Cores()), rng.draws, old(rng.next));
              && rng.next == c.1
              && (c.0.None? ==> a == null)
              && (c.0.Some? ==> a == agents[c.0.value])
      ensures Cores() == old(Cores())
    {
      ghost var ps := Cores();
      ghost var idx := AliveIndices(ps);
      var alive := GetAliveAgents();
      assert Cores() == ps;
      if |alive| == 0 {
        return null;
      }
      var k := rng.Range(|alive|);
      assert Cores() == ps;
      assert RandomMember(ps, rng.draws, old(rng.next)) == (Some(idx[k]), rng.next);
      a := alive[k];
    }

    /**
     * `GetLowestHealthAgent`: null when no member is alive, otherwise the
     * first living member of least current/max health.
     */
    method GetLowestHealthAgent() returns (a: Agent?)
      requires Positive(Cores())
      ensures var l := Lowest(old(Cores()));
              && (l.None? ==> a == null)
              && (l.Some? ==> a == agents[l.value])
    {
      ghost var ps := Cores();
      ghost var idx := AliveIndices(ps);
      AliveBelowFacts(ps, |ps|);
      var alive := GetAliveAgents();
      assert Cores() == ps;
      if |alive| == 0 {
        return null;
      }
      assert forall p :: 0 <= p < |alive| ==> alive[p] == agents[idx[p]];
      assert forall p :: 0 <= p < |alive| ==> ps[idx[p]] == alive[p].Core();
      a := LowestOfList(alive, ps);
    }
  }

  /**
   * The loop of `GetLowestHealthAgent` over the living members `alive`,
   * whose records are those of `ps` at the positions `idx`: the running
   * minimum of current/max health, replaced only by a strictly lower one.
   */
  method LowestOfList(alive: seq<Agent>, ghost ps: seq<AgentView>) returns (lowest: Agent)
    requires Positive(ps) && 0 < |alive| == |AliveIndices(ps)|
    requires forall p :: 0 <= p < |alive| ==> ps[AliveIndices(ps)[p]] == alive[p].Core()
    ensures exists p :: 0 <= p < |alive| && lowest == alive[p] && Lowest(ps) == Some(AliveIndices(ps)[p])
  {
    ghost var idx := AliveIndices(ps);
    AliveBelowFacts(ps, |ps|);
    lowest := alive[0];
    var lowestFraction := Fraction(lowest.Core());
    ghost var bp := 0;
    ghost var target := LowestFrom(ps, idx, 1, 0);
    var i := 1;
    while i < |alive|
      invariant 1 <= i <= |alive| && bp < i
      invariant lowest == alive[bp] && lowestFraction == Fraction(ps[idx[bp]])
      invariant LowestFrom(ps, idx, i, bp) == target
    {
      var fraction := Fraction(alive[i].Core());
      assert fraction == Fraction(ps[idx[i]]);
      ghost var nb := if fraction < lowestFraction then i else bp;
      assert LowestFrom(ps, idx, i + 1, nb) == target;
      if fraction < lowestFraction {
        lowestFraction := fraction;
        lowest := alive[i];
      }
      bp := nb;
      i := i + 1;
      assert LowestFrom(ps, idx, i, bp) == target;
    }
    assert lowest == alive[bp];
  }
}
