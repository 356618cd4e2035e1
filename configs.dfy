/**
 * The configuration asset of AgentConfig.cs: an object with public stat,
 * action and preference fields that presets and the scene assign, and that
 * `ApplyToAgent` copies into an agent. The model writes the agent's fields
 * directly where the source goes through reflection.
 */
module Configs {
  import opened Kinds
  import opened AgentModel
  import opened ConfigModel
  import opened Agents

  class AgentConfig {
    var maxHealth: real
    var attack: real
    var defense: real
    var speed: real
    var availableActions: seq<ActionType>
    var preferHealingAllies: bool

    /** `CreateInstance<AgentConfig>()`: every field at its initialiser. */
    constructor ()
      ensures Data() == DefaultConfig
    {
      maxHealth, attack, defense, speed := 100.0, 20.0, 10.0, 10.0;
      availableActions := [];
      preferHealingAllies := true;
    }

    /** The configuration's fields as a record. */
    function Data(): ConfigData
      reads this
    {
      ConfigData(maxHealth, attack, defense, speed, availableActions, preferHealingAllies)
    }

    /**
     * `ApplyToAgent`: the base stats and the action list are written to the
     * agent, the preference only to a Player, and the agent is initialised.
     * The action list is a value, so the agent never aliases the
     * configuration's list.
     */
    method ApplyToAgent(agent: Agent)
      modifies agent
      ensures agent.Core() == ApplyTo(Data(), old(agent.Core()), agent.isPlayer)
      ensures agent.activeEffects == []
    {
      agent.maxHealth := maxHealth;
      agent.attack := attack;
      agent.defense := defense;
      agent.speed := speed;
      agent.availableActions := availableActions;
      if agent.isPlayer {
        agent.preferHealingAllies := preferHealingAllies;
      }
      agent.Initialize();
    }
  }

  /** The records of a list of configurations, in order. */
  function DataOf(cs: seq<AgentConfig>): (r: seq<ConfigData>)
    reads cs
    ensures |r| == |cs| && forall j :: 0 <= j < |cs| ==> r[j] == cs[j].Data()
  {
    if cs == [] then [] else [cs[0].Data()] + DataOf(cs[1..])
  }

  /** The records of configurations that no one has written to are the records they had. */
  twostate lemma {:induction false} DataUnchanged(cs: seq<AgentConfig>)
    requires forall j :: 0 <= j < |cs| ==> unchanged(cs[j])
    ensures DataOf(cs) == old(DataOf(cs))
  {
    if cs != [] {
      DataUnchanged(cs[1..]);
    }
  }
}
