/**
 * The value-level model of agent configuration (AgentConfig.cs) and of
 * how a party builds its agents from configurations (Party.CreateAgent).
 */
module ConfigModel {
  import opened Kinds
  import opened Effects
  import opened AgentModel

  /** The fields of an AgentConfig. */
  datatype ConfigData = ConfigData(maxHealth: real, attack: real, defense: real, speed: real,
                                   availableActions: seq<ActionType>, preferHealingAllies: bool)

  /** The field initialisers of AgentConfig. */
  const DefaultConfig: ConfigData := ConfigData(100.0, 20.0, 10.0, 10.0, [], true)

  /** A freshly added agent component: every number zero, alive, no actions, the preference at its initialiser. */
  const NewAgent: AgentView := AgentView(0.0, 0.0, 0.0, 0.0, 0.0, 0.0, 0.0, 0.0, 0.0, true, [], [], true)

  /**
   * `ApplyToAgent`: the base stats and a copy of the action list are
   * written to the agent, the preference only to a Player, and the agent
   * is initialised.
   */
  function ApplyTo(c: ConfigData, v: AgentView, isPlayer: bool): (r: AgentView)
    ensures r.maxHealth == c.maxHealth && r.attack == c.attack && r.defense == c.defense && r.speed == c.speed
    ensures r.availableActions == c.availableActions
    ensures r.preferHealingAllies == if isPlayer then c.preferHealingAllies else v.preferHealingAllies
    ensures r.currentHealth == c.maxHealth && forall s :: r.Stat(s) == r.BaseStat(s)
    ensures r.isAlive && r.actionTimer == 0.0 && r.effects == []
  {
    InitializeSpec(v.(maxHealth := c.maxHealth, attack := c.attack, defense := c.defense, speed := c.speed,
                      availableActions := c.availableActions,
                      preferHealingAllies := if isPlayer then c.preferHealingAllies else v.preferHealingAllies))
  }

  /** `CreateAgent`: a new agent of the party's kind, configured, then initialised once more. */
  function Built(c: ConfigData, isPlayer: bool): AgentView
  {
    InitializeSpec(ApplyTo(c, NewAgent, isPlayer))
  }

  /** Initialising twice is initialising once, so the second `Initialize` of `CreateAgent` changes nothing. */
  lemma InitializeIdempotent(v: AgentView)
    ensures InitializeSpec(InitializeSpec(v)) == InitializeSpec(v)
  {
  }

  /** What a built agent is: exactly its configuration, fully healed, at base stats, alive, idle and unaffected. */
  lemma BuiltFacts(c: ConfigData, isPlayer: bool)
    ensures var v := Built(c, isPlayer);
            && v == ApplyTo(c, NewAgent, isPlayer)
            && v.maxHealth == c.maxHealth && v.attack == c.attack && v.defense == c.defense && v.speed == c.speed
            && v.availableActions == c.availableActions
            && v.preferHealingAllies == (!isPlayer || c.preferHealingAllies)
            && v.currentHealth == v.maxHealth && v.isAlive && v.actionTimer == 0.0 && v.effects == []
            && (c.maxHealth > 0.0 ==> InvV(v))
  {
    var v := ApplyTo(c, NewAgent, isPlayer);
    InitializeIdempotent(v);
    assert NetModifier([], StatType.Attack) == 0.0;
    assert NetModifier([], StatType.Defense) == 0.0;
    assert NetModifier([], StatType.Speed) == 0.0;
  }

  /** `Party.Initialize`: one built agent per configuration, in configuration order. */
  function BuiltParty(cs: seq<ConfigData>, isPlayer: bool): (r: seq<AgentView>)
    ensures |r| == |cs| && forall j :: 0 <= j < |cs| ==> r[j] == Built(cs[j], isPlayer)
  {
    seq(|cs|, j requires 0 <= j < |cs| => Built(cs[j], isPlayer))
  }
}
