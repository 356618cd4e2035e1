/**
 * The sample configurations of DefaultAgentConfigs.cs: three player
 * presets (warrior, healer, mage) and three enemy presets (goblin, orc,
 * troll), filled into empty slots when the asset is enabled, and
 * `CreateDefaultConfigs`, which overwrites all six so that each enemy
 * mirrors one player class.
 */
module Presets {
  import opened Kinds
  import opened ConfigModel
  import opened Configs

  const WarriorPreset: ConfigData :=
    ConfigData(150.0, 25.0, 15.0, 10.0, [ActionType.Attack, ActionType.BuffAlly, ActionType.DebuffEnemy], false)
  const HealerPreset: ConfigData :=
    ConfigData(100.0, 15.0, 10.0, 12.0,
               [ActionType.Attack, ActionType.Heal, ActionType.HealOverTime, ActionType.BuffAlly], true)
  const MagePreset: ConfigData :=
    ConfigData(80.0, 30.0, 5.0, 8.0, [ActionType.Attack, ActionType.DamageOverTime, ActionType.DebuffEnemy], false)

  /** The enemy presets of `InitializeDefaultConfigs`, which never set the preference and keep its initialiser, true. */
  const GoblinPreset: ConfigData := HealerPreset.(preferHealingAllies := DefaultConfig.preferHealingAllies)
  const OrcPreset: ConfigData := WarriorPreset.(preferHealingAllies := DefaultConfig.preferHealingAllies)
  const TrollPreset: ConfigData := MagePreset.(preferHealingAllies := DefaultConfig.preferHealingAllies)

  /** Every preset makes a playable agent: positive health and speed, and Attack among its actions. */
  lemma PresetsPlayable()
    ensures forall d :: d in [WarriorPreset, HealerPreset, MagePreset, GoblinPreset, OrcPreset, TrollPreset] ==>
              d.maxHealth > 0.0 && d.speed > 0.0 && ActionType.Attack in d.availableActions
  {
  }

  /**
   * The enemy presets mirror the player presets in stats and actions; only
   * the preference differs, and only for the orc and the troll.
   */
  lemma EnemyPresetsMirror()
    ensures GoblinPreset == HealerPreset
    ensures OrcPreset != WarriorPreset && OrcPreset.(preferHealingAllies := false) == WarriorPreset
    ensures TrollPreset != MagePreset && TrollPreset.(preferHealingAllies := false) == MagePreset
  {
  }

  /** The stat fields and the action list of a preset, written to a configuration; its preference is left alone. */
  method SetStats(c: AgentConfig, d: ConfigData)
    modifies c
    ensures c.Data() == d.(preferHealingAllies := old(c.preferHealingAllies))
  {
    c.maxHealth := d.maxHealth;
    c.attack := d.attack;
    c.defense := d.defense;
    c.speed := d.speed;
    c.availableActions := d.availableActions;
  }

  /** `CreateInstance<AgentConfig>()` and the preset's assignments, with or without the preference. */
  method NewConfig(d: ConfigData, setsPreference: bool) returns (c: AgentConfig)
    ensures fresh(c)
    ensures c.Data() == if setsPreference then d else d.(preferHealingAllies := DefaultConfig.preferHealingAllies)
  {
    c := new AgentConfig();
    SetStats(c, d);
    if setsPreference {
      c.preferHealingAllies := d.preferHealingAllies;
    }
  }

  /** One `if (slot == null)` block: the asset already in the slot, or a new one with the preset. */
  method Filled(slot: AgentConfig?, d: ConfigData, setsPreference: bool) returns (c: AgentConfig)
    ensures slot != null ==> c == slot
    ensures slot == null ==>
              && fresh(c)
              && c.Data() == if setsPreference then d else d.(preferHealingAllies := DefaultConfig.preferHealingAllies)
  {
    if slot == null {
      c := NewConfig(d, setsPreference);
    } else {
      c := slot;
    }
  }

  class DefaultAgentConfigs {
    var warriorConfig: AgentConfig?
    var healerConfig: AgentConfig?
    var mageConfig: AgentConfig?
    var goblinConfig: AgentConfig?
    var orcConfig: AgentConfig?
    var trollConfig: AgentConfig?

    /** A new asset: every slot empty. */
    constructor ()
      ensures warriorConfig == null && healerConfig == null && mageConfig == null
      ensures goblinConfig == null && orcConfig == null && trollConfig == null
    {
      warriorConfig, healerConfig, mageConfig := null, null, null;
      goblinConfig, orcConfig, trollConfig := null, null, null;
    }

    /** The six slots hold six different assets. */
    predicate Distinct()
      reads this
    {
      && warriorConfig != healerConfig && warriorConfig != mageConfig && warriorConfig != goblinConfig
      && warriorConfig != orcConfig && warriorConfig != trollConfig
      && healerConfig != mageConfig && healerConfig != goblinConfig && healerConfig != orcConfig
      && healerConfig != trollConfig
      && mageConfig != goblinConfig && mageConfig != orcConfig && mageConfig != trollConfig
      && goblinConfig != orcConfig && goblinConfig != trollConfig
      && orcConfig != trollConfig
    }

    /** `OnEnable`: the empty slots are filled. */
    method OnEnable()
      modifies this
      ensures old(warriorConfig) == null ==> fresh(warriorConfig) && warriorConfig.Data() == WarriorPreset
      ensures old(healerConfig) == null ==> fresh(healerConfig) && healerConfig.Data() == HealerPreset
      ensures old(mageConfig) == null ==> fresh(mageConfig) && mageConfig.Data() == MagePreset
      ensures old(goblinConfig) == null ==> fresh(goblinConfig) && goblinConfig.Data() == GoblinPreset
      ensures old(orcConfig) == null ==> fresh(orcConfig) && orcConfig.Data() == OrcPreset
      ensures old(trollConfig) == null ==> fresh(trollConfig) && trollConfig.Data() == TrollPreset
    {
      InitializeDefaultConfigs();
    }

    /**
     * `InitializeDefaultConfigs`: each empty slot receives a new
     * configuration with its preset; a slot already holding an asset keeps
     * it, untouched. On an empty asset the six new configurations are six
     * different objects.
     */
    method InitializeDefaultConfigs()
      modifies this
      ensures old(warriorConfig) == null ==> fresh(warriorConfig) && warriorConfig.Data() == WarriorPreset
      ensures old(healerConfig) == null ==> fresh(healerConfig) && healerConfig.Data() == HealerPreset
      ensures old(mageConfig) == null ==> fresh(mageConfig) && mageConfig.Data() == MagePreset
      ensures old(goblinConfig) == null ==> fresh(goblinConfig) && goblinConfig.Data() == GoblinPreset
      ensures old(orcConfig) == null ==> fresh(orcConfig) && orcConfig.Data() == OrcPreset
      ensures old(trollConfig) == null ==> fresh(trollConfig) && trollConfig.Data() == TrollPreset
      ensures old(warriorConfig) != null ==> warriorConfig == old(warriorConfig)
      ensures old(healerConfig) != null ==> healerConfig == old(healerConfig)
      ensures old(mageConfig) != null ==> mageConfig == old(mageConfig)
      ensures old(goblinConfig) != null ==> goblinConfig == old(goblinConfig)
      ensures old(orcConfig) != null ==> orcConfig == old(orcConfig)
      ensures old(trollConfig) != null ==> trollConfig == old(trollConfig)
      ensures (old(warriorConfig) == null && old(healerConfig) == null && old(mageConfig) == null &&
               old(goblinConfig) == null && old(orcConfig) == null && old(trollConfig) == null) ==> Distinct()
    {
      warriorConfig := Filled(warriorConfig, WarriorPreset, true);
      healerConfig := Filled(healerConfig, HealerPreset, true);
      mageConfig := Filled(mageConfig, MagePreset, true);
      goblinConfig := Filled(goblinConfig, HealerPreset, false);
      orcConfig := Filled(orcConfig, WarriorPreset, false);
      trollConfig := Filled(trollConfig, MagePreset, false);
    }

    /**
     * `CreateDefaultConfigs`: all six assets are overwritten so that the
     * orc equals the warrior and the goblin the healer, preference
     * included, and the troll has the mage's stats and actions; neither
     * the mage's nor the troll's preference is written. The slots must all
     * hold an asset (the source dereferences each one).
     */
    method CreateDefaultConfigs()
      requires warriorConfig != null && healerConfig != null && mageConfig != null
      requires goblinConfig != null && orcConfig != null && trollConfig != null
      modifies warriorConfig, healerConfig, mageConfig, goblinConfig, orcConfig, trollConfig
      ensures Distinct() ==>
                && warriorConfig.Data() == WarriorPreset && orcConfig.Data() == WarriorPreset
                && healerConfig.Data() == HealerPreset && goblinConfig.Data() == HealerPreset
                && mageConfig.Data() == MagePreset.(preferHealingAllies := old(mageConfig.preferHealingAllies))
                && trollConfig.Data() == MagePreset.(preferHealingAllies := old(trollConfig.preferHealingAllies))
    {
      SetStats(warriorConfig, WarriorPreset);
      warriorConfig.preferHealingAllies := false;
      SetStats(orcConfig, WarriorPreset);
      orcConfig.preferHealingAllies := false;
      SetStats(healerConfig, HealerPreset);
      healerConfig.preferHealingAllies := true;
      SetStats(goblinConfig, HealerPreset);
      goblinConfig.preferHealingAllies := true;
      SetStats(mageConfig, MagePreset);
      SetStats(trollConfig, MagePreset);
    }
  }
}
