/**
 * The two closed enumerations of the battle simulation: the stats that buffs
 * and debuffs modify, and the kinds of action an agent can be configured with.
 */
module Kinds {

  /** A stat that a buff or debuff changes (enum StatType in Agent.cs). */
  datatype StatType = Attack | Defense | Speed

  /** The six kinds of action an agent may take (enum ActionType in Player.cs). */
  datatype ActionType = Attack | Heal | BuffAlly | DebuffEnemy | DamageOverTime | HealOverTime

  /**
   * The cast `(StatType)k` that turns a choice in [0, 3) into a stat, in
   * declaration order.
   */
  function StatOf(k: nat): (s: StatType)
    requires k < 3
    ensures k == 0 <==> s == StatType.Attack
    ensures k == 1 <==> s == StatType.Defense
    ensures k == 2 <==> s == StatType.Speed
  {
    if k == 0 then StatType.Attack else if k == 1 then StatType.Defense else StatType.Speed
  }
}
