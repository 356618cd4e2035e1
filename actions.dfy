/**
 * The action objects of Action.cs: a source, a target and the parameters of
 * one of six operations, stored at construction and carried out by
 * `Execute`, which does nothing unless the target exists and is alive. The
 * six subclasses of the abstract Action become the six constructors of
 * `Command`; the faction behaviours call the agent's methods directly and
 * do not go through these objects.
 */
module Actions {
  import opened Kinds
  import opened Effects
  import opened AgentModel
  import opened AgentFacts
  import opened Agents

  /** The subclass of an action and the parameters its constructor stores. */
  datatype Command =
    | DamageAction(damageAmount: real)
    | HealAction(healAmount: real)
    | ApplyDamageOverTimeAction(damagePerTick: real, tickInterval: real, duration: real)
    | ApplyHealOverTimeAction(healPerTick: real, tickInterval: real, duration: real)
    | ApplyBuffAction(statType: StatType, amount: real, duration: real)
    | ApplyDebuffAction(statType: StatType, amount: real, duration: real)
  {
    /** The four actions that attach an effect to their target. */
    predicate Attaches()
    {
      !DamageAction? && !HealAction?
    }

    /** The effect an attaching action adds, with the stored parameters. */
    function Kind(): EffectKind
      requires Attaches()
    {
      match this
      case ApplyDamageOverTimeAction(p, i, _) => EffectKind.DamageOverTime(p, i)
      case ApplyHealOverTimeAction(p, i, _) => EffectKind.HealOverTime(p, i)
      case ApplyBuffAction(s, a, _) => Buff(s, a)
      case ApplyDebuffAction(s, a, _) => Debuff(s, a)
    }
  }

  /**
   * `Execute` on a target with the record v: a dead target is left as it
   * is; a living one receives the call of its subclass with the stored
   * parameters, the damage without a source.
   */
  function ExecuteSpec(c: Command, v: AgentView): (r: AgentView)
    ensures !v.isAlive ==> r == v
    ensures v.isAlive && c.DamageAction? ==>
              r.(currentHealth := v.currentHealth, isAlive := v.isAlive, effects := v.effects) == v
              && (v.currentDefense + 100.0 != 0.0 ==>
                    var h := v.currentHealth - DamageTaken(c.damageAmount, v.currentDefense);
                    (r.isAlive <==> h > 0.0) && r.currentHealth == (if h > 0.0 then h else 0.0))
    ensures v.isAlive && c.HealAction? ==>
              r.(currentHealth := v.currentHealth) == v
              && r.currentHealth == (if v.currentHealth + c.healAmount > v.maxHealth then v.maxHealth
                                     else v.currentHealth + c.healAmount)
    ensures v.isAlive && c.Attaches() ==> r.effects == v.effects + [Fresh(c.Kind(), c.duration)]
    ensures v.isAlive && c.ApplyBuffAction? ==>
              r.Stat(c.statType) == v.Stat(c.statType) + c.amount
              && forall s :: s != c.statType ==> r.Stat(s) == v.Stat(s)
    ensures v.isAlive && c.ApplyDebuffAction? ==>
              r.Stat(c.statType) == v.Stat(c.statType) - c.amount
              && forall s :: s != c.statType ==> r.Stat(s) == v.Stat(s)
    ensures v.isAlive && (c.ApplyDamageOverTimeAction? || c.ApplyHealOverTimeAction?) ==>
              r == v.(effects := r.effects)
  {
    if !v.isAlive then v
    else match c
      case DamageAction(a) => TakeDamageSpec(v, a)
      case HealAction(a) => HealSpec(v, a)
      case ApplyDamageOverTimeAction(p, i, d) => ApplyDamageOverTimeSpec(v, p, i, d)
      case ApplyHealOverTimeAction(p, i, d) => ApplyHealOverTimeSpec(v, p, i, d)
      case ApplyBuffAction(s, a, d) => ApplyBuffSpec(v, s, a, d)
      case ApplyDebuffAction(s, a, d) => ApplyDebuffSpec(v, s, a, d)
  }

  /** Every action keeps the agent invariant: the stats stay accounted for by the attached effects. */
  lemma ExecuteKeepsInv(c: Command, v: AgentView)
    requires InvV(v)
    ensures InvV(ExecuteSpec(c, v))
  {
    if v.isAlive {
      match c
      case DamageAction(a) => TakeDamageKeepsInv(v, a);
      case HealAction(a) => HealKeepsInv(v, a);
      case ApplyDamageOverTimeAction(p, i, d) => ApplyKeepsInv(v, StatType.Attack, p, i, d);
      case ApplyHealOverTimeAction(p, i, d) => ApplyKeepsInv(v, StatType.Attack, p, i, d);
      case ApplyBuffAction(s, a, d) => ApplyKeepsInv(v, s, a, d, d);
      case ApplyDebuffAction(s, a, d) => ApplyKeepsInv(v, s, a, d, d);
    }
  }

  /**
   * The alive guard of `HealAction` is its own: `Heal` on a dead agent below
   * its maximum raises its health, the action leaves it untouched.
   */
  lemma HealActionGuardMatters(v: AgentView, amount: real)
    requires !v.isAlive && amount > 0.0 && v.currentHealth < v.maxHealth
    ensures HealSpec(v, amount) != v
    ensures ExecuteSpec(HealAction(amount), v) == v
  {
    assert HealSpec(v, amount).currentHealth > v.currentHealth;
  }

  /** An action object of Action.cs. */
  class Action {
    const source: Agent?
    const target: Agent?
    const command: Command

    /** The constructors of the six subclasses: source, target and parameters are stored unchanged. */
    constructor (source: Agent?, target: Agent?, command: Command)
      ensures this.source == source && this.target == target && this.command == command
    {
      this.source := source;
      this.target := target;
      this.command := command;
    }

    /** `Execute`: nothing without a living target, otherwise the one call of the subclass. */
    method Execute()
      modifies target
      ensures target != null ==> target.View() == ExecuteSpec(command, old(target.View()))
    {
      if target != null && target.isAlive {
        match command
        case DamageAction(a) => target.TakeDamage(a);
        case HealAction(a) => target.Heal(a);
        case ApplyDamageOverTimeAction(p, i, d) => target.ApplyDamageOverTime(p, i, d);
        case ApplyHealOverTimeAction(p, i, d) => target.ApplyHealOverTime(p, i, d);
        case ApplyBuffAction(s, a, d) => target.ApplyBuff(s, a, d);
        case ApplyDebuffAction(s, a, d) => target.ApplyDebuff(s, a, d);
      }
    }
  }
}
