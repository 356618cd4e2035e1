/**
 * The value-level model of one battle agent (Agent.cs): a record of every
 * field an agent updates, and one function per operation giving the record
 * after the call. The class Agents.Agent is proved to follow these
 * functions; the lemmas here are what the battle relies on.
 */
module AgentModel {
  import opened Kinds
  import opened Effects

  /** The fields of an agent, the states of its attached effects in list order included. */
  datatype AgentView = AgentView(
    maxHealth: real, attack: real, defense: real, speed: real,
    currentHealth: real, currentAttack: real, currentDefense: real, currentSpeed: real,
    actionTimer: real, isAlive: bool, effects: seq<EffectState>,
    availableActions: seq<ActionType>, preferHealingAllies: bool)
  {
    /** The current (modified) value of a stat. */
    function Stat(s: StatType): real
    {
      match s
      case Attack => currentAttack
      case Defense => currentDefense
      case Speed => currentSpeed
    }

    /** The configured base value of a stat. */
    function BaseStat(s: StatType): real
    {
      match s
      case Attack => attack
      case Defense => defense
      case Speed => speed
    }

    /** The same agent with its effect list left out. */
    function Strip(): AgentView
    {
      this.(effects := [])
    }
  }

  // ---------------------------------------------------------------------
  // One function per operation of Agent.cs
  // ---------------------------------------------------------------------

  /** `ResetStats`: every current stat back to its base value, health full. */
  function ResetStatsSpec(v: AgentView): (r: AgentView)
    ensures r.currentHealth == r.maxHealth
    ensures forall s :: r.Stat(s) == r.BaseStat(s)
    ensures r.(currentHealth := v.currentHealth, currentAttack := v.currentAttack,
               currentDefense := v.currentDefense, currentSpeed := v.currentSpeed) == v
  {
    v.(currentHealth := v.maxHealth, currentAttack := v.attack,
       currentDefense := v.defense, currentSpeed := v.speed)
  }

  /** `Initialize`: stats reset, alive, action bar empty, no effects. */
  function InitializeSpec(v: AgentView): (r: AgentView)
    ensures r.isAlive && r.actionTimer == 0.0 && r.effects == []
    ensures r.currentHealth == r.maxHealth && forall s :: r.Stat(s) == r.BaseStat(s)
    ensures r.availableActions == v.availableActions && r.preferHealingAllies == v.preferHealingAllies
    ensures InvV(v.(isAlive := true)) ==> InvV(r)
  {
    ResetStatsSpec(v).(isAlive := true, actionTimer := 0.0, effects := [])
  }

  /** `Die`: the agent is dead and loses every effect. */
  function DieSpec(v: AgentView): (r: AgentView)
    ensures !r.isAlive && r.effects == []
    ensures r.Strip() == v.Strip().(isAlive := false)
  {
    v.(isAlive := false, effects := [])
  }

  /** The share of incoming damage that a defense value absorbs. */
  function Mitigation(defense: real): real
    requires defense + 100.0 != 0.0
  {
    defense / (defense + 100.0)
  }

  /** The damage left after mitigation. */
  function DamageTaken(amount: real, defense: real): real
    requires defense + 100.0 != 0.0
  {
    amount - amount * Mitigation(defense)
  }

  /**
   * `TakeDamage`: a dead agent ignores damage; a living one loses the
   * mitigated amount and dies, with health 0, once health reaches 0. At a
   * defense of exactly -100 the source divides by zero: a positive hit
   * kills, as in the source, while a hit of 0 or less leaves the record
   * unchanged here (the source's health becomes NaN or +infinity).
   */
  function TakeDamageSpec(v: AgentView, amount: real): (r: AgentView)
    ensures !v.isAlive ==> r == v
    ensures r.(currentHealth := v.currentHealth, isAlive := v.isAlive, effects := v.effects) == v
    ensures v.isAlive && v.currentDefense + 100.0 != 0.0 ==>
              var h := v.currentHealth - DamageTaken(amount, v.currentDefense);
              (r.isAlive <==> h > 0.0) && r.currentHealth == (if h > 0.0 then h else 0.0)
    ensures v.isAlive && !r.isAlive ==> r.currentHealth == 0.0 && r.effects == []
    ensures r.isAlive ==> r.effects == v.effects
  {
    if !v.isAlive then v
    else if v.currentDefense + 100.0 == 0.0 then
      (if amount > 0.0 then DieSpec(v.(currentHealth := 0.0)) else v)
    else
      var h := v.currentHealth - DamageTaken(amount, v.currentDefense);
      if h <= 0.0 then DieSpec(v.(currentHealth := 0.0)) else v.(currentHealth := h)
  }

  /** `Heal`: health rises by the amount but never above the maximum; dead agents are not exempt. */
  function HealSpec(v: AgentView, amount: real): (r: AgentView)
    ensures r.currentHealth <= v.maxHealth
    ensures v.currentHealth + amount <= v.maxHealth ==> r.currentHealth == v.currentHealth + amount
    ensures v.currentHealth + amount > v.maxHealth ==> r.currentHealth == v.maxHealth
    ensures r.(currentHealth := v.currentHealth) == v
  {
    v.(currentHealth := if v.maxHealth < v.currentHealth + amount then v.maxHealth else v.currentHealth + amount)
  }

  /** `ApplyStatModifier`: the named current stat moves by the amount. */
  function ModifyStat(v: AgentView, s: StatType, amount: real): (r: AgentView)
    ensures r.Stat(s) == v.Stat(s) + amount
    ensures forall t :: t != s ==> r.Stat(t) == v.Stat(t)
    ensures r.(currentAttack := v.currentAttack, currentDefense := v.currentDefense,
               currentSpeed := v.currentSpeed) == v
  {
    match s
    case Attack => v.(currentAttack := v.currentAttack + amount)
    case Defense => v.(currentDefense := v.currentDefense + amount)
    case Speed => v.(currentSpeed := v.currentSpeed + amount)
  }

  /** `ApplyBuff`: a buff is attached and its amount added to the stat at once. */
  function ApplyBuffSpec(v: AgentView, s: StatType, amount: real, duration: real): (r: AgentView)
    ensures r.effects == v.effects + [Fresh(Buff(s, amount), duration)]
    ensures r.Stat(s) == v.Stat(s) + amount
    ensures forall t :: t != s ==> r.Stat(t) == v.Stat(t)
    ensures r.isAlive ==> forall t :: Accounted(v, t) ==> Accounted(r, t)
  {
    var r := ModifyStat(v.(effects := v.effects + [Fresh(Buff(s, amount), duration)]), s, amount);
    forall t | r.isAlive && Accounted(v, t)
      ensures Accounted(r, t)
    {
      NetModifierConcat(v.effects, [Fresh(Buff(s, amount), duration)], t);
    }
    r
  }

  /** `ApplyDebuff`: a debuff is attached and its amount taken off the stat at once. */
  function ApplyDebuffSpec(v: AgentView, s: StatType, amount: real, duration: real): (r: AgentView)
    ensures r.effects == v.effects + [Fresh(Debuff(s, amount), duration)]
    ensures r.Stat(s) == v.Stat(s) - amount
    ensures forall t :: t != s ==> r.Stat(t) == v.Stat(t)
    ensures r.isAlive ==> forall t :: Accounted(v, t) ==> Accounted(r, t)
  {
    var r := ModifyStat(v.(effects := v.effects + [Fresh(Debuff(s, amount), duration)]), s, -amount);
    forall t | r.isAlive && Accounted(v, t)
      ensures Accounted(r, t)
    {
      NetModifierConcat(v.effects, [Fresh(Debuff(s, amount), duration)], t);
    }
    r
  }

  /** `ApplyDamageOverTime`: a damage-over-time effect is attached; no stat moves. */
  function ApplyDamageOverTimeSpec(v: AgentView, damagePerTick: real, tickInterval: real, duration: real): (r: AgentView)
    ensures r.effects == v.effects + [Fresh(EffectKind.DamageOverTime(damagePerTick, tickInterval), duration)]
    ensures forall t :: Accounted(v, t) ==> Accounted(r, t)
  {
    var e := Fresh(EffectKind.DamageOverTime(damagePerTick, tickInterval), duration);
    forall t | Accounted(v, t)
      ensures Accounted(v.(effects := v.effects + [e]), t)
    {
      NetModifierConcat(v.effects, [e], t);
    }
    v.(effects := v.effects + [e])
  }

  /** `ApplyHealOverTime`: a heal-over-time effect is attached; no stat moves. */
  function ApplyHealOverTimeSpec(v: AgentView, healPerTick: real, tickInterval: real, duration: real): (r: AgentView)
    ensures r.effects == v.effects + [Fresh(EffectKind.HealOverTime(healPerTick, tickInterval), duration)]
    ensures forall t :: Accounted(v, t) ==> Accounted(r, t)
  {
    var e := Fresh(EffectKind.HealOverTime(healPerTick, tickInterval), duration);
    forall t | Accounted(v, t)
      ensures Accounted(v.(effects := v.effects + [e]), t)
    {
      NetModifierConcat(v.effects, [e], t);
    }
    v.(effects := v.effects + [e])
  }

  /** The agent after an effect's trigger has called back into it. */
  function FireSpec(v: AgentView, t: Trigger): AgentView
  {
    match t
    case NoTrigger => v
    case Reapply(s, a) => ApplyBuffSpec(v, s, a, 0.0)
    case DamageTick(d) => TakeDamageSpec(v, d)
    case HealTick(h) => HealSpec(v, h)
  }

  /**
   * The effect pass from snapshot position k on. `v` is the agent with only
   * the entries added during the pass in its list; `front` holds the updated
   * snapshot entries so far; `attached` says the snapshot entries are still
   * in the live list (a death clears it). The pass ends by dropping every
   * inactive entry.
   */
  function PassSpec(v: AgentView, snap: seq<EffectState>, k: nat, front: seq<EffectState>, attached: bool, dt: real): AgentView
    requires k <= |snap|
    decreases |snap| - k
  {
    if k == |snap| then v.(effects := Active((if attached then front else []) + v.effects))
    else
      var u := Update(snap[k], dt);
      var w := FireSpec(v, u.trigger);
      PassSpec(w, snap, k + 1, front + [u.state], attached && !(v.isAlive && !w.isAlive), dt)
  }

  /** `UpdateEffects`: every effect of a snapshot of the list updated in order, then the inactive ones removed. */
  function UpdateEffectsSpec(v: AgentView, dt: real): AgentView
  {
    PassSpec(v.(effects := []), v.effects, 0, [], true, dt)
  }

  /** Every snapshot entry after one update, in order. */
  function UpdatedStates(snap: seq<EffectState>, dt: real): (r: seq<EffectState>)
    ensures |r| == |snap|
    ensures forall i :: 0 <= i < |snap| ==> r[i] == Update(snap[i], dt).state
  {
    seq(|snap|, i requires 0 <= i < |snap| => Update(snap[i], dt).state)
  }

  // ---------------------------------------------------------------------
  // The stat-accounting invariant
  // ---------------------------------------------------------------------

  /** A current stat equals its base plus what the attached effects add. */
  ghost predicate Accounted(v: AgentView, s: StatType)
  {
    v.Stat(s) == v.BaseStat(s) + NetModifier(v.effects, s)
  }

  /**
   * What holds of every agent between operations: a positive maximum, no
   * effects on the dead, and on the living every stat accounted for by the
   * attached buffs and debuffs.
   */
  ghost predicate InvV(v: AgentView)
  {
    && v.maxHealth > 0.0
    && (!v.isAlive ==> v.effects == [])
    && (v.isAlive ==> Accounted(v, StatType.Attack) && Accounted(v, StatType.Defense) && Accounted(v, StatType.Speed))
  }
}
