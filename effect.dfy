/**
 * The value-level semantics of timed effects (Effect.cs): the state one effect
 * object holds, what one call of its update does to that state, and which
 * call it then makes on its target agent. The effect objects themselves are
 * the class Agents.Effect, whose methods are proved against these functions.
 */
module Effects {
  import opened Kinds

  /** The parameters an effect's constructor fixes, one variant per subclass. */
  datatype EffectKind =
    | Buff(stat: StatType, amount: real)
    | Debuff(stat: StatType, amount: real)
    | DamageOverTime(damagePerTick: real, tickInterval: real)
    | HealOverTime(healPerTick: real, tickInterval: real)
  {
    predicate Ticks() { DamageOverTime? || HealOverTime? }
  }

  /** Everything one effect object holds besides its target. */
  datatype EffectState = EffectState(kind: EffectKind, duration: real, remainingTime: real, timeSinceLastTick: real)
  {
    /** An effect is active while time remains on it. */
    predicate IsActive() { remainingTime > 0.0 }
  }

  /** The state a constructor leaves: the whole duration remains, no tick time has passed. */
  function Fresh(kind: EffectKind, duration: real): (s: EffectState)
    ensures s.kind == kind && s.duration == duration
    ensures s.IsActive() <==> duration > 0.0
  {
    EffectState(kind, duration, duration, 0.0)
  }

  /** The call an effect makes on its target during one update. */
  datatype Trigger =
    | NoTrigger
    | Reapply(stat: StatType, amount: real)   // ApplyBuff(stat, amount, 0) on the target
    | DamageTick(damage: real)                // TakeDamage(damage) on the target
    | HealTick(heal: real)                    // Heal(heal) on the target

  datatype Step = Step(state: EffectState, trigger: Trigger)

  /** How much an effect of this kind adds to the given stat while it is attached. */
  function Contribution(kind: EffectKind, stat: StatType): real
  {
    match kind
    case Buff(s, a) => if s == stat then a else 0.0
    case Debuff(s, a) => if s == stat then -a else 0.0
    case _ => 0.0
  }

  /**
   * One update by dt: the remaining time always drops by dt. A buff or
   * debuff that runs out asks its target to re-apply the opposite of its
   * contribution. A damage- or heal-over-time effect that is still active
   * accumulates tick time and fires once that reaches its interval,
   * restarting the tick timer.
   */
  function Update(s: EffectState, dt: real): (r: Step)
    ensures r.state.kind == s.kind && r.state.duration == s.duration
    ensures r.state.remainingTime == s.remainingTime - dt
    ensures !s.kind.Ticks() ==>
              && r.state.timeSinceLastTick == s.timeSinceLastTick
              && (r.trigger != NoTrigger <==> !r.state.IsActive())
              && (!r.state.IsActive() ==>
                    r.trigger == Reapply(s.kind.stat, -Contribution(s.kind, s.kind.stat)))
    ensures s.kind.Ticks() ==>
              var fires := r.state.IsActive() && s.timeSinceLastTick + dt >= s.kind.tickInterval;
              && (r.trigger != NoTrigger <==> fires)
              && (fires ==> r.state.timeSinceLastTick == 0.0)
              && (fires && s.kind.DamageOverTime? ==> r.trigger == DamageTick(s.kind.damagePerTick))
              && (fires && s.kind.HealOverTime? ==> r.trigger == HealTick(s.kind.healPerTick))
              && (!r.state.IsActive() ==> r.state.timeSinceLastTick == s.timeSinceLastTick)
              && (r.state.IsActive() && !fires ==> r.state.timeSinceLastTick == s.timeSinceLastTick + dt)
  {
    var left := s.(remainingTime := s.remainingTime - dt);
    match s.kind
    case Buff(stat, a) => Step(left, if left.IsActive() then NoTrigger else Reapply(stat, -a))
    case Debuff(stat, a) => Step(left, if left.IsActive() then NoTrigger else Reapply(stat, a))
    case DamageOverTime(d, interval) =>
      if !left.IsActive() then Step(left, NoTrigger)
      else if s.timeSinceLastTick + dt >= interval then Step(left.(timeSinceLastTick := 0.0), DamageTick(d))
      else Step(left.(timeSinceLastTick := s.timeSinceLastTick + dt), NoTrigger)
    case HealOverTime(h, interval) =>
      if !left.IsActive() then Step(left, NoTrigger)
      else if s.timeSinceLastTick + dt >= interval then Step(left.(timeSinceLastTick := 0.0), HealTick(h))
      else Step(left.(timeSinceLastTick := s.timeSinceLastTick + dt), NoTrigger)
  }

  /** The total that a list of effects adds to a stat. */
  function NetModifier(effects: seq<EffectState>, stat: StatType): real
  {
    if effects == [] then 0.0 else Contribution(effects[0].kind, stat) + NetModifier(effects[1..], stat)
  }

  /** `RemoveAll(e => !e.IsActive)`: the active effects, in their original order. */
  function Active(effects: seq<EffectState>): (r: seq<EffectState>)
    ensures |r| <= |effects|
    ensures forall e :: e in r <==> e in effects && e.IsActive()
  {
    if effects == [] then []
    else (if effects[0].IsActive() then [effects[0]] else []) + Active(effects[1..])
  }

  lemma {:induction false} NetModifierConcat(a: seq<EffectState>, b: seq<EffectState>, stat: StatType)
    ensures NetModifier(a + b, stat) == NetModifier(a, stat) + NetModifier(b, stat)
  {
    if a == [] {
      assert a + b == b;
    } else {
      assert (a + b)[1..] == a[1..] + b;
      NetModifierConcat(a[1..], b, stat);
    }
  }

  lemma {:induction false} ActiveConcat(a: seq<EffectState>, b: seq<EffectState>)
    ensures Active(a + b) == Active(a) + Active(b)
  {
    if a == [] {
      assert a + b == b;
    } else {
      assert (a + b)[1..] == a[1..] + b;
      ActiveConcat(a[1..], b);
    }
  }

  /** Dropping inactive effects does not change what the list adds up to, once the dropped ones add nothing. */
  lemma {:induction false} ActiveKeepsNetModifier(effects: seq<EffectState>, stat: StatType)
    requires forall i :: 0 <= i < |effects| && !effects[i].IsActive() ==> Contribution(effects[i].kind, stat) == 0.0
    ensures NetModifier(Active(effects), stat) == NetModifier(effects, stat)
  {
    if effects != [] {
      ActiveKeepsNetModifier(effects[1..], stat);
      var head := if effects[0].IsActive() then [effects[0]] else [];
      NetModifierConcat(head, Active(effects[1..]), stat);
      if effects[0].IsActive() {
        assert NetModifier(head, stat) == Contribution(effects[0].kind, stat) + NetModifier([], stat);
      }
    }
  }

  /** A list with no buff or debuff in it adds nothing to any stat. */
  lemma {:induction false} NoModifiersNetZero(effects: seq<EffectState>, stat: StatType)
    requires forall i :: 0 <= i < |effects| ==> effects[i].kind.Ticks()
    ensures NetModifier(effects, stat) == 0.0
  {
    if effects != [] {
      NoModifiersNetZero(effects[1..], stat);
    }
  }

  /** The list of all-inactive effects filters away to nothing. */
  lemma {:induction false} ActiveOfInactive(effects: seq<EffectState>)
    requires forall i :: 0 <= i < |effects| ==> !effects[i].IsActive()
    ensures Active(effects) == []
  {
    if effects != [] {
      ActiveOfInactive(effects[1..]);
    }
  }

  /** Filtering a list whose entries are all active leaves it as it is. */
  lemma {:induction false} ActiveOfActive(effects: seq<EffectState>)
    requires forall i :: 0 <= i < |effects| ==> effects[i].IsActive()
    ensures Active(effects) == effects
  {
    if effects != [] {
      ActiveOfActive(effects[1..]);
    }
  }
}
