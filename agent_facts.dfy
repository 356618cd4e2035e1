/**
 * What the agent operations of Agent.cs guarantee: damage mitigation, the
 * stat-accounting invariant that every operation and the effect pass keep,
 * what the effect pass leaves in the list, and the behaviours of the pass
 * that follow from updating a snapshot (a dead agent can still be healed).
 */
module AgentFacts {
  import opened Kinds
  import opened Effects
  import opened AgentModel

  // ---------------------------------------------------------------------
  // Damage mitigation
  // ---------------------------------------------------------------------

  /** The mitigated damage is the amount scaled by 100 / (defense + 100). */
  lemma DamageTakenScales(amount: real, defense: real)
    requires defense + 100.0 != 0.0
    ensures DamageTaken(amount, defense) == amount * 100.0 / (defense + 100.0)
  {
    var d := defense + 100.0;
    calc {
      DamageTaken(amount, defense);
      amount - amount * (defense / d);
      { assert amount * (defense / d) == amount * defense / d; }
      amount * d / d - amount * defense / d;
      amount * (d - defense) / d;
    }
  }

  /** With non-negative defense a hit is never amplified, and a positive hit always does some damage. */
  lemma DamageTakenBounds(amount: real, defense: real)
    requires defense >= 0.0 && amount >= 0.0
    ensures 0.0 <= DamageTaken(amount, defense) <= amount
    ensures amount > 0.0 ==> DamageTaken(amount, defense) > 0.0
  {
    DamageTakenScales(amount, defense);
    var d := defense + 100.0;
    assert 100.0 / d <= 1.0;
    assert amount * 100.0 / d == amount * (100.0 / d);
  }

  /** More defense means strictly less damage from a positive hit. */
  lemma MoreDefenseLessDamage(amount: real, d1: real, d2: real)
    requires amount > 0.0 && 0.0 <= d1 < d2
    ensures DamageTaken(amount, d2) < DamageTaken(amount, d1)
  {
    DamageTakenScales(amount, d1);
    DamageTakenScales(amount, d2);
    assert 100.0 / (d2 + 100.0) < 100.0 / (d1 + 100.0);
    assert amount * 100.0 / (d1 + 100.0) == amount * (100.0 / (d1 + 100.0));
    assert amount * 100.0 / (d2 + 100.0) == amount * (100.0 / (d2 + 100.0));
  }

  /** Equal defense and base mitigation: 100 defense halves every hit. */
  lemma HundredDefenseHalves(amount: real)
    ensures DamageTaken(amount, 100.0) == amount / 2.0
  {
    DamageTakenScales(amount, 100.0);
  }

  /** Damage and healing keep the invariant on any agent, living or dead. */
  lemma TakeDamageKeepsInv(v: AgentView, amount: real)
    requires InvV(v)
    ensures InvV(TakeDamageSpec(v, amount))
  {
  }

  lemma HealKeepsInv(v: AgentView, amount: real)
    requires InvV(v)
    ensures InvV(HealSpec(v, amount))
  {
  }

  /** Attaching an effect keeps the invariant on a living agent. */
  lemma ApplyKeepsInv(v: AgentView, s: StatType, a: real, b: real, c: real)
    requires InvV(v) && v.isAlive
    ensures InvV(ApplyBuffSpec(v, s, a, b))
    ensures InvV(ApplyDebuffSpec(v, s, a, b))
    ensures InvV(ApplyDamageOverTimeSpec(v, a, b, c))
    ensures InvV(ApplyHealOverTimeSpec(v, a, b, c))
  {
  }

  // ---------------------------------------------------------------------
  // The effect pass keeps the accounting invariant
  // ---------------------------------------------------------------------

  /**
   * Mid-pass accounting: a current stat is its base plus what the updated
   * entries still active and the snapshot entries not yet updated add; the
   * entries added during the pass (reversal entries) are not counted.
   */
  ghost predicate PassAccounted(v: AgentView, front: seq<EffectState>, rest: seq<EffectState>, s: StatType)
  {
    v.Stat(s) == v.BaseStat(s) + NetModifier(Active(front), s) + NetModifier(rest, s)
  }

  ghost predicate PassOk(v: AgentView, snap: seq<EffectState>, k: nat, front: seq<EffectState>, attached: bool)
    requires k <= |snap|
  {
    && v.maxHealth > 0.0
    && Active(v.effects) == []
    && (v.isAlive ==> attached
                      && PassAccounted(v, front, snap[k..], StatType.Attack)
                      && PassAccounted(v, front, snap[k..], StatType.Defense)
                      && PassAccounted(v, front, snap[k..], StatType.Speed))
    && (!v.isAlive ==> !attached)
  }

  /** A trigger never revives an agent and adds only inactive entries to the list. */
  lemma FireFacts(v: AgentView, t: Trigger)
    ensures var w := FireSpec(v, t);
            && (!v.isAlive ==> !w.isAlive)
            && w.maxHealth == v.maxHealth
            && (Active(v.effects) == [] ==> Active(w.effects) == [])
  {
    var w := FireSpec(v, t);
    if t.Reapply? {
      ActiveConcat(v.effects, [Fresh(Buff(t.stat, t.amount), 0.0)]);
      assert Active([Fresh(Buff(t.stat, t.amount), 0.0)]) == [] by {
        ActiveOfInactive([Fresh(Buff(t.stat, t.amount), 0.0)]);
      }
    }
  }

  /** What a trigger does to an agent's fields does not depend on its effect list. */
  lemma FireIgnoresEffects(v: AgentView, t: Trigger)
    ensures FireSpec(v, t).Strip() == FireSpec(v.Strip(), t).Strip()
  {
  }

  /** What a trigger does to an agent's effect list: clear it on a death, append an expired buff on a re-application. */
  lemma FireEffects(v: AgentView, t: Trigger)
    ensures var w := FireSpec(v, t);
            w.effects == if v.isAlive && !w.isAlive then []
                         else if t.Reapply? then v.effects + [Fresh(Buff(t.stat, t.amount), 0.0)]
                         else v.effects
  {
  }

  /** A trigger that leaves the agent alive moves a current stat only by a re-application's amount, and no base stat. */
  lemma FireStat(v: AgentView, t: Trigger, s: StatType)
    ensures var w := FireSpec(v, t);
            && w.BaseStat(s) == v.BaseStat(s)
            && (w.isAlive ==> w.Stat(s) == v.Stat(s) + (if t.Reapply? && t.stat == s then t.amount else 0.0))
  {
  }

  /** One snapshot entry moves from the not-yet-updated part into the updated part. */
  lemma StepAccounted(v: AgentView, e: EffectState, rest: seq<EffectState>, front: seq<EffectState>, dt: real, s: StatType)
    requires v.isAlive
    requires PassAccounted(v, front, [e] + rest, s)
    ensures var u := Update(e, dt);
            var w := FireSpec(v, u.trigger);
            w.isAlive ==> PassAccounted(w, front + [u.state], rest, s)
  {
    var u := Update(e, dt);
    assert ([e] + rest)[1..] == rest;
    assert NetModifier([e] + rest, s) == Contribution(e.kind, s) + NetModifier(rest, s);
    ActiveConcat(front, [u.state]);
    NetModifierConcat(Active(front), Active([u.state]), s);
    assert [u.state][1..] == [];
    FireStat(v, u.trigger, s);
    if u.state.IsActive() {
      assert NetModifier([u.state], s) == Contribution(u.state.kind, s);
    } else {
      assert Active([u.state]) == [];
    }
  }

  lemma {:induction false} PassKeepsInv(v: AgentView, snap: seq<EffectState>, k: nat, front: seq<EffectState>,
                                        attached: bool, dt: real)
    requires k <= |snap| && PassOk(v, snap, k, front, attached)
    ensures InvV(PassSpec(v, snap, k, front, attached, dt))
    decreases |snap| - k
  {
    if k == |snap| {
      var all := (if attached then front else []) + v.effects;
      ActiveConcat(if attached then front else [], v.effects);
      if v.isAlive {
        assert snap[k..] == [];
        var r := PassSpec(v, snap, k, front, attached, dt);
        assert r.effects == Active(front);
        assert r.Strip() == v.Strip();
        assert forall s :: NetModifier(snap[k..], s) == 0.0;
      } else {
        assert Active(all) == Active([]) + [];
      }
    } else {
      var u := Update(snap[k], dt);
      var w := FireSpec(v, u.trigger);
      var attached' := attached && !(v.isAlive && !w.isAlive);
      FireFacts(v, u.trigger);
      if v.isAlive && w.isAlive {
        assert snap[k..] == [snap[k]] + snap[k + 1..];
        StepAccounted(v, snap[k], snap[k + 1..], front, dt, StatType.Attack);
        StepAccounted(v, snap[k], snap[k + 1..], front, dt, StatType.Defense);
        StepAccounted(v, snap[k], snap[k + 1..], front, dt, StatType.Speed);
      }
      assert PassOk(w, snap, k + 1, front + [u.state], attached');
      PassKeepsInv(w, snap, k + 1, front + [u.state], attached', dt);
    }
  }

  /** The effect pass keeps the invariant. */
  lemma UpdateEffectsKeepsInv(v: AgentView, dt: real)
    requires InvV(v)
    ensures InvV(UpdateEffectsSpec(v, dt))
  {
    var v0 := v.(effects := []);
    if v.isAlive {
      assert v.effects[0..] == v.effects;
      var none: seq<EffectState> := [];
      assert Active(none) == [];
      assert PassOk(v0, v.effects, 0, [], true);
      PassKeepsInv(v0, v.effects, 0, [], true, dt);
    } else {
      assert UpdateEffectsSpec(v, dt) == v0.(effects := Active([] + []));
    }
  }

  // ---------------------------------------------------------------------
  // What the pass leaves in the list
  // ---------------------------------------------------------------------

  lemma {:induction false} PassNoRevival(v: AgentView, snap: seq<EffectState>, k: nat, front: seq<EffectState>,
                                         attached: bool, dt: real)
    requires k <= |snap| && !v.isAlive
    ensures !PassSpec(v, snap, k, front, attached, dt).isAlive
    decreases |snap| - k
  {
    if k < |snap| {
      var u := Update(snap[k], dt);
      FireFacts(v, u.trigger);
      PassNoRevival(FireSpec(v, u.trigger), snap, k + 1, front + [u.state], attached && !(v.isAlive && !FireSpec(v, u.trigger).isAlive), dt);
    }
  }

  lemma {:induction false} PassListing(v: AgentView, snap: seq<EffectState>, k: nat, front: seq<EffectState>,
                                       attached: bool, dt: real)
    requires k <= |snap|
    requires Active(v.effects) == []
    requires |front| == k && forall i :: 0 <= i < k ==> front[i] == Update(snap[i], dt).state
    ensures var r := PassSpec(v, snap, k, front, attached, dt);
            && (attached && (r.isAlive || !v.isAlive) ==> r.effects == Active(UpdatedStates(snap, dt)))
            && (!attached || (v.isAlive && !r.isAlive) ==> r.effects == [])
    decreases |snap| - k
  {
    if k == |snap| {
      ActiveConcat(if attached then front else [], v.effects);
      assert front == UpdatedStates(snap, dt);
      assert Active([]) == [];
    } else {
      var u := Update(snap[k], dt);
      var w := FireSpec(v, u.trigger);
      var attached' := attached && !(v.isAlive && !w.isAlive);
      FireFacts(v, u.trigger);
      if !w.isAlive {
        PassNoRevival(w, snap, k + 1, front + [u.state], attached', dt);
      }
      PassListing(w, snap, k + 1, front + [u.state], attached', dt);
    }
  }

  /**
   * After the pass, an agent that is alive (or was dead all along) holds
   * exactly its updated snapshot entries that are still active, in order:
   * reversal entries never survive. An agent that died during the pass
   * holds none.
   */
  lemma UpdateEffectsList(v: AgentView, dt: real)
    ensures var r := UpdateEffectsSpec(v, dt);
            && (r.isAlive || !v.isAlive ==> r.effects == Active(UpdatedStates(v.effects, dt)))
            && (v.isAlive && !r.isAlive ==> r.effects == [])
  {
    var none: seq<EffectState> := [];
      assert Active(none) == [];
    PassListing(v.(effects := []), v.effects, 0, [], true, dt);
  }

  /** The fields a trigger never touches: the base stats, the action timer, the action list and the preference. */
  predicate SameFixed(v: AgentView, w: AgentView)
  {
    && w.maxHealth == v.maxHealth && w.attack == v.attack && w.defense == v.defense && w.speed == v.speed
    && w.actionTimer == v.actionTimer && w.availableActions == v.availableActions
    && w.preferHealingAllies == v.preferHealingAllies
  }

  lemma {:induction false} PassKeepsFixed(v: AgentView, snap: seq<EffectState>, k: nat, front: seq<EffectState>,
                                          attached: bool, dt: real)
    requires k <= |snap|
    ensures SameFixed(v, PassSpec(v, snap, k, front, attached, dt))
    decreases |snap| - k
  {
    if k < |snap| {
      var u := Update(snap[k], dt);
      var w := FireSpec(v, u.trigger);
      PassKeepsFixed(w, snap, k + 1, front + [u.state], attached && !(v.isAlive && !w.isAlive), dt);
    }
  }

  /** The effect pass changes health, current stats, aliveness and the list only. */
  lemma UpdateEffectsKeepsFixed(v: AgentView, dt: real)
    ensures SameFixed(v, UpdateEffectsSpec(v, dt))
  {
    PassKeepsFixed(v.(effects := []), v.effects, 0, [], true, dt);
  }

  /** Aliveness after the pass: the dead stay dead. */
  lemma UpdateEffectsNoRevival(v: AgentView, dt: real)
    requires !v.isAlive
    ensures !UpdateEffectsSpec(v, dt).isAlive
  {
    PassNoRevival(v.(effects := []), v.effects, 0, [], true, dt);
  }

  /** An agent with no effects is left exactly as it was by the pass. */
  lemma UpdateEffectsOfNone(v: AgentView, dt: real)
    requires v.effects == []
    ensures UpdateEffectsSpec(v, dt) == v
  {
    assert Active([] + []) == [];
  }

  /** With only damage- and heal-over-time effects attached, a living agent's stats are its base stats. */
  lemma StatsAtBase(v: AgentView, s: StatType)
    requires InvV(v) && v.isAlive
    requires forall i :: 0 <= i < |v.effects| ==> v.effects[i].kind.Ticks()
    ensures v.Stat(s) == v.BaseStat(s)
  {
    NoModifiersNetZero(v.effects, s);
    assert Accounted(v, s);
  }

  // ---------------------------------------------------------------------
  // Expiry and snapshot behaviours
  // ---------------------------------------------------------------------

  /** A buff that runs out within one pass gives back exactly what it added: the agent is as before. */
  lemma BuffExpires(v: AgentView, s: StatType, amount: real, duration: real, dt: real)
    requires v.effects == [] && dt >= duration
    ensures UpdateEffectsSpec(ApplyBuffSpec(v, s, amount, duration), dt) == v
  {
    var v1 := ApplyBuffSpec(v, s, amount, duration);
    var e := Fresh(Buff(s, amount), duration);
    assert v1.effects == [e];
    var u := Update(e, dt);
    assert u.trigger == Reapply(s, -amount);
    var w := ApplyBuffSpec(v1.(effects := []), s, -amount, 0.0);
    assert FireSpec(v1.(effects := []), u.trigger) == w;
    assert w.isAlive == v1.isAlive;
    assert [] + [u.state] == [u.state];
    assert UpdateEffectsSpec(v1, dt) == PassSpec(v1.(effects := []), [e], 0, [], true, dt);
    assert UpdateEffectsSpec(v1, dt) == PassSpec(w, [e], 1, [u.state], true, dt);
    var back := [Fresh(Buff(s, -amount), 0.0)];
    assert w.effects == back;
    assert w.Strip() == v.Strip() by {
      assert w.Stat(s) == v.Stat(s);
    }
    assert Active([u.state] + back) == [] by {
      ActiveOfInactive([u.state] + back);
    }
  }

  /** A debuff that runs out within one pass gives back exactly what it took: the agent is as before. */
  lemma DebuffExpires(v: AgentView, s: StatType, amount: real, duration: real, dt: real)
    requires v.effects == [] && dt >= duration
    ensures UpdateEffectsSpec(ApplyDebuffSpec(v, s, amount, duration), dt) == v
  {
    var v1 := ApplyDebuffSpec(v, s, amount, duration);
    var e := Fresh(Debuff(s, amount), duration);
    assert v1.effects == [e];
    var u := Update(e, dt);
    assert u.trigger == Reapply(s, amount);
    var w := ApplyBuffSpec(v1.(effects := []), s, amount, 0.0);
    assert FireSpec(v1.(effects := []), u.trigger) == w;
    assert w.isAlive == v1.isAlive;
    assert [] + [u.state] == [u.state];
    assert UpdateEffectsSpec(v1, dt) == PassSpec(v1.(effects := []), [e], 0, [], true, dt);
    assert UpdateEffectsSpec(v1, dt) == PassSpec(w, [e], 1, [u.state], true, dt);
    var back := [Fresh(Buff(s, amount), 0.0)];
    assert w.effects == back;
    assert w.Strip() == v.Strip() by {
      assert w.Stat(s) == v.Stat(s);
    }
    assert Active([u.state] + back) == [] by {
      ActiveOfInactive([u.state] + back);
    }
  }

  /** The agent of the scenario below: 5 health left, a lethal damage-over-time entry, then a heal-over-time entry. */
  function Doomed(): AgentView
  {
    AgentView(100.0, 10.0, 0.0, 10.0, 5.0, 10.0, 0.0, 10.0, 0.0, true,
              [Fresh(EffectKind.DamageOverTime(10.0, 1.0), 5.0), Fresh(EffectKind.HealOverTime(20.0, 1.0), 5.0)],
              [], true)
  }

  /** One step of the pass, unfolded. */
  lemma PassUnfold(v: AgentView, snap: seq<EffectState>, k: nat, front: seq<EffectState>, attached: bool, dt: real)
    requires k < |snap|
    ensures var u := Update(snap[k], dt);
            var w := FireSpec(v, u.trigger);
            PassSpec(v, snap, k, front, attached, dt)
              == PassSpec(w, snap, k + 1, front + [u.state], attached && !(v.isAlive && !w.isAlive), dt)
  {
  }

  lemma DoomedFirstStep()
    ensures var v := Doomed();
            PassSpec(v.(effects := []), v.effects, 0, [], true, 1.0)
              == PassSpec(v.(effects := [], currentHealth := 0.0, isAlive := false), v.effects, 1,
                          [Update(v.effects[0], 1.0).state], false, 1.0)
  {
    var v := Doomed();
    var u0 := Update(v.effects[0], 1.0);
    assert u0.trigger == DamageTick(10.0);
    var w := v.(effects := [], currentHealth := 0.0, isAlive := false);
    assert DamageTaken(10.0, 0.0) == 10.0;
    assert FireSpec(v.(effects := []), u0.trigger) == w;
    PassUnfold(v.(effects := []), v.effects, 0, [], true, 1.0);
    assert [] + [u0.state] == [u0.state];
  }

  lemma DoomedSecondStep(front: seq<EffectState>)
    ensures var v := Doomed();
            var w := v.(effects := [], currentHealth := 0.0, isAlive := false);
            PassSpec(w, v.effects, 1, front, false, 1.0) == w.(currentHealth := 20.0)
  {
    var v := Doomed();
    var w := v.(effects := [], currentHealth := 0.0, isAlive := false);
    var u1 := Update(v.effects[1], 1.0);
    assert u1.trigger == HealTick(20.0);
    assert HealSpec(w, 20.0) == w.(currentHealth := 20.0);
    assert PassSpec(w, v.effects, 1, front, false, 1.0)
        == PassSpec(w.(currentHealth := 20.0), v.effects, 2, front + [u1.state], false, 1.0);
    var none: seq<EffectState> := [];
    assert Active(none + none) == [];
  }

  /**
   * The pass updates a snapshot, so a heal-over-time entry after the
   * damage-over-time entry that kills the agent still heals it: the agent
   * ends the pass dead with positive health.
   */
  lemma KilledThenHealedInOnePass()
    ensures var r := UpdateEffectsSpec(Doomed(), 1.0);
            !r.isAlive && r.currentHealth == 20.0 && r.effects == []
  {
    DoomedFirstStep();
    DoomedSecondStep([Update(Doomed().effects[0], 1.0).state]);
  }

  /**
   * The health an agent reaches from h when, from snapshot position k on,
   * only the heal ticks of the updated entries act on it, each capped at
   * the maximum.
   */
  function HealsFrom(h: real, maxHealth: real, snap: seq<EffectState>, k: nat, dt: real): real
    requires k <= |snap|
    decreases |snap| - k
  {
    if k == |snap| then h
    else
      var t := Update(snap[k], dt).trigger;
      var h1 := if t.HealTick? then (if maxHealth < h + t.heal then maxHealth else h + t.heal) else h;
      HealsFrom(h1, maxHealth, snap, k + 1, dt)
  }

  /**
   * For a dead agent the rest of a pass is only healing: damage ticks and
   * re-applications leave its health alone, every heal tick still applies
   * `Heal`, and the agent stays dead.
   */
  lemma {:induction false} DeadPassOnlyHeals(v: AgentView, snap: seq<EffectState>, k: nat, front: seq<EffectState>, attached: bool, dt: real)
    requires k <= |snap| && !v.isAlive
    ensures var r := PassSpec(v, snap, k, front, attached, dt);
            !r.isAlive && r.maxHealth == v.maxHealth
            && r.currentHealth == HealsFrom(v.currentHealth, v.maxHealth, snap, k, dt)
    decreases |snap| - k
  {
    if k < |snap| {
      var u := Update(snap[k], dt);
      var w := FireSpec(v, u.trigger);
      var t := u.trigger;
      assert !w.isAlive && w.maxHealth == v.maxHealth;
      assert w.currentHealth
          == if t.HealTick? then (if v.maxHealth < v.currentHealth + t.heal then v.maxHealth else v.currentHealth + t.heal)
             else v.currentHealth;
      DeadPassOnlyHeals(w, snap, k + 1, front + [u.state], attached && !(v.isAlive && !w.isAlive), dt);
    }
  }

  /**
   * Whenever snapshot entry k kills the agent during a pass, each later heal
   * tick still heals the dead agent: it ends the pass dead with the health
   * those ticks give starting from 0.
   */
  lemma KilledMidPassStillHealed(v: AgentView, snap: seq<EffectState>, k: nat, front: seq<EffectState>, attached: bool, dt: real)
    requires k < |snap| && v.isAlive
    requires !FireSpec(v, Update(snap[k], dt).trigger).isAlive
    ensures var r := PassSpec(v, snap, k, front, attached, dt);
            !r.isAlive && r.currentHealth == HealsFrom(0.0, v.maxHealth, snap, k + 1, dt)
  {
    var u := Update(snap[k], dt);
    var w := FireSpec(v, u.trigger);
    assert w.currentHealth == 0.0 && w.maxHealth == v.maxHealth;
    DeadPassOnlyHeals(w, snap, k + 1, front + [u.state], false, dt);
  }

  /** The same for a whole `UpdateEffects` whose first effect kills the agent. */
  lemma KilledByFirstEffectStillHealed(v: AgentView, dt: real)
    requires |v.effects| > 0 && v.isAlive
    requires !FireSpec(v.(effects := []), Update(v.effects[0], dt).trigger).isAlive
    ensures var r := UpdateEffectsSpec(v, dt);
            !r.isAlive && r.currentHealth == HealsFrom(0.0, v.maxHealth, v.effects, 1, dt)
  {
    KilledMidPassStillHealed(v.(effects := []), v.effects, 0, [], true, dt);
  }
}
