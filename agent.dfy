/**
 * The mutable objects of Agent.cs and Effect.cs. An agent owns a list of
 * effect objects; each effect knows its target and, when updated, changes
 * its own timers and calls back into that target. Every method is proved
 * against the matching function of AgentModel.
 */
module Agents {
  import opened Kinds
  import opened Effects
  import opened AgentModel
  import opened AgentFacts

  /** The states of a list of effect objects, in list order. */
  function States(es: seq<Effect>): (r: seq<EffectState>)
    reads es
    ensures |r| == |es|
    ensures forall i :: 0 <= i < |es| ==> r[i] == es[i].State()
  {
    if es == [] then [] else [es[0].State()] + States(es[1..])
  }

  /** No effect object occurs twice. */
  predicate Distinct(es: seq<Effect>)
  {
    forall i, j :: 0 <= i < j < |es| ==> es[i] != es[j]
  }

  /** `RemoveAll(effect => !effect.IsActive)` on a list of effect objects. */
  function ActiveObjects(es: seq<Effect>): (r: seq<Effect>)
    reads es
    ensures forall e :: e in r ==> e in es
  {
    if es == [] then []
    else if es[0].IsActive() then [es[0]] + ActiveObjects(es[1..])
    else ActiveObjects(es[1..])
  }

  /** Removing the inactive objects removes exactly the inactive states. */
  lemma {:induction false} ActiveObjectsStates(es: seq<Effect>)
    ensures States(ActiveObjects(es)) == Active(States(es))
  {
    if es != [] {
      ActiveObjectsStates(es[1..]);
      var ss := States(es);
      assert ss[1..] == States(es[1..]);
      assert Active(ss) == (if ss[0].IsActive() then [ss[0]] else []) + Active(ss[1..]);
      if es[0].IsActive() {
        StatesConcat([es[0]], ActiveObjects(es[1..]));
      }
    }
  }

  /** Removing objects from a list without repeats leaves a list without repeats. */
  lemma {:induction false} ActiveObjectsDistinct(es: seq<Effect>)
    requires Distinct(es)
    ensures Distinct(ActiveObjects(es))
  {
    if es != [] {
      assert Distinct(es[1..]);
      ActiveObjectsDistinct(es[1..]);
      var tail := ActiveObjects(es[1..]);
      if es[0].IsActive() {
        assert es[0] !in es[1..];
        assert es[0] !in tail;
        var r := [es[0]] + tail;
        forall i, j | 0 <= i < j < |r|
          ensures r[i] != r[j]
        {
          if i == 0 {
            assert r[j] in tail;
          } else {
            assert r[i] == tail[i - 1] && r[j] == tail[j - 1];
          }
        }
      }
    }
  }

  lemma {:induction false} ActiveObjectsConcat(a: seq<Effect>, b: seq<Effect>)
    ensures ActiveObjects(a + b) == ActiveObjects(a) + ActiveObjects(b)
  {
    if a != [] {
      assert (a + b)[1..] == a[1..] + b;
      ActiveObjectsConcat(a[1..], b);
    } else {
      assert a + b == b;
    }
  }

  /** Removing the inactive objects from a list without repeats whose tail is all inactive: only the head's active objects stay. */
  lemma RemovalFacts(kept: seq<Effect>, back: seq<Effect>)
    requires Distinct(kept) && Active(States(back)) == []
    ensures var r := ActiveObjects(kept + back);
            && States(r) == Active(States(kept + back))
            && Distinct(r) && forall e :: e in r ==> e in kept
  {
    ActiveObjectsStates(kept + back);
    ActiveObjectsStates(back);
    ActiveObjectsConcat(kept, back);
    assert |ActiveObjects(back)| == 0;
    ActiveObjectsDistinct(kept);
    assert ActiveObjects(kept + back) == ActiveObjects(kept);
  }

  lemma StatesConcat(a: seq<Effect>, b: seq<Effect>)
    ensures States(a + b) == States(a) + States(b)
  {
  }

  /** A timed effect on one agent (the classes of Effect.cs, one class with a kind tag). */
  class Effect {
    const target: Agent
    const kind: EffectKind
    const duration: real
    var remainingTime: real
    var timeSinceLastTick: real

    /** The constructors of Effect.cs: the whole duration remains. */
    constructor (target: Agent, kind: EffectKind, duration: real)
      ensures this.target == target
      ensures State() == Fresh(kind, duration)
    {
      this.target := target;
      this.kind := kind;
      this.duration := duration;
      remainingTime := duration;
      timeSinceLastTick := 0.0;
    }

    function State(): EffectState
      reads this
    {
      EffectState(kind, duration, remainingTime, timeSinceLastTick)
    }

    predicate IsActive()
      reads this
      ensures IsActive() <==> State().IsActive()
    {
      remainingTime > 0.0
    }

    /**
     * `UpdateEffect` with the overrides of the subclasses: the timers move
     * as Update says, and the target receives exactly the trigger's call.
     */
    method UpdateEffect(dt: real)
      modifies this, target
      ensures State() == Update(old(State()), dt).state
      ensures target.Fired(Update(old(State()), dt).trigger)
    {
      remainingTime := remainingTime - dt;
      if remainingTime <= 0.0 {
        OnEffectEnd();
      }
      if kind.Ticks() {
        if !IsActive() {
          return;
        }
        timeSinceLastTick := timeSinceLastTick + dt;
        if timeSinceLastTick >= kind.tickInterval {
          if kind.DamageOverTime? {
            target.TakeDamage(kind.damagePerTick);
          } else {
            target.Heal(kind.healPerTick);
          }
          timeSinceLastTick := 0.0;
        }
      }
    }

    /** `OnEffectEnd`: a buff or debuff reverses itself through ApplyBuff; the ticking kinds do nothing. */
    method OnEffectEnd()
      modifies target
      ensures target.Fired(if kind.Ticks() then NoTrigger else Reapply(kind.stat, -Contribution(kind, kind.stat)))
    {
      match kind
      case Buff(s, a) => target.ApplyBuff(s, -a, 0.0);
      case Debuff(s, a) => target.ApplyBuff(s, a, 0.0);
      case _ =>
    }
  }

  /** `EffectFactory.CreateBuff`: a new buff for the target with its whole duration left, not attached to it. */
  method CreateBuff(s: StatType, amount: real, duration: real, target: Agent) returns (e: Effect)
    ensures fresh(e) && e.target == target && e.State() == Fresh(Buff(s, amount), duration)
  {
    e := new Effect(target, Buff(s, amount), duration);
  }

  /** `EffectFactory.CreateDebuff`: a new debuff for the target with its whole duration left, not attached to it. */
  method CreateDebuff(s: StatType, amount: real, duration: real, target: Agent) returns (e: Effect)
    ensures fresh(e) && e.target == target && e.State() == Fresh(Debuff(s, amount), duration)
  {
    e := new Effect(target, Debuff(s, amount), duration);
  }

  /** A position of the effect pass: the k-th snapshot entry, about to be updated by dt. */
  datatype Entry = Entry(snapshot: seq<Effect>, k: nat, dt: real, orig: seq<EffectState>,
                         front: seq<EffectState>, back: seq<Effect>, pv: AgentView, attached: bool)
  {
    /** What updating the entry's recorded state yields. */
    function Next(): Step
      requires k < |orig|
    {
      Update(orig[k], dt)
    }
  }

  /** A battle agent (Agent.cs); `isPlayer` tells the Player subclass from the Enemy one. */
  class Agent {
    const isPlayer: bool
    var maxHealth: real
    var attack: real
    var defense: real
    var speed: real
    var currentHealth: real
    var currentAttack: real
    var currentDefense: real
    var currentSpeed: real
    var actionTimer: real
    var isAlive: bool
    var activeEffects: seq<Effect>
    var availableActions: seq<ActionType>
    var preferHealingAllies: bool

    /** A freshly added component after `Awake`: zero stats, alive, nothing attached. */
    constructor (isPlayer: bool)
      ensures this.isPlayer == isPlayer
      ensures View() == AgentView(0.0, 0.0, 0.0, 0.0, 0.0, 0.0, 0.0, 0.0, 0.0, true, [], [], true)
      ensures activeEffects == []
    {
      this.isPlayer := isPlayer;
      maxHealth, attack, defense, speed := 0.0, 0.0, 0.0, 0.0;
      currentHealth, currentAttack, currentDefense, currentSpeed := 0.0, 0.0, 0.0, 0.0;
      actionTimer := 0.0;
      isAlive := true;
      activeEffects := [];
      availableActions := [];
      preferHealingAllies := true;
    }

    /** The agent's fields with its effect list left out. */
    function Core(): AgentView
      reads this
    {
      AgentView(maxHealth, attack, defense, speed, currentHealth, currentAttack, currentDefense, currentSpeed,
                actionTimer, isAlive, [], availableActions, preferHealingAllies)
    }

    /** The agent's fields, its effects' states included. */
    function View(): AgentView
      reads this, activeEffects
    {
      Core().(effects := States(activeEffects))
    }

    /** The agent invariant, and every attached effect is this agent's own, attached once. */
    ghost predicate Inv()
      reads this, activeEffects
    {
      && InvV(View())
      && (forall e :: e in activeEffects ==> e.target == this)
      && Distinct(activeEffects)
    }

    /**
     * `ActionReadiness`: the share of the action bar filled, the timer over
     * 100 / speed. At speed 0 the float division gives timer / infinity, 0.
     */
    function ActionReadiness(): (r: real)
      reads this
      ensures r == actionTimer * currentSpeed / 100.0
    {
      if currentSpeed == 0.0 then 0.0 else actionTimer / (100.0 / currentSpeed)
    }

    /** The effect list after an effect's trigger: cleared on a death, one entry longer after a re-application. */
    twostate predicate Fired(t: Trigger)
      reads this, activeEffects
    {
      && Core() == FireSpec(old(Core()), t).Strip()
      && (if old(isAlive) && !isAlive then activeEffects == []
          else if t.Reapply? then
            && |activeEffects| == |old(activeEffects)| + 1
            && activeEffects == old(activeEffects) + [activeEffects[|old(activeEffects)|]]
            && fresh(activeEffects[|old(activeEffects)|])
            && activeEffects[|old(activeEffects)|].target == this
            && activeEffects[|old(activeEffects)|].State() == Fresh(Buff(t.stat, t.amount), 0.0)
          else activeEffects == old(activeEffects))
    }

    /**
     * The state of the effect pass after k snapshot entries: `pv` is the
     * value-level pass state, whose list holds the entries added during the
     * pass (`back`); `attached` says the snapshot is still in the live list.
     */
    ghost predicate PassState(snapshot: seq<Effect>, k: nat, orig: seq<EffectState>, front: seq<EffectState>,
                              back: seq<Effect>, pv: AgentView, attached: bool)
      reads this, snapshot, back
    {
      && k <= |snapshot| && |orig| == |snapshot| && |front| == k
      && activeEffects == (if attached then snapshot else []) + back
      && (forall e :: e in snapshot ==> e.target == this)
      && Distinct(snapshot)
      && (forall i :: 0 <= i < k ==> snapshot[i].State() == front[i])
      && (forall i :: k <= i < |snapshot| ==> snapshot[i].State() == orig[i])
      && (forall b :: b in back ==> b.target == this && b !in snapshot)
      && Core() == pv.Strip()
      && States(back) == pv.effects
      && Active(pv.effects) == []
      && (attached && !pv.isAlive ==> k == |snapshot|)
      && (!attached ==> !pv.isAlive)
    }

    /** One iteration of the pass: the k-th snapshot entry is updated. */
    method UpdateEntry(snapshot: seq<Effect>, k: nat, dt: real, ghost orig: seq<EffectState>,
                       ghost front: seq<EffectState>, ghost back: seq<Effect>, ghost pv: AgentView,
                       ghost attached: bool)
      returns (ghost back': seq<Effect>, ghost pv': AgentView, ghost attached': bool)
      requires k < |snapshot| && PassState(snapshot, k, orig, front, back, pv, attached)
      modifies this, snapshot[k]
      ensures pv' == FireSpec(pv, Update(orig[k], dt).trigger)
      ensures attached' == (attached && !(pv.isAlive && !pv'.isAlive))
      ensures PassState(snapshot, k + 1, orig, front + [Update(orig[k], dt).state], back', pv', attached')
    {
      var e := snapshot[k];
      ghost var u := Update(orig[k], dt);
      pv' := FireSpec(pv, u.trigger);
      attached' := attached && !(pv.isAlive && !pv'.isAlive);
      assert forall b :: b in back ==> b != e;
      ghost var before := activeEffects;
      ghost var p := Entry(snapshot, k, dt, orig, front, back, pv, attached);
      e.UpdateEffect(dt);
      if attached && pv.isAlive && !pv'.isAlive {
        DeathStep(p);
        back' := [];
      } else if u.trigger.Reapply? {
        ReapplyStep(p);
        back' := back + activeEffects[|before|..];
      } else {
        PlainStep(p);
        back' := back;
      }
    }

    /** What `UpdateEffect` on the k-th snapshot entry leaves behind, before and after. */
    twostate predicate EntryUpdated(p: Entry)
      reads this, activeEffects, p.snapshot, p.back
    {
      && p.k < |p.snapshot| && |p.orig| == |p.snapshot|
      && old(PassState(p.snapshot, p.k, p.orig, p.front, p.back, p.pv, p.attached))
      && Fired(p.Next().trigger)
      && p.snapshot[p.k].State() == p.Next().state
      && (forall i :: 0 <= i < |p.snapshot| && i != p.k ==> p.snapshot[i].State() == old(p.snapshot[i].State()))
      && States(p.back) == old(States(p.back))
    }

    /** The entry's trigger killed the agent while the snapshot was attached. */
    twostate lemma DeathStep(p: Entry)
      requires EntryUpdated(p)
      requires p.attached && p.pv.isAlive && !FireSpec(p.pv, p.Next().trigger).isAlive
      ensures PassState(p.snapshot, p.k + 1, p.orig, p.front + [p.Next().state], [],
                        FireSpec(p.pv, p.Next().trigger), false)
    {
      FireIgnoresEffects(p.pv, p.Next().trigger);
      FireFacts(p.pv, p.Next().trigger);
      assert Core() == FireSpec(p.pv, p.Next().trigger).Strip();
    }

    /** The entry expired and re-applied its inverse modifier, appending one entry. */
    twostate lemma ReapplyStep(p: Entry)
      requires EntryUpdated(p)
      requires p.Next().trigger.Reapply?
      requires !(p.attached && p.pv.isAlive && !FireSpec(p.pv, p.Next().trigger).isAlive)
      ensures |old(activeEffects)| <= |activeEffects|
      ensures PassState(p.snapshot, p.k + 1, p.orig, p.front + [p.Next().state],
                        p.back + activeEffects[|old(activeEffects)|..],
                        FireSpec(p.pv, p.Next().trigger), p.attached)
    {
      FireIgnoresEffects(p.pv, p.Next().trigger);
      FireFacts(p.pv, p.Next().trigger);
      var b := activeEffects[|old(activeEffects)|];
      assert activeEffects[|old(activeEffects)|..] == [b];
      assert b !in p.snapshot;
      StatesConcat(p.back, [b]);
    }

    /** The entry neither killed the agent nor added an entry. */
    twostate lemma PlainStep(p: Entry)
      requires EntryUpdated(p)
      requires !p.Next().trigger.Reapply?
      requires !(p.attached && p.pv.isAlive && !FireSpec(p.pv, p.Next().trigger).isAlive)
      ensures PassState(p.snapshot, p.k + 1, p.orig, p.front + [p.Next().state], p.back,
                        FireSpec(p.pv, p.Next().trigger), p.attached)
    {
      FireIgnoresEffects(p.pv, p.Next().trigger);
      FireFacts(p.pv, p.Next().trigger);
      assert activeEffects == old(activeEffects);
    }

    /** The second pass of `UpdateEffects`: `RemoveAll(effect => !effect.IsActive)`. */
    method RemoveInactive(ghost kept: seq<Effect>, ghost back: seq<Effect>)
      requires activeEffects == kept + back
      requires Distinct(kept) && forall e :: e in kept ==> e.target == this
      requires Active(States(back)) == []
      modifies this
      ensures View() == old(View()).(effects := Active(old(View()).effects))
      ensures Distinct(activeEffects) && forall e :: e in activeEffects ==> e.target == this
    {
      var r := ActiveObjects(activeEffects);
      RemovalFacts(kept, back);
      activeEffects := r;
    }

    /**
     * `UpdateEffects`: a snapshot of the list is taken, every snapshot entry
     * is updated in order (each may call back into this agent, even after it
     * has died), then the inactive entries are removed.
     */
    method UpdateEffects(dt: real)
      requires Inv()
      modifies this, activeEffects
      ensures Inv()
      ensures View() == UpdateEffectsSpec(old(View()), dt)
    {
      var snapshot := activeEffects;
      ghost var v0 := View();
      ghost var orig := States(snapshot);
      ghost var front: seq<EffectState> := [];
      ghost var back: seq<Effect> := [];
      ghost var pv := v0.(effects := []);
      ghost var attached := true;
      var k := 0;
      while k < |snapshot|
        invariant PassState(snapshot, k, orig, front, back, pv, attached)
        invariant PassSpec(pv, orig, k, front, attached, dt) == UpdateEffectsSpec(v0, dt)
        invariant orig == v0.effects
      {
        PassUnfold(pv, orig, k, front, attached, dt);
        ghost var u := Update(orig[k], dt);
        back, pv, attached := UpdateEntry(snapshot, k, dt, orig, front, back, pv, attached);
        front := front + [u.state];
        k := k + 1;
      }
      FinishPass(snapshot, dt, v0, front, back, pv, attached);
    }

    /** The end of the first pass of `UpdateEffects`, followed by its second pass. */
    method FinishPass(ghost snapshot: seq<Effect>, ghost dt: real, ghost v0: AgentView,
                      ghost front: seq<EffectState>, ghost back: seq<Effect>, ghost pv: AgentView,
                      ghost attached: bool)
      requires InvV(v0)
      requires PassState(snapshot, |snapshot|, v0.effects, front, back, pv, attached)
      requires PassSpec(pv, v0.effects, |snapshot|, front, attached, dt) == UpdateEffectsSpec(v0, dt)
      modifies this
      ensures Inv()
      ensures View() == UpdateEffectsSpec(v0, dt)
    {
      ghost var kept := if attached then snapshot else [];
      StatesConcat(kept, back);
      assert States(snapshot) == front;
      RemoveInactive(kept, back);
      assert View() == UpdateEffectsSpec(v0, dt);
      UpdateEffectsKeepsInv(v0, dt);
    }

    method Initialize()
      modifies this
      ensures View() == InitializeSpec(old(View())) && activeEffects == []
    {
      ResetStats();
      isAlive := true;
      actionTimer := 0.0;
      activeEffects := [];
    }

    method ResetStats()
      modifies this
      ensures View() == ResetStatsSpec(old(View())) && activeEffects == old(activeEffects)
    {
      currentHealth := maxHealth;
      currentAttack := attack;
      currentDefense := defense;
      currentSpeed := speed;
    }

    method TakeDamage(amount: real)
      modifies this
      ensures View() == TakeDamageSpec(old(View()), amount)
      ensures activeEffects == if old(isAlive) && !isAlive then [] else old(activeEffects)
    {
      if !isAlive {
        return;
      }
      if currentDefense + 100.0 == 0.0 {
        // defense / (defense + 100) divides by zero here: a positive hit kills as in
        // the source; a hit of 0 or less changes nothing (the source's health becomes NaN or +infinity)
        if amount > 0.0 {
          currentHealth := 0.0;
          Die();
        }
        return;
      }
      var damageReduction := currentDefense / (currentDefense + 100.0);
      var mitigatedAmount := amount * damageReduction;
      var actualDamage := amount - mitigatedAmount;
      currentHealth := currentHealth - actualDamage;
      if currentHealth <= 0.0 {
        currentHealth := 0.0;
        Die();
      }
    }

    method Heal(amount: real)
      modifies this
      ensures View() == HealSpec(old(View()), amount) && activeEffects == old(activeEffects)
    {
      currentHealth := if maxHealth < currentHealth + amount then maxHealth else currentHealth + amount;
    }

    method ApplyStatModifier(s: StatType, amount: real)
      modifies this
      ensures View() == ModifyStat(old(View()), s, amount) && activeEffects == old(activeEffects)
    {
      match s
      case Attack => currentAttack := currentAttack + amount;
      case Defense => currentDefense := currentDefense + amount;
      case Speed => currentSpeed := currentSpeed + amount;
    }

    /** The last call attached one new effect object, owned by this agent. */
    twostate predicate AttachedOne()
      reads this
    {
      && |activeEffects| == |old(activeEffects)| + 1
      && activeEffects[..|old(activeEffects)|] == old(activeEffects)
      && fresh(activeEffects[|old(activeEffects)|])
      && activeEffects[|old(activeEffects)|].target == this
    }

    method Attach(kind: EffectKind, duration: real)
      modifies this
      ensures AttachedOne()
      ensures View() == old(View()).(effects := old(View()).effects + [Fresh(kind, duration)])
    {
      ghost var before := States(activeEffects);
      var e := new Effect(this, kind, duration);
      assert States(activeEffects) == before;
      StatesConcat(activeEffects, [e]);
      activeEffects := activeEffects + [e];
      assert States(activeEffects) == before + [Fresh(kind, duration)];
    }

    method ApplyBuff(s: StatType, amount: real, duration: real)
      modifies this
      ensures AttachedOne()
      ensures View() == ApplyBuffSpec(old(View()), s, amount, duration)
    {
      Attach(Buff(s, amount), duration);
      ApplyStatModifier(s, amount);
    }

    method ApplyDebuff(s: StatType, amount: real, duration: real)
      modifies this
      ensures AttachedOne()
      ensures View() == ApplyDebuffSpec(old(View()), s, amount, duration)
    {
      Attach(Debuff(s, amount), duration);
      ApplyStatModifier(s, -amount);
    }

    method ApplyDamageOverTime(damagePerTick: real, tickInterval: real, duration: real)
      modifies this
      ensures AttachedOne()
      ensures View() == ApplyDamageOverTimeSpec(old(View()), damagePerTick, tickInterval, duration)
    {
      Attach(EffectKind.DamageOverTime(damagePerTick, tickInterval), duration);
    }

    method ApplyHealOverTime(healPerTick: real, tickInterval: real, duration: real)
      modifies this
      ensures AttachedOne()
      ensures View() == ApplyHealOverTimeSpec(old(View()), healPerTick, tickInterval, duration)
    {
      Attach(EffectKind.HealOverTime(healPerTick, tickInterval), duration);
    }

    method Die()
      modifies this
      ensures View() == DieSpec(old(View())) && activeEffects == []
    {
      isAlive := false;
      activeEffects := [];
    }
  }
}
