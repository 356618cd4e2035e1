# RPG battle simulation — a Dafny model

This project models the deterministic battle simulation of a Unity RPG
battle system and proves properties of it. Two parties of agents fight: the
player party and the enemy party. Each agent has base and current stats
(health, attack, defense, speed), an action bar that fills with its speed,
and a list of timed effects (buffs, debuffs, damage over time, heal over
time). An agent whose bar reaches 100 takes one action. The action is chosen
by a heuristic that players and enemies share: heal a wounded ally, debuff
the opponents when the party is in danger, otherwise a uniform pick. A battle
manager moves a battle from idle to active to over, raises its start, end,
victory and defeat events, and scales every frame by a battle-speed
multiplier. A scene controller fills each party's configuration list
cyclically up to the party size, and a preset asset supplies six sample
configurations.

The model has two layers:

- **Value level.** Datatypes and functions: `AgentModel`, `Effects`,
  `PartyModel`, `BattleModel`, `FactionModel`, `SimulationModel` and
  `ConfigModel`. One function per operation gives the state after the call.
  The lemmas about these functions are the properties the battle relies on.
- **Object level.** Classes whose methods change their fields in place:
  - `Agents.Effect` and `Agents.Agent`;
  - `Parties.Party`;
  - `Battles.BattleManager`;
  - `Configs.AgentConfig`;
  - `Actions.Action`;
  - `Scene.BattleSceneController`;
  - `Presets.DefaultAgentConfigs`;
  - `Randomness.Rng`.

  Each method is proved against the matching value-level function, applied
  to the object's record (`View()`, `Core()`, `Cores()`, `Snapshot()`, `Data()`).

There is no random number generator. The caller supplies the stream of draws
(`draws: seq<real>`) and the tie-breaks of the one unstable sort
(`ties: seq<nat>`), and every consumer reads the next draw in program order.
The battle manager's four C# events become an appended log of `BattleEvent`s. Floats
become `real`. Agents are named by their party (`side`: true for the player
party) and their position in it.

## Model

| member | source | states |
|---|---|---|
| Kinds.StatOf | Assets/Scripts/Player.cs:135 | the cast `(StatType)k` of a choice in [0, 3) gives Attack, Defense, Speed in declaration order, and each stat for exactly one k |
| Randomness.Pick | Assets/Scripts/Player.cs:81 | `Random.Range(0, n)` from a draw: always an index below n, and floor(v·n) for a draw in [0, 1) |
| Randomness.PickReachesEveryIndex | Assets/Scripts/Player.cs:81 | every index of [0, n) is the pick of some draw in [0, 1), so the pick is onto |
| Randomness.Rng.Value | Assets/Scripts/Player.cs:64 | `Random.value` returns the next draw and advances the cursor by one |
| Randomness.Rng.Range | Assets/Scripts/Battle/Party.cs:117 | `Random.Range(0, n)` consumes one draw and returns an index below n |
| Effects.Fresh | Assets/Scripts/Effect.cs:16-25 | a new effect keeps its kind and duration, has the whole duration left, and is active iff its duration is positive |
| Effects.Update | Assets/Scripts/Effect.cs:27-187 | one update lowers the remaining time by dt and keeps kind and duration; a buff that runs out asks its target to re-apply minus its amount to the same stat, and a debuff plus its amount, with no request while still active; a damage- or heal-over-time effect does nothing once inactive, otherwise its tick time grows by dt and on reaching the interval it fires exactly one `TakeDamage(perTick)` or `Heal(perTick)` and restarts at 0 |
| Effects.Active | Assets/Scripts/Agent.cs:106 | `RemoveAll(e => !e.IsActive)` keeps exactly the active entries and never lengthens the list |
| Effects.ActiveConcat | Assets/Scripts/Agent.cs:106 | the removal distributes over concatenation |
| Effects.ActiveKeepsNetModifier | Assets/Scripts/Agent.cs:106 | dropping inactive entries that add nothing leaves the net stat modifier as it was |
| Effects.NetModifierConcat | Assets/Scripts/Agent.cs:143-163 | the net stat modifier of a list is the sum over its parts |
| Effects.NoModifiersNetZero | Assets/Scripts/Agent.cs:165-175 | a list of damage- and heal-over-time effects adds nothing to any stat |
| Effects.ActiveOfInactive | Assets/Scripts/Effect.cs:16 | a list of inactive entries filters away to nothing |
| Effects.ActiveOfActive | Assets/Scripts/Effect.cs:16 | a list of active entries is left whole by the filter |
| AgentModel.ResetStatsSpec | Assets/Scripts/Agent.cs:62-68 | health equals the maximum, every current stat equals its base, and nothing else changes |
| AgentModel.InitializeSpec | Assets/Scripts/Agent.cs:53-60 | current stats at base, health at maximum, alive, timer 0, no effects; actions and preference kept; the invariant holds afterwards |
| AgentModel.DieSpec | Assets/Scripts/Agent.cs:193-202 | dead with an empty effect list; every stat is left as it is, so no buff is reversed |
| AgentModel.TakeDamageSpec | Assets/Scripts/Agent.cs:111-135 | a dead agent is unchanged; otherwise, at any defense but −100, health drops by `amount - amount*def/(def+100)`, the agent dies iff that reaches 0, with health floored at 0 and effects cleared; only health, aliveness and effects change |
| AgentModel.HealSpec | Assets/Scripts/Agent.cs:137-141 | health becomes min(max, health + amount), so it never exceeds the maximum; there is no alive guard and nothing else changes |
| AgentModel.ModifyStat | Assets/Scripts/Agent.cs:177-191 | the named current stat moves by the amount; the other stats and fields stay |
| AgentModel.ApplyBuffSpec | Assets/Scripts/Agent.cs:143-152 | exactly one fresh buff is appended, the named stat rises by the amount at once, the others stay, and the stat accounting is kept |
| AgentModel.ApplyDebuffSpec | Assets/Scripts/Agent.cs:154-163 | exactly one fresh debuff is appended, the named stat falls by the amount, the others stay, and the accounting is kept |
| AgentModel.ApplyDamageOverTimeSpec | Assets/Scripts/Agent.cs:165-169 | exactly one fresh damage-over-time entry is appended and the accounting is kept |
| AgentModel.ApplyHealOverTimeSpec | Assets/Scripts/Agent.cs:171-175 | exactly one fresh heal-over-time entry is appended and the accounting is kept |
| AgentModel.UpdatedStates | Assets/Scripts/Agent.cs:96-102 | the first pass updates every snapshot entry once, in order |
| AgentFacts.DamageTakenScales | Assets/Scripts/Agent.cs:114-118 | the mitigated damage equals amount · 100 / (defense + 100) |
| AgentFacts.DamageTakenBounds | Assets/Scripts/Agent.cs:114-118 | with non-negative defense a hit is never amplified, and a positive hit always does some damage |
| AgentFacts.MoreDefenseLessDamage | Assets/Scripts/Agent.cs:114-118 | more defense means strictly less damage from a positive hit |
| AgentFacts.HundredDefenseHalves | Assets/Scripts/Agent.cs:116 | example: a defense of 100 halves every hit |
| AgentFacts.TakeDamageKeepsInv | Assets/Scripts/Agent.cs:111-135 | damage keeps the agent invariant: positive maximum, no effects on the dead, stats accounted for by the effects |
| AgentFacts.HealKeepsInv | Assets/Scripts/Agent.cs:137-141 | healing keeps the invariant |
| AgentFacts.ApplyKeepsInv | Assets/Scripts/Agent.cs:143-191 | attaching any of the four effects to a living agent keeps the invariant |
| AgentFacts.FireFacts | Assets/Scripts/Effect.cs:56-187 | a trigger never revives an agent and adds only inactive entries (duration-0 reversals) |
| AgentFacts.FireIgnoresEffects | Assets/Scripts/Effect.cs:56-187 | what a trigger does to the agent's fields does not depend on its effect list |
| AgentFacts.FireEffects | Assets/Scripts/Effect.cs:62 | a trigger clears the list on a death and appends one expired buff on a re-application; otherwise the list stays |
| AgentFacts.FireStat | Assets/Scripts/Effect.cs:56-108 | a trigger that leaves the agent alive moves a current stat only by the re-applied amount, and no base stat |
| AgentFacts.StepAccounted | Assets/Scripts/Agent.cs:99-102 | one updated snapshot entry keeps the mid-pass stat accounting |
| AgentFacts.PassKeepsInv | Assets/Scripts/Agent.cs:93-107 | the rest of the effect pass from any position keeps the invariant |
| AgentFacts.UpdateEffectsKeepsInv | Assets/Scripts/Agent.cs:93-107 | the effect pass keeps the invariant: expiring buffs and debuffs give back exactly what they added |
| AgentFacts.PassNoRevival | Assets/Scripts/Agent.cs:93-107 | the rest of the pass never revives a dead agent |
| AgentFacts.PassListing | Assets/Scripts/Agent.cs:93-107 | the list after the rest of the pass is the updated snapshot entries still active, or none after a death |
| AgentFacts.UpdateEffectsList | Assets/Scripts/Agent.cs:93-107 | after the pass an agent holds exactly its updated snapshot entries that are still active, in order, and none if it died; entries added during the pass never survive |
| AgentFacts.PassKeepsFixed | Assets/Scripts/Agent.cs:93-107 | the rest of the pass never changes base stats, timer, actions or preference |
| AgentFacts.UpdateEffectsKeepsFixed | Assets/Scripts/Agent.cs:93-107 | the effect pass changes only health, current stats, aliveness and the list |
| AgentFacts.UpdateEffectsNoRevival | Assets/Scripts/Agent.cs:93-107 | the dead stay dead through the effect pass |
| AgentFacts.UpdateEffectsOfNone | Assets/Scripts/Agent.cs:93-107 | an agent without effects is left exactly as it was |
| AgentFacts.StatsAtBase | Assets/Scripts/Agent.cs:165-175 | with only damage- and heal-over-time effects attached, a living agent's stats equal its base stats |
| AgentFacts.BuffExpires | Assets/Scripts/Effect.cs:56-71 | a buff that runs out within one pass leaves the agent exactly as before it was applied, its reversal entry pruned in the same pass |
| AgentFacts.DebuffExpires | Assets/Scripts/Effect.cs:93-108 | the same for a debuff, which is reversed by re-applying plus its amount |
| AgentFacts.DoomedFirstStep | Assets/Scripts/Agent.cs:99-102 | example: in the `Doomed` scenario, the first entry's damage tick kills the agent |
| AgentFacts.DoomedSecondStep | Assets/Scripts/Agent.cs:99-102 | example: in the `Doomed` scenario, the second entry's heal tick still heals the dead agent |
| AgentFacts.KilledThenHealedInOnePass | Assets/Scripts/Agent.cs:93-107 | example: in the `Doomed` scenario, a heal-over-time entry after a lethal damage-over-time entry still heals: the agent ends dead with positive health |
| AgentFacts.DeadPassOnlyHeals | Assets/Scripts/Agent.cs:96-102 | for any dead agent, the rest of an effect pass leaves it dead with its maximum, and its health is what the remaining heal ticks give, each capped at the maximum (`Heal` has no alive guard, `TakeDamage` ignores the dead) |
| AgentFacts.KilledMidPassStillHealed | Assets/Scripts/Agent.cs:93-107 | whenever snapshot entry k kills a living agent, the pass ends with it dead and healed from 0 by every later heal tick of the snapshot |
| AgentFacts.KilledByFirstEffectStillHealed | Assets/Scripts/Agent.cs:93-107 | the same for a whole `UpdateEffects` whose first effect kills the agent |
| Agents.States | Assets/Scripts/Agent.cs:28 | the states of a list of effect objects, one per object, in order |
| Agents.ActiveObjects | Assets/Scripts/Agent.cs:106 | `RemoveAll` on effect objects keeps only objects of the list |
| Agents.ActiveObjectsStates | Assets/Scripts/Agent.cs:106 | removing the inactive objects removes exactly the inactive states |
| Agents.ActiveObjectsDistinct | Assets/Scripts/Agent.cs:106 | removal keeps a list free of repeats |
| Agents.ActiveObjectsConcat | Assets/Scripts/Agent.cs:106 | removal distributes over concatenation |
| Agents.RemovalFacts | Assets/Scripts/Agent.cs:106 | after the pass only kept active objects remain, with the right states and no repeats |
| Agents.StatesConcat | Assets/Scripts/Agent.cs:28 | states distribute over concatenation |
| Agents.CreateBuff | Assets/Scripts/Effect.cs:204-208 | the factory returns a new buff for the target with its whole duration left, without attaching it |
| Agents.CreateDebuff | Assets/Scripts/Effect.cs:210-214 | the same for a debuff |
| Agents.Effect.constructor | Assets/Scripts/Effect.cs:20-25 | target, kind and duration stored; the whole duration remains and no tick time has passed |
| Agents.Effect.IsActive | Assets/Scripts/Effect.cs:16 | active iff time remains |
| Agents.Effect.UpdateEffect | Assets/Scripts/Effect.cs:27-35 | the timers move as `Effects.Update` says and the target receives exactly the trigger's call |
| Agents.Effect.OnEffectEnd | Assets/Scripts/Effect.cs:56-71 | a buff calls `ApplyBuff(stat, -amount, 0)` on its target, a debuff `ApplyBuff(stat, +amount, 0)` (Effect.cs:93-108), the ticking kinds nothing |
| Agents.Agent.constructor | Assets/Scripts/Agent.cs:47-51 | a freshly added component: zero stats, alive, nothing attached |
| Agents.Agent.ActionReadiness | Assets/Scripts/Agent.cs:37 | the share of the bar filled is timer · speed / 100, for every speed: at speed 0 it is 0, as the float division timer / (100 / 0) gives |
| Agents.Agent.Initialize | Assets/Scripts/Agent.cs:53-60 | the agent becomes `InitializeSpec` of what it was, with its effect list emptied |
| Agents.Agent.ResetStats | Assets/Scripts/Agent.cs:62-68 | the agent becomes `ResetStatsSpec` of what it was |
| Agents.Agent.UpdateEffects | Assets/Scripts/Agent.cs:93-107 | the agent becomes `UpdateEffectsSpec` of what it was (every snapshot entry updated in order, each calling back into the agent, then the inactive ones removed), and its invariant is kept |
| Agents.Agent.UpdateEntry | Assets/Scripts/Agent.cs:99-102 | one loop iteration moves the pass state one entry on, as `PassSpec` does |
| Agents.Agent.DeathStep | Assets/Scripts/Agent.cs:99-102 | an entry whose trigger kills the agent leaves the pass with the list cleared |
| Agents.Agent.ReapplyStep | Assets/Scripts/Agent.cs:99-102 | an expiring modifier appends exactly one new entry to the live list |
| Agents.Agent.PlainStep | Assets/Scripts/Agent.cs:99-102 | any other entry leaves the live list as it was |
| Agents.Agent.RemoveInactive | Assets/Scripts/Agent.cs:106 | the live list loses exactly its inactive entries |
| Agents.Agent.FinishPass | Assets/Scripts/Agent.cs:104-107 | the end of the pass gives `UpdateEffectsSpec` and keeps the invariant |
| Agents.Agent.TakeDamage | Assets/Scripts/Agent.cs:111-135 | the agent becomes `TakeDamageSpec` of what it was; the effect list is cleared exactly on a death |
| Agents.Agent.Heal | Assets/Scripts/Agent.cs:137-141 | the agent becomes `HealSpec` of what it was |
| Agents.Agent.ApplyStatModifier | Assets/Scripts/Agent.cs:177-191 | the agent becomes `ModifyStat` of what it was |
| Agents.Agent.Attach | Assets/Scripts/Agent.cs:143-175 | one new effect object owned by the agent is appended |
| Agents.Agent.ApplyBuff | Assets/Scripts/Agent.cs:143-152 | one new object appended and the agent becomes `ApplyBuffSpec` of what it was |
| Agents.Agent.ApplyDebuff | Assets/Scripts/Agent.cs:154-163 | the same with `ApplyDebuffSpec` |
| Agents.Agent.ApplyDamageOverTime | Assets/Scripts/Agent.cs:165-169 | the same with `ApplyDamageOverTimeSpec` |
| Agents.Agent.ApplyHealOverTime | Assets/Scripts/Agent.cs:171-175 | the same with `ApplyHealOverTimeSpec` |
| Agents.Agent.Die | Assets/Scripts/Agent.cs:193-202 | the agent becomes `DieSpec` of what it was, its list emptied |
| ConfigModel.ApplyTo | Assets/Scripts/AgentConfig.cs:28-54 | base stats and the action list are the configuration's; the preference is the configuration's only for a Player; then health is full, stats are at base, and the agent is alive, idle and without effects |
| ConfigModel.InitializeIdempotent | Assets/Scripts/Battle/Party.cs:72-75 | initialising twice is initialising once, so the second `Initialize` of `CreateAgent` changes nothing |
| ConfigModel.BuiltFacts | Assets/Scripts/Battle/Party.cs:54-82 | a created agent is exactly its configuration, fully healed, at base stats, alive, idle and without effects, and keeps the invariant when its maximum is positive |
| ConfigModel.BuiltParty | Assets/Scripts/Battle/Party.cs:36-52 | one built agent per configuration, in configuration order |
| Configs.AgentConfig.constructor | Assets/Scripts/AgentConfig.cs:14-23 | a new asset holds health 100, attack 20, defense 10, speed 10, no actions and preference true |
| Configs.AgentConfig.ApplyToAgent | Assets/Scripts/AgentConfig.cs:28-54 | the agent becomes `ApplyTo` of the configuration and of what it was, with no effects; the action list is a copied value |
| Configs.DataOf | Assets/Scripts/Battle/Party.cs:15 | the records of a configuration list, one per entry, in order |
| Configs.DataUnchanged | Assets/Scripts/Battle/Party.cs:15 | configurations that were not written keep their records |
| PartyModel.AliveBelow | Assets/Scripts/Battle/Party.cs:142-153 | the alive list names only members of the party |
| PartyModel.AliveBelowFacts | Assets/Scripts/Battle/Party.cs:142-153 | the alive list holds exactly the living members, in increasing list order |
| PartyModel.HasAlive | Assets/Scripts/Battle/Party.cs:155-158 | true iff some member is alive |
| PartyModel.Choose | Assets/Scripts/Battle/Party.cs:112-119 | no choice iff there is no candidate, otherwise one of the candidates; one draw is consumed exactly when there is a candidate |
| PartyModel.RandomMember | Assets/Scripts/Battle/Party.cs:112-119 | none iff no member is alive, otherwise a living member |
| PartyModel.ChooseReaches | Assets/Scripts/Battle/Party.cs:117 | every candidate is chosen by some draw in [0, 1) |
| PartyModel.RandomMemberReachesAll | Assets/Scripts/Battle/Party.cs:112-119 | every living member is returned for some draw |
| PartyModel.LowestFrom | Assets/Scripts/Battle/Party.cs:129-137 | the running minimum stays a position of the alive list |
| PartyModel.LowestFromMinimal | Assets/Scripts/Battle/Party.cs:129-137 | the strict comparison keeps the first minimal position |
| PartyModel.LowestOfAlive | Assets/Scripts/Battle/Party.cs:121-140 | the first minimal position of the alive list is a living member of least fraction, and the first such member in list order |
| PartyModel.Lowest | Assets/Scripts/Battle/Party.cs:121-140 | none iff no member is alive; otherwise a living member whose fraction is at most every living member's, and strictly below every earlier living member's, so ties go to the first |
| PartyModel.LowestAlly | Assets/Scripts/BattleManager.cs:139-151 | the lowest member, or none when that is the caller itself, with no fallback to the second lowest |
| PartyModel.OthersBelow | Assets/Scripts/BattleManager.cs:153-187 | the ally list names only members of the party |
| PartyModel.OthersBelowFacts | Assets/Scripts/BattleManager.cs:153-187 | the ally list holds exactly the living members other than the caller, in order |
| PartyModel.RandomAlly | Assets/Scripts/BattleManager.cs:153-187 | none iff every other member is dead, otherwise a living member other than the caller |
| PartyModel.NeedyBelowFacts | Assets/Scripts/Player.cs:211-223 | the candidate list holds exactly the living members other than the caller below full health, in order |
| PartyModel.AtMost | Assets/Scripts/Player.cs:228 | the candidates whose fraction is at most a bound |
| PartyModel.MinPos | Assets/Scripts/Player.cs:228 | a position holding the least fraction |
| PartyModel.SortedHead | Assets/Scripts/Player.cs:228-230 | the head of the sorted list is a candidate of least fraction |
| PartyModel.NeedyAllyFacts | Assets/Scripts/Player.cs:211-231 | none iff no living ally other than the caller is below full health; otherwise such an ally, of least fraction among them |
| PartyModel.NeedyTieReachesAll | Assets/Scripts/Player.cs:228-230 | every candidate of least fraction is returned for some tie-break, so no order among equals is assumed |
| Parties.CoresOf | Assets/Scripts/Battle/Party.cs:23 | the records of the members, one per member, in order |
| Parties.AgentsAt | Assets/Scripts/BattleManager.cs:156-163 | the agents at the given positions, in order |
| Parties.AgentsAtAppend | Assets/Scripts/BattleManager.cs:161 | one more position adds its agent at the end |
| Parties.Party.constructor | Assets/Scripts/Battle/Party.cs:14-23 | an empty party of the given faction |
| Parties.Party.Cores | Assets/Scripts/Battle/Party.cs:34 | the members' records, one per member |
| Parties.Party.SetAgentConfigs | Assets/Scripts/Battle/Party.cs:17-20 | the configuration list becomes a copy of the given one and the members stay |
| Parties.Party.CreateAgent | Assets/Scripts/Battle/Party.cs:54-82 | a new agent that is a Player iff the party is the player party, equal to `Built` of its configuration, with nothing attached |
| Parties.Party.CreateAgents | Assets/Scripts/Battle/Party.cs:48-51 | one new agent per configuration, in configuration order, no two the same |
| Parties.Party.Initialize | Assets/Scripts/Battle/Party.cs:36-52 | the old members are dropped and the members become `BuiltParty` of the configurations: fresh, of the party's faction, without effects and without repeats |
| Parties.Party.HandleAgentDeath | Assets/Scripts/Battle/Party.cs:84-101 | the loop reports "all defeated" iff no member is alive |
| Parties.Party.GetAliveAgents | Assets/Scripts/Battle/Party.cs:142-153 | the living members in list order, as `AliveIndices` names them |
| Parties.Party.HasAliveAgents | Assets/Scripts/Battle/Party.cs:155-158 | true iff some member is alive |
| Parties.Party.GetRandomAgent | Assets/Scripts/Battle/Party.cs:112-119 | null when `RandomMember` finds none, otherwise the member it picks, with the same draw consumed |
| Parties.Party.GetLowestHealthAgent | Assets/Scripts/Battle/Party.cs:121-140 | null when no member is alive, otherwise the member `Lowest` names |
| Parties.LowestOfList | Assets/Scripts/Battle/Party.cs:126-139 | the running-minimum loop returns the member `Lowest` names |
| BattleModel.World.Opponents | Assets/Scripts/Player.cs:54-55 | the party opposite the actor's |
| BattleModel.World.With | Assets/Scripts/Player.cs:97 | one agent replaced, everything else kept |
| BattleModel.WorldPositive | Assets/Scripts/Battle/Party.cs:127 | with the invariant in force every fraction is defined |
| BattleModel.EndBattle | Assets/Scripts/BattleManager.cs:114-123 | inactive and over, with OnBattleEnd appended and nothing else changed |
| BattleModel.PartyDefeated | Assets/Scripts/BattleManager.cs:96-112 | ignored once over; otherwise player-party defeat raises defeat and enemy-party defeat victory, then the battle ends; afterwards it is over |
| BattleModel.DeathNotice | Assets/Scripts/Battle/Party.cs:84-101 | the defeat handler runs exactly when no member of the dying agent's party is alive |
| BattleModel.CheckEnd | Assets/Scripts/BattleManager.cs:70-94 | the battle ends iff either party has no living member, with no over guard |
| BattleModel.EndBattleWith | Assets/Scripts/BattleManager.cs:189-208 | OnBattleEnd and then exactly one of victory and defeat, with the flags untouched |
| BattleModel.EvolvesTrans | Assets/Scripts/BattleManager.cs:55-68 | the relation kept by every step of a tick composes |
| BattleModel.OutcomesAppend | Assets/Scripts/BattleManager.cs:50 | OnBattleStart resets the outcome count; an outcome event adds one |
| BattleModel.FlagsEvolve | Assets/Scripts/BattleManager.cs:70-123 | ending, defeat handling, death notices and the end check keep party sizes, maxima, the dead and the outcome guard |
| BattleModel.WithEvolves | Assets/Scripts/Player.cs:84-208 | replacing one agent by one that keeps its maximum, stays dead if dead and keeps the invariant is such a step |
| BattleModel.DamageEvolves | Assets/Scripts/Agent.cs:111-135 | a hit and the death notification it may cause is such a step |
| BattleModel.EffectsEvolves | Assets/Scripts/Agent.cs:93-107 | an effect pass and the notification it may cause is such a step |
| BattleModel.HealEvolves | Assets/Scripts/Agent.cs:137-141 | a heal is such a step |
| BattleModel.TimerEvolves | Assets/Scripts/Agent.cs:78-86 | a change of the action timer is such a step |
| BattleModel.BuffEvolves | Assets/Scripts/Agent.cs:143-152 | a buff on a living agent is such a step |
| BattleModel.DebuffEvolves | Assets/Scripts/Agent.cs:154-163 | a debuff on a living agent is such a step |
| BattleModel.DotEvolves | Assets/Scripts/Agent.cs:165-169 | a damage-over-time effect on a living agent is such a step |
| BattleModel.HotEvolves | Assets/Scripts/Agent.cs:171-175 | a heal-over-time effect on a living agent is such a step |
| BattleModel.DefeatAfterOverIgnored | Assets/Scripts/BattleManager.cs:98 | once over, a defeat notice changes nothing |
| BattleModel.FirstDefeatWins | Assets/Scripts/BattleManager.cs:96-112 | both parties wiped out in turn raise exactly one outcome, the first |
| Battles.AsFaction | Assets/Scripts/BattleManager.cs:127-137 | `agent as Player` / `as Enemy`: the agent when it is of that faction, else null |
| Battles.BattleManager.constructor | Assets/Scripts/BattleManager.cs:33 | idle, not over, speed 1, no events |
| Battles.BattleManager.StartBattle | Assets/Scripts/BattleManager.cs:35-53 | the battle becomes `SimulationModel.StartBattle` of what it was and of the configurations |
| Battles.BattleManager.InitializeParties | Assets/Scripts/BattleManager.cs:38-39 | both parties rebuilt from their configurations, the player party first |
| Battles.BattleManager.EndBattle | Assets/Scripts/BattleManager.cs:114-123 | the battle becomes `BattleModel.EndBattle` of what it was |
| Battles.BattleManager.HandlePartyDefeated | Assets/Scripts/BattleManager.cs:96-112 | the battle becomes `PartyDefeated` of what it was |
| Battles.BattleManager.NotifyDeath | Assets/Scripts/Battle/Party.cs:84-101 | the battle becomes `DeathNotice` of what it was |
| Battles.BattleManager.CheckBattleEndConditions | Assets/Scripts/BattleManager.cs:70-94 | the battle becomes `CheckEnd` of what it was |
| Battles.BattleManager.EndBattleWith | Assets/Scripts/BattleManager.cs:189-208 | the battle becomes `BattleModel.EndBattleWith` of what it was |
| Battles.BattleManager.SetBattleSpeed | Assets/Scripts/BattleManager.cs:210-221 | the battle becomes `SimulationModel.SetBattleSpeed` of what it was |
| Battles.BattleManager.GetBattleSpeed | Assets/Scripts/BattleManager.cs:223-226 | the speed last set |
| Battles.BattleManager.GetRandomMember | Assets/Scripts/BattleManager.cs:127-137 | the member `RandomMember` picks, cast to the faction, with the same draw consumed |
| Battles.BattleManager.GetLowestAlly | Assets/Scripts/BattleManager.cs:139-151 | the member `LowestAlly` names, or null |
| Battles.BattleManager.GetRandomAlly | Assets/Scripts/BattleManager.cs:153-187 | the member `RandomAlly` picks, or null, with the same draw consumed |
| Battles.LivingOthers | Assets/Scripts/BattleManager.cs:156-163 | the loop collects exactly the living members other than the caller, in order |
| Battles.BattleManager.FindAnyAllyNeedingHealing | Assets/Scripts/Player.cs:211-231 | the member `NeedyAlly` names for the tie-break, cast to the faction, or null when no other living member is below full health |
| Battles.BattleManager.HealTargetOf | Assets/Scripts/Player.cs:102-117 | the member `HealTarget` names for the tie-break, or null when there is none |
| Battles.HealTargetIn | Assets/Scripts/Core/Enemy.cs:114-128 | over one party, the member `HealTarget` names, or null |
| Battles.PickHealTarget | Assets/Scripts/Player.cs:106-110 | the lowest ally is kept unless missing or at full health; otherwise the needy ally is taken; together the member `HealTarget` names |
| Battles.HealTargetPick | Assets/Scripts/Player.cs:106-110 | with a usable lowest ally the target is that ally; otherwise it is the one `NeedyAlly` names |
| Battles.FirstNeedyOf | Assets/Scripts/Core/Enemy.cs:222-242 | over one party, the member `NeedyAlly` names, or null |
| Battles.FirstNeedy | Assets/Scripts/Player.cs:211-231 | over the member list, the member `NeedyAlly` names, or null |
| Battles.NeedyOthers | Assets/Scripts/Player.cs:214-223 | the loop collects exactly the living members other than the caller below full health, in order |
| Battles.LeastFirst | Assets/Scripts/Player.cs:228-230 | the head of the sorted candidates is the member `SortedHead` names for the tie-break |
| Battles.LeastFraction | Assets/Scripts/Player.cs:228 | the least fraction among the candidates |
| Battles.HoldingAtMost | Assets/Scripts/Player.cs:228 | the candidates whose fraction is at most a bound, in order |
| FactionModel.AnyBelow | Assets/Scripts/Player.cs:72 | true iff some member, dead or alive, the actor included, is below the fraction |
| FactionModel.ChooseAction | Assets/Scripts/Player.cs:47-82 | Attack with no draw when nothing is available; otherwise always one of the available actions, with at most three draws consumed |
| FactionModel.ChooseReachesEvery | Assets/Scripts/Player.cs:80-81 | every available action is chosen for some draws |
| FactionModel.HealRuleWins | Assets/Scripts/Player.cs:58-69 | Heal wins when Heal is available, the lowest ally other than the actor is below half health, and the draw is below 0.8 |
| FactionModel.DangerRuleWins | Assets/Scripts/Player.cs:72-78 | without the heal rule, DebuffEnemy wins when some member is below 0.3, DebuffEnemy is available and the draw is below 0.7 |
| FactionModel.DeadMemberMeansDanger | Assets/Scripts/Player.cs:72 | a dead member at 0 health puts the party in danger |
| FactionModel.PerformAttack | Assets/Scripts/Player.cs:84-98 | nothing without a living opponent; otherwise one living opponent takes the actor's current attack, and one draw is consumed |
| FactionModel.AttackReachesEvery | Assets/Scripts/Player.cs:84-98 | every living opponent is the one attacked for some draw |
| FactionModel.HealTarget | Assets/Scripts/Player.cs:100-118 | the lowest ally other than the actor unless there is none or it is at full health; otherwise the ally `NeedyAlly` finds; always a living ally other than the actor |
| FactionModel.NoHealTarget | Assets/Scripts/Player.cs:100-118 | there is no heal target exactly when the lowest ally is unusable and no living ally is below full health |
| FactionModel.PerformBuffAlly | Assets/Scripts/Player.cs:128-143 | nothing without a living ally; otherwise one living ally other than the actor gets 5 + 0.1·attack on some stat for 10 s, two draws are consumed, and flags, events and opponents stay |
| FactionModel.PerformDebuffEnemy | Assets/Scripts/Player.cs:145-160 | nothing without a living opponent; otherwise one gets 5 + 0.1·attack off some stat for 8 s, two draws are consumed, and the actor's party stays |
| FactionModel.PerformDamageOverTime | Assets/Scripts/Player.cs:162-177 | nothing without a living opponent; otherwise one gets 0.2·attack every 2 s for 8 s, one draw is consumed |
| FactionModel.AttackEvolves | Assets/Scripts/Player.cs:84-98 | an attack keeps the battle relation and never moves the draw cursor back |
| FactionModel.BuffAllyEvolves | Assets/Scripts/Player.cs:128-143 | the same for the ally buff |
| FactionModel.DebuffEnemyEvolves | Assets/Scripts/Player.cs:145-160 | the same for the debuff |
| FactionModel.DamageOverTimeEvolves | Assets/Scripts/Player.cs:162-177 | the same for damage over time |
| FactionModel.AlternativeEvolves | Assets/Scripts/Player.cs:234-258 | the same for the fallback chain DebuffEnemy, BuffAlly, DamageOverTime, Attack |
| FactionModel.HealOnEvolves | Assets/Scripts/Player.cs:100-126 | the same for a heal or its fallback |
| FactionModel.HotOnEvolves | Assets/Scripts/Player.cs:179-208 | the same for a heal over time or its fallback |
| FactionModel.PerformAlternative | Assets/Scripts/Player.cs:234-258 | the fallback tries DebuffEnemy, then BuffAlly, then DamageOverTime, whichever is first available, and attacks otherwise, whether or not Attack is available (Core/Enemy.cs:245-269 is the same) |
| FactionModel.PerformHeal | Assets/Scripts/Player.cs:100-126 | with a heal target, only that ally changes: its health becomes min(max, health + 0.8·attack); no draw is consumed and the opponents, flags and log stay. Without a target the result is the fallback (Core/Enemy.cs:111-137 is the same) |
| FactionModel.PerformHealOverTime | Assets/Scripts/Player.cs:179-208 | with a heal target, only that ally changes: exactly one fresh heal over time of 0.15·attack every 2 s for 10 s is appended to its list; no draw is consumed and the opponents, flags and log stay. Without a target the result is the fallback (Core/Enemy.cs:190-219 is the same) |
| FactionModel.TakeAction | Assets/Scripts/Player.cs:17-45 | the action performed is the one `ChooseAction` picks, reading the draws after those the choice consumed |
| FactionModel.TakeActionEvolves | Assets/Scripts/Player.cs:17-45 | every action keeps the battle relation: sizes and maxima stay, the dead stay dead, the invariant and the outcome guard hold |
| FactionModel.LoneHealerAttacks | Assets/Scripts/Player.cs:234-258 | with nothing to heal and only Heal available, the fallback attacks although Attack is not available |
| SimulationModel.EvolvesPositive | Assets/Scripts/BattleManager.cs:55-68 | every fraction stays defined through a step |
| SimulationModel.UpdateAgent | Assets/Scripts/Agent.cs:70-91 | an agent dead on entry is left as it is and consumes nothing. For a living agent, with the bar charged after the effect pass (`Charge`): below 100 the result is exactly that charged world, with no action and no draw; at 100 or more it is exactly one `TakeAction` on the charged world, then the bar set to 0, with the draws that action consumed. Every update keeps the battle relation |
| SimulationModel.UpdateAgentTimer | Assets/Scripts/Agent.cs:78-87 | the bar rises by dt · speed after the effect pass; at 100 or more it ends at 0 with the overshoot lost, below that it keeps the charged value and no draw is consumed |
| SimulationModel.UpdatePartyFrom | Assets/Scripts/Battle/Party.cs:103-110 | the members are updated in list order and the battle relation is kept |
| SimulationModel.UpdateParty | Assets/Scripts/Battle/Party.cs:103-110 | the same for the whole party |
| SimulationModel.DeadPartyUnchanged | Assets/Scripts/Battle/Party.cs:103-110 | a party of dead agents is left as it is |
| SimulationModel.Tick | Assets/Scripts/BattleManager.cs:55-68 | nothing unless active and not over; every tick keeps the battle relation and never moves the draw cursor back, and a tick after which a party has no living member leaves the battle inactive and over |
| SimulationModel.Run | Assets/Scripts/BattleManager.cs:55-68 | ticks in sequence keep the battle relation |
| SimulationModel.OverIsTerminal | Assets/Scripts/BattleManager.cs:57 | no number of further ticks changes a battle that is over |
| SimulationModel.StartBattle | Assets/Scripts/BattleManager.cs:35-53 | both parties rebuilt from their configurations, active, not over, OnBattleStart appended, speed kept |
| SimulationModel.StartBattleFacts | Assets/Scripts/BattleManager.cs:35-53 | a started battle has every agent's invariant in force and no outcome yet |
| SimulationModel.OneOutcomePerBattle | Assets/Scripts/BattleManager.cs:96-112 | from a start, whatever the frames and draws, at most one of victory and defeat is raised, none while the battle runs, and every agent keeps its invariant |
| SimulationModel.SetBattleSpeed | Assets/Scripts/BattleManager.cs:210-226 | the speed read back is the last one set and nothing else changes |
| Actions.ExecuteSpec | Assets/Scripts/Action.cs:37-189 | nothing on a dead target; on a living one the subclass's call with the stored parameters: damage with no source, the heal clamp, exactly one effect appended, and for buffs and debuffs the named stat moved by plus or minus the amount |
| Actions.ExecuteKeepsInv | Assets/Scripts/Action.cs:37-189 | every action keeps the target's invariant |
| Actions.HealActionGuardMatters | Assets/Scripts/Action.cs:63-69 | the action's alive guard is its own: `Heal` would raise a dead agent's health, the action leaves it untouched |
| Actions.Action.constructor | Assets/Scripts/Action.cs:15-19 | source and target stored unchanged, with the subclass's parameters |
| Actions.Action.Execute | Assets/Scripts/Action.cs:37-189 | the target becomes `ExecuteSpec` of what it was, and nothing happens without a target |
| Scene.ConfigsToUse | Assets/Scripts/Battle/BattleSceneController.cs:59-83 | exactly the party size (none below zero) of configurations, and a failure iff the list is empty and the size positive (the modulo by zero at line 77) |
| Scene.FillFacts | Assets/Scripts/Battle/BattleSceneController.cs:65-79 | both branches give member i the configuration i mod count; with enough configurations that is their prefix |
| Scene.FillRepeats | Assets/Scripts/Battle/BattleSceneController.cs:73-79 | one more round of members repeats the whole list in front |
| Scene.FillRounds | Assets/Scripts/Battle/BattleSceneController.cs:73-79 | a size of k rounds gives the list written out k times |
| Scene.Rounds | Assets/Scripts/Battle/BattleSceneController.cs:73-79 | k rounds have k times the list's length |
| Scene.BattleSceneController.constructor | Assets/Scripts/Battle/BattleSceneController.cs:17-22 | parties of three and no configurations |
| Scene.BattleSceneController.SetPartySize | Assets/Scripts/Battle/BattleSceneController.cs:85-90 | both sizes overwritten, unchecked |
| Scene.BattleSceneController.ConfigureParty | Assets/Scripts/Battle/BattleSceneController.cs:59-83 | the party's list becomes `ConfigsToUse`; on the division by zero the party is left as it was |
| Scene.BattleSceneController.ConfigureParties | Assets/Scripts/Battle/BattleSceneController.cs:43-47 | the player party is configured before the enemy party, which is not reached when the first fails |
| Scene.BattleSceneController.InitializeBattleScene | Assets/Scripts/Battle/BattleSceneController.cs:41-57 | player party, then enemy party, then the battle starts from the new lists; a failing fill stops the sequence and no battle starts |
| Scene.BattleSceneController.StartBattle | Assets/Scripts/Battle/BattleSceneController.cs:92-96 | the same as `InitializeBattleScene` |
| Presets.PresetsPlayable | Assets/Scripts/Data/DefaultAgentConfigs.cs:34-135 | every preset has positive health and speed and Attack among its actions |
| Presets.EnemyPresetsMirror | Assets/Scripts/Data/DefaultAgentConfigs.cs:29-137 | the goblin preset equals the healer's; the orc and troll presets have the warrior's and the mage's stats and actions and differ only in the preference |
| Presets.SetStats | Assets/Scripts/Data/DefaultAgentConfigs.cs:141-229 | stats and actions written, the preference left alone |
| Presets.NewConfig | Assets/Scripts/Data/DefaultAgentConfigs.cs:34-46 | a new asset holding the preset, with or without its preference |
| Presets.Filled | Assets/Scripts/Data/DefaultAgentConfigs.cs:32 | an occupied slot is kept, an empty one receives a new asset with the preset |
| Presets.DefaultAgentConfigs.constructor | Assets/Scripts/Data/DefaultAgentConfigs.cs:12-20 | all six slots empty |
| Presets.DefaultAgentConfigs.OnEnable | Assets/Scripts/Data/DefaultAgentConfigs.cs:23-27 | the empty slots are filled |
| Presets.DefaultAgentConfigs.InitializeDefaultConfigs | Assets/Scripts/Data/DefaultAgentConfigs.cs:29-137 | each empty slot receives a new asset with its preset and an occupied slot keeps its asset; from all empty, the six assets are distinct |
| Presets.DefaultAgentConfigs.CreateDefaultConfigs | Assets/Scripts/Data/DefaultAgentConfigs.cs:139-230 | warrior and orc equal, healer and goblin equal including the preference, mage and troll equal in stats and actions |

## Left out

- User interface, logging, game objects and asset names are not modelled. This covers `Debug.Log`, GameObject creation and `Destroy`, the timer lookup in `SetBattleSpeed`, the description strings and `uiManager.Initialize`. None of them affects the battle state.
- Only the battle manager's four events (`OnBattleStart`, `OnBattleEnd`, `OnPlayerVictory`, `OnPlayerDefeat`) are logged, as one appended event log. The agents' `OnDamaged`, `OnHealed`, `OnBuffed`, `OnDebuffed` and `OnDeath` and the party's `OnPartyDefeated` are not logged. `OnDeath` and `OnPartyDefeated` are modelled only through the handlers they run (`Party.HandleAgentDeath`, then the manager's defeat handler). The other agent notifications have no subscriber in the core.
- SimulationModel.OneOutcomePerBattle: the once-per-battle promise is stated only through the count of outcome events (`OnPlayerVictory`, `OnPlayerDefeat`) since the last `OnBattleStart`. No lemma counts how often `Party.OnPartyDefeated` itself fires; a second firing would run a defeat handler that the over guard turns into a no-op.
- Subscriber lists are not modelled, so a handler subscribed twice by repeated `StartBattle` calls runs once in the model. Its second run is a no-op behind the over guard.
- The reflection in `ApplyToAgent` becomes direct field writes.
- `float` becomes `real`. `Mathf.Approximately` in the heal target rule is taken as equality.
- There is no random number generator. The caller supplies the draws of `Random.value` and `Random.Range` as a stream; an exhausted stream reads 0.
- `List.Sort` in `FindAnyAllyNeedingHealing` is unstable. Its order among equal fractions is a caller-supplied tie-break, and `NeedyTieReachesAll` shows every candidate of least fraction can come first.
- `BattleManager.Update`, `Party.UpdateParty`, `Agent.UpdateAgent`, `TakeAction` and the `Perform*` methods of Player.cs and Core/Enemy.cs are modelled at the value level only (`SimulationModel`, `FactionModel`), on records of the agents. Of the `Perform*` methods, only the heal target choice (`HealTargetOf`) also exists on the objects. The model therefore does not capture:
  - the update in place of the agent objects those loops change;
  - aliasing between an agent and the target it picks;
  - the interleaving of an agent's effect callbacks with the party and manager handlers.
- In the value-level model, the death chain (`OnDeath`, then `Party.HandleAgentDeath`, then the defeat handler) runs right after the call that killed the agent. In the source it runs inside that call. The two agree because an agent dies at most once per call: `TakeDamage` ignores the dead, and the rest of an effect pass only touches the dead agent itself.
- The party queries and the battle snapshot read members' records without their effect lists. The queries never read effects.
- `Party.CreateAgent` returns the new agent and `Initialize` appends it. The game object, its name and the `OnDeath` subscription are not modelled.
- The `Action` classes are modelled, but the faction code never uses them, as in the source.
- A configuration list holds non-null assets.
- Presets.DefaultAgentConfigs.CreateDefaultConfigs: the equalities are stated only when the six slots hold six different assets. With shared assets the later writes overwrite earlier ones.
- `BattleSceneController.Start` wires up the configuration manager user interface and is not modelled.
- Scene.BattleSceneController.ConfigureParty: the exception on an empty list with a positive size becomes `ok == false`. That stops `InitializeBattleScene` where the exception would; the exception itself is not modelled.
- AgentModel.TakeDamageSpec: at a current defense of exactly −100 the source divides by zero (`defense / (defense + 100)` is −∞ in single-precision floats). A positive hit then kills, as in the source. A hit of 0 or less leaves the record unchanged in the model, while in the source a hit of 0 turns health into NaN and a negative hit turns it into +∞; in both cases the agent stays alive and `OnDamaged` fires. Real numbers have neither NaN nor infinity, so those two outcomes are not captured.
- Agents.Agent.TakeDamage: inherits the same gap at a defense of exactly −100: a hit of 0 or less leaves the agent unchanged instead of giving it NaN or +∞ health.
- `TakeAction` returns early without a battle manager. Agents in a battle always have one, so the model leaves that guard out.
- Enemy.cs has a private `ChooseAction` that always returns Attack and is never called. It is not modelled.

## Notes on the source

- A death that ends the battle raises OnBattleEnd twice in that tick: once from the defeat handler, and once from `CheckBattleEndConditions`, which has no over guard (BattleManager.cs:70-94). The event log shows both.
- A party that is empty from the start ends the battle at the first tick with no victory or defeat event, since no death ever notifies it.
- A debuff's expiry calls `ApplyBuff(stat, +amount, 0)` (Effect.cs:93-108), not `ApplyDebuff`. The net change is still zero.
- The effect pass walks a snapshot, so a heal over time later in the list heals an agent that an earlier damage tick killed in the same pass. The agent stays dead, with the health the later heal ticks give it (`KilledMidPassStillHealed`; `KilledThenHealedInOnePass` is a concrete case).
- Aliveness is tested only on entry to `UpdateAgent`, so an agent killed by its own damage over time still charges its bar and may act in the same call.
- The danger test counts every member, dead ones at 0 health included (`DeadMemberMeansDanger`).
- In a one-against-one fight where each side could kill the other in the same frame, the player party updates first, and the enemy's death ends the battle in victory before the enemy acts.
