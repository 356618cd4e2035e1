/**
 * The battle scene controller of BattleSceneController.cs: the configured
 * party sizes and configuration lists of both sides, the fill rule that
 * makes a list of exactly the party size, and the start of a battle.
 */
module Scene {
  import opened PartyModel
  import opened SimulationModel
  import opened Configs
  import opened Parties
  import opened Battles

  /**
   * The list `ConfigureParty` builds from `configs` for a party of
   * `partySize`: None where the source divides by zero, an empty list for
   * a size of zero or less, the first `partySize` configurations when there
   * are enough of them, and otherwise `configs` repeated cyclically up to
   * the size. FillFacts states what the list holds.
   */
  function ConfigsToUse<T>(configs: seq<T>, partySize: int): (r: Option<seq<T>>)
    ensures r.None? <==> |configs| == 0 && partySize > 0
    ensures r.Some? ==> |r.value| == (if partySize < 0 then 0 else partySize)
  {
    if partySize <= 0 then Some([])
    else if |configs| >= partySize then Some(configs[..partySize])
    else if |configs| == 0 then None
    else Some(seq(partySize, i requires 0 <= i < partySize => configs[i % |configs|]))
  }

  /**
   * Both branches of the fill follow one rule: member i gets configuration
   * `i % |configs|`; with enough configurations that is their prefix.
   */
  lemma FillFacts<T>(configs: seq<T>, partySize: int)
    ensures var r := ConfigsToUse(configs, partySize);
            && (r.Some? ==> forall i :: 0 <= i < |r.value| ==> r.value[i] == configs[i % |configs|])
            && (r.Some? && partySize <= |configs| ==> r.value == configs[..if partySize < 0 then 0 else partySize])
  {
    if 0 < partySize <= |configs| {
      forall i | 0 <= i < partySize {
        SmallMod(i, |configs|);
      }
    }
  }

  /**
   * The cyclic fill has period `|configs|`: one more round of members
   * repeats the whole list in front of the shorter fill.
   */
  lemma FillRepeats<T>(configs: seq<T>, n: nat)
    requires |configs| > 0
    ensures ConfigsToUse(configs, n + |configs|) == Some(configs + ConfigsToUse(configs, n).value)
  {
    var m := |configs|;
    var long, short := ConfigsToUse(configs, n + m).value, ConfigsToUse(configs, n).value;
    FillFacts(configs, n + m);
    FillFacts(configs, n);
    forall i | 0 <= i < n + m
      ensures long[i] == (configs + short)[i]
    {
      if i >= m {
        ModShift(i - m, m);
      } else {
        SmallMod(i, m);
      }
    }
    assert long == configs + short;
  }

  /** Adding the modulus once does not change the remainder. */
  lemma ModShift(i: nat, m: nat)
    requires m > 0
    ensures (i + m) % m == i % m
  {
    ModUnique(i + m, m, i / m + 1, i % m);
  }

  /** Euclidean division is unique: a quotient and remainder in range are `/` and `%`. */
  lemma ModUnique(a: int, m: int, q: int, r: int)
    requires m > 0 && a == q * m + r && 0 <= r < m
    ensures a % m == r
  {
    var q', r' := a / m, a % m;
    assert (q - q') * m == r' - r;
    if q - q' >= 1 {
      MulAtLeast(q - q', m);
    } else if q' - q >= 1 {
      MulAtLeast(q' - q, m);
    }
  }

  /** A product with a factor of at least one is at least the other, positive, factor. */
  lemma MulAtLeast(d: int, m: int)
    requires d >= 1 && m > 0
    ensures d * m >= m
  {
    assert d * m == (d - 1) * m + m;
  }

  /** Fill of a multiple: k rounds of a non-empty list are the list repeated k times. */
  lemma {:induction false} FillRounds<T>(configs: seq<T>, k: nat)
    requires |configs| > 0
    ensures ConfigsToUse(configs, k * |configs|) == Some(Rounds(configs, k))
  {
    if k == 0 {
    } else {
      FillRounds(configs, k - 1);
      assert k * |configs| == (k - 1) * |configs| + |configs|;
      FillRepeats(configs, (k - 1) * |configs|);
    }
  }

  /** A list written out k times in a row. */
  function Rounds<T>(s: seq<T>, k: nat): (r: seq<T>)
    ensures |r| == k * |s|
  {
    if k == 0 then [] else s + Rounds(s, k - 1)
  }

  class BattleSceneController {
    const battleManager: BattleManager
    var playerPartySize: int
    var playerConfigs: seq<AgentConfig>
    var enemyPartySize: int
    var enemyConfigs: seq<AgentConfig>

    /** A controller at its field initialisers: parties of three, no configurations. */
    constructor (battleManager: BattleManager)
      ensures this.battleManager == battleManager
      ensures playerPartySize == 3 && enemyPartySize == 3 && playerConfigs == [] && enemyConfigs == []
    {
      this.battleManager := battleManager;
      playerPartySize, enemyPartySize := 3, 3;
      playerConfigs, enemyConfigs := [], [];
    }

    /** `SetPartySize`: both sizes are overwritten, unchecked. */
    method SetPartySize(playerSize: int, enemySize: int)
      modifies this
      ensures playerPartySize == playerSize && enemyPartySize == enemySize
      ensures playerConfigs == old(playerConfigs) && enemyConfigs == old(enemyConfigs)
    {
      playerPartySize := playerSize;
      enemyPartySize := enemySize;
    }

    /**
     * `ConfigureParty`: the party's configuration list becomes the fill of
     * `configs`; where the fill divides by zero (ok false) the exception
     * leaves the party as it was.
     */
    method ConfigureParty(party: Party, configs: seq<AgentConfig>, partySize: int) returns (ok: bool)
      modifies party
      ensures var l := ConfigsToUse(configs, partySize);
              && ok == l.Some?
              && party.agentConfigs == (if ok then l.value else old(party.agentConfigs))
              && party.agents == old(party.agents) && party.Cores() == old(party.Cores())
    {
      var configsToUse: seq<AgentConfig> := [];
      var i := 0;
      if |configs| >= partySize {
        while i < partySize
          invariant 0 <= i && (i <= partySize || i == 0)
          invariant configsToUse == configs[..i]
        {
          configsToUse := configsToUse + [configs[i]];
          i := i + 1;
        }
      } else {
        if |configs| == 0 {
          // the first `i % configs.Count` divides by zero
          return false;
        }
        while i < partySize
          invariant 0 <= i <= partySize && |configsToUse| == i
          invariant forall j :: 0 <= j < i ==> configsToUse[j] == configs[j % |configs|]
        {
          configsToUse := configsToUse + [configs[i % |configs|]];
          i := i + 1;
        }
      }
      party.SetAgentConfigs(configsToUse);
      ok := true;
    }

    /**
     * `InitializeBattleScene`: the player party is configured, then the
     * enemy party, then the battle starts. A fill that divides by zero
     * stops the sequence where it happens (ok false): what came before it
     * stays done and the battle does not start.
     */
    method InitializeBattleScene() returns (ok: bool)
      requires battleManager.Valid()
      modifies battleManager, battleManager.playerParty, battleManager.enemyParty
      ensures var pl, el := ConfigsToUse(old(playerConfigs), old(playerPartySize)),
                            ConfigsToUse(old(enemyConfigs), old(enemyPartySize));
              && ok == (pl.Some? && el.Some?)
              && battleManager.playerParty.agentConfigs ==
                   (if pl.Some? then pl.value else old(battleManager.playerParty.agentConfigs))
              && battleManager.enemyParty.agentConfigs ==
                   (if pl.Some? && el.Some? then el.value else old(battleManager.enemyParty.agentConfigs))
      ensures var pl, el := ConfigsToUse(old(playerConfigs), old(playerPartySize)),
                            ConfigsToUse(old(enemyConfigs), old(enemyPartySize));
              ok ==> battleManager.Snapshot() ==
                     SimulationModel.StartBattle(old(battleManager.Snapshot()), old(DataOf(pl.value)), old(DataOf(el.value)))
      ensures !ok ==> battleManager.Snapshot() == old(battleManager.Snapshot())
    {
      ok := ConfigureParties();
      if !ok {
        return;
      }
      battleManager.StartBattle();
    }

    /** The two `ConfigureParty` calls of `InitializeBattleScene`, the player party's first; no member changes. */
    method ConfigureParties() returns (ok: bool)
      requires battleManager.Valid()
      modifies battleManager.playerParty, battleManager.enemyParty
      ensures var pl, el := ConfigsToUse(playerConfigs, playerPartySize), ConfigsToUse(enemyConfigs, enemyPartySize);
              && ok == (pl.Some? && el.Some?)
              && battleManager.playerParty.agentConfigs ==
                   (if pl.Some? then pl.value else old(battleManager.playerParty.agentConfigs))
              && battleManager.enemyParty.agentConfigs ==
                   (if pl.Some? && el.Some? then el.value else old(battleManager.enemyParty.agentConfigs))
      ensures battleManager.Snapshot() == old(battleManager.Snapshot())
      ensures var pl, el := ConfigsToUse(playerConfigs, playerPartySize), ConfigsToUse(enemyConfigs, enemyPartySize);
              ok ==> && DataOf(battleManager.playerParty.agentConfigs) == old(DataOf(pl.value))
                     && DataOf(battleManager.enemyParty.agentConfigs) == old(DataOf(el.value))
    {
      var pm := battleManager.playerParty;
      var em := battleManager.enemyParty;
      ok := ConfigureParty(pm, playerConfigs, playerPartySize);
      if ok {
        ok := ConfigureParty(em, enemyConfigs, enemyPartySize);
        if ok {
          DataUnchanged(pm.agentConfigs);
          DataUnchanged(em.agentConfigs);
        }
      }
    }

    /** `StartBattle`: the public entry, which initialises the scene. */
    method StartBattle() returns (ok: bool)
      requires battleManager.Valid()
      modifies battleManager, battleManager.playerParty, battleManager.enemyParty
      ensures var pl, el := ConfigsToUse(old(playerConfigs), old(playerPartySize)),
                            ConfigsToUse(old(enemyConfigs), old(enemyPartySize));
              && ok == (pl.Some? && el.Some?)
              && (ok ==>
                    battleManager.Snapshot() ==
                    SimulationModel.StartBattle(old(battleManager.Snapshot()), old(DataOf(pl.value)), old(DataOf(el.value))))
              && (!ok ==> battleManager.Snapshot() == old(battleManager.Snapshot()))
    {
      ok := InitializeBattleScene();
    }
  }
}
