/**
 * The heads-probability upgrade table (src/upgrades.rs): nine fixed
 * (probability, cost) tiers and a state holding the index of the active tier.
 */
module Upgrades {

  /** One tier: the probability of heads it gives and what it costs. */
  datatype PHeadsUpgrade = PHeadsUpgrade(prob: real, cost: real)

  /** The available tiers, cheapest first. */
  const PHeadsUpgrades: seq<PHeadsUpgrade> := [
    PHeadsUpgrade(0.20, 0.0),
    PHeadsUpgrade(0.25, 0.01),
    PHeadsUpgrade(0.30, 0.10),
    PHeadsUpgrade(0.35, 1.00),
    PHeadsUpgrade(0.40, 10.00),
    PHeadsUpgrade(0.45, 100.00),
    PHeadsUpgrade(0.50, 1_000.00),
    PHeadsUpgrade(0.55, 10_000.00),
    PHeadsUpgrade(0.60, 100_000.00)
  ]

  /** The index of the active tier in `PHeadsUpgrades`. */
  datatype PHeadsUpgradeState = PHeadsUpgradeState(pHeadsIdx: nat) {

    /** The starting state: the first tier. */
    static function New(): (s: PHeadsUpgradeState)
      ensures s.pHeadsIdx == 0 && s.pHeadsIdx < |PHeadsUpgrades|
      ensures PHeadsUpgrades[s.pHeadsIdx] == PHeadsUpgrade(0.20, 0.0)
    {
      PHeadsUpgradeState(0)
    }

    /** Whether a further tier exists above the active one. */
    function CanUpgrade(): (b: bool)
      ensures b <==> pHeadsIdx + 1 < |PHeadsUpgrades|
      ensures b <==> pHeadsIdx < 8
    {
      pHeadsIdx < |PHeadsUpgrades| - 1
    }
  }

  lemma TierCount()
    ensures |PHeadsUpgrades| == 9
  {
  }

  /** Upgrades are possible from tiers 0 to 7 and not from tier 8, the last. */
  lemma CanUpgradeByTier()
    ensures forall i: nat :: i < 8 ==> PHeadsUpgradeState(i).CanUpgrade()
    ensures !PHeadsUpgradeState(8).CanUpgrade()
  {
  }

  lemma NewCanUpgrade()
    ensures PHeadsUpgradeState.New().CanUpgrade()
  {
  }

  /** Probabilities go from 0.20 to 0.60 in steps of 0.05, strictly increasing. */
  lemma TierProbabilities()
    ensures forall i :: 0 <= i < |PHeadsUpgrades| ==> PHeadsUpgrades[i].prob == 0.20 + 0.05 * i as real
    ensures forall i, j :: 0 <= i < j < |PHeadsUpgrades| ==> PHeadsUpgrades[i].prob < PHeadsUpgrades[j].prob
  {
  }

  /** Costs start at 0 and 0.01, then grow tenfold per tier; they strictly increase. */
  lemma TierCosts()
    ensures PHeadsUpgrades[0].cost == 0.0 && PHeadsUpgrades[1].cost == 0.01
    ensures forall i :: 1 <= i < |PHeadsUpgrades| - 1 ==> PHeadsUpgrades[i + 1].cost == 10.0 * PHeadsUpgrades[i].cost
    ensures forall i, j :: 0 <= i < j < |PHeadsUpgrades| ==> PHeadsUpgrades[i].cost < PHeadsUpgrades[j].cost
  {
  }
}
