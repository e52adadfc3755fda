/**
 * The single-game state machine of the coin-flip streak game (src/main.rs).
 *
 * A `Game` object owns the mutable state of one game; `Flip` is the one-flip
 * transition and `Play` the capped run-to-completion driver. Each is proved
 * against a pure function on immutable `GameSnapshot` values (`FlipStep`,
 * `PlayFrom`), and the properties of the game are lemmas about those.
 * The random draw `fastrand::f64()` is an explicit parameter; all `f64`
 * quantities are exact reals.
 */
module Flips {
  import opened Wrappers

  /** `b` raised to the natural power `e` (the source's `powi` for `e >= 0`). */
  function Pow(b: real, e: nat): (r: real)
  {
    if e == 0 then 1.0 else b * Pow(b, e - 1)
  }

  /** The least integer not below `x`. */
  function Ceil(x: real): (r: int)
    ensures x <= r as real < x + 1.0
  {
    -((-x).Floor)
  }

  /** An immutable copy of a game's state, as `Some(*self)` copies it out. */
  datatype GameSnapshot = GameSnapshot(
    pHeads: real,
    flipTime: real,
    totalTime: real,
    nFlips: nat,
    nHeadsInARow: nat,
    coinVal: real,
    multiplier: real,
    cash: real)

  /** The invariants every reachable state keeps: time is flips times flip time, and a streak is made of flips. */
  predicate Consistent(g: GameSnapshot)
  {
    g.totalTime == g.nFlips as real * g.flipTime && g.nHeadsInARow <= g.nFlips
  }

  /** The fields a flip never changes. */
  predicate SameParameters(g: GameSnapshot, h: GameSnapshot)
  {
    g.pHeads == h.pHeads && g.flipTime == h.flipTime &&
    g.coinVal == h.coinVal && g.multiplier == h.multiplier
  }

  /** Draws of a uniform source on [0, 1). */
  predicate DrawsInRange(draws: seq<real>)
  {
    forall i :: 0 <= i < |draws| ==> 0.0 <= draws[i] < 1.0
  }

  /** The state `Game::new` builds. */
  function NewGame(): (g: GameSnapshot)
    ensures Consistent(g)
    ensures g.nFlips == 0 && g.nHeadsInARow == 0 && g.cash == 0.0 && g.totalTime == 0.0
    ensures 0.0 < g.pHeads < 1.0 && g.flipTime > 0.0 && g.coinVal > 0.0 && g.multiplier >= 1.0
  {
    GameSnapshot(0.3, 2.0, 0.0, 0, 0, 0.01, 1.0, 0.0)
  }

  class Game {
    var pHeads: real
    var flipTime: real
    var totalTime: real
    var nFlips: nat
    var nHeadsInARow: nat
    var coinVal: real
    var multiplier: real
    var cash: real

    /** The current state as a value. */
    function Snapshot(): (g: GameSnapshot)
      reads this
    {
      GameSnapshot(pHeads, flipTime, totalTime, nFlips, nHeadsInARow, coinVal, multiplier, cash)
    }

    ghost predicate Valid()
      reads this
    {
      Consistent(Snapshot())
    }

    /** `Game::new`: a fresh game with the fixed starting parameters. */
    constructor ()
      ensures Snapshot() == NewGame()
      ensures Valid()
    {
      pHeads, flipTime, totalTime := 0.3, 2.0, 0.0;
      nFlips, nHeadsInARow := 0, 0;
      coinVal, multiplier, cash := 0.01, 1.0, 0.0;
    }

    /**
     * The cash a head earns when it makes the streak `nHeadsInARow` long:
     * `multiplier` to the power `nHeadsInARow - 1`, rounded up to a whole
     * number, times `coinValue`. The ceiling is on the power only.
     */
    static function CalcReward(coinValue: real, multiplier: real, nHeadsInARow: nat): (r: real)
      requires nHeadsInARow >= 1
      ensures nHeadsInARow == 1 ==> r == coinValue
    {
      var k := Ceil(Pow(multiplier, nHeadsInARow - 1));
      assert nHeadsInARow == 1 ==> k == 1 by {
        if nHeadsInARow == 1 { assert Pow(multiplier, 0) == 1.0; }
      }
      k as real * coinValue
    }

    /** `Game::flip`: one flip, heads exactly when `draw < pHeads`. */
    method Flip(draw: real)
      modifies this
      ensures Snapshot() == FlipStep(old(Snapshot()), draw)
      ensures nFlips == old(nFlips) + 1 && totalTime == old(totalTime) + flipTime
      ensures old(draw < pHeads) ==>
        nHeadsInARow == old(nHeadsInARow) + 1 &&
        cash == old(cash) + CalcReward(coinVal, multiplier, nHeadsInARow)
      ensures old(draw >= pHeads) ==> nHeadsInARow == 0 && cash == old(cash)
      ensures SameParameters(Snapshot(), old(Snapshot()))
      ensures old(Valid()) ==> Valid()
    {
      ghost var before := Snapshot();
      totalTime := totalTime + flipTime;
      nFlips := nFlips + 1;
      if draw < pHeads {
        nHeadsInARow := nHeadsInARow + 1;
        cash := cash + CalcReward(coinVal, multiplier, nHeadsInARow);
      } else {
        nHeadsInARow := 0;
      }
      if Consistent(before) {
        FlipKeepsConsistent(before, draw);
      }
    }

    /**
     * `Game::play`: before each of at most `maxIters` flips, stop with a copy
     * of the state if the streak has reached `nWin`; `None` once the cap is spent.
     * Flip number `i` uses `draws[i]`.
     */
    method Play(nWin: nat, maxIters: nat, draws: seq<real>) returns (r: Option<GameSnapshot>)
      requires maxIters <= |draws|
      modifies this
      ensures (Snapshot(), r) == PlayFrom(old(Snapshot()), nWin, maxIters, draws)
      ensures r.Some? ==>
        r.value == Snapshot() && nHeadsInARow >= nWin &&
        old(nFlips) <= nFlips < old(nFlips) + maxIters
      ensures r.None? ==> nFlips == old(nFlips) + maxIters
      ensures maxIters == 0 ==> r.None? && Snapshot() == old(Snapshot())
      ensures old(Valid()) ==> Valid()
    {
      ghost var start := Snapshot();
      PlayWonIsFirstWin(start, nWin, maxIters, draws);
      PlayAbandonedDoesAllFlips(start, nWin, maxIters, draws);
      if Consistent(start) {
        PlayKeepsConsistent(start, nWin, maxIters, draws);
      }
      for i := 0 to maxIters
        invariant PlayFrom(Snapshot(), nWin, maxIters - i, draws[i..]) == PlayFrom(start, nWin, maxIters, draws)
      {
        if nHeadsInARow >= nWin {
          return Some(Snapshot());
        }
        assert draws[i..][0] == draws[i] && draws[i..][1..] == draws[i + 1..];
        Flip(draws[i]);
      }
      return None;
    }
  }

  /** The value-level flip that `Game.Flip` performs. */
  function FlipStep(g: GameSnapshot, draw: real): (g': GameSnapshot)
  {
    var g1 := g.(totalTime := g.totalTime + g.flipTime, nFlips := g.nFlips + 1);
    if draw < g.pHeads then
      g1.(nHeadsInARow := g.nHeadsInARow + 1,
          cash := g.cash + Game.CalcReward(g.coinVal, g.multiplier, g.nHeadsInARow + 1))
    else
      g1.(nHeadsInARow := 0)
  }

  /** The state after the first `k` flips with `draws`, with no win check. */
  function Run(g: GameSnapshot, draws: seq<real>, k: nat): (r: GameSnapshot)
    requires k <= |draws|
    ensures r.nFlips == g.nFlips + k
    ensures SameParameters(r, g)
    decreases k
  {
    if k == 0 then g else Run(FlipStep(g, draws[0]), draws[1..], k - 1)
  }

  /**
   * The value-level `Game.Play`: the final state and the result, checking the
   * streak before each of at most `maxIters` flips.
   */
  function PlayFrom(g: GameSnapshot, nWin: nat, maxIters: nat, draws: seq<real>): (result: (GameSnapshot, Option<GameSnapshot>))
    requires maxIters <= |draws|
    decreases maxIters
  {
    if maxIters == 0 then (g, None)
    else if g.nHeadsInARow >= nWin then (g, Some(g))
    else PlayFrom(FlipStep(g, draws[0]), nWin, maxIters - 1, draws[1..])
  }

  // ----- the reward formula -----

  lemma {:induction false} PowOfOne(e: nat)
    ensures Pow(1.0, e) == 1.0
  {
    if e > 0 { PowOfOne(e - 1); }
  }

  lemma {:induction false} PowNonNegative(b: real, e: nat)
    requires b >= 0.0
    ensures Pow(b, e) >= 0.0
  {
    if e > 0 { PowNonNegative(b, e - 1); }
  }

  lemma {:induction false} PowMonotone(b: real, e: nat, e': nat)
    requires b >= 1.0 && e <= e'
    ensures Pow(b, e) <= Pow(b, e')
  {
    if e < e' {
      PowMonotone(b, e, e' - 1);
      PowNonNegative(b, e' - 1);
      var p := Pow(b, e' - 1);
      assert b * p - p == (b - 1.0) * p;
    }
  }

  /** With a multiplier of 1 every head of every streak earns the coin value. */
  lemma RewardUnitMultiplier(coinValue: real, n: nat)
    requires n >= 1
    ensures Game.CalcReward(coinValue, 1.0, n) == coinValue
  {
    PowOfOne(n - 1);
    assert Ceil(Pow(1.0, n - 1)) == 1;
  }

  /**
   * The reward divided by the coin value is the least whole number at or above
   * `multiplier` to the power `n - 1`: the power is rounded up, not the product.
   */
  lemma RewardCeilsPowerOnly(coinValue: real, multiplier: real, n: nat)
    requires n >= 1 && coinValue != 0.0
    ensures var k := Game.CalcReward(coinValue, multiplier, n) / coinValue;
      k == k.Floor as real && Pow(multiplier, n - 1) <= k < Pow(multiplier, n - 1) + 1.0
  {
    var c := Ceil(Pow(multiplier, n - 1));
    assert Game.CalcReward(coinValue, multiplier, n) == c as real * coinValue;
    assert Game.CalcReward(coinValue, multiplier, n) / coinValue == c as real;
  }

  /** A non-negative coin and multiplier never give a negative reward. */
  lemma RewardNonNegative(coinValue: real, multiplier: real, n: nat)
    requires n >= 1 && coinValue >= 0.0 && multiplier >= 0.0
    ensures Game.CalcReward(coinValue, multiplier, n) >= 0.0
  {
    PowNonNegative(multiplier, n - 1);
    var k := Ceil(Pow(multiplier, n - 1));
    assert k >= 0;
    assert Game.CalcReward(coinValue, multiplier, n) == k as real * coinValue;
  }

  /** With a multiplier of at least 1 and a non-negative coin, longer streaks earn no less. */
  lemma RewardMonotone(coinValue: real, multiplier: real, n: nat, n': nat)
    requires coinValue >= 0.0 && multiplier >= 1.0 && 1 <= n <= n'
    ensures Game.CalcReward(coinValue, multiplier, n) <= Game.CalcReward(coinValue, multiplier, n')
  {
    PowMonotone(multiplier, n - 1, n' - 1);
    var k := Ceil(Pow(multiplier, n - 1));
    var k' := Ceil(Pow(multiplier, n' - 1));
    assert k <= k';
    assert Game.CalcReward(coinValue, multiplier, n) == k as real * coinValue;
    assert Game.CalcReward(coinValue, multiplier, n') == k' as real * coinValue;
    var d := (k' - k) as real;
    assert d >= 0.0;
    assert d * coinValue >= 0.0;
    assert k' as real * coinValue - k as real * coinValue == d * coinValue;
  }

  /** All 25 cases of the source's reward test table. */
  lemma RewardExamples()
    ensures Game.CalcReward(1.0, 3.0, 1) == 1.0
    ensures Game.CalcReward(1.0, 3.0, 2) == 3.0
    ensures Game.CalcReward(1.0, 3.0, 3) == 9.0
    ensures Game.CalcReward(1.0, 3.0, 4) == 27.0
    ensures Game.CalcReward(1.0, 3.0, 5) == 81.0
    ensures Game.CalcReward(0.1, 3.0, 1) == 0.1
    ensures Game.CalcReward(0.1, 3.0, 2) == 0.3
    ensures Game.CalcReward(0.1, 3.0, 3) == 0.9
    ensures Game.CalcReward(0.1, 3.0, 4) == 2.7
    ensures Game.CalcReward(0.1, 3.0, 5) == 8.1
    ensures Game.CalcReward(1.0, 2.5, 1) == 1.0
    ensures Game.CalcReward(1.0, 2.5, 2) == 3.0
    ensures Game.CalcReward(1.0, 2.5, 3) == 7.0
    ensures Game.CalcReward(1.0, 2.5, 4) == 16.0
    ensures Game.CalcReward(1.0, 2.5, 5) == 40.0
    ensures Game.CalcReward(0.25, 2.5, 1) == 0.25
    ensures Game.CalcReward(0.25, 2.5, 2) == 0.75
    ensures Game.CalcReward(0.25, 2.5, 3) == 1.75
    ensures Game.CalcReward(0.25, 2.5, 4) == 4.0
    ensures Game.CalcReward(0.25, 2.5, 5) == 10.0
    ensures Game.CalcReward(1.0, 1.0, 1) == 1.0
    ensures Game.CalcReward(1.0, 1.0, 2) == 1.0
    ensures Game.CalcReward(1.0, 1.0, 3) == 1.0
    ensures Game.CalcReward(1.0, 1.0, 4) == 1.0
    ensures Game.CalcReward(1.0, 1.0, 5) == 1.0
  {
    RewardUnitMultiplier(1.0, 2);
    RewardUnitMultiplier(1.0, 3);
    RewardUnitMultiplier(1.0, 4);
    RewardUnitMultiplier(1.0, 5);
    assert Pow(3.0, 1) == 3.0 && Ceil(3.0) == 3;
    assert Pow(3.0, 2) == 9.0 && Ceil(9.0) == 9;
    assert Pow(3.0, 3) == 27.0 && Ceil(27.0) == 27;
    assert Pow(3.0, 4) == 81.0 && Ceil(81.0) == 81;
    assert Pow(2.5, 1) == 2.5 && Ceil(2.5) == 3;
    assert Pow(2.5, 2) == 6.25 && Ceil(6.25) == 7;
    assert Pow(2.5, 3) == 15.625 && Ceil(15.625) == 16;
    assert Pow(2.5, 4) == 39.0625 && Ceil(39.0625) == 40;
  }

  /** Rounding the product instead of the power would give a different reward. */
  lemma RewardRoundingOrderMatters()
    ensures Game.CalcReward(0.25, 2.5, 3) != Ceil(Pow(2.5, 2) * 0.25) as real
  {
    RewardExamples();
    assert Pow(2.5, 2) * 0.25 == 1.5625 && Ceil(1.5625) == 2;
  }

  // ----- one flip -----

  /** A flip leaves the streak positive exactly when it is heads. */
  lemma FlipHeadsIff(g: GameSnapshot, draw: real)
    ensures FlipStep(g, draw).nHeadsInARow > 0 <==> draw < g.pHeads
    ensures FlipStep(g, draw).nFlips == g.nFlips + 1
    ensures FlipStep(g, draw).totalTime == g.totalTime + g.flipTime
    ensures SameParameters(FlipStep(g, draw), g)
  {
  }

  lemma FlipKeepsConsistent(g: GameSnapshot, draw: real)
    requires Consistent(g)
    ensures Consistent(FlipStep(g, draw))
  {
    var h := FlipStep(g, draw);
    assert h.nFlips as real * g.flipTime == g.nFlips as real * g.flipTime + g.flipTime;
  }

  /** Cash never goes down; it grows only on heads. */
  lemma FlipCashNonDecreasing(g: GameSnapshot, draw: real)
    requires g.coinVal >= 0.0 && g.multiplier >= 0.0
    ensures FlipStep(g, draw).cash >= g.cash
    ensures draw >= g.pHeads ==> FlipStep(g, draw).cash == g.cash
  {
    RewardNonNegative(g.coinVal, g.multiplier, g.nHeadsInARow + 1);
  }

  // ----- runs of flips -----

  /** Flip `k + 1` is a flip from the state after `k`. */
  lemma {:induction false} RunStep(g: GameSnapshot, draws: seq<real>, k: nat)
    requires k < |draws|
    ensures Run(g, draws, k + 1) == FlipStep(Run(g, draws, k), draws[k])
    decreases k
  {
    if k > 0 {
      RunStep(FlipStep(g, draws[0]), draws[1..], k - 1);
      assert draws[1..][k - 1] == draws[k];
    }
  }

  /** Along any run, time stays flips times flip time. */
  lemma {:induction false} RunKeepsConsistent(g: GameSnapshot, draws: seq<real>, k: nat)
    requires Consistent(g) && k <= |draws|
    ensures Consistent(Run(g, draws, k))
    decreases k
  {
    if k > 0 {
      FlipKeepsConsistent(g, draws[0]);
      RunKeepsConsistent(FlipStep(g, draws[0]), draws[1..], k - 1);
    }
  }

  /** Along any run, cash is non-decreasing from one flip to the next. */
  lemma RunCashNonDecreasing(g: GameSnapshot, draws: seq<real>, j: nat, k: nat)
    requires g.coinVal >= 0.0 && g.multiplier >= 0.0 && j <= k <= |draws|
    ensures Run(g, draws, j).cash <= Run(g, draws, k).cash
    decreases k
  {
    if j < k {
      RunCashNonDecreasing(g, draws, j, k - 1);
      RunStep(g, draws, k - 1);
      FlipCashNonDecreasing(Run(g, draws, k - 1), draws[k - 1]);
    }
  }

  // ----- the driver -----

  lemma {:induction false} PlayKeepsConsistent(g: GameSnapshot, nWin: nat, maxIters: nat, draws: seq<real>)
    requires Consistent(g) && maxIters <= |draws|
    ensures Consistent(PlayFrom(g, nWin, maxIters, draws).0)
    decreases maxIters
  {
    if maxIters > 0 && g.nHeadsInARow < nWin {
      FlipKeepsConsistent(g, draws[0]);
      PlayKeepsConsistent(FlipStep(g, draws[0]), nWin, maxIters - 1, draws[1..]);
    }
  }

  /** None of the pre-flip checks of the first `k` flips sees a streak of `nWin`. */
  predicate NoWinSeen(g: GameSnapshot, nWin: nat, k: nat, draws: seq<real>)
    requires k <= |draws|
  {
    forall j :: 0 <= j < k ==> Run(g, draws, j).nHeadsInARow < nWin
  }

  /** The checks of a run are the first one and those of the run after one flip. */
  lemma NoWinSeenStep(g: GameSnapshot, nWin: nat, k: nat, draws: seq<real>)
    requires 0 < k <= |draws|
    ensures NoWinSeen(g, nWin, k, draws) <==>
      g.nHeadsInARow < nWin && NoWinSeen(FlipStep(g, draws[0]), nWin, k - 1, draws[1..])
  {
    var g1, ds := FlipStep(g, draws[0]), draws[1..];
    assert Run(g, draws, 0) == g;
    forall j | 0 < j < k
      ensures Run(g, draws, j) == Run(g1, ds, j - 1)
    {
    }
    if g.nHeadsInARow < nWin && NoWinSeen(g1, nWin, k - 1, ds) {
      forall j | 0 <= j < k
        ensures Run(g, draws, j).nHeadsInARow < nWin
      {
        if j > 0 { assert Run(g, draws, j) == Run(g1, ds, j - 1); }
      }
    }
    if NoWinSeen(g, nWin, k, draws) {
      forall j | 0 <= j < k - 1
        ensures Run(g1, ds, j).nHeadsInARow < nWin
      {
        assert Run(g, draws, j + 1) == Run(g1, ds, j);
      }
    }
  }

  /** `None` exactly when none of the `maxIters` pre-flip checks saw a streak of `nWin`. */
  lemma {:induction false} PlayNoneIffNoWinSeen(g: GameSnapshot, nWin: nat, maxIters: nat, draws: seq<real>)
    requires maxIters <= |draws|
    ensures PlayFrom(g, nWin, maxIters, draws).1.None? <==> NoWinSeen(g, nWin, maxIters, draws)
    decreases maxIters
  {
    if maxIters > 0 {
      NoWinSeenStep(g, nWin, maxIters, draws);
      if g.nHeadsInARow < nWin {
        PlayNoneIffNoWinSeen(FlipStep(g, draws[0]), nWin, maxIters - 1, draws[1..]);
      }
    }
  }

  /** An abandoned game has done exactly `maxIters` flips. */
  lemma {:induction false} PlayAbandonedDoesAllFlips(g: GameSnapshot, nWin: nat, maxIters: nat, draws: seq<real>)
    requires maxIters <= |draws|
    ensures PlayFrom(g, nWin, maxIters, draws).1.None? ==>
      PlayFrom(g, nWin, maxIters, draws).0 == Run(g, draws, maxIters)
    decreases maxIters
  {
    if maxIters > 0 && g.nHeadsInARow < nWin {
      PlayAbandonedDoesAllFlips(FlipStep(g, draws[0]), nWin, maxIters - 1, draws[1..]);
    }
  }

  /**
   * A won game returns a copy of the final state, which is the state at the
   * first pre-flip check that saw a streak of `nWin`, after fewer than
   * `maxIters` flips.
   */
  lemma {:induction false} PlayWonIsFirstWin(g: GameSnapshot, nWin: nat, maxIters: nat, draws: seq<real>)
    requires maxIters <= |draws|
    ensures var (s, r) := PlayFrom(g, nWin, maxIters, draws);
      r.Some? ==>
        r.value == s && s.nHeadsInARow >= nWin &&
        g.nFlips <= s.nFlips < g.nFlips + maxIters &&
        s == Run(g, draws, s.nFlips - g.nFlips) &&
        NoWinSeen(g, nWin, s.nFlips - g.nFlips, draws)
    decreases maxIters
  {
    if maxIters > 0 && g.nHeadsInARow < nWin {
      var g1, ds := FlipStep(g, draws[0]), draws[1..];
      PlayWonIsFirstWin(g1, nWin, maxIters - 1, ds);
      var (s, r) := PlayFrom(g1, nWin, maxIters - 1, ds);
      if r.Some? {
        var k := s.nFlips - g1.nFlips;
        assert Run(g, draws, k + 1) == Run(g1, ds, k);
        NoWinSeenStep(g, nWin, k + 1, draws);
      }
    }
  }

  /** With a coin that always lands heads, a game wins after exactly the missing streak length. */
  lemma {:induction false} PlayCertainHeads(g: GameSnapshot, nWin: nat, maxIters: nat, draws: seq<real>)
    requires maxIters <= |draws| && DrawsInRange(draws) && g.pHeads == 1.0
    requires g.nHeadsInARow <= nWin && nWin - g.nHeadsInARow < maxIters
    ensures var (s, r) := PlayFrom(g, nWin, maxIters, draws);
      r == Some(s) && s.nHeadsInARow == nWin && s.nFlips == g.nFlips + (nWin - g.nHeadsInARow)
    decreases maxIters
  {
    if g.nHeadsInARow < nWin {
      assert draws[0] < 1.0;
      PlayCertainHeads(FlipStep(g, draws[0]), nWin, maxIters - 1, draws[1..]);
    }
  }

  /** With a coin that never lands heads, a game is abandoned after `maxIters` flips with no streak. */
  lemma {:induction false} PlayNoHeads(g: GameSnapshot, nWin: nat, maxIters: nat, draws: seq<real>)
    requires maxIters <= |draws| && DrawsInRange(draws) && g.pHeads == 0.0
    requires g.nHeadsInARow < nWin
    ensures var (s, r) := PlayFrom(g, nWin, maxIters, draws);
      r.None? && s.nFlips == g.nFlips + maxIters &&
      s.nHeadsInARow == (if maxIters == 0 then g.nHeadsInARow else 0)
    ensures forall j :: 1 <= j <= maxIters ==> Run(g, draws, j).nHeadsInARow == 0
    decreases maxIters
  {
    if maxIters > 0 {
      assert draws[0] >= 0.0;
      PlayNoHeads(FlipStep(g, draws[0]), nWin, maxIters - 1, draws[1..]);
    }
    forall j | 1 <= j <= maxIters
      ensures Run(g, draws, j).nHeadsInARow == 0
    {
      RunStep(g, draws, j - 1);
      assert draws[j - 1] >= 0.0;
    }
  }

  /**
   * The win check comes only before a flip: a fresh game whose one permitted
   * flip completes the streak is still abandoned.
   */
  lemma WinOnLastFlipIsAbandoned()
    ensures var (s, r) := PlayFrom(NewGame(), 1, 1, [0.0]);
      r.None? && s.nHeadsInARow >= 1
  {
    assert PlayFrom(NewGame(), 1, 1, [0.0]) == PlayFrom(FlipStep(NewGame(), 0.0), 1, 0, []);
  }
}
