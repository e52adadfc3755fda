# unfair_flips in Dafny

A model of the coin-flip "streak" game of `unfair_flips`. A game flips a biased
coin and counts consecutive heads. The game is won when a streak of `n_win` heads
is reached. Each head also pays a reward that compounds with the streak length.
`main` runs many fresh games one after another. For each game it records one
number: the flip count of a win, or the iteration cap for an abandoned game.
A separate table lists nine probability tiers with their costs; only a "can
upgrade" query exists for it.

Files and modules:

- `wrappers.dfy` (`Wrappers`): the `Option` type that `play` returns.
- `flips.dfy` (`Flips`): src/main.rs without the file output.
  - `Game` is a class whose fields are the fields of the Rust struct.
  - `Game.Flip` and `Game.Play` change those fields in place.
  - `Game.CalcReward` is the reward formula.
  - Each method is proved against a pure function on the immutable `GameSnapshot`
    value: `FlipStep` for one flip, and `PlayFrom` for the capped driver.
  - `Run` is the state after `k` flips with no win check. The lemmas use it to say
    what the driver's result means.
- `batch.dfy` (`Batch`): the outcome-recording loop of `main`.
  - `Record` is the number `main` pushes for one outcome: `n_flips` on `Some`,
    the cap on `None`.
  - `RunGames` is the loop, and `MainBatch` runs it with main's values.
- `upgrades.dfy` (`Upgrades`): src/upgrades.rs, a pure module.

Modelling choices:

- The random draw `fastrand::f64()` is an explicit `real` argument of `Flip`.
- `Play` takes a sequence of draws; flip `i` uses `draws[i]`.
- The batch gets one draw sequence per game.
- Every `f64` is an exact `real`. Counters are `nat`.
- `ceil` is written as `-((-x).Floor)`, and `powi` as a recursive `Pow` on `nat`.
  The ceiling is on the power, before the multiplication by the coin value.

Behaviour of the program that the model keeps:

- A target streak of 0 is accepted. `play(0, k)` returns `Some` at the first
  check when k >= 1, and `None` when k = 0.
- The `Game` struct has no upgrade field.
- src/upgrades.rs is not compiled into the program, because main.rs never
  declares `mod upgrades;`. It is modelled as written.
- Abandonment is `None`, and `main` records the cap for it. `n_flips` keeps
  the real flip count.
- The win check runs only before a flip. So a streak that reaches `n_win` on
  the last permitted flip still gives `None` (`WinOnLastFlipIsAbandoned`).

## Model

| member | source | states |
|---|---|---|
| `Flips.Game.constructor` | src/main.rs:40-51 | a new game has p_heads 0.3, flip time 2, coin value 0.01 and multiplier 1; time, flips, streak and cash are 0; the game is consistent |
| `Flips.NewGame` | src/main.rs:40-51 | the starting state has zero counters, time and cash; it meets the time invariant; its parameters are in range |
| `Flips.Ceil` | src/main.rs:98 | the result is the least integer not below its argument |
| `Flips.PowOfOne` | src/main.rs:98 | 1 raised to any power is 1 |
| `Flips.PowNonNegative` | src/main.rs:98 | a non-negative base gives a non-negative power |
| `Flips.PowMonotone` | src/main.rs:98 | with a base of at least 1, a larger exponent gives a power no smaller |
| `Flips.Game.CalcReward` | src/main.rs:97-99 | the first head of a streak earns exactly the coin value |
| `Flips.RewardUnitMultiplier` | src/main.rs:197-201 | with multiplier 1, every streak length earns exactly the coin value |
| `Flips.RewardCeilsPowerOnly` | src/main.rs:98 | reward divided by coin value is a whole number, the least one at or above multiplier^(n-1) |
| `Flips.RewardRoundingOrderMatters` | src/main.rs:98 | rounding the product instead of the power gives a different value, for (0.25, 2.5, 3) |
| `Flips.RewardNonNegative` | src/main.rs:98 | a non-negative coin value and multiplier never give a negative reward |
| `Flips.RewardMonotone` | src/main.rs:98 | with multiplier at least 1 and a non-negative coin value, a longer streak never earns less |
| `Flips.RewardExamples` | src/main.rs:176-201 | all 25 cases of the test table, for example (0.25, 2.5, 3) gives 1.75, (0.1, 3.0, 5) gives 8.1 and (1.0, 2.5, 4) gives 16.0 |
| `Flips.Game.Flip` | src/main.rs:54-74 | flips goes up by 1 and time by the flip time; heads exactly when the draw is below p_heads; heads raises the streak by 1 and adds the reward for the new streak; tails resets the streak and keeps cash; the parameters do not change; the time invariant is kept |
| `Flips.FlipHeadsIff` | src/main.rs:56-73 | after a flip the streak is positive exactly when the draw was below p_heads; flips goes up by one and time by the flip time; the parameters are unchanged |
| `Flips.FlipKeepsConsistent` | src/main.rs:56-59 | if time equals flips times flip time and the streak is at most the flip count before a flip, both still hold after it |
| `Flips.FlipCashNonDecreasing` | src/main.rs:61-73 | with a non-negative coin value and multiplier, a flip never lowers cash; a tails leaves it unchanged |
| `Flips.Run` | src/main.rs:54-59 | k flips raise the flip count by exactly k and leave the parameters unchanged |
| `Flips.RunKeepsConsistent` | src/main.rs:40-59 | along every run from a consistent state, time equals flips times flip time |
| `Flips.RunCashNonDecreasing` | src/main.rs:61-73 | along a run, cash after j flips is at most cash after k flips whenever j <= k |
| `Flips.Game.Play` | src/main.rs:79-90 | the final state and result are exactly those of the capped driver; Some(s) means s is a copy of the final state, its streak is at least n_win, and fewer than max_iters flips were done; None means exactly max_iters flips were done; with max_iters 0 the result is None and the state is unchanged |
| `Flips.PlayKeepsConsistent` | src/main.rs:79-90 | the driver keeps the time invariant |
| `Flips.PlayNoneIffNoWinSeen` | src/main.rs:80-89 | the result is None exactly when none of the max_iters pre-flip checks saw a streak of n_win |
| `Flips.PlayAbandonedDoesAllFlips` | src/main.rs:80-89 | an abandoned game ends in the state reached after all max_iters flips |
| `Flips.PlayWonIsFirstWin` | src/main.rs:80-84 | Some(s) holds a copy of the final state; s is the state at the first pre-flip check that sees a streak of n_win; fewer than max_iters flips were done |
| `Flips.PlayCertainHeads` | src/main.rs:62-68 | with p_heads 1 and draws in [0,1), the game wins after exactly the missing streak length of flips, if the cap allows it |
| `Flips.PlayNoHeads` | src/main.rs:69-73 | with p_heads 0 and draws in [0,1), the game is abandoned after exactly max_iters flips, and the streak is 0 after every one of those flips |
| `Flips.WinOnLastFlipIsAbandoned` | src/main.rs:80-89 | a fresh game with n_win 1 and max_iters 1 reaches a streak of 1 on its only flip, and the result is still None |
| `Batch.RecordAbandonedIff` | src/main.rs:142-156 | for a fresh game, the recorded number equals max_iters exactly when the game was abandoned, and it never exceeds max_iters |
| `Batch.RunGames` | src/main.rs:137-157 | one entry per game, in launch order; entry i is n_flips of game i on Some and max_iters on None; an entry equals max_iters exactly when that game was abandoned |
| `Batch.MainBatch` | src/main.rs:131-157 | for main's values (1000 games, target streak 10, cap 2000000): one entry per game in launch order; entry i is n_flips of game i on Some and the cap on None; an entry equals the cap exactly when that game was abandoned |
| `Upgrades.PHeadsUpgradeState.New` | src/upgrades.rs:12-14 | the starting state is tier index 0, the 0.20-probability, zero-cost tier |
| `Upgrades.PHeadsUpgradeState.CanUpgrade` | src/upgrades.rs:17-19 | true exactly when a tier exists above the active index, that is when the index is below 8 |
| `Upgrades.TierCount` | src/upgrades.rs:29 | the table has exactly 9 tiers |
| `Upgrades.CanUpgradeByTier` | src/upgrades.rs:73-86 | upgrading is possible from indices 0 to 7 and not from index 8 |
| `Upgrades.NewCanUpgrade` | src/upgrades.rs:12-19 | the starting state can upgrade |
| `Upgrades.TierProbabilities` | src/upgrades.rs:29-66 | tier i has probability 0.20 + 0.05 i; probabilities strictly increase |
| `Upgrades.TierCosts` | src/upgrades.rs:29-66 | costs are 0 and then 0.01; each later cost is ten times the one before; costs strictly increase |

## Left out

- `save_usize_csv` is not modelled. It creates the file, writes it through a buffer, names it after a timestamp and handles flush errors; all of that is I/O.
- The console fallback when saving fails is not modelled, for the same reason.
- Wall-clock timing and the `println!` output of `main` are not modelled; they only report.
- `fastrand::f64()` is replaced by explicit draws. The quality of the random source is not modelled.
- In the batch, each game gets its own draw sequence. In the program, all games share one generator, so how that stream is split between games is not modelled.
- The IEEE-754 rounding of `f64` arithmetic and of `powi` is not modelled; all quantities are exact reals.
- Flips.Game.CalcReward: requires a streak of at least 1, so the negative exponent `powi(-1)` for a streak of 0 is not modelled. `flip` never calls it with 0, because it raises the streak first.
- Flips.Game.CalcReward: does not model the `as i32` cast of the streak, which truncates for streaks of 2^31 or more. Such a streak needs more flips than the cap used in `main`.
- `usize` overflow of `n_flips` and of the streak is not modelled; both are unbounded `nat`s.
- Flips.RewardCeilsPowerOnly: requires a non-zero coin value, because it describes the reward divided by the coin value.
- The `Debug`, `Clone`, `Copy` and `Serialize` derives are not modelled. The copy made by `Some(*self)` is the `GameSnapshot` value.
- No operation buys an upgrade, advances the tier index or spends cash, because the source has none.
