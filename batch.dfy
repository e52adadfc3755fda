/**
 * The outcome-recording loop of `main` (src/main.rs): run games one after
 * another from fresh state and record one number per game, the flip count of
 * a win or the iteration cap for an abandoned game.
 */
module Batch {
  import opened Wrappers
  import opened Flips

  /** The values `main` runs with. */
  const MaxIters: nat := 2_000_000
  const NGames: nat := 1_000
  const NWin: nat := 10

  /** The number `main` pushes for one game's outcome. */
  function Record(outcome: Option<GameSnapshot>, maxIters: nat): (n: nat)
  {
    match outcome
    case Some(s) => s.nFlips
    case None => maxIters
  }

  /** For a fresh game, the recorded number is the cap exactly when the game was abandoned, and never more. */
  lemma RecordAbandonedIff(nWin: nat, maxIters: nat, draws: seq<real>)
    requires maxIters <= |draws|
    ensures Record(PlayFrom(NewGame(), nWin, maxIters, draws).1, maxIters) == maxIters <==>
      PlayFrom(NewGame(), nWin, maxIters, draws).1.None?
    ensures Record(PlayFrom(NewGame(), nWin, maxIters, draws).1, maxIters) <= maxIters
  {
    PlayWonIsFirstWin(NewGame(), nWin, maxIters, draws);
  }

  /** Runs `nGames` fresh games in order, game `i` flipping with `draws[i]`. */
  method RunGames(nGames: nat, nWin: nat, maxIters: nat, draws: seq<seq<real>>) returns (results: seq<nat>)
    requires |draws| == nGames
    requires forall i :: 0 <= i < |draws| ==> maxIters <= |draws[i]|
    ensures |results| == nGames
    ensures forall i :: 0 <= i < nGames ==>
      results[i] == Record(PlayFrom(NewGame(), nWin, maxIters, draws[i]).1, maxIters)
    ensures forall i :: 0 <= i < nGames ==>
      results[i] <= maxIters &&
      (results[i] == maxIters <==> PlayFrom(NewGame(), nWin, maxIters, draws[i]).1.None?)
  {
    results := [];
    for i := 0 to nGames
      invariant |results| == i
      invariant forall j :: 0 <= j < i ==>
        results[j] == Record(PlayFrom(NewGame(), nWin, maxIters, draws[j]).1, maxIters)
    {
      var game := new Game();
      var endGame := game.Play(nWin, maxIters, draws[i]);
      match endGame {
        case Some(s) => results := results + [s.nFlips];
        case None => results := results + [maxIters];
      }
    }
    forall i | 0 <= i < nGames
      ensures results[i] <= maxIters &&
        (results[i] == maxIters <==> PlayFrom(NewGame(), nWin, maxIters, draws[i]).1.None?)
    {
      RecordAbandonedIff(nWin, maxIters, draws[i]);
    }
  }

  /** The batch exactly as `main` runs it. */
  method MainBatch(draws: seq<seq<real>>) returns (results: seq<nat>)
    requires |draws| == NGames
    requires forall i :: 0 <= i < |draws| ==> MaxIters <= |draws[i]|
    ensures |results| == NGames
    ensures forall i :: 0 <= i < NGames ==>
      results[i] == Record(PlayFrom(NewGame(), NWin, MaxIters, draws[i]).1, MaxIters)
    ensures forall i :: 0 <= i < NGames ==>
      results[i] <= MaxIters &&
      (results[i] == MaxIters <==> PlayFrom(NewGame(), NWin, MaxIters, draws[i]).1.None?)
  {
    results := RunGames(NGames, NWin, MaxIters, draws);
  }
}
