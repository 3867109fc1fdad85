/** Batch statistics: `simulate_multiple_games`.

    The batch plays `numSimulations` games with the default round cap, one
    after another on one shared draw stream, and reports the outcome and
    length of each game with the empirical ruin probability of A and the
    mean game length.
 */
module Batch {
  import opened Walk
  import opened Game

  /** The round cap every game of a batch runs with (the default argument
      of `simulate_game`). */
  const DefaultMaxRounds: nat := 100000

  /** The most draws `count` capped games can consume. It is written with
      the literal cap so that the verifier sees a linear term;
      `BudgetIsCapPerGame` ties it to `DefaultMaxRounds`. */
  function Budget(count: nat): nat {
    100000 * count
  }

  lemma BudgetIsCapPerGame(count: nat)
    ensures Budget(count) == DefaultMaxRounds * count
  {
  }

  /** What `simulate_multiple_games` returns. */
  datatype BatchResult = BatchResult(aWins: seq<bool>, numRounds: seq<nat>, pRuinA: real, avgRounds: real)

  /** Number of games A won. */
  function CountTrue(s: seq<bool>): (c: nat)
    ensures c <= |s|
  {
    if |s| == 0 then 0 else CountTrue(s[..|s| - 1]) + (if s[|s| - 1] then 1 else 0)
  }

  /** Number of games A lost. */
  function CountFalse(s: seq<bool>): (c: nat)
    ensures c <= |s|
  {
    if |s| == 0 then 0 else CountFalse(s[..|s| - 1]) + (if s[|s| - 1] then 0 else 1)
  }

  /** Every game is either won or lost by A. */
  lemma {:induction false} CountsPartition(s: seq<bool>)
    ensures CountTrue(s) + CountFalse(s) == |s|
  {
    if |s| > 0 {
      CountsPartition(s[..|s| - 1]);
    }
  }

  /** Total of a list of round counts. */
  function Sum(s: seq<nat>): nat {
    if |s| == 0 then 0 else Sum(s[..|s| - 1]) + s[|s| - 1]
  }

  /** A list of round counts each at most `m` sums to at most `m` per entry. */
  lemma {:induction false} SumBounded(s: seq<nat>, m: nat)
    requires forall j :: 0 <= j < |s| ==> s[j] <= m
    ensures Sum(s) <= m * |s|
  {
    if |s| > 0 {
      SumBounded(s[..|s| - 1], m);
      assert m * |s| == m * (|s| - 1) + m;
    }
  }

  /** `np.mean` of a list of booleans: the fraction that are true. */
  function MeanOfBools(s: seq<bool>): (m: real)
    requires 0 < |s|
    ensures 0.0 <= m <= 1.0
  {
    (CountTrue(s) as real) / (|s| as real)
  }

  /** `np.mean` of a list of round counts. */
  function MeanOfNats(s: seq<nat>): (m: real)
    requires 0 < |s|
    ensures 0.0 <= m
  {
    (Sum(s) as real) / (|s| as real)
  }

  /** The outcomes of `count` capped games played one after another on
      `stream`, each starting at the first draw the previous one left. */
  function Games(a: int, b: int, pA: real, count: nat, stream: seq<Draw>): (os: seq<Outcome>)
    requires Budget(count) <= |stream|
    ensures |os| == count
    ensures forall j :: 0 <= j < count ==> os[j].rounds <= DefaultMaxRounds
    decreases count
  {
    if count == 0 then []
    else
      var o := Play(a, b, pA, DefaultMaxRounds, stream);
      BudgetStep(count);
      [o] + Games(a, b, pA, count - 1, stream[o.rounds..])
  }

  /** Removing one game from a budget of `count` capped games frees one
      cap's worth of draws. */
  lemma BudgetStep(count: nat)
    requires 1 <= count
    ensures 0 <= Budget(count - 1) == Budget(count) - DefaultMaxRounds
  {
  }

  /** The first of `count` games is one game on the stream; the rest are
      played on the draws it left unconsumed. */
  lemma GamesUnfold(a: int, b: int, pA: real, count: nat, stream: seq<Draw>)
    requires 1 <= count && Budget(count) <= |stream|
    ensures DefaultMaxRounds <= |stream|
    ensures var o := Play(a, b, pA, DefaultMaxRounds, stream);
      && Budget(count - 1) <= |stream| - o.rounds
      && Games(a, b, pA, count, stream) == [o] + Games(a, b, pA, count - 1, stream[o.rounds..])
  {
    BudgetStep(count);
  }

  /** Whether A won each of a list of games. */
  function WinsOf(os: seq<Outcome>): (ws: seq<bool>)
    ensures |ws| == |os|
    ensures forall j :: 0 <= j < |os| ==> ws[j] == os[j].aWins
  {
    seq(|os|, j requires 0 <= j < |os| => os[j].aWins)
  }

  /** The length of each of a list of games. */
  function RoundsOf(os: seq<Outcome>): (rs: seq<nat>)
    ensures |rs| == |os|
    ensures forall j :: 0 <= j < |os| ==> rs[j] == os[j].rounds
  {
    seq(|os|, j requires 0 <= j < |os| => os[j].rounds)
  }

  /** Recording one more game extends both per-game lists by its entry. */
  lemma RecordGame(played: seq<Outcome>, o: Outcome)
    ensures WinsOf(played + [o]) == WinsOf(played) + [o.aWins]
    ensures RoundsOf(played + [o]) == RoundsOf(played) + [o.rounds]
  {
  }

  /** The loop of `simulate_multiple_games` as a tail-recursive function:
      play the `count` games still to come on `remaining`, appending each
      game's outcome to `ws` and its length to `rs`. */
  function PlayRest(a: int, b: int, pA: real, count: nat, remaining: seq<Draw>,
                    ws: seq<bool>, rs: seq<nat>): (seq<bool>, seq<nat>)
    requires Budget(count) <= |remaining|
    decreases count
  {
    if count == 0 then (ws, rs)
    else
      var o := Play(a, b, pA, DefaultMaxRounds, remaining);
      BudgetStep(count);
      PlayRest(a, b, pA, count - 1, remaining[o.rounds..], ws + [o.aWins], rs + [o.rounds])
  }

  /** Playing the rest after the games `played` records exactly the
      outcomes and lengths of the played games followed by those of the
      rest. */
  lemma {:induction false} PlayRestRecords(a: int, b: int, pA: real, count: nat, remaining: seq<Draw>,
                                           played: seq<Outcome>)
    requires Budget(count) <= |remaining|
    ensures PlayRest(a, b, pA, count, remaining, WinsOf(played), RoundsOf(played))
            == (WinsOf(played + Games(a, b, pA, count, remaining)),
                RoundsOf(played + Games(a, b, pA, count, remaining)))
    decreases count
  {
    if count == 0 {
      assert played + Games(a, b, pA, count, remaining) == played;
    } else {
      GamesUnfold(a, b, pA, count, remaining);
      var o := Play(a, b, pA, DefaultMaxRounds, remaining);
      var rest := Games(a, b, pA, count - 1, remaining[o.rounds..]);
      RecordGame(played, o);
      PlayRestRecords(a, b, pA, count - 1, remaining[o.rounds..], played + [o]);
      AppendOne(played, o, rest);
    }
  }

  /** Regrouping a list of games around one game. */
  lemma AppendOne(played: seq<Outcome>, o: Outcome, rest: seq<Outcome>)
    ensures (played + [o]) + rest == played + ([o] + rest)
  {
  }

  /** `simulate_multiple_games`: the per-game outcomes and lengths, the
      fraction of games A lost and the mean game length. */
  method SimulateMultipleGames(a: int, b: int, pA: real, numSimulations: nat, stream: seq<Draw>)
    returns (r: BatchResult)
    requires 0 < numSimulations
    requires Budget(numSimulations) <= |stream|
    ensures |r.aWins| == numSimulations && |r.numRounds| == numSimulations
    ensures r.aWins == WinsOf(Games(a, b, pA, numSimulations, stream))
    ensures r.numRounds == RoundsOf(Games(a, b, pA, numSimulations, stream))
    // the ruin probability is the fraction of games A lost
    ensures r.pRuinA == (CountFalse(r.aWins) as real) / (numSimulations as real)
    ensures 0.0 <= r.pRuinA <= 1.0
    ensures r.avgRounds == (Sum(r.numRounds) as real) / (numSimulations as real)
    ensures 0.0 <= r.avgRounds <= DefaultMaxRounds as real
  {
    var aWinsList, numRoundsList := PlayGames(a, b, pA, numSimulations, stream);
    r := Summarize(aWinsList, numRoundsList);
  }

  /** The loop of `simulate_multiple_games`: play `numSimulations` games
      one after another and record whether A won each and how long each
      lasted. */
  method PlayGames(a: int, b: int, pA: real, numSimulations: nat, stream: seq<Draw>)
    returns (aWinsList: seq<bool>, numRoundsList: seq<nat>)
    requires Budget(numSimulations) <= |stream|
    ensures aWinsList == WinsOf(Games(a, b, pA, numSimulations, stream))
    ensures numRoundsList == RoundsOf(Games(a, b, pA, numSimulations, stream))
  {
    PlayRestRecords(a, b, pA, numSimulations, stream, []);
    assert [] + Games(a, b, pA, numSimulations, stream) == Games(a, b, pA, numSimulations, stream);
    aWinsList, numRoundsList := [], [];
    var remaining := stream;
    var sim := 0;
    while sim < numSimulations
      invariant sim <= numSimulations
      invariant Budget(numSimulations - sim) <= |remaining|
      invariant PlayRest(a, b, pA, numSimulations - sim, remaining, aWinsList, numRoundsList)
                == PlayRest(a, b, pA, numSimulations, stream, [], [])
      decreases numSimulations - sim
    {
      BudgetStep(numSimulations - sim);
      var aWins, rounds, _ := SimulateGame(a, b, pA, DefaultMaxRounds, remaining);
      aWinsList := aWinsList + [aWins];
      numRoundsList := numRoundsList + [rounds];
      remaining := remaining[rounds..];
      sim := sim + 1;
    }
  }

  /** The statistics `simulate_multiple_games` derives from its two lists. */
  function Summarize(aWins: seq<bool>, numRounds: seq<nat>): (r: BatchResult)
    requires 0 < |aWins| == |numRounds|
    requires forall j :: 0 <= j < |numRounds| ==> numRounds[j] <= DefaultMaxRounds
    ensures r.aWins == aWins && r.numRounds == numRounds
    ensures r.pRuinA == (CountFalse(aWins) as real) / (|aWins| as real)
    ensures 0.0 <= r.pRuinA <= 1.0
    ensures r.avgRounds == (Sum(numRounds) as real) / (|numRounds| as real)
    ensures 0.0 <= r.avgRounds <= DefaultMaxRounds as real
  {
    CountsPartition(aWins);
    SumBounded(numRounds, DefaultMaxRounds);
    ComplementOfFraction(CountTrue(aWins) as real, CountFalse(aWins) as real, |aWins| as real);
    FractionAtMost(Sum(numRounds) as real, DefaultMaxRounds as real, |numRounds| as real);
    BatchResult(aWins, numRounds, 1.0 - MeanOfBools(aWins), MeanOfNats(numRounds))
  }

  /** When every item is a win or a loss, one minus the fraction of wins
      is the fraction of losses, and that fraction lies in [0, 1]. */
  lemma ComplementOfFraction(wins: real, losses: real, n: real)
    requires 0.0 <= wins && 0.0 <= losses && wins + losses == n && 0.0 < n
    ensures 1.0 - wins / n == losses / n
    ensures 0.0 <= losses / n <= 1.0
  {
    assert wins / n + losses / n == (wins + losses) / n;
  }

  /** A total of at most `m` per item averages to at most `m`. */
  lemma FractionAtMost(total: real, m: real, n: real)
    requires 0.0 <= total <= m * n && 0.0 < n
    ensures total / n <= m
  {
    assert total / n <= (m * n) / n;
  }
}
