/** Fixed-horizon sampling: `simulate_capital_after_N_rounds`.

    Each simulation plays at most `n` rounds and stops early as soon as a
    player is ruined. All simulations read one shared draw stream, as the
    original reads one global generator: a simulation starts at the first
    draw its predecessor did not consume.
 */
module Horizon {
  import opened Walk
  import opened Game

  /** The capitals A can hold after a fixed-horizon simulation of `n`
      rounds started at capitals `a` and `b`. */
  predicate PossibleAfter(a: int, b: int, n: nat, k: int) {
    && a - n <= k <= a + n
    && (1 <= a && 1 <= b ==> 0 <= k <= a + b)
    && (n == 0 ==> k == a)
    && (n == 1 && 1 <= a && 1 <= b ==> k == a - 1 || k == a + 1)
  }

  /** What one fixed-horizon simulation leaves A with: the distance from
      the start is at most `n`, the capital stays within [0, a + b] when
      both players start solvent, zero rounds leave it unchanged and one
      round moves it by exactly one unit. */
  lemma HorizonValueBounds(a: int, b: int, pA: real, n: nat, draws: seq<Draw>)
    requires n <= |draws|
    ensures PossibleAfter(a, b, n, FinalCapital(Play(a, b, pA, n, draws)))
  {
    var o := Play(a, b, pA, n, draws);
    PlayIsStoppedFreeWalk(a, b, pA, n, draws);
    assert FinalCapital(o) == FreeWalk(a, pA, draws, o.rounds);
    if 1 <= a && 1 <= b {
      PlayStaysInBounds(a, b, pA, n, draws);
    }
  }

  /** Removing one simulation from a budget of `count` simulations of `n`
      draws each frees `n` draws. */
  lemma MulStep(n: nat, count: nat)
    requires 1 <= count
    ensures 0 <= n * (count - 1) == n * count - n
  {
  }

  /** The final capitals of `count` fixed-horizon simulations read one
      after another from `stream`. */
  function Samples(a: int, b: int, pA: real, n: nat, count: nat, stream: seq<Draw>): (ks: seq<int>)
    requires n * count <= |stream|
    ensures |ks| == count
    ensures forall j :: 0 <= j < count ==> PossibleAfter(a, b, n, ks[j])
    decreases count
  {
    if count == 0 then []
    else
      var o := Play(a, b, pA, n, stream);
      HorizonValueBounds(a, b, pA, n, stream);
      MulStep(n, count);
      [FinalCapital(o)] + Samples(a, b, pA, n, count - 1, stream[o.rounds..])
  }

  /** The first of `count` samples is one simulation on the stream; the
      rest are read from the draws it left unconsumed. */
  lemma SamplesUnfold(a: int, b: int, pA: real, n: nat, count: nat, stream: seq<Draw>)
    requires 1 <= count && n * count <= |stream|
    ensures n <= |stream|
    ensures var o := Play(a, b, pA, n, stream);
      && n * (count - 1) <= |stream| - o.rounds
      && Samples(a, b, pA, n, count, stream)
         == [FinalCapital(o)] + Samples(a, b, pA, n, count - 1, stream[o.rounds..])
  {
    MulStep(n, count);
  }

  /** One simulation of the fixed-horizon loop: at most `n` rounds, left
      early once a player is ruined. Returns A's capital and the number of
      draws consumed. */
  method CapitalAfterRounds(a: int, b: int, pA: real, n: nat, draws: seq<Draw>)
    returns (capital: int, used: nat)
    requires n <= |draws|
    // the for-loop with its early exit plays exactly the game capped at n rounds
    ensures capital == FinalCapital(Play(a, b, pA, n, draws))
    ensures used == Play(a, b, pA, n, draws).rounds
    // a simulation stops consuming draws once a player is ruined
    ensures used < n ==> capital <= 0 || a + b - capital <= 0
  {
    RunIsPlay(a, b, pA, n, draws);
    var capitalA, capitalB := a, b;
    var roundNum := 0;
    ghost var history := [a];
    while roundNum < n
      invariant roundNum <= n
      invariant |history| == roundNum + 1 && history[roundNum] == capitalA
      invariant Run(State(capitalA, capitalB, roundNum), history, pA, n, draws) == Play(a, b, pA, n, draws)
      decreases n - roundNum
    {
      if capitalA <= 0 || capitalB <= 0 {
        break;
      }
      if draws[roundNum] < pA {
        capitalA := capitalA + 1;
        capitalB := capitalB - 1;
      } else {
        capitalA := capitalA - 1;
        capitalB := capitalB + 1;
      }
      roundNum := roundNum + 1;
      history := history + [capitalA];
    }
    capital, used := capitalA, roundNum;
  }

  /** `simulate_capital_after_N_rounds`: A's capital after `n` rounds (or
      at ruin, if that comes first) in each of `numSimulations` games. */
  method SimulateCapitalAfterNRounds(a: int, b: int, pA: real, n: nat, numSimulations: nat, stream: seq<Draw>)
    returns (finalCapitals: seq<int>)
    requires n * numSimulations <= |stream|
    ensures finalCapitals == Samples(a, b, pA, n, numSimulations, stream)
    ensures |finalCapitals| == numSimulations
    ensures forall j :: 0 <= j < numSimulations ==> PossibleAfter(a, b, n, finalCapitals[j])
  {
    finalCapitals := [];
    var remaining := stream;
    var sim := 0;
    while sim < numSimulations
      invariant sim <= numSimulations
      invariant n * (numSimulations - sim) <= |remaining|
      invariant finalCapitals + Samples(a, b, pA, n, numSimulations - sim, remaining)
                == Samples(a, b, pA, n, numSimulations, stream)
      decreases numSimulations - sim
    {
      SamplesUnfold(a, b, pA, n, numSimulations - sim, remaining);
      var capital, used := CapitalAfterRounds(a, b, pA, n, remaining);
      finalCapitals := finalCapitals + [capital];
      remaining := remaining[used..];
      sim := sim + 1;
    }
    assert finalCapitals + [] == finalCapitals;
  }
}
