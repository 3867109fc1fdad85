/** Run-to-absorption games: `simulate_game` and `simulate_game_with_wins`.

    `Trace` and `Play` are the functional reference for the round loop; the
    two methods follow the original while loops and are proved to compute
    exactly what `Play` does on the same draws.
 */
module Game {
  import opened Walk

  /** What `simulate_game` returns. */
  datatype Outcome = Outcome(aWins: bool, rounds: nat, capitalHistory: seq<int>)

  /** Every state a game visits from `s` on: each next state is one `Step`
      of the previous one, taken only while the game is in play, and the
      last state is the first one that is not in play. */
  function Trace(s: State, pA: real, maxRounds: nat, draws: seq<Draw>): (h: seq<State>)
    requires s.rounds <= maxRounds <= |draws|
    ensures 1 <= |h| && h[0] == s
    ensures forall i :: 0 <= i < |h| ==> h[i].rounds == s.rounds + i
    ensures s.rounds + |h| - 1 <= maxRounds
    ensures forall i :: 0 <= i < |h| ==> h[i].capitalA + h[i].capitalB == s.capitalA + s.capitalB
    ensures forall i :: 0 <= i < |h| - 1 ==> InPlay(h[i], maxRounds)
    ensures forall i :: 0 <= i < |h| - 1 ==> h[i + 1] == Step(h[i], pA, draws[h[i].rounds])
    ensures !InPlay(h[|h| - 1], maxRounds)
    decreases maxRounds - s.rounds
  {
    if InPlay(s, maxRounds) then
      [s] + Trace(Step(s, pA, draws[s.rounds]), pA, maxRounds, draws)
    else
      [s]
  }

  /** A's capital in each state of a trace. */
  function Capitals(h: seq<State>): (c: seq<int>)
    ensures |c| == |h|
    ensures forall i :: 0 <= i < |h| ==> c[i] == h[i].capitalA
  {
    seq(|h|, i requires 0 <= i < |h| => h[i].capitalA)
  }

  /** Extending a trace prefix by one state extends its capitals by that
      state's capital. */
  lemma CapitalsExtend(h: seq<State>, r: nat)
    requires r + 1 < |h|
    ensures Capitals(h[..r + 2]) == Capitals(h[..r + 1]) + [h[r + 1].capitalA]
  {
  }

  /** The outcome of one game started at capitals `a` and `b`. */
  function Play(a: int, b: int, pA: real, maxRounds: nat, draws: seq<Draw>): (o: Outcome)
    requires maxRounds <= |draws|
    ensures o.rounds <= maxRounds
    ensures |o.capitalHistory| == o.rounds + 1
    ensures o.capitalHistory[0] == a
    ensures forall i :: 0 <= i < o.rounds ==>
              o.capitalHistory[i + 1] == o.capitalHistory[i] + 1 || o.capitalHistory[i + 1] == o.capitalHistory[i] - 1
    // the game goes on only while both players are solvent
    ensures forall i :: 0 <= i < o.rounds ==> 0 < o.capitalHistory[i] < a + b
    // it stops on ruin of A, ruin of B, or at the cap
    ensures var k := o.capitalHistory[o.rounds];
              k <= 0 || a + b - k <= 0 || o.rounds == maxRounds
    // a game stopped by the cap with A still solvent counts as a win for A
    ensures o.aWins <==> o.capitalHistory[o.rounds] > 0
  {
    var h := Trace(Start(a, b), pA, maxRounds, draws);
    var last := h[|h| - 1];
    Outcome(last.capitalA > 0, last.rounds, Capitals(h))
  }

  /** The loop of the simulators as a tail-recursive function: from state
      `s`, with A's capitals so far in `history`, play rounds while the game
      is in play, recording A's capital after each. */
  function Run(s: State, history: seq<int>, pA: real, maxRounds: nat, draws: seq<Draw>): Outcome
    requires s.rounds <= maxRounds <= |draws|
    decreases maxRounds - s.rounds
  {
    if InPlay(s, maxRounds) then
      var t := Step(s, pA, draws[s.rounds]);
      Run(t, history + [t.capitalA], pA, maxRounds, draws)
    else
      Outcome(s.capitalA > 0, s.rounds, history)
  }

  /** Running the loop from any state of a game's trace, with the capitals
      recorded up to that state, finishes the game as `Play` describes it. */
  lemma {:induction false} RunFollowsTrace(a: int, b: int, pA: real, maxRounds: nat, draws: seq<Draw>, i: nat)
    requires maxRounds <= |draws|
    requires i < |Trace(Start(a, b), pA, maxRounds, draws)|
    ensures var h := Trace(Start(a, b), pA, maxRounds, draws);
      && h[i].rounds <= maxRounds
      && Run(h[i], Capitals(h[..i + 1]), pA, maxRounds, draws) == Play(a, b, pA, maxRounds, draws)
    decreases |Trace(Start(a, b), pA, maxRounds, draws)| - i
  {
    var h := Trace(Start(a, b), pA, maxRounds, draws);
    if i + 1 < |h| {
      assert h[i + 1] == Step(h[i], pA, draws[h[i].rounds]);
      CapitalsExtend(h, i);
      RunFollowsTrace(a, b, pA, maxRounds, draws, i + 1);
    } else {
      assert h[..i + 1] == h;
    }
  }

  /** The loop started at capitals `a` and `b` plays exactly `Play`. */
  lemma RunIsPlay(a: int, b: int, pA: real, maxRounds: nat, draws: seq<Draw>)
    requires maxRounds <= |draws|
    ensures Run(Start(a, b), [a], pA, maxRounds, draws) == Play(a, b, pA, maxRounds, draws)
  {
    var h := Trace(Start(a, b), pA, maxRounds, draws);
    RunFollowsTrace(a, b, pA, maxRounds, draws, 0);
    assert Capitals(h[..1]) == [a];
  }

  /** A's capital after the game ends. */
  function FinalCapital(o: Outcome): int
    requires |o.capitalHistory| == o.rounds + 1
  {
    o.capitalHistory[o.rounds]
  }

  /** The trace of a game is the free walk on the same draws, cut off at
      the first round in which a player is ruined or the cap is reached. */
  lemma {:induction false} TraceFollowsFreeWalk(a: int, b: int, pA: real, maxRounds: nat, draws: seq<Draw>, i: nat)
    requires maxRounds <= |draws|
    requires i < |Trace(Start(a, b), pA, maxRounds, draws)|
    ensures Trace(Start(a, b), pA, maxRounds, draws)[i].capitalA == FreeWalk(a, pA, draws, i)
  {
    var h := Trace(Start(a, b), pA, maxRounds, draws);
    if i > 0 {
      TraceFollowsFreeWalk(a, b, pA, maxRounds, draws, i - 1);
      assert h[i] == Step(h[i - 1], pA, draws[i - 1]);
      FreeWalkStep(a, pA, draws, i - 1);
    }
  }

  /** Play is the free walk stopped at its first exit from the open
      interval (0, a + b), or at the cap if that comes first. */
  lemma PlayIsStoppedFreeWalk(a: int, b: int, pA: real, maxRounds: nat, draws: seq<Draw>)
    requires maxRounds <= |draws|
    ensures var o := Play(a, b, pA, maxRounds, draws);
      && (forall i :: 0 <= i <= o.rounds ==> o.capitalHistory[i] == FreeWalk(a, pA, draws, i))
      && (forall i :: 0 <= i < o.rounds ==> 0 < FreeWalk(a, pA, draws, i) < a + b)
      && (o.rounds == maxRounds || FreeWalk(a, pA, draws, o.rounds) <= 0 || FreeWalk(a, pA, draws, o.rounds) >= a + b)
  {
    var o := Play(a, b, pA, maxRounds, draws);
    forall i | 0 <= i <= o.rounds
      ensures o.capitalHistory[i] == FreeWalk(a, pA, draws, i)
    {
      TraceFollowsFreeWalk(a, b, pA, maxRounds, draws, i);
    }
  }

  /** With positive starting capitals every capital A holds during the game
      lies between 0 and the total a + b. */
  lemma PlayStaysInBounds(a: int, b: int, pA: real, maxRounds: nat, draws: seq<Draw>)
    requires 1 <= a && 1 <= b
    requires maxRounds <= |draws|
    ensures var o := Play(a, b, pA, maxRounds, draws);
      forall i :: 0 <= i <= o.rounds ==> 0 <= o.capitalHistory[i] <= a + b
  {
    var o := Play(a, b, pA, maxRounds, draws);
    if o.rounds > 0 {
      assert 0 < o.capitalHistory[o.rounds - 1] < a + b;
    }
  }

  /** When A wins every round (as it does when pA == 1, since every draw is
      below 1) and the cap allows it, the game lasts exactly b rounds and
      ends with B ruined. */
  lemma {:induction false} AlwaysWinningLastsB(a: int, b: int, pA: real, maxRounds: nat, draws: seq<Draw>)
    requires 1 <= a && 1 <= b
    requires b <= maxRounds <= |draws|
    requires forall i :: 0 <= i < |draws| ==> WinsRound(pA, draws[i])
    ensures Play(a, b, pA, maxRounds, draws).rounds == b
    ensures Play(a, b, pA, maxRounds, draws).aWins
  {
    var o := Play(a, b, pA, maxRounds, draws);
    PlayIsStoppedFreeWalk(a, b, pA, maxRounds, draws);
    forall i | 0 <= i <= maxRounds
      ensures FreeWalk(a, pA, draws, i) == a + i
    {
      AllWinsCount(pA, draws, i);
    }
    assert FreeWalk(a, pA, draws, o.rounds) == a + o.rounds;
    assert FreeWalk(a, pA, draws, b) == a + b;
  }

  /** If A wins every draw, A has won all of the first i rounds. */
  lemma {:induction false} AllWinsCount(pA: real, draws: seq<Draw>, i: nat)
    requires i <= |draws|
    requires forall j :: 0 <= j < |draws| ==> WinsRound(pA, draws[j])
    ensures Wins(pA, draws, i) == i
  {
    if i > 0 {
      AllWinsCount(pA, draws, i - 1);
    }
  }

  /** `simulate_game`: play one game to absorption or to the cap. */
  method SimulateGame(a: int, b: int, pA: real, maxRounds: nat, draws: seq<Draw>)
    returns (aWins: bool, rounds: nat, capitalHistory: seq<int>)
    requires maxRounds <= |draws|
    ensures Outcome(aWins, rounds, capitalHistory) == Play(a, b, pA, maxRounds, draws)
  {
    RunIsPlay(a, b, pA, maxRounds, draws);
    var capitalA, capitalB := a, b;
    rounds := 0;
    capitalHistory := [capitalA];
    while capitalA > 0 && capitalB > 0 && rounds < maxRounds
      invariant rounds <= maxRounds
      invariant Run(State(capitalA, capitalB, rounds), capitalHistory, pA, maxRounds, draws)
                == Play(a, b, pA, maxRounds, draws)
      decreases maxRounds - rounds
    {
      if draws[rounds] < pA {
        capitalA := capitalA + 1;
        capitalB := capitalB - 1;
      } else {
        capitalA := capitalA - 1;
        capitalB := capitalB + 1;
      }
      rounds := rounds + 1;
      capitalHistory := capitalHistory + [capitalA];
    }
    aWins := capitalA > 0;
  }

  /** `simulate_game_with_wins`: the same game, also recording A's
      cumulative number of won rounds. */
  method SimulateGameWithWins(a: int, b: int, pA: real, maxRounds: nat, draws: seq<Draw>)
    returns (aWins: bool, rounds: nat, capitalHistory: seq<int>, winsHistory: seq<nat>)
    requires maxRounds <= |draws|
    // on the same draws it agrees with `simulate_game`
    ensures Outcome(aWins, rounds, capitalHistory) == Play(a, b, pA, maxRounds, draws)
    ensures |winsHistory| == |capitalHistory|
    ensures winsHistory[0] == 0
    ensures forall i :: 0 <= i < rounds ==>
              winsHistory[i + 1] == winsHistory[i] || winsHistory[i + 1] == winsHistory[i] + 1
    ensures forall i :: 0 <= i <= rounds ==> winsHistory[i] == Wins(pA, draws, i)
    ensures forall i :: 0 <= i <= rounds ==> capitalHistory[i] == a + 2 * winsHistory[i] - i
  {
    RunIsPlay(a, b, pA, maxRounds, draws);
    var capitalA, capitalB := a, b;
    rounds := 0;
    var winsA: nat := 0;
    capitalHistory := [capitalA];
    winsHistory := [0];
    while capitalA > 0 && capitalB > 0 && rounds < maxRounds
      invariant rounds <= maxRounds
      invariant Run(State(capitalA, capitalB, rounds), capitalHistory, pA, maxRounds, draws)
                == Play(a, b, pA, maxRounds, draws)
      invariant winsA == Wins(pA, draws, rounds)
      invariant winsHistory == WinsPrefix(pA, draws, rounds)
      decreases maxRounds - rounds
    {
      if draws[rounds] < pA {
        capitalA := capitalA + 1;
        capitalB := capitalB - 1;
        winsA := winsA + 1;
      } else {
        capitalA := capitalA - 1;
        capitalB := capitalB + 1;
      }
      WinsPrefixExtend(pA, draws, rounds);
      rounds := rounds + 1;
      capitalHistory := capitalHistory + [capitalA];
      winsHistory := winsHistory + [winsA];
    }
    aWins := capitalA > 0;
    WinsRecordOfPlay(a, b, pA, maxRounds, draws);
  }

  /** The wins record of a game: it starts at 0, rises by at most one per
      round, and A's capital is a + 2 * wins - rounds throughout. */
  lemma WinsRecordOfPlay(a: int, b: int, pA: real, maxRounds: nat, draws: seq<Draw>)
    requires maxRounds <= |draws|
    ensures var o := Play(a, b, pA, maxRounds, draws);
      var ws := WinsPrefix(pA, draws, o.rounds);
      && ws[0] == 0
      && (forall i :: 0 <= i < o.rounds ==> ws[i + 1] == ws[i] || ws[i + 1] == ws[i] + 1)
      && (forall i :: 0 <= i <= o.rounds ==> o.capitalHistory[i] == a + 2 * ws[i] - i)
  {
    var o := Play(a, b, pA, maxRounds, draws);
    PlayIsStoppedFreeWalk(a, b, pA, maxRounds, draws);
    WinsHistoryShape(a, pA, draws, o.capitalHistory, WinsPrefix(pA, draws, o.rounds));
  }

  /** The cumulative number of rounds A has won after each of the first
      `r` rounds. */
  function WinsPrefix(pA: real, draws: seq<Draw>, r: nat): (ws: seq<nat>)
    requires r <= |draws|
    ensures |ws| == r + 1
    ensures forall i :: 0 <= i <= r ==> ws[i] == Wins(pA, draws, i)
  {
    seq(r + 1, i requires 0 <= i <= r => Wins(pA, draws, i))
  }

  /** One more round appends the new count of won rounds. */
  lemma WinsPrefixExtend(pA: real, draws: seq<Draw>, r: nat)
    requires r < |draws|
    ensures WinsPrefix(pA, draws, r + 1) == WinsPrefix(pA, draws, r) + [Wins(pA, draws, r + 1)]
  {
  }

  /** A cumulative-wins record that counts the won draws rises by at most
      one per round and, beside a capital record that follows the free
      walk, satisfies capital = a + 2 * wins - rounds. */
  lemma WinsHistoryShape(a: int, pA: real, draws: seq<Draw>, capitalHistory: seq<int>, winsHistory: seq<nat>)
    requires 1 <= |winsHistory| == |capitalHistory| <= |draws| + 1
    requires forall i :: 0 <= i < |capitalHistory| ==> capitalHistory[i] == FreeWalk(a, pA, draws, i)
    requires forall i :: 0 <= i < |winsHistory| ==> winsHistory[i] == Wins(pA, draws, i)
    ensures winsHistory[0] == 0
    ensures forall i :: 0 <= i < |winsHistory| - 1 ==>
              winsHistory[i + 1] == winsHistory[i] || winsHistory[i + 1] == winsHistory[i] + 1
    ensures forall i :: 0 <= i < |winsHistory| ==> capitalHistory[i] == a + 2 * winsHistory[i] - i
  {
  }
}
