/** The one-round step of the Gambler's Ruin random walk and the free
    (unabsorbed) walk it induces on a stream of uniform draws.

    The random source of the original is made explicit: a game reads one
    `Draw` per round, and round `i` is won by player A exactly when the
    draw it reads lies below `pA`.
 */
module Walk {

  /** One value of a uniform generator on the half-open interval [0, 1). */
  type Draw = u: real | 0.0 <= u < 1.0

  /** The mutable part of one game: both capitals and the rounds played. */
  datatype State = State(capitalA: int, capitalB: int, rounds: nat)

  /** The state a game starts in. */
  function Start(a: int, b: int): (s: State)
    ensures s.capitalA == a && s.capitalB == b && s.rounds == 0
  {
    State(a, b, 0)
  }

  /** A wins the round that reads draw `u`. */
  predicate WinsRound(pA: real, u: Draw) {
    u < pA
  }

  /** One round: one unit of capital moves from B to A when A wins the
      round, from A to B otherwise. */
  function Step(s: State, pA: real, u: Draw): (t: State)
    ensures t.capitalA + t.capitalB == s.capitalA + s.capitalB
    ensures t.rounds == s.rounds + 1
    ensures WinsRound(pA, u) ==> t.capitalA == s.capitalA + 1
    ensures !WinsRound(pA, u) ==> t.capitalA == s.capitalA - 1
  {
    if WinsRound(pA, u) then
      State(s.capitalA + 1, s.capitalB - 1, s.rounds + 1)
    else
      State(s.capitalA - 1, s.capitalB + 1, s.rounds + 1)
  }

  /** The loop guard of the simulators: both players are solvent and the
      round cap is not reached. */
  predicate InPlay(s: State, maxRounds: nat) {
    s.capitalA > 0 && s.capitalB > 0 && s.rounds < maxRounds
  }

  /** Number of the first `i` draws that A wins. */
  function Wins(pA: real, draws: seq<Draw>, i: nat): (w: nat)
    requires i <= |draws|
    ensures w <= i
  {
    if i == 0 then 0
    else Wins(pA, draws, i - 1) + (if WinsRound(pA, draws[i - 1]) then 1 else 0)
  }

  /** A's capital after `i` rounds of a walk that never stops: it has won
      `Wins(i)` rounds and lost the other `i - Wins(i)`. */
  function FreeWalk(a: int, pA: real, draws: seq<Draw>, i: nat): (k: int)
    requires i <= |draws|
    ensures a - i <= k <= a + i
  {
    a + 2 * Wins(pA, draws, i) - i
  }

  /** Stepping the free walk one more round moves it by exactly one unit,
      up when A wins the round read. */
  lemma FreeWalkStep(a: int, pA: real, draws: seq<Draw>, i: nat)
    requires i < |draws|
    ensures WinsRound(pA, draws[i]) ==> FreeWalk(a, pA, draws, i + 1) == FreeWalk(a, pA, draws, i) + 1
    ensures !WinsRound(pA, draws[i]) ==> FreeWalk(a, pA, draws, i + 1) == FreeWalk(a, pA, draws, i) - 1
  {
  }
}
