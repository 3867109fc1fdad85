# Gambler's Ruin engine in Dafny

This project models the engine of a Gambler's Ruin study, `tasks1/gambler_ruin.py`. Two players, A and B, start with capitals `a` and `b`. In every round, one unit moves from B to A with probability `pA`, and from A to B otherwise. The game ends when a player is ruined or a round cap is reached.

The engine has four parts, and the model covers all of them:

- **Run-to-absorption simulators.** `simulate_game`, and `simulate_game_with_wins`, which also records A's cumulative wins.
- **Fixed-horizon sampler.** `simulate_capital_after_N_rounds`.
- **Batch aggregator.** `simulate_multiple_games`.
- **Closed-form formulas.** `theoretical_P_ruin_A` and `theoretical_expected_rounds`.

The random generator becomes an explicit input: a sequence of `Draw`s, which are reals in [0, 1). Round `i` of a game reads one draw, and A wins the round exactly when that draw is below `pA`. The batch and horizon samplers read one shared stream, as the original reads one global generator. Each game starts at the first draw its predecessor left unread.

Modules, one file each:

- `Walk` (`walk.dfy`): the game state, the one-round `Step`, the count of won draws `Wins`, and the free (never-absorbed) walk `FreeWalk = a + 2 * Wins(i) - i`.
- `Game` (`game.dfy`): the functional reference `Trace`/`Play` and the loop as a tail-recursive `Run`. It also holds the two simulators as `while`-loop methods, proved equal to `Play`. `Play` is also characterised independently, as the free walk stopped at its first exit from the open interval (0, a + b).
- `Horizon` (`horizon.dfy`): one fixed-horizon simulation and the batch of them. `Samples` is the reference definition.
- `Batch` (`batch.dfy`): the batch of capped games. `Games` is the reference definition. The module also computes the two statistics.
- `RealAlgebra` (`algebra.dfy`): small facts of real arithmetic, each proved in isolation.
- `Formulas` (`formulas.dfy`): the ruin probability and the expected length.
  - Each is proved against the first-step equations of the game, with the right values at both ends.
  - The expected length is given twice: `ExpectedRoundsAsWritten` follows the source, and `ExpectedRounds` is corrected (see Findings).
- `Monotonicity` (`monotone.dfy`): the ruin probability falls strictly as `pA` rises. Both branches are rewritten in terms of the ratio r = q / p as (G(a + b) - G(a)) / G(a + b), where G(m) = 1 + r + ... + r^(m-1).
- `Findings` (`findings.dfy`): the discrepancy in the expected-length formula, both as written and corrected.

Modelling decisions taken from the source:

- The source has no argument checks and no error results, so the model has none either. What a formula needs to be defined becomes a precondition. For example, `np.mean([])` is NaN, so `Batch.SimulateMultipleGames` requires `0 < numSimulations`.
- The near-fair test of the expected length is the source's `abs(p - q) < 1e-10`, that is `|2 * pA - 1| < 1e-10`. The ruin probability's fair test is the exact `pA == 0.5` of line 95.
- Horizon samples read one shared stream, as the source's global generator does: each simulation continues where the previous one stopped.

## Model

| member | source | states |
|---|---|---|
| Walk.Step | tasks1/gambler_ruin.py:40-45 | one round keeps capitalA + capitalB, adds one round, and moves A's capital up by one when the draw is below pA and down by one otherwise |
| Game.Trace | tasks1/gambler_ruin.py:34-48 | the states a game visits: it starts at the given state; each next state is one Step taken only while both capitals are positive and the cap is not reached; the total capital is the same in every state; rounds never exceed the cap; the last state is out of play |
| Game.Play | tasks1/gambler_ruin.py:34-51 | the outcome of one game: at most maxRounds rounds; the history has rounds + 1 entries, starts at a and moves by exactly one per round; A's capital is strictly between 0 and a + b before the last round; the game ends on ruin of A, ruin of B or the cap; A wins exactly when its final capital is positive, so a game stopped by the cap with A solvent counts as a win for A |
| Game.RunFollowsTrace | tasks1/gambler_ruin.py:39-48 | the loop `Run`, resumed at any state of the reference trace with the capitals recorded so far, finishes with exactly Play's outcome, and that state is within the cap |
| Game.RunIsPlay | tasks1/gambler_ruin.py:34-51 | running the loop from (a, b) with history [a] yields exactly the outcome of Play |
| Game.PlayIsStoppedFreeWalk | tasks1/gambler_ruin.py:39-48 | every recorded capital equals the free walk a + 2 * wins - rounds on the same draws; the walk stays strictly inside (0, a + b) before the end and the game ends at the cap or at the walk's first exit |
| Game.PlayStaysInBounds | tasks1/gambler_ruin.py:36-50 | with a, b >= 1 every capital A holds during the game lies in [0, a + b] |
| Game.AlwaysWinningLastsB | tasks1/gambler_ruin.py:39-50 | when A wins every draw and the cap is at least b, the game lasts exactly b rounds and A wins |
| Game.SimulateGame | tasks1/gambler_ruin.py:11-51 | the while loop returns exactly Play's win flag, round count and capital history for the same draws |
| Game.SimulateGameWithWins | tasks1/gambler_ruin.py:138-172 | on the same draws it returns the same win flag, rounds and capital history as simulate_game; the wins history has the same length, starts at 0, rises by 0 or 1 per round, counts the won draws, and capital_history[i] == a + 2 * wins_history[i] - i |
| Game.WinsRecordOfPlay | tasks1/gambler_ruin.py:154-169 | the cumulative-wins record of a game starts at 0, rises by at most one per round and satisfies capital = a + 2 * wins - i at every round |
| Horizon.HorizonValueBounds | tasks1/gambler_ruin.py:186-200 | one fixed-horizon simulation ends within n of a; with a, b >= 1 it ends in [0, a + b]; n == 0 leaves a, and n == 1 gives a - 1 or a + 1 |
| Horizon.CapitalAfterRounds | tasks1/gambler_ruin.py:186-200 | the for loop with its early exit ends at Play's final capital for the game capped at n rounds and reads exactly Play's number of draws; if it reads fewer than n draws, a player is ruined |
| Horizon.Samples | tasks1/gambler_ruin.py:183-202 | the reference batch of horizon samples has one value per simulation, and every value is a possible end capital |
| Horizon.SimulateCapitalAfterNRounds | tasks1/gambler_ruin.py:175-202 | returns exactly the reference samples on the shared stream: num_simulations values, each a possible end capital |
| Batch.PlayRestRecords | tasks1/gambler_ruin.py:66-72 | the loop, run after the games already played, records exactly the win flags and lengths of those games followed by those of the games still to come |
| Batch.PlayGames | tasks1/gambler_ruin.py:66-72 | the for loop collects exactly the win flag and the length of each game of the reference batch, in order |
| Batch.Summarize | tasks1/gambler_ruin.py:74-75 | 1 - mean(wins) is the fraction of games A lost, which lies in [0, 1]; the mean length is the total divided by the count, and is at most the cap when every game respects it |
| Batch.SimulateMultipleGames | tasks1/gambler_ruin.py:54-82 | both lists have num_simulations entries and are the win flags and lengths of the reference batch; P_ruin_A is the fraction of games A lost, in [0, 1]; avg_rounds is the mean length, in [0, 100000] |
| Batch.MeanOfBools | tasks1/gambler_ruin.py:74 | `np.mean` of a non-empty list of win flags is a fraction in [0, 1] |
| Batch.MeanOfNats | tasks1/gambler_ruin.py:75 | `np.mean` of a non-empty list of round counts is non-negative |
| Batch.CountsPartition | tasks1/gambler_ruin.py:74 | the games A won and the games A lost together make up the batch |
| Formulas.TheoreticalRuinProbability | tasks1/gambler_ruin.py:85-103 | the result is a probability; it is 1 when a == 0, 0 when b == 0, and 0 when pA == 1 and a >= 1 |
| Formulas.PowAdd | tasks1/gambler_ruin.py:101-102 | `Pow`, the model of `ratio ** k` for a natural exponent, satisfies r^(i + j) = r^i * r^j |
| Formulas.PowNotOne | tasks1/gambler_ruin.py:102-103 | for a non-negative ratio other than 1 and a + b >= 1, ratio ** (a + b) is not 1, so the denominator of line 103 is never zero |
| Formulas.BiasedRuinBoundaries | tasks1/gambler_ruin.py:100-103 | the biased formula `BiasedRuin` gives ruin probability 1 at capital 0 and 0 at the full capital n |
| Formulas.BiasedRuinStep | tasks1/gambler_ruin.py:100-103 | at every interior capital the biased formula is pA times its value one unit up plus (1 - pA) times its value one unit down |
| Formulas.BiasedRuinInUnit | tasks1/gambler_ruin.py:99-103 | the biased formula (r^k - r^n) / (1 - r^n) lies in [0, 1] for every ratio r >= 0 other than 1 |
| Formulas.RuinFirstStep | tasks1/gambler_ruin.py:85-103 | at every interior capital k of a total n, the ruin probability is pA times the one at k + 1 plus (1 - pA) times the one at k - 1, in the fair and the biased branch; with the end values this characterises the ruin probability |
| Formulas.RuinComplement | tasks1/gambler_ruin.py:85-103 | A's ruin probability plus B's (the formula with a, b and pA, 1 - pA exchanged) is 1 |
| Monotonicity.RuinIsRuinOfRatio | tasks1/gambler_ruin.py:85-103 | for b >= 1 and every pA in (0, 1], both branches of the ruin probability equal the ratio form (G(a + b) - G(a)) / G(a + b) at r = q / p; in the fair branch r = 1, and with `GeoOfOne` (G(m) = m at r = 1) the form is b / (a + b) |
| Monotonicity.BiasedRuinMatchesRatio | tasks1/gambler_ruin.py:99-103 | the biased formula (r^a - r^(a+b)) / (1 - r^(a+b)) equals the ratio form for every ratio r >= 0 other than 1 |
| Monotonicity.RuinOfRatioIncreasing | tasks1/gambler_ruin.py:99-103 | with a, b >= 1 the ratio form grows strictly with r |
| Monotonicity.RuinDecreasing | tasks1/gambler_ruin.py:85-103 | with a, b >= 1, raising pA strictly lowers A's ruin probability, across the fair and the biased branch |
| Formulas.ExpectedRoundsAsWritten | tasks1/gambler_ruin.py:106-135 | the formula as written gives a * b in the fair game and inside the tolerance band; with pA == 1 it gives a |
| Formulas.ExpectedRounds | tasks1/gambler_ruin.py:106-135 | the corrected formula gives a * b in the fair game and inside the tolerance band; 0 when a player starts with nothing; b when pA == 1, the length of that deterministic game |
| Formulas.DurationFirstStep | tasks1/gambler_ruin.py:106-135 | at every interior capital, for the fair game and for every biased game outside the tolerance band, the corrected expected length is one round plus the pA-weighted average of the lengths one unit up and one unit down; with the value 0 at both ends this characterises the expected length |
| Findings.AsWrittenOffset | tasks1/gambler_ruin.py:133 | outside the tolerance band the formula as written exceeds the corrected one by (a - b) / (p - q); the two agree exactly when a == b |
| Findings.AsWrittenFirstStep | tasks1/gambler_ruin.py:133 | the formula as written solves E(k) = average of the neighbours minus 1, not plus 1: it counts each round as -1 |
| Findings.AsWrittenAlwaysWinning | tasks1/gambler_ruin.py:133 | with pA == 1 every game lasts b rounds, the formula as written returns a, and the two agree only when a == b |
| Findings.AsWrittenCounterexample | tasks1/gambler_ruin.py:133 | a = 1, b = 2, pA = 1: the game lasts 2 rounds and the formula as written returns 1 |
| Findings.CorrectedAlwaysWinning | tasks1/gambler_ruin.py:133 | with pA == 1 the corrected formula equals the length of the game |

## Left out

- The driver scripts `tasks1/task_a.py` to `task_f.py` are not part of this model. They only call the engine and then print, plot and write image files.
- The random generator is not modelled. Draws are an input sequence. Statistical claims, such as simulated values being close to theoretical ones, are not properties of the code.
- Floating point is not modelled. Probabilities and formulas are exact reals, so overflow or underflow of `ratio**(a+b)` is out of scope. So is the rounding that would make `1e-10` comparisons behave differently.
- The unused `term1`, `term2` and `term3` of `theoretical_expected_rounds` (lines 125-127) are not modelled. They do not affect the result, and `term1` could only fail in floating point.
- The branch `ratio == 1` (line 122) is modelled. Over the reals it is dead, because `pA != 0.5` there.
- Continuity of the expected length as `pA` approaches 1/2 is not stated. It is a limit over reals, not a property of any single call.
- Batch.SimulateMultipleGames: requires `0 < numSimulations`, because the source takes `np.mean` of the lists and an empty batch gives NaN.
- Formulas.TheoreticalRuinProbability: requires `0 < pA <= 1` and `1 <= a + b`. The biased branch divides by `pA` (line 100), and the fair branch divides by `a + b` (line 96). Capitals are natural numbers and `pA` is at most 1 because `pA` is a probability, and every caller in the repository passes `pA` in (0, 1) with `a, b >= 1`. The source itself computes a value for `pA > 1`, where the ratio is negative, and for negative capitals; the model does not cover those.
- Formulas.ExpectedRounds, Formulas.ExpectedRoundsAsWritten: require the same as the ruin probability. Its first-step equation (`DurationFirstStep`) is not claimed inside the tolerance band around 1/2, where the source returns `a * b` for every biased `pA`.
- Game.SimulateGame, Game.SimulateGameWithWins, Horizon.CapitalAfterRounds: require at least `maxRounds` (or `N`) draws. Batch.SimulateMultipleGames requires a cap's worth of draws per game. Horizon.SimulateCapitalAfterNRounds requires `N` draws per simulation. The source's generator never runs out.
- Game.SimulateGame, Game.SimulateGameWithWins: the round cap is a natural number. In the source a negative `max_rounds` plays no round, exactly like 0, because `rounds < max_rounds` fails at once.
- Horizon.SimulateCapitalAfterNRounds: `N` and `num_simulations` are natural numbers. In the source a negative value behaves like 0, because `range` of it is empty.
- Imports and plotting (`matplotlib`, typing) have no behaviour to model.

## Findings

| source | as written | input that shows it | evidently intended | confidence | as-written member | corrected member |
|---|---|---|---|---|---|---|
| tasks1/gambler_ruin.py:133 | `E_L = (a / (p - q)) - ((a + b) / (p - q)) * P_ruin` | a = 1, b = 2, pA = 1: every round is won by A, so the game lasts 2 rounds, but the formula returns 1 | `E_L = (b / (p - q)) - ((a + b) / (p - q)) * P_ruin`, the solution of E(k) = 1 + pA E(k + 1) + (1 - pA) E(k - 1) with E(0) = E(a + b) = 0 | not executed | Findings.AsWrittenCounterexample, Findings.AsWrittenFirstStep | Formulas.ExpectedRounds, Formulas.DurationFirstStep, Findings.CorrectedAlwaysWinning |

The two formulas differ by `(a - b) / (p - q)` (`Findings.AsWrittenOffset`), so the error is invisible when `a == b`.
