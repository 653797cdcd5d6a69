# Surrender Index — a verified Dafny model

The Surrender Index scores an NFL punt by how timid the decision to punt
looks. Four weights are read off the play: field position, yards to go,
score margin and game clock. They are multiplied together, and a batch of
punts is stack-ranked by that product, highest first. The only real
algorithm is the score reconstructor (`score_at_play`). Play-by-play data
has no running score, so it replays the game's play list from 0-0 up to the
punt. On the way it reads touchdowns, field goals, extra points, two-point
conversions and safeties out of each play's description. It also follows
interceptions, fumble recoveries and overturned reviews.

The model is split into modules that follow the script's parts:

- `Wrappers` (`wrappers.dfy`): `Option`, and `Result` with the two errors the script can raise: `IndexOutOfRange` (Python's `IndexError`) and `NotAnInteger` (Python's `ValueError`). They arise on malformed play data, and `IndexOutOfRange` also arises when the stack rank is asked for an empty batch of punts.
- `Text` (`text.dfy`): the script's string primitives. These are the substring test `pat in s`, `s.split(sep)`, `s.split()` and `int()` on digit strings. Each comes with a round-trip lemma: split and join round-trip, words and single-space join round-trip, parse and print round-trip.
- `Plays` (`plays.dfy`): the play record with the fields the script reads, and the game (home code, away code, chronological play list). `GamePlay` pairs a play with its game; it stands for the play's `drive.game` back-reference.
- `ScoreReplay` (`score_replay.dfy`): `score_at_play`. It covers reversal truncation, possession swaps, the scoring `elif` chain, and the replay that stops at the first play with the target's description.
- `Features` (`features.dfy`): field position, clock seconds and score differential. The script's `get_first_down_distance` only reads the play's `ydstogo` field, so the model reads `Play.yardsToGo` directly.
- `Multipliers` (`multipliers.dfy`): the four weights, over exact reals.
- `Ranking` (`ranking.dfy`): `surrender_index`, `surrender_index_all_punts` and `get_final_stackrank`.

Where the script's own comments and its code disagree, the model follows the code:

- **Target not found.** The comment at line 271 says the replay should never run off the end of the game ("Ideally we never have to return from here"). When it does, the code prints a message and returns the full-game score. `ScoreAtPlay` returns the full-game replay.
- **Clock weight.** The comment at line 66 describes the clock weight as growing "for each passing second after halftime". The code feeds it the clock reading, which is time REMAINING in the quarter (plus 900 in the fourth). So within a quarter the weight falls as the clock runs (`ClockWeightFallsAsQuarterRuns`). The fourth-quarter fold still puts every fourth-quarter weight at or above every third-quarter weight whose clock reads at most 15:00 (`FourthQuarterOutweighsThird`).
- **Clock weight and the score.** The same comment says the weight "Applies if losing/tied after halftime". The code applies it in quarters 3 and 4 whatever the score, and so does `ClockMultiplier`.
- **Reversal truncation.** The code tests for the review phrase without a period, splits on the phrase with a period, and keeps field `[1]` (lines 214-216). That field is the text between the first and second markers, not everything after the first. It is missing when the period form never occurs, and the script then fails with an index error. `RulingText` models exactly this.
- **Ties.** The script sorts with NumPy's unstable `argsort` and then reverses the result (lines 293-294), so the order of equal indices is not fixed. The model promises a non-increasing permutation and leaves the order of equal indices open.

## Model

| member | source | states |
|---|---|---|
| Text.Contains | get-surrender-index.py:215 | Python's `pat in s` holds exactly when `pat` occurs at some position of `s` |
| Text.FindFrom | get-surrender-index.py:215-216 | returns the first occurrence at or after the start position, with no occurrence before it; returns nothing only when there is no occurrence at all |
| Text.Split | get-surrender-index.py:90 | `s.split(sep)` has at least one field, no field contains the separator, and joining the fields with the separator gives back `s` |
| Text.WordsOfJoin | get-surrender-index.py:16-17 | `s.split()` applied to words joined by single spaces gives back exactly those words |
| Text.ParseNatToString | get-surrender-index.py:17 | `int()` of the decimal numeral of `n` is `n` |
| Features.FieldPosition | get-surrender-index.py:13-24 | the descriptor "50" gives 50; any other descriptor yields a position exactly when it has at least two words and the second is a number, and otherwise fails with the script's index or value error |
| Features.FieldPositionOfDescriptor | get-surrender-index.py:13-24 | "TEAM n" gives n when TEAM is the possessing team and 100 - n otherwise, and lands in 1..100 for n in 1..50 |
| Features.Seconds | get-surrender-index.py:83-95 | a clock yields seconds exactly when its first colon field is a number, a second field exists, and that field is a number |
| Features.SecondsOfClock | get-surrender-index.py:83-95 | a clock "MM:SS" of two non-empty digit strings, leading zeros allowed, reads as 60*MM + SS seconds; any further ":..." fields are ignored |
| Features.SecondsAtQuarterStart | get-surrender-index.py:83-95 | the clock "15:00" reads as 900 seconds |
| Features.ScoreDifferential | get-surrender-index.py:34-58 | the possessing side's points minus the other side's, taken from the replayed score; a possession code other than the home code counts as the away side; fails exactly when the replay fails |
| Features.DifferentialFlipsWithPossession | get-surrender-index.py:53-56 | at the same moment, the away side's differential is the negation of the home side's |
| Multipliers.YardLineMultiplier | get-surrender-index.py:104-122 | the field-position weight is at least 1, and exactly 1 at or inside the 40 |
| Multipliers.YardLineMultiplierLoops | get-surrender-index.py:104-122 | the script's repeated multiplications by 1.1 and then 1.2 compute the closed-form weight 1.1^(pos-40), or 1.1^10 * 1.2^(pos-50) past midfield |
| Multipliers.YardLineStep | get-surrender-index.py:97-122 | each yard from the 40 to midfield raises the weight by 10% and each yard past midfield by 20%; both rules give 1.1^10 at the 50 |
| Multipliers.YardLineMonotone | get-surrender-index.py:104-122 | the field-position weight never decreases as the ball moves forward |
| Multipliers.FirstDownDistanceMultiplier | get-surrender-index.py:132-143 | the distance weight is defined for every integer, lies in 0.2..1, is 1 at one yard or less and 0.2 at ten or more |
| Multipliers.FirstDownDistanceDiscount | get-surrender-index.py:124-143 | every threshold reached (2, 4, 7, 10 yards) takes another 20% off, as the docstring describes |
| Multipliers.FirstDownDistanceNonIncreasing | get-surrender-index.py:132-143 | a longer distance to go never raises the weight |
| Multipliers.ScoreDifferentialMultiplier | get-surrender-index.py:157-164 | the score weight is between 1 and 4; it is 1 exactly when leading and 2 exactly when tied |
| Multipliers.ScoreDifferentialByScoresBehind | get-surrender-index.py:145-164 | trailing by one score of up to 8 points weighs 4, and by two or more scores weighs 3, so -8 weighs 4 and -9 weighs 3 |
| Multipliers.ClockMultiplier | get-surrender-index.py:68-81 | the clock weight is 1 outside quarters 3 and 4, overtime included, and the clock is not parsed there; in quarters 3 and 4 it is (t/1000)^3 + 1 of the clock seconds (plus 900 in the fourth); it fails only when the clock does; it is always at least 1 |
| Multipliers.ClockGrowthIncreasing | get-surrender-index.py:80 | the growth curve (t*0.001)^3 + 1 is strictly increasing in t for t >= 0 |
| Multipliers.ClockWeightFallsAsQuarterRuns | get-surrender-index.py:68-95 | within quarter 3 or 4, a play with less time left on the clock gets a smaller weight |
| Multipliers.FourthQuarterOutweighsThird | get-surrender-index.py:72-75 | any fourth-quarter weight is at least any third-quarter weight whose clock is at most 15 minutes |
| ScoreReplay.RulingText | get-surrender-index.py:214-216 | without the review phrase the text is kept. With it, the result is the text between the first and second "REVERSED." markers; it fails exactly when the period form is absent |
| ScoreReplay.Possessor | get-surrender-index.py:218-234 | the credited side is the recorded possessor flipped once for an interception and once for a non-muffed fumble recovery |
| ScoreReplay.ScoringCredit | get-surrender-index.py:236-269 | the first marker of the `elif` chain decides: a touchdown gives the credited side 6; otherwise a good field goal 3; otherwise a good extra point 1; otherwise a successful two-point attempt 2; otherwise a safety gives the other side 2; nothing is credited exactly when no scoring marker appears |
| ScoreReplay.Award | get-surrender-index.py:238-269 | a credit of n points to a side adds n to that side's column of the `[away, home]` score and leaves the other column unchanged; no credit leaves the score as it is |
| ScoreReplay.Step | get-surrender-index.py:206-269 | replaying one play adds 0, 1, 2, 3 or 6 points to one side and leaves the other unchanged; the points land in the column of the side the play credits; it fails exactly when the reversal split does |
| ScoreReplay.Replay | get-surrender-index.py:206-269 | replaying any play list never lowers either side's score |
| ScoreReplay.ReplayUntil | get-surrender-index.py:206-212 | replaying up to a target never lowers either side's score |
| ScoreReplay.FirstMatch | get-surrender-index.py:211 | finds the first play whose description equals the target's, or the list length when none does |
| ScoreReplay.ReplayUntilIsPrefixReplay | get-surrender-index.py:206-212 | stopping at the target equals replaying exactly the plays before its first match; the matching play itself is not scored |
| ScoreReplay.ReplayAppend | get-surrender-index.py:206-269 | replaying two lists back to back equals replaying the second list from the first one's result |
| ScoreReplay.ReplayPrefixMonotone | get-surrender-index.py:200-269 | the score before a later play is never below the score before an earlier one |
| ScoreReplay.ScoreAtPlay | get-surrender-index.py:188-273 | the score before a play is the replay from 0-0 of the plays before the first play with its description; with no such play, it is the full-game replay |
| ScoreReplay.InterceptionReturnCreditsDefense | get-surrender-index.py:221-241 | an interception returned for a touchdown credits 6 points to the intercepting side |
| ScoreReplay.MuffedPuntKeepsPossession | get-surrender-index.py:228-234 | a recovery on a muffed punt does not change the credited team |
| ScoreReplay.InterceptionThenFumbleRestoresPossession | get-surrender-index.py:221-234 | an interception followed by a fumble recovery swaps possession twice, back to the recorded side |
| ScoreReplay.SafetyCreditsOpponent | get-surrender-index.py:264-269 | a safety credits 2 points to the side opposite the effective possessor |
| ScoreReplay.OverturnedCallIgnored | get-surrender-index.py:214-216 | text before the first reversal marker (the overturned call) has no effect on the points credited |
| ScoreReplay.PlainTouchdownStep | get-surrender-index.py:206-241 | a play with a touchdown and no review, interception or recovery phrase adds 6 to the possessing side's column, home or away, and nothing to the other |
| ScoreReplay.HomeTouchdownThenAwayPunt | get-surrender-index.py:200-241 | a home touchdown followed by an away punt gives away 0, home 6 just before the punt |
| Ranking.SurrenderIndex | get-surrender-index.py:166-173 | the index exists exactly when the field position, score differential and clock all parse; it then equals the product of the field-position, distance, score and clock weights of the play; a malformed yard line is the error reported first; every index is at least 0.2 |
| Ranking.SurrenderIndexGrowsWithFieldPosition | get-surrender-index.py:166-173 | moving the ball forward, all else equal, never lowers the index |
| Ranking.SurrenderIndexFallsWithDistance | get-surrender-index.py:166-173 | a longer distance to go, all else equal, never raises the index |
| Ranking.IndicesOfAll | get-surrender-index.py:175-186 | one index per punt, in input order, each the punt's own index; otherwise the error of the first punt that fails |
| Ranking.Pair | get-surrender-index.py:285-288 | pairs each punt with the index at the same position |
| Ranking.SortDescending | get-surrender-index.py:290-294 | the result is a permutation of the input, ordered by non-increasing index |
| Ranking.FinalStackRank | get-surrender-index.py:275-294 | the stack rank is a permutation of the (punt, index) pairs, ordered by non-increasing index, and every entry carries its own punt's index; it exists exactly when the batch is non-empty and every index can be computed, and an empty batch fails with an index error (line 292) |

## Left out

- The `__main__` loop (season and week iteration, `nflgame.games`, the bare `try`/`except` that prints, the "punts" filter) is fetching and I/O.
- `nflgame.combine_plays` is a call into the data provider. The game's chronological play list is an input (`Game.plays`).
- Drives are left out: the model keeps only the play's link to its game.
- The "PLAY NOT FOUND" print is a side effect. Only the returned score is kept.
- Floating point: the weights are exact reals (1.1, 1.2, 0.001). IEEE-754 rounding of the script's products, and NumPy's object-array mechanics in the stack rank, are not modelled.
- Python `int()` is modelled for plain ASCII digit strings only. Signs, surrounding whitespace, underscores and non-ASCII digits give `NotAnInteger` here, although Python accepts them. For example, a yard number "-5" fails in the model.
- The play fields `ydstogo` and `qtr` are taken to be integers. The script would misbehave on missing (None) values; that is not modelled.
- `surrender_index_all_punts` computes each index twice (line 183's result is unused). The computation is pure, so the model computes it once.
- Ranking.SortDescending: the model's insertion sort fixes one order among equal indices; the contract leaves tie order open, as NumPy's unstable argsort followed by reversal does.
- Ranking.SurrenderIndex: the contract names the reported error only when the yard line is malformed. For the other factors it states when the index fails, not which error is reported.
