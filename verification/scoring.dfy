/**
  The time-decay score of a win: `floor(max(0, MAX_SCORE - seconds * DECAY_RATE))`
  with the elapsed time given in whole milliseconds.
 */
module Scoring {
  import opened Types

  /**
    The points for a win `elapsedMs` milliseconds after the round started.
    `(MaxScore * 1000 - DecayRate * elapsedMs) / 1000` is the floor of
    `MaxScore - DecayRate * seconds` because Dafny's division by a positive
    divisor rounds down.
   */
  function WinScore(elapsedMs: int): (points: int)
    ensures points >= 0
    ensures points > 0 ==> points * 1000 <= MaxScore * 1000 - DecayRate * elapsedMs < (points + 1) * 1000
    ensures points == 0 ==> MaxScore * 1000 - DecayRate * elapsedMs < 1000
    ensures 0 <= elapsedMs ==> points <= MaxScore
    ensures elapsedMs == 0 ==> points == MaxScore
    ensures elapsedMs >= 250_000 ==> points == 0
  {
    var raw := (MaxScore * 1000 - DecayRate * elapsedMs) / 1000;
    if raw < 0 then 0 else raw
  }

  /** A later win never scores more than an earlier one. */
  lemma WinScoreNonIncreasing(earlierMs: int, laterMs: int)
    requires earlierMs <= laterMs
    ensures WinScore(laterMs) <= WinScore(earlierMs)
  {
  }

  /** Each whole second costs exactly `DecayRate` points while the score is still positive. */
  lemma WinScorePerSecond(elapsedMs: int)
    requires 0 <= elapsedMs && WinScore(elapsedMs + 1000) > 0
    ensures WinScore(elapsedMs + 1000) == WinScore(elapsedMs) - DecayRate
  {
  }
}
