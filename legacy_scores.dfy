/**
 * The earlier vote-weight rule (rankforum/src/score.rs), used by the
 * handlers in rankforum/src/post.rs. It is the same rule as the current
 * `calculate_vote_score`, computed the same way, over `i64` scores.
 */
module LegacyScores {
  import Scores

  /** `calculate_vote_impact`: the smaller of 100^voter_level and 10 * 100^poster_level. */
  function CalculateVoteImpact(posterLevel: nat, voterLevel: nat): (r: int)
    requires posterLevel <= Scores.MaxPosterLevel && voterLevel <= Scores.MaxVoterLevel
    ensures r == if Scores.Pow100(voterLevel) < 10 * Scores.Pow100(posterLevel)
      then Scores.Pow100(voterLevel) else 10 * Scores.Pow100(posterLevel)
    ensures r != 0
  {
    Scores.CalculateVoteScore(posterLevel, voterLevel)
  }

  /** A voter above the poster's level is capped at ten times the poster's threshold; otherwise the voter's own threshold applies. */
  lemma ImpactByLevels(posterLevel: nat, voterLevel: nat)
    requires posterLevel <= Scores.MaxPosterLevel && voterLevel <= Scores.MaxVoterLevel
    ensures voterLevel > posterLevel ==> CalculateVoteImpact(posterLevel, voterLevel) == 10 * Scores.Pow100(posterLevel)
    ensures voterLevel <= posterLevel ==> CalculateVoteImpact(posterLevel, voterLevel) == Scores.Pow100(voterLevel)
  {
    Scores.VoteScoreByLevels(posterLevel, voterLevel);
  }
}
