/**
 * Vote weights (src/score.rs).
 *
 * A voter's weight on a post or comment depends on two levels: the level of
 * the voter's own score in the field and the level of the target's score.
 * The weight is 100^voter, capped at ten times 100^poster. The source
 * computes in `u64`/`i64`; the levels are bounded here so that none of those
 * computations overflow, and within the bounds mathematical integers are
 * exact (`WeightsFitInI64`).
 */
module Scores {
  import opened TextualIntegers

  type Address = string

  /** The largest poster level for which `poster_level_score * 10` fits in an `i64`. */
  const MaxPosterLevel: nat := 8
  /** The largest voter level for which `100_u64.pow(level)` fits in an `i64`. */
  const MaxVoterLevel: nat := 9

  const I64Max: int := 0x7FFF_FFFF_FFFF_FFFF
  const U64Max: int := 0xFFFF_FFFF_FFFF_FFFF

  /** One row of the score table: the aggregate of the votes on `address` within a field. */
  datatype Score = Score(address: Address, fieldAddress: Address, score: TextualInteger, upvote: nat, downvote: nat)

  /** 100^n */
  function Pow100(n: nat): (r: nat)
    ensures r >= 1
  {
    if n == 0 then 1 else 100 * Pow100(n - 1)
  }

  /** `minimal_score_of_level`: the least score of a level, 100^level. */
  function MinimalScoreOfLevel(level: nat): (r: nat)
    requires level <= MaxVoterLevel
    ensures r >= 1
  {
    Pow100(level)
  }

  /** Each level needs a hundred times the score of the one below, so the thresholds strictly increase. */
  lemma {:induction false} MinimalScoreIncreasing(l1: nat, l2: nat)
    requires l1 < l2 <= MaxVoterLevel
    ensures MinimalScoreOfLevel(l1) < MinimalScoreOfLevel(l2)
    ensures 100 * MinimalScoreOfLevel(l1) <= MinimalScoreOfLevel(l2)
  {
    var below := Pow100(l2 - 1);
    assert Pow100(l2) == 100 * below;
    if l1 + 1 < l2 {
      MinimalScoreIncreasing(l1, l2 - 1);
      assert 100 * Pow100(l1) <= below;
    }
  }

  /**
   * `calculate_vote_score(poster_level, voter_level)`: the voter's weight is
   * 100^voter_level unless that exceeds ten times 100^poster_level, which is
   * then the weight. That is the smaller of the two.
   */
  function CalculateVoteScore(posterLevel: nat, voterLevel: nat): (r: nat)
    requires posterLevel <= MaxPosterLevel && voterLevel <= MaxVoterLevel
    ensures r <= MinimalScoreOfLevel(voterLevel) && r <= 10 * MinimalScoreOfLevel(posterLevel)
    ensures r == MinimalScoreOfLevel(voterLevel) || r == 10 * MinimalScoreOfLevel(posterLevel)
    ensures r >= 1
  {
    var posterLevelScore := Pow100(posterLevel);
    var voterLevelScore := Pow100(voterLevel);
    if voterLevelScore > posterLevelScore * 10 then posterLevelScore * 10 else voterLevelScore
  }

  /** Which bound applies depends only on which level is higher: a higher voter is capped, a lower or equal one is not. */
  lemma VoteScoreByLevels(posterLevel: nat, voterLevel: nat)
    requires posterLevel <= MaxPosterLevel && voterLevel <= MaxVoterLevel
    ensures voterLevel > posterLevel ==> CalculateVoteScore(posterLevel, voterLevel) == 10 * MinimalScoreOfLevel(posterLevel)
    ensures voterLevel <= posterLevel ==> CalculateVoteScore(posterLevel, voterLevel) == MinimalScoreOfLevel(voterLevel)
  {
    if voterLevel > posterLevel {
      MinimalScoreIncreasing(posterLevel, voterLevel);
    } else if voterLevel < posterLevel {
      MinimalScoreIncreasing(voterLevel, posterLevel);
    }
  }

  /** A voter of a higher level never carries less weight on the same target. */
  lemma VoteScoreMonotonic(posterLevel: nat, v1: nat, v2: nat)
    requires posterLevel <= MaxPosterLevel && v1 <= v2 <= MaxVoterLevel
    ensures CalculateVoteScore(posterLevel, v1) <= CalculateVoteScore(posterLevel, v2)
  {
    if v1 < v2 {
      MinimalScoreIncreasing(v1, v2);
    }
  }

  /**
   * Within the level bounds every intermediate value of `calculate_vote_score`
   * fits in an `i64`, and one level beyond each bound it does not: 100^10
   * overflows the `u64` power and 10 * 100^9 the `i64` product.
   */
  lemma WeightsFitInI64()
    ensures 10 * Pow100(MaxPosterLevel) <= I64Max && Pow100(MaxVoterLevel) <= I64Max
    ensures 10 * Pow100(MaxPosterLevel + 1) > I64Max && Pow100(MaxVoterLevel + 1) > U64Max
  {
    assert Pow100(4) == 100000000;
    assert Pow100(8) == 10000000000000000;
    assert Pow100(10) == 100000000000000000000;
  }

  /**
   * The level function lives outside this model. Its values at the scores
   * the listing and voting scenarios use are the only facts about it.
   */
  predicate LevelPinned(level: TextualInteger -> nat) {
    && level(TextualInteger("0")) == 0
    && level(TextualInteger("1")) == 0
    && level(TextualInteger("100")) == 1
    && level(TextualInteger("10000")) == 2
    && level(TextualInteger("1000000")) >= 3
  }
}
