/**
 * The vote ledger and the comment checks of the SQLite backend
 * (src/db_sqlite.rs).
 *
 * Two tables matter for voting. `votes` holds one row per vote cast, with no
 * key; `score` holds the aggregate of a post or comment, keyed by the
 * address alone, with the field as an ordinary column. Reads and updates of
 * `score` filter on both the address and the field. The class `Sqlite`
 * keeps these tables as a sequence and a map; a transaction becomes one
 * method whose writes are staged in locals and assigned at the commit, so
 * every error path leaves the tables as they were.
 */
module DbSqlite {
  import opened Options
  import opened TextualIntegers
  import opened Scores

  /** A row of the `votes` table. */
  datatype VoteRow = VoteRow(to: Address, from: Address, votedScore: TextualInteger)

  /** A row of the `post` table; `to` is the field the post was made in. */
  datatype PostRow = PostRow(from: Address, to: Address, title: string, content: string, timestamp: int)

  /** A row of the `comment` table. */
  datatype CommentRow = CommentRow(from: Address, to: Address, fieldAddress: Address, content: string, timestamp: int)

  /** The fields of a `Comment` that `upsert_comment` writes. */
  datatype CommentRecord = CommentRecord(
    address: Address, from: Address, to: Address, fieldAddress: Address,
    content: string, timestamp: int, score: TextualInteger, upvote: nat, downvote: nat)

  /**
   * The outcome of `vote`: committed, rejected with a message, or a panic
   * (an unsigned counter decremented below 0), which drops the transaction.
   */
  datatype VoteResult = VoteOk | VoteErr(message: string) | VotePanic

  datatype CheckResult = CheckOk | CheckErr(message: string)

  // ---------------------------------------------------------------------------
  // The score table

  /** The zero row `select_score` answers with when no row matches. */
  function DefaultScore(address: Address, fieldAddress: Address): Score {
    Score(address, fieldAddress, TextualInteger("0"), 0, 0)
  }

  /**
   * `select_score(address, field_address)`: the stored row when the row for
   * `address` belongs to `field_address`; otherwise a zero row carrying the
   * requested keys.
   */
  function SelectScore(scores: map<Address, Score>, address: Address, fieldAddress: Address): (r: Score)
    ensures address in scores && scores[address].fieldAddress == fieldAddress ==> r == scores[address]
    ensures !(address in scores && scores[address].fieldAddress == fieldAddress) ==> r == DefaultScore(address, fieldAddress)
  {
    if address in scores && scores[address].fieldAddress == fieldAddress then scores[address]
    else DefaultScore(address, fieldAddress)
  }

  /**
   * `update_score`: an UPDATE filtered on address and field. It changes the
   * matching row and never creates one.
   */
  function UpdateScore(scores: map<Address, Score>, row: Score): (r: map<Address, Score>)
    ensures r.Keys == scores.Keys
    ensures forall a :: a in scores && a != row.address ==> r[a] == scores[a]
    ensures row.address in scores && scores[row.address].fieldAddress == row.fieldAddress ==> r[row.address] == row
    ensures !(row.address in scores && scores[row.address].fieldAddress == row.fieldAddress) ==> r == scores
  {
    if row.address in scores && scores[row.address].fieldAddress == row.fieldAddress then scores[row.address := row]
    else scores
  }

  /** Rows are stored under their own address and hold canonical scores. */
  predicate ScoresWellFormed(scores: map<Address, Score>) {
    forall a :: a in scores ==> scores[a].address == a && Canonical(scores[a].score)
  }

  // ---------------------------------------------------------------------------
  // The votes table

  predicate Matches(row: VoteRow, from: Address, to: Address) {
    row.from == from && row.to == to
  }

  /**
   * The row `query_row` reads for (from, to): the index of the first
   * matching row, or -1 when there is none.
   */
  function FirstVote(votes: seq<VoteRow>, from: Address, to: Address): (k: int)
    ensures -1 <= k < |votes|
    ensures k >= 0 ==> Matches(votes[k], from, to) && forall j :: 0 <= j < k ==> !Matches(votes[j], from, to)
    ensures k == -1 ==> forall j :: 0 <= j < |votes| ==> !Matches(votes[j], from, to)
  {
    if |votes| == 0 then -1
    else if Matches(votes[0], from, to) then 0
    else
      var k := FirstVote(votes[1..], from, to);
      if k < 0 then -1 else k + 1
  }

  /** `UPDATE votes SET voted_score = w WHERE from_address = from AND to_address = to`: every matching row. */
  function SetVote(votes: seq<VoteRow>, from: Address, to: Address, w: TextualInteger): (r: seq<VoteRow>)
    ensures |r| == |votes|
    ensures forall i :: 0 <= i < |votes| ==>
      r[i] == if Matches(votes[i], from, to) then votes[i].(votedScore := w) else votes[i]
  {
    if |votes| == 0 then []
    else
      var last := votes[|votes| - 1];
      SetVote(votes[..|votes| - 1], from, to, w) + [if Matches(last, from, to) then last.(votedScore := w) else last]
  }

  /** At most one row per (from, to). */
  predicate UniqueVotes(votes: seq<VoteRow>) {
    forall i, j :: 0 <= i < j < |votes| ==> !(votes[i].from == votes[j].from && votes[i].to == votes[j].to)
  }

  predicate VotesWellFormed(votes: seq<VoteRow>) {
    forall i :: 0 <= i < |votes| ==> Canonical(votes[i].votedScore)
  }

  // ---------------------------------------------------------------------------
  // The vote transaction as a function of the tables

  /** The tables after a vote, and its result. */
  datatype Ledger = Ledger(votes: seq<VoteRow>, scores: map<Address, Score>, result: VoteResult)

  /**
   * The counters after a vote: a first vote raises the counter of its sign;
   * a flip (`flip`) also lowers the other one, and `None` stands for the
   * panic of a `u64` counter lowered below 0.
   */
  function Counted(upvote: nat, downvote: nat, positive: bool, flip: bool): (r: Option<(nat, nat)>)
    ensures r.None? <==> flip && (if positive then downvote == 0 else upvote == 0)
    ensures r.Some? ==> r.value.0 + r.value.1 == upvote + downvote + (if flip then 0 else 1)
    ensures r.Some? && positive ==> r.value.0 == upvote + 1
    ensures r.Some? && !positive ==> r.value.1 == downvote + 1
  {
    if !flip then
      if positive then Some((upvote + 1, downvote)) else Some((upvote, downvote + 1))
    else if positive then
      if downvote == 0 then None else Some((upvote + 1, downvote - 1))
    else
      if upvote == 0 then None else Some((upvote - 1, downvote + 1))
  }

  /** The weight a flip takes back: the earlier vote's, or nothing on a first vote. */
  function Earlier(history: Option<TextualInteger>): int {
    if history.Some? then IntValue(history.value) else 0
  }

  /**
   * The aggregate row after a vote w, where `history` is the earlier vote of
   * the opposite sign, if any: the counters as `Counted` says and the score
   * raised by w - h (by w on a first vote). `None` on a panic.
   */
  function Recount(score: Score, w: TextualInteger, history: Option<TextualInteger>): Option<Score> {
    var counts := Counted(score.upvote, score.downvote, IsPositive(w), history.Some?);
    if counts.None? then None
    else Some(score.(score := Render(IntValue(score.score) + IntValue(w) - Earlier(history)),
                     upvote := counts.value.0, downvote := counts.value.1))
  }

  /**
   * `vote(from, to, w, field)`. The aggregate is read with `select_score`
   * (a zero row when `to` has none in the field) and written back with
   * `update_score`.
   * - No earlier vote: a row (to, from, w) is inserted and the aggregate
   *   recounted (`Recount`).
   * - An earlier vote h of the same sign: "Already voted", nothing changes.
   * - An earlier vote h of the other sign: the row takes w and the aggregate
   *   is recounted; a panic while recounting drops the transaction.
   */
  function VoteTransition(votes: seq<VoteRow>, scores: map<Address, Score>, from: Address, to: Address,
                          w: TextualInteger, fieldAddress: Address): Ledger
  {
    var score := SelectScore(scores, to, fieldAddress);
    var k := FirstVote(votes, from, to);
    if k >= 0 then
      var h := votes[k].votedScore;
      if IsPositive(h) == IsPositive(w) then Ledger(votes, scores, VoteErr("Already voted"))
      else
        match Recount(score, w, Some(h))
        case None => Ledger(votes, scores, VotePanic)
        case Some(row) => Ledger(SetVote(votes, from, to, w), UpdateScore(scores, row), VoteOk)
    else
      match Recount(score, w, None)
      case None => Ledger(votes, scores, VotePanic)
      case Some(row) => Ledger(votes + [VoteRow(to, from, w)], UpdateScore(scores, row), VoteOk)
  }

  lemma SelectedScoreCanonical(scores: map<Address, Score>, address: Address, fieldAddress: Address)
    requires ScoresWellFormed(scores)
    ensures Canonical(SelectScore(scores, address, fieldAddress).score)
  {
  }

  lemma UpdateScoreWellFormed(scores: map<Address, Score>, row: Score)
    requires ScoresWellFormed(scores) && Canonical(row.score)
    ensures ScoresWellFormed(UpdateScore(scores, row))
  {
  }

  lemma SetVoteWellFormed(votes: seq<VoteRow>, from: Address, to: Address, w: TextualInteger)
    requires VotesWellFormed(votes) && Canonical(w)
    ensures VotesWellFormed(SetVote(votes, from, to, w))
  {
  }

  // ---------------------------------------------------------------------------
  // Tallies: what a score row should agree with

  /** The sum of the weights recorded on `to`. */
  function SumWeights(votes: seq<VoteRow>, to: Address): int {
    if |votes| == 0 then 0
    else
      var last := votes[|votes| - 1];
      SumWeights(votes[..|votes| - 1], to) + (if last.to == to then IntValue(last.votedScore) else 0)
  }

  /** The number of non-negative weights recorded on `to`. */
  function CountUp(votes: seq<VoteRow>, to: Address): nat {
    if |votes| == 0 then 0
    else
      var last := votes[|votes| - 1];
      CountUp(votes[..|votes| - 1], to) + (if last.to == to && IsPositive(last.votedScore) then 1 else 0)
  }

  /** The number of negative weights recorded on `to`. */
  function CountDown(votes: seq<VoteRow>, to: Address): nat {
    if |votes| == 0 then 0
    else
      var last := votes[|votes| - 1];
      CountDown(votes[..|votes| - 1], to) + (if last.to == to && !IsPositive(last.votedScore) then 1 else 0)
  }

  /** The score row of `t` exists and agrees with the votes recorded on `t`. */
  predicate Tally(votes: seq<VoteRow>, scores: map<Address, Score>, t: Address) {
    && t in scores
    && IntValue(scores[t].score) == SumWeights(votes, t)
    && scores[t].upvote == CountUp(votes, t)
    && scores[t].downvote == CountDown(votes, t)
  }

  /** Rewriting rows that are not there changes nothing. */
  lemma SetVoteNoMatch(votes: seq<VoteRow>, from: Address, to: Address, w: TextualInteger)
    requires forall i :: 0 <= i < |votes| ==> !Matches(votes[i], from, to)
    ensures SetVote(votes, from, to, w) == votes
  {
  }

  /** Rewriting the votes on `to` leaves the tallies of every other target alone. */
  lemma {:induction false} SetVoteOtherTarget(votes: seq<VoteRow>, from: Address, to: Address, w: TextualInteger, t: Address)
    requires t != to
    ensures SumWeights(SetVote(votes, from, to, w), t) == SumWeights(votes, t)
    ensures CountUp(SetVote(votes, from, to, w), t) == CountUp(votes, t)
    ensures CountDown(SetVote(votes, from, to, w), t) == CountDown(votes, t)
  {
    if |votes| > 0 {
      var n := |votes|;
      var r := SetVote(votes, from, to, w);
      SetVoteOtherTarget(votes[..n - 1], from, to, w, t);
      assert r[..n - 1] == SetVote(votes[..n - 1], from, to, w);
    }
  }

  /**
   * With one row per voter and target, rewriting the row k of (from, to)
   * from h to w moves the tally of `to` by w - h and moves one count from
   * the sign of h to the sign of w.
   */
  lemma {:induction false} SetVoteSwap(votes: seq<VoteRow>, from: Address, to: Address, w: TextualInteger, k: nat)
    requires UniqueVotes(votes) && k < |votes| && Matches(votes[k], from, to)
    ensures SumWeights(SetVote(votes, from, to, w), to) == SumWeights(votes, to) - IntValue(votes[k].votedScore) + IntValue(w)
    ensures CountUp(SetVote(votes, from, to, w), to) + (if IsPositive(votes[k].votedScore) then 1 else 0)
      == CountUp(votes, to) + (if IsPositive(w) then 1 else 0)
    ensures CountDown(SetVote(votes, from, to, w), to) + (if IsPositive(votes[k].votedScore) then 0 else 1)
      == CountDown(votes, to) + (if IsPositive(w) then 0 else 1)
  {
    var n := |votes|;
    var prefix := votes[..n - 1];
    var r := SetVote(votes, from, to, w);
    assert r[..n - 1] == SetVote(prefix, from, to, w);
    if k == n - 1 {
      assert forall i :: 0 <= i < |prefix| ==> !Matches(prefix[i], from, to) by {
        forall i | 0 <= i < |prefix|
          ensures !Matches(prefix[i], from, to)
        {
          assert prefix[i] == votes[i];
        }
      }
      SetVoteNoMatch(prefix, from, to, w);
    } else {
      assert UniqueVotes(prefix) by {
        forall i, j | 0 <= i < j < |prefix|
          ensures !(prefix[i].from == prefix[j].from && prefix[i].to == prefix[j].to)
        {
          assert prefix[i] == votes[i] && prefix[j] == votes[j];
        }
      }
      assert prefix[k] == votes[k];
      SetVoteSwap(prefix, from, to, w, k);
    }
  }

  /** A vote of either sign on `to` is counted on its side. */
  lemma {:induction false} CountedVote(votes: seq<VoteRow>, k: nat)
    requires k < |votes|
    ensures IsPositive(votes[k].votedScore) ==> CountUp(votes, votes[k].to) >= 1
    ensures !IsPositive(votes[k].votedScore) ==> CountDown(votes, votes[k].to) >= 1
  {
    var n := |votes|;
    if k < n - 1 {
      assert votes[..n - 1][k] == votes[k];
      CountedVote(votes[..n - 1], k);
    }
  }

  /** A new row adds its weight and its count to the tallies of its target. */
  lemma AppendVote(votes: seq<VoteRow>, row: VoteRow, t: Address)
    ensures SumWeights(votes + [row], t) == SumWeights(votes, t) + (if row.to == t then IntValue(row.votedScore) else 0)
    ensures CountUp(votes + [row], t) == CountUp(votes, t) + (if row.to == t && IsPositive(row.votedScore) then 1 else 0)
    ensures CountDown(votes + [row], t) == CountDown(votes, t) + (if row.to == t && !IsPositive(row.votedScore) then 1 else 0)
  {
    assert (votes + [row])[..|votes|] == votes;
  }

  // ---------------------------------------------------------------------------
  // What a vote does to the tables

  /** A second vote of the same sign is refused and changes nothing. */
  lemma RepeatVoteRejected(votes: seq<VoteRow>, scores: map<Address, Score>, from: Address, to: Address,
                           w: TextualInteger, fieldAddress: Address, k: nat)
    requires k < |votes| && Matches(votes[k], from, to) && IsPositive(votes[k].votedScore) == IsPositive(w)
    requires forall j :: 0 <= j < k ==> !Matches(votes[j], from, to)
    ensures VoteTransition(votes, scores, from, to, w, fieldAddress) == Ledger(votes, scores, VoteErr("Already voted"))
  {
    assert FirstVote(votes, from, to) == k;
  }

  /**
   * `update_score` never creates a row: when `to` has no score row in the
   * field, a vote is recorded in `votes` and the score table stays as it was.
   */
  lemma LostUpdate(votes: seq<VoteRow>, scores: map<Address, Score>, from: Address, to: Address,
                   w: TextualInteger, fieldAddress: Address)
    requires ScoresWellFormed(scores)
    requires !(to in scores && scores[to].fieldAddress == fieldAddress)
    ensures VoteTransition(votes, scores, from, to, w, fieldAddress).scores == scores
  {
  }

  /** `vote` keeps at most one row per voter and target. */
  lemma VoteKeepsUnique(votes: seq<VoteRow>, scores: map<Address, Score>, from: Address, to: Address,
                        w: TextualInteger, fieldAddress: Address)
    requires UniqueVotes(votes)
    ensures UniqueVotes(VoteTransition(votes, scores, from, to, w, fieldAddress).votes)
  {
    var ledger := VoteTransition(votes, scores, from, to, w, fieldAddress);
    if FirstVote(votes, from, to) >= 0 && ledger.result == VoteOk {
      var r := SetVote(votes, from, to, w);
      assert ledger.votes == r;
      forall i, j | 0 <= i < j < |r|
        ensures !(r[i].from == r[j].from && r[i].to == r[j].to)
      {
        assert r[i].from == votes[i].from && r[i].to == votes[i].to;
        assert r[j].from == votes[j].from && r[j].to == votes[j].to;
      }
    }
  }

  /**
   * When the score row of `to` agrees with the recorded votes, a flip always
   * finds a count to lower: the earlier vote is one of those counted.
   */
  lemma TallyPreventsPanic(votes: seq<VoteRow>, scores: map<Address, Score>, from: Address, to: Address,
                           w: TextualInteger, fieldAddress: Address)
    requires ScoresWellFormed(scores) && Tally(votes, scores, to) && scores[to].fieldAddress == fieldAddress
    ensures VoteTransition(votes, scores, from, to, w, fieldAddress).result != VotePanic
  {
    var k := FirstVote(votes, from, to);
    if k >= 0 {
      CountedVote(votes, k);
    }
  }

  /** A first vote on `to` keeps the row of `to` in agreement with the votes. */
  lemma FirstVoteKeepsTally(votes: seq<VoteRow>, scores: map<Address, Score>, from: Address, to: Address, w: TextualInteger)
    requires ScoresWellFormed(scores) && Canonical(w) && Tally(votes, scores, to)
    ensures Recount(scores[to], w, None).Some?
    ensures Tally(votes + [VoteRow(to, from, w)], UpdateScore(scores, Recount(scores[to], w, None).value), to)
  {
    AppendVote(votes, VoteRow(to, from, w), to);
  }

  /** A flip on `to` keeps the row of `to` in agreement with the votes, and finds a count to lower. */
  lemma FlipKeepsTally(votes: seq<VoteRow>, scores: map<Address, Score>, from: Address, to: Address, w: TextualInteger, k: nat)
    requires ScoresWellFormed(scores) && VotesWellFormed(votes) && UniqueVotes(votes) && Canonical(w)
    requires Tally(votes, scores, to)
    requires k < |votes| && Matches(votes[k], from, to) && IsPositive(votes[k].votedScore) != IsPositive(w)
    ensures Recount(scores[to], w, Some(votes[k].votedScore)).Some?
    ensures Tally(SetVote(votes, from, to, w), UpdateScore(scores, Recount(scores[to], w, Some(votes[k].votedScore)).value), to)
  {
    CountedVote(votes, k);
    SetVoteSwap(votes, from, to, w, k);
  }

  /**
   * `vote` keeps every score row that agrees with the recorded votes in
   * agreement, provided the row of the voted target is in the voted field.
   */
  lemma VoteKeepsTally(votes: seq<VoteRow>, scores: map<Address, Score>, from: Address, to: Address,
                       w: TextualInteger, fieldAddress: Address, t: Address)
    requires ScoresWellFormed(scores) && VotesWellFormed(votes) && UniqueVotes(votes) && Canonical(w)
    requires Tally(votes, scores, t) && (t == to ==> scores[t].fieldAddress == fieldAddress)
    ensures var ledger := VoteTransition(votes, scores, from, to, w, fieldAddress);
      Tally(ledger.votes, ledger.scores, t)
  {
    var k := FirstVote(votes, from, to);
    if t != to {
      if k >= 0 {
        SetVoteOtherTarget(votes, from, to, w, t);
      } else {
        AppendVote(votes, VoteRow(to, from, w), t);
      }
    } else if k >= 0 {
      if IsPositive(votes[k].votedScore) != IsPositive(w) {
        FlipKeepsTally(votes, scores, from, to, w, k);
      }
    } else {
      FirstVoteKeepsTally(votes, scores, from, to, w);
    }
  }

  /**
   * A fresh comment with a zero score row: an upvote of 1 makes its score
   * 1, a downvote of -1 by the same user makes it -1, and a second downvote
   * is refused with the score still -1.
   */
  lemma {:induction false} ScoreDownCrossZero(scores: map<Address, Score>, comment: Address, field: Address, user: Address)
    requires scores == map[comment := Score(comment, field, TextualInteger("0"), 0, 0)]
    ensures var up := VoteTransition([], scores, user, comment, TextualInteger("1"), field);
      var down := VoteTransition(up.votes, up.scores, user, comment, TextualInteger("-1"), field);
      var again := VoteTransition(down.votes, down.scores, user, comment, TextualInteger("-1"), field);
      && up.result == VoteOk && SelectScore(up.scores, comment, field).score == TextualInteger("1")
      && down.result == VoteOk && SelectScore(down.scores, comment, field).score == TextualInteger("-1")
      && again.result.VoteErr? && again.scores == down.scores
  {
    var zero, one, minusOne := TextualInteger("0"), TextualInteger("1"), TextualInteger("-1");
    assert IntValue(zero) == 0 && IntValue(one) == 1;
    assert IntValue(minusOne) == -1 by {
      assert minusOne.value[1..] == "1";
    }
    RenderIntValue(one);
    RenderIntValue(minusOne);
    var up := VoteTransition([], scores, user, comment, one, field);
    assert up.votes == [VoteRow(comment, user, one)];
    assert up.scores[comment].score == one;
    var down := VoteTransition(up.votes, up.scores, user, comment, minusOne, field);
    assert FirstVote(up.votes, user, comment) == 0;
    assert down.scores[comment].score == minusOne;
    assert FirstVote(down.votes, user, comment) == 0;
  }

  /**
   * The local `Score` updates of `vote`: the counters move as the vote
   * requires and the weights are added with the textual integer operators.
   */
  method ApplyVote(score: Score, votedScore: TextualInteger, history: Option<TextualInteger>) returns (r: Option<Score>)
    requires Canonical(score.score) && Canonical(votedScore)
    requires history.Some? ==> Canonical(history.value)
    ensures r == Recount(score, votedScore, history)
    ensures r.Some? ==> Canonical(r.value.score)
  {
    var counts := MoveCounts(score.upvote, score.downvote, IsPositive(votedScore), history.Some?);
    if counts.None? {
      return None;
    }
    var total := Reweigh(score.score, votedScore, history);
    r := Some(score.(score := total, upvote := counts.value.0, downvote := counts.value.1));
  }

  /** `upvote`/`downvote` `+= 1` and `-= 1` on the local `Score`, with the `u64` underflow as `None`. */
  method MoveCounts(upvote: nat, downvote: nat, positive: bool, flip: bool) returns (r: Option<(nat, nat)>)
    ensures r == Counted(upvote, downvote, positive, flip)
  {
    var up, down := upvote, downvote;
    if positive {
      up := up + 1;
      if flip {
        if down == 0 {
          return None;
        }
        down := down - 1;
      }
    } else {
      if flip {
        if up == 0 {
          return None;
        }
        up := up - 1;
      }
      down := down + 1;
    }
    r := Some((up, down));
  }

  /** `score += w`, then `score -= h` on a flip. */
  method Reweigh(total: TextualInteger, votedScore: TextualInteger, history: Option<TextualInteger>) returns (r: TextualInteger)
    requires Canonical(total) && Canonical(votedScore)
    requires history.Some? ==> Canonical(history.value)
    ensures r == Render(IntValue(total) + IntValue(votedScore) - Earlier(history))
    ensures Canonical(r)
  {
    r := Add(total, votedScore);
    if history.Some? {
      r := Sub(r, history.value);
    }
    RenderIntValue(r);
  }

  /**
   * The body of the `vote` transaction over the two tables: the writes are
   * staged and returned, and on every error the tables come back as given.
   */
  method VoteTransaction(votes: seq<VoteRow>, scores: map<Address, Score>, from: Address, to: Address,
                         votedScore: TextualInteger, fieldAddress: Address) returns (ledger: Ledger)
    requires ScoresWellFormed(scores) && VotesWellFormed(votes) && Canonical(votedScore)
    ensures ledger == VoteTransition(votes, scores, from, to, votedScore, fieldAddress)
    ensures ScoresWellFormed(ledger.scores) && VotesWellFormed(ledger.votes)
  {
    var score := SelectScore(scores, to, fieldAddress);
    SelectedScoreCanonical(scores, to, fieldAddress);
    var k := FirstVote(votes, from, to);
    var newVotes, newScore;
    if k >= 0 {
      var history := votes[k].votedScore;
      if IsPositive(history) == IsPositive(votedScore) {
        return Ledger(votes, scores, VoteErr("Already voted"));
      }
      newVotes := SetVote(votes, from, to, votedScore);
      SetVoteWellFormed(votes, from, to, votedScore);
      newScore := ApplyVote(score, votedScore, Some(history));
    } else {
      newVotes := votes + [VoteRow(to, from, votedScore)];
      newScore := ApplyVote(score, votedScore, None);
    }
    if newScore.None? {
      return Ledger(votes, scores, VotePanic);
    }
    UpdateScoreWellFormed(scores, newScore.value);
    ledger := Ledger(newVotes, UpdateScore(scores, newScore.value), VoteOk);
  }

  // ---------------------------------------------------------------------------
  // The database

  class Sqlite {
    var votes: seq<VoteRow>
    var scores: map<Address, Score>
    var posts: map<Address, PostRow>
    var comments: map<Address, CommentRow>
    /** The addresses in the `fields` table. */
    var fields: set<Address>

    predicate Valid()
      reads this
    {
      ScoresWellFormed(scores) && VotesWellFormed(votes)
    }

    /** An empty database. */
    constructor()
      ensures Valid()
      ensures votes == [] && scores == map[] && posts == map[] && comments == map[] && fields == {}
    {
      votes := [];
      scores := map[];
      posts := map[];
      comments := map[];
      fields := {};
    }

    /** `vote`: one transaction over the votes and score tables; see `VoteTransition`. */
    method Vote(from: Address, to: Address, votedScore: TextualInteger, fieldAddress: Address) returns (res: VoteResult)
      requires Valid() && Canonical(votedScore)
      modifies this`votes, this`scores
      ensures Valid()
      ensures Ledger(votes, scores, res) == VoteTransition(old(votes), old(scores), from, to, votedScore, fieldAddress)
      ensures posts == old(posts) && comments == old(comments) && fields == old(fields)
    {
      var ledger := VoteTransaction(votes, scores, from, to, votedScore, fieldAddress);
      votes, scores, res := ledger.votes, ledger.scores, ledger.result;
    }

    /**
     * `upsert_comment` with the checks as the source runs them
     * (`UpsertCommentCheckAsWritten`, whose comment-target check never
     * refuses). On success the score row of the comment is inserted or
     * replaced and so is its comment row. Registering the author in the user
     * table is not modelled.
     */
    method UpsertComment(comment: CommentRecord) returns (res: CheckResult)
      requires Valid() && Canonical(comment.score)
      modifies this`scores, this`comments
      ensures Valid()
      ensures res == UpsertCommentCheckAsWritten(SelectPost(old(posts), comment.to), SelectComment(old(scores), old(comments), comment.to), comment)
      ensures res.CheckErr? ==> unchanged(this)
      ensures res.CheckOk? ==>
        && scores == old(scores)[comment.address := Score(comment.address, comment.fieldAddress, comment.score, comment.upvote, comment.downvote)]
        && comments == old(comments)[comment.address := CommentRow(comment.from, comment.to, comment.fieldAddress, comment.content, comment.timestamp)]
        && votes == old(votes) && posts == old(posts) && fields == old(fields)
    {
      var postResult := SelectPost(posts, comment.to);
      var commentResult := SelectComment(scores, comments, comment.to);
      res := UpsertCommentCheckAsWritten(postResult, commentResult, comment);
      if res.CheckErr? {
        return;
      }
      scores := scores[comment.address := Score(comment.address, comment.fieldAddress, comment.score, comment.upvote, comment.downvote)];
      comments := comments[comment.address := CommentRow(comment.from, comment.to, comment.fieldAddress, comment.content, comment.timestamp)];
    }
  }

  // ---------------------------------------------------------------------------
  // upsert_comment's checks

  /** `select_post(address)` as far as the checks use it: the post row, if any. */
  function SelectPost(posts: map<Address, PostRow>, address: Address): (r: Option<PostRow>)
    ensures r.Some? <==> address in posts
    ensures r.Some? ==> r.value == posts[address]
  {
    if address in posts then Some(posts[address]) else None
  }

  /**
   * `select_comment(address)`: it first reads the comment's field from its
   * score row and then the comment row, so it fails when either is missing.
   */
  function SelectComment(scores: map<Address, Score>, comments: map<Address, CommentRow>, address: Address): (r: Option<CommentRow>)
    ensures r.Some? <==> address in scores && address in comments
    ensures r.Some? ==> r.value == comments[address]
  {
    if address in scores && address in comments then Some(comments[address]) else None
  }

  /**
   * The checks of `upsert_comment` as written: the target must be a post or
   * a comment, and a target post must be in the comment's field. The check
   * on a target comment compares that comment's field with itself.
   */
  function UpsertCommentCheckAsWritten(post: Option<PostRow>, target: Option<CommentRow>, comment: CommentRecord): (r: CheckResult)
    ensures r.CheckOk? <==> (post.Some? || target.Some?) && (post.Some? ==> post.value.to == comment.fieldAddress)
  {
    if post.None? && target.None? then CheckErr("invalid to address")
    else if post.Some? && post.value.to != comment.fieldAddress then CheckErr("Post field address not match")
    else if target.Some? && target.value.fieldAddress != target.value.fieldAddress then CheckErr("Comment field address not match")
    else CheckOk
  }

  /** The checks with the target comment's field compared against the new comment's. */
  function UpsertCommentCheck(post: Option<PostRow>, target: Option<CommentRow>, comment: CommentRecord): (r: CheckResult)
    ensures r.CheckOk? <==>
      && (post.Some? || target.Some?)
      && (post.Some? ==> post.value.to == comment.fieldAddress)
      && (target.Some? ==> target.value.fieldAddress == comment.fieldAddress)
  {
    if post.None? && target.None? then CheckErr("invalid to address")
    else if post.Some? && post.value.to != comment.fieldAddress then CheckErr("Post field address not match")
    else if target.Some? && target.value.fieldAddress != comment.fieldAddress then CheckErr("Comment field address not match")
    else CheckOk
  }

  /** A reply to a comment of another field passes the checks as written, and is refused once the fields are compared. */
  lemma CrossFieldReply()
    ensures var target := CommentRow("author", "post", "field-a", "", 0);
      var reply := CommentRecord("reply", "someone", "comment", "field-b", "", 1, TextualInteger("0"), 0, 0);
      && UpsertCommentCheckAsWritten(None, Some(target), reply) == CheckOk
      && UpsertCommentCheck(None, Some(target), reply) == CheckErr("Comment field address not match")
  {
  }

  /** Where the checks as written refuse a comment, so do the corrected ones, with the same message. */
  lemma CorrectedCheckIsStricter(post: Option<PostRow>, target: Option<CommentRow>, comment: CommentRecord)
    ensures UpsertCommentCheckAsWritten(post, target, comment).CheckErr? ==>
      UpsertCommentCheck(post, target, comment) == UpsertCommentCheckAsWritten(post, target, comment)
    ensures UpsertCommentCheck(post, target, comment).CheckOk? ==> UpsertCommentCheckAsWritten(post, target, comment).CheckOk?
  {
  }
}
