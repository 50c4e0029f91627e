/**
 * Posts and comments as the service holds them (src/post.rs): a local copy
 * of the score and counters, and the vote handlers that compute the vote
 * weight, send the vote to the database and update the local copy.
 *
 * The database is the `Sqlite` object the handlers are given. The weight is
 * an argument of the handlers; `VoteWeightAsWritten` is how the source
 * computes it, and the scenarios compute it that way. Fresh addresses and
 * the clock are arguments of the constructors.
 */
module Posts {
  import Digits
  import opened Options
  import opened TextualIntegers
  import opened Scores
  import opened DbSqlite

  /**
   * `inner_calculate_vote_score` as written: the field must exist (`unwrap`
   * panics otherwise, here `None`), and the voter's score is read with
   * `select_score(field, voter)`, the field's address in the address
   * position.
   */
  function VoteWeightAsWritten(fields: set<Address>, scores: map<Address, Score>, fieldAddress: Address, voter: Address,
                               selfScore: TextualInteger, level: TextualInteger -> nat): (r: Option<TextualInteger>)
    requires level(selfScore) <= MaxPosterLevel && level(SelectScore(scores, fieldAddress, voter).score) <= MaxVoterLevel
    ensures r.None? <==> fieldAddress !in fields
    ensures r.Some? ==> Canonical(r.value) && IntValue(r.value) >= 1
    ensures r.Some? ==> IntValue(r.value) == CalculateVoteScore(level(selfScore), level(SelectScore(scores, fieldAddress, voter).score))
  {
    if fieldAddress !in fields then None
    else Some(Render(CalculateVoteScore(level(selfScore), level(SelectScore(scores, fieldAddress, voter).score))))
  }

  /**
   * The weight with the voter's score read as `select_score(voter, field)`:
   * the weight of the voter's level in the field against the target's level.
   */
  function VoteWeight(fields: set<Address>, scores: map<Address, Score>, fieldAddress: Address, voter: Address,
                      selfScore: TextualInteger, level: TextualInteger -> nat): (r: Option<TextualInteger>)
    requires level(selfScore) <= MaxPosterLevel && level(SelectScore(scores, voter, fieldAddress).score) <= MaxVoterLevel
    ensures r.None? <==> fieldAddress !in fields
    ensures r.Some? ==> Canonical(r.value) && IntValue(r.value) >= 1
    ensures r.Some? ==> IntValue(r.value) <= MinimalScoreOfLevel(level(SelectScore(scores, voter, fieldAddress).score))
    ensures r.Some? ==> IntValue(r.value) <= 10 * MinimalScoreOfLevel(level(selfScore))
    ensures r.Some? ==> IntValue(r.value) == CalculateVoteScore(level(selfScore), level(SelectScore(scores, voter, fieldAddress).score))
  {
    if fieldAddress !in fields then None
    else Some(Render(CalculateVoteScore(level(selfScore), level(SelectScore(scores, voter, fieldAddress).score))))
  }

  /**
   * With the arguments swapped, the read lands on the field's own address,
   * which holds no score row, so every voter weighs as a voter of score 0.
   * A voter at level 2 voting on a target at level 2 weighs 1 instead of
   * 10000.
   */
  lemma SwappedVoterRead(field: Address, voter: Address, level: TextualInteger -> nat)
    requires LevelPinned(level) && field != voter
    ensures var scores := map[voter := Score(voter, field, TextualInteger("10000"), 0, 0)];
      && VoteWeightAsWritten({field}, scores, field, voter, TextualInteger("10000"), level) == Some(TextualInteger("1"))
      && VoteWeight({field}, scores, field, voter, TextualInteger("10000"), level) == Some(Render(10000))
  {
    var scores := map[voter := Score(voter, field, TextualInteger("10000"), 0, 0)];
    assert SelectScore(scores, field, voter) == DefaultScore(field, voter);
    assert CalculateVoteScore(2, 0) == 1;
    assert Pow100(2) == 10000;
    assert CalculateVoteScore(2, 2) == 10000;
    assert Render(1) == TextualInteger("1") by {
      assert NatToString(1) == [Digits.DigitChar(1)];
    }
  }

  /**
   * The field's own address holds no score row, so the read as written
   * always finds the zero row: every voter weighs what a voter of score "0"
   * weighs, whatever the voter's own row says.
   */
  lemma AsWrittenIgnoresVoter(fields: set<Address>, scores: map<Address, Score>, fieldAddress: Address, voter: Address,
                              selfScore: TextualInteger, level: TextualInteger -> nat)
    requires fieldAddress !in scores && level(selfScore) <= MaxPosterLevel && level(TextualInteger("0")) <= MaxVoterLevel
    ensures level(SelectScore(scores, fieldAddress, voter).score) <= MaxVoterLevel
    ensures VoteWeightAsWritten(fields, scores, fieldAddress, voter, selfScore, level)
      == if fieldAddress in fields then Some(Render(CalculateVoteScore(level(selfScore), level(TextualInteger("0"))))) else None
  {
    assert SelectScore(scores, fieldAddress, voter) == DefaultScore(fieldAddress, voter);
  }

  /** For a voter without a score row, the read as written and the corrected read give the same weight. */
  lemma WeightsAgreeForNewVoter(fields: set<Address>, scores: map<Address, Score>, fieldAddress: Address, voter: Address,
                                selfScore: TextualInteger, level: TextualInteger -> nat)
    requires fieldAddress !in scores && voter !in scores
    requires level(selfScore) <= MaxPosterLevel && level(TextualInteger("0")) <= MaxVoterLevel
    ensures level(SelectScore(scores, fieldAddress, voter).score) <= MaxVoterLevel
    ensures level(SelectScore(scores, voter, fieldAddress).score) <= MaxVoterLevel
    ensures VoteWeightAsWritten(fields, scores, fieldAddress, voter, selfScore, level)
      == VoteWeight(fields, scores, fieldAddress, voter, selfScore, level)
  {
    assert SelectScore(scores, fieldAddress, voter).score == TextualInteger("0");
    assert SelectScore(scores, voter, fieldAddress).score == TextualInteger("0");
  }

  /** The weight the source computes is never 0, so the handlers' zero check never refuses it. */
  lemma WeightNeverZero(fields: set<Address>, scores: map<Address, Score>, fieldAddress: Address, voter: Address,
                        selfScore: TextualInteger, level: TextualInteger -> nat)
    requires level(selfScore) <= MaxPosterLevel && fieldAddress in fields
    requires level(SelectScore(scores, voter, fieldAddress).score) <= MaxVoterLevel
    requires level(SelectScore(scores, fieldAddress, voter).score) <= MaxVoterLevel
    ensures VoteWeight(fields, scores, fieldAddress, voter, selfScore, level).value != TextualInteger("0")
    ensures VoteWeightAsWritten(fields, scores, fieldAddress, voter, selfScore, level).value != TextualInteger("0")
  {
    assert IntValue(TextualInteger("0")) == 0;
  }

  /** `"-" + w` for the canonical non-zero weight w: the canonical text of -w. */
  lemma NegatedWeight(w: TextualInteger)
    requires Canonical(w) && IntValue(w) >= 1
    ensures Canonical(TextualInteger("-" + w.value)) && IntValue(TextualInteger("-" + w.value)) == -IntValue(w)
  {
    var s := "-" + w.value;
    assert s[1..] == w.value;
    assert IntValue(TextualInteger("0")) == 0;
    assert w == TextualInteger(w.value);
    NegativeSign(w);
  }

  class Comment {
    var address: Address
    var from: Address
    var to: Address
    var score: TextualInteger
    var upvote: nat
    var downvote: nat
    var content: string
    var timestamp: int
    var fieldAddress: Address
    var comments: seq<Comment>

    predicate Valid()
      reads this
    {
      Canonical(score)
    }

    /** `Comment::new`: score "0", no votes, no loaded replies. */
    constructor(from: Address, to: Address, content: string, fieldAddress: Address, address: Address, timestamp: int)
      ensures Valid()
      ensures this.from == from && this.to == to && this.content == content && this.fieldAddress == fieldAddress
      ensures this.address == address && this.timestamp == timestamp
      ensures score == TextualInteger("0") && upvote == 0 && downvote == 0 && comments == []
    {
      this.from := from;
      this.to := to;
      score := TextualInteger("0");
      upvote := 0;
      downvote := 0;
      this.content := content;
      this.timestamp := timestamp;
      this.address := address;
      this.fieldAddress := fieldAddress;
      comments := [];
    }

    /**
     * `upvote` with the weight w: a zero weight is refused; otherwise the
     * vote goes to the database with +w and, whatever the database answers,
     * the local score gains w and the local upvote count one. A panic in the
     * database ends the call before the local update.
     */
    method Upvote(db: Sqlite, upvoter: Address, w: TextualInteger) returns (res: VoteResult)
      requires Valid() && db.Valid() && Canonical(w) && IntValue(w) >= 0
      modifies this`score, this`upvote, this`downvote, db`votes, db`scores
      ensures Valid() && db.Valid()
      ensures w == TextualInteger("0") ==> res == VoteErr("Vote vote_score is 0") && unchanged(this) && unchanged(db)
      ensures w != TextualInteger("0") ==>
        Ledger(db.votes, db.scores, res) == VoteTransition(old(db.votes), old(db.scores), upvoter, address, w, fieldAddress)
      ensures w != TextualInteger("0") && res != VotePanic ==>
        IntValue(score) == old(IntValue(score)) + IntValue(w) && upvote == old(upvote) + 1 && downvote == old(downvote)
      ensures res == VotePanic ==> score == old(score) && upvote == old(upvote) && downvote == old(downvote)
      ensures address == old(address) && fieldAddress == old(fieldAddress)
      ensures db.fields == old(db.fields)
    {
      if w == TextualInteger("0") {
        return VoteErr("Vote vote_score is 0");
      }
      res := db.Vote(upvoter, address, w, fieldAddress);
      if res == VotePanic {
        return;
      }
      score := Add(score, w);
      upvote := upvote + 1;
    }

    /**
     * `downvote` with the weight w: a zero weight is refused; otherwise the
     * vote goes to the database as "-" + w and, whatever the database
     * answers, the local score loses w and the local downvote count gains
     * one. A panic in the database ends the call before the local update.
     */
    method Downvote(db: Sqlite, downvoter: Address, w: TextualInteger) returns (res: VoteResult)
      requires Valid() && db.Valid() && Canonical(w) && IntValue(w) >= 0
      modifies this`score, this`upvote, this`downvote, db`votes, db`scores
      ensures Valid() && db.Valid()
      ensures w == TextualInteger("0") ==> res == VoteErr("Vote vote_score is 0") && unchanged(this) && unchanged(db)
      ensures w != TextualInteger("0") ==>
        Ledger(db.votes, db.scores, res)
          == VoteTransition(old(db.votes), old(db.scores), downvoter, address, TextualInteger("-" + w.value), fieldAddress)
      ensures w != TextualInteger("0") && res != VotePanic ==>
        IntValue(score) == old(IntValue(score)) - IntValue(w) && downvote == old(downvote) + 1 && upvote == old(upvote)
      ensures res == VotePanic ==> score == old(score) && upvote == old(upvote) && downvote == old(downvote)
      ensures address == old(address) && fieldAddress == old(fieldAddress)
      ensures db.fields == old(db.fields)
    {
      if w == TextualInteger("0") {
        return VoteErr("Vote vote_score is 0");
      }
      assert IntValue(w) >= 1 by {
        RenderIntValue(w);
      }
      var negative := TextualInteger("-" + w.value);
      NegatedWeight(w);
      res := db.Vote(downvoter, address, negative, fieldAddress);
      if res == VotePanic {
        return;
      }
      score := Sub(score, w);
      downvote := downvote + 1;
    }
  }

  class Post {
    var address: Address
    var from: Address
    var to: Address
    var title: string
    var content: string
    var score: TextualInteger
    var upvote: nat
    var downvote: nat
    var timestamp: int
    var comments: seq<Comment>

    predicate Valid()
      reads this
    {
      Canonical(score)
    }

    /** `Post::new` in the field `fieldAddress`: score "0", no votes, no loaded comments. */
    constructor(from: Address, fieldAddress: Address, title: string, content: string, address: Address, timestamp: int)
      ensures Valid()
      ensures this.from == from && to == fieldAddress && this.title == title && this.content == content
      ensures this.address == address && this.timestamp == timestamp
      ensures score == TextualInteger("0") && upvote == 0 && downvote == 0 && comments == []
    {
      this.address := address;
      this.from := from;
      to := fieldAddress;
      this.title := title;
      this.content := content;
      score := TextualInteger("0");
      upvote := 0;
      downvote := 0;
      this.timestamp := timestamp;
      comments := [];
    }

    /** `upvote` with the weight w, in the post's field `to`; see `Comment.Upvote`. */
    method Upvote(db: Sqlite, upvoter: Address, w: TextualInteger) returns (res: VoteResult)
      requires Valid() && db.Valid() && Canonical(w) && IntValue(w) >= 0
      modifies this`score, this`upvote, this`downvote, db`votes, db`scores
      ensures Valid() && db.Valid()
      ensures w == TextualInteger("0") ==> res == VoteErr("Vote vote_score is 0") && unchanged(this) && unchanged(db)
      ensures w != TextualInteger("0") ==>
        Ledger(db.votes, db.scores, res) == VoteTransition(old(db.votes), old(db.scores), upvoter, address, w, to)
      ensures w != TextualInteger("0") && res != VotePanic ==>
        IntValue(score) == old(IntValue(score)) + IntValue(w) && upvote == old(upvote) + 1 && downvote == old(downvote)
      ensures res == VotePanic ==> score == old(score) && upvote == old(upvote) && downvote == old(downvote)
      ensures address == old(address) && to == old(to)
      ensures db.fields == old(db.fields)
    {
      if w == TextualInteger("0") {
        return VoteErr("Vote vote_score is 0");
      }
      res := db.Vote(upvoter, address, w, to);
      if res == VotePanic {
        return;
      }
      score := Add(score, w);
      upvote := upvote + 1;
    }

    /** `downvote` with the weight w, in the post's field `to`; see `Comment.Downvote`. */
    method Downvote(db: Sqlite, downvoter: Address, w: TextualInteger) returns (res: VoteResult)
      requires Valid() && db.Valid() && Canonical(w) && IntValue(w) >= 0
      modifies this`score, this`upvote, this`downvote, db`votes, db`scores
      ensures Valid() && db.Valid()
      ensures w == TextualInteger("0") ==> res == VoteErr("Vote vote_score is 0") && unchanged(this) && unchanged(db)
      ensures w != TextualInteger("0") ==>
        Ledger(db.votes, db.scores, res)
          == VoteTransition(old(db.votes), old(db.scores), downvoter, address, TextualInteger("-" + w.value), to)
      ensures w != TextualInteger("0") && res != VotePanic ==>
        IntValue(score) == old(IntValue(score)) - IntValue(w) && downvote == old(downvote) + 1 && upvote == old(upvote)
      ensures res == VotePanic ==> score == old(score) && upvote == old(upvote) && downvote == old(downvote)
      ensures address == old(address) && to == old(to)
      ensures db.fields == old(db.fields)
    {
      if w == TextualInteger("0") {
        return VoteErr("Vote vote_score is 0");
      }
      assert IntValue(w) >= 1 by {
        RenderIntValue(w);
      }
      var negative := TextualInteger("-" + w.value);
      NegatedWeight(w);
      res := db.Vote(downvoter, address, negative, to);
      if res == VotePanic {
        return;
      }
      score := Sub(score, w);
      downvote := downvote + 1;
    }
  }

  // ---------------------------------------------------------------------------
  // Scenarios

  lemma SmallRenders()
    ensures Render(1) == TextualInteger("1") && Render(2) == TextualInteger("2")
    ensures Render(-1) == TextualInteger("-1") && Render(-2) == TextualInteger("-2")
    ensures IntValue(TextualInteger("0")) == 0 && IntValue(TextualInteger("1")) == 1
  {
    assert NatToString(0) == [Digits.DigitChar(0)];
    assert Render(0) == TextualInteger("0");
    assert NatToString(1) == [Digits.DigitChar(1)];
    assert NatToString(2) == [Digits.DigitChar(2)];
  }

  /** A database holding the field and the zero score rows of a persisted post and a comment on it. */
  method FixtureDatabase() returns (db: Sqlite)
    ensures fresh(db) && db.Valid()
    ensures db.fields == {"field"} && db.votes == []
    ensures db.scores == map["post" := Score("post", "field", TextualInteger("0"), 0, 0),
                             "comment" := Score("comment", "field", TextualInteger("0"), 0, 0)]
  {
    db := new Sqlite();
    db.fields := {"field"};
    db.scores := map["post" := Score("post", "field", TextualInteger("0"), 0, 0),
                     "comment" := Score("comment", "field", TextualInteger("0"), 0, 0)];
  }

  /** A voter without a score row in the field weighs 1 on any target, once the read is corrected. */
  lemma NewVoterWeighsOne(fields: set<Address>, scores: map<Address, Score>, fieldAddress: Address, voter: Address,
                          selfScore: TextualInteger, level: TextualInteger -> nat)
    requires LevelPinned(level) && level(selfScore) <= MaxPosterLevel && fieldAddress in fields && voter !in scores
    ensures VoteWeight(fields, scores, fieldAddress, voter, selfScore, level) == Some(TextualInteger("1"))
  {
    SmallRenders();
    assert SelectScore(scores, voter, fieldAddress).score == TextualInteger("0");
  }

  /** As written, every voter weighs 1 on any target of an existing field. */
  lemma EveryVoterWeighsOne(fields: set<Address>, scores: map<Address, Score>, fieldAddress: Address, voter: Address,
                            selfScore: TextualInteger, level: TextualInteger -> nat)
    requires LevelPinned(level) && level(selfScore) <= MaxPosterLevel && fieldAddress in fields && fieldAddress !in scores
    ensures level(SelectScore(scores, fieldAddress, voter).score) <= MaxVoterLevel
    ensures VoteWeightAsWritten(fields, scores, fieldAddress, voter, selfScore, level) == Some(TextualInteger("1"))
  {
    SmallRenders();
    AsWrittenIgnoresVoter(fields, scores, fieldAddress, voter, selfScore, level);
  }

  /** A user's first vote on a target is accepted. */
  lemma FirstVoteAccepted(votes: seq<VoteRow>, scores: map<Address, Score>, from: Address, to: Address,
                          w: TextualInteger, fieldAddress: Address)
    requires forall i :: 0 <= i < |votes| ==> !Matches(votes[i], from, to)
    ensures VoteTransition(votes, scores, from, to, w, fieldAddress).result == VoteOk
    ensures VoteTransition(votes, scores, from, to, w, fieldAddress).votes == votes + [VoteRow(to, from, w)]
    ensures VoteTransition(votes, scores, from, to, w, fieldAddress).scores.Keys == scores.Keys
  {
  }

  /**
   * A vote on a comment by a user who has not voted on it before, with the
   * weight computed as the source does: the user weighs 1, the database
   * accepts the vote, and the comment's score moves by one in the vote's
   * direction.
   */
  method NewVoterVote(db: Sqlite, comment: Comment, voter: Address, up: bool, level: TextualInteger -> nat)
    returns (res: VoteResult)
    requires LevelPinned(level) && comment.Valid() && db.Valid() && level(comment.score) <= MaxPosterLevel
    requires comment.fieldAddress in db.fields && comment.fieldAddress !in db.scores
    requires forall i :: 0 <= i < |db.votes| ==> !Matches(db.votes[i], voter, comment.address)
    modifies db, comment
    ensures res == VoteOk && comment.Valid() && db.Valid()
    ensures IntValue(comment.score) == old(IntValue(comment.score)) + (if up then 1 else -1)
    ensures db.votes == old(db.votes) + [VoteRow(comment.address, voter, TextualInteger(if up then "1" else "-1"))]
    ensures db.scores.Keys == old(db.scores.Keys) && db.fields == old(db.fields)
    ensures comment.address == old(comment.address) && comment.fieldAddress == old(comment.fieldAddress)
  {
    EveryVoterWeighsOne(db.fields, db.scores, comment.fieldAddress, voter, comment.score, level);
    var w := VoteWeightAsWritten(db.fields, db.scores, comment.fieldAddress, voter, comment.score, level).value;
    SmallRenders();
    if up {
      FirstVoteAccepted(db.votes, db.scores, voter, comment.address, w, comment.fieldAddress);
      res := comment.Upvote(db, voter, w);
    } else {
      FirstVoteAccepted(db.votes, db.scores, voter, comment.address, TextualInteger("-" + w.value), comment.fieldAddress);
      res := comment.Downvote(db, voter, w);
    }
  }

  /** The same for a vote on a post, in the post's field. */
  method NewVoterPostVote(db: Sqlite, post: Post, voter: Address, up: bool, level: TextualInteger -> nat)
    returns (res: VoteResult)
    requires LevelPinned(level) && post.Valid() && db.Valid() && level(post.score) <= MaxPosterLevel
    requires post.to in db.fields && post.to !in db.scores
    requires forall i :: 0 <= i < |db.votes| ==> !Matches(db.votes[i], voter, post.address)
    modifies db, post
    ensures res == VoteOk && post.Valid() && db.Valid()
    ensures IntValue(post.score) == old(IntValue(post.score)) + (if up then 1 else -1)
    ensures db.votes == old(db.votes) + [VoteRow(post.address, voter, TextualInteger(if up then "1" else "-1"))]
    ensures db.scores.Keys == old(db.scores.Keys) && db.fields == old(db.fields)
    ensures post.address == old(post.address) && post.to == old(post.to)
  {
    EveryVoterWeighsOne(db.fields, db.scores, post.to, voter, post.score, level);
    var w := VoteWeightAsWritten(db.fields, db.scores, post.to, voter, post.score, level).value;
    SmallRenders();
    if up {
      FirstVoteAccepted(db.votes, db.scores, voter, post.address, w, post.to);
      res := post.Upvote(db, voter, w);
    } else {
      FirstVoteAccepted(db.votes, db.scores, voter, post.address, TextualInteger("-" + w.value), post.to);
      res := post.Downvote(db, voter, w);
    }
  }

  /**
   * A persisted comment voted up by a user with no score row and then by a
   * registered user, each with the weight the source computes: the local
   * score is "1" after the first vote and "2" after the second.
   */
  method CommentUpvoteScenario(level: TextualInteger -> nat) returns (first: TextualInteger, second: TextualInteger)
    requires LevelPinned(level)
    ensures first == TextualInteger("1") && second == TextualInteger("2")
  {
    SmallRenders();
    var db := FixtureDatabase();
    var comment := new Comment("author", "post", "test", "field", "comment", 0);
    var res := NewVoterVote(db, comment, "voter1", true, level);
    RenderIntValue(comment.score);
    first := comment.score;
    res := NewVoterVote(db, comment, "voter2", true, level);
    RenderIntValue(comment.score);
    second := comment.score;
  }

  /** The same with two downvotes: "-1", then "-2". */
  method CommentDownvoteScenario(level: TextualInteger -> nat) returns (first: TextualInteger, second: TextualInteger)
    requires LevelPinned(level) && level(TextualInteger("-1")) <= MaxPosterLevel
    ensures first == TextualInteger("-1") && second == TextualInteger("-2")
  {
    SmallRenders();
    var db := FixtureDatabase();
    var comment := new Comment("author", "post", "test", "field", "comment", 0);
    var res := NewVoterVote(db, comment, "voter1", false, level);
    RenderIntValue(comment.score);
    first := comment.score;
    res := NewVoterVote(db, comment, "voter2", false, level);
    RenderIntValue(comment.score);
    second := comment.score;
  }

  /** A persisted post voted up by two users: "1", then "2". */
  method PostUpvoteScenario(level: TextualInteger -> nat) returns (first: TextualInteger, second: TextualInteger)
    requires LevelPinned(level)
    ensures first == TextualInteger("1") && second == TextualInteger("2")
  {
    SmallRenders();
    var db := FixtureDatabase();
    var post := new Post("author", "field", "test", "test", "post", 0);
    var res := NewVoterPostVote(db, post, "voter1", true, level);
    RenderIntValue(post.score);
    first := post.score;
    res := NewVoterPostVote(db, post, "voter2", true, level);
    RenderIntValue(post.score);
    second := post.score;
  }

  /** A persisted post voted down by two users: "-1", then "-2". */
  method PostDownvoteScenario(level: TextualInteger -> nat) returns (first: TextualInteger, second: TextualInteger)
    requires LevelPinned(level) && level(TextualInteger("-1")) <= MaxPosterLevel
    ensures first == TextualInteger("-1") && second == TextualInteger("-2")
  {
    SmallRenders();
    var db := FixtureDatabase();
    var post := new Post("author", "field", "test", "test", "post", 0);
    var res := NewVoterPostVote(db, post, "voter1", false, level);
    RenderIntValue(post.score);
    first := post.score;
    res := NewVoterPostVote(db, post, "voter2", false, level);
    RenderIntValue(post.score);
    second := post.score;
  }
}
