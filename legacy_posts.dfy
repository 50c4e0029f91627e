/**
 * The earlier posts and comments (rankforum/src/post.rs): `i64` scores
 * updated in place by the vote handlers, and a post's index of the comments
 * made on it and on its comments.
 *
 * `calculate_vote_impact` first looks a field up with `field_by_address`,
 * which searches the `fields` table by address, and unwraps the result: a
 * comment uses the address it replies to, a post its own address. The
 * addresses in the `fields` table are an argument of the handlers, and the
 * failed `unwrap` is the handler's `panicked` outcome. The voter's score in
 * the field found is an argument too: the score, or `None` when there is
 * none. Writing the object back to the database after each change is
 * persistence and is not modelled. Fresh addresses and the clock are
 * arguments of the constructors.
 */
module LegacyPosts {
  import opened Options
  import Scores
  import opened LegacyScores

  type Address = string

  /** The levels of both scores are ones `calculate_vote_impact` computes without overflow. */
  predicate LevelsFit(voterScore: Option<int>, selfScore: int, level: int -> nat) {
    level(selfScore) <= Scores.MaxPosterLevel && (voterScore.Some? ==> level(voterScore.value) <= Scores.MaxVoterLevel)
  }

  /**
   * `calculate_vote_impact` of a post or comment that looks its field up by
   * `key`: `None` when no field has that address (the `unwrap` panics),
   * otherwise 0 when the voter has no score in the field, and the capped
   * weight of the voter's level against the target's when it has one.
   */
  function VoteImpact(fields: set<Address>, key: Address, voterScore: Option<int>, selfScore: int, level: int -> nat): (r: Option<int>)
    requires LevelsFit(voterScore, selfScore, level)
    ensures r.None? <==> key !in fields
    ensures r.Some? ==> (r.value == 0 <==> voterScore.None?)
    ensures r.Some? && voterScore.Some? ==> 1 <= r.value <= 10 * Scores.Pow100(level(selfScore))
    ensures r.Some? && voterScore.Some? ==> r.value <= Scores.Pow100(level(voterScore.value))
  {
    if key !in fields then None
    else match voterScore
      case None => Some(0)
      case Some(v) => Some(CalculateVoteImpact(level(selfScore), level(v)))
  }

  /**
   * `comments.entry(key).or_insert(HashSet::new()).insert(address)`: the set
   * under `key`, created empty if absent, gains `address`.
   */
  function IndexInsert(index: map<Address, set<Address>>, key: Address, address: Address): (r: map<Address, set<Address>>)
    ensures r.Keys == index.Keys + {key}
    ensures r[key] == (if key in index then index[key] else {}) + {address}
    ensures forall k :: k in index && k != key ==> r[k] == index[k]
  {
    index[key := (if key in index then index[key] else {}) + {address}]
  }

  /** Inserting an address that is already indexed under the key changes nothing. */
  lemma IndexInsertIdempotent(index: map<Address, set<Address>>, key: Address, address: Address)
    requires key in index && address in index[key]
    ensures IndexInsert(index, key, address) == index
  {
    assert index[key] + {address} == index[key];
  }

  /** Every address indexed before an insertion is indexed after it, under the same key. */
  lemma IndexInsertKeeps(index: map<Address, set<Address>>, key: Address, address: Address, k: Address, a: Address)
    requires k in index && a in index[k]
    ensures k in IndexInsert(index, key, address) && a in IndexInsert(index, key, address)[k]
  {
  }

  class Comment {
    var address: Address
    var from: Address
    var to: Address
    var score: int
    var upvote: nat
    var downvote: nat
    var content: string
    var timestamp: int

    /** `Comment::new`: score 0 and no votes. */
    constructor(from: Address, to: Address, content: string, address: Address, timestamp: int)
      ensures this.from == from && this.to == to && this.content == content
      ensures this.address == address && this.timestamp == timestamp
      ensures score == 0 && upvote == 0 && downvote == 0
    {
      this.from := from;
      this.to := to;
      score := 0;
      upvote := 0;
      downvote := 0;
      this.content := content;
      this.timestamp := timestamp;
      this.address := address;
    }

    /**
     * `upvote`: the field is looked up by `to` and the call panics when no
     * field has that address; with no impact nothing changes; otherwise the
     * score gains the impact and the upvotes one. Nothing else changes.
     */
    method Upvote(fields: set<Address>, voterScore: Option<int>, level: int -> nat) returns (panicked: bool)
      requires LevelsFit(voterScore, score, level)
      modifies this`score, this`upvote
      ensures panicked <==> to !in fields
      ensures panicked || voterScore.None? ==> score == old(score) && upvote == old(upvote)
      ensures !panicked && voterScore.Some? ==>
        score == old(score) + CalculateVoteImpact(level(old(score)), level(voterScore.value)) && upvote == old(upvote) + 1
    {
      var impact := VoteImpact(fields, to, voterScore, score, level);
      if impact.None? {
        return true;
      }
      panicked := false;
      if impact.value == 0 {
        return;
      }
      score := score + impact.value;
      upvote := upvote + 1;
    }

    /**
     * `downvote`: the same lookup by `to`; with no impact nothing changes;
     * otherwise the score loses the impact and the downvotes gain one.
     * Nothing else changes.
     */
    method Downvote(fields: set<Address>, voterScore: Option<int>, level: int -> nat) returns (panicked: bool)
      requires LevelsFit(voterScore, score, level)
      modifies this`score, this`downvote
      ensures panicked <==> to !in fields
      ensures panicked || voterScore.None? ==> score == old(score) && downvote == old(downvote)
      ensures !panicked && voterScore.Some? ==>
        score == old(score) - CalculateVoteImpact(level(old(score)), level(voterScore.value)) && downvote == old(downvote) + 1
    {
      var impact := VoteImpact(fields, to, voterScore, score, level);
      if impact.None? {
        return true;
      }
      panicked := false;
      if impact.value == 0 {
        return;
      }
      score := score - impact.value;
      downvote := downvote + 1;
    }
  }

  class Post {
    var address: Address
    var from: Address
    var to: Address
    var title: string
    var content: string
    var score: int
    var upvote: nat
    var downvote: nat
    var timestamp: int
    /** Direct comment address to the addresses of the comments made under it. */
    var comments: map<Address, set<Address>>

    /** `Post::new` in the field `fieldAddress`: score 0, no votes, an empty comment index. */
    constructor(from: Address, fieldAddress: Address, title: string, content: string, address: Address, timestamp: int)
      ensures this.from == from && to == fieldAddress && this.title == title && this.content == content
      ensures this.address == address && this.timestamp == timestamp
      ensures score == 0 && upvote == 0 && downvote == 0 && comments == map[]
    {
      this.address := address;
      this.from := from;
      to := fieldAddress;
      this.title := title;
      this.content := content;
      score := 0;
      upvote := 0;
      downvote := 0;
      this.timestamp := timestamp;
      comments := map[];
    }

    /**
     * `upvote`: the field is looked up by the post's own `address` (not by
     * its field `to`), and the call panics when no field has that address;
     * with no impact nothing changes; otherwise the score gains the impact
     * and the upvotes one. Nothing else changes.
     */
    method Upvote(fields: set<Address>, voterScore: Option<int>, level: int -> nat) returns (panicked: bool)
      requires LevelsFit(voterScore, score, level)
      modifies this`score, this`upvote
      ensures panicked <==> address !in fields
      ensures panicked || voterScore.None? ==> score == old(score) && upvote == old(upvote)
      ensures !panicked && voterScore.Some? ==>
        score == old(score) + CalculateVoteImpact(level(old(score)), level(voterScore.value)) && upvote == old(upvote) + 1
    {
      var impact := VoteImpact(fields, address, voterScore, score, level);
      if impact.None? {
        return true;
      }
      panicked := false;
      if impact.value == 0 {
        return;
      }
      score := score + impact.value;
      upvote := upvote + 1;
    }

    /**
     * `downvote`: the same lookup by the post's own address; with no impact
     * nothing changes; otherwise the score loses the impact and the
     * downvotes gain one. Nothing else changes.
     */
    method Downvote(fields: set<Address>, voterScore: Option<int>, level: int -> nat) returns (panicked: bool)
      requires LevelsFit(voterScore, score, level)
      modifies this`score, this`downvote
      ensures panicked <==> address !in fields
      ensures panicked || voterScore.None? ==> score == old(score) && downvote == old(downvote)
      ensures !panicked && voterScore.Some? ==>
        score == old(score) - CalculateVoteImpact(level(old(score)), level(voterScore.value)) && downvote == old(downvote) + 1
    {
      var impact := VoteImpact(fields, address, voterScore, score, level);
      if impact.None? {
        return true;
      }
      panicked := false;
      if impact.value == 0 {
        return;
      }
      score := score - impact.value;
      downvote := downvote + 1;
    }

    /**
     * `comment`: a new comment on this post, indexed under its own address.
     * Nothing else of the post changes.
     */
    method PostComment(text: string, from: Address, newAddress: Address, timestamp: int) returns (c: Comment)
      modifies this`comments
      ensures fresh(c) && c.from == from && c.to == address && c.content == text && c.address == newAddress
      ensures c.timestamp == timestamp && c.score == 0 && c.upvote == 0 && c.downvote == 0
      ensures comments == IndexInsert(old(comments), newAddress, newAddress)
    {
      c := new Comment(from, address, text, newAddress, timestamp);
      comments := IndexInsert(comments, c.address, c.address);
    }

    /**
     * `comment_on_comment`: a new comment on the comment `to`, indexed under
     * `to`. Nothing else of the post changes.
     */
    method CommentOnComment(text: string, from: Address, to: Address, newAddress: Address, timestamp: int) returns (c: Comment)
      modifies this`comments
      ensures fresh(c) && c.from == from && c.to == to && c.content == text && c.address == newAddress
      ensures c.timestamp == timestamp && c.score == 0 && c.upvote == 0 && c.downvote == 0
      ensures comments == IndexInsert(old(comments), to, newAddress)
    {
      c := new Comment(from, to, text, newAddress, timestamp);
      comments := IndexInsert(comments, to, c.address);
    }
  }

  /**
   * A post created in an existing field, voted on by a user with a score in
   * that field: the lookup by the post's own address finds no field, so the
   * vote panics and the score stays 0.
   */
  method PostVoteLookupScenario(level: int -> nat) returns (panicked: bool, score: int)
    requires level(0) <= Scores.MaxPosterLevel && level(10000) <= Scores.MaxVoterLevel
    ensures panicked && score == 0
  {
    var post := new Post("author", "field", "title", "content", "post", 0);
    panicked := post.Upvote({"field"}, Some(10000), level);
    score := post.score;
  }

  /**
   * The same user voting on a comment made on that post: the lookup by the
   * post's address again finds no field, and the vote panics.
   */
  method CommentVoteLookupScenario(level: int -> nat) returns (panicked: bool, score: int)
    requires level(0) <= Scores.MaxPosterLevel && level(10000) <= Scores.MaxVoterLevel
    ensures panicked && score == 0
  {
    var comment := new Comment("author", "post", "text", "comment", 0);
    panicked := comment.Upvote({"field"}, Some(10000), level);
    score := comment.score;
  }
}
