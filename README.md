# RankForum reputation core in Dafny

This project models the reputation core of the RankForum forum backend. In
RankForum, posts and comments carry a score. Users vote them up or down, and
a vote weighs more when the voter's own score in the field is higher.

The model covers five parts:

- **Textual integers** (`textual_integer.dfy`, with `digits.dfy`). A signed
  decimal integer is stored as its string. The model has the digit loops of
  `add_positive`, `sub_positive`, `mul_positive` and `pow`, the sign dispatch
  of `+`, `-` and `*`, and `is_positive`, `is_smaller` and `cmp`. Each is
  proved against the integer its string denotes.
- **Vote weights** (`scores.dfy`, `legacy_scores.dfy`). A voter's weight is
  100^voter_level, capped at ten times 100^poster_level. The levels are
  bounded so that the source's `u64`/`i64` arithmetic cannot overflow.
- **The SQLite ledger** (`db_sqlite.dfy`). `vote` is one transaction over
  the `votes` table and the `score` table. The model also has `select_score`,
  `update_score` and the checks of `upsert_comment`. The class `Sqlite`
  holds the tables, and `Sqlite.Vote` is proved equal to the pure transition
  `VoteTransition`. The lemmas show four things:
  - a repeated vote of the same sign is refused;
  - there is at most one vote row per voter and target;
  - a score row that agrees with the recorded votes keeps agreeing after any vote;
  - in that agreeing state no vote can panic.
- **Listings** (`listing.dfy`). After their query, `filter_comments` and
  `filter_posts` fill in the scores, sort, filter by level and truncate.
  The sort is Rust's stable `sort_by`, modelled as a stable insertion sort,
  followed by a reversal when the listing is descending.
- **Posts and comments** (`posts.dfy`, `legacy_posts.dfy`). These are the
  current and the earlier `Post` and `Comment` objects. Their vote handlers
  update a local copy of the score. The earlier `Post` also keeps an index of
  its comments.

A few facts of the code shape the model:

- The `votes` table has no key. It is a sequence of rows, and "one vote per
  voter and target" is proved as an invariant that `vote` keeps
  (`VoteKeepsUnique`). It is not built into the type.
- The `score` table's primary key is the address alone. It is a map from
  address to row. `select_score` and `update_score` filter on both address
  and field. `update_score` is an `UPDATE` that never creates a row, so a
  vote on a target with no row in the field is recorded but leaves the score
  table unchanged (`LostUpdate`).
- The vote handlers in `src/post.rs` read the voter's score as
  `select_score(field, voter)`, with the arguments swapped (see Findings).
  The model computes weights this way, and `VoteWeight` is the corrected
  read.
- `upsert_comment` compares a target comment's field with itself (see
  Findings). `Sqlite.UpsertComment` runs the checks as written.
- In `rankforum/src/post.rs`, `calculate_vote_impact` looks its field up in
  the `fields` table by the address the comment replies to, or by the
  post's own address, and unwraps the result. Neither is a field's
  address, so the `unwrap` panics unless that address happens to be one
  (`PostVoteLookupScenario`, `CommentVoteLookupScenario`).

## Model

| member | source | states |
|---|---|---|
| TextualIntegers.RenderIntValue | src/textual_integer.rs:10-18 | Canonical decimal strings and integers correspond one to one: rendering the value of a canonical string gives back that string |
| TextualIntegers.IsPositive | src/textual_integer.rs:20-22 | `is_positive` holds exactly when the string has no leading '-'; on a canonical string that means the value is at least 0 |
| TextualIntegers.NegativeSign | src/textual_integer.rs:20-22 | A canonical string starts with '-' if and only if it denotes a negative number |
| TextualIntegers.IsSmallerIsMagnitudeOrder | src/textual_integer.rs:138-146 | On canonical magnitudes, `is_smaller` (shorter first, then lexicographic) holds if and only if the value is smaller |
| TextualIntegers.CmpIsIntegerOrder | src/textual_integer.rs:149-184 | `cmp` (sign, then length, then characters, reversed for two negatives) is the integer order of the denoted values |
| TextualIntegers.AddPositive | src/textual_integer.rs:85-107 | Column addition with carry over the reversed strings returns the canonical string of the sum |
| TextualIntegers.SubPositive | src/textual_integer.rs:109-136 | For a >= b, column subtraction with borrow, with leading zeros popped down to one digit, returns the canonical difference |
| TextualIntegers.MulPositive | src/textual_integer.rs:46-83 | Schoolbook multiplication with one carry pass returns the canonical product of the magnitudes; '-' reads as the digit 0 |
| TextualIntegers.Pow | src/textual_integer.rs:24-44 | Exponent 0 gives "1" and exponent 1 the base. For larger exponents, square-and-multiply gives the magnitude's power without a sign. For a non-negative base this is the integer power |
| TextualIntegers.PowZeroOfZero | src/textual_integer.rs:25-27 | pow("0", 0) is "1" |
| TextualIntegers.Add | src/textual_integer.rs:187-228 | `+` (and `+=`) on canonical operands returns the canonical string of the integer sum, through all three sign cases |
| TextualIntegers.Sub | src/textual_integer.rs:230-284 | `-` (and `-=`) on canonical operands returns the canonical string of the integer difference, through all four sign cases |
| TextualIntegers.Mul | src/textual_integer.rs:286-315 | `*` (and `*=`) returns the product of the magnitudes, with '-' in front exactly when the operands' signs differ |
| TextualIntegers.MulIsProduct | src/textual_integer.rs:286-309 | `*` returns the canonical integer product if and only if the signs agree or the product is non-zero |
| TextualIntegers.MulNegativeByZero | src/textual_integer.rs:302-305 | "-5" * "0" returns "-0", which is not canonical |
| TextualIntegers.MulCanonical | src/textual_integer.rs:286-309 | With no sign on a zero product, `*` is integer multiplication on every canonical input |
| TextualIntegers.PowNegativeBase | src/textual_integer.rs:24-44 | "-2".pow(3) returns "8", not -8 |
| TextualIntegers.PowSign | src/textual_integer.rs:24-44 | The integer power of a canonical base is the magnitude's power, negated exactly when the base is negative and the exponent odd |
| TextualIntegers.PowSigned | src/textual_integer.rs:24-44 | With the sign restored for a negative base and an odd exponent, `pow` is integer exponentiation on every canonical base |
| Scores.MinimalScoreIncreasing | src/score.rs:12-14 | Level thresholds 100^level strictly increase, each at least 100 times the one below |
| Scores.CalculateVoteScore | src/score.rs:3-10 | The weight is 100^voter or 10 * 100^poster, whichever is smaller, and at least 1 |
| Scores.VoteScoreByLevels | src/score.rs:3-10 | A voter above the poster's level is capped at 10 * 100^poster. A voter at or below it weighs 100^voter |
| Scores.VoteScoreMonotonic | src/score.rs:3-10 | On the same target, a higher voter level never weighs less |
| Scores.WeightsFitInI64 | src/score.rs:3-10 | Up to poster level 8 and voter level 9 the weights fit: 10 * 100^8 fits an `i64` and 100^9 a `u64`. One level further, each overflows its type |
| LegacyScores.CalculateVoteImpact | rankforum/src/score.rs:1-8 | The earlier impact is the smaller of 100^voter and 10 * 100^poster, and never 0 |
| LegacyScores.ImpactByLevels | rankforum/src/score.rs:1-8 | Which bound applies depends only on whether the voter's level is above the poster's |
| DbSqlite.SelectScore | src/db_sqlite.rs:564-584 | The stored row when the address's row is in the requested field. Otherwise a zero row carrying the requested keys |
| DbSqlite.UpdateScore | src/db_sqlite.rs:166-186 | Only the row matching both address and field is replaced. No row is created and no other row changes |
| DbSqlite.FirstVote | src/db_sqlite.rs:50-57 | The first row of (from, to), or -1 exactly when no row matches |
| DbSqlite.SetVote | src/db_sqlite.rs:62-66 | Every (from, to) row takes the new weight and every other row is kept |
| DbSqlite.Counted | src/db_sqlite.rs:68-93 | A first vote raises its sign's counter. A flip also lowers the other counter, and panics exactly when that counter is 0 |
| DbSqlite.MoveCounts | src/db_sqlite.rs:68-93 | The counter updates of `vote` compute `Counted` |
| DbSqlite.Reweigh | src/db_sqlite.rs:76-77 | `score += w; score -= h` gives the canonical score + w - h (only + w on a first vote) |
| DbSqlite.ApplyVote | src/db_sqlite.rs:68-95 | The local aggregate updates of `vote` compute `Recount` and keep the score canonical |
| DbSqlite.VoteTransaction | src/db_sqlite.rs:45-101 | The transaction body equals `VoteTransition` and keeps both tables well formed |
| DbSqlite.Sqlite.Vote | src/db_sqlite.rs:38-102 | `vote` (also `upvote`/`downvote`, lines 495-514) leaves the tables and the result as `VoteTransition` says. Posts, comments and fields stay unchanged |
| DbSqlite.RepeatVoteRejected | src/db_sqlite.rs:58-60 | An earlier vote of the same sign gives "Already voted" and leaves both tables as they were |
| DbSqlite.LostUpdate | src/db_sqlite.rs:166-186 | When the target has no score row in the field, a vote leaves the score table unchanged |
| DbSqlite.VoteKeepsUnique | src/db_sqlite.rs:58-96 | If the votes table has at most one row per (from, to), it still does after `vote` |
| DbSqlite.SetVoteSwap | src/db_sqlite.rs:62-66 | With unique rows, rewriting the (from, to) row from h to w moves the target's weight sum by w - h and moves one count between signs |
| DbSqlite.AppendVote | src/db_sqlite.rs:82-87 | An inserted row adds its weight and its count to its target's tallies only |
| DbSqlite.FirstVoteKeepsTally | src/db_sqlite.rs:81-96 | A first vote keeps the target's row equal to the sum and counts of its recorded votes |
| DbSqlite.FlipKeepsTally | src/db_sqlite.rs:62-78 | A flip keeps the target's row equal to its recorded votes, and always finds a count to lower |
| DbSqlite.TallyPreventsPanic | src/db_sqlite.rs:62-78 | When the target's row agrees with the recorded votes, no vote panics |
| DbSqlite.VoteKeepsTally | src/db_sqlite.rs:38-102 | Every score row that agrees with the recorded votes still agrees after any vote, if the voted target's row is in the voted field |
| DbSqlite.ScoreDownCrossZero | src/db.rs:280-317 | Starting from a zero row: up "1" gives "1", then down "-1" gives "-1", then a second down is refused with the score still "-1" |
| DbSqlite.SelectPost | src/db_sqlite.rs:697-727 | The post row if the address holds one |
| DbSqlite.SelectComment | src/db_sqlite.rs:604-634 | The comment row, found only when the comment has both a score row and a comment row |
| DbSqlite.UpsertCommentCheckAsWritten | src/db_sqlite.rs:636-656 | As written, the checks pass if and only if the target exists and a target post is in the comment's field. A target comment's field is never compared |
| DbSqlite.UpsertCommentCheck | src/db_sqlite.rs:636-656 | Corrected, the checks pass if and only if the target exists and a target post or comment is in the comment's field |
| DbSqlite.CrossFieldReply | src/db_sqlite.rs:651-656 | A reply to a comment of another field passes the checks as written and fails the corrected ones |
| DbSqlite.CorrectedCheckIsStricter | src/db_sqlite.rs:636-656 | Whatever the checks as written refuse, the corrected ones refuse with the same message |
| DbSqlite.Sqlite.UpsertComment | src/db_sqlite.rs:636-695 | The result is the checks as written (`UpsertCommentCheckAsWritten`), so a reply to a comment of another field is accepted. A failed check changes nothing. Otherwise the comment's score row and comment row are inserted or replaced, and nothing else changes |
| Listing.ComparatorIsKeyOrder | src/db_sqlite.rs:192-206 | On canonical scores each `sort_by` comparator is the integer order of one key (score value, upvotes, downvotes, upvotes - downvotes) |
| Listing.StableSortCorrect | src/db_sqlite.rs:192-206 | The stable sort returns the same candidates, ascending by key, with the candidates of each key in input order |
| Listing.ReverseSorted | src/db_sqlite.rs:208-210 | `reverse` turns the ascending list into a descending one and reverses the order within each tie |
| Listing.SortCandidatesCorrect | src/db_sqlite.rs:187-212 | Sorting (also `sort_posts_candidate`, 228-253) returns the same candidates in the requested direction. Ties keep input order ascending and reversed order descending |
| Listing.Filled | src/db_sqlite.rs:221-226 | A filled candidate carries its own row's score and counters (`fill_post_score` at 262-267 does the same) |
| Listing.FillScores | src/db_sqlite.rs:886-888 | The fill loop fills every candidate in place and keeps the list's length and order |
| Listing.RetainByLevelKeeps | src/db_sqlite.rs:214-219 | `retain` keeps exactly the candidates whose level reaches the bound, and no others |
| Listing.RetainByLevelSorted | src/db_sqlite.rs:214-219 | `retain` (also `filter_post_by_level`, 255-260) keeps a sorted list sorted |
| Listing.Truncate | src/db_sqlite.rs:895 | `truncate(n)` returns the first min(n, length) candidates |
| Listing.FilterCandidates | src/db_sqlite.rs:886-897 | On a well-formed database, the steps after the query (also 947-958 for posts) compute `Listed`. Unless ordered by timestamp, no later candidate compares before (ascending) or after (descending) an earlier one under the `sort_by` comparator |
| Listing.FilledCanonical | src/db_sqlite.rs:221-226 | Filling from a well-formed score table gives every candidate a canonical score |
| Listing.ListedInComparatorOrder | src/db_sqlite.rs:187-212 | Over a well-formed score table, a listing not ordered by timestamp is in the order of the `sort_by` comparator itself (`cmp` on the score strings, or on a counter or the balance), in the requested direction |
| Listing.ListedCorrect | src/db_sqlite.rs:886-897 | A listing has at most max_results filled fetched candidates. Each reaches the level, and the list is sorted unless ordered by timestamp |
| Listing.LevelFilterScenario | src/db.rs:457-495 | Four comments of levels 0 to 3 in timestamp order: filtering at level k lists exactly the 4 - k comments from level k up, in the same order |
| Listing.LimitScenario | src/db.rs:555-601 | The same comments with max_results 0 to 4: the first n, in order |
| Listing.BalanceSort | src/db.rs:437-441 | Sorting the ordering fixture by upvote - downvote, descending, puts comment2 first |
| Listing.BalanceOrderingScenario | src/db.rs:398-454 | The listing by upvote - downvote, descending, has four comments with comment2 first |
| Posts.VoteWeightAsWritten | src/post.rs:32-45 | As written: no weight exactly when the field is missing. Otherwise a canonical weight whose value is `calculate_vote_score` of the target's level and the level of the score read at (field, voter), so at least 1 |
| Posts.VoteWeight | src/post.rs:32-45 | Corrected: no weight exactly when the field is missing. Otherwise a canonical weight whose value is `calculate_vote_score` of the target's level and the level of the voter's own score in the field, so between 1 and both level thresholds |
| Posts.AsWrittenIgnoresVoter | src/post.rs:39 | When the field's address holds no score row, the weight as written is that of a voter of score "0", whoever votes |
| Posts.WeightsAgreeForNewVoter | src/post.rs:32-45 | For a voter with no score row, the weight as written and the corrected weight are equal |
| Posts.SwappedVoterRead | src/post.rs:39 | A level-2 voter on a level-2 target weighs 1 as written and 10000 when corrected |
| Posts.WeightNeverZero | src/post.rs:78-83 | The computed weight is never "0", so the handlers' zero check never fires |
| Posts.NegatedWeight | src/post.rs:108-110 | "-" + w is the canonical string of -w |
| Posts.Comment.constructor | src/post.rs:48-62 | A new comment has score "0", no votes and no loaded replies |
| Posts.Comment.Upvote | src/post.rs:78-100 | A zero weight is refused with nothing changed. Otherwise the database does `vote` with w, and unless it panics the local score gains w and the upvotes gain 1, whatever the database answered. Only the score, the counters and the database's votes and score tables may change |
| Posts.Comment.Downvote | src/post.rs:102-128 | The same with "-" + w sent to the database, and the local score loses w and the downvotes gain 1. Only the score, the counters and the database's votes and score tables may change |
| Posts.Post.constructor | src/post.rs:156-170 | A new post in a field has score "0", no votes and no loaded comments |
| Posts.Post.Upvote | src/post.rs:186-208 | As for comments, in the post's field: only the score, the counters and the database's votes and score tables may change |
| Posts.Post.Downvote | src/post.rs:210-236 | As for comments, in the post's field: only the score, the counters and the database's votes and score tables may change |
| Posts.NewVoterWeighsOne | src/post.rs:32-45 | With the corrected read, a voter with no score row in the field weighs "1" |
| Posts.EveryVoterWeighsOne | src/post.rs:32-45 | As written, every voter weighs "1" on any target of an existing field |
| Posts.FirstVoteAccepted | src/db_sqlite.rs:81-96 | A user's first vote on a target is accepted, appended to the votes table, and adds no score row |
| Posts.NewVoterVote | src/post.rs:78-128 | A first vote on a comment, weighed as the source does, is accepted, appended with weight ±1, and moves the comment's score by one |
| Posts.NewVoterPostVote | src/post.rs:186-236 | A first vote on a post, weighed as the source does, is accepted, appended with weight ±1, and moves the post's score by one |
| Posts.CommentUpvoteScenario | src/post.rs:334-355 | Two users upvote a fresh comment: the score is "1", then "2" |
| Posts.CommentDownvoteScenario | src/post.rs:356-376 | Two users downvote a fresh comment: the score is "-1", then "-2" |
| Posts.PostUpvoteScenario | src/post.rs:410-423 | Two users upvote a fresh post: the score is "1", then "2" |
| Posts.PostDownvoteScenario | src/post.rs:425-438 | Two users downvote a fresh post: the score is "-1", then "-2" |
| LegacyPosts.VoteImpact | rankforum/src/post.rs:44-59 | No impact (the `unwrap` panics) exactly when no field has the lookup address. Otherwise 0 exactly when the voter has no score in the field, and between 1 and both level thresholds when it has one |
| LegacyPosts.Comment.constructor | rankforum/src/post.rs:28-42 | A new comment has score 0 and no votes |
| LegacyPosts.Comment.Upvote | rankforum/src/post.rs:44-70 | Panics exactly when no field has the address the comment replies to. A panic or no impact changes nothing. Otherwise the score gains the impact and the upvotes gain 1. Only the score and the upvotes may change |
| LegacyPosts.Comment.Downvote | rankforum/src/post.rs:72-81 | The same lookup and panic. A panic or no impact changes nothing. Otherwise the score loses the impact and the downvotes gain 1. Only the score and the downvotes may change |
| LegacyPosts.Post.constructor | rankforum/src/post.rs:104-120 | A new post has score 0, no votes and an empty comment index |
| LegacyPosts.Post.Upvote | rankforum/src/post.rs:122-148 | As for comments, but the panic happens exactly when no field has the post's own address. Only the score and the upvotes may change |
| LegacyPosts.Post.Downvote | rankforum/src/post.rs:150-159 | As for comments, with the lookup by the post's own address. Only the score and the downvotes may change |
| LegacyPosts.PostVoteLookupScenario | rankforum/src/post.rs:122-148 | A post in an existing field, upvoted by a user with a score there: the lookup by the post's address finds no field, the vote panics, and the score stays 0 |
| LegacyPosts.CommentVoteLookupScenario | rankforum/src/post.rs:44-70 | A comment on a post, upvoted by the same user: the lookup by the post's address finds no field and the vote panics |
| LegacyPosts.IndexInsert | rankforum/src/post.rs:161-177 | `entry(key).or_insert(empty).insert(a)`: the key's set gains a, and every other key keeps its set |
| LegacyPosts.IndexInsertIdempotent | rankforum/src/post.rs:161-177 | Indexing an address already under the key changes nothing |
| LegacyPosts.IndexInsertKeeps | rankforum/src/post.rs:161-177 | Every address indexed before an insertion stays indexed under its key |
| LegacyPosts.Post.PostComment | rankforum/src/post.rs:161-168 | `comment` creates a comment on the post, with score 0, no votes and the given timestamp, and indexes it under its own address. Only the comment index changes |
| LegacyPosts.Post.CommentOnComment | rankforum/src/post.rs:170-177 | `comment_on_comment` creates a comment on `to`, with score 0, no votes and the given timestamp, and indexes it under `to`. Only the comment index changes |

## Left out

- Listing.FilterCandidates: requires a well-formed database (`Sqlite.Valid`: every score row is canonical and filed under its own address), which every model operation keeps. String `cmp` on non-canonical score text, such as a leading zero, is not modelled.
- I/O, the SQL engine, its error results and logging are not modelled. A failing `execute` or `commit` is not a modelled outcome.
- The users table, `select_or_insert_user`, `upsert_post`, `init`, fields and `select_field` beyond "does the field exist" are not modelled. Keyword matching with `LIKE` and the ordering of the query itself are not modelled either: the listing steps start from the fetched list.
- Concurrency is not modelled. In `vote`, the aggregate is read by `select_score` before the transaction opens, so concurrent votes could interleave there. The model treats each call as atomic.
- `level` (the score-to-tier function) is not part of this model. It is a function-typed parameter. The scenarios pin its values at "0", "1", "100", "10000" and "1000000" (`LevelPinned`), and the weight functions require the levels to be within the `i64`-safe bounds.
- `Ordering` and `FilterOption` are defined outside the core. The model keeps the five orderings and the fields the listing steps use. The `_ => {}` arm of the sort is unreachable and is left out.
- Sqlite.Vote: the `u64` increment of a counter past 2^64 - 1 is not modelled. The decrement below 0 is modelled as a panic that leaves the tables as they were and the database usable. In the source that panic happens while the connection `Mutex` is held (src/db_sqlite.rs:47), which poisons it, so every later call's `lock().unwrap()` panics too. In a release build the `u64` `-= 1` wraps around instead of panicking. Neither is modelled.
- TextualIntegers.MulPositive: each `u32` column sum holds up to m digit products of at most 81 plus a carry below 9m, where m is the length of the shorter operand, so it can exceed 2^32 - 1 once m is above roughly 48 million digits. This overflow is not modelled, and the column sums are mathematical integers.
- LegacyPosts.Comment.Upvote: `i64` overflow of the score is not modelled; the score is a mathematical integer.
- LegacyPosts.Comment.Downvote: `i64` overflow of the score is not modelled; the score is a mathematical integer.
- LegacyPosts.Post.Upvote: `i64` overflow of the score is not modelled; the score is a mathematical integer.
- LegacyPosts.Post.Downvote: `i64` overflow of the score is not modelled; the score is a mathematical integer.
- The `*Assign` operators are `self = self.clone() op other`. On values they are `Add`, `Sub` and `Mul`, so they have no members of their own.
- Writing objects back (`persist`, `update_comment`, `update_post`, `from_db`) and `lazy_load_comments` are persistence and are left out.
- Field lookups are not modelled beyond existence. In the earlier handlers the `fields` table is an argument (its addresses), and the voter's score in the field found by `field_by_address` is an argument: the voter's score, or none.
- Posts.Comment.Upvote: the weight is an argument, not computed inside. `VoteWeightAsWritten` models `inner_calculate_vote_score` as written, and `NewVoterVote`, `NewVoterPostVote` and the scenarios compute the weight with it. Where the field is missing, the source's `unwrap` panics; here `VoteWeightAsWritten` returns `None`. The same holds for `Downvote` and for the `Post` handlers.
- The `Score` struct of `src/score.rs` (an `i64` score) is not used by the core. The aggregate row is `Scores.Score`, with a textual integer score, as in the database code.
- Fresh addresses (`generate_unique_address`) and the clock (`Utc::now`) are constructor arguments.

## Findings

| source | as written | input that shows it | evidently intended | confidence | as-written member | corrected member |
|---|---|---|---|---|---|---|
| src/textual_integer.rs:302-305 | `*` puts '-' in front whenever the operands' signs differ, even on a zero product | "-5" * "0" gives "-0" | "0", the canonical zero | high, not executed | TextualIntegers.MulNegativeByZero | TextualIntegers.MulCanonical |
| src/textual_integer.rs:24-44 | `pow` squares and multiplies with `mul_positive`, which reads '-' as the digit 0, so the sign is lost | "-2".pow(3) gives "8" | "-8" | high, not executed | TextualIntegers.PowNegativeBase | TextualIntegers.PowSigned |
| src/db_sqlite.rs:651-656 | The target comment's field is compared with itself (the inner `comment` shadows the outer one) | A reply in field-b to a comment in field-a is accepted | Compare it with the new comment's field | high, not executed | DbSqlite.CrossFieldReply | DbSqlite.UpsertCommentCheck |
| src/post.rs:39 | `select_score(&field.address, from)` passes the field as the address and the voter as the field, so it always reads a zero row | A voter of score 10000 on a target of score 10000 weighs 1 | `select_score(from, &field.address)`: weight 10000 | high, not executed | Posts.SwappedVoterRead | Posts.VoteWeight |
