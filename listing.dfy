/**
 * The steps `filter_comments` and `filter_posts` take after their query
 * (src/db_sqlite.rs): each candidate's score columns are filled from the
 * score table, the list is sorted by the requested key (ByTimestamp is left
 * in the order the query returned), reversed when descending, cut down to
 * the candidates whose score reaches the requested level, and truncated.
 *
 * A comment is listed under its own field; a post under the field it was
 * posted to (`post.to`). Only the columns these steps read or write are
 * kept in `Candidate`.
 */
module Listing {
  import Digits
  import opened Options
  import opened TextualIntegers
  import opened Scores
  import opened DbSqlite

  datatype Candidate = Candidate(address: Address, fieldAddress: Address, timestamp: int,
                                 score: TextualInteger, upvote: nat, downvote: nat)

  /** The orderings a listing can ask for. */
  datatype ListOrdering = ByTimestamp | ByScore | ByUpVote | ByDownVote | ByUpvoteSubDownVote

  /** The parts of a filter option these steps use; the keyword is applied by the query. */
  datatype FilterOption = FilterOption(level: Option<nat>, ordering: ListOrdering, ascending: bool, maxResults: nat)

  // ---------------------------------------------------------------------------
  // Sorting

  /**
   * The comparator handed to `sort_by`: textual integer comparison of the
   * scores, or integer comparison of a counter or of upvote - downvote.
   */
  function Compare(a: Candidate, b: Candidate, ordering: ListOrdering): Ordering
    requires ordering != ByTimestamp
  {
    match ordering
    case ByScore => Cmp(a.score, b.score)
    case ByUpVote => IntCmp(a.upvote, b.upvote)
    case ByDownVote => IntCmp(a.downvote, b.downvote)
    case ByUpvoteSubDownVote => IntCmp(a.upvote - a.downvote, b.upvote - b.downvote)
  }

  /** The integer each ordering sorts on. */
  function Key(c: Candidate, ordering: ListOrdering): int {
    match ordering
    case ByTimestamp => c.timestamp
    case ByScore => IntValue(c.score)
    case ByUpVote => c.upvote
    case ByDownVote => c.downvote
    case ByUpvoteSubDownVote => c.upvote - c.downvote
  }

  /** The key of an ordering as a function of the candidate. */
  function KeyOf(ordering: ListOrdering): Candidate -> int {
    c => Key(c, ordering)
  }

  /** On canonical scores every comparator is the integer order of its key, so sorting by the key is sorting by the comparator. */
  lemma ComparatorIsKeyOrder(a: Candidate, b: Candidate, ordering: ListOrdering)
    requires ordering != ByTimestamp && Canonical(a.score) && Canonical(b.score)
    ensures Compare(a, b, ordering) == IntCmp(Key(a, ordering), Key(b, ordering))
  {
    if ordering == ByScore {
      CmpIsIntegerOrder(a.score, b.score);
    }
  }

  /** Keys never decrease (ascending) or never increase (descending) along the list. */
  predicate SortedBy(s: seq<Candidate>, key: Candidate -> int, ascending: bool) {
    forall i, j :: 0 <= i < j < |s| ==>
      if ascending then key(s[i]) <= key(s[j]) else key(s[i]) >= key(s[j])
  }

  /** The candidates of `s` whose key is `v`, in the order of `s`. */
  function Ties(s: seq<Candidate>, key: Candidate -> int, v: int): seq<Candidate> {
    if |s| == 0 then []
    else
      var last := s[|s| - 1];
      Ties(s[..|s| - 1], key, v) + (if key(last) == v then [last] else [])
  }

  /** Insertion into a sorted list, after every candidate whose key is not greater. */
  function Insert(sorted: seq<Candidate>, x: Candidate, key: Candidate -> int): seq<Candidate> {
    if |sorted| == 0 || key(sorted[|sorted| - 1]) <= key(x) then sorted + [x]
    else Insert(sorted[..|sorted| - 1], x, key) + [sorted[|sorted| - 1]]
  }

  /** A stable ascending sort by key, as `sort_by` performs it. */
  function StableSort(s: seq<Candidate>, key: Candidate -> int): seq<Candidate> {
    if |s| == 0 then [] else Insert(StableSort(s[..|s| - 1], key), s[|s| - 1], key)
  }

  lemma TiesAppend(a: seq<Candidate>, b: seq<Candidate>, key: Candidate -> int, v: int)
    ensures Ties(a + b, key, v) == Ties(a, key, v) + Ties(b, key, v)
  {
    if |b| > 0 {
      assert (a + b)[..|a + b| - 1] == a + b[..|b| - 1];
      TiesAppend(a, b[..|b| - 1], key, v);
    } else {
      assert a + b == a;
    }
  }

  lemma {:induction false} InsertPermutes(sorted: seq<Candidate>, x: Candidate, key: Candidate -> int)
    ensures multiset(Insert(sorted, x, key)) == multiset(sorted) + multiset{x}
  {
    var n := |sorted|;
    if n > 0 && key(sorted[n - 1]) > key(x) {
      InsertPermutes(sorted[..n - 1], x, key);
      assert sorted == sorted[..n - 1] + [sorted[n - 1]];
    }
  }

  /** Insertion adds no key above a bound that x and every candidate of the list respect. */
  lemma {:induction false} InsertBounded(sorted: seq<Candidate>, x: Candidate, key: Candidate -> int, bound: int)
    requires key(x) <= bound
    requires forall i :: 0 <= i < |sorted| ==> key(sorted[i]) <= bound
    ensures forall i :: 0 <= i < |Insert(sorted, x, key)| ==> key(Insert(sorted, x, key)[i]) <= bound
  {
    var n := |sorted|;
    if n > 0 && key(sorted[n - 1]) > key(x) {
      var init := sorted[..n - 1];
      InsertBounded(init, x, key, bound);
      assert Insert(sorted, x, key) == Insert(init, x, key) + [sorted[n - 1]];
    } else {
      assert Insert(sorted, x, key) == sorted + [x];
    }
  }

  lemma {:induction false} InsertSorted(sorted: seq<Candidate>, x: Candidate, key: Candidate -> int)
    requires SortedBy(sorted, key, true)
    ensures SortedBy(Insert(sorted, x, key), key, true)
  {
    var n := |sorted|;
    if n > 0 && key(sorted[n - 1]) > key(x) {
      var init, last := sorted[..n - 1], sorted[n - 1];
      SortedPrefix(sorted, key, true);
      InsertSorted(init, x, key);
      InsertBounded(init, x, key, key(last));
      var front := Insert(init, x, key);
      assert Insert(sorted, x, key) == front + [last];
      SortedSnoc(front, last, key, true);
    } else {
      assert Insert(sorted, x, key) == sorted + [x];
      SortedSnoc(sorted, x, key, true);
    }
  }

  lemma TiesSnoc(s: seq<Candidate>, y: Candidate, key: Candidate -> int, v: int)
    ensures Ties(s + [y], key, v) == Ties(s, key, v) + (if key(y) == v then [y] else [])
  {
    assert (s + [y])[..|s|] == s;
  }

  lemma TiesSnocSkip(s: seq<Candidate>, y: Candidate, key: Candidate -> int, v: int)
    requires key(y) != v
    ensures Ties(s + [y], key, v) == Ties(s, key, v)
  {
    TiesSnoc(s, y, key, v);
  }

  /** Insertion puts x after every candidate of equal key and moves no other tie. */
  lemma {:induction false} InsertStable(sorted: seq<Candidate>, x: Candidate, key: Candidate -> int, v: int)
    ensures Ties(Insert(sorted, x, key), key, v)
      == Ties(sorted, key, v) + (if key(x) == v then [x] else [])
  {
    var n := |sorted|;
    if n > 0 && key(sorted[n - 1]) > key(x) {
      var init, last := sorted[..n - 1], sorted[n - 1];
      var front := Insert(init, x, key);
      assert Insert(sorted, x, key) == front + [last];
      assert sorted == init + [last];
      InsertStable(init, x, key, v);
      if key(x) == v {
        TiesSnocSkip(front, last, key, v);
        TiesSnocSkip(init, last, key, v);
      } else {
        TiesSnoc(front, last, key, v);
        TiesSnoc(init, last, key, v);
        assert Ties(front, key, v) == Ties(init, key, v);
      }
    } else {
      assert Insert(sorted, x, key) == sorted + [x];
      TiesSnoc(sorted, x, key, v);
    }
  }

  /**
   * `sort_by` with the key's comparator: the result is sorted by the
   * key, holds the same candidates, and keeps the candidates of every key
   * in the order they came in.
   */
  lemma {:induction false} StableSortCorrect(s: seq<Candidate>, key: Candidate -> int)
    ensures SortedBy(StableSort(s, key), key, true)
    ensures multiset(StableSort(s, key)) == multiset(s)
    ensures forall v :: Ties(StableSort(s, key), key, v) == Ties(s, key, v)
  {
    var n := |s|;
    if n > 0 {
      var init, last := s[..n - 1], s[n - 1];
      StableSortCorrect(init, key);
      InsertSorted(StableSort(init, key), last, key);
      InsertPermutes(StableSort(init, key), last, key);
      assert s == init + [last];
      forall v
        ensures Ties(StableSort(s, key), key, v) == Ties(s, key, v)
      {
        InsertStable(StableSort(init, key), last, key, v);
      }
    }
  }

  /** Reversal turns an ascending list into a descending one and reverses the order within every tie. */
  lemma {:induction false} ReverseSorted(s: seq<Candidate>, key: Candidate -> int)
    requires SortedBy(s, key, true)
    ensures SortedBy(Digits.Reverse(s), key, false)
    ensures forall v :: Ties(Digits.Reverse(s), key, v) == Digits.Reverse(Ties(s, key, v))
  {
    Digits.ReverseAt(s);
    forall v
      ensures Ties(Digits.Reverse(s), key, v) == Digits.Reverse(Ties(s, key, v))
    {
      ReverseTies(s, key, v);
    }
  }

  lemma {:induction false} ReverseTies(s: seq<Candidate>, key: Candidate -> int, v: int)
    ensures Ties(Digits.Reverse(s), key, v) == Digits.Reverse(Ties(s, key, v))
  {
    var n := |s|;
    if n > 0 {
      var init, last := s[..n - 1], s[n - 1];
      ReverseTies(init, key, v);
      TiesAppend([last], Digits.Reverse(init), key, v);
      assert Ties([last], key, v) == (if key(last) == v then [last] else []) by {
        assert [last][..0] == [];
      }
      var t := Ties(init, key, v);
      if key(last) == v {
        assert (t + [last])[..|t|] == t;
      } else {
        assert t + [] == t;
      }
    }
  }

  /**
   * `sort_*_candidate`: ByTimestamp keeps the order of the query; any other
   * ordering sorts ascending by its key and reverses when descending.
   */
  function SortCandidates(cs: seq<Candidate>, ordering: ListOrdering, ascending: bool): seq<Candidate> {
    if ordering == ByTimestamp then cs
    else if ascending then StableSort(cs, KeyOf(ordering))
    else Digits.Reverse(StableSort(cs, KeyOf(ordering)))
  }

  /** Sorting yields the same candidates, ordered in the requested direction, with ties first-come-first in ascending order and last-come-first in descending order. */
  lemma SortCandidatesCorrect(cs: seq<Candidate>, ordering: ListOrdering, ascending: bool)
    requires ordering != ByTimestamp
    ensures var r := SortCandidates(cs, ordering, ascending);
      && SortedBy(r, KeyOf(ordering), ascending)
      && multiset(r) == multiset(cs)
      && forall v :: Ties(r, KeyOf(ordering), v) == if ascending then Ties(cs, KeyOf(ordering), v) else Digits.Reverse(Ties(cs, KeyOf(ordering), v))
  {
    var key := KeyOf(ordering);
    StableSortCorrect(cs, key);
    if !ascending {
      ReverseSorted(StableSort(cs, key), key);
      Digits.ReverseMultiset(StableSort(cs, key));
    }
  }

  // ---------------------------------------------------------------------------
  // Filling, retaining and truncating

  /** `fill_*_score`: the score columns of a candidate, read from its row in its field (zero when there is none). */
  function Filled(scores: map<Address, Score>, c: Candidate): (r: Candidate)
    ensures r.address == c.address && r.fieldAddress == c.fieldAddress && r.timestamp == c.timestamp
    ensures r.score == SelectScore(scores, c.address, c.fieldAddress).score
    ensures r.upvote == SelectScore(scores, c.address, c.fieldAddress).upvote
    ensures r.downvote == SelectScore(scores, c.address, c.fieldAddress).downvote
  {
    var row := SelectScore(scores, c.address, c.fieldAddress);
    c.(score := row.score, upvote := row.upvote, downvote := row.downvote)
  }

  /** The loop over the fetched list that fills each candidate in place. */
  method FillScores(scores: map<Address, Score>, fetched: seq<Candidate>) returns (list: seq<Candidate>)
    ensures |list| == |fetched|
    ensures forall i :: 0 <= i < |fetched| ==> list[i] == Filled(scores, fetched[i])
  {
    list := fetched;
    for i := 0 to |list|
      invariant |list| == |fetched|
      invariant forall j :: 0 <= j < i ==> list[j] == Filled(scores, fetched[j])
      invariant forall j :: i <= j < |list| ==> list[j] == fetched[j]
    {
      list := list[i := Filled(scores, list[i])];
    }
  }

  /** The level of a candidate's score as `filter_*_by_level` reads it again from the score table. */
  function LevelOf(scores: map<Address, Score>, c: Candidate, level: TextualInteger -> nat): nat {
    level(SelectScore(scores, c.address, c.fieldAddress).score)
  }

  /** `retain`: the candidates whose level reaches `lvl`, in their order. */
  function RetainByLevel(cs: seq<Candidate>, scores: map<Address, Score>, lvl: nat, level: TextualInteger -> nat): (r: seq<Candidate>)
  {
    if |cs| == 0 then []
    else
      var last := cs[|cs| - 1];
      RetainByLevel(cs[..|cs| - 1], scores, lvl, level) + (if LevelOf(scores, last, level) >= lvl then [last] else [])
  }

  /** `retain` keeps exactly the candidates whose level reaches `lvl`. */
  lemma {:induction false} RetainByLevelKeeps(cs: seq<Candidate>, scores: map<Address, Score>, lvl: nat, level: TextualInteger -> nat)
    ensures var r := RetainByLevel(cs, scores, lvl, level);
      && multiset(r) <= multiset(cs)
      && (forall c :: c in r ==> LevelOf(scores, c, level) >= lvl)
      && (forall c :: c in cs && LevelOf(scores, c, level) >= lvl ==> c in r)
  {
    var n := |cs|;
    if n > 0 {
      var init, last := cs[..n - 1], cs[n - 1];
      assert cs == init + [last];
      RetainByLevelKeeps(init, scores, lvl, level);
    }
  }

  /** `retain` keeps a sorted list sorted. */
  lemma {:induction false} RetainByLevelSorted(cs: seq<Candidate>, scores: map<Address, Score>, lvl: nat,
                                               level: TextualInteger -> nat, key: Candidate -> int, ascending: bool)
    requires SortedBy(cs, key, ascending)
    ensures SortedBy(RetainByLevel(cs, scores, lvl, level), key, ascending)
  {
    var n := |cs|;
    if n > 0 {
      var init, last := cs[..n - 1], cs[n - 1];
      SortedPrefix(cs, key, ascending);
      RetainByLevelSorted(init, scores, lvl, level, key, ascending);
      if LevelOf(scores, last, level) >= lvl {
        var front := RetainByLevel(init, scores, lvl, level);
        forall i | 0 <= i < |init|
          ensures Within(key(init[i]), key(last), ascending)
        {
          assert init[i] == cs[i];
        }
        RetainBounded(init, scores, lvl, level, key, ascending, key(last));
        assert RetainByLevel(cs, scores, lvl, level) == front + [last];
        SortedSnoc(front, last, key, ascending);
      } else {
        assert RetainByLevel(cs, scores, lvl, level) == RetainByLevel(init, scores, lvl, level);
      }
    }
  }

  /** Key k is not past `bound` in the direction of the list. */
  predicate Within(k: int, bound: int, ascending: bool) {
    if ascending then k <= bound else k >= bound
  }

  /** `retain` adds no key beyond a bound that every candidate of the list respects. */
  lemma {:induction false} RetainBounded(cs: seq<Candidate>, scores: map<Address, Score>, lvl: nat,
                                         level: TextualInteger -> nat, key: Candidate -> int, ascending: bool, bound: int)
    requires forall i :: 0 <= i < |cs| ==> Within(key(cs[i]), bound, ascending)
    ensures forall i :: 0 <= i < |RetainByLevel(cs, scores, lvl, level)| ==>
      Within(key(RetainByLevel(cs, scores, lvl, level)[i]), bound, ascending)
  {
    var n := |cs|;
    if n > 0 {
      var init, last := cs[..n - 1], cs[n - 1];
      RetainBounded(init, scores, lvl, level, key, ascending, bound);
      var front := RetainByLevel(init, scores, lvl, level);
      if LevelOf(scores, last, level) >= lvl {
        var r := front + [last];
        assert RetainByLevel(cs, scores, lvl, level) == r;
        forall i | 0 <= i < |r|
          ensures Within(key(r[i]), bound, ascending)
        {
          if i < |front| {
            assert r[i] == front[i];
          } else {
            assert r[i] == cs[n - 1];
          }
        }
      } else {
        assert RetainByLevel(cs, scores, lvl, level) == front;
      }
    }
  }

  lemma SortedPrefix(s: seq<Candidate>, key: Candidate -> int, ascending: bool)
    requires SortedBy(s, key, ascending) && |s| > 0
    ensures SortedBy(s[..|s| - 1], key, ascending)
  {
  }

  lemma SortedSnoc(s: seq<Candidate>, y: Candidate, key: Candidate -> int, ascending: bool)
    requires SortedBy(s, key, ascending)
    requires forall i :: 0 <= i < |s| ==> Within(key(s[i]), key(y), ascending)
    ensures SortedBy(s + [y], key, ascending)
  {
  }

  /** `truncate(n)`: the first n candidates, or all of them when there are fewer. */
  function Truncate(cs: seq<Candidate>, n: nat): (r: seq<Candidate>)
    ensures |r| == if n < |cs| then n else |cs|
    ensures r <= cs
  {
    if n < |cs| then cs[..n] else cs
  }

  // ---------------------------------------------------------------------------
  // The whole listing

  /** The fetched candidates with their scores filled. */
  function FillAll(scores: map<Address, Score>, fetched: seq<Candidate>): seq<Candidate> {
    seq(|fetched|, i requires 0 <= i < |fetched| => Filled(scores, fetched[i]))
  }

  /** What a listing returns, step by step, for candidates fetched in `fetched`'s order. */
  function Listed(scores: map<Address, Score>, fetched: seq<Candidate>, option: FilterOption, level: TextualInteger -> nat): seq<Candidate> {
    var sorted := SortCandidates(FillAll(scores, fetched), option.ordering, option.ascending);
    var kept := if option.level.Some? then RetainByLevel(sorted, scores, option.level.value, level) else sorted;
    Truncate(kept, option.maxResults)
  }

  /**
   * The steps of `filter_comments`/`filter_posts` after the query returned
   * `fetched`. Every score in the database is canonical, so the list is in
   * the order of the comparator handed to `sort_by`.
   */
  method FilterCandidates(db: Sqlite, fetched: seq<Candidate>, option: FilterOption, level: TextualInteger -> nat)
    returns (list: seq<Candidate>)
    requires db.Valid()
    ensures list == Listed(db.scores, fetched, option, level)
    ensures option.ordering != ByTimestamp ==> InComparatorOrder(list, option.ordering, option.ascending)
  {
    list := FillScores(db.scores, fetched);
    assert list == FillAll(db.scores, fetched);
    list := SortCandidates(list, option.ordering, option.ascending);
    if option.level.Some? {
      list := RetainByLevel(list, db.scores, option.level.value, level);
    }
    list := Truncate(list, option.maxResults);
    if option.ordering != ByTimestamp {
      ListedInComparatorOrder(db.scores, fetched, option, level);
    }
  }

  /** No later candidate compares before an earlier one (ascending), or after it (descending). */
  predicate InComparatorOrder(s: seq<Candidate>, ordering: ListOrdering, ascending: bool)
    requires ordering != ByTimestamp
  {
    forall i, j :: 0 <= i < j < |s| ==>
      if ascending then Compare(s[i], s[j], ordering) != Greater else Compare(s[i], s[j], ordering) != Less
  }

  /** Filled candidates carry scores read from the table, so they are canonical when the table's are. */
  lemma FilledCanonical(scores: map<Address, Score>, fetched: seq<Candidate>)
    requires ScoresWellFormed(scores)
    ensures forall c :: c in FillAll(scores, fetched) ==> Canonical(c.score)
  {
    var filled := FillAll(scores, fetched);
    forall c | c in filled
      ensures Canonical(c.score)
    {
      var i :| 0 <= i < |filled| && filled[i] == c;
      SelectedScoreCanonical(scores, fetched[i].address, fetched[i].fieldAddress);
    }
  }

  /**
   * Over a well-formed score table, a listing sorted by key is also in the
   * order of the source's comparator: `cmp` on the score strings, or the
   * integer order of a counter or of upvote - downvote.
   */
  lemma ListedInComparatorOrder(scores: map<Address, Score>, fetched: seq<Candidate>, option: FilterOption,
                                level: TextualInteger -> nat)
    requires ScoresWellFormed(scores) && option.ordering != ByTimestamp
    ensures InComparatorOrder(Listed(scores, fetched, option, level), option.ordering, option.ascending)
  {
    var r := Listed(scores, fetched, option, level);
    ListedCorrect(scores, fetched, option, level);
    FilledCanonical(scores, fetched);
    forall i, j | 0 <= i < j < |r|
      ensures if option.ascending then Compare(r[i], r[j], option.ordering) != Greater
              else Compare(r[i], r[j], option.ordering) != Less
    {
      assert r[i] in multiset(r) && r[j] in multiset(r);
      ComparatorIsKeyOrder(r[i], r[j], option.ordering);
    }
  }

  /**
   * A listing returns at most `max_results` candidates, each a fetched one
   * with its scores filled, each reaching the requested level, sorted in
   * the requested direction unless the order is by timestamp.
   */
  lemma ListedCorrect(scores: map<Address, Score>, fetched: seq<Candidate>, option: FilterOption, level: TextualInteger -> nat)
    ensures var r := Listed(scores, fetched, option, level);
      && |r| <= option.maxResults
      && multiset(r) <= multiset(FillAll(scores, fetched))
      && (option.level.Some? ==> forall c :: c in r ==> LevelOf(scores, c, level) >= option.level.value)
      && (option.ordering != ByTimestamp ==> SortedBy(r, KeyOf(option.ordering), option.ascending))
  {
    var filled := FillAll(scores, fetched);
    var sorted := SortCandidates(filled, option.ordering, option.ascending);
    var kept := if option.level.Some? then RetainByLevel(sorted, scores, option.level.value, level) else sorted;
    var r := Truncate(kept, option.maxResults);
    if option.ordering != ByTimestamp {
      SortCandidatesCorrect(filled, option.ordering, option.ascending);
    }
    if option.level.Some? {
      RetainByLevelKeeps(sorted, scores, option.level.value, level);
      if option.ordering != ByTimestamp {
        RetainByLevelSorted(sorted, scores, option.level.value, level, KeyOf(option.ordering), option.ascending);
      }
    }
    assert Listed(scores, fetched, option, level) == r;
    PrefixMultiset(kept, r);
    if option.ordering != ByTimestamp {
      SortedPrefixOf(kept, r, KeyOf(option.ordering), option.ascending);
    }
  }

  lemma SortedPrefixOf(s: seq<Candidate>, p: seq<Candidate>, key: Candidate -> int, ascending: bool)
    requires SortedBy(s, key, ascending) && p <= s
    ensures SortedBy(p, key, ascending)
  {
    assert forall i :: 0 <= i < |p| ==> p[i] == s[i];
  }

  lemma PrefixMultiset(s: seq<Candidate>, p: seq<Candidate>)
    requires p <= s
    ensures multiset(p) <= multiset(s)
    ensures forall c :: c in p ==> c in s
  {
    assert s == p + s[|p|..];
  }

  // ---------------------------------------------------------------------------
  // Scenarios

  /** Four comments of one field with scores 1, 100, 10000 and 1000000, in timestamp order. */
  function Fixture(field: Address): seq<Candidate> {
    [Candidate("c1", field, 0, TextualInteger("1"), 0, 0),
     Candidate("c2", field, 1, TextualInteger("100"), 0, 0),
     Candidate("c3", field, 2, TextualInteger("10000"), 0, 0),
     Candidate("c4", field, 3, TextualInteger("1000000"), 0, 0)]
  }

  /** The score rows of the fixture's comments. */
  function FixtureScores(field: Address): map<Address, Score> {
    var cs := Fixture(field);
    map[cs[0].address := Score(cs[0].address, field, cs[0].score, 0, 0),
        cs[1].address := Score(cs[1].address, field, cs[1].score, 0, 0),
        cs[2].address := Score(cs[2].address, field, cs[2].score, 0, 0),
        cs[3].address := Score(cs[3].address, field, cs[3].score, 0, 0)]
  }

  lemma RetainSnoc(cs: seq<Candidate>, c: Candidate, scores: map<Address, Score>, lvl: nat, level: TextualInteger -> nat)
    ensures RetainByLevel(cs + [c], scores, lvl, level)
      == RetainByLevel(cs, scores, lvl, level) + (if LevelOf(scores, c, level) >= lvl then [c] else [])
  {
    assert (cs + [c])[..|cs|] == cs;
  }

  /** The fixture's comments are of levels 0, 1, 2 and at least 3. */
  lemma FixtureLevels(field: Address, level: TextualInteger -> nat)
    requires LevelPinned(level)
    ensures var cs, scores := Fixture(field), FixtureScores(field);
      && LevelOf(scores, cs[0], level) == 0 && LevelOf(scores, cs[1], level) == 1
      && LevelOf(scores, cs[2], level) == 2 && LevelOf(scores, cs[3], level) >= 3
  {
    var cs, scores := Fixture(field), FixtureScores(field);
    assert SelectScore(scores, cs[0].address, field) == scores[cs[0].address];
    assert SelectScore(scores, cs[1].address, field) == scores[cs[1].address];
    assert SelectScore(scores, cs[2].address, field) == scores[cs[2].address];
    assert SelectScore(scores, cs[3].address, field) == scores[cs[3].address];
  }

  /** Keeping the comments of level k or more drops the k oldest, for k up to 3. */
  lemma FixtureRetain(field: Address, level: TextualInteger -> nat, k: nat)
    requires LevelPinned(level) && k <= 3
    ensures RetainByLevel(Fixture(field), FixtureScores(field), k, level) == Fixture(field)[k..]
  {
    var cs, scores := Fixture(field), FixtureScores(field);
    FixtureLevels(field, level);
    RetainSnoc([], cs[0], scores, k, level);
    assert cs[..1] == [] + [cs[0]];
    RetainSnoc(cs[..1], cs[1], scores, k, level);
    assert cs[..2] == cs[..1] + [cs[1]];
    RetainSnoc(cs[..2], cs[2], scores, k, level);
    assert cs[..3] == cs[..2] + [cs[2]];
    RetainSnoc(cs[..3], cs[3], scores, k, level);
    assert cs == cs[..3] + [cs[3]];
  }

  /** Asking for level 0, 1, 2 or 3 in timestamp order lists 4, 3, 2 or 1 of those comments, the newest ones. */
  lemma LevelFilterScenario(field: Address, level: TextualInteger -> nat, k: nat)
    requires LevelPinned(level) && k <= 3
    ensures var listed := Listed(FixtureScores(field), Fixture(field), FilterOption(Some(k), ByTimestamp, true, 10), level);
      |listed| == 4 - k && listed == Fixture(field)[k..]
  {
    assert FillAll(FixtureScores(field), Fixture(field)) == Fixture(field);
    FixtureRetain(field, level, k);
  }

  /** Four comments fetched by timestamp and truncated to 0..4 results: the oldest ones, that many. */
  lemma LimitScenario(field: Address, n: nat, level: TextualInteger -> nat)
    requires n <= 4
    ensures Listed(FixtureScores(field), Fixture(field), FilterOption(None, ByTimestamp, true, n), level) == Fixture(field)[..n]
  {
    assert FillAll(FixtureScores(field), Fixture(field)) == Fixture(field);
  }

  /** Four comments fetched in timestamp order, with (upvote, downvote) of (2, 3), (3, 4), (4, 1) and (1, 2). */
  function VotedFixture(field: Address): seq<Candidate> {
    [Candidate("c4", field, 1, TextualInteger("4"), 2, 3),
     Candidate("c1", field, 2, TextualInteger("1"), 3, 4),
     Candidate("c2", field, 3, TextualInteger("2"), 4, 1),
     Candidate("c3", field, 4, TextualInteger("3"), 1, 2)]
  }

  /** The score rows the voted fixture's columns come from. */
  function VotedFixtureScores(field: Address): map<Address, Score> {
    var cs := VotedFixture(field);
    map[cs[0].address := Score(cs[0].address, field, cs[0].score, cs[0].upvote, cs[0].downvote),
        cs[1].address := Score(cs[1].address, field, cs[1].score, cs[1].upvote, cs[1].downvote),
        cs[2].address := Score(cs[2].address, field, cs[2].score, cs[2].upvote, cs[2].downvote),
        cs[3].address := Score(cs[3].address, field, cs[3].score, cs[3].upvote, cs[3].downvote)]
  }

  lemma VotedFixtureFilled(field: Address)
    ensures FillAll(VotedFixtureScores(field), VotedFixture(field)) == VotedFixture(field)
  {
    var cs, scores := VotedFixture(field), VotedFixtureScores(field);
    assert SelectScore(scores, cs[0].address, field) == scores[cs[0].address];
    assert SelectScore(scores, cs[1].address, field) == scores[cs[1].address];
    assert SelectScore(scores, cs[2].address, field) == scores[cs[2].address];
    assert SelectScore(scores, cs[3].address, field) == scores[cs[3].address];
  }

  /** c2's balance 3 is above the balance -1 of each other comment of the voted fixture. */
  lemma VotedFixtureBalances(field: Address)
    ensures var cs := VotedFixture(field);
      forall d :: d in cs && d != cs[2] ==> Key(d, ByUpvoteSubDownVote) < Key(cs[2], ByUpvoteSubDownVote)
  {
    var cs := VotedFixture(field);
    forall d | d in cs && d != cs[2]
      ensures Key(d, ByUpvoteSubDownVote) < Key(cs[2], ByUpvoteSubDownVote)
    {
      var i :| 0 <= i < 4 && cs[i] == d;
      assert i != 2;
    }
  }

  /** Sorting the voted fixture by upvote - downvote, descending, puts c2 first. */
  lemma BalanceSort(field: Address)
    ensures var r := SortCandidates(VotedFixture(field), ByUpvoteSubDownVote, false);
      |r| == 4 && r[0] == VotedFixture(field)[2]
  {
    var cs := VotedFixture(field);
    var r := SortCandidates(cs, ByUpvoteSubDownVote, false);
    SortCandidatesCorrect(cs, ByUpvoteSubDownVote, false);
    assert |r| == 4 by {
      assert |multiset(r)| == |multiset(cs)|;
    }
    VotedFixtureBalances(field);
    UniqueMaximumFirst(r, cs, KeyOf(ByUpvoteSubDownVote), cs[2]);
  }

  /**
   * Listing those comments by upvote - downvote, descending, puts c2 first:
   * its balance 3 is the only one above -1.
   */
  lemma BalanceOrderingScenario(field: Address, level: TextualInteger -> nat)
    ensures var listed := Listed(VotedFixtureScores(field), VotedFixture(field),
                                 FilterOption(None, ByUpvoteSubDownVote, false, 10), level);
      |listed| == 4 && listed[0] == VotedFixture(field)[2]
  {
    VotedFixtureFilled(field);
    BalanceSort(field);
  }

  /** A descending sort of `cs` starts with the one candidate whose key is above all others. */
  lemma UniqueMaximumFirst(r: seq<Candidate>, cs: seq<Candidate>, key: Candidate -> int, c: Candidate)
    requires SortedBy(r, key, false) && multiset(r) == multiset(cs) && c in cs
    requires forall d :: d in cs && d != c ==> key(d) < key(c)
    ensures |r| > 0 && r[0] == c
  {
    assert c in multiset(r);
    var j :| 0 <= j < |r| && r[j] == c;
    assert r[0] in multiset(cs);
  }
}
