/** recommend_movies (app/recommendations.py:104-137): score every movie the
    neighbours rated and the user did not, by the sum of similarity times
    rating, and return the titles of the best `n`. */
module Recommend {
  import opened Text
  import opened PyDict
  import opened RedisStore
  import opened Similarity
  import opened Ranking
  import opened Neighbours
  import opened Titles

  /** The ids named by a sequence of (id, value) pairs. */
  function KeysOf(items: seq<(ItemId, real)>): set<ItemId>
  {
    if items == [] then {} else {items[0].0} + KeysOf(items[1..])
  }

  /** The sum of `weight * value` over the pairs that name `m`. */
  function WeightedTotal(items: seq<(ItemId, real)>, weight: real, m: ItemId): real
  {
    if items == [] then 0.0
    else (if items[0].0 == m then weight * items[0].1 else 0.0) + WeightedTotal(items[1..], weight, m)
  }

  /** The inner loop of lines 127-131 for one neighbour: every rated item not
      in `exclude` gets `weight * rating` added, and is created (appended to
      the order) on first touch even when that product is zero. */
  function AddRatings(d: Dict, items: seq<(ItemId, real)>, weight: real, exclude: set<ItemId>): (r: Dict)
    requires Valid(d)
    ensures Valid(r)
    ensures d.order <= r.order
    ensures r.entries.Keys == d.entries.Keys + (KeysOf(items) - exclude)
    ensures forall m :: Get(r, m) == Get(d, m) + (if m in exclude then 0.0 else WeightedTotal(items, weight, m))
    decreases |items|
  {
    if items == [] then d
    else
      var next := if items[0].0 in exclude then d else AddTo(d, items[0].0, weight * items[0].1);
      var r := AddRatings(next, items[1..], weight, exclude);
      forall m ensures Get(r, m) == Get(d, m) + (if m in exclude then 0.0 else WeightedTotal(items, weight, m)) {
        RatingStep(d, next, r, items, weight, exclude, m);
      }
      r
  }

  /** One key through one step of `AddRatings`: the head pair adds its
      weighted value, the rest adds the remaining total. */
  lemma {:induction false} RatingStep(d: Dict, next: Dict, r: Dict, items: seq<(ItemId, real)>, weight: real, exclude: set<ItemId>, m: ItemId)
    requires Valid(d) && items != []
    requires next == if items[0].0 in exclude then d else AddTo(d, items[0].0, weight * items[0].1)
    requires Get(r, m) == Get(next, m) + (if m in exclude then 0.0 else WeightedTotal(items[1..], weight, m))
    ensures Get(r, m) == Get(d, m) + (if m in exclude then 0.0 else WeightedTotal(items, weight, m))
  {
    var head := if items[0].0 == m then weight * items[0].1 else 0.0;
    assert WeightedTotal(items, weight, m) == head + WeightedTotal(items[1..], weight, m);
    if m !in exclude && items[0].0 !in exclude {
      assert Get(next, m) == Get(d, m) + head;
    }
  }

  /** Over the items of a dict (one pair per key), the weighted total of `m`
      is the weight times its value. */
  lemma {:induction false} ItemsWeightedTotal(d: Dict, weight: real, m: ItemId)
    requires Valid(d)
    ensures KeysOf(Items(d)) == d.entries.Keys
    ensures WeightedTotal(Items(d), weight, m) == weight * Get(d, m)
  {
    ItemsExact(d);
    DistinctWeightedTotal(Items(d), d.entries, weight, m);
    forall k ensures k in KeysOf(Items(d)) <==> k in d.entries {
      if k in d.entries {
        assert (k, d.entries[k]) in Items(d);
      }
    }
  }

  lemma {:induction false} DistinctWeightedTotal(items: seq<(ItemId, real)>, entries: map<ItemId, real>, weight: real, m: ItemId)
    requires forall i :: 0 <= i < |items| ==> items[i].0 in entries && items[i].1 == entries[items[i].0]
    requires forall i, j :: 0 <= i < j < |items| ==> items[i].0 != items[j].0
    ensures forall k :: k in KeysOf(items) <==> exists i :: 0 <= i < |items| && items[i].0 == k
    ensures WeightedTotal(items, weight, m) == if m in KeysOf(items) then weight * entries[m] else 0.0
  {
    if items != [] {
      DistinctWeightedTotal(items[1..], entries, weight, m);
      forall k ensures k in KeysOf(items) <==> exists i :: 0 <= i < |items| && items[i].0 == k {
        if k in KeysOf(items[1..]) {
          var i :| 0 <= i < |items[1..]| && items[1..][i].0 == k;
          assert items[i + 1].0 == k;
        }
        if k != items[0].0 && exists i :: 0 <= i < |items| && items[i].0 == k {
          var i :| 0 <= i < |items| && items[i].0 == k;
          assert items[1..][i - 1].0 == k;
        }
      }
    }
  }

  ghost predicate AllNeighbourKeys(nbrs: seq<Neighbour>)
  {
    forall i :: 0 <= i < |nbrs| ==> IsRatingsKey(nbrs[i].0)
  }

  /** Line 125: a neighbour counts when the id decoded from its key is not
      the user's own. This, not line 84, is what keeps the user's own
      ratings out. */
  predicate Counts(key: string, user: UserId)
    requires IsRatingsKey(key)
  {
    DecodeUserId(key) != user
  }

  /** The inner loop of lines 127-131 over the ratings dict `v` of one
      counting neighbour: every movie `v` rates outside `exclude` is a
      candidate from now on, and gains `weight` times its rating. */
  function AddNeighbour(d: Dict, v: Dict, weight: real, exclude: set<ItemId>): (r: Dict)
    requires Valid(d) && Valid(v)
    ensures Valid(r)
    ensures d.order <= r.order
    ensures r.entries.Keys == d.entries.Keys + (v.entries.Keys - exclude)
    ensures forall m :: Get(r, m) == Get(d, m) + (if m in exclude then 0.0 else weight * Get(v, m))
  {
    forall m ensures WeightedTotal(Items(v), weight, m) == weight * Get(v, m) {
      ItemsWeightedTotal(v, weight, m);
    }
    ItemsWeightedTotal(v, weight, "");
    AddRatings(d, Items(v), weight, exclude)
  }

  /** What line 126 reads for each neighbour: its ratings dict. The store
      does not change during the loop, so reading them up front is the same. */
  ghost function RatingsOfNeighbours(store: Store, nbrs: seq<Neighbour>): (r: seq<Dict>)
    requires AllNeighbourKeys(nbrs)
    ensures |r| == |nbrs|
    ensures forall i :: 0 <= i < |nbrs| ==> r[i] == RatingsOfKey(store, nbrs[i].0) && Valid(r[i])
  {
    seq(|nbrs|, i requires 0 <= i < |nbrs| && AllNeighbourKeys(nbrs) => RatingsOfKey(store, nbrs[i].0))
  }

  ghost predicate AllValid(vectors: seq<Dict>)
  {
    forall i :: 0 <= i < |vectors| ==> Valid(vectors[i])
  }

  /** What neighbour `nbr` with ratings `v` adds to the score of `m`. */
  function Part(user: UserId, nbr: Neighbour, v: Dict, m: ItemId): real
    requires IsRatingsKey(nbr.0)
  {
    if Counts(nbr.0, user) then nbr.1 * Get(v, m) else 0.0
  }

  /** The ids neighbour `nbr` with ratings `v` makes candidates. */
  function PartKeys(user: UserId, nbr: Neighbour, v: Dict): set<ItemId>
    requires IsRatingsKey(nbr.0)
  {
    if Counts(nbr.0, user) then v.entries.Keys else {}
  }

  /** One pass of the outer loop body (lines 125-131) for neighbour `nbr`
      with ratings `v`: nothing unless it counts, else its ratings added. */
  function Step(user: UserId, exclude: set<ItemId>, nbr: Neighbour, v: Dict, d: Dict): (r: Dict)
    requires Valid(d) && Valid(v) && IsRatingsKey(nbr.0)
    ensures Valid(r)
    ensures d.order <= r.order
    ensures r.entries.Keys == d.entries.Keys + (PartKeys(user, nbr, v) - exclude)
    ensures forall m :: Get(r, m) == Get(d, m) + (if m in exclude then 0.0 else Part(user, nbr, v, m))
  {
    var r := if Counts(nbr.0, user) then AddNeighbour(d, v, nbr.1, exclude) else d;
    forall m ensures Get(r, m) == Get(d, m) + (if m in exclude then 0.0 else Part(user, nbr, v, m)) {
      if Counts(nbr.0, user) {
        CountingStep(user, exclude, nbr, v, d, m);
      }
    }
    r
  }

  lemma {:induction false} CountingStep(user: UserId, exclude: set<ItemId>, nbr: Neighbour, v: Dict, d: Dict, m: ItemId)
    requires Valid(d) && Valid(v) && IsRatingsKey(nbr.0) && Counts(nbr.0, user)
    ensures Get(AddNeighbour(d, v, nbr.1, exclude), m) == Get(d, m) + (if m in exclude then 0.0 else Part(user, nbr, v, m))
  {
    AddNeighbourAt(d, v, nbr.1, exclude, m);
    if m !in exclude {
      PartWhenCounting(user, nbr, v, m);
    }
  }

  lemma {:induction false} PartWhenCounting(user: UserId, nbr: Neighbour, v: Dict, m: ItemId)
    requires IsRatingsKey(nbr.0) && Counts(nbr.0, user)
    ensures Part(user, nbr, v, m) == nbr.1 * Get(v, m)
  {
  }

  lemma {:induction false} AddNeighbourAt(d: Dict, v: Dict, weight: real, exclude: set<ItemId>, m: ItemId)
    requires Valid(d) && Valid(v)
    ensures Get(AddNeighbour(d, v, weight, exclude), m) == Get(d, m) + (if m in exclude then 0.0 else weight * Get(v, m))
  {
  }

  /** The loop of lines 120-131 from the dict `d`: `vectors[i]` is the
      ratings dict of `nbrs[i]`, and `exclude` the ids the user rated (line
      130 re-reads them for every movie, always getting the same set). */
  ghost function Accumulate(user: UserId, exclude: set<ItemId>, nbrs: seq<Neighbour>, vectors: seq<Dict>, d: Dict): (r: Dict)
    requires Valid(d) && AllValid(vectors)
    requires AllNeighbourKeys(nbrs) && |vectors| == |nbrs|
    ensures Valid(r)
    ensures d.order <= r.order
    decreases |nbrs|
  {
    if nbrs == [] then d
    else
      Accumulate(user, exclude, nbrs[1..], vectors[1..], Step(user, exclude, nbrs[0], vectors[0], d))
  }

  /** The ids rated by the neighbours that count. */
  ghost function RatedByNeighbours(user: UserId, nbrs: seq<Neighbour>, vectors: seq<Dict>): set<ItemId>
    requires AllNeighbourKeys(nbrs) && |vectors| == |nbrs|
  {
    if nbrs == [] then {}
    else PartKeys(user, nbrs[0], vectors[0]) + RatedByNeighbours(user, nbrs[1..], vectors[1..])
  }

  /** The score a movie earns: the sum, over the neighbours that count, of
      similarity times that neighbour's rating of it (0 when unrated). */
  ghost function Contribution(user: UserId, nbrs: seq<Neighbour>, vectors: seq<Dict>, m: ItemId): real
    requires AllNeighbourKeys(nbrs) && |vectors| == |nbrs|
  {
    if nbrs == [] then 0.0
    else Part(user, nbrs[0], vectors[0], m) + Contribution(user, nbrs[1..], vectors[1..], m)
  }

  /** The loop creates exactly the movies outside `exclude` that a counting
      neighbour rated. */
  lemma {:induction false} AccumulateKeys(user: UserId, exclude: set<ItemId>, nbrs: seq<Neighbour>, vectors: seq<Dict>, d: Dict)
    requires Valid(d) && AllValid(vectors)
    requires AllNeighbourKeys(nbrs) && |vectors| == |nbrs|
    ensures Accumulate(user, exclude, nbrs, vectors, d).entries.Keys == d.entries.Keys + (RatedByNeighbours(user, nbrs, vectors) - exclude)
    decreases |nbrs|
  {
    if nbrs != [] {
      AccumulateKeys(user, exclude, nbrs[1..], vectors[1..], Step(user, exclude, nbrs[0], vectors[0], d));
    }
  }

  /** The loop adds to each movie outside `exclude` exactly the weighted
      ratings of the counting neighbours. */
  lemma {:induction false} AccumulateSums(user: UserId, exclude: set<ItemId>, nbrs: seq<Neighbour>, vectors: seq<Dict>, d: Dict, m: ItemId)
    requires Valid(d) && AllValid(vectors)
    requires AllNeighbourKeys(nbrs) && |vectors| == |nbrs|
    ensures Get(Accumulate(user, exclude, nbrs, vectors, d), m)
            == Get(d, m) + (if m in exclude then 0.0 else Contribution(user, nbrs, vectors, m))
    decreases |nbrs|
  {
    if nbrs != [] {
      AccumulateSums(user, exclude, nbrs[1..], vectors[1..], Step(user, exclude, nbrs[0], vectors[0], d), m);
    }
  }

  /** The movies that end up in `movie_scores`: rated by a counting
      neighbour and not by the user. */
  ghost function Candidates(store: Store, user: UserId, nbrs: seq<Neighbour>): set<ItemId>
    requires AllNeighbourKeys(nbrs)
  {
    RatedByNeighbours(user, nbrs, RatingsOfNeighbours(store, nbrs)) - GetUserRatings(store, user).entries.Keys
  }

  /** The score of a movie given the neighbours `nbrs`. */
  ghost function Score(store: Store, user: UserId, nbrs: seq<Neighbour>, m: ItemId): real
    requires AllNeighbourKeys(nbrs)
  {
    Contribution(user, nbrs, RatingsOfNeighbours(store, nbrs), m)
  }

  /** `movie_scores` after the loop (lines 118-131). */
  ghost function MovieScores(store: Store, user: UserId, nbrs: seq<Neighbour>): (r: Dict)
    requires AllNeighbourKeys(nbrs)
    ensures Valid(r)
    ensures r.entries.Keys == Candidates(store, user, nbrs)
    ensures forall m :: m in r.entries ==> r.entries[m] == Score(store, user, nbrs, m)
  {
    var exclude := GetUserRatings(store, user).entries.Keys;
    var vectors := RatingsOfNeighbours(store, nbrs);
    AccumulateKeys(user, exclude, nbrs, vectors, Empty());
    forall m ensures Get(Accumulate(user, exclude, nbrs, vectors, Empty()), m)
                     == if m in exclude then 0.0 else Contribution(user, nbrs, vectors, m) {
      AccumulateSums(user, exclude, nbrs, vectors, Empty(), m);
    }
    Accumulate(user, exclude, nbrs, vectors, Empty())
  }

  /** What lines 134-135 promise of the ids they pick from `nbrs`'s scores:
      candidates only, each once, best first, none left out that beats one
      kept, and as many as the slice `[:n]` allows. */
  ghost predicate IsRanking(ids: seq<ItemId>, store: Store, user: UserId, nbrs: seq<Neighbour>, n: int)
    requires AllNeighbourKeys(nbrs)
  {
    var candidates := Candidates(store, user, nbrs);
    && (forall i :: 0 <= i < |ids| ==> ids[i] in candidates)
    && (forall i, j :: 0 <= i < j < |ids| ==> ids[i] != ids[j])
    && (forall i, j :: 0 <= i < j < |ids| ==>
          Score(store, user, nbrs, ids[j]) <= Score(store, user, nbrs, ids[i]))
    && (forall m, i :: m in candidates && m !in ids && 0 <= i < |ids| ==>
          Score(store, user, nbrs, m) <= Score(store, user, nbrs, ids[i]))
    && (0 <= n ==> |ids| == Min(n, |candidates|))
    && (n < 0 ==> |ids| == Max(0, |candidates| + n))
  }

  /** Lines 134-135: sort the scores (stable, descending), slice, keep ids. */
  ghost function RankCandidates(store: Store, user: UserId, nbrs: seq<Neighbour>, n: int): (ids: seq<ItemId>)
    requires AllNeighbourKeys(nbrs)
    ensures IsRanking(ids, store, user, nbrs, n)
    // in particular nothing the user already rated is recommended
    ensures forall i :: 0 <= i < |ids| ==> ids[i] !in GetUserRatings(store, user).entries
  {
    var scores := MovieScores(store, user, nbrs);
    var items := Items(scores);
    var top := TopN(items, n);
    var ids := Members(top);
    RankingOfTop(scores, items, top, ids, n);
    ScoresRank(store, user, nbrs, n, scores, top, ids);
    ids
  }

  /** Ids drawn from `movie_scores` as RankingOfTop describes them rank the
      candidates. */
  lemma {:induction false} ScoresRank(store: Store, user: UserId, nbrs: seq<Neighbour>, n: int,
                                      scores: Dict, top: seq<(ItemId, real)>, ids: seq<ItemId>)
    requires AllNeighbourKeys(nbrs)
    requires scores.entries.Keys == Candidates(store, user, nbrs)
    requires forall m :: m in scores.entries ==> scores.entries[m] == Score(store, user, nbrs, m)
    requires |ids| == |top|
    requires 0 <= n ==> |top| == Min(n, |scores.entries.Keys|)
    requires n < 0 ==> |top| == Max(0, |scores.entries.Keys| + n)
    requires forall i :: 0 <= i < |ids| ==> ids[i] in scores.entries && top[i].1 == scores.entries[ids[i]]
    requires forall i, j :: 0 <= i < j < |top| ==> top[j].1 <= top[i].1
    requires forall i, j :: 0 <= i < j < |ids| ==> ids[i] != ids[j]
    requires forall m, i :: m in scores.entries && m !in ids && 0 <= i < |ids| ==> scores.entries[m] <= top[i].1
    ensures IsRanking(ids, store, user, nbrs, n)
    ensures forall i :: 0 <= i < |ids| ==> ids[i] !in GetUserRatings(store, user).entries
  {
  }

  /** The facts about one slice of the sorted scores that IsRanking needs. */
  lemma {:induction false} RankingOfTop(scores: Dict, items: seq<(ItemId, real)>, top: seq<(ItemId, real)>, ids: seq<ItemId>, n: int)
    requires Valid(scores) && items == Items(scores)
    requires IsTopOf(top, items) && top <= SortDescending(items)
    requires |ids| == |top| && forall i :: 0 <= i < |ids| ==> ids[i] == top[i].0
    ensures |items| == |scores.entries.Keys|
    ensures forall i :: 0 <= i < |ids| ==> ids[i] in scores.entries && top[i].1 == scores.entries[ids[i]]
    ensures forall i, j :: 0 <= i < j < |ids| ==> ids[i] != ids[j]
    ensures forall m, i :: m in scores.entries && m !in ids && 0 <= i < |ids| ==> scores.entries[m] <= top[i].1
  {
    ValidSize(scores);
    ItemsExact(scores);
    TopEntries(scores, items, top);
    SortKeepsDistinctKeys(items);
    assert DistinctKeys(top);
    TopBeatsRest(scores, items, top, ids);
  }

  lemma {:induction false} TopEntries(scores: Dict, items: seq<(ItemId, real)>, top: seq<(ItemId, real)>)
    requires Valid(scores) && items == Items(scores)
    requires multiset(top) <= multiset(items)
    ensures forall i :: 0 <= i < |top| ==> top[i].0 in scores.entries && top[i].1 == scores.entries[top[i].0]
  {
    forall i | 0 <= i < |top| ensures top[i].0 in scores.entries && top[i].1 == scores.entries[top[i].0] {
      assert top[i] in multiset(top);
      assert top[i] in items;
    }
  }

  lemma {:induction false} TopBeatsRest(scores: Dict, items: seq<(ItemId, real)>, top: seq<(ItemId, real)>, ids: seq<ItemId>)
    requires Valid(scores) && items == Items(scores)
    requires IsTopOf(top, items)
    requires |ids| == |top| && forall i :: 0 <= i < |ids| ==> ids[i] == top[i].0
    ensures forall m, i :: m in scores.entries && m !in ids && 0 <= i < |ids| ==> scores.entries[m] <= top[i].1
  {
    ItemsExact(scores);
    forall m, i | m in scores.entries && m !in ids && 0 <= i < |ids| ensures scores.entries[m] <= top[i].1 {
      var q := (m, scores.entries[m]);
      assert q in items;
      assert q !in top;
      assert q in multiset(items) - multiset(top);
    }
  }

  /** Every key of a `KEYS ratings:*` reply is a rating key. */
  lemma {:induction false} KeysReplyAreRatingsKeys(store: Store, keys: seq<string>)
    requires IsKeysReply(store, keys)
    ensures AllRatingsKeys(keys)
  {
    forall i | 0 <= i < |keys| ensures IsRatingsKey(keys[i]) {
      assert keys[i] in keys;
    }
  }

  /** Lines 115-117: get_similar_users over the whole key reply with a fresh
      cache. */
  ghost function NeighboursOf(store: Store, user: UserId, keys: seq<string>, sqrt: real -> real): (r: seq<Neighbour>)
    requires IsKeysReply(store, keys)
    ensures AllNeighbourKeys(r)
    ensures |r| == Min(MaxNeighbours, |keys|)
    ensures DistinctKeys(r)
  {
    KeysReplyAreRatingsKeys(store, keys);
    NeighboursDistinct(store, user, keys, map[], sqrt);
    var r := GetSimilarUsers(store, user, keys, map[], sqrt).pairs;
    assert forall i :: 0 <= i < |r| ==> r[i].0 in keys;
    r
  }

  /** `recommended_movie_ids` (lines 115-135). */
  ghost function RecommendIds(store: Store, user: UserId, keys: seq<string>, n: int, sqrt: real -> real): (ids: seq<ItemId>)
    requires IsKeysReply(store, keys)
    ensures IsRanking(ids, store, user, NeighboursOf(store, user, keys, sqrt), n)
    ensures forall i :: 0 <= i < |ids| ==> ids[i] !in GetUserRatings(store, user).entries
  {
    RankCandidates(store, user, NeighboursOf(store, user, keys, sqrt), n)
  }

  /** recommend_movies(user_id, num_recommendations): the titles of the
      recommended ids (line 136). */
  ghost function RecommendMovies(store: Store, user: UserId, keys: seq<string>, n: int, sqrt: real -> real): (titles: seq<string>)
    requires IsKeysReply(store, keys)
    ensures 0 <= n ==> |titles| <= n
    ensures |titles| <= |RecommendIds(store, user, keys, n, sqrt)|
    ensures forall k :: 0 <= k < |titles| ==> titles[k] != ""
  {
    var ids := RecommendIds(store, user, keys, n, sqrt);
    assert 0 <= n ==> |ids| <= n;
    GetTitleFromIds(store, ids)
  }

  /** When every candidate has a title, the titles are those of the
      recommended ids, one for one and best first. */
  lemma {:induction false} RecommendedTitles(store: Store, user: UserId, keys: seq<string>, n: int, sqrt: real -> real)
    requires IsKeysReply(store, keys)
    requires forall m :: m in Candidates(store, user, NeighboursOf(store, user, keys, sqrt)) ==> GetTitle(store, m).Some?
    ensures |RecommendMovies(store, user, keys, n, sqrt)| == |RecommendIds(store, user, keys, n, sqrt)|
    ensures forall k :: 0 <= k < |RecommendIds(store, user, keys, n, sqrt)| ==>
              RecommendMovies(store, user, keys, n, sqrt)[k] == GetTitle(store, RecommendIds(store, user, keys, n, sqrt)[k]).value
  {
    var ids := RecommendIds(store, user, keys, n, sqrt);
    AllTitled(store, ids);
  }

  /** Titles of a ranking (what RecommendMovies returns for the ranking
      RecommendIds): each is the title of one ranked id, taken in ranking
      order, so they run from the best score down; exactly the ids without
      a title are missing. */
  lemma {:induction false} TitlesFollowRanking(store: Store, user: UserId, nbrs: seq<Neighbour>, n: int, ids: seq<ItemId>)
    returns (idx: seq<nat>)
    requires AllNeighbourKeys(nbrs)
    requires IsRanking(ids, store, user, nbrs, n)
    ensures |idx| == |GetTitleFromIds(store, ids)|
    ensures forall k :: 0 <= k < |idx| ==> idx[k] < |ids| && GetTitle(store, ids[idx[k]]) == Some(GetTitleFromIds(store, ids)[k])
    ensures forall k, l :: 0 <= k < l < |idx| ==> Score(store, user, nbrs, ids[idx[l]]) <= Score(store, user, nbrs, ids[idx[k]])
    ensures forall j :: 0 <= j < |ids| ==> (GetTitle(store, ids[j]).Some? <==> j in idx)
  {
    idx := TitlesKeepOrder(store, ids);
    RankedSubsequence(store, user, nbrs, n, ids, idx);
  }

  /** recommend_movies returns, best first, the titles of exactly those
      recommended ids that have one; an id without a title is dropped and
      the others keep their order. */
  lemma {:induction false} RecommendedTitlesInOrder(store: Store, user: UserId, keys: seq<string>, n: int, sqrt: real -> real)
    returns (idx: seq<nat>)
    requires IsKeysReply(store, keys)
    ensures |idx| == |RecommendMovies(store, user, keys, n, sqrt)|
    ensures forall k :: 0 <= k < |idx| ==>
              idx[k] < |RecommendIds(store, user, keys, n, sqrt)|
              && GetTitle(store, RecommendIds(store, user, keys, n, sqrt)[idx[k]]) == Some(RecommendMovies(store, user, keys, n, sqrt)[k])
    ensures forall k, l :: 0 <= k < l < |idx| ==>
              Score(store, user, NeighboursOf(store, user, keys, sqrt), RecommendIds(store, user, keys, n, sqrt)[idx[l]])
              <= Score(store, user, NeighboursOf(store, user, keys, sqrt), RecommendIds(store, user, keys, n, sqrt)[idx[k]])
    ensures forall j :: 0 <= j < |RecommendIds(store, user, keys, n, sqrt)| ==>
              (GetTitle(store, RecommendIds(store, user, keys, n, sqrt)[j]).Some? <==> j in idx)
  {
    var ids := RecommendIds(store, user, keys, n, sqrt);
    assert RecommendMovies(store, user, keys, n, sqrt) == GetTitleFromIds(store, ids);
    idx := TitlesFollowRanking(store, user, NeighboursOf(store, user, keys, sqrt), n, ids);
  }

  /** Picking ranked ids at increasing positions keeps them best first. */
  lemma {:induction false} RankedSubsequence(store: Store, user: UserId, nbrs: seq<Neighbour>, n: int, ids: seq<ItemId>, idx: seq<nat>)
    requires AllNeighbourKeys(nbrs)
    requires IsRanking(ids, store, user, nbrs, n)
    requires forall k :: 0 <= k < |idx| ==> idx[k] < |ids|
    requires forall k, l :: 0 <= k < l < |idx| ==> idx[k] < idx[l]
    ensures forall k, l :: 0 <= k < l < |idx| ==> Score(store, user, nbrs, ids[idx[l]]) <= Score(store, user, nbrs, ids[idx[k]])
  {
  }

  /** A neighbour's own key never counts for its own user when the id has no
      ':' in it: line 125 is where the user's own ratings are skipped. */
  lemma {:induction false} OwnKeyDoesNotCount(user: UserId)
    requires ':' !in user
    ensures IsRatingsKey(RatingsKey(user)) && !Counts(RatingsKey(user), user)
  {
    DecodeRatingsKey(user);
  }

  /** Line 125 skips the user's own key exactly when the user id has no
      ':'. An id with a ':' is cut at it when read back from its key, so
      its own key counts as a neighbour and names another user. */
  lemma {:induction false} ColonInUserId(u: UserId)
    ensures IsRatingsKey(RatingsKey(u))
    ensures Counts(RatingsKey(u), u) <==> ':' in u
    ensures ':' in u ==> DecodeUserId(RatingsKey(u)) == UpTo(u, ':')
  {
    DecodeRatingsKey(u);
  }

  /** `s` without its element at `i`. */
  function Drop<T>(s: seq<T>, i: nat): (r: seq<T>)
    requires i < |s|
    ensures |r| == |s| - 1
    ensures forall j :: 0 <= j < i ==> r[j] == s[j]
    ensures forall j :: i <= j < |r| ==> r[j] == s[j + 1]
  {
    s[..i] + s[i + 1..]
  }

  /** Each neighbour's part of a score is independent of where it stands:
      taking any one out removes exactly its own part. */
  lemma {:induction false} NeighbourPart(user: UserId, nbrs: seq<Neighbour>, vectors: seq<Dict>, i: nat, m: ItemId)
    requires AllNeighbourKeys(nbrs) && |vectors| == |nbrs| && i < |nbrs|
    ensures AllNeighbourKeys(Drop(nbrs, i))
    ensures Contribution(user, nbrs, vectors, m)
            == Part(user, nbrs[i], vectors[i], m) + Contribution(user, Drop(nbrs, i), Drop(vectors, i), m)
    decreases i
  {
    if i == 0 {
      assert Drop(nbrs, 0) == nbrs[1..];
      assert Drop(vectors, 0) == vectors[1..];
    } else {
      NeighbourPart(user, nbrs[1..], vectors[1..], i - 1, m);
      DropTail(nbrs, i);
      DropTail(vectors, i);
    }
  }

  /** Likewise for candidates: taking any neighbour out removes exactly the
      candidates it alone contributed. */
  lemma {:induction false} NeighbourKeys(user: UserId, nbrs: seq<Neighbour>, vectors: seq<Dict>, i: nat)
    requires AllNeighbourKeys(nbrs) && |vectors| == |nbrs| && i < |nbrs|
    ensures AllNeighbourKeys(Drop(nbrs, i))
    ensures RatedByNeighbours(user, nbrs, vectors)
            == PartKeys(user, nbrs[i], vectors[i]) + RatedByNeighbours(user, Drop(nbrs, i), Drop(vectors, i))
    decreases i
  {
    if i == 0 {
      assert Drop(nbrs, 0) == nbrs[1..];
      assert Drop(vectors, 0) == vectors[1..];
    } else {
      NeighbourKeys(user, nbrs[1..], vectors[1..], i - 1);
      DropTail(nbrs, i);
      DropTail(vectors, i);
      UnionSwap(PartKeys(user, nbrs[0], vectors[0]), PartKeys(user, nbrs[i], vectors[i]),
                RatedByNeighbours(user, Drop(nbrs[1..], i - 1), Drop(vectors[1..], i - 1)));
    }
  }

  lemma {:induction false} UnionSwap(a: set<ItemId>, b: set<ItemId>, rest: set<ItemId>)
    ensures a + (b + rest) == b + (a + rest)
  {
  }

  lemma {:induction false} DropTail<T>(s: seq<T>, i: nat)
    requires 0 < i < |s|
    ensures Drop(s, i)[0] == s[0]
    ensures Drop(s, i)[1..] == Drop(s[1..], i - 1)
  {
  }

  /** Negative similarities are not filtered out: a counting neighbour with
      a negative similarity lowers the score of every movie it rated
      positively below what the other neighbours give it. */
  lemma {:induction false} NegativeSimilarityLowersScore(user: UserId, nbrs: seq<Neighbour>, vectors: seq<Dict>, i: nat, m: ItemId)
    requires AllNeighbourKeys(nbrs) && |vectors| == |nbrs| && i < |nbrs|
    requires Counts(nbrs[i].0, user) && nbrs[i].1 < 0.0 && 0.0 < Get(vectors[i], m)
    ensures AllNeighbourKeys(Drop(nbrs, i))
    ensures Contribution(user, nbrs, vectors, m) < Contribution(user, Drop(nbrs, i), Drop(vectors, i), m)
  {
    NeighbourPart(user, nbrs, vectors, i, m);
    NegativePart(user, nbrs[i], vectors[i], m);
  }

  lemma {:induction false} NegativePart(user: UserId, nbr: Neighbour, v: Dict, m: ItemId)
    requires IsRatingsKey(nbr.0) && Counts(nbr.0, user)
    requires nbr.1 < 0.0 && 0.0 < Get(v, m)
    ensures Part(user, nbr, v, m) < 0.0
  {
    PartWhenCounting(user, nbr, v, m);
    NegativeTimesPositive(nbr.1, Get(v, m));
  }

  lemma {:induction false} NegativeTimesPositive(a: real, b: real)
    requires a < 0.0 < b
    ensures a * b < 0.0
  {
    assert 0.0 < (-a) * b;
  }

  /** A counting neighbour with similarity 0 (no ratings in common, say)
      still makes each movie it rated a candidate, while leaving every score
      what the others give it. */
  lemma {:induction false} ZeroSimilarityStillCandidate(user: UserId, nbrs: seq<Neighbour>, vectors: seq<Dict>, i: nat, m: ItemId)
    requires AllNeighbourKeys(nbrs) && |vectors| == |nbrs| && i < |nbrs|
    requires Counts(nbrs[i].0, user) && nbrs[i].1 == 0.0 && m in vectors[i].entries
    ensures AllNeighbourKeys(Drop(nbrs, i))
    ensures m in RatedByNeighbours(user, nbrs, vectors)
    ensures Contribution(user, nbrs, vectors, m) == Contribution(user, Drop(nbrs, i), Drop(vectors, i), m)
  {
    NeighbourPart(user, nbrs, vectors, i, m);
    NeighbourKeys(user, nbrs, vectors, i);
  }

  /** A neighbour that does not count adds neither candidates nor score. */
  lemma {:induction false} SkippedNeighbourAddsNothing(user: UserId, nbrs: seq<Neighbour>, vectors: seq<Dict>, i: nat, m: ItemId)
    requires AllNeighbourKeys(nbrs) && |vectors| == |nbrs| && i < |nbrs|
    requires !Counts(nbrs[i].0, user)
    ensures AllNeighbourKeys(Drop(nbrs, i))
    ensures RatedByNeighbours(user, nbrs, vectors) == RatedByNeighbours(user, Drop(nbrs, i), Drop(vectors, i))
    ensures Contribution(user, nbrs, vectors, m) == Contribution(user, Drop(nbrs, i), Drop(vectors, i), m)
  {
    NeighbourPart(user, nbrs, vectors, i, m);
    NeighbourKeys(user, nbrs, vectors, i);
  }
}
