/** get_similar_users (app/recommendations.py:69-91): score the target user
    against every key of the `KEYS ratings:*` reply, threading one similarity
    cache through the calls, and keep the ten best (key, score) pairs. */
module Neighbours {
  import opened Text
  import opened PyDict
  import opened RedisStore
  import opened Similarity
  import opened Ranking

  /** The slice `[:10]` of line 90. */
  const MaxNeighbours: int := 10

  /** A raw rating key of the store with its similarity to the target. */
  type Neighbour = (string, real)

  ghost predicate AllRatingsKeys(keys: seq<string>)
  {
    forall i :: 0 <= i < |keys| ==> IsRatingsKey(keys[i])
  }

  /** The test of line 84: the raw key is a bytes value and the formatted key
      a str, so under Python 3 the two never compare equal. */
  predicate KeepsKey(key: string, target: UserId)
  {
    !PyEq(PyBytes(key), PyStr(RatingsKey(target)))
  }

  /** Line 84 never skips anything, not even the target's own key. */
  lemma {:induction false} TargetNotSkipped(target: UserId)
    ensures KeepsKey(RatingsKey(target), target)
    ensures forall key :: KeepsKey(key, target)
  {
    BytesNeverEqualStr(RatingsKey(target), RatingsKey(target));
  }

  /** Line 85: the ratings of the user that a raw key names. */
  ghost function RatingsOfKey(store: Store, key: string): Dict
    requires IsRatingsKey(key)
  {
    GetUserRatings(store, DecodeUserId(key))
  }

  /** The similarities computed so far and the cache as they leave it. */
  datatype Scan = Scan(pairs: seq<Neighbour>, cache: Cache)

  /** The loop of lines 83-87 over `keys`, starting from `cache`.
      `vectors[i]` is what line 85 reads for `keys[i]` (the store does not
      change during the loop, so reading it up front is the same), and `sim`
      is the similarity routine of line 86. */
  ghost function ScoreKeys(target: UserId, targetRatings: Dict, keys: seq<string>, vectors: seq<Dict>, cache: Cache,
                           sim: (Dict, Dict, Cache) -> Scored): (r: Scan)
    requires |vectors| == |keys|
    ensures |r.pairs| == |keys|
    ensures forall i :: 0 <= i < |keys| ==> r.pairs[i].0 == keys[i]
    decreases |keys|
  {
    if keys == [] then Scan([], cache)
    else
      // the test of line 84 never skips a key
      assert KeepsKey(keys[0], target) by { TargetNotSkipped(target); }
      var s := sim(targetRatings, vectors[0], cache);
      var rest := ScoreKeys(target, targetRatings, keys[1..], vectors[1..], s.cache, sim);
      Scan([(keys[0], s.score)] + rest.pairs, rest.cache)
  }

  /** The scan get_similar_users performs. */
  ghost function ScanOf(store: Store, target: UserId, keys: seq<string>, cache: Cache, sqrt: real -> real): Scan
    requires AllRatingsKeys(keys)
  {
    ScoreKeys(target, GetUserRatings(store, target), keys, RatingsOfKeys(store, keys), cache, SimilarityRoutine(sqrt))
  }

  /** get_similar_users(target_user_id, user_ids, similarity_cache): the
      returned pairs and the cache as the call leaves it. */
  ghost function GetSimilarUsers(store: Store, target: UserId, keys: seq<string>, cache: Cache, sqrt: real -> real): (r: Scan)
    requires AllRatingsKeys(keys)
    // every key is scored and the ten best pairs survive, best first
    ensures IsTopOf(r.pairs, ScanOf(store, target, keys, cache, sqrt).pairs)
    ensures |r.pairs| == Min(MaxNeighbours, |keys|)
    // ties are cut as the stable sort leaves them: the pairs are its prefix
    ensures r.pairs <= SortDescending(ScanOf(store, target, keys, cache, sqrt).pairs)
    ensures forall i :: 0 <= i < |r.pairs| ==> r.pairs[i].0 in keys
    // the cache keeps every entry it had
    ensures Extends(cache, r.cache)
  {
    var scan := ScanOf(store, target, keys, cache, sqrt);
    var top := TopN(scan.pairs, MaxNeighbours);
    TopKeysFromInput(store, target, keys, cache, sqrt, top);
    CalculateSimilarityMemoises(sqrt);
    ScanExtends(target, GetUserRatings(store, target), keys, RatingsOfKeys(store, keys), cache,
                SimilarityRoutine(sqrt), PearsonWith(sqrt), KeyFunction());
    Scan(top, scan.cache)
  }

  /** Pairs drawn from a scan carry the keys it was given. */
  lemma {:induction false} TopKeysFromInput(store: Store, target: UserId, keys: seq<string>, cache: Cache, sqrt: real -> real,
                                            top: seq<Neighbour>)
    requires AllRatingsKeys(keys)
    requires multiset(top) <= multiset(ScanOf(store, target, keys, cache, sqrt).pairs)
    ensures forall i :: 0 <= i < |top| ==> top[i].0 in keys
  {
    var scan := ScanOf(store, target, keys, cache, sqrt);
    forall i | 0 <= i < |top| ensures top[i].0 in keys {
      assert top[i] in multiset(top);
      var j := IndexOfPair(scan.pairs, top[i]);
      assert keys[j] == top[i].0;
    }
  }

  lemma {:induction false} IndexOfPair(s: seq<Neighbour>, p: Neighbour) returns (j: nat)
    requires p in multiset(s)
    ensures j < |s| && s[j] == p
  {
    assert p in s;
    j :| 0 <= j < |s| && s[j] == p;
  }

  /** Scanning with a memoising routine never evicts or overwrites an entry. */
  lemma {:induction false} ScanExtends(target: UserId, targetRatings: Dict, keys: seq<string>, vectors: seq<Dict>, cache: Cache,
                                       sim: (Dict, Dict, Cache) -> Scored, formula: (Dict, Dict) -> real, key: (Dict, Dict) -> CacheKey)
    requires |vectors| == |keys|
    requires Memoises(sim, formula, key)
    ensures Extends(cache, ScoreKeys(target, targetRatings, keys, vectors, cache, sim).cache)
    decreases |keys|
  {
    if keys != [] {
      var s := sim(targetRatings, vectors[0], cache);
      ScanExtends(target, targetRatings, keys[1..], vectors[1..], s.cache, sim, formula, key);
    }
  }

  /** When the key reply lists each key once, as `KEYS` does, no user appears
      twice among the neighbours. */
  lemma {:induction false} NeighboursDistinct(store: Store, target: UserId, keys: seq<string>, cache: Cache, sqrt: real -> real)
    requires AllRatingsKeys(keys)
    requires forall i, j :: 0 <= i < j < |keys| ==> keys[i] != keys[j]
    ensures DistinctKeys(GetSimilarUsers(store, target, keys, cache, sqrt).pairs)
  {
    var scan := ScanOf(store, target, keys, cache, sqrt);
    SortKeepsDistinctKeys(scan.pairs);
    var r := GetSimilarUsers(store, target, keys, cache, sqrt).pairs;
    assert r <= SortDescending(scan.pairs);
  }

  /** The target's own key is scored like any other. */
  lemma {:induction false} TargetIsScored(store: Store, target: UserId, keys: seq<string>, cache: Cache, sqrt: real -> real)
    requires AllRatingsKeys(keys)
    requires RatingsKey(target) in keys
    ensures exists i :: 0 <= i < |keys| && ScanOf(store, target, keys, cache, sqrt).pairs[i].0 == RatingsKey(target)
  {
    var i :| 0 <= i < |keys| && keys[i] == RatingsKey(target);
    assert ScanOf(store, target, keys, cache, sqrt).pairs[i].0 == RatingsKey(target);
  }

  /** The ratings each key names, in key order. */
  ghost function RatingsOfKeys(store: Store, keys: seq<string>): (r: seq<Dict>)
    requires AllRatingsKeys(keys)
    ensures |r| == |keys|
    ensures forall i :: 0 <= i < |keys| ==> r[i] == RatingsOfKey(store, keys[i])
  {
    seq(|keys|, i requires 0 <= i < |keys| && AllRatingsKeys(keys) => RatingsOfKey(store, keys[i]))
  }

  /** Every cache entry is the formula's value for one of `seen`, stored
      under that vector's key. */
  ghost predicate CacheExplained(cache: Cache, target: Dict, seen: seq<Dict>, formula: (Dict, Dict) -> real, key: (Dict, Dict) -> CacheKey)
  {
    forall k :: k in cache ==>
      exists j :: 0 <= j < |seen| && key(target, seen[j]) == k && cache[k] == formula(target, seen[j])
  }

  /** `score` is the formula's value for `b`, or that of an earlier vector
      whose key `b` shares. */
  ghost predicate FreshOrShared(score: real, target: Dict, b: Dict, earlier: seq<Dict>, formula: (Dict, Dict) -> real, key: (Dict, Dict) -> CacheKey)
  {
    || score == formula(target, b)
    || exists j :: 0 <= j < |earlier| && key(target, earlier[j]) == key(target, b) && score == formula(target, earlier[j])
  }

  /** One memoised call keeps the cache explained and returns a fresh or
      shared score. */
  lemma {:induction false} FirstStep(sim: (Dict, Dict, Cache) -> Scored, formula: (Dict, Dict) -> real, key: (Dict, Dict) -> CacheKey,
                  cache: Cache, target: Dict, b: Dict, seen: seq<Dict>)
    requires Memoises(sim, formula, key)
    requires CacheExplained(cache, target, seen, formula, key)
    ensures CacheExplained(sim(target, b, cache).cache, target, seen + [b], formula, key)
    ensures FreshOrShared(sim(target, b, cache).score, target, b, seen, formula, key)
  {
    var s := sim(target, b, cache);
    var seen' := seen + [b];
    forall k | k in s.cache
      ensures exists j :: 0 <= j < |seen'| && key(target, seen'[j]) == k && s.cache[k] == formula(target, seen'[j])
    {
      if k in cache {
        var j :| 0 <= j < |seen| && key(target, seen[j]) == k && cache[k] == formula(target, seen[j]);
        assert seen'[j] == seen[j];
      } else {
        assert seen'[|seen|] == b;
      }
    }
    if key(target, b) in cache {
      var j :| 0 <= j < |seen| && key(target, seen[j]) == key(target, b) && cache[key(target, b)] == formula(target, seen[j]);
    }
  }

  /** What the shared cache does to the scores: each is the formula's value
      for its own user unless a user scored earlier rated the same items
      (same key), in which case it may be that user's value instead. */
  lemma {:induction false} ScoresFreshOrShared(target: UserId, targetRatings: Dict, keys: seq<string>, vectors: seq<Dict>, cache: Cache,
                                                sim: (Dict, Dict, Cache) -> Scored, formula: (Dict, Dict) -> real, key: (Dict, Dict) -> CacheKey,
                                                seen: seq<Dict>)
    requires |vectors| == |keys|
    requires Memoises(sim, formula, key)
    requires CacheExplained(cache, targetRatings, seen, formula, key)
    ensures CacheExplained(ScoreKeys(target, targetRatings, keys, vectors, cache, sim).cache, targetRatings, seen + vectors, formula, key)
    ensures forall i :: 0 <= i < |keys| ==>
              FreshOrShared(ScoreKeys(target, targetRatings, keys, vectors, cache, sim).pairs[i].1, targetRatings,
                            vectors[i], seen + vectors[..i], formula, key)
    decreases |keys|
  {
    var r := ScoreKeys(target, targetRatings, keys, vectors, cache, sim);
    if keys == [] {
      assert seen + vectors == seen;
    } else {
      var s := sim(targetRatings, vectors[0], cache);
      var seen' := seen + [vectors[0]];
      FirstStep(sim, formula, key, cache, targetRatings, vectors[0], seen);
      ScoresFreshOrShared(target, targetRatings, keys[1..], vectors[1..], s.cache, sim, formula, key, seen');
      assert seen' + vectors[1..] == seen + vectors;
      TargetNotSkipped(target);
      var rest := ScoreKeys(target, targetRatings, keys[1..], vectors[1..], s.cache, sim);
      assert r.pairs == [(keys[0], s.score)] + rest.pairs;
      FreshOrSharedCons(keys[0], s.score, rest.pairs, targetRatings, vectors, seen, formula, key);
    }
  }

  /** The scores of a scan are fresh or shared with respect to all vectors
      before them once the first one is and the rest are with respect to
      the first and those before it. */
  lemma {:induction false} FreshOrSharedCons(k: string, score: real, rest: seq<Neighbour>, target: Dict, vectors: seq<Dict>,
                                             seen: seq<Dict>, formula: (Dict, Dict) -> real, key: (Dict, Dict) -> CacheKey)
    requires |vectors| == |rest| + 1
    requires FreshOrShared(score, target, vectors[0], seen, formula, key)
    requires forall i :: 0 <= i < |rest| ==>
               FreshOrShared(rest[i].1, target, vectors[1..][i], (seen + [vectors[0]]) + vectors[1..][..i], formula, key)
    ensures forall i :: 0 <= i < |vectors| ==>
              FreshOrShared(([(k, score)] + rest)[i].1, target, vectors[i], seen + vectors[..i], formula, key)
  {
    var pairs := [(k, score)] + rest;
    forall i | 0 <= i < |vectors|
      ensures FreshOrShared(pairs[i].1, target, vectors[i], seen + vectors[..i], formula, key)
    {
      if i == 0 {
        assert seen + vectors[..0] == seen;
      } else {
        assert pairs[i] == rest[i - 1];
        assert vectors[1..][i - 1] == vectors[i];
        assert (seen + [vectors[0]]) + vectors[1..][..i - 1] == seen + vectors[..i];
      }
    }
  }

  /** Two users of the reply share a key only when they also share the
      formula's value: then the cache never hands out a wrong score. */
  ghost predicate NoHarmfulCollision(target: Dict, vectors: seq<Dict>, formula: (Dict, Dict) -> real, key: (Dict, Dict) -> CacheKey)
  {
    forall i, j :: 0 <= i < j < |vectors| && key(target, vectors[i]) == key(target, vectors[j]) ==>
      formula(target, vectors[i]) == formula(target, vectors[j])
  }

  /** Without a harmful collision, a scan from an empty cache gives every
      key the formula's value for its own vector. */
  lemma {:induction false} ScoresExact(target: UserId, targetRatings: Dict, keys: seq<string>, vectors: seq<Dict>,
                    sim: (Dict, Dict, Cache) -> Scored, formula: (Dict, Dict) -> real, key: (Dict, Dict) -> CacheKey)
    requires |vectors| == |keys|
    requires Memoises(sim, formula, key)
    requires NoHarmfulCollision(targetRatings, vectors, formula, key)
    ensures forall i :: 0 <= i < |keys| ==>
              ScoreKeys(target, targetRatings, keys, vectors, map[], sim).pairs[i].1 == formula(targetRatings, vectors[i])
  {
    ScoresFreshOrShared(target, targetRatings, keys, vectors, map[], sim, formula, key, []);
    var r := ScoreKeys(target, targetRatings, keys, vectors, map[], sim);
    forall i | 0 <= i < |keys| ensures r.pairs[i].1 == formula(targetRatings, vectors[i]) {
      assert forall j :: 0 <= j < i ==> ([] + vectors[..i])[j] == vectors[j];
    }
  }

  /** Starting from an empty cache, as recommend_movies does, and without a
      harmful collision, every neighbour carries its own similarity. */
  lemma {:induction false} NeighbourScoresExact(store: Store, target: UserId, keys: seq<string>, sqrt: real -> real)
    requires AllRatingsKeys(keys)
    requires NoHarmfulCollision(GetUserRatings(store, target), RatingsOfKeys(store, keys), PearsonWith(sqrt), KeyFunction())
    ensures forall p :: p in GetSimilarUsers(store, target, keys, map[], sqrt).pairs ==>
              p.0 in keys && p.1 == Pearson(GetUserRatings(store, target), RatingsOfKey(store, p.0), sqrt)
  {
    var t := GetUserRatings(store, target);
    var vs := RatingsOfKeys(store, keys);
    CalculateSimilarityMemoises(sqrt);
    ScoresExact(target, t, keys, vs, SimilarityRoutine(sqrt), PearsonWith(sqrt), KeyFunction());
    var r := ScanOf(store, target, keys, map[], sqrt);
    var top := GetSimilarUsers(store, target, keys, map[], sqrt).pairs;
    forall p | p in top ensures p.0 in keys && p.1 == Pearson(t, RatingsOfKey(store, p.0), sqrt) {
      assert p in multiset(top);
      var j := IndexOfPair(r.pairs, p);
      assert p.1 == PearsonWith(sqrt)(t, vs[j]);
    }
  }
}
