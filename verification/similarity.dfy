/** calculate_similarity (app/recommendations.py:23-66): a Pearson-style
    correlation over the items two users both rated, memoised in a
    caller-owned cache keyed by the two users' sorted item-id lists. */
module Similarity {
  import opened Text
  import opened SetOrder
  import opened PyDict
  import opened RealSum

  /** `math.sqrt`, left abstract: on the non-negative reals it is non-negative
      and is zero exactly at zero. */
  ghost predicate IsSqrt(sqrt: real -> real)
  {
    forall x :: 0.0 <= x ==> 0.0 <= sqrt(x) && (sqrt(x) == 0.0 <==> x == 0.0)
  }

  /** The key of line 41: `sorted(user1_ratings.keys())` followed by
      `sorted(user2_ratings.keys())`. The formatted string and this pair
      determine each other. */
  datatype CacheKey = CacheKey(first: seq<ItemId>, second: seq<ItemId>)

  type Cache = map<CacheKey, real>

  /** The returned score together with the cache as the call leaves it. */
  datatype Scored = Scored(score: real, cache: Cache)

  ghost function KeyOf(a: Dict, b: Dict): CacheKey
  {
    CacheKey(SortedIds(a.entries.Keys), SortedIds(b.entries.Keys))
  }

  /** Two calls share a cache entry exactly when their first arguments rated
      the same items and so did their second arguments; the ratings
      themselves play no part. */
  lemma {:induction false} KeyCollision(a: Dict, b: Dict, c: Dict, d: Dict)
    ensures KeyOf(a, b) == KeyOf(c, d) <==> a.entries.Keys == c.entries.Keys && b.entries.Keys == d.entries.Keys
  {
    SortedIdsInjective(a.entries.Keys, c.entries.Keys);
    SortedIdsInjective(b.entries.Keys, d.entries.Keys);
  }

  /** Swapping the arguments keeps the key only when both users rated the
      same set of items. */
  lemma {:induction false} KeyDependsOnArgumentOrder(a: Dict, b: Dict)
    ensures KeyOf(a, b) == KeyOf(b, a) <==> a.entries.Keys == b.entries.Keys
  {
    KeyCollision(a, b, b, a);
  }

  function RateOf(d: Dict): ItemId -> real
  {
    x => Get(d, x)
  }

  function ProductOf(a: Dict, b: Dict): ItemId -> real
  {
    x => Get(a, x) * Get(b, x)
  }

  /** `set(user1_ratings) & set(user2_ratings)` (line 47). */
  function CommonItems(a: Dict, b: Dict): set<ItemId>
  {
    a.entries.Keys * b.entries.Keys
  }

  /** `product_sum - user1_ratings_sum * user2_ratings_sum / num_ratings` (line 58). */
  ghost function Numerator(a: Dict, b: Dict): real
    requires CommonItems(a, b) != {}
  {
    var c := CommonItems(a, b);
    Centred(Sum(c, ProductOf(a, b)), Sum(c, RateOf(a)), Sum(c, RateOf(b)), |c| as real)
  }

  /** The argument of `math.sqrt` on lines 59-60. */
  ghost function SqrtArgument(a: Dict, b: Dict): real
    requires CommonItems(a, b) != {}
  {
    Spread(CommonItems(a, b), RateOf(a), RateOf(b))
  }

  /** The product of the two users' squared deviations over `c`. */
  ghost function Spread(c: set<ItemId>, f: ItemId -> real, g: ItemId -> real): real
    requires c != {}
  {
    SquaredDeviation(c, f) * SquaredDeviation(c, g)
  }

  /** Whether a cache miss reaches line 65 and stores its result: there are
      common items and the denominator is not zero. */
  ghost predicate Stores(a: Dict, b: Dict, sqrt: real -> real)
  {
    CommonItems(a, b) != {} && sqrt(SqrtArgument(a, b)) != 0.0
  }

  /** The value a cache miss computes: 0 without common items or with a zero
      denominator, the correlation otherwise. */
  ghost function Pearson(a: Dict, b: Dict, sqrt: real -> real): real
  {
    if CommonItems(a, b) == {} then 0.0
    else
      var denominator := sqrt(SqrtArgument(a, b));
      if denominator == 0.0 then 0.0 else Numerator(a, b) / denominator
  }

  /** calculate_similarity(user1_ratings, user2_ratings, similarity_cache). */
  ghost function CalculateSimilarity(a: Dict, b: Dict, cache: Cache, sqrt: real -> real): (r: Scored)
    // a hit returns the cached value and leaves the cache alone (lines 41-45)
    ensures KeyOf(a, b) in cache ==> r == Scored(cache[KeyOf(a, b)], cache)
    // a miss returns the freshly computed value
    ensures KeyOf(a, b) !in cache ==> r.score == Pearson(a, b, sqrt)
    // the only possible change is one new entry: the returned value under this call's key
    ensures r.cache == cache || (KeyOf(a, b) !in cache && r.cache == cache[KeyOf(a, b) := r.score])
    // and that change happens exactly when a miss gets past both early returns
    ensures r.cache != cache <==> KeyOf(a, b) !in cache && Stores(a, b, sqrt)
  {
    var key := KeyOf(a, b);
    if key in cache then Scored(cache[key], cache)
    else
      var common := CommonItems(a, b);
      if |common| == 0 then Scored(0.0, cache)
      else
        var denominator := sqrt(SqrtArgument(a, b));
        if denominator == 0.0 then Scored(0.0, cache)
        else
          var score := Numerator(a, b) / denominator;
          Scored(score, cache[key := score])
  }

  /** calculate_similarity with `math.sqrt` fixed, as get_similar_users
      calls it: (first ratings, second ratings, cache) to (score, cache). */
  ghost function SimilarityRoutine(sqrt: real -> real): (Dict, Dict, Cache) -> Scored
  {
    (a, b, c) => CalculateSimilarity(a, b, c, sqrt)
  }

  /** `sim` memoises `formula` under `key`: a hit returns the stored value and
      changes nothing; a miss returns `formula` and at most stores it. */
  ghost predicate Memoises(sim: (Dict, Dict, Cache) -> Scored, formula: (Dict, Dict) -> real, key: (Dict, Dict) -> CacheKey)
  {
    forall a, b, c ::
      && (key(a, b) in c ==> sim(a, b, c) == Scored(c[key(a, b)], c))
      && (key(a, b) !in c ==> sim(a, b, c).score == formula(a, b))
      && (sim(a, b, c).cache == c || (key(a, b) !in c && sim(a, b, c).cache == c[key(a, b) := formula(a, b)]))
  }

  ghost function PearsonWith(sqrt: real -> real): (Dict, Dict) -> real
  {
    (a, b) => Pearson(a, b, sqrt)
  }

  ghost function KeyFunction(): (Dict, Dict) -> CacheKey
  {
    (a, b) => KeyOf(a, b)
  }

  /** calculate_similarity is a memoised Pearson score keyed by the sorted
      id lists. */
  lemma {:induction false} CalculateSimilarityMemoises(sqrt: real -> real)
    ensures Memoises(SimilarityRoutine(sqrt), PearsonWith(sqrt), KeyFunction())
  {
  }

  /** Every entry of the old cache is still there with the same value. */
  ghost predicate Extends(old_cache: Cache, new_cache: Cache)
  {
    forall k :: k in old_cache ==> k in new_cache && new_cache[k] == old_cache[k]
  }

  /** The cache only grows: nothing is evicted or overwritten. */
  lemma {:induction false} CacheOnlyGrows(a: Dict, b: Dict, cache: Cache, sqrt: real -> real)
    ensures Extends(cache, CalculateSimilarity(a, b, cache, sqrt).cache)
    ensures CalculateSimilarity(a, b, cache, sqrt).cache.Keys <= cache.Keys + {KeyOf(a, b)}
  {
    CalculateSimilarityMemoises(sqrt);
    MemoisedCacheGrows(SimilarityRoutine(sqrt), PearsonWith(sqrt), KeyFunction(), a, b, cache);
  }

  /** Any memoised routine only ever adds its own key to the cache. */
  lemma {:induction false} MemoisedCacheGrows(sim: (Dict, Dict, Cache) -> Scored, formula: (Dict, Dict) -> real, key: (Dict, Dict) -> CacheKey,
                           a: Dict, b: Dict, cache: Cache)
    requires Memoises(sim, formula, key)
    ensures Extends(cache, sim(a, b, cache).cache)
    ensures sim(a, b, cache).cache.Keys <= cache.Keys + {key(a, b)}
  {
    var r := sim(a, b, cache);
    if r.cache != cache {
      assert r.cache == cache[key(a, b) := formula(a, b)];
    }
  }

  /** Lines 47-50: without common items the result is 0 and nothing is cached. */
  lemma {:induction false} NoCommonItems(a: Dict, b: Dict, cache: Cache, sqrt: real -> real)
    requires CommonItems(a, b) == {}
    ensures CalculateSimilarity(a, b, cache, sqrt).cache == cache
    ensures KeyOf(a, b) !in cache ==> CalculateSimilarity(a, b, cache, sqrt).score == 0.0
  {
  }

  /** Lines 58-62: with common items, the denominator is zero exactly when one
      side's ratings do not vary over them; then the result is 0 and nothing
      is cached. */
  lemma {:induction false} ZeroDenominator(a: Dict, b: Dict, cache: Cache, sqrt: real -> real)
    requires IsSqrt(sqrt)
    requires CommonItems(a, b) != {}
    ensures sqrt(SqrtArgument(a, b)) == 0.0 <==>
            SquaredDeviation(CommonItems(a, b), RateOf(a)) == 0.0 || SquaredDeviation(CommonItems(a, b), RateOf(b)) == 0.0
    ensures sqrt(SqrtArgument(a, b)) == 0.0 ==>
            CalculateSimilarity(a, b, cache, sqrt).cache == cache
            && (KeyOf(a, b) !in cache ==> CalculateSimilarity(a, b, cache, sqrt).score == 0.0)
  {
    var c := CommonItems(a, b);
    SquaredDeviationNonNegative(c, RateOf(a));
    SquaredDeviationNonNegative(c, RateOf(b));
    NonNegativeProduct(SquaredDeviation(c, RateOf(a)), SquaredDeviation(c, RateOf(b)));
  }

  lemma {:induction false} NonNegativeProduct(x: real, y: real)
    requires 0.0 <= x && 0.0 <= y
    ensures 0.0 <= x * y
    ensures x * y == 0.0 <==> x == 0.0 || y == 0.0
  {
    if x != 0.0 && y != 0.0 { assert 0.0 < x * y; }
  }

  /** A user whose ratings are constant over the common items gets 0. */
  lemma {:induction false} ConstantRatingsScoreZero(a: Dict, b: Dict, sqrt: real -> real, rating: real)
    requires IsSqrt(sqrt)
    requires CommonItems(a, b) != {}
    requires forall x :: x in CommonItems(a, b) ==> Get(a, x) == rating
    ensures Pearson(a, b, sqrt) == 0.0 && Pearson(b, a, sqrt) == 0.0
    ensures !Stores(a, b, sqrt)
  {
    ConstantHasNoDeviation(CommonItems(a, b), RateOf(a), rating);
    ZeroDenominator(a, b, map[], sqrt);
    PearsonSymmetric(a, b, sqrt);
  }

  /** The formula over the common items does not depend on argument order. */
  lemma {:induction false} PearsonSymmetric(a: Dict, b: Dict, sqrt: real -> real)
    ensures Pearson(a, b, sqrt) == Pearson(b, a, sqrt)
    ensures Stores(a, b, sqrt) <==> Stores(b, a, sqrt)
  {
    assert CommonItems(b, a) == CommonItems(a, b);
    if CommonItems(a, b) != {} {
      NumeratorSymmetric(a, b);
      SqrtArgumentSymmetric(a, b);
    }
  }

  lemma {:induction false} NumeratorSymmetric(a: Dict, b: Dict)
    requires CommonItems(a, b) != {}
    ensures CommonItems(b, a) == CommonItems(a, b)
    ensures Numerator(a, b) == Numerator(b, a)
  {
    var c := CommonItems(a, b);
    assert CommonItems(b, a) == c;
    SumExt(c, ProductOf(a, b), ProductOf(b, a));
    CentredSymmetric(Sum(c, ProductOf(a, b)), Sum(c, RateOf(a)), Sum(c, RateOf(b)), |c| as real);
  }

  lemma {:induction false} ProductCommutes(x: real, y: real)
    ensures x * y == y * x
  {
  }

  lemma {:induction false} SqrtArgumentSymmetric(a: Dict, b: Dict)
    requires CommonItems(a, b) != {}
    ensures CommonItems(b, a) == CommonItems(a, b)
    ensures SqrtArgument(a, b) == SqrtArgument(b, a)
  {
    assert CommonItems(b, a) == CommonItems(a, b);
    SpreadSymmetric(CommonItems(a, b), RateOf(a), RateOf(b));
  }

  lemma {:induction false} SpreadSymmetric(c: set<ItemId>, f: ItemId -> real, g: ItemId -> real)
    requires c != {}
    ensures Spread(c, f, g) == Spread(c, g, f)
  {
    ProductCommutes(SquaredDeviation(c, f), SquaredDeviation(c, g));
  }

  /** With an empty cache the two argument orders give the same score, though
      each stores it under its own key. */
  lemma {:induction false} SymmetricOnEmptyCache(a: Dict, b: Dict, sqrt: real -> real)
    ensures CalculateSimilarity(a, b, map[], sqrt).score == CalculateSimilarity(b, a, map[], sqrt).score
  {
    PearsonSymmetric(a, b, sqrt);
  }

  /** `math.sqrt` proper: also squares back to its argument. */
  ghost predicate IsExactSqrt(sqrt: real -> real)
  {
    IsSqrt(sqrt) && forall x :: 0.0 <= x ==> sqrt(x) * sqrt(x) == x
  }

  /** A user whose ratings vary is perfectly correlated with itself. */
  lemma {:induction false} SelfSimilarityIsOne(a: Dict, sqrt: real -> real)
    requires IsExactSqrt(sqrt)
    requires a.entries != map[]
    requires SquaredDeviation(a.entries.Keys, RateOf(a)) != 0.0
    ensures Pearson(a, a, sqrt) == 1.0
  {
    var c := CommonItems(a, a);
    assert c == a.entries.Keys;
    assert c != {} by { var x :| x in a.entries; assert x in c; }
    var v := SquaredDeviation(c, RateOf(a));
    SquaredDeviationNonNegative(c, RateOf(a));
    SelfNumerator(a);
    assert SqrtArgument(a, a) == v * v;
    var root := sqrt(v * v);
    RootOfSquare(v, root);
    PearsonUnfolds(a, a, sqrt);
  }

  /** A user's own numerator is its squared deviation. */
  lemma {:induction false} SelfNumerator(a: Dict)
    requires CommonItems(a, a) != {}
    ensures Numerator(a, a) == SquaredDeviation(CommonItems(a, a), RateOf(a))
  {
    SumExt(CommonItems(a, a), ProductOf(a, a), SquareOf(RateOf(a)));
  }

  /** Past both early returns, the score is the numerator over the root. */
  lemma {:induction false} PearsonUnfolds(a: Dict, b: Dict, sqrt: real -> real)
    requires Stores(a, b, sqrt)
    ensures Pearson(a, b, sqrt) == Numerator(a, b) / sqrt(SqrtArgument(a, b))
  {
  }

  lemma {:induction false} ZeroFactor(x: real, y: real)
    requires x * y == 0.0 && y != 0.0
    ensures x == 0.0
  {
  }

  lemma {:induction false} RootOfSquare(v: real, root: real)
    requires 0.0 < v && 0.0 <= root && root * root == v * v
    ensures root == v && v / root == 1.0
  {
    assert (v - root) * (v + root) == v * v - root * root;
    ZeroFactor(v - root, v + root);
    assert v / v == 1.0;
  }
}
