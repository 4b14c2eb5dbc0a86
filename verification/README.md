# Collaborative-filtering engine of a Redis-backed movie recommender

This project models the recommendation core in `app/recommendations.py`.
Redis holds each user's ratings as a sorted set `ratings:{user_id}` (movie id
to rating) and each movie's title in the hash `movie:{movie_id}`.
`recommend_movies` runs in three stages:

- `get_similar_users` scores every `ratings:*` key against the user with a
  Pearson-style correlation (`calculate_similarity`), memoised in a cache
  dict that the caller owns. It keeps the ten best pairs.
- The loop on lines 120-131 adds `similarity * rating` to a
  `defaultdict(float)` for every movie a counting neighbour rated and the
  user did not. A neighbour counts when the user id decoded from its key
  differs from the user's own.
- The best `num_recommendations` movie ids are mapped to titles;
  `get_title_from_ids` skips ids that have no title.

`add_user_rating` is a ZADD into the user's sorted set.

The model is a set of pure functions over immutable values:

- The store is a pair of maps: sorted sets and hashes, each under its full
  Redis key.
- A Python dict is an insertion order plus a map. Iteration order is modelled
  because it decides which of several equal scores a stable sort puts first.
- The ZRANGE reply is ordered by score, then by member in code-point order.
- `sorted()` is a stable insertion sort on pairs, and `[:n]` is a Python slice
  (a negative `n` included).
- The similarity cache is a map threaded in and out of every call.

Ratings and scores are exact reals, and `math.sqrt` is a parameter.
Everything that depends on a sum over a set is a ghost definition.

Two behaviours of the code are modelled as written:

- Line 84 compares a raw key (bytes, since the client does not decode
  responses) with a formatted str. Under Python 3 these are never equal, so
  the target's own key is scored like every other key. It can therefore take
  one of the ten neighbour places. Line 125, on decoded ids, is what keeps
  the user's own ratings out of the scores.
- The cache key on line 41 is built from the two users' sorted item-id lists,
  in argument order. Swapping the arguments changes the key unless both
  users rated the same set of items. Any two pairs of users whose rated-item
  sets match share a key, whatever their ratings.

Three more behaviours of the code are easy to miss:

- The cache key depends on argument order
  (`Similarity.KeyDependsOnArgumentOrder`).
- Without common items, lines 49-50 return before line 65 stores anything
  (`Similarity.NoCommonItems`).
- Line 131 creates a `defaultdict` entry even when the added product is
  zero. So every movie rated by a counting neighbour with similarity 0
  becomes a candidate (`Recommend.ZeroSimilarityStillCandidate`).

Modules, in dependency order:

- `Text` (text.dfy): key formats, `split(":")[1]`, bytes versus str, and
  code-point order.
- `SetOrder` (set_order.dfy): listing a finite set in ascending order.
- `PyDict` (pydict.dfy): the insertion-ordered dict.
- `RedisStore` (redis_store.dfy): ZRANGE, HGET, KEYS and ZADD.
- `RealSum` (real_sum.dfy): sums over sets and the variance identity.
- `Similarity` (similarity.dfy): `calculate_similarity`.
- `Ranking` (ranking.dfy): the stable descending sort and the slice.
- `Neighbours` (neighbours.dfy): `get_similar_users`.
- `Titles` (titles.dfy): `get_title_from_ids`.
- `Recommend` (recommend.dfy): `recommend_movies`.

## Model

| member | source | states |
|---|---|---|
| Text.RatingsKeyHasColon | app/recommendations.py:85 | a key matched by `ratings:*` contains ':', so `split(":")[1]` never raises IndexError |
| Text.SecondField | app/recommendations.py:85 | `s.split(":")[1]` is the text after the first ':' that runs up to the next ':' or to the end, and contains no ':' |
| Text.DecodeUserId | app/recommendations.py:122 | the id read back from a rating key is the text after `ratings:` up to the next ':' (or to the end) |
| Text.FirstColonOfRatingsKey | app/recommendations.py:85 | the first ':' of a rating key is the one that ends `ratings:` |
| Text.DecodeRatingsKey | app/recommendations.py:122 | the id decoded from `ratings:{u}` is `u` exactly when `u` has no ':'; otherwise it is the part of `u` before its first ':' |
| Text.BytesNeverEqualStr | app/recommendations.py:84 | under Python 3 a bytes value never equals a str value; two bytes values are equal exactly when their contents are |
| Text.LexTotal | app/recommendations.py:37-38 | code-point order (str `<`, and Redis member order) relates any two distinct strings |
| Text.LexTransitive | app/recommendations.py:37-38 | code-point order is transitive |
| Text.LexIrreflexive | app/recommendations.py:37-38 | no string is below itself in code-point order |
| SetOrder.Ascending | app/recommendations.py:37-38 | a finite set is listed in strictly ascending order, each element exactly once |
| SetOrder.SortedIds | app/recommendations.py:37-38 | `sorted(ratings.keys())` lists exactly the rated ids in strictly ascending order |
| SetOrder.SortedIdsInjective | app/recommendations.py:37-41 | two sorted id lists are equal exactly when the sets they list are equal |
| PyDict.AddTo | app/recommendations.py:131 | `d[k] += delta` on a `defaultdict(float)`: `k` gains `delta` from an implicit 0.0 and becomes a key; no other key changes; a new key goes to the end of iteration order |
| PyDict.ItemsExact | app/recommendations.py:127 | `d.items()` holds each (key, value) entry once, and nothing else |
| RedisStore.ZOrderStrictTotal | app/recommendations.py:18 | Redis sorted-set order (score, then member) is a strict total order on members |
| RedisStore.ZRange | app/recommendations.py:18 | `ZRANGE key 0 -1 WITHSCORES` returns every member once with its score, ascending by score and then by member |
| RedisStore.GetUserRatings | app/recommendations.py:8-19 | the dict holds exactly the user's sorted set (empty for a user without ratings) and iterates in reply order |
| RedisStore.ReplyDict | app/recommendations.py:19 | the dict comprehension over a reply with distinct members keeps every pair and its order |
| RedisStore.GetTitle | app/recommendations.py:98-99 | a title is found exactly when `movie:{id}` has a non-empty `title` field, and the title found is that field's value |
| RedisStore.AddUserRating | app/recommendations.py:149 | ZADD sets one member of the user's sorted set, creating the set if needed; no other key or hash changes |
| RedisStore.RatingVisibleAfterAdd | app/recommendations.py:139-152 | after `add_user_rating`, that user's ratings are the old ones with the new rating set, and every other user's ratings are unchanged |
| RealSum.SumPick | app/recommendations.py:52-56 | `sum([... for movie in common_movies])` does not depend on the set's iteration order |
| RealSum.SquaredDeviationNonNegative | app/recommendations.py:59-60 | each factor under `math.sqrt` is a sum of squared deviations, so it is never negative |
| RealSum.ConstantHasNoDeviation | app/recommendations.py:59-60 | ratings that are constant over the common items make that factor zero |
| RealSum.DeviationExpanded | app/recommendations.py:59-60 | the sum of squared deviations from any mean expands to squares minus twice the mean times the sum, plus n times the mean squared |
| Similarity.CalculateSimilarity | app/recommendations.py:23-66 | a hit returns the cached value and leaves the cache unchanged; a miss returns the formula's value; the only possible cache change adds the returned value under this call's key; that change happens exactly on a miss with common items and a non-zero denominator |
| Similarity.CalculateSimilarityMemoises | app/recommendations.py:41-65 | the routine memoises the Pearson formula under the sorted-id-lists key, for every input and cache |
| Similarity.CacheOnlyGrows | app/recommendations.py:42-66 | no existing cache entry is removed or overwritten, and the only key that can appear is this call's |
| Similarity.MemoisedCacheGrows | app/recommendations.py:42-66 | any routine that memoises a formula under a key function only adds its own key to the cache |
| Similarity.KeyCollision | app/recommendations.py:37-41 | two calls share a cache key exactly when their first arguments rated the same item set and so did their second arguments |
| Similarity.KeyDependsOnArgumentOrder | app/recommendations.py:37-41 | swapping the arguments keeps the key exactly when both users rated the same item set |
| Similarity.NoCommonItems | app/recommendations.py:47-50 | without common items the cache is unchanged and, on a miss, the result is 0 |
| Similarity.ZeroDenominator | app/recommendations.py:58-62 | the denominator is zero exactly when one user's ratings do not vary over the common items; then the cache is unchanged and, on a miss, the result is 0 |
| Similarity.ConstantRatingsScoreZero | app/recommendations.py:59-62 | a user with constant ratings over the common items scores 0 against the other user in both argument orders, and nothing is cached |
| Similarity.PearsonSymmetric | app/recommendations.py:47-64 | the formula gives the same value in both argument orders, and stores in one order exactly when it stores in the other |
| Similarity.NumeratorSymmetric | app/recommendations.py:56-58 | the numerator does not depend on argument order |
| Similarity.SqrtArgumentSymmetric | app/recommendations.py:59-60 | the argument of `math.sqrt` does not depend on argument order |
| Similarity.SymmetricOnEmptyCache | app/recommendations.py:23-66 | starting from an empty cache, both argument orders return the same score |
| Similarity.SelfNumerator | app/recommendations.py:56-58 | a user's numerator against itself is its own sum of squared deviations |
| Similarity.PearsonUnfolds | app/recommendations.py:58-64 | past both early returns, the score is the numerator over the square root |
| Similarity.SelfSimilarityIsOne | app/recommendations.py:52-64 | with an exact square root, a user whose ratings vary scores 1 against itself |
| Ranking.Insert | app/recommendations.py:90 | inserting into a non-increasing sequence keeps it non-increasing and adds exactly the new pair |
| Ranking.InsertTiers | app/recommendations.py:90 | insertion puts the new pair at the front of its own score tier and leaves every other tier unchanged |
| Ranking.SortDescending | app/recommendations.py:90 | `sorted(..., key=score, reverse=True)` returns a non-increasing permutation of its input |
| Ranking.SortIsStable | app/recommendations.py:134 | pairs with equal scores keep their input order |
| Ranking.SortKeepsDistinctKeys | app/recommendations.py:90 | sorting never makes two pairs share a key |
| Ranking.PyPrefix | app/recommendations.py:135 | `s[:n]` is a prefix of `s` with `min(n, len(s))` elements, or for negative `n` all but the last `-n` |
| Ranking.PrefixOfDescendingIsTop | app/recommendations.py:134-135 | any prefix of a descending sort holds pairs of the input, non-increasing, and no left-out pair scores above a kept one |
| Ranking.TopN | app/recommendations.py:90 | the slice of the sort holds the best pairs of the input, best first, as many as the slice allows |
| Neighbours.TargetNotSkipped | app/recommendations.py:84 | the test on line 84 keeps every key, including the target's own |
| Neighbours.ScoreKeys | app/recommendations.py:83-87 | the loop yields one pair per input key, in input order, each carrying that key |
| Neighbours.TargetIsScored | app/recommendations.py:84-87 | when the target's own key is in the reply, it is scored like any other key |
| Neighbours.GetSimilarUsers | app/recommendations.py:69-91 | `min(10, len(keys))` pairs, the best of the scan, non-increasing by score, each carrying an input key, and a prefix of the stable descending sort of the scan (so ties keep scan order); the cache keeps every entry it had |
| Neighbours.ScanExtends | app/recommendations.py:83-87 | threading the cache through the loop never removes or overwrites an entry |
| Neighbours.NeighboursDistinct | app/recommendations.py:83-90 | when the input keys are distinct, as a KEYS reply's are, no key occurs twice among the neighbours |
| Neighbours.FirstStep | app/recommendations.py:86 | after one call every cache entry is still the formula's value for a vector seen so far, and the score is this vector's own or one shared through the key |
| Neighbours.ScoresFreshOrShared | app/recommendations.py:83-87 | each score is its own user's formula value, or that of an earlier user with the same cache key |
| Neighbours.FreshOrSharedCons | app/recommendations.py:83-87 | the fresh-or-shared property of a scan follows from that of its first call and that of its rest |
| Neighbours.ScoresExact | app/recommendations.py:83-87 | from an empty cache, and when no two users share a key with different formula values, every score is its own user's |
| Neighbours.NeighbourScoresExact | app/recommendations.py:81-91 | from an empty cache and without such a collision, each returned pair carries its key's own Pearson score |
| Titles.GetTitleFromIds | app/recommendations.py:94-101 | never more titles than ids, no empty title, and none dropped exactly when every id has a title |
| Titles.TitlesOfConcat | app/recommendations.py:96-101 | the titles of a concatenation are the titles of each part, in order |
| Titles.TitlesKeepOrder | app/recommendations.py:96-101 | the titles are those of exactly the ids that have one, at strictly increasing positions, in id order |
| Titles.AllTitled | app/recommendations.py:96-101 | when every id has a title, the result is those titles one for one |
| Recommend.AddRatings | app/recommendations.py:127-131 | over a neighbour's (id, rating) pairs, every id outside the excluded set becomes a key and gains the weight times its ratings; excluded ids and all others are untouched |
| Recommend.ItemsWeightedTotal | app/recommendations.py:127 | over `d.items()` the weighted total of an id is the weight times its value in `d` |
| Recommend.AddNeighbour | app/recommendations.py:126-131 | one neighbour adds similarity × rating to every movie it rated outside the user's ratings, and makes each of them a candidate |
| Recommend.Step | app/recommendations.py:122-131 | one outer-loop pass adds its neighbour's part exactly when the decoded id differs from the user's, and nothing otherwise |
| Recommend.Accumulate | app/recommendations.py:120-131 | the loop keeps the `defaultdict` well formed and only appends to its iteration order: movies already present keep their places (its keys and sums are in Recommend.AccumulateKeys and Recommend.AccumulateSums) |
| Recommend.AccumulateKeys | app/recommendations.py:118-131 | the loop creates exactly the movies rated by a counting neighbour and not by the user |
| Recommend.AccumulateSums | app/recommendations.py:118-131 | each movie not rated by the user ends with the sum of similarity × rating over the counting neighbours; the user's movies get nothing |
| Recommend.MovieScores | app/recommendations.py:118-131 | `movie_scores` holds exactly the candidates, each with its sum over the counting neighbours |
| Recommend.NeighbourPart | app/recommendations.py:120-131 | each neighbour, wherever it stands, adds exactly its own part to a score |
| Recommend.NeighbourKeys | app/recommendations.py:120-131 | each neighbour, wherever it stands, adds exactly the movies it rated (if it counts) to the candidates |
| Recommend.NegativeSimilarityLowersScore | app/recommendations.py:120-131 | a counting neighbour with negative similarity is not filtered out: it lowers the score of every movie it rated positively |
| Recommend.ZeroSimilarityStillCandidate | app/recommendations.py:127-131 | a counting neighbour with similarity 0 still makes its movies candidates, and adds nothing to their scores |
| Recommend.SkippedNeighbourAddsNothing | app/recommendations.py:125 | a neighbour whose decoded id is the user's adds neither candidates nor score |
| Recommend.OwnKeyDoesNotCount | app/recommendations.py:122-125 | for a user id without ':', the user's own key does not count |
| Recommend.ColonInUserId | app/recommendations.py:122-125 | for every user id, line 125 skips the user's own key exactly when the id has no ':'; an id with ':' is read back cut at it, so its own key counts as another user's |
| Recommend.RankingOfTop | app/recommendations.py:134-135 | the sliced sort of `movie_scores.items()` names distinct movies with their scores, and no left-out movie beats a kept one |
| Recommend.ScoresRank | app/recommendations.py:134-135 | ids drawn that way from `movie_scores` rank the candidates and contain no movie the user rated |
| Recommend.RankCandidates | app/recommendations.py:133-135 | the ids are distinct candidates, non-increasing by score, no left-out candidate beats a kept one, as many as `[:n]` allows, and none rated by the user |
| Recommend.KeysReplyAreRatingsKeys | app/recommendations.py:116 | every key of a `KEYS ratings:*` reply is a rating key |
| Recommend.NeighboursOf | app/recommendations.py:115-117 | the neighbours are `min(10, len(keys))` rating keys, each once |
| Recommend.RecommendIds | app/recommendations.py:115-135 | `recommended_movie_ids` ranks the candidates of the user's neighbours and holds nothing the user rated |
| Recommend.RecommendMovies | app/recommendations.py:104-137 | at most `num_recommendations` titles, no more than there are ids, none empty |
| Recommend.RecommendedTitles | app/recommendations.py:134-137 | when every candidate has a title, the result is the titles of the recommended ids one for one, best first |
| Recommend.TitlesFollowRanking | app/recommendations.py:94-101 | the titles of a ranking run from the best score down, and exactly the ids without a title are missing |
| Recommend.RecommendedTitlesInOrder | app/recommendations.py:104-137 | the titles `recommend_movies` returns are those of its recommended ids that have one, in ranking order from the best score down; exactly the ids without a title are missing |
| Recommend.RankedSubsequence | app/recommendations.py:134-136 | ranked ids picked at increasing positions stay non-increasing by score |

## Left out

- Floating point: ratings and scores are exact reals. Rounding, NaN and
  infinities are not modelled. The sums over the common items therefore do
  not depend on iteration order, while Python's float sums can.
- `math.sqrt` is a parameter. The lemmas assume only that it is
  non-negative on non-negative arguments and zero exactly at zero. The
  self-similarity lemma also assumes that it squares back to its argument.
- The `int` 0 returned on lines 50 and 62 is modelled as the real 0.0; the
  model does not distinguish `0` from `0.0`.
- Redis replies are bytes. Decoding them as UTF-8 is the identity, so a
  member or key stands for its decoded text. Code-point order on those
  strings stands for Redis's byte order on their UTF-8 encodings; the two
  agree.
- `KEYS ratings:*` returns keys in an unspecified order. The reply is a
  parameter, constrained only to list each rating key of the store once.
- The cache key on line 41 is a formatted string. It is modelled as the pair
  of sorted id lists that it prints. Python's `repr` of a list of strings
  quotes and escapes every element, so the string and the pair determine
  each other.
- The store reads inside the loops (lines 85, 126 and 130) are hoisted: the
  store does not change during a call, so reading up front gives the same
  values. Line 130 re-reads the user's ratings for every movie and always
  gets the same set.
- The `isinstance` tests on lines 124 and 129 always take the str branch,
  because ids are modelled as decoded text.
- The call to `recommend_movies` on line 152 discards its result and changes
  nothing in the store. It is not part of `AddUserRating`.
- Neighbours.ScoresExact and Neighbours.NeighbourScoresExact assume that
  users sharing a cache key share a formula value. Without that, a score
  may be another user's (Neighbours.ScoresFreshOrShared states what holds
  then).
- Recommend.RecommendMovies states only bounds on the titles. Their content
  and order are in Recommend.RecommendedTitlesInOrder (and, one title per
  id when every id has a title, in Recommend.RecommendedTitles).
- The default `num_recommendations=5` of line 104 is not a separate
  member: the model always takes the count as a parameter, and the only
  call that uses the default (line 152) discards its result.
- The bound [-1, 1] on the similarity is not proved; the code does not
  rely on it.
- The Redis client, connection set-up and every other file of the
  repository (routes, templates, data loading, encryption) are not part of
  this model.
