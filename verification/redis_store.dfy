/** The Redis data the engine touches, as immutable maps, and the store calls
    of app/recommendations.py over it: ZRANGE (get_user_ratings), HGET of a
    title, KEYS `ratings:*`, and ZADD (add_user_rating). */
module RedisStore {
  import opened Text
  import opened SetOrder
  import opened PyDict

  datatype Option<T> = None | Some(value: T)

  /** Sorted sets (member to score) and hashes (field to value), each under
      its full Redis key. */
  datatype Store = Store(zsets: map<string, map<ItemId, real>>, hashes: map<string, map<string, string>>)

  /** The members and scores of a sorted set; a missing key reads as empty. */
  function ZSet(store: Store, key: string): map<ItemId, real>
  {
    if key in store.zsets then store.zsets[key] else map[]
  }

  function ScoreOf(z: map<ItemId, real>, m: ItemId): real
  {
    if m in z then z[m] else 0.0
  }

  /** Redis's sorted-set order: by score, equal scores by member. */
  function ZOrder(z: map<ItemId, real>): (ItemId, ItemId) -> bool
  {
    (a, b) => ScoreOf(z, a) < ScoreOf(z, b) || (ScoreOf(z, a) == ScoreOf(z, b) && LexLess(a, b))
  }

  lemma {:induction false} ZOrderStrictTotal(z: map<ItemId, real>)
    ensures StrictTotal(ZOrder(z))
  {
    var less := ZOrder(z);
    forall x: ItemId ensures !less(x, x) { LexIrreflexive(x); }
    forall x: ItemId, y: ItemId | x != y ensures less(x, y) || less(y, x) { LexTotal(x, y); }
    forall x: ItemId, y: ItemId, w: ItemId | less(x, y) && less(y, w) ensures less(x, w) {
      if ScoreOf(z, x) == ScoreOf(z, y) == ScoreOf(z, w) { LexTransitive(x, y, w); }
    }
  }

  /** The members of a sorted set in Redis order. */
  ghost function ZMembers(z: map<ItemId, real>): (ms: seq<ItemId>)
    ensures |ms| == |z|
    ensures forall i :: 0 <= i < |ms| ==> ms[i] in z
    ensures forall m :: m in z ==> m in ms
    ensures forall i, j :: 0 <= i < j < |ms| ==>
              ScoreOf(z, ms[i]) < ScoreOf(z, ms[j]) || (ScoreOf(z, ms[i]) == ScoreOf(z, ms[j]) && LexLess(ms[i], ms[j]))
  {
    ZOrderStrictTotal(z);
    Ascending(z.Keys, ZOrder(z))
  }

  /** Each listed member paired with its score. */
  function WithScores(z: map<ItemId, real>, ms: seq<ItemId>): (r: seq<(ItemId, real)>)
    requires forall i :: 0 <= i < |ms| ==> ms[i] in z
    ensures |r| == |ms|
    ensures forall i :: 0 <= i < |r| ==> r[i].0 == ms[i] && r[i].0 in z && r[i].1 == z[ms[i]]
  {
    seq(|ms|, i requires 0 <= i < |ms| => (ms[i], z[ms[i]]))
  }

  /** The reply of `ZRANGE key 0 -1 WITHSCORES`: every member once, with its
      score, ascending by score and then by member. */
  ghost function ZRange(z: map<ItemId, real>): (r: seq<(ItemId, real)>)
    ensures |r| == |z|
    ensures forall i :: 0 <= i < |r| ==> r[i].0 in z && r[i].1 == z[r[i].0]
    ensures forall m :: m in z ==> exists i :: 0 <= i < |r| && r[i].0 == m
    ensures forall i, j :: 0 <= i < j < |r| ==>
              r[i].1 < r[j].1 || (r[i].1 == r[j].1 && LexLess(r[i].0, r[j].0))
  {
    var ms := ZMembers(z);
    var r := WithScores(z, ms);
    ScoredOrder(z, ms, r);
    r
  }

  /** Pairing members with their scores keeps the members' Redis order. */
  lemma {:induction false} ScoredOrder(z: map<ItemId, real>, ms: seq<ItemId>, r: seq<(ItemId, real)>)
    requires |r| == |ms|
    requires forall i :: 0 <= i < |r| ==> r[i].0 == ms[i] && r[i].0 in z && r[i].1 == z[ms[i]]
    requires forall m :: m in z ==> m in ms
    requires forall i, j :: 0 <= i < j < |ms| ==>
               ScoreOf(z, ms[i]) < ScoreOf(z, ms[j]) || (ScoreOf(z, ms[i]) == ScoreOf(z, ms[j]) && LexLess(ms[i], ms[j]))
    ensures forall m :: m in z ==> exists i :: 0 <= i < |r| && r[i].0 == m
    ensures forall i, j :: 0 <= i < j < |r| ==>
              r[i].1 < r[j].1 || (r[i].1 == r[j].1 && LexLess(r[i].0, r[j].0))
  {
    forall m | m in z ensures exists i :: 0 <= i < |r| && r[i].0 == m {
      var i :| 0 <= i < |ms| && ms[i] == m;
      assert r[i].0 == m;
    }
    forall i, j | 0 <= i < j < |r| ensures r[i].1 < r[j].1 || (r[i].1 == r[j].1 && LexLess(r[i].0, r[j].0)) {
      assert ScoreOf(z, ms[i]) == r[i].1 && ScoreOf(z, ms[j]) == r[j].1;
    }
  }

  /** get_user_ratings: the dict `{member: score}` built from the ZRANGE reply
      of `ratings:{user_id}`, so it iterates in reply order. A user with no
      ratings key gets an empty dict. */
  ghost function GetUserRatings(store: Store, user: UserId): (r: Dict)
    ensures Valid(r)
    ensures r.entries == ZSet(store, RatingsKey(user))
    ensures Items(r) == ZRange(ZSet(store, RatingsKey(user)))
  {
    var z := ZSet(store, RatingsKey(user));
    var reply := ZRange(z);
    var r := Dict(Members(reply), z);
    ReplyDict(z, reply);
    r
  }

  function Members(reply: seq<(ItemId, real)>): (ms: seq<ItemId>)
    ensures |ms| == |reply|
    ensures forall i :: 0 <= i < |ms| ==> ms[i] == reply[i].0
  {
    seq(|reply|, i requires 0 <= i < |reply| => reply[i].0)
  }

  /** The dict built from a ZRANGE reply replays that reply. */
  lemma {:induction false} ReplyDict(z: map<ItemId, real>, reply: seq<(ItemId, real)>)
    requires |reply| == |z|
    requires forall i :: 0 <= i < |reply| ==> reply[i].0 in z && reply[i].1 == z[reply[i].0]
    requires forall m :: m in z ==> exists i :: 0 <= i < |reply| && reply[i].0 == m
    requires forall i, j :: 0 <= i < j < |reply| ==>
               reply[i].1 < reply[j].1 || (reply[i].1 == reply[j].1 && LexLess(reply[i].0, reply[j].0))
    ensures Valid(Dict(Members(reply), z))
    ensures Items(Dict(Members(reply), z)) == reply
  {
    var d := Dict(Members(reply), z);
    forall i, j | 0 <= i < j < |reply| ensures d.order[i] != d.order[j] {
      if reply[i].0 == reply[j].0 {
        LexIrreflexive(reply[i].0);
      }
    }
    forall k ensures k in d.entries <==> k in d.order {
      if k in z {
        var i :| 0 <= i < |reply| && reply[i].0 == k;
        assert d.order[i] == k;
      }
    }
    assert Valid(d);
    var items := Items(d);
    forall i | 0 <= i < |reply| ensures items[i] == reply[i] {
    }
  }

  /** The title of a movie as line 98-99 reads it: `HGET movie:{id} title`,
      kept only when it is truthy (present and non-empty). */
  function GetTitle(store: Store, movie: ItemId): (r: Option<string>)
    ensures r.Some? ==> r.value != ""
    ensures r.Some? <==> MoviePrefix + movie in store.hashes && "title" in store.hashes[MoviePrefix + movie]
                         && store.hashes[MoviePrefix + movie]["title"] != ""
    // and the title found is that field's value
    ensures r.Some? ==> r.value == store.hashes[MoviePrefix + movie]["title"]
  {
    var key := MoviePrefix + movie;
    if key in store.hashes && "title" in store.hashes[key] && store.hashes[key]["title"] != "" then
      Some(store.hashes[key]["title"])
    else
      None
  }

  /** What `KEYS ratings:*` may return: every rating key of the store once,
      in an order Redis does not specify. */
  ghost predicate IsKeysReply(store: Store, keys: seq<string>)
  {
    && (forall i, j :: 0 <= i < j < |keys| ==> keys[i] != keys[j])
    && (forall k :: k in keys <==> k in store.zsets && IsRatingsKey(k))
  }

  /** add_user_rating, line 149: `ZADD ratings:{user_id} {content_id: rating}`
      inserts or overwrites one member of one sorted set. The recommendation
      call on line 152 has its result discarded and changes nothing. */
  function AddUserRating(store: Store, user: UserId, item: ItemId, rating: real): (r: Store)
    ensures r.hashes == store.hashes
    ensures RatingsKey(user) in r.zsets
    ensures ZSet(r, RatingsKey(user)) == ZSet(store, RatingsKey(user))[item := rating]
    ensures forall k :: k != RatingsKey(user) ==> ZSet(r, k) == ZSet(store, k)
    ensures forall k :: k in r.zsets <==> k in store.zsets || k == RatingsKey(user)
  {
    var key := RatingsKey(user);
    store.(zsets := store.zsets[key := ZSet(store, key)[item := rating]])
  }

  /** A rating just added is what the next read of that user's ratings sees,
      and no other user's ratings change. */
  lemma {:induction false} RatingVisibleAfterAdd(store: Store, user: UserId, item: ItemId, rating: real, other: UserId)
    ensures GetUserRatings(AddUserRating(store, user, item, rating), user).entries
            == GetUserRatings(store, user).entries[item := rating]
    ensures RatingsKey(other) != RatingsKey(user) ==>
            GetUserRatings(AddUserRating(store, user, item, rating), other) == GetUserRatings(store, other)
  {
  }
}
