/** `sorted(pairs, key=lambda x: x[1], reverse=True)[:n]`, used on lines 90
    and 134-135: a stable sort of (key, score) pairs by descending score,
    then a Python slice. */
module Ranking {

  /** Non-increasing by score. */
  ghost predicate Descending<K>(s: seq<(K, real)>)
  {
    forall i, j :: 0 <= i < j < |s| ==> s[j].1 <= s[i].1
  }

  /** The pairs of `s` that score exactly `v`, in their order in `s`. A sort
      is stable when every tier keeps its order. */
  function Tier<K>(s: seq<(K, real)>, v: real): seq<(K, real)>
  {
    if s == [] then [] else (if s[0].1 == v then [s[0]] else []) + Tier(s[1..], v)
  }

  /** Inserts `x` in front of the first pair scoring no more than it. */
  function Insert<K(!new)>(x: (K, real), s: seq<(K, real)>): (r: seq<(K, real)>)
    requires Descending(s)
    ensures Descending(r)
    ensures multiset(r) == multiset(s) + multiset{x}
  {
    if s == [] || s[0].1 <= x.1 then
      ConsDescending(x, s);
      [x] + s
    else
      var rest := Insert(x, s[1..]);
      assert s == [s[0]] + s[1..];
      assert forall i :: 0 <= i < |rest| ==> rest[i].1 <= s[0].1 by {
        forall i | 0 <= i < |rest| ensures rest[i].1 <= s[0].1 {
          assert rest[i] in multiset(rest);
          if rest[i] != x {
            assert rest[i] in multiset(s[1..]);
            var j :| 0 <= j < |s[1..]| && s[1..][j] == rest[i];
            assert s[j + 1] == rest[i];
          }
        }
      }
      ConsDescending(s[0], rest);
      [s[0]] + rest
  }

  lemma {:induction false} ConsDescending<K>(h: (K, real), t: seq<(K, real)>)
    requires Descending(t)
    requires forall i :: 0 <= i < |t| ==> t[i].1 <= h.1
    ensures Descending([h] + t)
  {
  }

  lemma {:induction false} TierCons<K>(h: (K, real), t: seq<(K, real)>, v: real)
    ensures Tier([h] + t, v) == (if h.1 == v then [h] else []) + Tier(t, v)
  {
    assert ([h] + t)[1..] == t;
  }

  /** Inserting `x` adds it at the front of its own tier and leaves every
      other tier alone. */
  lemma {:induction false} InsertTiers<K(!new)>(x: (K, real), s: seq<(K, real)>, v: real)
    requires Descending(s)
    ensures Tier(Insert(x, s), v) == if x.1 == v then [x] + Tier(s, v) else Tier(s, v)
  {
    if s == [] || s[0].1 <= x.1 {
      TierCons(x, s, v);
    } else {
      InsertTiers(x, s[1..], v);
      assert s == [s[0]] + s[1..];
      TierCons(s[0], Insert(x, s[1..]), v);
      TierCons(s[0], s[1..], v);
    }
  }

  /** Python's stable `sorted(..., reverse=True)` by score. Building from the
      back and inserting each pair in front of its equals keeps equal scores in
      input order. */
  function SortDescending<K(!new)>(s: seq<(K, real)>): (r: seq<(K, real)>)
    ensures Descending(r)
    ensures multiset(r) == multiset(s)
  {
    if s == [] then []
    else
      assert s == [s[0]] + s[1..];
      Insert(s[0], SortDescending(s[1..]))
  }

  /** The sort is stable: pairs with equal scores keep their input order. */
  lemma {:induction false} SortIsStable<K(!new)>(s: seq<(K, real)>, v: real)
    ensures Tier(SortDescending(s), v) == Tier(s, v)
  {
    if s != [] {
      assert s == [s[0]] + s[1..];
      SortIsStable(s[1..], v);
      InsertTiers(s[0], SortDescending(s[1..]), v);
      TierCons(s[0], s[1..], v);
    }
  }

  /** No key occurs twice. */
  ghost predicate DistinctKeys<K>(s: seq<(K, real)>)
  {
    forall i, j :: 0 <= i < j < |s| ==> s[i].0 != s[j].0
  }

  lemma {:induction false} InsertKeepsDistinctKeys<K(!new)>(x: (K, real), s: seq<(K, real)>)
    requires Descending(s) && DistinctKeys(s)
    requires forall i :: 0 <= i < |s| ==> s[i].0 != x.0
    ensures DistinctKeys(Insert(x, s))
  {
    if s != [] && x.1 < s[0].1 {
      var rest := Insert(x, s[1..]);
      InsertKeepsDistinctKeys(x, s[1..]);
      forall i | 0 <= i < |rest| ensures rest[i].0 != s[0].0 {
        assert rest[i] in multiset(rest);
        if rest[i] != x {
          assert rest[i] in multiset(s[1..]);
          var j :| 0 <= j < |s[1..]| && s[1..][j] == rest[i];
          assert s[j + 1] == rest[i];
        }
      }
      assert Insert(x, s) == [s[0]] + rest;
    }
  }

  /** Sorting never makes two pairs share a key. */
  lemma {:induction false} SortKeepsDistinctKeys<K(!new)>(s: seq<(K, real)>)
    requires DistinctKeys(s)
    ensures DistinctKeys(SortDescending(s))
  {
    if s != [] {
      var rest := SortDescending(s[1..]);
      SortKeepsDistinctKeys(s[1..]);
      forall i | 0 <= i < |rest| ensures rest[i].0 != s[0].0 {
        assert rest[i] in multiset(s[1..]);
        var j :| 0 <= j < |s[1..]| && s[1..][j] == rest[i];
        assert s[j + 1] == rest[i];
      }
      InsertKeepsDistinctKeys(s[0], rest);
    }
  }

  function Min(a: int, b: int): int { if a <= b then a else b }
  function Max(a: int, b: int): int { if a <= b then b else a }

  /** Python's `s[:n]`: the first `n` elements, or for negative `n` all but
      the last `-n`; never more than `s` has. */
  function PyPrefix<T>(s: seq<T>, n: int): (r: seq<T>)
    ensures r <= s
    ensures 0 <= n ==> |r| == Min(n, |s|)
    ensures n < 0 ==> |r| == Max(0, |s| + n)
  {
    if 0 <= n then s[..Min(n, |s|)] else s[..Max(0, |s| + n)]
  }

  /** `r` holds the highest-scoring pairs of `s`, highest first: drawn from
      `s`, non-increasing, and no pair left out scores above one kept. */
  ghost predicate IsTopOf<K(!new)>(r: seq<(K, real)>, s: seq<(K, real)>)
  {
    && multiset(r) <= multiset(s)
    && Descending(r)
    && forall i, q :: 0 <= i < |r| && q in multiset(s) - multiset(r) ==> q.1 <= r[i].1
  }

  /** `sorted(s, key=score, reverse=True)[:n]`. */
  function TopN<K(!new)>(s: seq<(K, real)>, n: int): (r: seq<(K, real)>)
    ensures IsTopOf(r, s)
    ensures 0 <= n ==> |r| == Min(n, |s|)
    ensures n < 0 ==> |r| == Max(0, |s| + n)
    ensures r <= SortDescending(s)
  {
    var sorted := SortDescending(s);
    var r := PyPrefix(sorted, n);
    PrefixOfDescendingIsTop(sorted, s, |r|);
    r
  }

  /** Cutting a descending sort of `s` anywhere leaves its best pairs. */
  lemma {:induction false} PrefixOfDescendingIsTop<K(!new)>(sorted: seq<(K, real)>, s: seq<(K, real)>, k: nat)
    requires Descending(sorted) && multiset(sorted) == multiset(s)
    requires k <= |sorted|
    ensures IsTopOf(sorted[..k], s)
  {
    var r := sorted[..k];
    CutMultiset(sorted, k);
    forall i, q | 0 <= i < |r| && q in multiset(s) - multiset(r) ensures q.1 <= r[i].1 {
      var j := IndexAfterCut(sorted, k, q);
    }
  }

  lemma {:induction false} CutMultiset<K(!new)>(sorted: seq<(K, real)>, k: nat)
    requires k <= |sorted|
    ensures multiset(sorted[..k]) <= multiset(sorted)
    ensures multiset(sorted) - multiset(sorted[..k]) == multiset(sorted[k..])
  {
    assert sorted == sorted[..k] + sorted[k..];
    assert multiset(sorted) == multiset(sorted[..k]) + multiset(sorted[k..]);
  }

  lemma {:induction false} IndexAfterCut<K(!new)>(sorted: seq<(K, real)>, k: nat, q: (K, real)) returns (j: nat)
    requires k <= |sorted|
    requires q in multiset(sorted[k..])
    ensures k <= j < |sorted| && sorted[j] == q
  {
    var rest := sorted[k..];
    assert q in rest;
    var i :| 0 <= i < |rest| && rest[i] == q;
    j := k + i;
  }
}
