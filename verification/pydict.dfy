/** Python's insertion-ordered dict from item ids to floats (ratings, and the
    `defaultdict(float)` of accumulated scores). */
module PyDict {
  import opened Text

  /** `order` lists the keys in first-insertion order; `entries` holds the
      current value of each key. */
  datatype Dict = Dict(order: seq<ItemId>, entries: map<ItemId, real>)

  ghost predicate Valid(d: Dict)
  {
    && (forall i, j :: 0 <= i < j < |d.order| ==> d.order[i] != d.order[j])
    && (forall k :: k in d.entries <==> k in d.order)
  }

  function Empty(): (d: Dict)
    ensures Valid(d) && d.entries == map[]
  {
    Dict([], map[])
  }

  /** Reading a `defaultdict(float)`: a missing key reads as 0.0. */
  function Get(d: Dict, k: ItemId): real
  {
    if k in d.entries then d.entries[k] else 0.0
  }

  /** `d[k] += delta` on a `defaultdict(float)`: a missing key starts at 0.0
      and is appended to the iteration order; a present key keeps its place. */
  function AddTo(d: Dict, k: ItemId, delta: real): (r: Dict)
    requires Valid(d)
    ensures Valid(r)
    ensures r.entries.Keys == d.entries.Keys + {k}
    ensures Get(r, k) == Get(d, k) + delta
    ensures forall j :: j != k ==> Get(r, j) == Get(d, j)
    ensures d.order <= r.order
  {
    if k in d.entries then Dict(d.order, d.entries[k := d.entries[k] + delta])
    else Dict(d.order + [k], d.entries[k := delta])
  }

  /** `d.items()`: the (key, value) pairs in iteration order. */
  function Items(d: Dict): (r: seq<(ItemId, real)>)
    requires Valid(d)
    ensures |r| == |d.order|
    ensures forall i :: 0 <= i < |r| ==> r[i].0 == d.order[i] && r[i].0 in d.entries && r[i].1 == d.entries[r[i].0]
  {
    seq(|d.order|, i requires 0 <= i < |d.order| => (d.order[i], d.entries[d.order[i]]))
  }

  /** Each entry of the dict appears as exactly one item, and nothing else does. */
  lemma {:induction false} ItemsExact(d: Dict)
    requires Valid(d)
    ensures forall p :: p in Items(d) <==> p.0 in d.entries && p.1 == d.entries[p.0]
    ensures forall i, j :: 0 <= i < j < |Items(d)| ==> Items(d)[i].0 != Items(d)[j].0
  {
    var r := Items(d);
    forall p: (ItemId, real) | p.0 in d.entries && p.1 == d.entries[p.0] ensures p in r {
      var i :| 0 <= i < |d.order| && d.order[i] == p.0;
      assert r[i] == p;
    }
  }

  /** A valid dict lists each of its keys once, so its order is as long as
      it has entries. */
  lemma {:induction false} ValidSize(d: Dict)
    requires Valid(d)
    ensures |d.order| == |d.entries.Keys|
  {
    DistinctSize(d.order, d.entries.Keys);
  }

  lemma {:induction false} DistinctSize(s: seq<ItemId>, keys: set<ItemId>)
    requires forall i, j :: 0 <= i < j < |s| ==> s[i] != s[j]
    requires forall k :: k in keys <==> k in s
    ensures |s| == |keys|
  {
    if s != [] {
      var rest := keys - {s[0]};
      forall k ensures k in rest <==> k in s[1..] {
        if k in s[1..] {
          var i :| 0 <= i < |s[1..]| && s[1..][i] == k;
          assert s[i + 1] == k;
        }
        if k in s && k != s[0] {
          var i :| 0 <= i < |s| && s[i] == k;
          assert s[1..][i - 1] == k;
        }
      }
      DistinctSize(s[1..], rest);
    }
  }
}
