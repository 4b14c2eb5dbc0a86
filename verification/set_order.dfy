/** Enumerating a finite set in ascending order of a strict total order.
    Both `sorted(d.keys())` in the similarity cache key and the reply order of
    Redis's ZRANGE are instances. */
module SetOrder {
  import opened Text

  ghost predicate StrictTotal<T(!new)>(less: (T, T) -> bool)
  {
    && (forall x :: !less(x, x))
    && (forall x, y :: x != y ==> less(x, y) || less(y, x))
    && (forall x, y, z :: less(x, y) && less(y, z) ==> less(x, z))
  }

  ghost predicate IsLeast<T>(m: T, s: set<T>, less: (T, T) -> bool)
  {
    m in s && forall o :: o in s && o != m ==> less(m, o)
  }

  /** Every non-empty finite set has a least element. */
  lemma {:induction false} LeastExists<T(!new)>(s: set<T>, less: (T, T) -> bool)
    requires StrictTotal(less)
    requires s != {}
    ensures exists m :: IsLeast(m, s, less)
    decreases s
  {
    var x :| x in s;
    if s - {x} == {} {
      assert s == {x};
      assert IsLeast(x, s, less);
    } else {
      LeastExists(s - {x}, less);
      var m :| IsLeast(m, s - {x}, less);
      if less(m, x) {
        assert IsLeast(m, s, less);
      } else {
        assert IsLeast(x, s, less);
      }
    }
  }

  /** The elements of `s`, listed in strictly ascending order. */
  ghost function Ascending<T(!new)>(s: set<T>, less: (T, T) -> bool): (r: seq<T>)
    requires StrictTotal(less)
    ensures |r| == |s|
    ensures forall x :: x in r <==> x in s
    ensures forall i, j :: 0 <= i < j < |r| ==> less(r[i], r[j])
    decreases s
  {
    if s == {} then []
    else
      LeastExists(s, less);
      var m :| IsLeast(m, s, less);
      [m] + Ascending(s - {m}, less)
  }

  /** Python's `<` on str as a relation. */
  function StrLess(): (string, string) -> bool
  {
    (a, b) => LexLess(a, b)
  }

  lemma {:induction false} StrLessStrictTotal()
    ensures StrictTotal(StrLess())
  {
    forall x: string ensures !StrLess()(x, x) { LexIrreflexive(x); }
    forall x: string, y: string | x != y ensures StrLess()(x, y) || StrLess()(y, x) { LexTotal(x, y); }
    forall x: string, y: string, z: string | StrLess()(x, y) && StrLess()(y, z)
      ensures StrLess()(x, z)
    {
      LexTransitive(x, y, z);
    }
  }

  /** `sorted(ids)` for a collection of distinct ids: its ascending listing. */
  ghost function SortedIds(s: set<ItemId>): (r: seq<ItemId>)
    ensures forall x :: x in r <==> x in s
    ensures forall i, j :: 0 <= i < j < |r| ==> LexLess(r[i], r[j])
  {
    StrLessStrictTotal();
    Ascending(s, StrLess())
  }

  /** The sorted listing determines the set it lists, and conversely. */
  lemma {:induction false} SortedIdsInjective(s: set<ItemId>, t: set<ItemId>)
    ensures SortedIds(s) == SortedIds(t) <==> s == t
  {
    if SortedIds(s) == SortedIds(t) {
      assert forall x :: x in s <==> x in t by {
        forall x ensures x in s <==> x in t {
          assert x in s <==> x in SortedIds(s);
        }
      }
    }
  }
}
