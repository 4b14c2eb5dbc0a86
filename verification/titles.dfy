/** get_title_from_ids (app/recommendations.py:94-101): the titles of the
    given movie ids, in the same order, skipping every id without a title. */
module Titles {
  import opened Text
  import opened RedisStore

  function GetTitleFromIds(store: Store, ids: seq<ItemId>): (r: seq<string>)
    // never more titles than ids, and never an empty title (line 99)
    ensures |r| <= |ids|
    ensures forall k :: 0 <= k < |r| ==> r[k] != ""
    // nothing is dropped exactly when every id has a title
    ensures |r| == |ids| <==> forall i :: 0 <= i < |ids| ==> GetTitle(store, ids[i]).Some?
  {
    if ids == [] then []
    else
      var rest := GetTitleFromIds(store, ids[1..]);
      match GetTitle(store, ids[0])
      case Some(title) => [title] + rest
      case None => rest
  }

  /** The titles of a concatenation are the titles of each part, in order. */
  lemma {:induction false} TitlesOfConcat(store: Store, a: seq<ItemId>, b: seq<ItemId>)
    ensures GetTitleFromIds(store, a + b) == GetTitleFromIds(store, a) + GetTitleFromIds(store, b)
  {
    if a == [] {
      assert a + b == b;
    } else {
      assert (a + b)[0] == a[0];
      assert (a + b)[1..] == a[1..] + b;
      TitlesOfConcat(store, a[1..], b);
    }
  }

  /** What line 97 finds for each id, in id order. */
  ghost function Lookups(store: Store, ids: seq<ItemId>): (r: seq<Option<string>>)
    ensures |r| == |ids|
    ensures forall j :: 0 <= j < |ids| ==> r[j] == GetTitle(store, ids[j])
  {
    seq(|ids|, j requires 0 <= j < |ids| => GetTitle(store, ids[j]))
  }

  /** `idx` says which lookup each of `titles` came from: the titles are
      those of exactly the successful lookups, in order. */
  ghost predicate IndexesTitles(lookups: seq<Option<string>>, titles: seq<string>, idx: seq<nat>)
  {
    && |idx| == |titles|
    && (forall k :: 0 <= k < |idx| ==> idx[k] < |lookups| && lookups[idx[k]] == Some(titles[k]))
    && (forall k, l :: 0 <= k < l < |idx| ==> idx[k] < idx[l])
    && (forall j :: 0 <= j < |lookups| ==> (lookups[j].Some? <==> j in idx))
  }

  /** The result lists, in id order, the title of exactly those ids that
      have one. */
  lemma {:induction false} TitlesKeepOrder(store: Store, ids: seq<ItemId>) returns (idx: seq<nat>)
    ensures IndexesTitles(Lookups(store, ids), GetTitleFromIds(store, ids), idx)
  {
    if ids == [] {
      idx := [];
    } else {
      var rest := TitlesKeepOrder(store, ids[1..]);
      var shifted := Shift(rest);
      var lookups := Lookups(store, ids);
      var tail := GetTitleFromIds(store, ids[1..]);
      assert lookups[1..] == Lookups(store, ids[1..]);
      match GetTitle(store, ids[0])
      case Some(title) =>
        assert GetTitleFromIds(store, ids) == [title] + tail;
        idx := TitledHead(lookups, title, tail, rest, shifted);
      case None =>
        assert GetTitleFromIds(store, ids) == tail;
        UntitledHead(lookups, tail, rest, shifted);
        idx := shifted;
    }
  }

  lemma {:induction false} TitledHead(lookups: seq<Option<string>>, title: string, tail: seq<string>, rest: seq<nat>, shifted: seq<nat>)
    returns (idx: seq<nat>)
    requires lookups != [] && lookups[0] == Some(title)
    requires IndexesTitles(lookups[1..], tail, rest)
    requires |shifted| == |rest| && 0 !in shifted
    requires forall k :: 0 <= k < |rest| ==> shifted[k] == rest[k] + 1
    requires forall j: nat :: j + 1 in shifted <==> j in rest
    ensures IndexesTitles(lookups, [title] + tail, idx)
  {
    idx := [0] + shifted;
    TitledPositions(lookups, title, tail, rest, shifted);
    TitledOrder(rest, shifted);
    TitledMembership(lookups, rest, shifted);
  }

  lemma {:induction false} TitledPositions(lookups: seq<Option<string>>, title: string, tail: seq<string>, rest: seq<nat>, shifted: seq<nat>)
    requires lookups != [] && lookups[0] == Some(title)
    requires |rest| == |tail| && |shifted| == |rest|
    requires forall k :: 0 <= k < |rest| ==> rest[k] < |lookups[1..]| && lookups[1..][rest[k]] == Some(tail[k])
    requires forall k :: 0 <= k < |rest| ==> shifted[k] == rest[k] + 1
    ensures forall k :: 0 <= k < |shifted| + 1 ==>
              ([0] + shifted)[k] < |lookups| && lookups[([0] + shifted)[k]] == Some(([title] + tail)[k])
  {
    var idx := [0] + shifted;
    var titles := [title] + tail;
    forall k | 0 <= k < |idx| ensures idx[k] < |lookups| && lookups[idx[k]] == Some(titles[k]) {
      if 0 < k {
        var r := rest[k - 1];
        assert idx[k] == r + 1 && titles[k] == tail[k - 1];
        assert lookups[r + 1] == lookups[1..][r];
      }
    }
  }

  lemma {:induction false} TitledOrder(rest: seq<nat>, shifted: seq<nat>)
    requires |shifted| == |rest|
    requires forall k, l :: 0 <= k < l < |rest| ==> rest[k] < rest[l]
    requires forall k :: 0 <= k < |rest| ==> shifted[k] == rest[k] + 1
    ensures forall k, l :: 0 <= k < l < |shifted| + 1 ==> ([0] + shifted)[k] < ([0] + shifted)[l]
  {
    var idx := [0] + shifted;
    forall k, l | 0 <= k < l < |idx| ensures idx[k] < idx[l] {
      assert idx[l] == rest[l - 1] + 1;
      if 0 < k { assert idx[k] == rest[k - 1] + 1; }
    }
  }

  lemma {:induction false} TitledMembership(lookups: seq<Option<string>>, rest: seq<nat>, shifted: seq<nat>)
    requires lookups != [] && lookups[0].Some?
    requires forall j :: 0 <= j < |lookups[1..]| ==> (lookups[1..][j].Some? <==> j in rest)
    requires forall j: nat :: j + 1 in shifted <==> j in rest
    ensures forall j :: 0 <= j < |lookups| ==> (lookups[j].Some? <==> j in [0] + shifted)
  {
    forall j | 0 <= j < |lookups| ensures lookups[j].Some? <==> j in [0] + shifted {
      if 0 < j {
        assert lookups[j] == lookups[1..][j - 1];
        assert (j in [0] + shifted) == (j in shifted);
      }
    }
  }

  lemma {:induction false} UntitledHead(lookups: seq<Option<string>>, tail: seq<string>, rest: seq<nat>, shifted: seq<nat>)
    requires lookups != [] && lookups[0].None?
    requires IndexesTitles(lookups[1..], tail, rest)
    requires |shifted| == |rest| && 0 !in shifted
    requires forall k :: 0 <= k < |rest| ==> shifted[k] == rest[k] + 1
    requires forall j: nat :: j + 1 in shifted <==> j in rest
    ensures IndexesTitles(lookups, tail, shifted)
  {
    forall k | 0 <= k < |shifted| ensures shifted[k] < |lookups| && lookups[shifted[k]] == Some(tail[k]) {
      assert lookups[shifted[k]] == lookups[1..][rest[k]];
    }
    forall j | 0 <= j < |lookups| ensures lookups[j].Some? <==> j in shifted {
      if 0 < j { assert lookups[j] == lookups[1..][j - 1]; }
    }
  }

  /** Every index moved one place to the right. */
  lemma {:induction false} Shift(rest: seq<nat>) returns (shifted: seq<nat>)
    ensures |shifted| == |rest|
    ensures forall k :: 0 <= k < |rest| ==> shifted[k] == rest[k] + 1
    ensures 0 !in shifted
    ensures forall j: nat :: j + 1 in shifted <==> j in rest
  {
    shifted := seq(|rest|, k requires 0 <= k < |rest| => rest[k] + 1);
    forall j: nat ensures j + 1 in shifted <==> j in rest {
      if j in rest {
        var k :| 0 <= k < |rest| && rest[k] == j;
        assert shifted[k] == j + 1;
      }
    }
  }

  /** When every id has a title, the result is the titles themselves, one
      for one. */
  lemma {:induction false} AllTitled(store: Store, ids: seq<ItemId>)
    requires forall i :: 0 <= i < |ids| ==> GetTitle(store, ids[i]).Some?
    ensures |GetTitleFromIds(store, ids)| == |ids|
    ensures forall i :: 0 <= i < |ids| ==> GetTitleFromIds(store, ids)[i] == GetTitle(store, ids[i]).value
  {
    if ids != [] {
      AllTitled(store, ids[1..]);
      assert forall i :: 1 <= i < |ids| ==> ids[i] == ids[1..][i - 1];
    }
  }
}
