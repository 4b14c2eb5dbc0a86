/** Text-level helpers the engine relies on: Redis key formats, Python's
    `split(":")[1]`, the bytes-versus-str comparison of Python 3, and the
    code-point order that both `sorted()` on str and Redis member ordering use. */
module Text {

  /** Item (movie) ids and user ids are opaque strings. Byte strings read back
      from the store stand for their UTF-8 decoding, so `.decode('utf-8')` is
      the identity on them. */
  type ItemId = string
  type UserId = string

  /** Prefix of every per-user rating key (`ratings:{user_id}`). */
  const RatingsPrefix: string := "ratings:"

  /** Prefix of every movie hash key (`movie:{movie_id}`). */
  const MoviePrefix: string := "movie:"

  /** The Redis key holding a user's ratings. */
  function RatingsKey(user: UserId): string
  {
    RatingsPrefix + user
  }

  /** Keys matched by the glob `ratings:*`. */
  predicate IsRatingsKey(key: string)
  {
    RatingsPrefix <= key
  }

  lemma {:induction false} RatingsKeyHasColon(key: string)
    requires IsRatingsKey(key)
    ensures ':' in key
  {
    assert key[7] == RatingsPrefix[7];
  }

  /** A Python object on one side of `==`: a bytes value or a str value. */
  datatype PyValue = PyBytes(bytes: string) | PyStr(text: string)

  /** Python 3 equality: values of the same type compare by content, and a
      bytes value never equals a str value. */
  predicate PyEq(a: PyValue, b: PyValue)
  {
    match (a, b)
    case (PyBytes(x), PyBytes(y)) => x == y
    case (PyStr(x), PyStr(y)) => x == y
    case _ => false
  }

  lemma {:induction false} BytesNeverEqualStr(b: string, s: string)
    ensures !PyEq(PyBytes(b), PyStr(s))
    ensures PyEq(PyBytes(b), PyBytes(s)) <==> b == s
  {
  }

  /** Position of the first occurrence of `c` in `s`. */
  function IndexOf(s: string, c: char): (i: nat)
    requires c in s
    ensures i < |s| && s[i] == c
    ensures c !in s[..i]
  {
    if s[0] == c then 0
    else
      assert c in s[1..] by { var k :| 0 <= k < |s| && s[k] == c; assert s[1..][k - 1] == c; }
      var j := IndexOf(s[1..], c);
      assert s[..j + 1] == [s[0]] + s[1..][..j];
      j + 1
  }

  /** The text of `s` before the first `c`, or all of `s` when there is none. */
  function UpTo(s: string, c: char): (r: string)
    ensures r <= s
    ensures c !in r
    ensures |r| == |s| || s[|r|] == c
  {
    if s == [] || s[0] == c then []
    else
      var t := UpTo(s[1..], c);
      assert [s[0]] + t <= s by { assert s == [s[0]] + s[1..]; }
      [s[0]] + t
  }

  /** `s.split(":")[1]`: the field after the first ':' and before the next
      one. Python raises IndexError when `s` has no ':'; a key matched by
      `ratings:*` always has one. */
  function SecondField(s: string): (r: string)
    requires ':' in s
    ensures ':' !in r
    ensures exists i :: 0 <= i < |s| && s[i] == ':' && ':' !in s[..i] && r <= s[i + 1..]
                        && (|r| == |s| - i - 1 || s[i + 1 + |r|] == ':')
  {
    var i := IndexOf(s, ':');
    UpTo(s[i + 1..], ':')
  }

  /** The user id that lines 85 and 122 read out of a rating key. */
  function DecodeUserId(key: string): (u: UserId)
    requires IsRatingsKey(key)
    ensures ':' !in u
    // the text after `ratings:` up to the next ':' (or to the end)
    ensures u == UpTo(key[|RatingsPrefix|..], ':')
  {
    RatingsKeyHasColon(key);
    FirstColonOfRatingsKey(key);
    SecondField(key)
  }

  /** The first ':' of a rating key is the one ending its prefix. */
  lemma {:induction false} FirstColonOfRatingsKey(key: string)
    requires IsRatingsKey(key)
    ensures ':' in key && IndexOf(key, ':') == |RatingsPrefix| - 1
  {
    var head := RatingsPrefix[..|RatingsPrefix| - 1];
    var tail := key[|RatingsPrefix| - 1..];
    assert key == head + tail;
    assert tail[0] == ':';
    IndexAfter(head, tail, ':');
  }

  /** A prefix without `c` shifts the first `c` by its length. */
  lemma {:induction false} IndexAfter(p: string, t: string, c: char)
    requires c !in p && c in t
    ensures c in p + t && IndexOf(p + t, c) == |p| + IndexOf(t, c)
  {
    if p == [] {
      assert p + t == t;
    } else {
      assert (p + t)[0] == p[0];
      assert (p + t)[1..] == p[1..] + t;
      IndexAfter(p[1..], t, c);
    }
  }

  /** Decoding the key of a user gives that user back exactly when the user
      id has no ':' in it; otherwise only the part before its first ':'. */
  lemma {:induction false} DecodeRatingsKey(u: UserId)
    ensures IsRatingsKey(RatingsKey(u))
    ensures DecodeUserId(RatingsKey(u)) == u <==> ':' !in u
    ensures DecodeUserId(RatingsKey(u)) == UpTo(u, ':')
  {
    var k := RatingsKey(u);
    assert k[..|RatingsPrefix|] == RatingsPrefix;
    RatingsKeyHasColon(k);
    var i := IndexOf(k, ':');
    assert k[7] == ':';
    assert i == 7;
    assert k[i + 1..] == u;
    UpToWhole(u, ':');
  }

  lemma {:induction false} UpToWhole(s: string, c: char)
    ensures UpTo(s, c) == s <==> c !in s
  {
    if s != [] && s[0] != c {
      UpToWhole(s[1..], c);
      assert c in s <==> c in s[1..] by {
        if c in s { var k :| 0 <= k < |s| && s[k] == c; assert s[1..][k - 1] == c; }
      }
    }
  }

  /** Code-point lexicographic order: Python's `<` on str, and Redis's
      byte-wise member order on the UTF-8 encodings of the same strings. */
  predicate LexLess(a: string, b: string)
  {
    if a == [] then b != []
    else if b == [] then false
    else if a[0] != b[0] then a[0] < b[0]
    else LexLess(a[1..], b[1..])
  }

  lemma {:induction false} LexIrreflexive(a: string)
    ensures !LexLess(a, a)
  {
    if a != [] { LexIrreflexive(a[1..]); }
  }

  lemma {:induction false} LexTotal(a: string, b: string)
    requires a != b
    ensures LexLess(a, b) || LexLess(b, a)
  {
    if a != [] && b != [] && a[0] == b[0] {
      assert a == [a[0]] + a[1..] && b == [b[0]] + b[1..];
      LexTotal(a[1..], b[1..]);
    }
  }

  lemma {:induction false} LexTransitive(a: string, b: string, c: string)
    requires LexLess(a, b) && LexLess(b, c)
    ensures LexLess(a, c)
  {
    if a != [] && b != [] && c != [] && a[0] == b[0] && b[0] == c[0] {
      LexTransitive(a[1..], b[1..], c[1..]);
    }
  }
}
