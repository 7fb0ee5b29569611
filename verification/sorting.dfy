/**
  Ordering of query results. Every `orderBy` of the queries is expressed as
  an ascending lexicographic key; a query result is a set of rows sorted by
  that key and optionally cut to its first `limit` rows (`take`).
 */
module Sorting {
  import opened Wrappers

  datatype Key = Key(major: int, minor: int)

  predicate KeyLe(a: Key, b: Key) {
    a.major < b.major || (a.major == b.major && a.minor <= b.minor)
  }

  predicate SortedBy<T>(s: seq<T>, key: T -> Key) {
    forall i, j :: 0 <= i < j < |s| ==> KeyLe(key(s[i]), key(s[j]))
  }

  predicate Distinct<T(==,!new)>(s: seq<T>) {
    forall i, j :: 0 <= i < j < |s| ==> s[i] != s[j]
  }

  /** Inserts `x` into sorted `s` before the first element not below it. */
  function Insert<T(==,!new)>(x: T, s: seq<T>, key: T -> Key): (r: seq<T>)
    requires SortedBy(s, key)
    ensures |r| == |s| + 1
    ensures forall y :: y in r <==> y == x || y in s
    ensures SortedBy(r, key)
    ensures Distinct(s) && x !in s ==> Distinct(r)
  {
    if s == [] then [x]
    else if KeyLe(key(x), key(s[0])) then [x] + s
    else
      var tail := Insert(x, s[1..], key);
      assert forall y :: y in tail ==> KeyLe(key(s[0]), key(y)) by {
        forall y | y in tail
          ensures KeyLe(key(s[0]), key(y))
        {
          if y != x {
            var k :| 0 <= k < |s[1..]| && s[1..][k] == y;
            assert s[k + 1] == y;
          }
        }
      }
      assert Distinct(s) && x !in s ==> Distinct([s[0]] + tail) by {
        if Distinct(s) && x !in s {
          assert s[0] !in s[1..] by {
            forall k | 1 <= k < |s|
              ensures s[k] != s[0]
            {
            }
          }
          assert s[0] !in tail;
        }
      }
      [s[0]] + tail
  }

  /**
    Orders a finite set of rows by `key`: every row exactly once, in key
    order (rows with equal keys in an unspecified order).
   */
  method SortSet<T(==,!new)>(xs: set<T>, key: T -> Key) returns (r: seq<T>)
    ensures SortedBy(r, key)
    ensures Distinct(r)
    ensures forall y :: y in r <==> y in xs
    ensures |r| == |xs|
  {
    r := [];
    var rest := xs;
    while rest != {}
      invariant rest <= xs
      invariant SortedBy(r, key) && Distinct(r)
      invariant forall y :: y in r <==> y in xs && y !in rest
      invariant |r| + |rest| == |xs|
      decreases rest
    {
      var x :| x in rest;
      r := Insert(x, r, key);
      rest := rest - {x};
    }
  }

  /** How many rows a `take: limit` keeps out of `total`. */
  function Kept(total: nat, limit: Option<nat>): nat {
    if limit.Some? && limit.value < total then limit.value else total
  }

  /**
    `us` is the answer of "rows of `xs` ordered by `key`, take `limit`":
    sorted, without repeats, drawn from `xs`, as many as the limit allows,
    and no row left out comes before a row kept.
   */
  predicate Selection<T(==,!new)>(xs: set<T>, key: T -> Key, limit: Option<nat>, us: seq<T>) {
    && SortedBy(us, key)
    && Distinct(us)
    && (forall i :: 0 <= i < |us| ==> us[i] in xs)
    && |us| == Kept(|xs|, limit)
    && (forall u, i :: u in xs && u !in us && 0 <= i < |us| ==> KeyLe(key(us[i]), key(u)))
  }

  /** Without a limit a selection lists every row. */
  lemma SelectionWithoutLimitIsComplete<T(!new)>(xs: set<T>, key: T -> Key, us: seq<T>)
    requires Selection(xs, key, None, us)
    ensures forall u :: u in xs ==> u in us
  {
    forall u | u in xs
      ensures u in us
    {
      if u !in us {
        var ys := set i | 0 <= i < |us| :: us[i];
        assert ys <= xs - {u};
        DistinctElementsCount(us);
        assert |ys| <= |xs - {u}| by { SubsetCard(ys, xs - {u}); }
      }
    }
  }

  /** A repeat-free sequence has as many distinct elements as its length. */
  lemma {:induction false} DistinctElementsCount<T(!new)>(us: seq<T>)
    requires Distinct(us)
    ensures |set i | 0 <= i < |us| :: us[i]| == |us|
  {
    if us != [] {
      var init := us[..|us| - 1];
      assert Distinct(init);
      DistinctElementsCount(init);
      var a := set i | 0 <= i < |init| :: init[i];
      var b := set i | 0 <= i < |us| :: us[i];
      assert b == a + {us[|us| - 1]};
      assert us[|us| - 1] !in a;
    }
  }

  lemma SubsetCard<T>(a: set<T>, b: set<T>)
    requires a <= b
    ensures |a| <= |b|
  {
    assert b == a + (b - a);
  }

  /** Sorts `xs` by `key` and keeps the first `limit` rows. */
  method SortAndTake<T(==,!new)>(xs: set<T>, key: T -> Key, limit: Option<nat>) returns (us: seq<T>)
    ensures Selection(xs, key, limit, us)
  {
    var sorted := SortSet(xs, key);
    var n := Kept(|xs|, limit);
    us := sorted[..n];
    forall u, i | u in xs && u !in us && 0 <= i < |us|
      ensures KeyLe(key(us[i]), key(u))
    {
      var j :| 0 <= j < |sorted| && sorted[j] == u;
      assert j >= n;
    }
  }
}
