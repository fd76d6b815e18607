/** Lists of ids, kept sorted and free of duplicates. */
module IdLists {
  predicate Increasing(ids: seq<int>)
  {
    forall i, j :: 0 <= i < j < |ids| ==> ids[i] < ids[j]
  }

  ghost predicate SameIds(a: seq<int>, b: seq<int>)
  {
    forall x :: x in a <==> x in b
  }

  lemma InsertIncreasing(ids: seq<int>, k: nat, x: int)
    requires Increasing(ids) && k <= |ids|
    requires k > 0 ==> ids[k - 1] < x
    requires k < |ids| ==> x < ids[k]
    ensures Increasing(ids[..k] + [x] + ids[k..])
  {
  }

  method InsertId(ids: seq<int>, x: int) returns (out: seq<int>)
    requires Increasing(ids)
    ensures Increasing(out) && SameIds(out, ids + [x])
  {
    var k := |ids|;
    while k > 0 && ids[k - 1] >= x
      invariant 0 <= k <= |ids|
      invariant k < |ids| ==> x <= ids[k]
    {
      k := k - 1;
    }
    if k < |ids| && ids[k] == x {
      out := ids;
    } else {
      InsertIncreasing(ids, k, x);
      out := ids[..k] + [x] + ids[k..];
      assert ids == ids[..k] + ids[k..];
    }
  }

  /** `out` lists the lowest ids of `all`, up to `lim` of them. */
  ghost predicate Lowest(all: seq<int>, out: seq<int>, lim: nat)
  {
    && Increasing(out) && |out| <= lim && (forall x :: x in out ==> x in all)
    && forall x :: x in all && x !in out ==> |out| == lim && forall y :: y in out ==> y < x
  }

  lemma CutIsLowest(all: seq<int>, sorted: seq<int>, lim: nat)
    requires Increasing(sorted) && SameIds(sorted, all)
    ensures Lowest(all, if |sorted| > lim then sorted[..lim] else sorted, lim)
  {
    var out := if |sorted| > lim then sorted[..lim] else sorted;
    forall x | x in all && x !in out
      ensures |out| == lim && forall y :: y in out ==> y < x
    {
      assert x in sorted;
      var k :| 0 <= k < |sorted| && sorted[k] == x;
      assert |sorted| > lim;
      assert x !in sorted[..lim] && k >= lim;
    }
  }

  /** Sort and remove duplicates. */
  method Dedup(v: seq<int>) returns (out: seq<int>)
    ensures Increasing(out) && SameIds(out, v)
  {
    out := [];
    for i := 0 to |v|
      invariant Increasing(out) && SameIds(out, v[..i])
    {
      assert v[..i + 1] == v[..i] + [v[i]];
      out := InsertId(out, v[i]);
    }
    assert v[..|v|] == v;
  }

  // ----- sorting that keeps duplicates -----

  predicate Ordered(ids: seq<int>)
  {
    forall i, j :: 0 <= i < j < |ids| ==> ids[i] <= ids[j]
  }

  lemma PlaceOrdered(ids: seq<int>, k: nat, x: int)
    requires Ordered(ids) && k <= |ids| && (k > 0 ==> ids[k - 1] <= x) && (k < |ids| ==> x <= ids[k])
    ensures Ordered(ids[..k] + [x] + ids[k..])
  {
  }

  lemma PlaceCounts(ids: seq<int>, k: nat, x: int)
    requires k <= |ids|
    ensures multiset(ids[..k] + [x] + ids[k..]) == multiset(ids) + multiset{x}
  {
    assert ids == ids[..k] + ids[k..];
  }

  method PlaceId(ids: seq<int>, x: int) returns (out: seq<int>)
    requires Ordered(ids)
    ensures Ordered(out) && multiset(out) == multiset(ids) + multiset{x}
  {
    var k := |ids|;
    while k > 0 && ids[k - 1] > x
      invariant 0 <= k <= |ids|
      invariant k < |ids| ==> x <= ids[k]
    {
      k := k - 1;
    }
    PlaceOrdered(ids, k, x);
    PlaceCounts(ids, k, x);
    out := ids[..k] + [x] + ids[k..];
  }

  method SortIds(v: seq<int>) returns (out: seq<int>)
    ensures Ordered(out) && multiset(out) == multiset(v)
  {
    out := [];
    for i := 0 to |v|
      invariant Ordered(out) && multiset(out) == multiset(v[..i])
    {
      assert v[..i + 1] == v[..i] + [v[i]];
      out := PlaceId(out, v[i]);
    }
    assert v[..|v|] == v;
  }

  lemma {:induction false} DistinctCounts(v: seq<int>, x: int)
    requires Distinct(v)
    ensures multiset(v)[x] <= 1
    decreases |v|
  {
    if v != [] {
      var init, last := v[..|v| - 1], v[|v| - 1];
      assert v == init + [last];
      DistinctCounts(init, x);
      assert last !in init;
    }
  }

  lemma CountsTwice(v: seq<int>, i: nat, j: nat)
    requires i < j < |v| && v[i] == v[j]
    ensures multiset(v)[v[i]] >= 2
  {
    assert v == v[..i] + [v[i]] + v[i + 1..j] + [v[j]] + v[j + 1..];
  }

  /** Sorted distinct ids are in strict order. */
  lemma DistinctIncreases(v: seq<int>, out: seq<int>)
    requires Distinct(v) && Ordered(out) && multiset(out) == multiset(v)
    ensures Increasing(out)
  {
    forall i, j | 0 <= i < j < |out|
      ensures out[i] < out[j]
    {
      DistinctCounts(v, out[i]);
      if out[i] == out[j] {
        CountsTwice(out, i, j);
      }
    }
  }

  lemma SameCounts(a: seq<int>, b: seq<int>)
    requires multiset(a) == multiset(b)
    ensures SameIds(a, b)
  {
    forall x
      ensures x in a <==> x in b
    {
      assert x in a <==> x in multiset(a);
      assert x in b <==> x in multiset(b);
    }
  }

  // ----- sizes -----

  predicate Below(ids: seq<int>, n: nat)
  {
    forall i :: 0 <= i < |ids| ==> 0 <= ids[i] < n
  }

  predicate Distinct(ids: seq<int>)
  {
    forall i, j :: 0 <= i < j < |ids| ==> ids[i] != ids[j]
  }

  lemma {:induction false} SubsetSize<T>(a: set<T>, b: set<T>)
    requires a <= b
    ensures |a| <= |b|
    decreases a
  {
    if a != {} {
      var x :| x in a;
      SubsetSize(a - {x}, b - {x});
    }
  }

  lemma SameBelow(a: seq<int>, b: seq<int>, n: nat)
    requires Below(a, n) && SameIds(a, b)
    ensures Below(b, n)
  {
    forall i | 0 <= i < |b|
      ensures 0 <= b[i] < n
    {
      var x := b[i];
      assert x in b;
      assert x in a;
    }
  }
}
