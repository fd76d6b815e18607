/** Codepoint sets of a grammar item: inclusive ranges with optional negation. */
module CharSets {

  /** The source keeps codepoints and range ends in 32-bit unsigned integers. */
  type uint32 = x: int | 0 <= x < 0x1_0000_0000

  type byte = x: int | 0 <= x < 256

  /** A text as codepoints. */
  type Word = seq<uint32>

  const MAX_CODEPOINT: uint32 := 0x10FFFF

  datatype Range = Range(lo: uint32, hi: uint32)

  datatype CharSet = CharSet(ranges: seq<Range>, negated: bool)

  predicate InRange(r: Range, c: uint32)
  {
    r.lo <= c <= r.hi
  }

  predicate Covered(ranges: seq<Range>, c: uint32)
  {
    exists i :: 0 <= i < |ranges| && InRange(ranges[i], c)
  }

  /** Membership, the reference meaning of a character set. */
  predicate Contains(cs: CharSet, c: uint32)
  {
    Covered(cs.ranges, c) != cs.negated
  }

  /** The grammar parser refuses inverted ranges. */
  predicate WellFormed(cs: CharSet)
  {
    forall i :: 0 <= i < |cs.ranges| ==> cs.ranges[i].lo <= cs.ranges[i].hi
  }

  ghost predicate Meets(cs: CharSet, lo: uint32, hi: uint32)
  {
    exists c: uint32 :: lo <= c <= hi && Contains(cs, c)
  }

  method Matches(cs: CharSet, cp: uint32) returns (m: bool)
    ensures m == Contains(cs, cp)
  {
    var found := false;
    for i := 0 to |cs.ranges|
      invariant !found
      invariant forall j :: 0 <= j < i ==> !InRange(cs.ranges[j], cp)
    {
      if cs.ranges[i].lo <= cp && cp <= cs.ranges[i].hi {
        found := true;
        break;
      }
    }
    return if cs.negated then !found else found;
  }

  predicate Before(a: Range, b: Range)
  {
    a.lo < b.lo || (a.lo == b.lo && a.hi <= b.hi)
  }

  predicate Sorted(rs: seq<Range>)
  {
    forall i, j :: 0 <= i < j < |rs| ==> Before(rs[i], rs[j])
  }

  ghost predicate SameRanges(a: seq<Range>, b: seq<Range>)
  {
    forall r :: r in a <==> r in b
  }

  lemma InsertKeepsSorted(rs: seq<Range>, k: nat, r: Range, out: seq<Range>)
    requires k <= |rs| && Sorted(rs) && out == rs[..k] + [r] + rs[k..]
    requires k > 0 ==> Before(rs[k - 1], r)
    requires forall j :: k <= j < |rs| ==> Before(r, rs[j])
    ensures Sorted(out)
  {
    forall i, j | 0 <= i < j < |out|
      ensures Before(out[i], out[j])
    {
      assert i < k - 1 ==> Before(rs[i], rs[k - 1]);
    }
  }

  method InsertSorted(rs: seq<Range>, r: Range) returns (out: seq<Range>)
    requires Sorted(rs)
    ensures Sorted(out) && SameRanges(out, rs + [r])
  {
    var k := |rs|;
    while k > 0 && !Before(rs[k - 1], r)
      invariant 0 <= k <= |rs|
      invariant forall j :: k <= j < |rs| ==> Before(r, rs[j])
    {
      k := k - 1;
    }
    out := rs[..k] + [r] + rs[k..];
    InsertKeepsSorted(rs, k, r, out);
    assert rs == rs[..k] + rs[k..];
    assert forall x :: x in out <==> x in rs || x == r;
  }

  method SortRanges(rs: seq<Range>) returns (out: seq<Range>)
    ensures Sorted(out) && SameRanges(out, rs)
  {
    out := [];
    for i := 0 to |rs|
      invariant Sorted(out) && SameRanges(out, rs[..i])
    {
      assert rs[..i + 1] == rs[..i] + [rs[i]];
      out := InsertSorted(out, rs[i]);
    }
    assert rs[..|rs|] == rs;
  }

  lemma CoveredBySame(a: seq<Range>, b: seq<Range>, c: uint32)
    requires SameRanges(a, b) && Covered(a, c)
    ensures Covered(b, c)
  {
    var i :| 0 <= i < |a| && InRange(a[i], c);
    assert a[i] in b;
    var j :| 0 <= j < |b| && b[j] == a[i];
  }

  /** What the walk for a hole answers: is a codepoint of [lo, hi] left uncovered? Between
      crossed bounds there is none, but the walk can still stop at `lo`. */
  ghost predicate Hole(ranges: seq<Range>, lo: uint32, hi: uint32)
  {
    if lo <= hi then exists c: uint32 :: lo <= c <= hi && !Covered(ranges, c)
    else !Covered(ranges, lo) && exists i :: 0 <= i < |ranges| && ranges[i].hi >= lo
  }

  lemma AheadIsUncovered(ranges: seq<Range>, rs: seq<Range>, i: nat, cur: uint32)
    requires SameRanges(rs, ranges) && Sorted(rs) && i <= |rs|
    requires (forall j :: 0 <= j < i ==> rs[j].hi < cur) && (i < |rs| ==> rs[i].lo > cur)
    ensures !Covered(ranges, cur)
  {
    forall j | 0 <= j < |rs|
      ensures !InRange(rs[j], cur)
    {
      assert i < j ==> Before(rs[i], rs[j]);
    }
    if Covered(ranges, cur) {
      CoveredBySame(ranges, rs, cur);
    }
  }

  lemma ReachedBySame(a: seq<Range>, b: seq<Range>, lo: uint32)
    requires SameRanges(a, b) && forall j :: 0 <= j < |a| ==> a[j].hi < lo
    ensures forall j :: 0 <= j < |b| ==> b[j].hi < lo
  {
    forall j | 0 <= j < |b|
      ensures b[j].hi < lo
    {
      assert b[j] in a;
    }
  }

  /** The walk over sorted ranges that looks for a codepoint of [lo, hi] left
      uncovered. `cur` stays inside 32 bits: it is only ever moved past a range
      end that is below `hi`. */
  method HasHole(ranges: seq<Range>, lo: uint32, hi: uint32) returns (hole: bool)
    ensures hole <==> Hole(ranges, lo, hi)
  {
    var rs := SortRanges(ranges);
    var cur: uint32 := lo;
    for i := 0 to |rs|
      invariant if lo <= hi then lo <= cur <= hi else cur == lo
      invariant forall c: uint32 :: lo <= c < cur ==> Covered(ranges, c)
      invariant forall j :: 0 <= j < i ==> rs[j].hi < cur
    {
      if rs[i].hi < cur {
        continue;
      }
      assert rs[i] in ranges;
      var j :| 0 <= j < |ranges| && ranges[j] == rs[i];
      if rs[i].lo > cur {
        AheadIsUncovered(ranges, rs, i, cur);
        return true;
      }
      assert forall c: uint32 :: cur <= c <= rs[i].hi ==> InRange(ranges[j], c);
      if rs[i].hi >= hi {
        return false;
      }
      cur := rs[i].hi + 1;
    }
    AheadIsUncovered(ranges, rs, |rs|, cur);
    ReachedBySame(rs, ranges, cur);
    return cur <= hi;
  }

  /** What the intersection test answers for any ranges and bounds. */
  ghost predicate Overlaps(cs: CharSet, lo: uint32, hi: uint32)
  {
    if cs.negated then Hole(cs.ranges, lo, hi)
    else exists i :: 0 <= i < |cs.ranges| && cs.ranges[i].lo <= hi && lo <= cs.ranges[i].hi
  }

  method Intersects(cs: CharSet, lo: uint32, hi: uint32) returns (b: bool)
    ensures b <==> Overlaps(cs, lo, hi)
    ensures lo <= hi && (cs.negated || WellFormed(cs)) ==> (b <==> Meets(cs, lo, hi))
  {
    if lo <= hi && (cs.negated || WellFormed(cs)) {
      OverlapsIsMeets(cs, lo, hi);
    }
    if cs.negated {
      b := HasHole(cs.ranges, lo, hi);
      return;
    }
    for i := 0 to |cs.ranges|
      invariant forall j :: 0 <= j < i ==> cs.ranges[j].lo > hi || lo > cs.ranges[j].hi
    {
      if cs.ranges[i].lo <= hi && lo <= cs.ranges[i].hi {
        return true;
      }
    }
    return false;
  }

  /** That is "some codepoint of [lo, hi] is a member", for overlapping and unsorted ranges,
      negated or not, if the bounds are in order and the set is negated or has no inverted
      range. */
  lemma OverlapsIsMeets(cs: CharSet, lo: uint32, hi: uint32)
    requires lo <= hi && (cs.negated || WellFormed(cs))
    ensures Overlaps(cs, lo, hi) <==> Meets(cs, lo, hi)
  {
    if Overlaps(cs, lo, hi) {
      if cs.negated {
        var c: uint32 :| lo <= c <= hi && !Covered(cs.ranges, c);
        assert Contains(cs, c);
      } else {
        var i :| 0 <= i < |cs.ranges| && cs.ranges[i].lo <= hi && lo <= cs.ranges[i].hi;
        var c := if lo < cs.ranges[i].lo then cs.ranges[i].lo else lo;
        assert InRange(cs.ranges[i], c);
        assert Contains(cs, c);
      }
    }
  }

  /** Without negation, inverted ranges and crossed bounds can only add answers: one set and
      one range of bounds at which each does. */
  lemma OverlapsCanOverstate(cs: CharSet, lo: uint32, hi: uint32)
    ensures !cs.negated && Meets(cs, lo, hi) ==> Overlaps(cs, lo, hi)
    ensures var inverted, plain := CharSet([Range(5, 3)], false), CharSet([Range(2, 9)], false);
            && Overlaps(inverted, 3, 5) && !Meets(inverted, 3, 5)
            && Overlaps(plain, 7, 4) && !Meets(plain, 7, 4)
  {
    var inverted, plain := CharSet([Range(5, 3)], false), CharSet([Range(2, 9)], false);
    assert inverted.ranges[0] == Range(5, 3) && plain.ranges[0] == Range(2, 9);
    if !cs.negated && Meets(cs, lo, hi) {
      var c: uint32 :| lo <= c <= hi && Contains(cs, c);
      var i :| 0 <= i < |cs.ranges| && InRange(cs.ranges[i], c);
      assert cs.ranges[i].lo <= hi && lo <= cs.ranges[i].hi;
    }
  }
}
