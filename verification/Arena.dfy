/** A bump arena over one region: spans are cut off in order and never freed one by one. */
module Arena {
  /** One past the largest value of a 64-bit size. */
  const SIZES: nat := 0x1_0000_0000_0000_0000

  /** What every take uses unless told otherwise, and what regions are aligned to. */
  const DEFAULT_ALIGNMENT: nat := 256

  predicate IsPowerOfTwo(a: nat)
  {
    a == 1 || (a > 1 && a % 2 == 0 && IsPowerOfTwo(a / 2))
  }

  /** The last multiple of `a` that is not above `x`. */
  function Floor(x: nat, a: nat): nat
    requires a > 0
  {
    x - x % a
  }

  /** Rounding up to a multiple, in 64-bit arithmetic. */
  function AlignUp(v: nat, a: nat): nat
    requires a > 0
  {
    Floor((v + a - 1) % SIZES, a)
  }

  /** A piece of the region, by offset and size. */
  datatype Span = NoSpan | Span(start: nat, len: nat)

  /** Where a take of an open arena starts, if it is served. */
  function TakeFrom(committed: nat, offset: nat, bytes: nat, alignment: nat): Span
  {
    if bytes == 0 || alignment == 0 || !IsPowerOfTwo(alignment) then NoSpan
    else
      var start := AlignUp(offset, alignment);
      if start > committed || bytes > committed - start then NoSpan else Span(start, bytes)
  }

  // ----- rounding -----

  lemma AtLeastOnce(d: nat, a: nat)
    requires d > 0
    ensures d * a >= a
  {
  }

  /** Quotient and remainder are unique. */
  lemma ModUnique(x: nat, a: nat, q: nat, r: nat)
    requires r < a && x == q * a + r
    ensures x % a == r
  {
    var p, s := x / a, x % a;
    assert x == p * a + s;
    if q > p {
      AtLeastOnce(q - p, a);
    } else if p > q {
      AtLeastOnce(p - q, a);
    }
  }

  lemma FloorIsMultiple(x: nat, a: nat)
    requires a > 0
    ensures Floor(x, a) <= x < Floor(x, a) + a && Floor(x, a) % a == 0
  {
    assert Floor(x, a) == (x / a) * a + 0;
    ModUnique(Floor(x, a), a, x / a, 0);
  }

  /** While the sum fits 64 bits, the least multiple that is not below. */
  lemma AlignUpIsLeast(v: nat, a: nat)
    requires a > 0 && v + a - 1 < SIZES
    ensures v <= AlignUp(v, a) < v + a && AlignUp(v, a) % a == 0
  {
    hide Floor;
    var x := v + a - 1;
    assert x % SIZES == x;
    FloorIsMultiple(x, a);
  }

  /** Beyond that it wraps to the start of the region. */
  lemma AlignUpWraps(v: nat, a: nat)
    requires 0 < a < SIZES && v < SIZES && v + a - 1 >= SIZES
    ensures AlignUp(v, a) == 0
  {
    var x := (v + a - 1) % SIZES;
    assert x == v + a - 1 - SIZES && x < a;
    ModUnique(x, a, 0, x);
  }

  /** Rounding never goes back exactly when it does not wrap. */
  lemma AlignUpIff(v: nat, a: nat)
    requires 0 < a < SIZES && 0 < v < SIZES
    ensures AlignUp(v, a) >= v <==> v + a - 1 < SIZES
  {
    if v + a - 1 < SIZES {
      AlignUpIsLeast(v, a);
    } else {
      AlignUpWraps(v, a);
    }
  }

  /** Every power of two that fits 64 bits is at most half of their range. */
  lemma {:induction false} PowerIsSmall(a: nat, limit: nat)
    requires IsPowerOfTwo(a) && IsPowerOfTwo(limit) && a < limit
    ensures 2 * a <= limit
    decreases a
  {
    if a > 1 {
      PowerIsSmall(a / 2, limit / 2);
    }
  }

  lemma {:induction false} Doubles(p: nat)
    requires p > 0 && IsPowerOfTwo(p)
    ensures IsPowerOfTwo(2 * p)
  {
    assert (2 * p) / 2 == p;
  }

  lemma {:induction false} TimesByte(p: nat)
    requires p > 0 && IsPowerOfTwo(p)
    ensures IsPowerOfTwo(0x100 * p)
  {
    hide IsPowerOfTwo;
    Doubles(p);
    Doubles(2 * p);
    Doubles(4 * p);
    Doubles(8 * p);
    Doubles(16 * p);
    Doubles(32 * p);
    Doubles(64 * p);
    Doubles(128 * p);
  }

  lemma SizesIsPower()
    ensures IsPowerOfTwo(SIZES)
  {
    assert IsPowerOfTwo(1);
    hide IsPowerOfTwo;
    TimesByte(1);
    TimesByte(0x100);
    TimesByte(0x1_0000);
    TimesByte(0x100_0000);
    TimesByte(0x1_0000_0000);
    TimesByte(0x100_0000_0000);
    TimesByte(0x1_0000_0000_0000);
    TimesByte(0x100_0000_0000_0000);
  }

  // ----- a run of takes -----

  /** Spans in order, each behind the one before, all below `offset`. */
  predicate Stacked(spans: seq<Span>, offset: nat)
  {
    && (forall i :: 0 <= i < |spans| ==> spans[i].Span? && spans[i].len > 0 && spans[i].start + spans[i].len <= offset)
    && (forall i, j :: 0 <= i < j < |spans| ==> spans[i].start + spans[i].len <= spans[j].start)
  }

  /** Rounding this offset up to this alignment leaves the 64-bit range. */
  predicate Overflows(offset: nat, alignment: nat)
  {
    offset + alignment > SIZES
  }

  /** A region of at most half the address range cannot overflow. */
  lemma {:induction false} HalfNeverOverflows(offset: nat, alignment: nat)
    requires offset <= SIZES / 2 && IsPowerOfTwo(alignment) && alignment < SIZES
    ensures !Overflows(offset, alignment)
  {
    SizesIsPower();
    PowerIsSmall(alignment, SIZES);
  }

  /** A served take lies in the region at an aligned offset. It lies behind the spans before
      it exactly if there are none or the rounding did not overflow; otherwise it is cut off
      the start of the region once more. */
  lemma TakeStacks(spans: seq<Span>, committed: nat, offset: nat, bytes: nat, alignment: nat)
    requires Stacked(spans, offset) && offset <= committed < SIZES && alignment < SIZES
    requires TakeFrom(committed, offset, bytes, alignment).Span?
    ensures var s := TakeFrom(committed, offset, bytes, alignment);
            && s.start % alignment == 0 && s.start + s.len <= committed && s.len == bytes
            && (Stacked(spans + [s], s.start + s.len) <==> spans == [] || !Overflows(offset, alignment))
            && (if Overflows(offset, alignment) then s.start == 0 else offset <= s.start)
  {
    hide IsPowerOfTwo;
    var s := TakeFrom(committed, offset, bytes, alignment);
    if Overflows(offset, alignment) {
      AlignUpWraps(offset, alignment);
      if spans != [] {
        NotBehind(spans, s);
      }
    } else {
      AlignUpIsLeast(offset, alignment);
    }
  }

  lemma NotBehind(spans: seq<Span>, s: Span)
    requires spans != [] && s.Span? && s.start == 0 && spans[0].Span? && spans[0].len > 0
    ensures !Stacked(spans + [s], s.start + s.len)
  {
    var all := spans + [s];
    assert all[0] == spans[0] && all[|spans|] == s;
  }

  /** A span's address is aligned when the region is, for alignments that divide 256. */
  lemma AddressIsAligned(base: nat, start: nat, alignment: nat)
    requires base % 256 == 0 && alignment > 0 && 256 % alignment == 0 && start % alignment == 0
    ensures (base + start) % alignment == 0
  {
    var b, d, s := base / 256, 256 / alignment, start / alignment;
    assert 256 == d * alignment;
    assert base == b * 256 && start == s * alignment;
    assert b * (d * alignment) == (b * d) * alignment;
    assert base + start == (b * d + s) * alignment by {
      assert (b * d + s) * alignment == (b * d) * alignment + s * alignment;
    }
    ModUnique(base + start, alignment, b * d + s, 0);
  }

  lemma ServedWithin(committed: nat, offset: nat, bytes: nat, alignment: nat)
    requires offset < SIZES && alignment < SIZES && TakeFrom(committed, offset, bytes, alignment).Span?
    ensures var s := TakeFrom(committed, offset, bytes, alignment);
            s.start % alignment == 0 && s.start + s.len <= committed
  {
    FloorIsMultiple((offset + alignment - 1) % SIZES, alignment);
  }

  // ----- any order of takes -----

  function Rounded(bytes: nat): nat
  {
    Floor(bytes + DEFAULT_ALIGNMENT - 1, DEFAULT_ALIGNMENT)
  }

  function Total(sizes: seq<nat>): nat
  {
    if sizes == [] then 0 else Total(sizes[..|sizes| - 1]) + Rounded(sizes[|sizes| - 1])
  }

  /** The offset after default-aligned takes, if all were served. */
  function Serve(committed: nat, sizes: seq<nat>): (r: Span)
  {
    if sizes == [] then Span(0, 0)
    else
      var before := Serve(committed, sizes[..|sizes| - 1]);
      if before.NoSpan? then NoSpan
      else TakeFrom(committed, before.start + before.len, sizes[|sizes| - 1], DEFAULT_ALIGNMENT)
  }

  lemma {:induction false} TotalIsMultiple(sizes: seq<nat>)
    ensures Total(sizes) % 256 == 0
    decreases |sizes|
  {
    if sizes != [] {
      TotalIsMultiple(sizes[..|sizes| - 1]);
    }
  }

  lemma SameMultiple(v: nat, a: nat, b: nat)
    requires v <= a < v + 256 && v <= b < v + 256
    requires a % 256 == 0 && b % 256 == 0
    ensures a == b
  {
  }

  lemma DefaultIsPower()
    ensures IsPowerOfTwo(256)
  {
    TimesByte(1);
  }

  /** A capacity of the sum of the rounded sizes serves them in this order. */
  lemma {:induction false} SumServes(committed: nat, sizes: seq<nat>)
    requires Total(sizes) <= committed < SIZES && forall i :: 0 <= i < |sizes| ==> sizes[i] > 0
    ensures var s := Serve(committed, sizes);
            s.Span? && s.start + s.len <= Total(sizes) < s.start + s.len + 256
    decreases |sizes|
  {
    hide AlignUp, IsPowerOfTwo;
    if sizes != [] {
      var init, x := sizes[..|sizes| - 1], sizes[|sizes| - 1];
      SumServes(committed, init);
      var b := Serve(committed, init);
      TotalIsMultiple(sizes);
      AlignUpIsLeast(b.start + b.len, 256);
      TotalIsMultiple(init);
      SameMultiple(b.start + b.len, AlignUp(b.start + b.len, 256), Total(init));
      DefaultIsPower();
    }
  }

  lemma {:induction false} TotalDrops(sizes: seq<nat>, k: nat)
    requires k < |sizes|
    ensures Total(sizes) == Total(sizes[..k] + sizes[k + 1..]) + Rounded(sizes[k])
    decreases |sizes|
  {
    hide Rounded;
    var n := |sizes| - 1;
    if k == n {
      assert sizes[..k] + sizes[k + 1..] == sizes[..n];
    } else {
      var rest := sizes[..k] + sizes[k + 1..];
      assert rest[..n - 1] == sizes[..n][..k] + sizes[..n][k + 1..];
      TotalDrops(sizes[..n], k);
    }
  }

  lemma Without(s: seq<nat>, k: nat)
    requires k < |s|
    ensures multiset(s[..k] + s[k + 1..]) == multiset(s) - multiset{s[k]}
  {
    assert s == s[..k] + [s[k]] + s[k + 1..];
  }

  /** The sum does not depend on the order. */
  lemma {:induction false} TotalIsOrderless(a: seq<nat>, b: seq<nat>)
    requires multiset(a) == multiset(b)
    ensures Total(a) == Total(b)
    decreases |a|
  {
    hide Rounded;
    if a == [] {
      assert |multiset(b)| == 0;
    } else {
      var n := |a| - 1;
      assert a[n] in multiset(a);
      var k :| 0 <= k < |b| && b[k] == a[n];
      Without(b, k);
      Without(a, n);
      assert a[..n] + a[n + 1..] == a[..n];
      TotalIsOrderless(a[..n], b[..k] + b[k + 1..]);
      TotalDrops(b, k);
    }
  }

  /** Sizing by the sum of the rounded sizes serves them in every order. */
  lemma {:induction false} AnyOrderIsServed(committed: nat, sizes: seq<nat>, order: seq<nat>)
    requires multiset(order) == multiset(sizes) && Total(sizes) <= committed < SIZES
    requires forall i :: 0 <= i < |sizes| ==> sizes[i] > 0
    ensures Serve(committed, order).Span?
  {
    TotalIsOrderless(order, sizes);
    forall i | 0 <= i < |order|
      ensures order[i] > 0
    {
      assert order[i] in multiset(order);
      assert order[i] in multiset(sizes);
    }
    SumServes(committed, order);
  }

  datatype Result = Ok | InvalidArgument | Refused

  class ArenaAllocator {
    var isOpen: bool
    var base: nat
    var committed: nat
    var offset: nat
    var highWater: nat
    var generation: nat

    /** Spans handed out since the last generation bump. */
    ghost var spans: seq<Span>

    ghost predicate Valid()
      reads this
    {
      && offset <= committed < SIZES && offset <= highWater <= committed && base % 256 == 0
      && (!isOpen ==> committed == 0)
      && (committed <= SIZES / 2 ==> Stacked(spans, offset))
      && forall i :: 0 <= i < |spans| ==> spans[i].Span? && spans[i].start + spans[i].len <= committed
    }

    constructor ()
      ensures Valid() && !isOpen && spans == []
    {
      isOpen, base, committed, offset, highWater, generation := false, 0, 0, 0, 0, 0;
      spans := [];
    }

    /** `address` is where the backend put the region, if it had the room. */
    method Open(capacity: nat, granted: bool, address: nat) returns (r: Result)
      requires Valid() && capacity < SIZES && address % 256 == 0
      modifies this
      ensures Valid() && generation == old(generation)
      ensures r == if old(isOpen) || capacity == 0 then InvalidArgument else if granted then Ok else Refused
      ensures r == Ok ==> isOpen && base == address && committed == capacity && offset == highWater == 0 && spans == []
      ensures r != Ok ==> unchanged(this)
    {
      if isOpen || capacity == 0 {
        return InvalidArgument;
      }
      if !granted {
        return Refused;
      }
      isOpen, base, committed, offset, highWater := true, address, capacity, 0, 0;
      spans := [];
      r := Ok;
    }

    method Close()
      requires Valid()
      modifies this
      ensures Valid() && !isOpen
      ensures old(isOpen) ==> spans == [] && offset == highWater == 0 && generation == old(generation) + 1
      ensures !old(isOpen) ==> unchanged(this)
    {
      if !isOpen {
        return;
      }
      isOpen, base, committed, offset, highWater := false, 0, 0, 0, 0;
      generation := generation + 1;
      spans := [];
    }

    method Reset()
      requires Valid()
      modifies `offset, `generation, `spans
      ensures Valid() && offset == 0 && spans == [] && generation == old(generation) + 1
    {
      offset, generation, spans := 0, generation + 1, [];
    }

    /** A served span lies in the region, at an aligned offset, and behind every span before
        it as long as no rounding overflows; a refused take changes nothing. */
    method TakeBytes(bytes: nat, alignment: nat) returns (s: Span)
      requires Valid() && alignment < SIZES
      modifies `offset, `highWater, `spans
      ensures Valid() && s == if isOpen then TakeFrom(committed, old(offset), bytes, alignment) else NoSpan
      ensures s.NoSpan? ==> unchanged(this)
      ensures s.Span? ==>
                && spans == old(spans) + [s] && offset == s.start + s.len && s.start % alignment == 0
                && highWater == (if offset > old(highWater) then offset else old(highWater))
                && (old(Stacked(spans, offset)) ==>
                      (Stacked(spans, offset) <==> old(spans) == [] || !Overflows(old(offset), alignment)))
    {
      s := NoSpan;
      if bytes == 0 || alignment == 0 || !IsPowerOfTwo(alignment) {
        return;
      }
      if !isOpen {
        return;
      }
      var start := AlignUp(offset, alignment);
      if start > committed || bytes > committed - start {
        return;
      }
      s := Span(start, bytes);
      ServedWithin(committed, offset, bytes, alignment);
      if Stacked(spans, offset) {
        TakeStacks(spans, committed, offset, bytes, alignment);
      }
      if committed <= SIZES / 2 {
        HalfNeverOverflows(offset, alignment);
      }
      offset := start + bytes;
      highWater := if offset > highWater then offset else highWater;
      spans := spans + [s];
    }
  }
}
