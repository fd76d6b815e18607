/** That the bytes charged for the INT8 prefill scratch pay for the buffers taken from the arena. */
module ImmaCharge {
  import opened Arena
  import opened ImmaScratch

  /** The takes of a preallocation: bytes of activations, halves of scales, floats of row sums,
      and the split-K slice. */
  function Buffers(x: Scratch): seq<nat>
    requires x.Scratch?
  {
    var groups := x.rows * (x.k / 32);
    [x.rows * x.k, groups * 2, groups * 4, 0x80_0000]
  }

  lemma RoundedIsNear(bytes: nat)
    ensures Rounded(bytes) <= bytes + 255
  {
    FloorIsMultiple(bytes + 256 - 1, 256);
  }

  lemma {:induction false} TotalSnoc(sizes: seq<nat>, x: nat)
    ensures Total(sizes + [x]) <= Total(sizes) + x + 255 && Total(sizes + [x]) >= Total(sizes)
  {
    hide Rounded;
    assert (sizes + [x])[..|sizes|] == sizes;
    RoundedIsNear(x);
  }

  /** Whatever was taken before, the four takes cost no more than what is charged for them. */
  lemma {:induction false} ChargeCoversBuffers(before: seq<nat>, x: Scratch)
    requires x.Scratch?
    ensures Total(before + Buffers(x)) <= Total(before) + ScratchBytes(x)
  {
    hide Total, Groups;
    var bs := Buffers(x);
    var s1 := before + [bs[0]];
    var s2 := s1 + [bs[1]];
    var s3 := s2 + [bs[2]];
    assert before + bs == s3 + [bs[3]];
    TotalSnoc(before, bs[0]);
    TotalSnoc(s1, bs[1]);
    TotalSnoc(s2, bs[2]);
    TotalSnoc(s3, bs[3]);
    GroupsAre(x.rows, x.k);
  }

  lemma GroupsAre(rows: nat, k: nat)
    ensures Groups(rows, k) == rows * (k / 32) >= 0
  {
  }

  /** An arena that holds the earlier takes and the charge serves the preallocation exactly if
      a row has a scale group. */
  lemma {:induction false} PreallocationIsServedIff(before: seq<nat>, x: Scratch, committed: nat)
    requires x.Scratch? && x.rows > 0 && x.k > 0 && (forall i :: 0 <= i < |before| ==> before[i] > 0)
    requires Total(before) + ScratchBytes(x) <= committed < SIZES
    ensures Serve(committed, before + Buffers(x)).Span? <==> x.k >= 32
  {
    hide Total, ScratchBytes, Serve;
    if x.k >= 32 {
      ChargeCoversBuffers(before, x);
      BuffersAreFilled(x);
      SumServes(committed, before + Buffers(x));
    } else {
      var bs := Buffers(x);
      assert bs[1] == 0;
      var s2 := before + [bs[0]] + [bs[1]];
      assert before + bs == s2 + [bs[2]] + [bs[3]];
      NothingIsServed(committed, before + [bs[0]]);
      RefusalStays(committed, s2, bs[2]);
      RefusalStays(committed, s2 + [bs[2]], bs[3]);
    }
  }

  lemma {:induction false} NothingIsServed(committed: nat, sizes: seq<nat>)
    ensures Serve(committed, sizes + [0]).NoSpan?
  {
    assert (sizes + [0])[..|sizes|] == sizes;
  }

  lemma {:induction false} RefusalStays(committed: nat, sizes: seq<nat>, x: nat)
    requires Serve(committed, sizes).NoSpan?
    ensures Serve(committed, sizes + [x]).NoSpan?
  {
    assert (sizes + [x])[..|sizes|] == sizes;
  }

  lemma BuffersAreFilled(x: Scratch)
    requires x.Scratch? && x.rows > 0 && x.k >= 32
    ensures forall i :: 0 <= i < |Buffers(x)| ==> Buffers(x)[i] > 0
  {
    MulLe(x.rows, 1, x.k);
    MulLe(x.rows, 1, x.k / 32);
  }

  // ----- the split-K slice -----

  /** Into how many slices the K steps of a small product are split. */
  method SplitFactor(tiles: nat, steps: nat) returns (s: nat)
    ensures s == 1 || s == 2 || s == 4 || s == 8
    ensures s > 1 ==> tiles * s < 512 && 2 * s <= steps
    ensures s == 8 || tiles * s >= 256 || steps / (s * 2) < 2
  {
    s := 1;
    while s < 8 && tiles * s < 256 && steps / (s * 2) >= 2
      invariant s == 1 || s == 2 || s == 4 || s == 8
      invariant s > 1 ==> tiles * s < 512 && 2 * s <= steps
    {
      assert s * 2 <= steps;
      s := s * 2;
    }
  }

  function CeilDiv(a: nat, b: nat): nat
    requires b > 0
  {
    (a + b - 1) / b
  }

  lemma CeilAtMost(a: nat, b: nat, q: nat)
    requires b > 0 && a <= q * b
    ensures CeilDiv(a, b) <= q
  {
    if CeilDiv(a, b) > q {
      MulLe(b, q + 1, CeilDiv(a, b));
      assert false;
    }
  }

  lemma CeilAtLeast(a: nat, b: nat)
    requires b > 0
    ensures a <= CeilDiv(a, b) * b
  {
    var n := a + b - 1;
    assert n == b * (n / b) + n % b;
  }

  /** No more slices are used than asked for. */
  lemma UsedAtMost(steps: nat, s: nat)
    requires s > 0 && steps > 0
    ensures CeilDiv(steps, s) > 0 && CeilDiv(steps, CeilDiv(steps, s)) <= s
  {
    var per := CeilDiv(steps, s);
    CeilAtLeast(steps, s);
    assert per * s == s * per;
    CeilAtMost(steps, per, s);
  }

  lemma ColumnsFit(n: nat, tiles: nat, s: nat, used: nat)
    requires n <= tiles * 128 && used <= s && tiles * s < 512
    ensures n * used <= 0x1_0000
  {
    MulLe(n, used, s);
    MulLe(s, n, tiles * 128);
    assert n * s == s * n;
    assert s * (tiles * 128) == (tiles * s) * 128;
  }

  /** No split needs more than the eight megabytes charged for it: floats for up to 32 rows of
      `n` columns, in tiles of 128, per slice used. */
  lemma {:induction false} SplitKFits(m: nat, n: nat, steps: nat, s: nat)
    requires m <= 32 && 0 < s <= steps && CeilDiv(n, 128) * s < 512
    ensures CeilDiv(steps, s) > 0
    ensures var used := CeilDiv(steps, CeilDiv(steps, s)); m * (n * used) * 4 <= 0x80_0000
  {
    UsedAtMost(steps, s);
    CeilAtLeast(n, 128);
    var used := CeilDiv(steps, CeilDiv(steps, s));
    hide CeilDiv;
    ColumnsFit(n, CeilDiv(n, 128), s, used);
    MulLe(n * used, m, 32);
    assert m * (n * used) == (n * used) * m;
  }
}
