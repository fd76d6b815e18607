/** Sizing of the INT8 prefill scratch: one buffer for the dense and the expert route. */
module ImmaScratch {
  /** The facts of a model the sizing reads. */
  datatype Shape = Shape(maxSeqLen: int, isSsm: bool, isMoe: bool, denseK: int, expertK: int, expertsActive: int)

  datatype Scratch = NoScratch | Scratch(rows: nat, k: nat)

  const SPLIT_K_BYTES: nat := 0x80_0000

  function Min(a: int, b: int): int
  {
    if a < b then a else b
  }

  function Max(a: int, b: int): int
  {
    if a < b then b else a
  }

  function MaxTokens(s: Shape, seqLen: int): (t: int)
    ensures 0 < t <= 4096
  {
    var effective := if seqLen > 0 then seqLen else s.maxSeqLen;
    var capped := Min(effective, 4096);
    var t := if capped <= 0 then 4096 else capped;
    if s.isSsm && s.isMoe then Min(t, 2048) else t
  }

  /** The most tokens of a batch: no more than the context asked for, or else configured, and
      no more than 4096, or 2048 where experts and state-space layers meet. */
  lemma TokensIff(s: Shape, seqLen: int, t: int)
    ensures t <= MaxTokens(s, seqLen) <==>
            && t <= (if s.isSsm && s.isMoe then 2048 else 4096) && (seqLen > 0 ==> t <= seqLen)
            && (seqLen <= 0 && s.maxSeqLen > 0 ==> t <= s.maxSeqLen)
  {
  }

  /** Rows of a route: tokens for the dense one, tokens per active expert for the other. */
  function ExpertRows(s: Shape, seqLen: int): int
  {
    MaxTokens(s, seqLen) * Max(1, s.expertsActive)
  }

  /** Keeps the candidate with the larger product; ties keep the earlier one. */
  method Consider(best: Scratch, bytes: nat, rows: int, k: int) returns (best': Scratch, bytes': nat)
    requires bytes == if best.Scratch? then best.rows * best.k else 0
    ensures bytes' == if best'.Scratch? then best'.rows * best'.k else 0
    ensures rows > 0 && k > 0 && rows * k > bytes ==> best' == Scratch(rows, k)
    ensures !(rows > 0 && k > 0 && rows * k > bytes) ==> best' == best && bytes' == bytes
  {
    best', bytes' := best, bytes;
    if rows <= 0 || k <= 0 {
      return;
    }
    if rows * k > bytes {
      best', bytes' := Scratch(rows, k), rows * k;
    }
  }

  /** The expert route needs more than the dense one. */
  predicate ExpertWins(s: Shape)
  {
    s.expertK > 0 && Max(1, s.expertsActive) * s.expertK > s.denseK
  }

  function Chosen(s: Shape, seqLen: int): Scratch
  {
    if ExpertWins(s) then Scratch(ExpertRows(s, seqLen), s.expertK)
    else if s.denseK > 0 then Scratch(MaxTokens(s, seqLen), s.denseK)
    else NoScratch
  }

  lemma Scales(t: int, a: int, b: int)
    requires t > 0
    ensures t * a > t * b <==> a > b
  {
  }

  /** The choice does not depend on the number of tokens. */
  method ImmaScratchShape(s: Shape, seqLen: int) returns (best: Scratch)
    ensures best == Chosen(s, seqLen)
  {
    var t := MaxTokens(s, seqLen);
    var bytes;
    best, bytes := Consider(NoScratch, 0, t, s.denseK);
    if s.expertK > 0 {
      var e := Max(1, s.expertsActive);
      Scales(t, e * s.expertK, Max(0, s.denseK));
      Scales(t, s.denseK, 0);
      assert (t * e) * s.expertK == t * (e * s.expertK);
      best, bytes := Consider(best, bytes, t * e, s.expertK);
    } else {
      Scales(t, s.denseK, 0);
    }
  }

  /** Nothing but one of the two routes is sized for, and none only if there is no route. */
  lemma ChosenIsRoute(s: Shape, seqLen: int)
    ensures Chosen(s, seqLen) == NoScratch <==> s.denseK <= 0 && s.expertK <= 0
    ensures var x := Chosen(s, seqLen);
            x.Scratch? ==>
              || (x.rows == MaxTokens(s, seqLen) && x.k == s.denseK)
              || (x.rows == MaxTokens(s, seqLen) * Max(1, s.expertsActive) && x.k == s.expertK)
  {
    hide MaxTokens;
    if s.expertK > 0 {
      MulLe(s.expertK, 1, Max(1, s.expertsActive));
      assert Max(1, s.expertsActive) * s.expertK == s.expertK * Max(1, s.expertsActive);
    }
  }

  /** Elements and scale groups a route touches. */
  function Groups(rows: int, k: int): int
  {
    rows * (k / 32)
  }

  /** `x` has room for `rows` rows of `k`: elements and scale groups. */
  predicate Covers(x: Scratch, rows: int, k: int)
  {
    rows > 0 && k > 0 ==> x.Scratch? && rows * k <= x.rows * x.k && Groups(rows, k) <= Groups(x.rows, x.k)
  }

  lemma MulLe(t: int, a: int, b: int)
    requires t >= 0 && a <= b
    ensures t * a <= t * b
  {
  }

  /** Floors of multiples: `e` groups of `k` are no more than the groups of `e * k`. */
  lemma GroupsBelow(e: nat, k: nat)
    ensures e * (k / 32) <= (e * k) / 32
  {
    var q := k / 32;
    assert k == 32 * q + k % 32;
    assert e * k == 32 * (e * q) + e * (k % 32);
    assert e * (k % 32) >= 0;
  }

  lemma NoLargerRoute(t: int, e: int, k: int, d: int)
    requires t > 0 && e >= 1 && k > 0 && e * k <= d
    ensures (t * e) * k <= t * d && Groups(t * e, k) <= Groups(t, d)
  {
    GroupsBelow(e, k);
    ScaledBelow(t, e, k, d);
    ScaledBelow(t, e, k / 32, d / 32);
  }

  lemma ScaledBelow(t: int, e: int, a: int, b: int)
    requires t > 0 && e * a <= b
    ensures (t * e) * a <= t * b
  {
    MulLe(t, e * a, b);
    assert (t * e) * a == t * (e * a);
  }

  /** Winning by elements means winning by groups for the dense route, always. */
  lemma DenseCoversExpert(s: Shape, seqLen: int)
    requires !ExpertWins(s)
    ensures Covers(Chosen(s, seqLen), MaxTokens(s, seqLen), s.denseK)
    ensures s.expertK > 0 ==> Covers(Chosen(s, seqLen), ExpertRows(s, seqLen), s.expertK)
  {
    hide Groups, MaxTokens;
    if s.expertK > 0 {
      var e := Max(1, s.expertsActive);
      MulLe(e, 1, s.expertK);
      NoLargerRoute(MaxTokens(s, seqLen), e, s.expertK, s.denseK);
    }
  }

  /** When the expert route wins, the buffer serves both exactly when its scale groups do. */
  lemma CoversBothIff(s: Shape, seqLen: int)
    requires ExpertWins(s)
    ensures Covers(Chosen(s, seqLen), ExpertRows(s, seqLen), s.expertK)
    ensures Covers(Chosen(s, seqLen), MaxTokens(s, seqLen), s.denseK) <==>
            (s.denseK > 0 ==> s.denseK / 32 <= Max(1, s.expertsActive) * (s.expertK / 32))
  {
    var t, e := MaxTokens(s, seqLen), Max(1, s.expertsActive);
    MulLe(t, s.denseK, e * s.expertK);
    Scales(t, s.denseK / 32, e * (s.expertK / 32));
    assert (t * e) * s.expertK == t * (e * s.expertK);
    assert (t * e) * (s.expertK / 32) == t * (e * (s.expertK / 32));
    assert e >= 1 && t * e >= 1 by {
      MulLe(t, 1, e);
    }
  }

  /** An expert K that is a multiple of 32 is enough for both routes. */
  lemma AlignedCoversBoth(s: Shape, seqLen: int)
    requires s.expertK % 32 == 0
    ensures Covers(Chosen(s, seqLen), MaxTokens(s, seqLen), s.denseK)
    ensures s.expertK > 0 ==> Covers(Chosen(s, seqLen), ExpertRows(s, seqLen), s.expertK)
  {
    if ExpertWins(s) {
      CoversBothIff(s, seqLen);
      var e, q := Max(1, s.expertsActive), s.expertK / 32;
      assert s.expertK == 32 * q;
      assert e * s.expertK == 32 * (e * q);
    } else {
      DenseCoversExpert(s, seqLen);
    }
  }

  /** Otherwise the larger product need not have the larger number of groups. Only a direct
      caller of the overload that takes a shape can pass such a K: the shapes derived from
      model tensors have the block sizes of Q8_0, Q4_K and Q6_K, all multiples of 32. */
  lemma GroupsCanFallShort()
    ensures var s := Shape(4096, false, true, 64, 31, 3);
            ExpertWins(s) && forall n :: !Covers(Chosen(s, n), MaxTokens(s, n), s.denseK)
  {
    var s := Shape(4096, false, true, 64, 31, 3);
    forall n
      ensures !Covers(Chosen(s, n), MaxTokens(s, n), s.denseK)
    {
      CoversBothIff(s, n);
    }
  }

  function ScratchBytes(x: Scratch): int
  {
    if x.NoScratch? then 0 else x.rows * x.k + Groups(x.rows, x.k) * 6 + SPLIT_K_BYTES + 4 * 256
  }

  /** A longer context never needs less. */
  lemma ScratchIsMonotone(s: Shape, a: int, b: int)
    requires 0 < a <= b
    ensures MaxTokens(s, a) <= MaxTokens(s, b)
    ensures ScratchBytes(Chosen(s, a)) <= ScratchBytes(Chosen(s, b))
  {
    var t, u := MaxTokens(s, a), MaxTokens(s, b);
    if ExpertWins(s) {
      var e := Max(1, s.expertsActive);
      MulLe(e, t, u);
      MulLe(s.expertK, t * e, u * e);
      MulLe(s.expertK / 32, t * e, u * e);
    } else if s.denseK > 0 {
      MulLe(s.denseK, t, u);
      MulLe(s.denseK / 32, t, u);
    }
  }
}
