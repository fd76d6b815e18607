/** Formal languages over an arbitrary alphabet: the reference meanings that both
    the grammar engine and the regex engine are measured against. */
module Languages {

  type Lang<!T(==)> = iset<seq<T>>

  ghost function Unit<T(!new)>(): Lang<T>
  {
    iset{[]}
  }

  /** `w` is a word of `a` followed by a word of `b`, cut after `k` symbols. */
  ghost predicate CutsAt<T(!new)>(a: Lang<T>, b: Lang<T>, w: seq<T>, k: nat)
  {
    k <= |w| && w[..k] in a && w[k..] in b
  }

  ghost predicate InCat<T(!new)>(a: Lang<T>, b: Lang<T>, w: seq<T>)
  {
    exists k: nat :: CutsAt(a, b, w, k)
  }

  ghost function Cat<T(!new)>(a: Lang<T>, b: Lang<T>): Lang<T>
  {
    iset w: seq<T> | InCat(a, b, w)
  }

  ghost function Pow<T(!new)>(a: Lang<T>, n: nat): Lang<T>
  {
    if n == 0 then Unit() else Cat(a, Pow(a, n - 1))
  }

  /** Between `lo` and `hi` repetitions; `hi < 0` means no upper bound. */
  ghost predicate InBounds(n: nat, lo: nat, hi: int)
  {
    lo <= n && (hi < 0 || n <= hi)
  }

  ghost predicate RepeatsIn<T(!new)>(a: Lang<T>, lo: nat, hi: int, w: seq<T>, n: nat)
  {
    InBounds(n, lo, hi) && w in Pow(a, n)
  }

  ghost predicate InRepeat<T(!new)>(a: Lang<T>, lo: nat, hi: int, w: seq<T>)
  {
    exists n: nat :: RepeatsIn(a, lo, hi, w, n)
  }

  ghost function Repeat<T(!new)>(a: Lang<T>, lo: nat, hi: int): Lang<T>
  {
    iset w: seq<T> | InRepeat(a, lo, hi, w)
  }

  lemma CatIntro<T(!new)>(a: Lang<T>, b: Lang<T>, u: seq<T>, v: seq<T>)
    requires u in a && v in b
    ensures u + v in Cat(a, b)
  {
    var w := u + v;
    assert w[..|u|] == u && w[|u|..] == v;
    assert CutsAt(a, b, w, |u|);
  }

  lemma UnitCat<T(!new)>(a: Lang<T>)
    ensures Cat(Unit(), a) == a
  {
    forall w: seq<T>
      ensures w in Cat(Unit(), a) <==> w in a
    {
      if w in a {
        assert w[..0] == [] && w[0..] == w;
        assert CutsAt(Unit(), a, w, 0);
      }
      if w in Cat(Unit(), a) {
        var k: nat :| CutsAt(Unit(), a, w, k);
        assert w[k..] == w;
      }
    }
  }

  lemma CatUnit<T(!new)>(a: Lang<T>)
    ensures Cat(a, Unit()) == a
  {
    forall w: seq<T>
      ensures w in Cat(a, Unit()) <==> w in a
    {
      if w in a {
        assert w[..|w|] == w && w[|w|..] == [];
        assert CutsAt(a, Unit(), w, |w|);
      }
      if w in Cat(a, Unit()) {
        var k: nat :| CutsAt(a, Unit(), w, k);
        assert w[..k] == w;
      }
    }
  }

  lemma CatAssoc<T(!new)>(a: Lang<T>, b: Lang<T>, c: Lang<T>)
    ensures Cat(Cat(a, b), c) == Cat(a, Cat(b, c))
  {
    forall w: seq<T>
      ensures w in Cat(Cat(a, b), c) <==> w in Cat(a, Cat(b, c))
    {
      if w in Cat(Cat(a, b), c) {
        var k: nat :| CutsAt(Cat(a, b), c, w, k);
        var j: nat :| CutsAt(a, b, w[..k], j);
        assert w[..k][..j] == w[..j] && w == w[..j] + (w[..k][j..] + w[k..]);
        CatIntro(b, c, w[..k][j..], w[k..]);
        CatIntro(a, Cat(b, c), w[..j], w[..k][j..] + w[k..]);
      }
      if w in Cat(a, Cat(b, c)) {
        var k: nat :| CutsAt(a, Cat(b, c), w, k);
        var j: nat :| CutsAt(b, c, w[k..], j);
        assert w == (w[..k] + w[k..][..j]) + w[k..][j..];
        CatIntro(a, b, w[..k], w[k..][..j]);
        CatIntro(Cat(a, b), c, w[..k] + w[k..][..j], w[k..][j..]);
      }
    }
  }

  /** Powers add up: the law behind every counted repetition. */
  lemma {:induction false} PowAdd<T(!new)>(a: Lang<T>, m: nat, n: nat)
    ensures Cat(Pow(a, m), Pow(a, n)) == Pow(a, m + n)
    decreases m
  {
    if m == 0 {
      UnitCat(Pow(a, n));
    } else {
      CatAssoc(a, Pow(a, m - 1), Pow(a, n));
      PowAdd(a, m - 1, n);
    }
  }

  lemma {:induction false} PowMonotone<T(!new)>(a: Lang<T>, b: Lang<T>, n: nat)
    requires a <= b
    ensures Pow(a, n) <= Pow(b, n)
    decreases n
  {
    if n > 0 {
      PowMonotone(a, b, n - 1);
      CatMonotone(a, b, Pow(a, n - 1), Pow(b, n - 1));
    }
  }

  lemma CatMonotone<T(!new)>(a: Lang<T>, b: Lang<T>, c: Lang<T>, d: Lang<T>)
    requires a <= b && c <= d
    ensures Cat(a, c) <= Cat(b, d)
  {
    forall w | w in Cat(a, c)
      ensures w in Cat(b, d)
    {
      var k: nat :| CutsAt(a, c, w, k);
      assert CutsAt(b, d, w, k);
    }
  }

  lemma RepeatMonotone<T(!new)>(a: Lang<T>, b: Lang<T>, lo: nat, hi: int)
    requires a <= b
    ensures Repeat(a, lo, hi) <= Repeat(b, lo, hi)
  {
    forall w | w in Repeat(a, lo, hi)
      ensures w in Repeat(b, lo, hi)
    {
      var n: nat :| RepeatsIn(a, lo, hi, w, n);
      PowMonotone(a, b, n);
      assert RepeatsIn(b, lo, hi, w, n);
    }
  }

  /** One word more in front raises both bounds by one. */
  lemma RepeatCons<T(!new)>(a: Lang<T>, lo: nat, hi: int, u: seq<T>, v: seq<T>)
    requires u in a && v in Repeat(a, lo, hi)
    ensures u + v in Repeat(a, lo + 1, if hi < 0 then hi else hi + 1)
  {
    var n: nat :| RepeatsIn(a, lo, hi, v, n);
    CatIntro(a, Pow(a, n), u, v);
    assert RepeatsIn(a, lo + 1, if hi < 0 then hi else hi + 1, u + v, n + 1);
  }

  lemma RepeatNone<T(!new)>(a: Lang<T>, hi: int)
    ensures [] in Repeat(a, 0, hi)
    ensures Repeat(a, 0, 0) == Unit()
  {
    assert RepeatsIn(a, 0, hi, [], 0);
    forall w: seq<T>
      ensures w in Repeat(a, 0, 0) <==> w in Unit<T>()
    {
      if w == [] {
        assert RepeatsIn(a, 0, 0, w, 0);
      }
    }
  }

  lemma RepeatWider<T(!new)>(a: Lang<T>, lo: nat, hi: int, lo': nat, hi': int)
    requires lo' <= lo && (hi' < 0 || 0 <= hi <= hi')
    ensures Repeat(a, lo, hi) <= Repeat(a, lo', hi')
  {
    forall w | w in Repeat(a, lo, hi)
      ensures w in Repeat(a, lo', hi')
    {
      var n: nat :| RepeatsIn(a, lo, hi, w, n);
      assert RepeatsIn(a, lo', hi', w, n);
    }
  }

  /** `lo` copies followed by up to `extra` more are between `lo` and `lo + extra`. */
  lemma {:induction false} RepeatSplit<T(!new)>(a: Lang<T>, lo: nat, extra: int)
    ensures Cat(Pow(a, lo), Repeat(a, 0, extra)) == Repeat(a, lo, if extra < 0 then extra else lo + extra)
  {
    var hi := if extra < 0 then extra else lo + extra;
    forall w: seq<T>
      ensures w in Cat(Pow(a, lo), Repeat(a, 0, extra)) <==> w in Repeat(a, lo, hi)
    {
      if w in Cat(Pow(a, lo), Repeat(a, 0, extra)) {
        var k: nat :| CutsAt(Pow(a, lo), Repeat(a, 0, extra), w, k);
        var n: nat :| RepeatsIn(a, 0, extra, w[k..], n);
        assert CutsAt(Pow(a, lo), Pow(a, n), w, k);
        PowAdd(a, lo, n);
        assert RepeatsIn(a, lo, hi, w, lo + n);
      }
      if w in Repeat(a, lo, hi) {
        var n: nat :| RepeatsIn(a, lo, hi, w, n);
        PowAdd(a, lo, n - lo);
        var k: nat :| CutsAt(Pow(a, lo), Pow(a, n - lo), w, k);
        assert RepeatsIn(a, 0, extra, w[k..], n - lo);
        assert CutsAt(Pow(a, lo), Repeat(a, 0, extra), w, k);
      }
    }
  }

  /** Up to `n` copies: none, or one and then up to `n - 1`. */
  lemma RepeatUnfold<T(!new)>(a: Lang<T>, n: nat)
    requires n > 0
    ensures Cat(a, Repeat(a, 0, n - 1)) + Unit() == Repeat(a, 0, n)
  {
    forall w: seq<T>
      ensures w in Cat(a, Repeat(a, 0, n - 1)) + Unit() <==> w in Repeat(a, 0, n)
    {
      RepeatNone(a, n);
      if w in Cat(a, Repeat(a, 0, n - 1)) {
        var k: nat :| CutsAt(a, Repeat(a, 0, n - 1), w, k);
        RepeatCons(a, 0, n - 1, w[..k], w[k..]);
        RepeatWider(a, 1, n, 0, n);
        assert w == w[..k] + w[k..];
      }
      if w in Repeat(a, 0, n) {
        var j: nat :| RepeatsIn(a, 0, n, w, j);
        if j > 0 {
          var k: nat :| CutsAt(a, Pow(a, j - 1), w, k);
          assert RepeatsIn(a, 0, n - 1, w[k..], j - 1);
          assert CutsAt(a, Repeat(a, 0, n - 1), w, k);
        }
      }
    }
  }

  /** Any number of copies: none, or at least one. */
  lemma RepeatZeroOrMore<T(!new)>(a: Lang<T>)
    ensures Repeat(a, 1, -1) + Unit() == Repeat(a, 0, -1)
  {
    forall w: seq<T>
      ensures w in Repeat(a, 1, -1) + Unit() <==> w in Repeat(a, 0, -1)
    {
      RepeatNone(a, -1);
      RepeatWider(a, 1, -1, 0, -1);
      if w in Repeat(a, 0, -1) {
        var j: nat :| RepeatsIn(a, 0, -1, w, j);
        if j > 0 {
          assert RepeatsIn(a, 1, -1, w, j);
        }
      }
    }
  }

  lemma RepeatOnce<T(!new)>(a: Lang<T>)
    ensures Repeat(a, 0, 1) == a + Unit()
  {
    RepeatUnfold(a, 1);
    RepeatNone(a, 0);
    CatUnit(a);
  }
  // ----- repetition as a list of words -----

  function Joined<T>(parts: seq<seq<T>>): seq<T>
  {
    if parts == [] then [] else parts[0] + Joined(parts[1..])
  }

  /** `w` is the words of `parts` one after the other, each from `a`. */
  ghost predicate JoinsUp<T(!new)>(a: Lang<T>, parts: seq<seq<T>>, w: seq<T>)
  {
    w == Joined(parts) && forall i :: 0 <= i < |parts| ==> parts[i] in a
  }

  lemma {:induction false} PowJoins<T(!new)>(a: Lang<T>, n: nat, w: seq<T>) returns (parts: seq<seq<T>>)
    requires w in Pow(a, n)
    ensures JoinsUp(a, parts, w) && |parts| == n
    decreases n
  {
    if n == 0 {
      parts := [];
    } else {
      var k: nat :| CutsAt(a, Pow(a, n - 1), w, k);
      var tail := PowJoins(a, n - 1, w[k..]);
      parts := [w[..k]] + tail;
      assert parts[1..] == tail && w == w[..k] + w[k..];
    }
  }

  lemma {:induction false} JoinedInPow<T(!new)>(a: Lang<T>, parts: seq<seq<T>>, w: seq<T>)
    requires JoinsUp(a, parts, w)
    ensures w in Pow(a, |parts|)
    decreases |parts|
  {
    if parts != [] {
      JoinedInPow(a, parts[1..], Joined(parts[1..]));
      CatIntro(a, Pow(a, |parts| - 1), parts[0], Joined(parts[1..]));
    }
  }

  /** A repetition is every list of words of a length within the bounds, joined up. */
  lemma {:induction false} RepeatIff<T(!new)>(a: Lang<T>, lo: nat, hi: int, w: seq<T>)
    ensures w in Repeat(a, lo, hi) <==> exists parts :: JoinsUp(a, parts, w) && lo <= |parts| && (hi < 0 || |parts| <= hi)
  {
    hide JoinsUp, Pow;
    if w in Repeat(a, lo, hi) {
      var n: nat :| RepeatsIn(a, lo, hi, w, n);
      var parts := PowJoins(a, n, w);
    }
    if parts :| JoinsUp(a, parts, w) && lo <= |parts| && (hi < 0 || |parts| <= hi) {
      JoinedInPow(a, parts, w);
      assert RepeatsIn(a, lo, hi, w, |parts|);
    }
  }
}
