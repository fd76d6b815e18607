/** What pattern text matches, said on its spelling alone: bytes, lists of pieces, and counts. */
module RegexText {
  import opened CharSets
  import opened Languages
  import opened Reading
  import opened RegexSyntax
  import opened RegexSpelling
  import opened RegexUnspelled
  import G = GbnfSpelling
  import R = RegexReading
  import RegexAcceptance

  type Bytes = seq<byte>

  /** The counts a quantifier allows. Bounds in the wrong order ask for the first. */
  predicate Asked(q: Times, k: nat)
  {
    match q
    case Once => k == 1
    case Star => true
    case Plus => k >= 1
    case Question => k <= 1
    case Counted(a, comma, b) =>
      if !TimesOk(q) then k == 1
      else if !comma then k == G.Decimal(a)
      else G.Decimal(a) <= k && (b == [] || k <= G.Decimal(b) || k == G.Decimal(a))
  }

  /** An anchor matches nothing but the empty text, a group what is in it, and anything else one
      byte. */
  ghost predicate AtomMatches(x: Atom, w: Bytes)
    decreases x, 0
  {
    match x
    case Anchor(_) => w == []
    case Group(_, alt) => AltMatches(alt, w)
    case _ => |w| == 1 && AtomHas(x, w[0])
  }

  /** As many pieces as the quantifier allows, each matched by the atom. */
  ghost predicate PartMatches(p: Part, w: Bytes)
    decreases p, 1
  {
    exists pieces: seq<Bytes> :: w == Joined(pieces) && Asked(p.times, |pieces|) && AllMatch(p, pieces)
  }

  ghost predicate AllMatch(p: Part, pieces: seq<Bytes>)
    decreases p, 0
  {
    forall i :: 0 <= i < |pieces| ==> AtomMatches(p.atom, pieces[i])
  }

  /** One piece for every part, in order. */
  ghost predicate BranchMatches(br: Branch, w: Bytes)
    decreases br, 1
  {
    exists pieces: seq<Bytes> :: w == Joined(pieces) && EachMatches(br, pieces)
  }

  ghost predicate EachMatches(br: Branch, pieces: seq<Bytes>)
    decreases br, 0
  {
    |pieces| == |br.parts| && forall i :: 0 <= i < |pieces| ==> PartMatches(br.parts[i], pieces[i])
  }

  ghost predicate AltMatches(alt: Alt, w: Bytes)
    decreases alt, 0
  {
    BranchMatches(alt.first, w) || exists i :: 0 <= i < |alt.others| && BranchMatches(alt.others[i], w)
  }

  // ----- lists of parts and of branches -----

  ghost predicate Pieces(rs: seq<Rx>, pieces: seq<Bytes>)
  {
    |pieces| == |rs| && forall i :: 0 <= i < |rs| ==> pieces[i] in RxLang(rs[i])
  }

  lemma {:induction false} JoinedSnoc(ps: seq<Bytes>, x: Bytes)
    ensures Joined(ps + [x]) == Joined(ps) + x
    decreases |ps|
  {
    if ps == [] {
      assert [x][1..] == [];
    } else {
      JoinedSnoc(ps[1..], x);
      assert (ps + [x])[1..] == ps[1..] + [x];
    }
  }

  lemma {:induction false} PartsIff(rs: seq<Rx>, w: Bytes)
    ensures w in PartsLang(rs) <==> exists pieces: seq<Bytes> :: w == Joined(pieces) && Pieces(rs, pieces)
    decreases |rs|
  {
    if w in PartsLang(rs) {
      var pieces := PartsInto(rs, w);
    }
    if pieces: seq<Bytes> :| w == Joined(pieces) && Pieces(rs, pieces) {
      PartsFrom(rs, pieces);
    }
  }

  lemma {:induction false} PartsCut(rs: seq<Rx>, w: Bytes) returns (k: nat)
    requires rs != [] && w in PartsLang(rs)
    ensures k <= |w| && w[..k] in PartsLang(rs[..|rs| - 1]) && w[k..] in RxLang(rs[|rs| - 1])
  {
    hide RxLang;
    k :| CutsAt(PartsLang(rs[..|rs| - 1]), RxLang(rs[|rs| - 1]), w, k);
  }

  lemma {:induction false} PartsInto(rs: seq<Rx>, w: Bytes) returns (pieces: seq<Bytes>)
    requires w in PartsLang(rs)
    ensures w == Joined(pieces) && Pieces(rs, pieces)
    decreases |rs|
  {
    if rs == [] {
      pieces := [];
    } else {
      hide PartsLang, Pieces, Joined;
      var k := PartsCut(rs, w);
      var ps := PartsInto(rs[..|rs| - 1], w[..k]);
      pieces := ps + [w[k..]];
      JoinedSnoc(ps, w[k..]);
      PiecesSnoc(rs, ps, w[k..]);
    }
  }

  lemma {:induction false} PiecesSnoc(rs: seq<Rx>, ps: seq<Bytes>, x: Bytes)
    requires rs != [] && Pieces(rs[..|rs| - 1], ps) && x in RxLang(rs[|rs| - 1])
    ensures Pieces(rs, ps + [x])
  {
    hide RxLang;
  }

  lemma {:induction false} PartsFrom(rs: seq<Rx>, pieces: seq<Bytes>)
    requires Pieces(rs, pieces)
    ensures Joined(pieces) in PartsLang(rs)
    decreases |rs|
  {
    if rs != [] {
      hide RxLang;
      var n := |rs| - 1;
      PartsFrom(rs[..n], pieces[..n]);
      JoinedSnoc(pieces[..n], pieces[n]);
      assert pieces[..n] + [pieces[n]] == pieces;
      CatIntro(PartsLang(rs[..n]), RxLang(rs[n]), Joined(pieces[..n]), pieces[n]);
    }
  }

  lemma {:induction false} BranchesIff(rs: seq<Rx>, w: Bytes)
    ensures w in BranchesLang(rs) <==> exists i :: 0 <= i < |rs| && w in RxLang(rs[i])
    decreases |rs|
  {
    if rs != [] {
      hide RxLang;
      var n := |rs| - 1;
      BranchesIff(rs[..n], w);
      assert forall i :: 0 <= i < n ==> rs[..n][i] == rs[i];
    }
  }

  lemma {:induction false} PartsMeanAt(parts: seq<Part>)
    ensures |PartsMean(parts)| == |parts| && forall i :: 0 <= i < |parts| ==> PartsMean(parts)[i] == PartMeans(parts[i])
    decreases |parts|
  {
    if parts != [] {
      hide PartMeans;
      PartsMeanAt(parts[1..]);
    }
  }

  lemma {:induction false} OthersMeanAt(others: seq<Branch>)
    ensures |OthersMean(others)| == |others|
    ensures forall i :: 0 <= i < |others| ==> OthersMean(others)[i] == Cat(PartsMean(others[i].parts))
    decreases |others|
  {
    if others != [] {
      hide PartsMean;
      OthersMeanAt(others[1..]);
    }
  }

  // ----- matching is the language -----

  lemma {:induction false} ByteIff(x: Atom, w: Bytes)
    requires !x.Anchor? && !x.Group?
    ensures w in RxLang(AtomMeans(x)) <==> |w| == 1 && AtomHas(x, w[0])
  {
    hide AtomHas;
  }

  lemma {:induction false} AtomIff(x: Atom, w: Bytes)
    ensures w in RxLang(AtomMeans(x)) <==> AtomMatches(x, w)
    decreases x, 0
  {
    match x
    case Anchor(_) =>
    case Group(_, alt) => AltIff(alt, w);
    case _ => ByteIff(x, w);
  }

  /** The bounds of a quantifier are the counts it allows. */
  lemma AskedIff(q: Times, k: nat)
    ensures TimesOk(q) ==> (Asked(q, k) <==> Least(q) <= k && (Most(q) < 0 || k <= Most(q)))
    ensures !TimesOk(q) || q.Once? ==> (Asked(q, k) <==> k == 1)
  {
    hide G.Decimal;
  }

  lemma {:induction false} OneOfThem(l: Lang<byte>, w: Bytes)
    ensures w in l <==> exists pieces: seq<Bytes> :: JoinsUp(l, pieces, w) && |pieces| == 1
  {
    if w in l {
      assert [w][1..] == [] && Joined([w][1..]) == [] && w + [] == w;
      assert JoinsUp(l, [w], w);
    }
    if pieces: seq<Bytes> :| JoinsUp(l, pieces, w) && |pieces| == 1 {
      assert pieces[1..] == [] && Joined(pieces[1..]) == [] && pieces[0] + [] == pieces[0];
    }
  }

  /** A part is as many words of its atom as its quantifier allows. */
  lemma {:induction false} PartJoins(p: Part, w: Bytes)
    ensures w in RxLang(PartMeans(p)) <==>
            exists pieces: seq<Bytes> :: JoinsUp(RxLang(AtomMeans(p.atom)), pieces, w) && Asked(p.times, |pieces|)
  {
    hide JoinsUp, Repeat, Asked, Least, Most, AtomMeans, G.AllDigits;
    var r, q := AtomMeans(p.atom), p.times;
    forall k: nat
      ensures TimesOk(q) ==> (Asked(q, k) <==> Least(q) <= k && (Most(q) < 0 || k <= Most(q)))
      ensures !TimesOk(q) || q.Once? ==> (Asked(q, k) <==> k == 1)
    {
      AskedIff(q, k);
    }
    if q.Once? || !TimesOk(q) {
      OneOfThem(RxLang(r), w);
    } else {
      RepeatIff(RxLang(r), Least(q), Most(q), w);
    }
  }

  lemma {:induction false} PartIff(p: Part, w: Bytes)
    ensures w in RxLang(PartMeans(p)) <==> PartMatches(p, w)
    decreases p, 0
  {
    hide RxLang, AtomMeans, AtomMatches, Asked, PartMeans, Joined;
    PartJoins(p, w);
    forall pieces: seq<Bytes>
      ensures JoinsUp(RxLang(AtomMeans(p.atom)), pieces, w) <==> w == Joined(pieces) && AllMatch(p, pieces)
    {
      forall i | 0 <= i < |pieces|
        ensures pieces[i] in RxLang(AtomMeans(p.atom)) <==> AtomMatches(p.atom, pieces[i])
      {
        AtomIff(p.atom, pieces[i]);
      }
    }
  }

  lemma {:induction false} BranchIff(br: Branch, w: Bytes)
    ensures w in RxLang(Cat(PartsMean(br.parts))) <==> BranchMatches(br, w)
    decreases br, 0
  {
    hide PartsMean, PartMeans, PartMatches, Joined, PartsLang;
    var rs := PartsMean(br.parts);
    PartsMeanAt(br.parts);
    PartsIff(rs, w);
    forall pieces: seq<Bytes>
      ensures Pieces(rs, pieces) <==> EachMatches(br, pieces)
    {
      if |pieces| == |rs| {
        forall i | 0 <= i < |rs|
          ensures pieces[i] in RxLang(rs[i]) <==> PartMatches(br.parts[i], pieces[i])
        {
          PartIff(br.parts[i], pieces[i]);
        }
      }
    }
  }

  lemma {:induction false} AltJoins(alt: Alt, w: Bytes)
    ensures w in RxLang(AltMeans(alt)) <==>
            || w in RxLang(Cat(PartsMean(alt.first.parts)))
            || exists i :: 0 <= i < |alt.others| && w in RxLang(Cat(PartsMean(alt.others[i].parts)))
  {
    hide PartsMean, OthersMean, PartsLang, BranchesLang;
    OthersMeanAt(alt.others);
    if alt.others != [] {
      var first, os := Cat(PartsMean(alt.first.parts)), OthersMean(alt.others);
      var rs := [first] + os;
      BranchesIff(rs, w);
      assert RxLang(AltMeans(alt)) == BranchesLang(rs);
      assert rs[0] == first && forall i :: 0 <= i < |os| ==> rs[i + 1] == os[i];
      hide RxLang;
      if i :| 0 <= i < |rs| && w in RxLang(rs[i]) {
        if i > 0 {
          assert os[i - 1] == rs[i];
        }
      }
      if i :| 0 <= i < |os| && w in RxLang(Cat(PartsMean(alt.others[i].parts))) {
        assert rs[i + 1] == os[i];
      }
    }
  }

  /** Matching is the language of what the tree denotes. */
  lemma {:induction false} AltIff(alt: Alt, w: Bytes)
    ensures w in RxLang(AltMeans(alt)) <==> AltMatches(alt, w)
    decreases alt, 0
  {
    hide RxLang, PartsMean, AltMeans, BranchMatches;
    AltJoins(alt, w);
    BranchIff(alt.first, w);
    forall i | 0 <= i < |alt.others|
      ensures w in RxLang(Cat(PartsMean(alt.others[i].parts))) <==> BranchMatches(alt.others[i], w)
    {
      BranchIff(alt.others[i], w);
    }
  }

  // ----- whole patterns -----

  /** A pattern matches what its spelling says, whichever spelling is found. */
  lemma {:induction false} PatternMatches(p: Text, alt: Alt, w: Bytes)
    requires SpelledBy(p, alt)
    ensures R.Compiles(p) && (w in RxLang(R.ReadAlt(p).value) <==> AltMatches(alt, w))
  {
    hide R.ReadAlt, RxLang, AltMeans, AltOk, AltText, AltMatches;
    SpelledIsRead(p, alt);
    AltIff(alt, w);
  }
  lemma {:induction false} SoloSpelled(p: Text, x: Atom, q: Times)
    requires AtomOk(x, TimesText(q)) && TimesOk(q) && p == AtomText(x) + TimesText(q)
    ensures SpelledBy(p, Alt(Branch([Part(x, q)]), []))
  {
    hide AtomOk, AtomText, TimesOk, TimesText;
    var part := Part(x, q);
    var parts := [part];
    assert parts[1..] == [] && PartsText(parts[1..]) + [] == [] && OthersText([]) + [] == [];
    assert PartsText(parts) == PartText(part) + [] == PartText(part);
    assert TimesText(q) + [] == TimesText(q);
    NothingStarts();
    assert PartsOk(parts[1..], []) && PartOk(part, []);
    assert PartsOk(parts, []);
    assert PartText(part) + [] == PartText(part);
    var alt := Alt(Branch(parts), []);
    assert AltText(alt) == p && AltOk(alt, []);
  }

  lemma NothingStarts()
    ensures !StartsTimes([])
  {
  }

  lemma {:induction false} OneJoined(pieces: seq<Bytes>)
    requires |pieces| == 1
    ensures Joined(pieces) == pieces[0]
  {
    assert pieces[1..] == [] && pieces[0] + [] == pieces[0];
  }

  lemma {:induction false} SoloMatches(x: Atom, q: Times, w: Bytes)
    ensures AltMatches(Alt(Branch([Part(x, q)]), []), w) <==> PartMatches(Part(x, q), w)
  {
    hide PartMatches;
    var part := Part(x, q);
    var br := Branch([part]);
    if PartMatches(part, w) {
      OneJoined([w]);
      assert EachMatches(br, [w]);
    }
    if BranchMatches(br, w) {
      var pieces: seq<Bytes> :| w == Joined(pieces) && EachMatches(br, pieces);
      OneJoined(pieces);
    }
  }

  /** A pattern of one atom and a quantifier matches as many pieces as the quantifier allows. */
  lemma {:induction false} SoloPattern(p: Text, x: Atom, q: Times, w: Bytes)
    requires AtomOk(x, TimesText(q)) && TimesOk(q) && p == AtomText(x) + TimesText(q)
    ensures R.Compiles(p) && (w in RxLang(R.ReadAlt(p).value) <==> PartMatches(Part(x, q), w))
  {
    hide R.ReadAlt, RxLang, SpelledBy, AltMatches, PartMatches, AtomOk, AtomText, TimesText, TimesOk;
    SoloSpelled(p, x, q);
    PatternMatches(p, Alt(Branch([Part(x, q)]), []), w);
    SoloMatches(x, q, w);
  }

  lemma {:induction false} OnceMatches(x: Atom, w: Bytes)
    ensures PartMatches(Part(x, Once), w) <==> AtomMatches(x, w)
  {
    hide AtomMatches;
    var p := Part(x, Once);
    OneJoined([w]);
    if AtomMatches(x, w) {
      assert AllMatch(p, [w]);
    }
    if PartMatches(p, w) {
      var pieces: seq<Bytes> :| w == Joined(pieces) && |pieces| == 1 && AllMatch(p, pieces);
      OneJoined(pieces);
    }
  }

  /** A pattern that is one byte or one escape matches the byte, or the bytes of the escape. */
  lemma {:induction false} OneBytePattern(b: byte, w: Bytes)
    requires IsRaw(b)
    ensures R.Compiles([b]) && (w in RxLang(R.ReadAlt([b]).value) <==> w == [b])
  {
    hide R.ReadAlt, RxLang, PartMatches;
    assert AtomText(Raw(b)) + TimesText(Once) == [b];
    SoloPattern([b], Raw(b), Once, w);
    OnceMatches(Raw(b), w);
  }

  lemma {:induction false} EscapePattern(e: byte, w: Bytes)
    ensures R.Compiles([0x5C, e])
    ensures w in RxLang(R.ReadAlt([0x5C, e]).value) <==> |w| == 1 && EscapeHas(e, false, w[0])
  {
    hide R.ReadAlt, RxLang, PartMatches, EscapeHas;
    assert AtomText(Escape(e)) + TimesText(Once) == [0x5C, e];
    SoloPattern([0x5C, e], Escape(e), Once, w);
    OnceMatches(Escape(e), w);
  }

  /** `[a-z]` and `[^a-z]` match one byte, from `a` to `z` or outside, and are refused exactly if
      `z` comes before `a`. */
  lemma {:induction false} RangePattern(negated: bool, a: byte, z: byte, w: Bytes)
    requires a != 0x5C && a != 0x5D && a != 0x5E && z != 0x5D
    ensures var p := AtomText(Class(negated, [Span(a, z)]));
            && (R.Compiles(p) <==> a <= z)
            && (a <= z ==> (w in RxLang(R.ReadAlt(p).value) <==> |w| == 1 && (a <= w[0] <= z) != negated))
  {
    hide R.ReadAlt, RxLang, PartMatches;
    var x := Class(negated, [Span(a, z)]);
    if a <= z {
      RangeOk(x, negated, a, z);
      assert AtomText(x) + [] == AtomText(x);
      SoloPattern(AtomText(x), x, Once, w);
      OnceMatches(x, w);
      if |w| == 1 {
        assert AnyHas([Span(a, z)], w[0]) <==> MemberHas([Span(a, z)][0], w[0]);
      }
    } else {
      RangeRefused(x, negated, a, z);
    }
  }

  lemma {:induction false} RangeOk(x: Atom, negated: bool, a: byte, z: byte)
    requires x == Class(negated, [Span(a, z)]) && a <= z && a != 0x5C && a != 0x5D && a != 0x5E && z != 0x5D
    ensures AtomOk(x, [])
  {
    var xs := [Span(a, z)];
    assert xs[1..] == [] && MembersOk(xs[1..], []);
  }

  lemma {:induction false} RangeRefused(x: Atom, negated: bool, a: byte, z: byte)
    requires x == Class(negated, [Span(a, z)]) && a > z && a != 0x5C && a != 0x5D && a != 0x5E && z != 0x5D
    ensures !R.Compiles(AtomText(x))
  {
    hide R.ReadAlt;
    var p := AtomText(x);
    var xs := [Span(a, z)];
    assert xs[1..] == [] && MembersText(xs[1..]) == [] && MembersText(xs) == [a, 0x2D, z] + [];
    var t := MembersText(xs) + [0x5D];
    assert t == [a, 0x2D, z, 0x5D];
    assert p == if negated then [0x5B, 0x5E, a, 0x2D, z, 0x5D] else [0x5B, a, 0x2D, z, 0x5D];
    var k := if negated then 2 else 1;
    assert p[k..] == t;
    assert R.ReadMember(t, R.NoBytes()) == Fail;
    assert R.ReadMembers(t, R.NoBytes(), false) == Fail;
    assert R.ReadClass(p) == Fail;
    RegexAcceptance.CompilesIff(p);
  }
}
