/** Which patterns compile: exactly those whose groups balance, whose classes are well
    formed and which end in no lone backslash. Nothing else is refused. */
module RegexAcceptance {
  import opened CharSets
  import opened Languages
  import opened Reading
  import opened RegexSyntax
  import opened RegexReading
  import opened RegexSteps

  /** The offset of the first closing parenthesis that `d` opened groups leave unmatched,
      or of the end of the text. */
  function Scan(s: Text, d: nat): (r: Read<()>)
    ensures r.Got? ==> r.len <= |s|
    decreases |s|
  {
    if s == [] then if d == 0 then Got((), 0) else Fail
    else if s[0] == CLOSE_PAREN then if d == 0 then Got((), 0) else Later(1, Scan(s[1..], d - 1))
    else if s[0] == OPEN_PAREN then Later(1, Scan(s[1..], d + 1))
    else if s[0] == OPEN_BRACKET then
      var n := ReadClass(s);
      if n.Fail? then Fail else Later(n.len, Scan(s[n.len..], d))
    else if s[0] == BACKSLASH then if |s| == 1 then Fail else Later(2, Scan(s[2..], d))
    else Later(1, Scan(s[1..], d))
  }

  /** A byte the scan steps over whatever surrounds it. */
  predicate Plain(b: byte)
  {
    b != CLOSE_PAREN && b != OPEN_PAREN && b != OPEN_BRACKET && b != BACKSLASH
  }

  /** The scan passes the first `n` bytes without a change of depth. */
  ghost predicate Passes(s: Text, n: nat, d: nat)
  {
    n <= |s| && Scan(s, d) == Later(n, Scan(s[n..], d))
  }

  lemma PassesOn(s: Text, n: nat, m: nat, d: nat)
    requires Passes(s, n, d) && n <= |s| && Passes(s[n..], m, d)
    ensures Passes(s, n + m, d)
  {
    Cut(s, n, n + m);
  }

  lemma {:induction false} PlainPasses(s: Text, n: nat, d: nat)
    requires n <= |s| && forall i :: 0 <= i < n ==> Plain(s[i])
    ensures Passes(s, n, d)
    decreases n
  {
    if n > 0 {
      PlainPasses(s[1..], n - 1, d);
      Cut(s, 1, n);
    }
  }

  lemma QuantPasses(s: Text, d: nat)
    requires ReadQuant(s).Quant?
    ensures Passes(s, ReadQuant(s).len, d)
  {
    hide Scan, Number;
    if s[0] == OPEN_BRACE {
      BracesArePlain(s);
    }
    PlainPasses(s, ReadQuant(s).len, d);
  }

  lemma BracesArePlain(s: Text)
    requires s != [] && s[0] == OPEN_BRACE && ReadBraces(s).Quant?
    ensures forall i :: 0 <= i < ReadBraces(s).len ==> Plain(s[i])
  {
    hide DigitsLen, Number;
    var a := DigitsLen(s[1..]);
    assert forall i :: 1 <= i < 1 + a ==> s[i] == s[1..][i - 1];
    if At(s, a + 1) == COMMA {
      var b := DigitsLen(s[a + 2..]);
      assert forall i :: a + 2 <= i < a + 2 + b ==> s[i] == s[a + 2..][i - a - 2];
    }
  }

  /** A scan that starts like the text and fails where the reading fails. */
  ghost predicate Follows<T>(s: Text, r: Read<T>, d: nat)
  {
    match r
    case Fail => Scan(s, d).Fail?
    case Got(_, n) => Passes(s, n, d)
  }

  lemma {:induction false} AtomScan(s: Text, d: nat)
    requires !EndsParts(s)
    ensures Follows(s, ReadAtom(s), d)
    decreases |s|, 0
  {
    if s[0] == OPEN_PAREN {
      GroupScan(s, d);
    }
  }

  lemma {:induction false} GroupAtom(s: Text)
    requires s != [] && s[0] == OPEN_PAREN
    ensures ReadAtom(s) ==
            match ReadAlt(s[GroupLen(s)..])
            case Fail => Fail
            case Got(r, n) =>
              if At(s, GroupLen(s) + n) == CLOSE_PAREN then Got(r, GroupLen(s) + n + 1) else Fail
  {
    hide ReadAlt, ReadClass;
  }

  lemma {:induction false} OpenScan(s: Text, d: nat)
    requires s != [] && s[0] == OPEN_PAREN
    ensures Scan(s, d) == Later(GroupLen(s), Scan(s[GroupLen(s)..], d + 1))
  {
    hide ReadClass;
    if GroupLen(s) == 3 {
      PlainPasses(s[1..], 2, d + 1);
      Cut(s, 1, 3);
    }
  }

  lemma {:induction false} CloseScan(s: Text, d: nat)
    requires EndsAlt(s)
    ensures Scan(s, d + 1) == if s == [] then Fail else Later(1, Scan(s[1..], d))
  {
    hide ReadClass;
  }

  lemma {:induction false} GroupScan(s: Text, d: nat)
    requires s != [] && s[0] == OPEN_PAREN
    ensures Follows(s, ReadAtom(s), d)
    decreases |s| - 1, 4
  {
    hide ReadAlt, ReadAtom, Scan, GroupLen;
    var k := GroupIsOpen(s);
    GroupAtom(s);
    OpenScan(s, d);
    AltScan(s[k..], d + 1);
    if ReadAlt(s[k..]).Got? {
      var n := ReadAlt(s[k..]).len;
      Cut(s, k, k + n);
      CloseScan(s[k + n..], d);
      if k + n < |s| {
        Cut(s, k + n, k + n + 1);
      }
    }
  }

  lemma GroupIsOpen(s: Text) returns (k: nat)
    requires s != []
    ensures k == GroupLen(s) && 0 < k <= |s|
  {
    k := GroupLen(s);
  }

  lemma {:induction false} RepeatScan(s: Text, d: nat)
    requires !EndsParts(s)
    ensures Follows(s, ReadRepeat(s), d)
    decreases |s|, 1
  {
    hide ReadAtom, ReadQuant, Scan;
    AtomScan(s, d);
    if ReadAtom(s).Got? {
      var n := ReadAtom(s).len;
      if ReadQuant(s[n..]).Quant? {
        QuantPasses(s[n..], d);
        PassesOn(s, n, ReadQuant(s[n..]).len, d);
      }
    }
  }

  lemma {:induction false} PartsScan(s: Text, d: nat)
    ensures Follows(s, ReadParts(s), d)
    ensures ReadParts(s).Got? ==> EndsParts(s[ReadParts(s).len..])
    decreases |s|, 2
  {
    hide ReadRepeat, Scan;
    if EndsParts(s) {
      LaterNone(Scan(s, d));
    } else {
      RepeatScan(s, d);
      if ReadRepeat(s).Got? {
        var n := ReadRepeat(s).len;
        PartsScan(s[n..], d);
        if ReadParts(s[n..]).Got? {
          PassesOn(s, n, ReadParts(s[n..]).len, d);
          Cut(s, n, n + ReadParts(s[n..]).len);
        }
      }
    }
  }

  predicate EndsAlt(s: Text)
  {
    s == [] || s[0] == CLOSE_PAREN
  }

  lemma {:induction false} BranchesOnce(s: Text)
    requires EndsParts(s)
    ensures ReadBranches(s) ==
            if EndsAlt(s) then Got([], 0)
            else
              match ReadParts(s[1..])
              case Fail => Fail
              case Got(parts, n) =>
                match ReadBranches(s[1 + n..])
                case Fail => Fail
                case Got(rs, m) => Got([Cat(parts)] + rs, 1 + n + m)
  {
    hide ReadParts;
  }

  lemma {:induction false} BranchesScan(s: Text, d: nat)
    requires EndsParts(s)
    ensures Follows(s, ReadBranches(s), d)
    ensures ReadBranches(s).Got? ==> EndsAlt(s[ReadBranches(s).len..])
    decreases |s|, 2
  {
    hide ReadParts, ReadBranches, Scan;
    BranchesOnce(s);
    if EndsAlt(s) {
      LaterNone(Scan(s, d));
    } else {
      PlainPasses(s, 1, d);
      PartsScan(s[1..], d);
      if ReadParts(s[1..]).Got? {
        var n := ReadParts(s[1..]).len;
        PassesOn(s, 1, n, d);
        Cut(s, 1, 1 + n);
        BranchesScan(s[1 + n..], d);
        if ReadBranches(s[1 + n..]).Got? {
          PassesOn(s, 1 + n, ReadBranches(s[1 + n..]).len, d);
          Cut(s, 1 + n, 1 + n + ReadBranches(s[1 + n..]).len);
        }
      }
    }
  }

  lemma {:induction false} AltScan(s: Text, d: nat)
    ensures Follows(s, ReadAlt(s), d)
    ensures ReadAlt(s).Got? ==> EndsAlt(s[ReadAlt(s).len..])
    decreases |s|, 3
  {
    hide ReadParts, ReadBranches, Scan;
    PartsScan(s, d);
    if ReadParts(s).Got? {
      var n := ReadParts(s).len;
      BranchesScan(s[n..], d);
      if ReadBranches(s[n..]).Got? {
        PassesOn(s, n, ReadBranches(s[n..]).len, d);
        Cut(s, n, n + ReadBranches(s[n..]).len);
      }
    }
  }

  /** Exactly which patterns are refused. */
  lemma {:induction false} CompilesIff(pattern: Text)
    ensures Compiles(pattern) <==> Scan(pattern, 0) == Got((), |pattern|)
  {
    hide ReadAlt;
    AltScan(pattern, 0);
  }

  /** No pattern without parentheses, brackets and backslashes is refused, whatever
      quantifiers it stacks up. */
  lemma PlainCompiles(pattern: Text)
    requires forall i :: 0 <= i < |pattern| ==> Plain(pattern[i])
    ensures Compiles(pattern)
  {
    PlainPasses(pattern, |pattern|, 0);
    CompilesIff(pattern);
  }

  // ----- syntax the header calls unsupported -----

  function Literal(b: byte): Rx
  {
    One(WithByte(NoBytes(), b))
  }

  /** One more element before a text that reads as the rest. */
  lemma {:induction false} PartsCons(s: Text, n: nat, parts: seq<Rx>, m: nat)
    requires parts != [] && !EndsParts(s) && ReadRepeat(s) == Got(parts[0], n) && ReadParts(s[n..]) == Got(parts[1..], m)
    ensures ReadParts(s) == Got(parts, n + m)
  {
    hide ReadRepeat, ReadParts, EndsParts;
    PartsUnfold(s, n, parts[0]);
    assert [parts[0]] + parts[1..] == parts;
  }

  lemma {:induction false} AltOfParts(s: Text, parts: seq<Rx>, n: nat)
    requires ReadParts(s) == Got(parts, n) && EndsAlt(s[n..])
    ensures ReadAlt(s) == Got(Cat(parts), n)
  {
    hide ReadParts;
    assert ReadBranches(s[n..]) == Got([], 0);
  }

  /** `a+?` is no lazy `a+`: the second quantifier is a literal. */
  lemma LazyQuantifierIsLiteral()
    ensures var p: Text := [0x61, PLUS, QUESTION];
            ReadAlt(p) == Got(Cat([Rep(Literal(0x61), 1, -1), Literal(QUESTION)]), 3)
  {
    hide NoBytes;
    var p: Text := [0x61, PLUS, QUESTION];
    var parts := [Rep(Literal(0x61), 1, -1), Literal(QUESTION)];
    assert p[1..] == [PLUS, QUESTION] && p[2..] == [QUESTION] && p[3..] == [] && p[2..][1..] == [];
    assert parts[1..] == [Literal(QUESTION)] && parts[1..][1..] == [];
    assert ReadRepeat(p[2..]) == Got(Literal(QUESTION), 1);
    PartsCons(p[2..], 1, parts[1..], 0);
    assert ReadRepeat(p) == Got(Rep(Literal(0x61), 1, -1), 2);
    PartsCons(p, 2, parts, 1);
    AltOfParts(p, parts, 3);
  }

  /** `(?=a)` is no lookahead: it reads the three bytes `?=a`. */
  lemma LookaheadIsLiteral()
    ensures var p: Text := [OPEN_PAREN, QUESTION, 0x3D, 0x61, CLOSE_PAREN];
            ReadAlt(p) == Got(Cat([Cat([Literal(QUESTION), Literal(0x3D), Literal(0x61)])]), 5)
  {
    hide NoBytes;
    var p: Text := [OPEN_PAREN, QUESTION, 0x3D, 0x61, CLOSE_PAREN];
    var inner := [Literal(QUESTION), Literal(0x3D), Literal(0x61)];
    InnerReads(p, inner);
    AltOfParts(p[1..], inner, 3);
    assert ReadAtom(p) == Got(Cat(inner), 5);
    assert p[5..] == [] && [Cat(inner)][1..] == [];
    PartsCons(p, 5, [Cat(inner)], 0);
    AltOfParts(p, [Cat(inner)], 5);
  }

  lemma InnerReads(p: Text, inner: seq<Rx>)
    requires p == [OPEN_PAREN, QUESTION, 0x3D, 0x61, CLOSE_PAREN]
    requires inner == [Literal(QUESTION), Literal(0x3D), Literal(0x61)]
    ensures ReadParts(p[1..]) == Got(inner, 3) && EndsAlt(p[1..][3..])
  {
    hide NoBytes;
    assert p[1..][1..] == p[2..] && p[2..][1..] == p[3..] && p[3..][1..] == p[4..];
    assert inner[1..] == [Literal(0x3D), Literal(0x61)] && inner[1..][1..] == inner[2..] && inner[2..][1..] == [];
    assert ReadParts(p[4..]) == Got([], 0);
    PartsCons(p[3..], 1, inner[2..], 0);
    PartsCons(p[2..], 1, inner[1..], 1);
    PartsCons(p[1..], 1, inner, 2);
  }

  /** `\b` is no word boundary: it reads the letter b. */
  lemma WordBoundaryIsLetter()
    ensures var p: Text := [BACKSLASH, 0x62]; ReadAlt(p) == Got(Cat([Literal(0x62)]), 2)
  {
    hide NoBytes;
    var p: Text := [BACKSLASH, 0x62];
    assert p[2..] == [] && [Literal(0x62)][1..] == [];
    assert ReadRepeat(p) == Got(Literal(0x62), 2);
    PartsCons(p, 2, [Literal(0x62)], 0);
    AltOfParts(p, [Literal(0x62)], 2);
  }

  /** Reversed bounds `{n,m}` mean exactly `n` copies. */
  lemma {:induction false} ReversedBoundsAreExact(r: Rx, n: nat, m: nat)
    requires m < n
    ensures RxLang(Rep(r, n, AtLeast(n, m))) == Pow(RxLang(r), n)
  {
    hide Repeat, Pow, Languages.Cat, Unit;
    var l := RxLang(r);
    assert RxLang(Rep(r, n, n)) == Repeat(l, n, n);
    RepeatNone(l, 0);
    RepeatSplit(l, n, 0);
    CatUnit(Pow(l, n));
  }

  /** `a{2,1}` compiles, and it matches `aa` and nothing else. */
  lemma ReversedBoundsMatch()
    ensures var p: Text := [0x61, OPEN_BRACE, 0x32, COMMA, 0x31, CLOSE_BRACE];
            && Compiles(p) && ReadAlt(p) == Got(Cat([Rep(Literal(0x61), 2, 2)]), 6)
            && forall w :: w in RxLang(ReadAlt(p).value) <==> w == [0x61, 0x61]
  {
    hide NoBytes, ReadAlt, RxLang;
    var p: Text := [0x61, OPEN_BRACE, 0x32, COMMA, 0x31, CLOSE_BRACE];
    var part := Rep(Literal(0x61), 2, 2);
    BracesOfTwo(p);
    assert p[6..] == [] && [part][1..] == [];
    PartsCons(p, 6, [part], 0);
    AltOfParts(p, [part], 6);
    forall w
      ensures w in RxLang(Cat([part])) <==> w == [0x61, 0x61]
    {
      TwoOfOne(w);
    }
  }

  lemma {:induction false} BracesOfTwo(p: Text)
    requires p == [0x61, OPEN_BRACE, 0x32, COMMA, 0x31, CLOSE_BRACE]
    ensures ReadRepeat(p) == Got(Rep(Literal(0x61), 2, 2), 6)
  {
    hide NoBytes, ReadBraces;
    var s := p[1..];
    DigitAlone(p[2..], 2);
    DigitAlone(p[4..], 1);
    assert s[1..] == p[2..] && s[3..] == p[4..] && s[0..] == s;
    BracesReads(s, 0, 2, 2);
    BracesReadsComma(s, 0, 2, 4, 2, 1);
    assert ReadAtom(p) == Got(Literal(0x61), 1);
  }

  lemma {:induction false} DigitAlone(s: Text, v: nat)
    requires |s| >= 2 && v < 10 && s[0] == 0x30 + v && !IsDigit(s[1])
    ensures DigitsLen(s) == 1 && Number(s[..1]) == v
  {
    var one := s[..1];
    assert one[..0] == [] && Number(one[..0]) == 0;
  }

  lemma {:induction false} TwoOfOne(w: seq<byte>)
    ensures w in RxLang(Cat([Rep(Literal(0x61), 2, 2)])) <==> w == [0x61, 0x61]
  {
    var r := Literal(0x61);
    var part := Rep(r, 2, 2);
    ReversedBoundsAreExact(r, 2, 1);
    OnePart(part);
    var l := RxLang(r);
    assert w in Pow(l, 2) <==> w == [0x61, 0x61] by {
      SquareOf(l, w);
    }
  }

  lemma {:induction false} OnePart(r: Rx)
    ensures RxLang(Cat([r])) == RxLang(r)
  {
    var parts := [r];
    assert parts[..0] == [] && PartsLang(parts[..0]) == Unit<byte>();
    UnitCat(RxLang(r));
  }

  lemma {:induction false} SquareOf(l: Lang<byte>, w: seq<byte>)
    requires l == RxLang(Literal(0x61))
    ensures w in Pow(l, 2) <==> w == [0x61, 0x61]
  {
    assert forall u: seq<byte> :: u in l <==> u == [0x61];
    PowOne(l);
    if w in Pow(l, 2) {
      var k: nat :| CutsAt(l, Pow(l, 1), w, k);
      assert w == w[..k] + w[k..];
    }
    if w == [0x61, 0x61] {
      CatIntro(l, Pow(l, 1), [0x61], [0x61]);
      assert [0x61] + [0x61] == w;
    }
  }

  lemma {:induction false} PowOne(l: Lang<byte>)
    ensures Pow(l, 1) == l
  {
    CatUnit(l);
  }
}
