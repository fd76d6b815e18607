/** Writing grammars down, and the proof that the reader gives back what was written. */
module GbnfPrinting {
  import opened CharSets
  import opened GbnfSyntax
  import opened Reading
  import opened GbnfReading

  const SPACE: byte := 0x20

  // ----- characters -----

  function HexByte(d: nat): byte
    requires d < 16
  {
    if d < 10 then 0x30 + d else 0x61 + d - 10
  }

  /** The last `n` hexadecimal digits of a number, most significant first. */
  function HexDigits(c: nat, n: nat): (ds: seq<nat>)
    ensures |ds| == n && forall i :: 0 <= i < n ==> ds[i] < 16
    decreases n
  {
    if n == 0 then [] else HexDigits(c / 16, n - 1) + [c % 16]
  }

  /** What digits spell behind `acc`. */
  function HexValue(acc: nat, ds: seq<nat>): nat
    decreases |ds|
  {
    if ds == [] then acc else HexValue(acc * 16 + ds[0], ds[1..])
  }

  predicate AreHex(ds: seq<nat>)
  {
    forall i :: 0 <= i < |ds| ==> ds[i] < 16
  }

  function HexText(ds: seq<nat>): (t: Text)
    requires AreHex(ds)
    ensures |t| == |ds|
  {
    seq(|ds|, i requires 0 <= i < |ds| => HexByte(ds[i]))
  }

  predicate Fits(c: nat, n: nat)
    decreases n
  {
    if n == 0 then c == 0 else Fits(c / 16, n - 1)
  }

  function CharText(c: uint32): (t: Text)
    ensures |t| == 10 && t[0] == BACKSLASH
  {
    [BACKSLASH, 0x55] + HexText(HexDigits(c, 8))
  }

  lemma {:induction false} HexValueSnoc(acc: nat, ds: seq<nat>, d: nat)
    ensures HexValue(acc, ds + [d]) == HexValue(acc, ds) * 16 + d
    decreases |ds|
  {
    if ds == [] {
      assert ds + [d] == [d] && [d][1..] == [];
    } else {
      assert (ds + [d])[1..] == ds[1..] + [d];
      HexValueSnoc(acc * 16 + ds[0], ds[1..], d);
    }
  }

  lemma {:induction false} HexValueOfDigits(c: nat, n: nat)
    requires Fits(c, n)
    ensures HexValue(0, HexDigits(c, n)) == c
    decreases n
  {
    if n > 0 {
      HexValueOfDigits(c / 16, n - 1);
      HexValueSnoc(0, HexDigits(c / 16, n - 1), c % 16);
    }
  }

  lemma {:induction false} HexValueGrows(acc: nat, ds: seq<nat>)
    ensures acc <= HexValue(acc, ds)
    decreases |ds|
  {
    if ds != [] {
      HexValueGrows(acc * 16 + ds[0], ds[1..]);
    }
  }

  lemma {:induction false} HexReads(ds: seq<nat>, acc: uint32, rest: Text)
    requires AreHex(ds) && HexValue(acc, ds) < 0x1_0000_0000
    ensures ReadHex(HexText(ds) + rest, |ds|, acc) == Got(HexValue(acc, ds), |ds|)
    decreases |ds|
  {
    if ds != [] {
      var s, d := HexText(ds) + rest, ds[0];
      assert s[0] == HexByte(d) && s[1..] == HexText(ds[1..]) + rest;
      assert HexDigit(s[0]) == d;
      HexValueGrows(acc * 16 + d, ds[1..]);
      assert (acc * 16 + d) % 0x1_0000_0000 == acc * 16 + d;
      HexReads(ds[1..], acc * 16 + d, rest);
    }
  }

  lemma {:induction false} WordsFit(c: uint32)
    ensures Fits(c, 8)
  {
    var d := c / 16 / 16 / 16 / 16;
    assert d < 0x1_0000;
    assert Fits(d, 4) by {
      assert d / 16 / 16 / 16 / 16 == 0;
      assert Fits(d / 16 / 16 / 16 / 16, 0);
      assert Fits(d / 16 / 16 / 16, 1);
      assert Fits(d / 16 / 16, 2);
    }
    assert Fits(c / 16 / 16 / 16, 5);
    assert Fits(c / 16 / 16, 6);
  }

  lemma {:induction false} CharReads(c: uint32, rest: Text)
    ensures ReadChar(CharText(c) + rest) == Got(c, 10)
  {
    hide ReadHex, HexDigits, HexValue, Fits, HexText, ReadTail;
    var s, ds := CharText(c) + rest, HexDigits(c, 8);
    assert s[0] == BACKSLASH && s[1] == 0x55 && s[2..] == HexText(ds) + rest;
    WordsFit(c);
    HexValueOfDigits(c, 8);
    HexReads(ds, 0, rest);
  }

  // ----- literals and classes -----

  function LitText(w: Word): Text
    decreases |w|
  {
    if w == [] then [QUOTE] else CharText(w[0]) + LitText(w[1..])
  }

  lemma {:induction false} StringReads(w: Word, rest: Text)
    ensures ReadString(LitText(w) + rest) == Got(w, |LitText(w)|)
    decreases |w|
  {
    hide ReadChar, CharText;
    var s := LitText(w) + rest;
    if w != [] {
      var t := LitText(w[1..]) + rest;
      assert s == CharText(w[0]) + t && s[10..] == t;
      CharReads(w[0], t);
      StringReads(w[1..], rest);
      assert [w[0]] + w[1..] == w;
    }
  }

  function RangeText(r: Range): (t: Text)
    ensures |t| == 21 && t[0] == BACKSLASH
  {
    CharText(r.lo) + [DASH] + CharText(r.hi)
  }

  function RangesText(rs: seq<Range>): (t: Text)
    ensures t != [] && (t[0] == BACKSLASH || t[0] == CLOSE_BRACKET)
    decreases |rs|
  {
    if rs == [] then [CLOSE_BRACKET] else RangeText(rs[0]) + RangesText(rs[1..])
  }

  lemma {:induction false} RangeReads(r: Range, rest: Text)
    requires r.lo <= r.hi
    ensures ReadRange(RangeText(r) + rest) == Got(r, 21)
  {
    hide ReadChar, CharText;
    var s, t := RangeText(r) + rest, CharText(r.hi) + rest;
    assert s == CharText(r.lo) + ([DASH] + t) && s[11..] == t;
    CharReads(r.lo, [DASH] + t);
    CharReads(r.hi, rest);
  }

  lemma {:induction false} RangesRead(rs: seq<Range>, rest: Text)
    requires forall i :: 0 <= i < |rs| ==> rs[i].lo <= rs[i].hi
    ensures ReadRanges(RangesText(rs) + rest) == Got(rs, |RangesText(rs)|)
    decreases |rs|
  {
    hide ReadRange, RangeText;
    var s := RangesText(rs) + rest;
    if rs != [] {
      var t := RangesText(rs[1..]) + rest;
      assert s == RangeText(rs[0]) + t && s[21..] == t;
      RangeReads(rs[0], t);
      RangesRead(rs[1..], rest);
      assert [rs[0]] + rs[1..] == rs;
    }
  }

  function ClassText(cs: CharSet): Text
  {
    (if cs.negated then [CARET] else []) + RangesText(cs.ranges)
  }

  lemma {:induction false} ClassReads(cs: CharSet, rest: Text)
    requires WellFormed(cs)
    ensures ReadClass(ClassText(cs) + rest) == Got(cs, |ClassText(cs)|)
  {
    hide ReadRanges, RangesText;
    var s, k := ClassText(cs) + rest, if cs.negated then 1 else 0;
    assert s[k..] == RangesText(cs.ranges) + rest;
    RangesRead(cs.ranges, rest);
  }

  // ----- numbers and bounds -----

  function NumberText(n: nat): (t: Text)
    ensures t != [] && forall i :: 0 <= i < |t| ==> IsDigit(t[i])
  {
    if n < 10 then [0x30 + n] else NumberText(n / 10) + [0x30 + n % 10]
  }

  lemma {:induction false} NumberReads(n: nat)
    ensures Number(NumberText(n)) == n
    decreases n
  {
    var t := NumberText(n);
    if n < 10 {
      assert t[..0] == [];
    } else {
      NumberReads(n / 10);
      assert t[..|t| - 1] == NumberText(n / 10);
    }
  }

  lemma {:induction false} DigitsRead(t: Text, rest: Text)
    requires (forall i :: 0 <= i < |t| ==> IsDigit(t[i])) && (rest != [] ==> !IsDigit(rest[0]))
    ensures DigitsLen(t + rest) == |t|
    decreases |t|
  {
    if t == [] {
      assert t + rest == rest;
    } else {
      assert (t + rest)[1..] == t[1..] + rest;
      DigitsRead(t[1..], rest);
    }
  }

  function UpperText(hi: int): (t: Text)
    ensures forall i :: 0 <= i < |t| ==> IsDigit(t[i])
  {
    if hi < 0 then [] else NumberText(hi)
  }

  function BoundsText(lo: nat, hi: int): (t: Text)
    ensures t != [] && t[0] == OPEN_BRACE
  {
    [OPEN_BRACE] + NumberText(lo) + [COMMA] + UpperText(hi) + [CLOSE_BRACE]
  }

  predicate BoundsOk(lo: nat, hi: int)
  {
    lo <= MAX_REPEAT && (hi == -1 || lo <= hi <= MAX_REPEAT)
  }

  /** Where the parts of printed bounds lie. */
  lemma {:induction false} BoundsLayout(lo: nat, hi: int, rest: Text)
    ensures var s, a, b := BoundsText(lo, hi) + rest, |NumberText(lo)|, |UpperText(hi)|;
            && |BoundsText(lo, hi)| == a + b + 3 <= |s| && s[0] == OPEN_BRACE
            && a > 0 && s[1..][..a] == NumberText(lo) && DigitsLen(s[1..]) == a && s[a + 1] == COMMA
            && s[a + 2..][..b] == UpperText(hi) && DigitsLen(s[a + 2..]) == b && s[a + b + 2] == CLOSE_BRACE
  {
    hide NumberText, UpperText, DigitsLen;
    var s, a, b := BoundsText(lo, hi) + rest, NumberText(lo), UpperText(hi);
    var tail := [CLOSE_BRACE] + rest;
    assert s[1..] == a + ([COMMA] + (b + tail));
    DigitsRead(a, [COMMA] + (b + tail));
    assert s[|a| + 2..] == b + tail;
    DigitsRead(b, tail);
  }

  lemma {:induction false} BoundsRead(lo: nat, hi: int, rest: Text)
    requires BoundsOk(lo, hi)
    ensures ReadBounds(BoundsText(lo, hi) + rest) == Got(Bounds(lo, hi), |BoundsText(lo, hi)|)
  {
    hide NumberText, Number, DigitsLen, BoundsText;
    BoundsLayout(lo, hi, rest);
    NumberReads(lo);
    if hi >= 0 {
      NumberReads(hi);
    }
  }

  // ----- elements -----

  predicate IsName(x: Name)
  {
    x != [] && forall i :: 0 <= i < |x| ==> IsWordByte(x[i])
  }

  /** What can be written: names are words, ranges are ordered, bounds are within the
      limit, and nothing that leaves no item is repeated. */
  predicate ElemOk(e: Elem)
    decreases e, 0
  {
    match e
    case Lit(_) => true
    case Set(cs) => WellFormed(cs)
    case Call(x) => IsName(x)
    case Group(alts) => alts != [] && AltsOk(alts)
    case Rep(b, lo, hi) => ElemOk(b) && !Vanishes(b) && BoundsOk(lo, hi)
  }

  predicate SeqOk(es: seq<Elem>)
    decreases es, 0
  {
    forall i :: 0 <= i < |es| ==> ElemOk(es[i])
  }

  predicate AltsOk(alts: seq<Branch>)
    decreases alts, 0
  {
    forall i :: 0 <= i < |alts| ==> SeqOk(alts[i].elems)
  }

  function ElemText(e: Elem): (t: Text)
    decreases e, 0
  {
    match e
    case Lit(w) => [QUOTE] + LitText(w)
    case Set(cs) => [OPEN_BRACKET] + ClassText(cs)
    case Call(x) => x
    case Group(alts) => [OPEN_PAREN] + AltsText(alts) + [CLOSE_PAREN]
    case Rep(b, lo, hi) => ElemText(b) + BoundsText(lo, hi)
  }

  /** Every element is followed by a space. */
  function SeqText(es: seq<Elem>): Text
    decreases es, 0
  {
    if es == [] then [] else ElemText(es[0]) + ([SPACE] + SeqText(es[1..]))
  }

  function MoreText(alts: seq<Branch>): Text
    decreases alts, 1
  {
    if alts == [] then [] else [BAR] + (SeqText(alts[0].elems) + MoreText(alts[1..]))
  }

  function AltsText(alts: seq<Branch>): Text
    decreases alts, 1
  {
    if alts == [] then [] else SeqText(alts[0].elems) + MoreText(alts[1..])
  }

  // ----- reading elements back -----

  predicate Begins(b: byte)
  {
    b == QUOTE || b == OPEN_BRACKET || b == OPEN_PAREN || IsWordByte(b)
  }

  lemma {:induction false} ElemBegins(e: Elem)
    requires ElemOk(e)
    ensures ElemText(e) != [] && Begins(ElemText(e)[0])
    decreases e
  {
    if e.Rep? {
      ElemBegins(e.elem);
    }
  }

  lemma {:induction false} NoSpace(s: Text, newlines: bool)
    requires s != [] ==> Begins(s[0]) || s[0] == BAR || s[0] == CLOSE_PAREN || (s[0] == NEWLINE && !newlines)
    ensures SpaceLen(s, newlines) == 0
  {
  }

  predicate WordEnds(rest: Text)
  {
    rest == [] || !IsWordByte(rest[0])
  }

  lemma {:induction false} WordReads(x: Name, rest: Text)
    requires (forall i :: 0 <= i < |x| ==> IsWordByte(x[i])) && WordEnds(rest)
    ensures WordLen(x + rest) == |x|
    decreases |x|
  {
    if x == [] {
      assert x + rest == rest;
    } else {
      assert (x + rest)[1..] == x[1..] + rest;
      WordReads(x[1..], rest);
    }
  }

  /** An element without the repetitions around it. */
  function Core(e: Elem): Elem
    decreases e
  {
    match e
    case Rep(b, _, _) => Core(b)
    case _ => e
  }

  lemma {:induction false} PostfixReads(b: Elem, lo: nat, hi: int, rest: Text)
    requires BoundsOk(lo, hi) && !Vanishes(b)
    ensures ReadPostfix(BoundsText(lo, hi) + rest, b) == Later(|BoundsText(lo, hi)|, ReadPostfix(rest, Rep(b, lo, hi)))
  {
    hide ReadBounds, BoundsText;
    var t := BoundsText(lo, hi);
    BoundsRead(lo, hi, rest);
    assert (t + rest)[|t|..] == rest;
  }

  /** What reading a printed element leaves to its postfix operators. */
  ghost predicate ReadsBack(e: Elem, rest: Text)
  {
    var t := ElemText(e);
    t + rest != [] &&
    var r := ReadElem(t + rest);
    && r.Got? && r.value == Core(e) && r.len <= |t|
    && ReadPostfix((t + rest)[r.len..], Core(e)) == Later(|t| - r.len, ReadPostfix(rest, e))
  }

  lemma {:induction false} ElemReads(e: Elem, rest: Text)
    requires ElemOk(e) && WordEnds(rest)
    ensures ReadsBack(e, rest)
    decreases e, 2
  {
    match e
    case Rep(b, lo, hi) =>
      var u := BoundsText(lo, hi);
      ElemReads(b, u + rest);
      PostfixReads(b, lo, hi, rest);
      RepReadsBack(b, lo, hi, rest);
    case Group(alts) => GroupReads(alts, rest);
    case Call(x) =>
      WordReads(x, rest);
      WholeReads(e, rest);
    case Lit(w) =>
      LitReads(w, rest);
      WholeReads(e, rest);
    case Set(cs) =>
      SetReads(cs, rest);
      WholeReads(e, rest);
  }

  lemma {:induction false} RepReadsBack(b: Elem, lo: nat, hi: int, rest: Text)
    requires ReadsBack(b, BoundsText(lo, hi) + rest)
    requires ReadPostfix(BoundsText(lo, hi) + rest, b) == Later(|BoundsText(lo, hi)|, ReadPostfix(rest, Rep(b, lo, hi)))
    ensures ReadsBack(Rep(b, lo, hi), rest)
  {
    hide ReadElem, ReadPostfix, BoundsText;
    assert ElemText(b) + (BoundsText(lo, hi) + rest) == ElemText(Rep(b, lo, hi)) + rest;
  }

  /** An element that is no repetition reads back when it is read as a whole. */
  lemma {:induction false} WholeReads(e: Elem, rest: Text)
    requires !e.Rep? && ElemText(e) != [] && ReadElem(ElemText(e) + rest) == Got(e, |ElemText(e)|)
    ensures ReadsBack(e, rest)
  {
    hide ReadElem, ReadPostfix, ElemText;
    assert (ElemText(e) + rest)[|ElemText(e)|..] == rest;
    LaterNone(ReadPostfix(rest, e));
  }

  lemma {:induction false} LitReads(w: Word, rest: Text)
    ensures ReadElem(ElemText(Lit(w)) + rest) == Got(Lit(w), |ElemText(Lit(w))|)
  {
    hide ReadString, LitText;
    var s := ElemText(Lit(w)) + rest;
    assert s[1..] == LitText(w) + rest;
    StringReads(w, rest);
  }

  lemma {:induction false} SetReads(cs: CharSet, rest: Text)
    requires WellFormed(cs)
    ensures ReadElem(ElemText(Set(cs)) + rest) == Got(Set(cs), |ElemText(Set(cs))|)
  {
    hide ReadClass, ClassText;
    var s := ElemText(Set(cs)) + rest;
    assert s[1..] == ClassText(cs) + rest;
    ClassReads(cs, rest);
  }

  lemma {:induction false} GroupReads(alts: seq<Branch>, rest: Text)
    requires alts != [] && AltsOk(alts)
    ensures ReadsBack(Group(alts), rest)
    decreases alts, 6
  {
    hide ReadAlts, AltsText, ReadPostfix;
    var t := AltsText(alts);
    var s, tail := ElemText(Group(alts)) + rest, [CLOSE_PAREN] + rest;
    assert s[1..] == t + tail && s[1 + |t|..] == tail;
    AltsRead(alts, true, tail);
    NoSpace(tail, true);
    WholeReads(Group(alts), rest);
  }

  // ----- sequences and alternatives -----

  predicate StopsSeq(rest: Text, nested: bool)
  {
    EndsSequence(rest) && (nested && rest != [] ==> rest[0] != NEWLINE)
  }

  /** A sequence that begins at `t`, behind `k` bytes of white space. */
  ghost function SeqAt(t: Text, k: nat, nested: bool): Read<seq<Elem>>
  {
    if EndsSequence(t) then Got([], k)
    else
      match ReadElem(t)
      case Fail => Fail
      case Got(e, n) =>
        match ReadPostfix(t[n..], e)
        case Fail => Fail
        case Got(e', m) =>
          match ReadSeq(t[n + m..], nested)
          case Fail => Fail
          case Got(es, l) => Got([e'] + es, k + n + m + l)
  }

  lemma {:induction false} SeqIsAt(s: Text, k: nat, nested: bool)
    requires k == SpaceLen(s, nested)
    ensures ReadSeq(s, nested) == SeqAt(s[k..], k, nested)
  {
    hide ReadElem, ReadPostfix, SpaceLen, EndsSequence;
  }

  lemma {:induction false} SpaceSkips(u: Text, nested: bool)
    ensures ReadSeq([SPACE] + u, nested) == Later(1, ReadSeq(u, nested))
  {
    hide ReadElem, ReadPostfix, ReadSeq, SpaceLen, EndsSequence;
    var s, k := [SPACE] + u, SpaceLen(u, nested);
    OneSpace(s, nested);
    assert s[1..] == u;
    SeqIsAt(s, 1 + k, nested);
    SeqIsAt(u, k, nested);
    assert s[1 + k..] == u[k..];
  }

  lemma {:induction false} SeqReads(es: seq<Elem>, nested: bool, rest: Text)
    requires SeqOk(es) && StopsSeq(rest, nested)
    ensures ReadSeq(SeqText(es) + rest, nested) == Got(es, |SeqText(es)|)
    decreases es, 2
  {
    if es == [] {
      assert SeqText(es) + rest == rest;
      NoSpace(rest, nested);
    } else {
      var e, u := es[0], SeqText(es[1..]) + rest;
      ElemReads(e, [SPACE] + u);
      SeqReads(es[1..], nested, rest);
      SeqReadsCons(es, nested, rest);
    }
  }

  lemma {:induction false} SeqTextCons(es: seq<Elem>, rest: Text)
    requires es != []
    ensures SeqText(es) + rest == ElemText(es[0]) + ([SPACE] + (SeqText(es[1..]) + rest))
    ensures |SeqText(es)| == |ElemText(es[0])| + 1 + |SeqText(es[1..])|
  {
    hide ElemText;
  }

  lemma {:induction false} PostfixEnds(u: Text, e: Elem)
    ensures ReadPostfix([SPACE] + u, e) == Got(e, 0)
  {
  }

  lemma {:induction false} ElemStarts(e: Elem, v: Text, nested: bool)
    requires ElemOk(e)
    ensures ElemText(e) + v != [] && SpaceLen(ElemText(e) + v, nested) == 0 && !EndsSequence(ElemText(e) + v)
  {
    hide ElemText, SpaceLen;
    ElemBegins(e);
    assert (ElemText(e) + v)[0] == ElemText(e)[0];
    NoSpace(ElemText(e) + v, nested);
  }

  lemma {:induction false} SeqReadsCons(es: seq<Elem>, nested: bool, rest: Text)
    requires es != [] && ElemOk(es[0]) && ReadsBack(es[0], [SPACE] + (SeqText(es[1..]) + rest))
    requires ReadSeq(SeqText(es[1..]) + rest, nested) == Got(es[1..], |SeqText(es[1..])|)
    ensures ReadSeq(SeqText(es) + rest, nested) == Got(es, |SeqText(es)|)
  {
    hide SeqText, ElemText, ReadElem, ReadSeq, ReadPostfix, SpaceLen, EndsSequence, Core, ElemOk;
    var e, u := es[0], SeqText(es[1..]) + rest;
    var t, v := ElemText(e), [SPACE] + u;
    var s := t + v;
    SeqTextCons(es, rest);
    ElemStarts(e, v, nested);
    PostfixEnds(u, e);
    var n := ReadElem(s).len;
    assert s[|t|..] == v;
    SpaceSkips(u, nested);
    SeqOnce(s, n, |t| - n, nested, Core(e), e);
    assert [e] + es[1..] == es;
  }

  lemma {:induction false} SeqOnce(s: Text, n: nat, m: nat, nested: bool, e: Elem, e': Elem)
    requires SpaceLen(s, nested) == 0 && !EndsSequence(s)
    requires ReadElem(s) == Got(e, n) && n <= |s| && ReadPostfix(s[n..], e) == Got(e', m)
    ensures n + m <= |s|
    ensures ReadSeq(s, nested) ==
            match ReadSeq(s[n + m..], nested)
            case Fail => Fail
            case Got(es, l) => Got([e'] + es, n + m + l)
  {
    hide SpaceLen, ReadElem, ReadPostfix, EndsSequence;
    assert s[0..] == s;
    assert |s[n..]| == |s| - n;
  }

  predicate StopsAlts(rest: Text, nested: bool)
  {
    if nested then rest != [] && rest[0] == CLOSE_PAREN else rest == [] || rest[0] == NEWLINE
  }

  /** An empty last alternative shows only before a bracket: outside a group the reader goes
      on to the next line for it. */
  predicate LastShows(alts: seq<Branch>, nested: bool)
  {
    nested || alts == [] || alts[|alts| - 1].elems != []
  }

  /** `rest` ends the last of `alts`, and shows where an empty one ends. */
  predicate Follows(alts: seq<Branch>, nested: bool, rest: Text)
  {
    StopsSeq(rest, nested) && (LastShows(alts, nested) || (rest != [] && (rest[0] == BAR || rest[0] == CLOSE_PAREN)))
  }

  lemma {:induction false} SeqBegins(es: seq<Elem>, v: Text)
    requires SeqOk(es) && (es == [] ==> v != [] && (v[0] == BAR || v[0] == CLOSE_PAREN))
    ensures var u := SeqText(es) + v; u != [] && SpaceLen(u, true) == 0
  {
    var u := SeqText(es) + v;
    if es == [] {
      assert u == v;
    } else {
      ElemBegins(es[0]);
      assert u[0] == ElemText(es[0])[0];
    }
    NoSpace(u, true);
  }

  lemma {:induction false} MoreOnce(s: Text, n: nat, nested: bool, es: seq<Elem>)
    requires s != [] && s[0] == BAR && SpaceLen(s, nested) == 0 && SpaceLen(s[1..], true) == 0
    requires ReadSeq(s[1..], nested) == Got(es, n)
    ensures 1 + n <= |s|
    ensures ReadMore(s, nested) ==
            match ReadMore(s[1 + n..], nested)
            case Fail => Fail
            case Got(alts, m) => Got([Branch(es)] + alts, 1 + n + m)
  {
    hide ReadSeq, SpaceLen;
  }

  lemma {:induction false} MoreTextCons(alts: seq<Branch>, rest: Text)
    requires alts != []
    ensures MoreText(alts) + rest == [BAR] + (SeqText(alts[0].elems) + (MoreText(alts[1..]) + rest))
    ensures |MoreText(alts)| == 1 + |SeqText(alts[0].elems)| + |MoreText(alts[1..])|
  {
    hide SeqText;
  }

  /** What follows an alternative ends it, and shows where an empty one ends. */
  lemma {:induction false} MoreStops(alts: seq<Branch>, nested: bool, rest: Text)
    requires alts != [] && Follows(alts, nested, rest) && (nested ==> rest != [])
    ensures var v := MoreText(alts[1..]) + rest;
            && StopsSeq(v, nested) && Follows(alts[1..], nested, rest)
            && (alts[0].elems == [] ==> v != [] && (v[0] == BAR || v[0] == CLOSE_PAREN))
  {
    hide SeqText;
    if |alts| == 1 {
      assert MoreText(alts[1..]) + rest == rest;
    } else {
      assert alts[1..][|alts| - 2] == alts[|alts| - 1];
    }
  }

  /** Printed alternatives are read one by one, whatever comes behind them. */
  lemma {:induction false} MoreReads(alts: seq<Branch>, nested: bool, rest: Text)
    requires AltsOk(alts) && Follows(alts, nested, rest) && (nested ==> rest != [])
    ensures ReadMore(MoreText(alts) + rest, nested) == Shift(alts, |MoreText(alts)|, ReadMore(rest, nested))
    decreases alts, 3
  {
    hide ReadSeq, ReadMore, SeqText, MoreText, SpaceLen, StopsSeq, SeqOk, Follows;
    if alts == [] {
      NoMore(alts, rest);
      ShiftNone(ReadMore(rest, nested));
    } else {
      var es, v := alts[0].elems, MoreText(alts[1..]) + rest;
      var s, u := MoreText(alts) + rest, SeqText(es) + v;
      MoreTextCons(alts, rest);
      MoreStops(alts, nested, rest);
      SeqReads(es, nested, v);
      MoreReads(alts[1..], nested, rest);
      SeqBegins(es, v);
      NoSpace(s, nested);
      assert s[1..] == u && s[1 + |SeqText(es)|..] == v;
      MoreOnce(s, |SeqText(es)|, nested, es);
      ShiftCons(alts, 1 + |SeqText(es)|, |MoreText(alts[1..])|, ReadMore(rest, nested));
    }
  }

  lemma {:induction false} NoMore(alts: seq<Branch>, rest: Text)
    requires alts == []
    ensures MoreText(alts) == [] && MoreText(alts) + rest == rest
  {
  }

  lemma ShiftCons(alts: seq<Branch>, n: nat, k: nat, r: Read<seq<Branch>>)
    requires alts != []
    ensures Shift(alts, n + k, r) ==
            match Shift(alts[1..], k, r)
            case Fail => Fail
            case Got(v, m) => Got([alts[0]] + v, n + m)
  {
    if r.Got? {
      assert [alts[0]] + (alts[1..] + r.value) == alts + r.value;
    }
  }

  lemma {:induction false} AltsReadOn(alts: seq<Branch>, nested: bool, rest: Text)
    requires alts != [] && AltsOk(alts) && Follows(alts[1..], nested, rest) && (nested ==> rest != [])
    ensures ReadAlts(AltsText(alts) + rest, nested) == Shift(alts, |AltsText(alts)|, ReadMore(rest, nested))
    decreases alts, 4
  {
    hide ReadSeq, ReadMore, SeqText, MoreText, StopsSeq, SeqOk, Follows;
    var es, v := alts[0].elems, MoreText(alts[1..]) + rest;
    assert AltsText(alts) + rest == SeqText(es) + v;
    FirstStops(alts[1..], nested, rest);
    SeqReads(es, nested, v);
    MoreReads(alts[1..], nested, rest);
    assert (SeqText(es) + v)[|SeqText(es)|..] == v;
    ShiftCons(alts, |SeqText(es)|, |MoreText(alts[1..])|, ReadMore(rest, nested));
  }

  lemma {:induction false} MoreEnds(nested: bool, rest: Text)
    requires StopsAlts(rest, nested)
    ensures ReadMore(rest, nested) == Got([], 0)
  {
    hide SpaceLen;
    NoSpace(rest, nested);
  }

  /** Outside a group an empty last alternative shows at the end of the text, and when it is
      the only one. */
  predicate AltsShow(alts: seq<Branch>, nested: bool, rest: Text)
  {
    LastShows(alts, nested) || |alts| == 1 || rest == []
  }

  /** Printed alternatives read back where the text behind them ends them. */
  lemma {:induction false} AltsRead(alts: seq<Branch>, nested: bool, rest: Text)
    requires alts != [] && AltsOk(alts) && StopsAlts(rest, nested) && AltsShow(alts, nested, rest)
    ensures ReadAlts(AltsText(alts) + rest, nested) == Got(alts, |AltsText(alts)|)
    decreases alts, 5
  {
    hide ReadMore, ReadAlts, AltsText, AltsOk;
    if LastShows(alts, nested) || |alts| == 1 {
      TailFollows(alts, nested, rest);
      AltsReadOn(alts, nested, rest);
      MoreEnds(nested, rest);
      assert alts + [] == alts;
    } else {
      var init := alts[..|alts| - 1];
      AltsTextSnoc(alts, rest);
      InitOk(alts, rest);
      AltsReadOn(init, false, [BAR] + rest);
      BarEnds([BAR] + rest);
      assert init + [Branch([])] == alts;
    }
  }

  lemma {:induction false} BarEnds(v: Text)
    requires v == [BAR]
    ensures ReadMore(v, false) == Got([Branch([])], 1)
  {
    hide ReadSeq, SpaceLen;
    NoSpace(v, false);
    var u := v[1..];
    NoSpace(u, true);
    NothingReads(u);
    NoMoreReads(u);
    var none: seq<Branch> := [];
    assert v[1 + 0..] == u && [Branch([])] + none == [Branch([])];
  }

  /** And nowhere else: behind a bar the line end belongs to the alternative. */
  lemma {:induction false} AltsReadIff(alts: seq<Branch>, nested: bool, rest: Text)
    requires alts != [] && AltsOk(alts) && StopsAlts(rest, nested)
    ensures ReadAlts(AltsText(alts) + rest, nested) == Got(alts, |AltsText(alts)|) <==> AltsShow(alts, nested, rest)
  {
    hide ReadMore, ReadAlts, AltsText, AltsOk;
    if AltsShow(alts, nested, rest) {
      AltsRead(alts, nested, rest);
    } else {
      AltsTextSnoc(alts, rest);
      InitOk(alts, rest);
      AltsReadOn(alts[..|alts| - 1], false, [BAR] + rest);
      BarTakesLine([BAR] + rest);
    }
  }

  lemma {:induction false} BarTakesLine(v: Text)
    requires |v| >= 2 && v[0] == BAR && v[1] == NEWLINE
    ensures ReadMore(v, false).Got? ==> ReadMore(v, false).len >= 2
  {
    hide ReadSeq, SpaceLen;
    NoSpace(v, false);
    OneSpace(v[1..], true);
  }

  lemma {:induction false} TailFollows(alts: seq<Branch>, nested: bool, rest: Text)
    requires alts != [] && StopsAlts(rest, nested) && (LastShows(alts, nested) || |alts| == 1)
    ensures Follows(alts[1..], nested, rest)
  {
    if |alts| > 1 {
      assert alts[1..][|alts| - 2] == alts[|alts| - 1];
    }
  }

  lemma {:induction false} FirstStops(alts: seq<Branch>, nested: bool, rest: Text)
    requires Follows(alts, nested, rest)
    ensures StopsSeq(MoreText(alts) + rest, nested)
  {
    hide SeqText;
    if alts == [] {
      assert MoreText(alts) + rest == rest;
    }
  }

  /** The alternatives before an empty last one, and its bar. */
  lemma {:induction false} AltsTextSnoc(alts: seq<Branch>, rest: Text)
    requires |alts| > 1 && !LastShows(alts, false)
    ensures AltsText(alts) + rest == AltsText(alts[..|alts| - 1]) + ([BAR] + rest)
    ensures |AltsText(alts)| == |AltsText(alts[..|alts| - 1])| + 1
  {
    hide SeqText;
    var init, last := alts[..|alts| - 1], alts[|alts| - 1];
    assert alts[1..][|alts| - 2] == last && alts[1..][..|alts| - 2] == init[1..];
    MoreTextSnoc(alts[1..]);
  }

  lemma {:induction false} MoreTextSnoc(alts: seq<Branch>)
    requires alts != [] && alts[|alts| - 1].elems == []
    ensures MoreText(alts) == MoreText(alts[..|alts| - 1]) + [BAR]
    decreases |alts|
  {
    if |alts| > 1 {
      assert alts[1..][..|alts| - 2] == alts[..|alts| - 1][1..];
      MoreTextSnoc(alts[1..]);
    }
  }

  /** Behind a bar the reader goes on to the next line: at the end of the text the empty
      alternative is read all the same, but before another rule that rule's name is taken
      for a call, and what follows it for an error. */
  lemma {:induction false} AltsRunOn(alts: seq<Branch>, u: Text)
    requires |alts| > 1 && AltsOk(alts) && !LastShows(alts, false) && SpaceLen(u, true) == 0
    ensures u == [] ==> ReadAlts(AltsText(alts) + ([NEWLINE] + u), false) == Got(alts, |AltsText(alts)| + 1)
    ensures ReadSeq(u, false).Fail? ==> ReadAlts(AltsText(alts) + ([NEWLINE] + u), false).Fail?
  {
    hide ReadAlts, AltsText, ReadSeq, ReadMore, AltsOk, SpaceLen;
    var init, t := alts[..|alts| - 1], [NEWLINE] + u;
    AltsTextSnoc(alts, t);
    InitOk(alts, t);
    AltsReadOn(init, false, [BAR] + t);
    BarRunsOn([BAR] + t, u);
    assert u == [] ==> init + [Branch([])] == alts;
  }

  lemma {:induction false} InitOk(alts: seq<Branch>, t: Text)
    requires alts != [] && AltsOk(alts)
    ensures AltsOk(alts[..|alts| - 1]) && (|alts| > 1 ==> Follows(alts[..|alts| - 1][1..], false, [BAR] + t))
  {
  }

  lemma {:induction false} BarRunsOn(v: Text, u: Text)
    requires v == [BAR] + ([NEWLINE] + u) && SpaceLen(u, true) == 0
    ensures u == [] ==> ReadMore(v, false) == Got([Branch([])], 2)
    ensures ReadSeq(u, false).Fail? ==> ReadMore(v, false).Fail?
  {
    hide ReadSeq, SpaceLen;
    BarSpaces(v, u);
    if u == [] {
      NothingReads(u);
      NoMoreReads(u);
      var none: seq<Branch> := [];
      assert v[2 + 0..] == u && [Branch([])] + none == [Branch([])];
    }
  }

  lemma {:induction false} BarSpaces(v: Text, u: Text)
    requires v == [BAR] + ([NEWLINE] + u) && SpaceLen(u, true) == 0
    ensures SpaceLen(v, false) == 0 && SpaceLen(v[1..], true) == 1 && v[2..] == u
  {
    assert v[1..] == [NEWLINE] + u && v[1..][1..] == u;
  }

  lemma {:induction false} NothingReads(s: Text)
    requires s == []
    ensures ReadSeq(s, false) == Got([], 0)
  {
    hide ReadElem, ReadPostfix;
  }

  lemma {:induction false} NoMoreReads(s: Text)
    requires s == []
    ensures ReadMore(s, false) == Got([], 0)
  {
    hide ReadSeq;
  }

  // ----- whole grammars -----

  predicate DefOk(d: Definition)
  {
    IsName(d.name) && d.alts != [] && AltsOk(d.alts)
  }

  function DefText(d: Definition): Text
  {
    d.name + ([COLON, COLON, EQUALS] + AltsText(d.alts))
  }

  /** One definition a line. */
  function GrammarText(ds: seq<Definition>): Text
    decreases |ds|
  {
    if ds == [] then [] else DefText(ds[0]) + ([NEWLINE] + GrammarText(ds[1..]))
  }

  function SourceOf(ds: seq<Definition>, g: Source): Source
    decreases |ds|
  {
    if ds == [] then g else SourceOf(ds[1..], g[ds[0].name := ds[0].alts])
  }

  predicate NewNames(ds: seq<Definition>, g: Source)
    decreases |ds|
  {
    ds == [] || (ds[0].name !in g && NewNames(ds[1..], g[ds[0].name := ds[0].alts]))
  }

  lemma {:induction false} AltsStart(alts: seq<Branch>, rest: Text)
    requires alts != [] && AltsOk(alts) && LastShows(alts, false)
    ensures SpaceLen(AltsText(alts) + rest, true) == 0
  {
    hide SeqText, MoreText, SpaceLen, SeqOk;
    if |alts| > 1 {
      EmptyFirst(alts, rest);
    } else {
      var es, v := alts[0].elems, MoreText(alts[1..]) + rest;
      assert AltsText(alts) + rest == SeqText(es) + v;
      SeqBegins(es, v);
    }
  }

  lemma {:induction false} EmptyFirst(alts: seq<Branch>, rest: Text)
    requires |alts| > 1 && AltsOk(alts)
    ensures SpaceLen(AltsText(alts) + rest, true) == 0
  {
    hide SeqText, MoreText, SpaceLen, SeqOk;
    var es, v := alts[0].elems, MoreText(alts[1..]) + rest;
    assert AltsText(alts) + rest == SeqText(es) + v;
    MoreTextCons(alts[1..], rest);
    SeqBegins(es, v);
  }

  lemma {:induction false} NoAltText(alts: seq<Branch>, rest: Text)
    requires |alts| == 1 && !LastShows(alts, false)
    ensures AltsText(alts) == [] && AltsText(alts) + rest == rest && alts == [Branch([])]
  {
    assert alts[0] == Branch([]);
  }

  lemma {:induction false} AltsOf(u: Text)
    ensures u == [] ==> ReadAlts(u, false) == Got([Branch([])], 0)
    ensures ReadSeq(u, false).Fail? ==> ReadAlts(u, false).Fail?
  {
    hide ReadSeq, ReadMore;
    if u == [] {
      NothingReads(u);
      NoMoreReads(u);
      var none: seq<Branch> := [];
      assert u[0..] == u && [Branch([])] + none == [Branch([])];
    }
  }

  /** A name and its `::=` are read up to where the alternatives begin. */
  lemma {:induction false} HeadReads(x: Name, t: Text)
    requires IsName(x)
    ensures var s := x + ([COLON, COLON, EQUALS] + t);
            && ReadHead(s) == Got(x, |x| + 3 + SpaceLen(t, true))
            && ReadRule(s) == match ReadAlts(t[SpaceLen(t, true)..], false)
                              case Fail => Fail
                              case Got(alts, m) => Got(Definition(x, alts), |x| + 3 + SpaceLen(t, true) + m)
  {
    hide ReadAlts, SpaceLen;
    var n, k, u := |x|, SpaceLen(t, true), [COLON, COLON, EQUALS] + t;
    var s := x + u;
    assert s[n..] == u && s[n + 3..] == t && s[..n] == x && s[n + 3 + k..] == t[k..];
    WordReads(x, u);
    NoHeadSpace(u);
  }

  lemma {:induction false} RuleReads(d: Definition, rest: Text)
    requires DefOk(d) && LastShows(d.alts, false) && StopsAlts(rest, false)
    ensures ReadRule(DefText(d) + rest) == Got(d, |DefText(d)|)
  {
    hide AltsText, ReadAlts, AltsOk, LastShows, SpaceLen, ReadRule;
    var t := AltsText(d.alts) + rest;
    assert DefText(d) + rest == d.name + ([COLON, COLON, EQUALS] + t) && t[0..] == t;
    AltsStart(d.alts, rest);
    HeadReads(d.name, t);
    AltsRead(d.alts, false, rest);
  }

  /** A definition with an empty last alternative takes the line end with it at the end of
      the text, and fails before another definition. */
  lemma {:induction false} RuleRunsOn(d: Definition, u: Text)
    requires DefOk(d) && !LastShows(d.alts, false) && SpaceLen(u, true) == 0
    ensures u == [] ==> ReadRule(DefText(d) + ([NEWLINE] + u)) == Got(d, |DefText(d)| + 1)
    ensures ReadSeq(u, false).Fail? ==> ReadRule(DefText(d) + ([NEWLINE] + u)).Fail?
  {
    hide AltsText, ReadAlts, AltsOk, SpaceLen, ReadRule, ReadSeq;
    var nl := [NEWLINE] + u;
    var t := AltsText(d.alts) + nl;
    assert DefText(d) + nl == d.name + ([COLON, COLON, EQUALS] + t) && t[0..] == t;
    HeadReads(d.name, t);
    if |d.alts| > 1 {
      AltsRunOn(d.alts, u);
      EmptyFirst(d.alts, nl);
    } else {
      NoAltText(d.alts, nl);
      BarSpaces([BAR] + nl, u);
      assert ([BAR] + nl)[1..] == t && t[1..] == u;
      AltsOf(u);
    }
  }

  lemma {:induction false} NoHeadSpace(u: Text)
    requires u != [] && u[0] == COLON
    ensures SpaceLen(u, false) == 0
  {
  }

  lemma {:induction false} OneSpace(s: Text, newlines: bool)
    requires s != [] && (s[0] == SPACE || (s[0] == NEWLINE && newlines))
    ensures SpaceLen(s, newlines) == 1 + SpaceLen(s[1..], newlines)
  {
  }

  lemma {:induction false} NewlineSkips(t: Text, g: Source)
    ensures ReadRules([NEWLINE] + t, g) == Later(1, ReadRules(t, g))
  {
    hide ReadRule, SpaceLen;
    var s, k := [NEWLINE] + t, SpaceLen(t, true);
    OneSpace(s, true);
    assert s[1..] == t;
    assert s[1 + k..] == t[k..];
    if k < |t| && ReadRule(t[k..]).Got? {
      var n := ReadRule(t[k..]).len;
      assert s[1 + k + n..] == t[k + n..];
    }
  }

  lemma {:induction false} RulesOnce(s: Text, g: Source, d: Definition, n: nat)
    requires s != [] && SpaceLen(s, true) == 0 && ReadRule(s) == Got(d, n) && d.name !in g
    ensures n <= |s|
    ensures ReadRules(s, g) == Later(n, ReadRules(s[n..], g[d.name := d.alts]))
  {
    hide ReadRule, SpaceLen;
    assert s[0..] == s;
  }

  /** A name read as a call ends in an error at the `::=` behind it. */
  lemma {:induction false} HeadIsNoSeq(x: Name, t: Text)
    requires IsName(x)
    ensures ReadSeq(x + ([COLON] + t), false).Fail? && SpaceLen(x + ([COLON] + t), true) == 0
  {
    var u := [COLON] + t;
    var s := x + u;
    assert s[0] == x[0] && IsWordByte(s[0]);
    NoSpace(s, true);
    NoSpace(s, false);
    WordReads(x, u);
    assert s[|x|..] == u && s[..|x|] == x;
    ColonReads(u, Call(x));
    hide SpaceLen, ReadSeq, ReadPostfix, WordLen;
    assert ReadElem(s) == Got(Call(x), |x|);
    assert s[|x| + 0..] == u;
    SeqOnce(s, |x|, 0, false, Call(x), Call(x));
  }

  lemma {:induction false} ColonReads(u: Text, e: Elem)
    requires u != [] && u[0] == COLON
    ensures ReadPostfix(u, e) == Got(e, 0) && ReadSeq(u, false).Fail?
  {
    hide ReadElem, SpaceLen, ReadOne, Vanishes;
    NoHeadSpace(u);
    ColonIsNoElem(u);
    assert u[0..] == u;
  }

  lemma {:induction false} ColonIsNoElem(u: Text)
    requires u != [] && u[0] == COLON
    ensures ReadElem(u).Fail?
  {
    hide ReadString, ReadClass, ReadAlts, WordLen, SpaceLen;
  }

  /** No definition with an empty last alternative has another one behind it. */
  predicate KeptApart(ds: seq<Definition>)
  {
    forall i :: 0 <= i < |ds| - 1 ==> LastShows(ds[i].alts, false)
  }

  /** Reading a printed grammar gives back exactly the grammar, if no empty last alternative
      has a definition behind it, and fails otherwise. */
  lemma {:induction false} GrammarReadsBack(ds: seq<Definition>, g: Source)
    requires (forall i :: 0 <= i < |ds| ==> DefOk(ds[i])) && NewNames(ds, g)
    ensures ReadRules(GrammarText(ds), g) ==
            if KeptApart(ds) then Got(SourceOf(ds, g), |GrammarText(ds)|) else Fail
    decreases |ds|
  {
    hide ReadRules, ReadRule, DefText, SpaceLen, DefOk, LastShows;
    if ds == [] {
      EmptyGrammar(ds, g);
    } else {
      var d, u := ds[0], GrammarText(ds[1..]);
      GrammarReadsBack(ds[1..], g[d.name := d.alts]);
      assert DefOk(d);
      DefStarts(d, [NEWLINE] + u);
      if LastShows(d.alts, false) {
        DefReadsBack(ds, g);
      } else {
        LastDefReads(ds, g);
      }
    }
  }

  lemma {:induction false} EmptyGrammar(ds: seq<Definition>, g: Source)
    requires ds == []
    ensures ReadRules(GrammarText(ds), g) == Got(SourceOf(ds, g), |GrammarText(ds)|)
  {
    hide ReadRule;
  }

  lemma {:induction false} DefReadsBack(ds: seq<Definition>, g: Source)
    requires ds != [] && DefOk(ds[0]) && LastShows(ds[0].alts, false) && ds[0].name !in g
    requires var g' := g[ds[0].name := ds[0].alts];
             ReadRules(GrammarText(ds[1..]), g') ==
             if KeptApart(ds[1..]) then Got(SourceOf(ds[1..], g'), |GrammarText(ds[1..])|) else Fail
    ensures ReadRules(GrammarText(ds), g) ==
            if KeptApart(ds) then Got(SourceOf(ds, g), |GrammarText(ds)|) else Fail
  {
    var d, t := ds[0], [NEWLINE] + GrammarText(ds[1..]);
    var s, g' := DefText(d) + t, g[d.name := d.alts];
    RuleReads(d, t);
    DefStarts(d, t);
    hide ReadRules, ReadRule, DefText, SpaceLen, DefOk;
    RulesOnce(s, g, d, |DefText(d)|);
    assert s[|DefText(d)|..] == t;
    NewlineSkips(GrammarText(ds[1..]), g');
    KeptApartTail(ds);
  }

  lemma {:induction false} KeptApartTail(ds: seq<Definition>)
    requires ds != [] && (LastShows(ds[0].alts, false) || |ds| == 1)
    ensures KeptApart(ds) <==> KeptApart(ds[1..])
  {
    hide LastShows;
    if KeptApart(ds[1..]) {
      forall i | 0 <= i < |ds| - 1
        ensures LastShows(ds[i].alts, false)
      {
        if i > 0 {
          assert ds[1..][i - 1] == ds[i];
        }
      }
    }
    if KeptApart(ds) {
      forall i | 0 <= i < |ds[1..]| - 1
        ensures LastShows(ds[1..][i].alts, false)
      {
        assert ds[1..][i] == ds[i + 1];
      }
    }
  }

  lemma {:induction false} LastDefReads(ds: seq<Definition>, g: Source)
    requires ds != [] && (forall i :: 0 <= i < |ds| ==> DefOk(ds[i]))
    requires !LastShows(ds[0].alts, false) && ds[0].name !in g
    ensures ReadRules(GrammarText(ds), g) ==
            if KeptApart(ds) then Got(SourceOf(ds, g), |GrammarText(ds)|) else Fail
  {
    hide ReadRules, DefOk, LastShows, GrammarText, SourceOf;
    if |ds| == 1 {
      OnlyDefReads(ds, g);
    } else {
      NextDefIsTaken(ds, g);
    }
  }

  lemma {:induction false} OnlyDefReads(ds: seq<Definition>, g: Source)
    requires |ds| == 1 && DefOk(ds[0]) && !LastShows(ds[0].alts, false) && ds[0].name !in g
    ensures ReadRules(GrammarText(ds), g) == Got(SourceOf(ds, g), |GrammarText(ds)|)
  {
    hide ReadRules, ReadRule, DefText, SpaceLen, LastShows, DefOk;
    var d, u := ds[0], GrammarText(ds[1..]);
    var g', s := g[d.name := d.alts], DefText(d) + ([NEWLINE] + u);
    DefStarts(d, [NEWLINE] + u);
    NothingSkips(u);
    RuleRunsOn(d, u);
    RulesOnce(s, g, d, |s|);
    assert s[|s|..] == u;
    EmptyGrammar(ds[1..], g');
  }

  lemma {:induction false} NextDefIsTaken(ds: seq<Definition>, g: Source)
    requires |ds| > 1 && DefOk(ds[0]) && DefOk(ds[1]) && !LastShows(ds[0].alts, false)
    ensures ReadRules(GrammarText(ds), g).Fail?
  {
    hide ReadRules, ReadRule, DefText, SpaceLen, LastShows, DefOk, ReadSeq;
    var d, u := ds[0], GrammarText(ds[1..]);
    DefStarts(d, [NEWLINE] + u);
    TextBegins(ds[1..]);
    RuleRunsOn(d, u);
    RulesFail(DefText(d) + ([NEWLINE] + u), g);
  }

  lemma {:induction false} NothingSkips(u: Text)
    requires u == []
    ensures SpaceLen(u, true) == 0
  {
  }

  lemma {:induction false} TextBegins(ds: seq<Definition>)
    requires ds != [] && DefOk(ds[0])
    ensures SpaceLen(GrammarText(ds), true) == 0 && ReadSeq(GrammarText(ds), false).Fail?
  {
    hide AltsText, ReadSeq, SpaceLen;
    var d, t := ds[0], [NEWLINE] + GrammarText(ds[1..]);
    var w := [COLON, EQUALS] + AltsText(d.alts) + t;
    assert GrammarText(ds) == d.name + ([COLON] + w);
    HeadIsNoSeq(d.name, w);
  }

  lemma {:induction false} RulesFail(s: Text, g: Source)
    requires s != [] && SpaceLen(s, true) == 0 && ReadRule(s).Fail?
    ensures ReadRules(s, g).Fail?
  {
    hide ReadRule, SpaceLen;
    assert s[0..] == s;
  }

  /** `a::=` and `b::=`, each with one empty alternative, a line each: the first one reads,
      the two together do not. */
  lemma EmptyAlternativeRunsOn()
    ensures var a: Text, b: Text := [0x61, COLON, COLON, EQUALS, NEWLINE], [0x62, COLON, COLON, EQUALS, NEWLINE];
            ReadRules(a, map[]) == Got(map[[0x61] := [Branch([])]], 5) && ReadRules(a + b, map[]).Fail?
  {
    hide ReadRules;
    var none: Source, empty := map[], [Branch([])];
    var x, y := Definition([0x61], empty), Definition([0x62], empty);
    var one, two, g := [x], [x, y], none[x.name := empty];
    NoAltText(empty, []);
    EmptyDefText(x);
    EmptyDefText(y);
    assert one[1..] == [] && two[1..] == [y] && [y][1..] == [];
    assert NewNames([y], g) && SourceOf(one[1..], g) == g;
    GrammarReadsBack(one, none);
    GrammarReadsBack(two, none);
    var a: Text, b: Text := [0x61, COLON, COLON, EQUALS, NEWLINE], [0x62, COLON, COLON, EQUALS, NEWLINE];
    assert GrammarText([y][1..]) == [] && GrammarText(one[1..]) == [];
    assert GrammarText(one) == DefText(x) + [NEWLINE] == a;
    assert GrammarText([y]) == DefText(y) + [NEWLINE] == b;
    assert GrammarText(two) == DefText(x) + ([NEWLINE] + GrammarText([y])) == a + b;
    assert KeptApart(one) && g == map[[0x61] := empty];
    assert !LastShows(two[0].alts, false);
  }

  lemma EmptyDefText(d: Definition)
    requires d.alts == [Branch([])]
    ensures DefText(d) == d.name + [COLON, COLON, EQUALS]
  {
    NoAltText(d.alts, []);
  }

  lemma {:induction false} DefStarts(d: Definition, t: Text)
    requires DefOk(d)
    ensures DefText(d) + t != [] && SpaceLen(DefText(d) + t, true) == 0
  {
    hide AltsText, SpaceLen;
    assert (DefText(d) + t)[0] == d.name[0];
    NoSpace(DefText(d) + t, true);
  }
}
