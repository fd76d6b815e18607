/** What grammar text denotes, element by element, and what that makes of the compiler. */
module GbnfText {
  import opened CharSets
  import opened Languages
  import opened GbnfSyntax
  import opened Reading
  import opened GbnfSpelling
  import opened LeftRecursion
  import opened GbnfUnspelled
  import R = GbnfReading
  import GbnfGrammar
  import Utf8

  // ----- characters -----

  /** Any codepoint may be written as its UTF-8 bytes, the backslash excepted. */
  lemma {:induction false} PlainIsUtf8(c: uint32) returns (ch: Char)
    requires c <= 0x10FFFF && c != 0x5C
    ensures CharOk(ch) && CharText(ch) == Utf8.Encode(c) && CharValue(ch) == c
  {
    if c < 0x80 {
      ch := Raw(c);
    } else {
      var b, ds := Utf8.EncodeLed(c);
      ch := LedChar(c, b, ds);
    }
  }

  lemma {:induction false} LedChar(c: uint32, b: byte, ds: seq<nat>) returns (ch: Char)
    requires Utf8.AreDigits(ds) && Utf8.Extra(b) == |ds| > 0 && Utf8.Value(Utf8.LeadBits(b, |ds|), ds) == c
    ensures CharOk(ch) && CharText(ch) == [b] + Utf8.Continuations(ds) && CharValue(ch) == c
  {
    var t := Utf8.Continuations(ds);
    ch := Multi(b, t);
    var v := Utf8.LeadBits(b, |ds|);
    assert forall i :: 0 <= i < |ds| ==> TailValue(t[i]) == ds[i];
    Utf8.MoreDigits(v, ds);
    if |ds| == 1 {
      assert ds == [ds[0]];
      Utf8.OneDigit(v, ds[0]);
    } else if |ds| == 2 {
      assert ds[1..] == [ds[1]];
      Utf8.OneDigit(v * 64 + ds[0], ds[1]);
    } else {
      Utf8.MoreDigits(v * 64 + ds[0], ds[1..]);
      assert ds[1..][1..] == [ds[2]];
      Utf8.OneDigit((v * 64 + ds[0]) * 64 + ds[1], ds[2]);
    }
  }

  // ----- elements -----

  /** A class holds what lies in one of its spans; `^` turns that round. */
  lemma {:induction false} ClassMeans(g: Source, negated: bool, xs: seq<Span>, n: nat, w: Word)
    ensures w in ElemLang(g, ElMeans(Class(negated, xs)), n) <==>
            |w| == 1 && negated == !exists i :: 0 <= i < |xs| && InRange(SpanRange(xs[i]), w[0])
  {
    RangesAre(xs);
  }

  lemma {:induction false} RangesAre(xs: seq<Span>)
    ensures |SpanRanges(xs)| == |xs| && forall i :: 0 <= i < |xs| ==> SpanRanges(xs)[i] == SpanRange(xs[i])
    decreases |xs|
  {
    if xs != [] {
      RangesAre(xs[1..]);
    }
  }

  /** A dot is any one codepoint. */
  lemma {:induction false} DotMeans(g: Source, n: nat, w: Word)
    ensures w in ElemLang(g, ElMeans(Dot), n) <==> |w| == 1
  {
  }

  /** A literal is the values of its characters. */
  lemma {:induction false} StrMeans(g: Source, chars: seq<Char>, n: nat, w: Word)
    requires CharsOk(chars)
    ensures w in ElemLang(g, ElMeans(Str(chars)), n) <==>
            |w| == |chars| && forall i :: 0 <= i < |w| ==> w[i] == Low(CharValue(chars[i]))
  {
    ValuesAre(chars);
    assert w == Values(chars) <==> |w| == |chars| && forall i :: 0 <= i < |w| ==> w[i] == Values(chars)[i];
  }

  lemma {:induction false} ValuesAre(chars: seq<Char>)
    requires CharsOk(chars)
    ensures |Values(chars)| == |chars| && forall i :: 0 <= i < |chars| ==> Values(chars)[i] == Low(CharValue(chars[i]))
    decreases |chars|
  {
    if chars != [] {
      ValuesAre(chars[1..]);
    }
  }

  /** `e*` is any number of words of `e` joined up, `e+` at least one, `e?` at most one, and a
      counted repetition as many as it says. */
  lemma {:induction false} OperatorMeans(g: Source, e: El, op: Op, n: nat, w: Word)
    requires OpOk(op)
    ensures w in ElemLang(g, ElMeans(Post(e, op)), n) <==>
            exists parts :: JoinsUp(ElemLang(g, ElMeans(e), n), parts, w) && Asked(op, |parts|)
  {
    hide JoinsUp, Decimal, ElemLang, Repeat;
    var l := ElemLang(g, ElMeans(e), n);
    PostLang(g, ElMeans(e), Least(op), Most(op), n);
    RepeatIff(l, Least(op), Most(op), w);
    forall k: nat
      ensures Asked(op, k) <==> Least(op) <= k && (Most(op) < 0 || k <= Most(op))
    {
    }
  }

  lemma {:induction false} PostLang(g: Source, e: Elem, lo: nat, hi: int, n: nat)
    ensures ElemLang(g, Rep(e, lo, hi), n) == Repeat(ElemLang(g, e, n), lo, hi)
  {
  }

  /** The counts an operator allows. */
  predicate Asked(op: Op, k: nat)
    requires OpOk(op)
  {
    match op
    case Star => true
    case Plus => k >= 1
    case Question => k <= 1
    case Counted(a, comma, b) =>
      if !comma then k == Decimal(a) else Decimal(a) <= k && (b == [] || k <= Decimal(b))
  }

  // ----- whole texts -----

  ghost predicate Sound(g: Source)
  {
    R.Closed(g, [0x72, 0x6F, 0x6F, 0x74]) && !HasCallCycle(g) && !HasEmptyLoop(g)
  }

  /** A text compiles exactly if it spells a grammar whose rules are all defined, `root` among
      them, where no rule can begin with itself and nothing that can be empty is repeated
      without bound. */
  lemma {:induction false} CompilesIff(src: Text)
    ensures GbnfGrammar.Compiles(src) <==> exists g :: Spells(src, g) && Sound(g)
  {
    hide R.ReadRules, Spells, HasCallCycle, HasEmptyLoop, R.Closed;
    if GbnfGrammar.Compiles(src) {
      ReadIffSpelled(src, map[]);
      var h :| Spells(src, h);
      ReadIffSpelled(src, h);
    }
    if g :| Spells(src, g) && Sound(g) {
      ReadIffSpelled(src, g);
    }
  }
}
