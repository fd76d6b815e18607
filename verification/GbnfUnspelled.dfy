/** Whatever is read is spelled right. The trees are found along the reading; that they denote
    what was read follows from the other direction. */
module GbnfUnspelled {
  import opened CharSets
  import opened GbnfSyntax
  import opened Reading
  import opened GbnfSpelling
  import opened GbnfSpelled
  import R = GbnfReading

  /** `s` begins with `t`, and `rest` is what is left. */
  predicate Parts(s: Text, t: Text, rest: Text)
  {
    s == t + rest
  }

  // ----- characters -----

  lemma {:induction false} HexFound(s: Text, n: nat, acc: uint32)
    requires R.ReadHex(s, n, acc).Got?
    ensures n <= |s| && AllHex(s[..n])
    decreases n
  {
    if n > 0 {
      HexFound(s[1..], n - 1, (acc * 16 + R.HexDigit(s[0])) % 0x1_0000_0000);
      forall i | 0 <= i < n
        ensures IsHex(s[..n][i])
      {
        if i > 0 {
          assert s[i] == s[1..][..n - 1][i - 1];
        }
      }
    }
  }

  lemma {:induction false} TailFound(s: Text, n: nat, acc: uint32)
    requires R.ReadTail(s, n, acc).Got?
    ensures n <= |s| && AllTail(s[..n])
    decreases n
  {
    if n > 0 {
      TailFound(s[1..], n - 1, (acc * 64 + s[0] % 64) % 0x1_0000_0000);
      forall i | 0 <= i < n
        ensures 0x80 <= s[..n][i] <= 0xBF
      {
        if i > 0 {
          assert s[i] == s[1..][..n - 1][i - 1];
        }
      }
    }
  }

  lemma {:induction false} CharFound(s: Text) returns (ch: Char, rest: Text)
    requires R.ReadChar(s).Got?
    ensures CharOk(ch) && Parts(s, CharText(ch), rest)
  {
    hide R.ReadHex, R.ReadTail;
    if s[0] != 0x5C {
      if s[0] < 0x80 {
        ch, rest := Raw(s[0]), s[1..];
      } else {
        var n := if s[0] >= 0xF0 then 3 else if s[0] >= 0xE0 then 2 else 1;
        var lead := if n == 3 then s[0] % 8 else if n == 2 then s[0] % 16 else s[0] % 32;
        TailFound(s[1..], n, lead);
        ch, rest := Multi(s[0], s[1..][..n]), s[1..][n..];
        assert s == [s[0]] + (s[1..][..n] + s[1..][n..]);
      }
    } else if s[1] == 0x78 || s[1] == 0x75 || s[1] == 0x55 {
      var n := if s[1] == 0x78 then 2 else if s[1] == 0x75 then 4 else 8;
      HexFound(s[2..], n, 0);
      ch, rest := Hex(s[1], s[2..][..n]), s[2..][n..];
      assert s == [s[0], s[1]] + (s[2..][..n] + s[2..][n..]);
    } else {
      ch, rest := Escape(s[1]), s[2..];
    }
  }

  /** Where a reading and a tree start alike, they agree. */
  lemma {:induction false} CharAgrees(s: Text, ch: Char, rest: Text)
    requires CharOk(ch) && Parts(s, CharText(ch), rest)
    ensures R.ReadChar(s) == Got(CharValue(ch), |CharText(ch)|) && s[|CharText(ch)|..] == rest && s[0] == CharText(ch)[0]
  {
    hide R.ReadChar, CharValue, CharText;
    CharReads(ch, rest);
  }

  // ----- blank space -----

  lemma {:induction false} CommentFound(s: Text)
    ensures 0x0A !in s[..R.CommentLen(s)] && EndsLine(s[R.CommentLen(s)..])
    decreases |s|
  {
    if s != [] && s[0] != 0x0A {
      var n := R.CommentLen(s[1..]);
      CommentFound(s[1..]);
      assert s[..n + 1] == [s[0]] + s[1..][..n] && s[n + 1..] == s[1..][n..];
    }
  }

  lemma {:induction false} GapCons(x: Blank, tail: Gap, lines: bool, rest: Text)
    requires GapOk(tail, lines, rest)
    requires match x
             case Space(b) => b == 0x20 || b == 0x09 || b == 0x0D || (b == 0x0A && lines)
             case Comment(t) => 0x0A !in t && EndsLine(GapText(tail) + rest)
    ensures GapOk([x] + tail, lines, rest) && GapText([x] + tail) == BlankText(x) + GapText(tail)
  {
    assert ([x] + tail)[1..] == tail;
  }

  lemma {:induction false} GapFound(s: Text, lines: bool) returns (gap: Gap, rest: Text)
    ensures GapOk(gap, lines, rest) && Parts(s, GapText(gap), rest)
    decreases |s|
  {
    hide GapOk, GapText, R.CommentLen, BlankText;
    if StartsBlank(s, lines) {
      var x, k := BlankFound(s, lines);
      var tail;
      tail, rest := GapFound(s[k..], lines);
      gap := [x] + tail;
      GapCons(x, tail, lines, rest);
      assert s == BlankText(x) + (GapText(tail) + rest);
    } else {
      gap, rest := [], s;
      NoGap(s, lines);
    }
  }

  lemma {:induction false} NoGap(s: Text, lines: bool)
    requires !StartsBlank(s, lines)
    ensures GapOk([], lines, s) && Parts(s, GapText([]), s)
  {
    assert GapText([]) + s == s;
  }

  lemma {:induction false} BlankFound(s: Text, lines: bool) returns (x: Blank, k: nat)
    requires StartsBlank(s, lines)
    ensures 0 < k <= |s| && BlankText(x) == s[..k]
    ensures match x
            case Space(b) => b == 0x20 || b == 0x09 || b == 0x0D || (b == 0x0A && lines)
            case Comment(t) => 0x0A !in t && EndsLine(s[k..])
  {
    hide R.CommentLen;
    if s[0] == 0x23 {
      k := R.CommentLen(s);
      CommentFound(s);
      x := Comment(s[1..k]);
      forall i | 0 <= i < |s[1..k]|
        ensures s[1..k][i] != 0x0A
      {
        assert s[1..k][i] == s[..k][i + 1];
      }
    } else {
      x, k := Space(s[0]), 1;
    }
  }

  // ----- literals and classes -----

  lemma {:induction false} CharsCons(ch: Char, tail: seq<Char>)
    requires CharOk(ch) && CharText(ch)[0] != 0x22 && CharsOk(tail)
    ensures CharsOk([ch] + tail) && CharsText([ch] + tail) == CharText(ch) + CharsText(tail)
  {
    hide CharOk, CharText;
    assert ([ch] + tail)[1..] == tail;
  }

  lemma {:induction false} StringFound(s: Text) returns (chars: seq<Char>, rest: Text)
    requires R.ReadString(s).Got?
    ensures CharsOk(chars) && Parts(s, CharsText(chars) + [0x22], rest)
    decreases |s|
  {
    hide R.ReadChar, CharText, CharOk, CharValue;
    if s[0] == 0x22 {
      chars, rest := [], s[1..];
    } else {
      var ch, u := CharFound(s);
      CharAgrees(s, ch, u);
      var tail;
      tail, rest := StringFound(u);
      chars := [ch] + tail;
      CharsCons(ch, tail);
      assert s == CharText(ch) + (CharsText(tail) + [0x22] + rest);
    }
  }

  lemma {:induction false} SpanFound(s: Text) returns (x: Span, rest: Text)
    requires R.ReadRange(s).Got? && s[0] != 0x5D
    ensures SpanOk(x, rest) && Parts(s, SpanText(x), rest)
  {
    hide R.ReadChar, R.ReadRange, CharText, CharOk, CharValue;
    assert R.ReadChar(s).Got? by {
      RangeNeedsChar(s);
    }
    var ch, u := CharFound(s);
    CharAgrees(s, ch, u);
    RangeOnce(s, CharValue(ch), |CharText(ch)|);
    if MakesRange(u) {
      assert s[|CharText(ch)| + 1..] == u[1..];
      var hi, v := CharFound(u[1..]);
      CharAgrees(u[1..], hi, v);
      x, rest := FromTo(ch, hi), v;
      assert s == CharText(ch) + ([0x2D] + (CharText(hi) + v));
    } else {
      x, rest := One(ch), u;
    }
  }

  lemma {:induction false} RangeNeedsChar(s: Text)
    requires R.ReadRange(s).Got?
    ensures R.ReadChar(s).Got?
  {
    hide R.ReadChar;
  }

  lemma {:induction false} SpansCons(x: Span, tail: seq<Span>, rest: Text)
    requires SpanOk(x, SpansText(tail) + ([0x5D] + rest)) && SpansOk(tail, rest)
    ensures SpansOk([x] + tail, rest) && SpansText([x] + tail) == SpanText(x) + SpansText(tail)
  {
    hide SpanOk, SpanText;
    assert ([x] + tail)[1..] == tail;
  }

  lemma {:induction false} SpansFound(s: Text) returns (xs: seq<Span>, rest: Text)
    requires R.ReadRanges(s).Got?
    ensures SpansOk(xs, rest) && Parts(s, SpansText(xs), [0x5D] + rest)
    decreases |s|
  {
    hide R.ReadRange, SpanText, SpanOk;
    if s[0] == 0x5D {
      xs, rest := [], s[1..];
      assert s == [0x5D] + rest;
    } else {
      var x, u := SpanFound(s);
      SpanReads(x, u);
      assert s[|SpanText(x)|..] == u;
      var tail;
      tail, rest := SpansFound(u);
      xs := [x] + tail;
      SpansCons(x, tail, rest);
      assert s == SpanText(x) + (SpansText(tail) + ([0x5D] + rest));
    }
  }

  // ----- operators -----

  lemma {:induction false} DigitsFound(s: Text)
    ensures AllDigits(s[..DigitsLen(s)])
  {
  }

  lemma {:induction false} CountedFound(s: Text) returns (op: Op, rest: Text)
    requires s != [] && s[0] == 0x7B && R.ReadCounts(s).Got?
    ensures op.Counted? && AllDigits(op.a) && AllDigits(op.b) && (op.comma || op.b == []) && Parts(s, OpText(op), rest)
  {
    hide DigitsLen, Number;
    var n := DigitsLen(s[1..]);
    var a := s[1..][..n];
    DigitsFound(s[1..]);
    if At(s, n + 1) == 0x2C {
      var m := DigitsLen(s[n + 2..]);
      var b := s[n + 2..][..m];
      DigitsFound(s[n + 2..]);
      op, rest := Counted(a, true, b), s[n + m + 3..];
      CommaLayout(s, n, m);
    } else {
      op, rest := Counted(a, false, []), s[n + 2..];
      assert s == [0x7B] + a + [] + [0x7D] + rest;
    }
  }

  lemma CommaLayout(s: Text, n: nat, m: nat)
    requires n + m + 2 < |s| && s[0] == 0x7B && s[n + 1] == 0x2C && s[n + m + 2] == 0x7D
    ensures s == [0x7B] + s[1..][..n] + ([0x2C] + s[n + 2..][..m]) + [0x7D] + s[n + m + 3..]
  {
    var t := [0x7B] + s[1..][..n] + ([0x2C] + s[n + 2..][..m]) + [0x7D] + s[n + m + 3..];
    assert |t| == |s|;
    forall i | 0 <= i < |s|
      ensures s[i] == t[i]
    {
    }
  }

  lemma {:induction false} OpFound(s: Text) returns (op: Op, rest: Text)
    requires s != [] && R.IsPostfix(s[0]) && R.ReadOne(s).Got?
    ensures OpOk(op) && Parts(s, OpText(op), rest)
  {
    hide R.ReadCounts, Decimal, AllDigits;
    if s[0] == 0x2A {
      op, rest := Star, s[1..];
    } else if s[0] == 0x2B {
      op, rest := Plus, s[1..];
    } else if s[0] == 0x3F {
      op, rest := Question, s[1..];
    } else {
      op, rest := CountedFound(s);
      CountsRead(op, rest);
    }
  }

  // ----- elements -----

  lemma {:induction false} NameFound(s: Text)
    ensures var n := R.WordLen(s); (forall i :: 0 <= i < n ==> IsWord(s[i])) && (n < |s| ==> !IsWord(s[n]))
    decreases |s|
  {
    if s != [] && R.IsWordByte(s[0]) {
      NameFound(s[1..]);
      var n := R.WordLen(s[1..]);
      forall i | 0 <= i < n + 1
        ensures IsWord(s[i])
      {
        if i > 0 {
          assert s[i] == s[1..][i - 1];
        }
      }
    }
  }

  lemma {:induction false} StrFound(s: Text) returns (e: El, rest: Text)
    requires s != [] && s[0] == 0x22 && R.ReadString(s[1..]).Got?
    ensures !e.Post? && ElOk(e, rest) && Parts(s, ElText(e), rest)
  {
    hide R.ReadString, CharsText, CharsOk;
    var chars;
    chars, rest := StringFound(s[1..]);
    e := Str(chars);
    assert s == [0x22] + (CharsText(chars) + [0x22] + rest);
  }

  lemma {:induction false} ClassFound(s: Text) returns (e: El, rest: Text)
    requires s != [] && s[0] == 0x5B && R.ReadClass(s[1..]).Got?
    ensures !e.Post? && ElOk(e, rest) && Parts(s, ElText(e), rest)
  {
    hide R.ReadRanges, SpansText, SpansOk;
    var negated := At(s[1..], 0) == 0x5E;
    var u := if negated then s[2..] else s[1..];
    assert s[1..][1..] == s[2..] && s[1..][0..] == s[1..];
    var xs;
    xs, rest := SpansFound(u);
    e := Class(negated, xs);
    var t := SpansText(xs) + ([0x5D] + rest);
    if negated {
      assert s == [0x5B] + ([0x5E] + t);
    } else {
      assert s == [0x5B] + t && t[0] == s[1] && t[0] == (SpansText(xs) + [0x5D])[0];
    }
    assert ElText(e) + rest == [0x5B] + ((if negated then [0x5E] else []) + t);
  }

  lemma {:induction false} WordFound(s: Text) returns (e: El, rest: Text)
    requires s != [] && R.IsWordByte(s[0])
    ensures !e.Post? && ElOk(e, rest) && Parts(s, ElText(e), rest)
  {
    var n := R.WordLen(s);
    NameFound(s);
    e, rest := Word(s[..n]), s[n..];
  }

  lemma {:induction false} ElemKinds(s: Text)
    requires s != [] && R.ReadElem(s).Got?
    ensures || (s[0] == 0x22 && R.ReadString(s[1..]).Got?)
            || (s[0] == 0x5B && R.ReadClass(s[1..]).Got?)
            || s[0] == 0x2E
            || (s[0] == 0x28 && R.ReadAlts(s[1..], true).Got? &&
                At(s, 1 + R.ReadAlts(s[1..], true).len + R.SpaceLen(s[1 + R.ReadAlts(s[1..], true).len..], true)) == 0x29)
            || R.IsWordByte(s[0])
  {
    hide R.ReadString, R.ReadClass, R.ReadAlts, R.SpaceLen, R.WordLen;
  }

  /** An element without its operators. */
  lemma {:induction false} CoreFound(s: Text) returns (e: El, rest: Text)
    requires s != [] && R.ReadElem(s).Got?
    ensures !e.Post? && ElOk(e, rest) && Parts(s, ElText(e), rest)
    decreases |s|, 0
  {
    hide R.ReadElem, R.ReadString, R.ReadClass, R.ReadAlts, R.SpaceLen, R.WordLen;
    ElemKinds(s);
    if s[0] == 0x22 {
      e, rest := StrFound(s);
    } else if s[0] == 0x5B {
      e, rest := ClassFound(s);
    } else if s[0] == 0x2E {
      e, rest := Dot, s[1..];
    } else if s[0] == 0x28 {
      e, rest := ParenFound(s);
    } else {
      e, rest := WordFound(s);
    }
  }

  lemma {:induction false} ParenFound(s: Text) returns (e: El, rest: Text)
    requires s != [] && s[0] == 0x28 && R.ReadAlts(s[1..], true).Got?
    requires At(s, 1 + R.ReadAlts(s[1..], true).len + R.SpaceLen(s[1 + R.ReadAlts(s[1..], true).len..], true)) == 0x29
    ensures !e.Post? && ElOk(e, rest) && Parts(s, ElText(e), rest)
    decreases |s| - 1, 4
  {
    hide R.ReadAlts, R.SpaceLen, AltsText, AltsOk, AltsMean, StartsBlank;
    var alts, u := AltsFound(s[1..], true);
    var t := AltsText(alts);
    AltsEnd(alts, true, u);
    AltsRead(alts, true, u);
    assert s[1 + |t|..] == u;
    NoBlank(u, true);
    e, rest := Paren(alts), u[1..];
    assert u == [0x29] + rest;
    assert s == [0x28] + (t + ([0x29] + rest));
  }

  /** What is read is what is spelled. */
  lemma {:induction false} CoreAgrees(s: Text, e: El, rest: Text)
    requires !e.Post? && ElOk(e, rest) && Parts(s, ElText(e), rest)
    ensures s != [] && R.ReadElem(s) == Got(ElMeans(e), |ElText(e)|) && s[|ElText(e)|..] == rest
  {
    hide R.ReadElem, R.ReadPostfix, ElOk, ElMeans;
    ElReads(e, rest);
    ElBegins(e, rest);
    CoreWhole(e, rest);
  }

  lemma {:induction false} CoreWhole(e: El, rest: Text)
    requires !e.Post? && ElOk(e, rest)
    ensures R.ReadElem(ElText(e) + rest) == Got(ElMeans(e), |ElText(e)|)
  {
    match e
    case Str(_) => StrReads(e, rest);
    case Class(_, _) => SetReads(e, rest);
    case Dot => DotReads(rest);
    case Word(_) => WordReads(e, rest);
    case Paren(alts) => ParenWhole(e, alts, rest);
  }

  lemma {:induction false} PostfixKinds(u: Text, m: Elem)
    requires R.ReadPostfix(u, m).Got? && StartsOp(u)
    ensures !LeavesNothing(m) && R.IsPostfix(u[0]) && R.ReadOne(u).Got?
    ensures var b := R.ReadOne(u).value;
            R.ReadPostfix(u[R.ReadOne(u).len..], Rep(m, b.lo, b.hi)).Got?
  {
    hide R.ReadOne;
  }

  /** An element with all its operators. */
  lemma {:induction false} PostFound(s: Text, e: El, u: Text) returns (e': El, rest: Text)
    requires ElOk(e, u) && Parts(s, ElText(e), u) && R.ReadPostfix(u, ElMeans(e)).Got?
    ensures ElOk(e', rest) && Parts(s, ElText(e'), rest) && !StartsOp(rest)
    decreases |u|
  {
    hide R.ReadPostfix, R.ReadOne, OpOk, OpText, Least, Most, LeavesNothing;
    e', rest := e, u;
    if StartsOp(u) {
      PostfixKinds(u, ElMeans(e));
      var op, v := OpFound(u);
      OpReads(op, v);
      assert u[|OpText(op)|..] == v;
      var p := Post(e, op);
      assert ElText(e) + (OpText(op) + v) == ElText(p) + v;
      e', rest := PostFound(s, p, v);
    }
  }

  // ----- rows and alternatives -----

  lemma {:induction false} ItemsCons(x: Item, tail: seq<Item>, nested: bool, rest: Text)
    requires ItemsOk(tail, nested, rest)
    requires var next := ItemsText(tail) + rest;
             GapOk(x.gap, nested, ElText(x.el) + next) && ElOk(x.el, next) && !StartsOp(next)
    ensures ItemsOk([x] + tail, nested, rest)
    ensures ItemsText([x] + tail) == GapText(x.gap) + (ElText(x.el) + ItemsText(tail))
  {
    hide GapOk, ElOk, GapText, ElText;
    assert ([x] + tail)[1..] == tail;
  }

  lemma {:induction false} SeqKinds(s: Text, nested: bool, k: nat)
    requires R.ReadSeq(s, nested).Got? && k == R.SpaceLen(s, nested) && !EndsRow(s[k..])
    ensures var t := s[k..];
            && R.ReadElem(t).Got? && R.ReadPostfix(t[R.ReadElem(t).len..], R.ReadElem(t).value).Got?
            && var n, m := R.ReadElem(t).len, R.ReadPostfix(t[R.ReadElem(t).len..], R.ReadElem(t).value).len;
               n + m <= |t| && n > 0 && R.ReadSeq(t[n + m..], nested).Got?
  {
    hide R.SpaceLen, R.ReadElem, R.ReadPostfix;
  }

  lemma {:induction false} GapAgrees(s: Text, gap: Gap, lines: bool, rest: Text)
    requires GapOk(gap, lines, rest) && Parts(s, GapText(gap), rest)
    ensures R.SpaceLen(s, lines) == |GapText(gap)| && s[|GapText(gap)|..] == rest
  {
    hide GapOk, GapText, R.SpaceLen;
    GapReads(gap, lines, rest);
  }

  /** One element with its operators, as far as it is read. */
  lemma {:induction false} PieceFound(t: Text) returns (e: El, v: Text)
    requires t != [] && R.ReadElem(t).Got? && R.ReadPostfix(t[R.ReadElem(t).len..], R.ReadElem(t).value).Got?
    ensures ElOk(e, v) && Parts(t, ElText(e), v) && !StartsOp(v) && |v| < |t|
    ensures var n, m := R.ReadElem(t).len, R.ReadPostfix(t[R.ReadElem(t).len..], R.ReadElem(t).value).len;
            n + m <= |t| && v == t[n + m..]
    decreases |t|, 1
  {
    hide R.ReadElem, R.ReadPostfix, ElOk, ElText, ElMeans;
    var e0, u := CoreFound(t);
    CoreAgrees(t, e0, u);
    e, v := PostFound(t, e0, u);
    PieceAgrees(t, e, v, e0, u);
  }

  lemma {:induction false} RowCons(s: Text, gap: Gap, e: El, v: Text, tail: Row, nested: bool, rest: Text) returns (row: Row)
    requires GapOk(gap, nested, ElText(e) + v) && ElOk(e, v) && !StartsOp(v) && s == GapText(gap) + (ElText(e) + v)
    requires RowOk(tail, nested, rest) && Parts(v, RowText(tail), rest)
    ensures RowOk(row, nested, rest) && Parts(s, RowText(row), rest)
  {
    hide GapOk, GapText, ElOk, ElText, EndsRow, ItemsOk, ItemsText, StartsOp;
    var g, i, z := GapText(gap), ItemsText(tail.items), GapText(tail.end);
    row := Row([Item(gap, e)] + tail.items, tail.end);
    assert v == i + (z + rest);
    ItemsCons(Item(gap, e), tail.items, nested, z + rest);
    assert g + (ElText(e) + i) + z + rest == g + (ElText(e) + (i + (z + rest)));
  }

  lemma {:induction false} EmptyRow(s: Text, gap: Gap, nested: bool, rest: Text) returns (row: Row)
    requires GapOk(gap, nested, rest) && EndsRow(rest) && Parts(s, GapText(gap), rest)
    ensures RowOk(row, nested, rest) && Parts(s, RowText(row), rest)
  {
    hide GapOk, GapText, EndsRow;
    row := Row([], gap);
    assert ItemsText([]) + GapText(gap) == GapText(gap);
  }

  lemma {:induction false} RowFound(s: Text, nested: bool) returns (row: Row, rest: Text)
    requires R.ReadSeq(s, nested).Got?
    ensures RowOk(row, nested, rest) && Parts(s, RowText(row), rest)
    decreases |s|, 2
  {
    hide R.ReadSeq, R.ReadElem, R.ReadPostfix, R.SpaceLen, GapOk, GapText, ElOk, ElText, EndsRow, RowOk, RowText;
    var gap, t := GapFound(s, nested);
    GapAgrees(s, gap, nested, t);
    if EndsRow(t) {
      rest := t;
      row := EmptyRow(s, gap, nested, rest);
    } else {
      SeqKinds(s, nested, |GapText(gap)|);
      EndsEmpty(t);
      var e, v := PieceFound(t);
      var tail;
      tail, rest := RowFound(v, nested);
      row := RowCons(s, gap, e, v, tail, nested, rest);
    }
  }

  lemma EndsEmpty(t: Text)
    requires !EndsRow(t)
    ensures t != []
  {
  }

  /** The operators are read where they are spelled. */
  lemma {:induction false} PieceAgrees(t: Text, e: El, v: Text, e0: El, u: Text)
    requires ElOk(e, v) && Parts(t, ElText(e), v) && !StartsOp(v) && t != []
    requires R.ReadElem(t) == Got(ElMeans(e0), |ElText(e0)|) && Parts(t, ElText(e0), u)
    ensures R.ReadPostfix(u, ElMeans(e0)).Got? && R.ReadPostfix(u, ElMeans(e0)).len == |ElText(e)| - |ElText(e0)|
    ensures t[|ElText(e)|..] == v && |ElText(e)| > 0
  {
    hide R.ReadElem, R.ReadPostfix, ElOk, ElText, ElMeans, Core;
    ElReads(e, v);
    ElBegins(e, v);
    PostfixEnds(v, ElMeans(e));
    assert t[|ElText(e0)|..] == u;
  }

  lemma {:induction false} GapIsBlank(gap: Gap, lines: bool, rest: Text, u: Text)
    requires GapOk(gap, lines, rest) && gap != []
    ensures StartsBlank(GapText(gap) + u, true)
  {
    assert (GapText(gap) + u)[0] == BlankText(gap[0])[0];
  }

  lemma {:induction false} LooseIsBlank(row: Row, nested: bool, rest: Text)
    requires RowOk(row, nested, rest)
    ensures Tight(row) || StartsBlank(RowText(row) + rest, true)
  {
    hide ElOk, ElText, EndsRow, GapOk, GapText, StartsBlank, ItemsText;
    if row.items == [] {
      assert ItemsText(row.items) == [] by {
        NoItemsText(row.items);
      }
      assert RowText(row) + rest == GapText(row.end) + rest;
      if row.end != [] {
        GapIsBlank(row.end, nested, rest, rest);
      }
    } else {
      var x, tail := row.items[0], GapText(row.end) + rest;
      var next := ElText(x.el) + (ItemsText(row.items[1..]) + tail);
      ItemLayout(row.items, tail);
      assert RowText(row) + rest == GapText(x.gap) + next;
      if x.gap != [] {
        GapIsBlank(x.gap, nested, next, next);
      }
    }
  }

  lemma {:induction false} NoItemsText(items: seq<Item>)
    requires items == []
    ensures ItemsText(items) == []
  {
  }

  /** Blank space in front of a row was taken before it. */
  lemma {:induction false} RowIsTight(row: Row, nested: bool, rest: Text)
    requires RowOk(row, nested, rest) && !StartsBlank(RowText(row) + rest, true)
    ensures Tight(row)
  {
    LooseIsBlank(row, nested, rest);
  }

  lemma {:induction false} MoreKinds(s: Text, nested: bool)
    requires R.ReadMore(s, nested).Got? && R.SpaceLen(s, nested) == 0 && s != [] && s[0] == 0x7C
    ensures var j := 1 + R.SpaceLen(s[1..], true);
            && j <= |s| && R.ReadSeq(s[j..], nested).Got?
            && var n := R.ReadSeq(s[j..], nested).len; j + n <= |s| && R.ReadMore(s[j + n..], nested).Got?
  {
    hide R.SpaceLen, R.ReadSeq;
  }

  lemma {:induction false} OthersCons(x: Other, tail: seq<Other>, nested: bool, rest: Text)
    requires OthersOk(tail, nested, rest)
    requires var next := OthersText(tail) + rest;
             Tight(x.row) && GapOk(x.gap, true, RowText(x.row) + next) && RowOk(x.row, nested, next)
    ensures OthersOk([x] + tail, nested, rest)
    ensures OthersText([x] + tail) == [0x7C] + (GapText(x.gap) + (RowText(x.row) + OthersText(tail)))
  {
    hide GapOk, RowOk, GapText, RowText, Tight;
    assert ([x] + tail)[1..] == tail;
  }

  /** The bar in front of the next alternative, with the blank space behind it. */
  lemma {:induction false} BarFound(s: Text, nested: bool) returns (gap: Gap, u: Text)
    requires R.ReadMore(s, nested).Got? && !StartsBlank(s, nested) && s != [] && s[0] == 0x7C
    ensures s == [0x7C] + (GapText(gap) + u) && |u| < |s| && GapOk(gap, true, u) && R.ReadSeq(u, nested).Got?
    ensures var n := R.ReadSeq(u, nested).len; n <= |u| && R.ReadMore(u[n..], nested).Got?
  {
    hide R.ReadMore, R.ReadSeq, R.SpaceLen, GapOk, GapText, StartsBlank;
    NoBlank(s, nested);
    MoreKinds(s, nested);
    gap, u := GapFound(s[1..], true);
    GapAgrees(s[1..], gap, true, u);
    var j := 1 + |GapText(gap)|;
    assert s[j..] == u;
    var n := R.ReadSeq(u, nested).len;
    assert s[j + n..] == u[n..];
    assert s == [0x7C] + s[1..];
  }

  /** The next alternative, from its bar on. */
  lemma {:induction false} OtherFound(s: Text, nested: bool) returns (x: Other, v: Text)
    requires R.ReadMore(s, nested).Got? && !StartsBlank(s, nested) && s != [] && s[0] == 0x7C
    ensures s == [0x7C] + (GapText(x.gap) + (RowText(x.row) + v)) && |v| < |s|
    ensures Tight(x.row) && GapOk(x.gap, true, RowText(x.row) + v) && RowOk(x.row, nested, v) && R.ReadMore(v, nested).Got?
    decreases |s|, 0
  {
    hide R.ReadMore, R.ReadSeq, GapOk, GapText, RowOk, RowText, StartsBlank, Tight;
    var gap, u := BarFound(s, nested);
    var row;
    row, v := RowFound(u, nested);
    RowReads(row, nested, v);
    assert u[|RowText(row)|..] == v;
    GapEnds(gap, true, u);
    RowIsTight(row, nested, v);
    x := Other(gap, row);
  }

  lemma {:induction false} NoOthersFound(s: Text, nested: bool)
    requires s == [] || s[0] != 0x7C
    ensures OthersOk([], nested, s) && Parts(s, OthersText([]), s)
  {
    assert OthersText([]) + s == s;
  }

  lemma {:induction false} OthersFound(s: Text, nested: bool) returns (others: seq<Other>, rest: Text)
    requires R.ReadMore(s, nested).Got? && !StartsBlank(s, nested) && EndsRow(s)
    ensures OthersOk(others, nested, rest) && Parts(s, OthersText(others), rest) && EndsRow(rest)
    decreases |s|, 1
  {
    hide R.ReadMore, GapOk, GapText, RowOk, RowText, StartsBlank, OthersOk, OthersText, Tight, EndsRow;
    if s == [] || s[0] != 0x7C {
      others, rest := [], s;
      NoOthersFound(s, nested);
    } else {
      var x, v := OtherFound(s, nested);
      RowStops(x.row, nested, v);
      var tail;
      tail, rest := OthersFound(v, nested);
      others := [x] + tail;
      OthersCons(x, tail, nested, rest);
      OtherLayout(GapText(x.gap), RowText(x.row), OthersText(tail), rest);
    }
  }

  lemma OtherLayout(g: Text, r: Text, t: Text, rest: Text)
    ensures [0x7C] + (g + (r + t)) + rest == [0x7C] + (g + (r + (t + rest)))
  {
  }

  lemma {:induction false} RowStops(row: Row, nested: bool, rest: Text)
    requires RowOk(row, nested, rest)
    ensures EndsRow(rest) && !StartsBlank(rest, nested)
  {
    hide GapOk, ItemsOk, StartsBlank, EndsRow;
    GapEnds(row.end, nested, rest);
  }

  lemma {:induction false} AltsKinds(s: Text, nested: bool)
    requires R.ReadAlts(s, nested).Got?
    ensures R.ReadSeq(s, nested).Got? && R.ReadSeq(s, nested).len <= |s| && R.ReadMore(s[R.ReadSeq(s, nested).len..], nested).Got?
  {
    hide R.ReadSeq, R.ReadMore;
  }

  lemma {:induction false} AltsFound(s: Text, nested: bool) returns (alts: Alts, rest: Text)
    requires R.ReadAlts(s, nested).Got?
    ensures AltsOk(alts, nested, rest) && Parts(s, AltsText(alts), rest) && EndsRow(rest)
    decreases |s|, 3
  {
    hide R.ReadAlts, R.ReadSeq, R.ReadMore, RowOk, RowText, OthersOk, OthersText, StartsBlank, EndsRow;
    AltsKinds(s, nested);
    var row, u := RowFound(s, nested);
    RowReads(row, nested, u);
    assert s[|RowText(row)|..] == u;
    RowStops(row, nested, u);
    var others;
    others, rest := OthersFound(u, nested);
    alts := Alts(row, others);
    assert s == RowText(row) + (OthersText(others) + rest);
  }

  // ----- grammars -----

  lemma {:induction false} RuleKinds(s: Text)
    requires R.ReadRule(s).Got?
    ensures var n := R.WordLen(s);
            var k := n + R.SpaceLen(s[n..], false);
            && 0 < n && k + 2 < |s| && s[k] == 0x3A && s[k + 1] == 0x3A && s[k + 2] == 0x3D
            && R.ReadAlts(s[k + 3 + R.SpaceLen(s[k + 3..], true)..], false).Got?
  {
    hide R.WordLen, R.SpaceLen, R.ReadAlts;
  }

  lemma {:induction false} HeadFound(s: Text) returns (x: Text, before: Gap, after: Gap, v: Text)
    requires R.ReadRule(s).Got?
    ensures NameOk(x) && GapOk(before, false, [0x3A, 0x3A, 0x3D] + (GapText(after) + v)) && GapOk(after, true, v)
    ensures s == x + (GapText(before) + ([0x3A, 0x3A, 0x3D] + (GapText(after) + v))) && R.ReadAlts(v, false).Got?
  {
    hide R.WordLen, R.SpaceLen, R.ReadAlts, R.ReadRule, GapOk, GapText;
    RuleKinds(s);
    NameFound(s);
    var n, u := R.WordLen(s), [];
    x := s[..n];
    before, u := GapFound(s[n..], false);
    GapAgrees(s[n..], before, false, u);
    var k := n + |GapText(before)|;
    assert s[k..] == u;
    after, v := GapFound(s[k + 3..], true);
    GapAgrees(s[k + 3..], after, true, v);
    assert s[k + 3..][|GapText(after)|..] == s[k + 3 + |GapText(after)|..];
    SignLayout(s, k, u);
    assert s == s[..n] + s[n..];
  }

  lemma SignLayout(s: Text, k: nat, u: Text)
    requires k + 2 < |s| && s[k] == 0x3A && s[k + 1] == 0x3A && s[k + 2] == 0x3D && s[k..] == u
    ensures u == [0x3A, 0x3A, 0x3D] + s[k + 3..]
  {
    assert u[0] == s[k] && u[1] == s[k + 1] && u[2] == s[k + 2] && u[3..] == s[k + 3..];
  }

  lemma {:induction false} RuleFound(s: Text) returns (r: Rule, rest: Text)
    requires R.ReadRule(s).Got?
    ensures RuleOk(r, rest) && Parts(s, RuleText(r), rest)
  {
    hide R.ReadAlts, R.ReadRule, GapOk, GapText, AltsOk, AltsText, StartsBlank, Tight, NameOk;
    var x, before, after, v := HeadFound(s);
    var alts;
    alts, rest := AltsFound(v, false);
    r := Rule(x, before, after, alts);
    GapEnds(after, true, v);
    FirstIsTight(alts, rest);
    RuleLayout(x, GapText(before), GapText(after), AltsText(alts), rest);
  }

  lemma {:induction false} FirstIsTight(alts: Alts, rest: Text)
    requires AltsOk(alts, false, rest) && !StartsBlank(AltsText(alts) + rest, true)
    ensures Tight(alts.first)
  {
    hide RowOk, RowText, OthersText, OthersOk, StartsBlank;
    var next := OthersText(alts.others) + rest;
    assert AltsText(alts) + rest == RowText(alts.first) + next;
    RowIsTight(alts.first, false, next);
  }

  lemma {:induction false} RulesKinds(s: Text, g: Source, k: nat)
    requires R.ReadRules(s, g).Got? && k == R.SpaceLen(s, true) && k < |s|
    ensures R.ReadRule(s[k..]).Got?
    ensures var d, n := R.ReadRule(s[k..]).value, R.ReadRule(s[k..]).len;
            d.name !in g && k + n <= |s| && n > 0 && R.ReadRules(s[k + n..], g[d.name := d.alts]).Got?
  {
    hide R.ReadRule, R.SpaceLen;
  }

  lemma {:induction false} RulesCons(gap: Gap, r: Rule, tail: seq<(Gap, Rule)>, rest: Text, g: Source)
    requires RulesOk(tail, rest) && NewNames(tail, g[r.name := AltsMean(r.alts)]) && r.name !in g
    requires var next := RulesText(tail) + rest; GapOk(gap, true, RuleText(r) + next) && RuleOk(r, next)
    ensures RulesOk([(gap, r)] + tail, rest) && NewNames([(gap, r)] + tail, g)
    ensures RulesText([(gap, r)] + tail) == GapText(gap) + (RuleText(r) + RulesText(tail))
  {
    hide GapOk, GapText, RuleOk, RuleText, AltsMean;
    assert ([(gap, r)] + tail)[1..] == tail;
  }

  lemma {:induction false} RulesFound(s: Text, g: Source) returns (rules: seq<(Gap, Rule)>, end: Gap)
    requires R.ReadRules(s, g).Got?
    ensures RulesOk(rules, GapText(end)) && GapOk(end, true, []) && NewNames(rules, g)
    ensures s == RulesText(rules) + GapText(end)
    decreases |s|
  {
    hide R.ReadRules, R.ReadRule, R.SpaceLen, GapOk, GapText, RuleOk, RuleText, AltsMean;
    var gap, u := GapFound(s, true);
    GapAgrees(s, gap, true, u);
    if u == [] {
      rules, end := [], gap;
      assert GapText(gap) + [] == GapText(gap) && RulesText([]) + GapText(gap) == GapText(gap);
    } else {
      RulesKinds(s, g, |GapText(gap)|);
      var r, v := RuleFound(u);
      RuleReads(r, v);
      assert u[|RuleText(r)|..] == v && s[|GapText(gap)| + |RuleText(r)|..] == v;
      var tail;
      tail, end := RulesFound(v, g[r.name := AltsMean(r.alts)]);
      rules := [(gap, r)] + tail;
      RulesCons(gap, r, tail, GapText(end), g);
      assert s == GapText(gap) + (RuleText(r) + (RulesText(tail) + GapText(end)));
    }
  }

  /** A text is read as a grammar exactly if it spells that grammar. */
  lemma {:induction false} ReadIffSpelled(t: Text, g: Source)
    ensures R.ReadRules(t, map[]) == Got(g, |t|) <==> Spells(t, g)
    ensures R.ReadRules(t, map[]).Got? <==> exists h :: Spells(t, h)
  {
    hide R.ReadRules, RulesText, RulesMean, GapText, RulesOk, GapOk, NewNames;
    if R.ReadRules(t, map[]).Got? {
      var rules, end := RulesFound(t, map[]);
      var sheet, h := Sheet(rules, end), RulesMean(rules, map[]);
      assert SpelledBy(t, h, sheet);
      SpelledIsRead(t, h);
    }
    if Spells(t, g) {
      SpelledIsRead(t, g);
    }
    if h :| Spells(t, h) {
      SpelledIsRead(t, h);
    }
  }
}
