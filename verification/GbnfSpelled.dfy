/** Whatever is spelled right is read as what it denotes. */
module GbnfSpelled {
  import opened CharSets
  import opened GbnfSyntax
  import opened Reading
  import opened GbnfSpelling
  import R = GbnfReading

  // ----- characters -----

  /** What `n` further hexadecimal digits leave room for in 32 bits. */
  function Room(n: nat): nat
    requires n <= 8
  {
    if n == 0 then 0x1_0000_0000 else if n == 1 then 0x1000_0000 else if n == 2 then 0x100_0000
    else if n == 3 then 0x10_0000 else if n == 4 then 0x1_0000 else if n == 5 then 0x1000
    else if n == 6 then 0x100 else if n == 7 then 0x10 else 1
  }

  /** The digits behind `acc`. */
  function HexFrom(acc: nat, ds: Text): nat
    requires AllHex(ds)
    decreases |ds|
  {
    if ds == [] then acc else HexFrom(acc * 16 + HexOf(ds[0]), ds[1..])
  }

  lemma {:induction false} HexFromSnoc(acc: nat, ds: Text, d: byte)
    requires AllHex(ds) && IsHex(d)
    ensures HexFrom(acc, ds + [d]) == HexFrom(acc, ds) * 16 + HexOf(d)
    decreases |ds|
  {
    if ds == [] {
      assert ds + [d] == [d] && [d][1..] == [];
    } else {
      assert (ds + [d])[1..] == ds[1..] + [d];
      HexFromSnoc(acc * 16 + HexOf(ds[0]), ds[1..], d);
    }
  }

  lemma {:induction false} HexFromZero(ds: Text)
    requires AllHex(ds)
    ensures HexFrom(0, ds) == HexNumber(ds)
    decreases |ds|
  {
    if ds != [] {
      var n := |ds| - 1;
      HexFromZero(ds[..n]);
      HexFromSnoc(0, ds[..n], ds[n]);
      assert ds[..n] + [ds[n]] == ds;
    }
  }

  lemma OneDigit(acc: nat, d: nat, n: nat)
    requires 0 < n <= 8 && acc < Room(n) && d < 16
    ensures acc * 16 + d < Room(n - 1) <= 0x1_0000_0000
  {
  }

  lemma {:induction false} HexOnce(s: Text, n: nat, acc: uint32, v: uint32)
    requires s != [] && n > 0 && IsHex(s[0]) && v == acc * 16 + HexOf(s[0])
    ensures R.ReadHex(s, n, acc) == match R.ReadHex(s[1..], n - 1, v) case Fail => Fail case Got(w, m) => Got(w, m + 1)
  {
    assert R.HexDigit(s[0]) == HexOf(s[0]) && R.HexDigit(At(s, 0)) >= 0;
    assert v % 0x1_0000_0000 == v;
  }

  lemma {:induction false} HexReads(acc: uint32, ds: Text, rest: Text)
    requires AllHex(ds) && |ds| <= 8 && acc < Room(|ds|)
    ensures HexFrom(acc, ds) < 0x1_0000_0000
    ensures R.ReadHex(ds + rest, |ds|, acc) == Got(HexFrom(acc, ds), |ds|)
    decreases |ds|
  {
    hide R.ReadHex, Room, HexOf;
    if ds == [] {
      NoHex(ds + rest, acc);
    } else {
      var s := ds + rest;
      assert s[0] == ds[0] && s[1..] == ds[1..] + rest;
      OneDigit(acc, HexOf(ds[0]), |ds|);
      HexReads(acc * 16 + HexOf(ds[0]), ds[1..], rest);
      HexOnce(s, |ds|, acc, acc * 16 + HexOf(ds[0]));
    }
  }

  lemma {:induction false} NoHex(s: Text, acc: uint32)
    ensures R.ReadHex(s, 0, acc) == Got(acc, 0)
  {
  }

  lemma {:induction false} TailReads(t: Text, rest: Text, acc: uint32)
    requires AllTail(t) && |t| <= 3 && acc < 0x20
    ensures R.ReadTail(t + rest, |t|, acc) ==
            Got(if |t| == 0 then acc else if |t| == 1 then acc * 0x40 + TailValue(t[0])
                else if |t| == 2 then acc * 0x1000 + TailValue(t[0]) * 0x40 + TailValue(t[1])
                else acc * 0x40000 + TailValue(t[0]) * 0x1000 + TailValue(t[1]) * 0x40 + TailValue(t[2]), |t|)
  {
    if |t| >= 1 {
      TailStep(t, rest, acc);
    }
    if |t| >= 2 {
      TailStep(t[1..], rest, acc * 0x40 + TailValue(t[0]));
    }
    if |t| >= 3 {
      TailStep(t[2..], rest, (acc * 0x40 + TailValue(t[0])) * 0x40 + TailValue(t[1]));
      assert t[1..][1..] == t[2..];
    }
  }

  lemma {:induction false} TailStep(t: Text, rest: Text, acc: uint32)
    requires AllTail(t) && t != [] && acc < 0x20000
    ensures R.ReadTail(t + rest, |t|, acc) ==
            match R.ReadTail(t[1..] + rest, |t| - 1, acc * 0x40 + TailValue(t[0]))
            case Fail => Fail
            case Got(v, n) => Got(v, n + 1)
  {
    var s := t + rest;
    assert s[0] == t[0] && s[1..] == t[1..] + rest;
    LowBits(t[0]);
    assert (acc * 64 + s[0] % 64) % 0x1_0000_0000 == acc * 0x40 + TailValue(t[0]);
  }

  lemma LowBits(b: byte)
    requires 0x80 <= b <= 0xBF
    ensures b % 64 == b - 0x80
  {
  }

  lemma LeadBits(b: byte)
    requires b >= 0xC0
    ensures (if b >= 0xF0 then b % 8 else if b >= 0xE0 then b % 16 else b % 32) == LeadValue(b) < 0x20
  {
  }

  lemma {:induction false} MultiReads(ch: Char, rest: Text)
    requires ch.Multi? && CharOk(ch)
    ensures CharValue(ch) < 0x20_0000
    ensures R.ReadChar(CharText(ch) + rest) == Got(CharValue(ch), |CharText(ch)|)
  {
    hide R.ReadTail, R.ReadHex, LeadValue;
    var s := CharText(ch) + rest;
    assert s[0] == ch.lead && s[1..] == ch.tail + rest;
    LeadBits(ch.lead);
    LeadRoom(ch);
    TailReads(ch.tail, rest, LeadValue(ch.lead));
  }

  lemma LeadRoom(ch: Char)
    requires ch.Multi? && CharOk(ch)
    ensures |ch.tail| == 3 ==> LeadValue(ch.lead) < 8
    ensures |ch.tail| == 2 ==> LeadValue(ch.lead) < 16
  {
  }

  lemma {:induction false} HexCharReads(ch: Char, rest: Text)
    requires ch.Hex? && CharOk(ch)
    ensures CharValue(ch) < 0x1_0000_0000
    ensures R.ReadChar(CharText(ch) + rest) == Got(CharValue(ch), |CharText(ch)|)
  {
    hide R.ReadTail, R.ReadHex, AllHex;
    var s := CharText(ch) + rest;
    assert s[0] == 0x5C && s[1] == ch.e && s[2..] == ch.digits + rest;
    HexReads(0, ch.digits, rest);
    HexFromZero(ch.digits);
  }

  lemma {:induction false} CharReads(ch: Char, rest: Text)
    requires CharOk(ch)
    ensures CharValue(ch) < 0x1_0000_0000
    ensures R.ReadChar(CharText(ch) + rest) == Got(CharValue(ch), |CharText(ch)|)
  {
    hide R.ReadHex, R.ReadTail;
    match ch
    case Raw(b) =>
    case Multi(_, _) => MultiReads(ch, rest);
    case Escape(e) => assert (CharText(ch) + rest)[1] == e;
    case Hex(_, _) => HexCharReads(ch, rest);
  }

  // ----- blank space -----

  lemma {:induction false} CommentReads(t: Text, rest: Text)
    requires 0x0A !in t && EndsLine(rest)
    ensures R.CommentLen(t + rest) == |t|
    decreases |t|
  {
    if t == [] {
      assert t + rest == rest;
    } else {
      assert (t + rest)[1..] == t[1..] + rest;
      CommentReads(t[1..], rest);
    }
  }

  lemma {:induction false} BlankOnce(s: Text, lines: bool, k: nat)
    requires s != [] && k <= |s|
    requires if s[0] == 0x23 then k == R.CommentLen(s)
             else k == 1 && (s[0] == 0x20 || s[0] == 0x09 || s[0] == 0x0D || (s[0] == 0x0A && lines))
    ensures R.SpaceLen(s, lines) == k + R.SpaceLen(s[k..], lines)
  {
    hide R.CommentLen;
  }

  lemma {:induction false} NoBlank(s: Text, lines: bool)
    requires !StartsBlank(s, lines)
    ensures R.SpaceLen(s, lines) == 0
  {
  }

  lemma {:induction false} GapReads(gap: Gap, lines: bool, rest: Text)
    requires GapOk(gap, lines, rest)
    ensures R.SpaceLen(GapText(gap) + rest, lines) == |GapText(gap)|
    decreases |gap|
  {
    hide R.SpaceLen, R.CommentLen, StartsBlank, EndsLine;
    if gap == [] {
      assert GapText(gap) + rest == rest;
      NoBlank(rest, lines);
    } else {
      var t, u := BlankText(gap[0]), GapText(gap[1..]) + rest;
      assert GapText(gap) + rest == t + u && (t + u)[|t|..] == u;
      GapReads(gap[1..], lines, rest);
      if gap[0].Comment? {
        assert 0x0A !in t;
        CommentReads(t, u);
      }
      BlankOnce(t + u, lines, |t|);
    }
  }

  // ----- literals and classes -----

  lemma {:induction false} StringReads(chars: seq<Char>, rest: Text)
    requires CharsOk(chars)
    ensures R.ReadString(CharsText(chars) + ([0x22] + rest)) == Got(Values(chars), |CharsText(chars)| + 1)
    decreases |chars|
  {
    hide R.ReadChar, CharText, CharValue;
    var tail := [0x22] + rest;
    if chars == [] {
      assert CharsText(chars) + tail == tail;
    } else {
      var t, u := CharText(chars[0]), CharsText(chars[1..]) + tail;
      assert CharsText(chars) + tail == t + u && (t + u)[|t|..] == u && (t + u)[0] == t[0];
      CharReads(chars[0], u);
      StringReads(chars[1..], rest);
    }
  }

  lemma {:induction false} RangeOnce(s: Text, v: uint32, n: nat)
    requires R.ReadChar(s) == Got(v, n) && n <= |s|
    ensures R.ReadRange(s) ==
            if MakesRange(s[n..]) then
              match R.ReadChar(s[n + 1..])
              case Fail => Fail
              case Got(hi, m) => if hi < v then Fail else Got(Range(v, hi), n + 1 + m)
            else Got(Range(v, v), n)
  {
    hide R.ReadChar;
  }

  lemma {:induction false} SpanReads(x: Span, rest: Text)
    requires SpanOk(x, rest)
    ensures R.ReadRange(SpanText(x) + rest) == Got(SpanRange(x), |SpanText(x)|)
  {
    hide R.ReadChar, R.ReadRange, CharText, CharValue;
    var s := SpanText(x) + rest;
    match x
    case One(ch) =>
      CharReads(ch, rest);
      assert s[|CharText(ch)|..] == rest;
      RangeOnce(s, CharValue(ch), |CharText(ch)|);
    case FromTo(lo, hi) =>
      var t, u := CharText(lo), [0x2D] + (CharText(hi) + rest);
      assert s == t + u && s[|t|..] == u && s[|t| + 1..] == CharText(hi) + rest;
      assert u[1] == CharText(hi)[0];
      CharReads(lo, u);
      CharReads(hi, rest);
      RangeOnce(s, CharValue(lo), |t|);
  }

  lemma {:induction false} SpansRead(xs: seq<Span>, rest: Text)
    requires SpansOk(xs, rest)
    ensures R.ReadRanges(SpansText(xs) + ([0x5D] + rest)) == Got(SpanRanges(xs), |SpansText(xs)| + 1)
    decreases |xs|
  {
    hide R.ReadRange, SpanText, SpanOk, SpanRange;
    var tail := [0x5D] + rest;
    if xs == [] {
      assert SpansText(xs) + tail == tail;
    } else {
      var t, u := SpanText(xs[0]), SpansText(xs[1..]) + tail;
      assert SpansText(xs) + tail == t + u && (t + u)[|t|..] == u && (t + u)[0] == t[0];
      SpanReads(xs[0], u);
      SpanBegins(xs[0], u);
      SpansRead(xs[1..], rest);
    }
  }

  lemma SpanBegins(x: Span, rest: Text)
    requires SpanOk(x, rest)
    ensures SpanText(x)[0] != 0x5D
  {
  }

  lemma {:induction false} ClassReads(negated: bool, xs: seq<Span>, rest: Text)
    requires SpansOk(xs, rest) && (negated || (SpansText(xs) + [0x5D])[0] != 0x5E)
    ensures var t := (if negated then [0x5E] else []) + SpansText(xs) + [0x5D];
            R.ReadClass(t + rest) == Got(CharSet(SpanRanges(xs), negated), |t|)
  {
    hide R.ReadRanges, SpansText, SpansOk;
    var u := SpansText(xs) + ([0x5D] + rest);
    var s := (if negated then [0x5E] else []) + SpansText(xs) + [0x5D] + rest;
    SpansRead(xs, rest);
    if negated {
      assert s[1..] == u;
    } else {
      assert s == u && s[0..] == s && s[0] == (SpansText(xs) + [0x5D])[0];
    }
  }

  // ----- operators -----

  lemma {:induction false} DigitsRead(ds: Text, rest: Text)
    requires AllDigits(ds) && (rest == [] || !IsDigitByte(rest[0]))
    ensures DigitsLen(ds + rest) == |ds|
    decreases |ds|
  {
    if ds == [] {
      assert ds + rest == rest;
    } else {
      assert (ds + rest)[1..] == ds[1..] + rest;
      DigitsRead(ds[1..], rest);
    }
  }

  lemma {:induction false} NumberIs(ds: Text)
    requires AllDigits(ds)
    ensures (forall i :: 0 <= i < |ds| ==> IsDigit(ds[i])) && Number(ds) == Decimal(ds)
    decreases |ds|
  {
    if ds != [] {
      NumberIs(ds[..|ds| - 1]);
    }
  }

  lemma {:induction false} CountsPlain(s: Text, a: nat, lo: nat)
    requires a + 1 < |s| && a == DigitsLen(s[1..]) && s[a + 1] == 0x7D && lo == Number(s[1..][..a])
    ensures R.ReadCounts(s) == Got(R.Counts(a, 0, lo, lo), a + 2)
  {
    hide DigitsLen, Number;
  }

  lemma {:induction false} CountsComma(s: Text, a: nat, b: nat, lo: nat, hi: int)
    requires a + b + 2 < |s| && a == DigitsLen(s[1..]) && s[a + 1] == 0x2C && lo == Number(s[1..][..a])
    requires b == DigitsLen(s[a + 2..]) && s[a + b + 2] == 0x7D && hi == if b == 0 then -1 else Number(s[a + 2..][..b])
    ensures R.ReadCounts(s) == Got(R.Counts(a, b, lo, hi), a + b + 3)
  {
    hide DigitsLen, Number;
  }

  lemma LayoutPlain(a: Text, rest: Text, s: Text)
    requires s == [0x7B] + a + [] + [0x7D] + rest
    ensures |s| == |a| + 2 + |rest| && s[1..] == a + ([0x7D] + rest) && s[1..][..|a|] == a && s[|a| + 1] == 0x7D
  {
    assert s == [0x7B] + (a + ([0x7D] + rest));
  }

  lemma LayoutComma(a: Text, b: Text, rest: Text, s: Text)
    requires s == [0x7B] + a + ([0x2C] + b) + [0x7D] + rest
    ensures |s| == |a| + |b| + 3 + |rest|
    ensures s[1..] == a + ([0x2C] + (b + ([0x7D] + rest))) && s[1..][..|a|] == a && s[|a| + 1] == 0x2C
    ensures s[|a| + 2..] == b + ([0x7D] + rest) && s[|a| + 2..][..|b|] == b && s[|a| + |b| + 2] == 0x7D
  {
    var v := b + ([0x7D] + rest);
    assert s == [0x7B] + (a + ([0x2C] + v));
    assert s[|a| + 2..] == v;
    assert s[|a| + |b| + 2] == v[|b|];
  }

  lemma {:induction false} PlainRead(a: Text, rest: Text, s: Text)
    requires AllDigits(a) && s == [0x7B] + a + [] + [0x7D] + rest
    ensures R.ReadCounts(s) == Got(R.Counts(|a|, 0, Decimal(a), Decimal(a)), |a| + 2)
  {
    hide DigitsLen, Number, Decimal, R.ReadCounts, AllDigits;
    NumberIs(a);
    LayoutPlain(a, rest, s);
    DigitsRead(a, [0x7D] + rest);
    CountsPlain(s, |a|, Decimal(a));
  }

  lemma {:induction false} CommaRead(a: Text, b: Text, rest: Text, s: Text)
    requires AllDigits(a) && AllDigits(b) && s == [0x7B] + a + ([0x2C] + b) + [0x7D] + rest
    ensures R.ReadCounts(s) == Got(R.Counts(|a|, |b|, Decimal(a), if b == [] then -1 else Decimal(b)), |a| + |b| + 3)
  {
    hide DigitsLen, Number, Decimal, R.ReadCounts, AllDigits;
    NumberIs(a);
    NumberIs(b);
    LayoutComma(a, b, rest, s);
    DigitsRead(a, [0x2C] + (b + ([0x7D] + rest)));
    DigitsRead(b, [0x7D] + rest);
    CountsComma(s, |a|, |b|, Decimal(a), if b == [] then -1 else Decimal(b));
  }

  lemma {:induction false} CountsRead(op: Op, rest: Text)
    requires op.Counted? && AllDigits(op.a) && AllDigits(op.b) && (op.comma || op.b == [])
    ensures R.ReadCounts(OpText(op) + rest) == Got(R.Counts(|op.a|, |op.b|, Least(op), Most(op)), |OpText(op)|)
  {
    hide Decimal, R.ReadCounts, AllDigits;
    if op.comma {
      CommaRead(op.a, op.b, rest, OpText(op) + rest);
    } else {
      PlainRead(op.a, rest, OpText(op) + rest);
    }
  }

  lemma {:induction false} OpReads(op: Op, rest: Text)
    requires OpOk(op)
    ensures R.IsPostfix((OpText(op) + rest)[0])
    ensures R.ReadOne(OpText(op) + rest) == Got(R.Bounds(Least(op), Most(op)), |OpText(op)|)
  {
    hide R.ReadCounts, Decimal;
    if op.Counted? {
      CountsRead(op, rest);
    }
  }

  // ----- elements -----

  function Core(e: El): El
  {
    if e.Post? then Core(e.el) else e
  }

  /** The core of an element is read first, and what is left are its operators. */
  ghost predicate ReadsAs(e: El, rest: Text)
  {
    var t := ElText(e);
    t + rest != [] &&
    var r := R.ReadElem(t + rest);
    && r.Got? && r.value == ElMeans(Core(e)) && r.len <= |t|
    && R.ReadPostfix((t + rest)[r.len..], ElMeans(Core(e))) == Later(|t| - r.len, R.ReadPostfix(rest, ElMeans(e)))
  }

  lemma {:induction false} WholeReads(e: El, rest: Text)
    requires !e.Post? && ElText(e) != [] && R.ReadElem(ElText(e) + rest) == Got(ElMeans(e), |ElText(e)|)
    ensures ReadsAs(e, rest)
  {
    hide R.ReadElem, R.ReadPostfix, ElText, ElMeans;
    assert (ElText(e) + rest)[|ElText(e)|..] == rest;
    LaterNone(R.ReadPostfix(rest, ElMeans(e)));
  }

  lemma {:induction false} StrReads(e: El, rest: Text)
    requires e.Str? && ElOk(e, rest)
    ensures R.ReadElem(ElText(e) + rest) == Got(ElMeans(e), |ElText(e)|)
  {
    hide R.ReadString, CharsText, Values, CharsOk;
    var s := ElText(e) + rest;
    assert s[1..] == CharsText(e.chars) + ([0x22] + rest);
    StringReads(e.chars, rest);
  }

  lemma {:induction false} SetReads(e: El, rest: Text)
    requires e.Class? && ElOk(e, rest)
    ensures R.ReadElem(ElText(e) + rest) == Got(ElMeans(e), |ElText(e)|)
  {
    hide R.ReadClass, SpansText, SpansOk, SpanRanges;
    var s, t := ElText(e) + rest, (if e.negated then [0x5E] else []) + SpansText(e.spans) + [0x5D];
    assert ElText(e) == [0x5B] + t && s[1..] == t + rest;
    ClassReads(e.negated, e.spans, rest);
  }

  lemma {:induction false} NameReads(x: Text, rest: Text)
    requires (forall i :: 0 <= i < |x| ==> IsWord(x[i])) && (rest == [] || !IsWord(rest[0]))
    ensures R.WordLen(x + rest) == |x|
    decreases |x|
  {
    if x == [] {
      assert x + rest == rest;
    } else {
      assert (x + rest)[1..] == x[1..] + rest;
      NameReads(x[1..], rest);
    }
  }

  lemma {:induction false} WordReads(e: El, rest: Text)
    requires e.Word? && ElOk(e, rest)
    ensures R.ReadElem(ElText(e) + rest) == Got(ElMeans(e), |ElText(e)|)
  {
    hide R.WordLen;
    NameReads(e.name, rest);
    assert (e.name + rest)[..|e.name|] == e.name;
  }

  lemma {:induction false} DotReads(rest: Text)
    ensures R.ReadElem([0x2E] + rest) == Got(Set(CharSet([], true)), 1)
  {
  }

  lemma {:induction false} OpNext(op: Op, rest: Text, m: Elem)
    requires OpOk(op) && !LeavesNothing(m)
    ensures R.ReadPostfix(OpText(op) + rest, m) == Later(|OpText(op)|, R.ReadPostfix(rest, Rep(m, Least(op), Most(op))))
  {
    hide R.ReadOne, OpText, OpOk, Least, Most;
    OpReads(op, rest);
    assert (OpText(op) + rest)[|OpText(op)|..] == rest;
  }

  lemma {:induction false} PostReads(e: El, rest: Text)
    requires e.Post? && OpOk(e.op) && !LeavesNothing(ElMeans(e.el)) && ReadsAs(e.el, OpText(e.op) + rest)
    ensures ReadsAs(e, rest)
  {
    hide R.ReadElem, R.ReadPostfix, OpText, OpOk, Least, Most;
    var u := OpText(e.op);
    OpNext(e.op, rest, ElMeans(e.el));
    assert ElText(e.el) + (u + rest) == ElText(e) + rest;
  }

  lemma {:induction false} ElReads(e: El, rest: Text)
    requires ElOk(e, rest)
    ensures ReadsAs(e, rest)
    decreases e, 6
  {
    hide R.ReadElem, R.ReadPostfix;
    match e
    case Str(_) =>
      StrReads(e, rest);
      WholeReads(e, rest);
    case Class(_, _) =>
      SetReads(e, rest);
      WholeReads(e, rest);
    case Dot =>
      DotReads(rest);
      WholeReads(e, rest);
    case Word(_) =>
      WordReads(e, rest);
      WholeReads(e, rest);
    case Paren(alts) =>
      ParenWhole(e, alts, rest);
      WholeReads(e, rest);
    case Post(b, op) =>
      ElReads(b, OpText(op) + rest);
      PostReads(e, rest);
  }

  lemma {:induction false} GroupOnce(s: Text, alts: seq<Branch>, n: nat)
    requires s != [] && s[0] == 0x28 && R.ReadAlts(s[1..], true) == Got(alts, n) && 1 + n < |s| && s[1 + n] == 0x29
    requires R.SpaceLen(s[1 + n..], true) == 0
    ensures R.ReadElem(s) == Got(Group(alts), n + 2)
  {
    hide R.ReadAlts, R.SpaceLen, R.ReadString, R.ReadClass, R.WordLen;
  }

  lemma {:induction false} ParenWhole(e: El, alts: Alts, rest: Text)
    requires e == Paren(alts) && AltsOk(alts, true, [0x29] + rest)
    ensures R.ReadElem(ElText(e) + rest) == Got(ElMeans(e), |ElText(e)|)
    decreases alts, 5
  {
    hide R.ReadElem, R.ReadAlts, AltsText, AltsMean, AltsOk, R.SpaceLen;
    var t, tail := AltsText(alts), [0x29] + rest;
    var s := ElText(e) + rest;
    assert s == [0x28] + (t + tail) && s[1..] == t + tail && s[1 + |t|..] == tail;
    AltsRead(alts, true, tail);
    NoBlank(tail, true);
    GroupOnce(s, AltsMean(alts), |t|);
  }

  // ----- rows and alternatives -----

  lemma {:induction false} ElBegins(e: El, rest: Text)
    requires ElOk(e, rest)
    ensures ElText(e) != [] && !EndsRow(ElText(e)) && !StartsBlank(ElText(e), true)
    decreases e
  {
    hide AltsOk, AltsText, SpansOk, SpansText, CharsText, CharsOk, OpOk, OpText, LeavesNothing;
    if e.Post? {
      ElBegins(e.el, OpText(e.op) + rest);
    }
  }

  lemma {:induction false} RowEnds(end: Gap, nested: bool, rest: Text)
    requires GapOk(end, nested, rest) && EndsRow(rest)
    ensures R.ReadSeq(GapText(end) + rest, nested) == Got([], |GapText(end)|)
  {
    hide R.ReadElem, R.ReadPostfix, R.SpaceLen, GapText, GapOk;
    GapReads(end, nested, rest);
    assert (GapText(end) + rest)[|GapText(end)|..] == rest;
  }

  lemma {:induction false} PostfixEnds(u: Text, m: Elem)
    requires !StartsOp(u)
    ensures R.ReadPostfix(u, m) == Got(m, 0)
  {
  }

  lemma {:induction false} ItemsRead(items: seq<Item>, nested: bool, end: Gap, rest: Text)
    requires ItemsOk(items, nested, GapText(end) + rest) && GapOk(end, nested, rest) && EndsRow(rest)
    ensures R.ReadSeq(ItemsText(items) + (GapText(end) + rest), nested) ==
            Got(ItemsMean(items), |ItemsText(items)| + |GapText(end)|)
    decreases items, 2
  {
    hide R.ReadSeq, R.ReadElem, R.ReadPostfix, GapText, GapOk, ElText, ElOk, EndsRow;
    var tail := GapText(end) + rest;
    if items == [] {
      RowEnds(end, nested, rest);
      assert ItemsText(items) + tail == tail;
    } else {
      var e, next := items[0].el, ItemsText(items[1..]) + tail;
      ElReads(e, next);
      ItemsRead(items[1..], nested, end, rest);
      ItemNext(items, nested, tail);
    }
  }

  lemma {:induction false} ItemLayout(items: seq<Item>, tail: Text)
    requires items != []
    ensures ItemsText(items) + tail == GapText(items[0].gap) + (ElText(items[0].el) + (ItemsText(items[1..]) + tail))
    ensures |ItemsText(items)| == |GapText(items[0].gap)| + |ElText(items[0].el)| + |ItemsText(items[1..])|
  {
    hide GapText, ElText;
  }

  lemma {:induction false} ItemNext(items: seq<Item>, nested: bool, tail: Text)
    requires items != [] && ItemsOk(items, nested, tail) && ReadsAs(items[0].el, ItemsText(items[1..]) + tail)
    ensures R.ReadSeq(ItemsText(items) + tail, nested) ==
            match R.ReadSeq(ItemsText(items[1..]) + tail, nested)
            case Fail => Fail
            case Got(es, l) =>
              Got([ElMeans(items[0].el)] + es, |ItemsText(items)| - |ItemsText(items[1..])| + l)
  {
    hide R.ReadSeq, R.ReadElem, R.ReadPostfix, GapText, GapOk, ElText, ElOk, ElMeans, R.SpaceLen, ItemsText;
    var g, t, next := GapText(items[0].gap), ElText(items[0].el), ItemsText(items[1..]) + tail;
    var u := t + next;
    var s := g + u;
    ItemLayout(items, tail);
    assert s[|g|..] == u && u[|t|..] == next;
    GapReads(items[0].gap, nested, u);
    ElBegins(items[0].el, next);
    assert u[0] == t[0];
    var n := R.ReadElem(u).len;
    PostfixEnds(next, ElMeans(items[0].el));
    R.SeqUnfold(s, |g|, n, |t| - n, nested, ElMeans(Core(items[0].el)), ElMeans(items[0].el));
  }

  lemma {:induction false} RowReads(row: Row, nested: bool, rest: Text)
    requires RowOk(row, nested, rest)
    ensures R.ReadSeq(RowText(row) + rest, nested) == Got(ItemsMean(row.items), |RowText(row)|)
    decreases row, 3
  {
    hide R.ReadSeq, ItemsText, GapText, ItemsOk, GapOk, EndsRow, ItemsMean;
    ItemsRead(row.items, nested, row.end, rest);
    assert RowText(row) + rest == ItemsText(row.items) + (GapText(row.end) + rest);
  }

  lemma {:induction false} NoOthers(nested: bool, rest: Text)
    requires !StartsBlank(rest, nested) && (rest == [] || rest[0] != 0x7C)
    ensures R.ReadMore(rest, nested) == Got([], 0)
  {
    hide R.ReadSeq;
  }

  lemma {:induction false} OthersRead(others: seq<Other>, nested: bool, rest: Text)
    requires OthersOk(others, nested, rest) && !StartsBlank(rest, nested)
    ensures R.ReadMore(OthersText(others) + rest, nested) == Got(OthersMean(others), |OthersText(others)|)
    decreases others, 4
  {
    hide R.ReadMore, R.ReadSeq, GapText, GapOk, RowText, RowOk, ItemsMean, StartsBlank;
    if others == [] {
      NoOthers(nested, rest);
      assert OthersText(others) + rest == rest;
    } else {
      RowReads(others[0].row, nested, OthersText(others[1..]) + rest);
      OthersRead(others[1..], nested, rest);
      OtherNext(others, nested, rest);
    }
  }

  lemma {:induction false} OtherNext(others: seq<Other>, nested: bool, rest: Text)
    requires others != [] && OthersOk(others, nested, rest)
    requires R.ReadSeq(RowText(others[0].row) + (OthersText(others[1..]) + rest), nested) ==
             Got(ItemsMean(others[0].row.items), |RowText(others[0].row)|)
    ensures R.ReadMore(OthersText(others) + rest, nested) ==
            match R.ReadMore(OthersText(others[1..]) + rest, nested)
            case Fail => Fail
            case Got(v, m) =>
              Got([Branch(ItemsMean(others[0].row.items))] + v, |OthersText(others)| - |OthersText(others[1..])| + m)
  {
    hide R.ReadMore, R.ReadSeq, GapText, GapOk, RowText, RowOk, ItemsMean, R.SpaceLen, Tight, OthersText, OthersOk;
    var g, t, next := GapText(others[0].gap), RowText(others[0].row), OthersText(others[1..]) + rest;
    OthersOnce(others, nested, rest);
    BarLayout(g, t, OthersText(others[1..]), rest);
    GapReads(others[0].gap, true, t + next);
    var s := OthersText(others) + rest;
    BarIsNoBlank(s, nested);
    R.MoreUnfold(s, 0, 1 + |g|, |t|, nested, ItemsMean(others[0].row.items));
  }

  lemma {:induction false} OthersOnce(others: seq<Other>, nested: bool, rest: Text)
    requires others != [] && OthersOk(others, nested, rest)
    ensures GapOk(others[0].gap, true, RowText(others[0].row) + (OthersText(others[1..]) + rest))
    ensures OthersText(others) == [0x7C] + (GapText(others[0].gap) + (RowText(others[0].row) + OthersText(others[1..])))
  {
    hide GapText, GapOk, RowText, RowOk, Tight;
  }

  lemma BarLayout(g: Text, t: Text, v: Text, rest: Text)
    ensures var s := [0x7C] + (g + (t + v)) + rest;
            && s[0] == 0x7C && s[1..] == g + (t + (v + rest))
            && s[1 + |g|..] == t + (v + rest) && s[1 + |g| + |t|..] == v + rest
  {
    var s := [0x7C] + (g + (t + v)) + rest;
    assert s == [0x7C] + (g + (t + (v + rest)));
    assert s[1..][|g|..] == s[1 + |g|..];
    assert s[1..][|g|..][|t|..] == s[1 + |g| + |t|..];
  }

  lemma {:induction false} BarIsNoBlank(s: Text, nested: bool)
    requires s != [] && s[0] == 0x7C
    ensures R.SpaceLen(s, nested) == 0 && At(s, 0) == 0x7C
  {
  }

  lemma {:induction false} AltsRead(alts: Alts, nested: bool, rest: Text)
    requires AltsOk(alts, nested, rest) && !StartsBlank(rest, nested)
    ensures R.ReadAlts(AltsText(alts) + rest, nested) == Got(AltsMean(alts), |AltsText(alts)|)
    decreases alts, 4
  {
    hide R.ReadSeq, R.ReadMore, RowText, RowOk, OthersText, OthersOk, ItemsMean, OthersMean, StartsBlank;
    var t, next := RowText(alts.first), OthersText(alts.others) + rest;
    assert AltsText(alts) + rest == t + next && (t + next)[|t|..] == next;
    RowReads(alts.first, nested, next);
    OthersRead(alts.others, nested, rest);
  }

  // ----- grammars -----

  lemma {:induction false} GapEnds(gap: Gap, lines: bool, rest: Text)
    requires GapOk(gap, lines, rest)
    ensures !StartsBlank(rest, lines)
    decreases |gap|
  {
    if gap != [] {
      GapEnds(gap[1..], lines, rest);
    }
  }

  lemma {:induction false} OthersEnd(others: seq<Other>, nested: bool, rest: Text)
    requires OthersOk(others, nested, rest) && others != []
    ensures !StartsBlank(rest, nested)
    decreases |others|
  {
    hide GapOk, ItemsOk;
    if |others| == 1 {
      assert OthersText(others[1..]) + rest == rest;
      GapEnds(others[0].row.end, nested, rest);
    } else {
      OthersEnd(others[1..], nested, rest);
    }
  }

  lemma {:induction false} AltsEnd(alts: Alts, nested: bool, rest: Text)
    requires AltsOk(alts, nested, rest)
    ensures !StartsBlank(rest, nested)
  {
    hide GapOk, ItemsOk, StartsBlank;
    if alts.others == [] {
      assert OthersText(alts.others) + rest == rest;
      GapEnds(alts.first.end, nested, rest);
    } else {
      OthersEnd(alts.others, nested, rest);
    }
  }

  lemma {:induction false} HeadOnce(s: Text, n: nat, k: nat, j: nat)
    requires n == R.WordLen(s) && n > 0 && k == n + R.SpaceLen(s[n..], false)
    requires k + 2 < |s| && s[k] == 0x3A && s[k + 1] == 0x3A && s[k + 2] == 0x3D && j == k + 3 + R.SpaceLen(s[k + 3..], true)
    ensures R.ReadHead(s) == Got(s[..n], j) && j <= |s|
  {
    hide R.WordLen, R.SpaceLen;
  }

  lemma HeadLayout(x: Text, b: Text, a: Text, t: Text, s: Text)
    requires s == x + (b + ([0x3A, 0x3A, 0x3D] + (a + t)))
    ensures s[..|x|] == x && s[|x|..] == b + ([0x3A, 0x3A, 0x3D] + (a + t))
    ensures |s| == |x| + |b| + 3 + |a| + |t| && s[|x| + |b| + 3..] == a + t && s[|x| + |b| + 3 + |a|..] == t
    ensures s[|x| + |b|] == 0x3A && s[|x| + |b| + 1] == 0x3A && s[|x| + |b| + 2] == 0x3D
  {
    var u := [0x3A, 0x3A, 0x3D] + (a + t);
    var k := |x| + |b|;
    assert s[k..] == u;
    assert s[k] == u[0] && s[k + 1] == u[1] && s[k + 2] == u[2];
    assert s[k + 3..] == u[3..];
  }

  lemma {:induction false} GapIsNoWord(gap: Gap, u: Text)
    requires GapOk(gap, false, u) && u != [] && !IsWord(u[0])
    ensures (GapText(gap) + u) != [] && !IsWord((GapText(gap) + u)[0])
  {
    if gap != [] {
      assert (GapText(gap) + u)[0] == BlankText(gap[0])[0];
    } else {
      assert GapText(gap) + u == u;
    }
  }

  lemma {:induction false} HeadReads(r: Rule, rest: Text)
    requires RuleOk(r, rest)
    ensures var s := RuleText(r) + rest;
            var n := |RuleText(r)| - |AltsText(r.alts)|;
            R.ReadHead(s) == Got(r.name, n) && s[n..] == AltsText(r.alts) + rest
  {
    hide R.ReadHead, R.WordLen, R.SpaceLen, GapText, GapOk, AltsText, AltsOk, Tight;
    var x, b, a, t := r.name, GapText(r.before), GapText(r.after), AltsText(r.alts) + rest;
    var s, u := RuleText(r) + rest, [0x3A, 0x3A, 0x3D] + (a + t);
    assert s == x + (b + u) by {
      RuleLayout(x, b, a, AltsText(r.alts), rest);
    }
    HeadLayout(x, b, a, t, s);
    GapIsNoWord(r.before, u);
    NameReads(x, b + u);
    GapReads(r.before, false, u);
    GapReads(r.after, true, t);
    HeadOnce(s, |x|, |x| + |b|, |x| + |b| + 3 + |a|);
  }

  lemma RuleLayout(x: Text, b: Text, a: Text, t: Text, rest: Text)
    ensures x + (b + ([0x3A, 0x3A, 0x3D] + (a + t))) + rest == x + (b + ([0x3A, 0x3A, 0x3D] + (a + (t + rest))))
  {
  }

  lemma {:induction false} RuleReads(r: Rule, rest: Text)
    requires RuleOk(r, rest)
    ensures R.ReadRule(RuleText(r) + rest) == Got(R.Definition(r.name, AltsMean(r.alts)), |RuleText(r)|)
  {
    hide R.ReadHead, R.ReadAlts, RuleText, GapText, GapOk, AltsText, AltsOk, AltsMean;
    HeadReads(r, rest);
    AltsEnd(r.alts, false, rest);
    AltsRead(r.alts, false, rest);
  }

  lemma {:induction false} RuleBegins(r: Rule, rest: Text)
    requires RuleOk(r, rest)
    ensures RuleText(r) + rest != [] && !StartsBlank(RuleText(r) + rest, true)
  {
    hide AltsText, GapText, AltsOk, GapOk;
    assert (RuleText(r) + rest)[0] == r.name[0];
  }

  lemma {:induction false} RulesOnce(s: Text, g: Source, k: nat, d: R.Definition, n: nat)
    requires k == R.SpaceLen(s, true) && k < |s| && R.ReadRule(s[k..]) == Got(d, n) && d.name !in g
    ensures k + n <= |s|
    ensures R.ReadRules(s, g) == Later(k + n, R.ReadRules(s[k + n..], g[d.name := d.alts]))
  {
    hide R.ReadRule, R.SpaceLen;
  }

  lemma {:induction false} NoRules(s: Text, g: Source)
    requires R.SpaceLen(s, true) == |s|
    ensures R.ReadRules(s, g) == Got(g, |s|)
  {
    hide R.ReadRule, R.SpaceLen;
  }

  lemma {:induction false} RulesRead(rules: seq<(Gap, Rule)>, end: Gap, g: Source)
    requires RulesOk(rules, GapText(end)) && GapOk(end, true, []) && NewNames(rules, g)
    ensures R.ReadRules(RulesText(rules) + GapText(end), g) == Got(RulesMean(rules, g), |RulesText(rules)| + |GapText(end)|)
    decreases |rules|
  {
    hide R.ReadRules, R.ReadRule, GapText, GapOk, RuleText, RuleOk, AltsMean, R.SpaceLen;
    var tail := GapText(end);
    if rules == [] {
      assert RulesText(rules) + tail == tail && tail + [] == tail;
      GapReads(end, true, []);
      NoRules(tail, g);
    } else {
      var b, r, next := GapText(rules[0].0), rules[0].1, RulesText(rules[1..]) + tail;
      var u, g' := RuleText(r) + next, g[r.name := AltsMean(r.alts)];
      var s := b + u;
      assert RulesText(rules) + tail == s && s[|b|..] == u && s[|b| + |RuleText(r)|..] == next;
      GapReads(rules[0].0, true, u);
      RuleReads(r, next);
      RuleBegins(r, next);
      RulesRead(rules[1..], end, g');
      RulesOnce(s, g, |b|, R.Definition(r.name, AltsMean(r.alts)), |RuleText(r)|);
    }
  }

  /** Whatever spells a grammar is read as that grammar. */
  lemma {:induction false} SpelledIsRead(t: Text, g: Source)
    requires Spells(t, g)
    ensures R.ReadRules(t, map[]) == Got(g, |t|)
  {
    hide R.ReadRules, RulesText, RulesMean, GapText, RulesOk, GapOk, NewNames;
    var sheet :| SpelledBy(t, g, sheet);
    RulesRead(sheet.rules, sheet.end, map[]);
  }
}
