/** A pattern that is spelled right is read as what it denotes. */
module RegexSpelled {
  import opened CharSets
  import opened Reading
  import opened RegexSyntax
  import opened RegexSpelling
  import R = RegexReading
  import T = RegexSteps
  import G = GbnfSpelling
  import S = GbnfSpelled
  import U = GbnfUnspelled

  // ----- classes -----

  function WithMember(acc: Table, x: Member): Table
  {
    seq(256, b requires 0 <= b < 256 => acc[b] || MemberHas(x, b))
  }

  function WithMembers(acc: Table, xs: seq<Member>): Table
  {
    seq(256, b requires 0 <= b < 256 => acc[b] || AnyHas(xs, b))
  }

  /** What the reader makes of an escape is what the escape stands for. */
  lemma EscapeIs(e: byte, inClass: bool, b: byte)
    ensures R.IsShorthand(e) ==> (R.InShorthand(e, b) <==> EscapeHas(e, inClass, b))
    ensures !R.IsShorthand(e) ==> (b == R.EscapedByte(e, inClass) <==> EscapeHas(e, inClass, b))
  {
  }

  lemma {:induction false} QuotedTable(acc: Table, e: byte)
    ensures WithMember(acc, Quoted(e)) ==
            if R.IsShorthand(e) then R.Merge(acc, R.ShorthandTable(e)) else R.WithByte(acc, R.EscapedByte(e, true))
  {
    hide EscapeHas, R.InShorthand, R.EscapedByte, R.IsShorthand;
    forall b | 0 <= b < 256
      ensures MemberHas(Quoted(e), b) == if R.IsShorthand(e) then R.InShorthand(e, b) else b == R.EscapedByte(e, true)
    {
      EscapeIs(e, true, b);
    }
  }

  lemma {:induction false} ByteTable(acc: Table, b: byte)
    ensures WithMember(acc, Byte(b)) == R.WithByte(acc, b)
  {
  }

  lemma {:induction false} SpanTable(acc: Table, lo: byte, hi: byte)
    ensures WithMember(acc, Span(lo, hi)) == R.WithRange(acc, lo, hi)
  {
  }

  lemma {:induction false} MemberReads(x: Member, rest: Text, acc: Table)
    requires MemberOk(x, rest)
    ensures R.ReadMember(MemberText(x) + rest, acc) == Got(WithMember(acc, x), |MemberText(x)|)
  {
    hide WithMember, R.WithByte, R.WithRange, R.Merge, R.ShorthandTable, R.EscapedByte, R.IsShorthand;
    var s := MemberText(x) + rest;
    match x
    case Byte(b) =>
      ByteTable(acc, b);
      assert s[0] == b && s[1..] == rest;
    case Span(lo, hi) => SpanTable(acc, lo, hi);
    case Quoted(e) => QuotedTable(acc, e);
  }

  lemma {:induction false} WithMore(acc: Table, xs: seq<Member>)
    requires xs != []
    ensures WithMembers(WithMember(acc, xs[0]), xs[1..]) == WithMembers(acc, xs)
  {
    hide MemberHas;
    forall b | 0 <= b < 256
      ensures MemberHas(xs[0], b) || AnyHas(xs[1..], b) <==> AnyHas(xs, b)
    {
      if i :| 0 <= i < |xs| && MemberHas(xs[i], b) {
        if i > 0 {
          assert xs[1..][i - 1] == xs[i];
        }
      }
      if i :| 0 <= i < |xs[1..]| && MemberHas(xs[1..][i], b) {
        assert xs[i + 1] == xs[1..][i];
      }
    }
  }

  lemma {:induction false} NoMembers(rest: Text, acc: Table)
    ensures R.ReadMembers(MembersText([]) + ([0x5D] + rest), acc, true) == Got(WithMembers(acc, []), 1)
  {
    assert MembersText([]) + ([0x5D] + rest) == [0x5D] + rest;
    assert WithMembers(acc, []) == acc;
  }

  lemma {:induction false} MembersRead(xs: seq<Member>, acc: Table, any: bool, rest: Text)
    requires MembersOk(xs, rest) && (any || xs != [])
    ensures R.ReadMembers(MembersText(xs) + ([0x5D] + rest), acc, any) == Got(WithMembers(acc, xs), |MembersText(xs)| + 1)
    decreases |xs|
  {
    hide R.ReadMember, R.ReadMembers, MemberText, WithMember, WithMembers;
    if xs == [] {
      NoMembers(rest, acc);
    } else {
      var s, next := MembersText(xs) + ([0x5D] + rest), MembersText(xs[1..]) + ([0x5D] + rest);
      assert s == MemberText(xs[0]) + next;
      MemberReads(xs[0], next, acc);
      MemberBegins(xs[0], next);
      T.MembersOnce(s, acc, any);
      assert s[|MemberText(xs[0])|..] == next;
      MembersRead(xs[1..], WithMember(acc, xs[0]), true, rest);
      WithMore(acc, xs);
    }
  }

  lemma MemberBegins(x: Member, rest: Text)
    requires MemberOk(x, rest)
    ensures MemberText(x)[0] != 0x5D
  {
  }

  /** Bytes in front of the members: the bracket, and the caret if there is one. */
  function OpenLen(negated: bool): nat
  {
    if negated then 2 else 1
  }

  lemma {:induction false} ClassOnce(s: Text, negated: bool, t: Table, n: nat)
    requires s != [] && negated == (At(s, 1) == 0x5E)
    requires R.ReadMembers(s[OpenLen(negated)..], R.NoBytes(), false) == Got(t, n)
    ensures R.ReadClass(s) == if negated then Got(R.Complement(t), 2 + n) else Got(t, 1 + n)
  {
    hide R.ReadMembers, R.NoBytes, R.Complement;
  }

  lemma {:induction false} ClassTable(negated: bool, xs: seq<Member>)
    ensures BytesOf(Class(negated, xs)) ==
            var t := WithMembers(R.NoBytes(), xs);
            if negated then R.Complement(t) else t
  {
    hide AnyHas;
  }

  lemma {:induction false} ClassReads(negated: bool, xs: seq<Member>, rest: Text)
    requires AtomOk(Class(negated, xs), rest)
    ensures var x := Class(negated, xs); R.ReadClass(AtomText(x) + rest) == Got(BytesOf(x), |AtomText(x)|)
  {
    hide R.ReadClass, R.ReadMembers, R.NoBytes, R.Complement, BytesOf, WithMembers, MemberText, MembersOk;
    var x, m := Class(negated, xs), MembersText(xs);
    var s, u := AtomText(x) + rest, m + ([0x5D] + rest);
    ClassTable(negated, xs);
    MembersRead(xs, R.NoBytes(), false, rest);
    if negated {
      assert s == [0x5B] + ([0x5E] + u) && s[2..] == u;
    } else {
      assert s == [0x5B] + u && s[1..] == u && s[1] == m[0];
    }
    ClassOnce(s, negated, WithMembers(R.NoBytes(), xs), |m| + 1);
  }

  // ----- quantifiers -----

  lemma {:induction false} BracesPlain(s: Text, a: nat, n: nat)
    requires 0 < a && a + 1 < |s| && a == DigitsLen(s[1..]) && s[a + 1] == 0x7D && n == Number(s[1..][..a])
    ensures R.ReadBraces(s) == R.Quant(n, n, a + 2)
  {
    hide DigitsLen, Number;
  }

  lemma {:induction false} BracesComma(s: Text, a: nat, b: nat, n: nat, m: int)
    requires 0 < a && a + b + 2 < |s| && a == DigitsLen(s[1..]) && s[a + 1] == 0x2C && n == Number(s[1..][..a])
    requires b == DigitsLen(s[a + 2..]) && s[a + b + 2] == 0x7D && m == if b == 0 then -1 else Number(s[a + 2..][..b])
    ensures R.ReadBraces(s) == R.Quant(n, if m < 0 then -1 else if m < n then n else m, a + b + 3)
  {
    hide DigitsLen, Number;
  }

  lemma {:induction false} PlainRead(a: Text, rest: Text, s: Text)
    requires G.AllDigits(a) && a != [] && s == [0x7B] + a + [] + [0x7D] + rest
    ensures R.ReadBraces(s) == R.Quant(G.Decimal(a), G.Decimal(a), |a| + 2)
  {
    hide DigitsLen, Number, G.Decimal, R.ReadBraces, G.AllDigits;
    S.NumberIs(a);
    S.LayoutPlain(a, rest, s);
    S.DigitsRead(a, [0x7D] + rest);
    BracesPlain(s, |a|, G.Decimal(a));
  }

  lemma {:induction false} CommaRead(a: Text, b: Text, rest: Text, s: Text)
    requires G.AllDigits(a) && a != [] && G.AllDigits(b) && s == [0x7B] + a + ([0x2C] + b) + [0x7D] + rest
    ensures R.ReadBraces(s) == R.Quant(G.Decimal(a), Most(Counted(a, true, b)), |a| + |b| + 3)
  {
    hide DigitsLen, Number, G.Decimal, R.ReadBraces, G.AllDigits;
    S.NumberIs(a);
    S.NumberIs(b);
    S.LayoutComma(a, b, rest, s);
    S.DigitsRead(a, [0x2C] + (b + ([0x7D] + rest)));
    S.DigitsRead(b, [0x7D] + rest);
    BracesComma(s, |a|, |b|, G.Decimal(a), if b == [] then -1 else G.Decimal(b));
  }

  lemma {:induction false} TimesRead(q: Times, rest: Text)
    requires TimesOk(q) && !q.Once?
    ensures R.ReadQuant(TimesText(q) + rest) == R.Quant(Least(q), Most(q), |TimesText(q)|)
  {
    hide G.Decimal, R.ReadBraces, G.AllDigits;
    if q.Counted? {
      var s := TimesText(q) + rest;
      assert s[0] == 0x7B;
      if q.comma {
        CommaRead(q.a, q.b, rest, s);
      } else {
        PlainRead(q.a, rest, s);
      }
    }
  }

  lemma {:induction false} CountedFound(s: Text) returns (q: Times)
    requires s != [] && s[0] == 0x7B && R.ReadBraces(s).Quant?
    ensures StartsWith(s, q)
  {
    hide DigitsLen, Number;
    var n := DigitsLen(s[1..]);
    var a := s[1..][..n];
    if At(s, n + 1) == 0x2C {
      var m := DigitsLen(s[n + 2..]);
      q := Counted(a, true, s[n + 2..][..m]);
      U.CommaLayout(s, n, m);
      PrefixOf(TimesText(q), s[n + m + 3..], s);
    } else {
      q := Counted(a, false, []);
      assert s == [0x7B] + a + [] + [0x7D] + s[n + 2..];
      PrefixOf(TimesText(q), s[n + 2..], s);
    }
  }

  lemma PrefixOf(t: Text, rest: Text, s: Text)
    requires s == t + rest
    ensures t <= s
  {
  }

  lemma {:induction false} TimesFound(s: Text) returns (q: Times)
    requires R.ReadQuant(s).Quant?
    ensures StartsWith(s, q)
  {
    hide R.ReadBraces;
    if s[0] == 0x2A {
      q := Star;
    } else if s[0] == 0x2B {
      q := Plus;
    } else if s[0] == 0x3F {
      q := Question;
    } else {
      q := CountedFound(s);
    }
  }

  // ----- atoms -----

  lemma {:induction false} EscapeTable(e: byte)
    ensures BytesOf(Escape(e)) ==
            if R.IsShorthand(e) then R.ShorthandTable(e) else R.WithByte(R.NoBytes(), R.EscapedByte(e, false))
  {
    hide EscapeHas, R.InShorthand, R.EscapedByte, R.IsShorthand;
    forall b | 0 <= b < 256
      ensures AtomHas(Escape(e), b) == if R.IsShorthand(e) then R.InShorthand(e, b) else b == R.EscapedByte(e, false)
    {
      EscapeIs(e, false, b);
    }
  }

  lemma RawTable(b: byte)
    ensures BytesOf(Raw(b)) == R.WithByte(R.NoBytes(), b)
  {
  }

  lemma DotTable()
    ensures BytesOf(Dot) == R.AnyButNewline()
  {
  }

  ghost predicate AtomIsRead(x: Atom, rest: Text)
  {
    R.ReadAtom(AtomText(x) + rest) == Got(AtomMeans(x), |AtomText(x)|)
  }

  lemma {:induction false} SimpleReads(x: Atom, rest: Text)
    requires AtomOk(x, rest) && (x.Raw? || x.Dot? || x.Anchor?)
    ensures AtomIsRead(x, rest)
  {
    hide BytesOf, R.WithByte, R.NoBytes, R.AnyButNewline, R.ReadClass, R.ReadAlt;
    DotTable();
    if x.Raw? {
      RawTable(x.b);
    }
  }

  lemma {:induction false} EscapeReads(e: byte, rest: Text)
    ensures AtomIsRead(Escape(e), rest)
  {
    hide BytesOf, R.WithByte, R.NoBytes, R.ShorthandTable, R.EscapedByte, R.IsShorthand, R.ReadClass, R.ReadAlt;
    EscapeTable(e);
  }

  lemma {:induction false} SetReads(negated: bool, xs: seq<Member>, rest: Text)
    requires AtomOk(Class(negated, xs), rest)
    ensures AtomIsRead(Class(negated, xs), rest)
  {
    hide BytesOf, R.ReadClass, R.ReadAlt, MembersText, MembersOk;
    ClassReads(negated, xs, rest);
  }

  lemma {:induction false} GroupOnce(s: Text, r: Rx, n: nat)
    requires s != [] && s[0] == 0x28 && R.ReadAlt(s[R.GroupLen(s)..]) == Got(r, n) && At(s, R.GroupLen(s) + n) == 0x29
    ensures R.ReadAtom(s) == Got(r, R.GroupLen(s) + n + 1)
  {
    hide R.ReadAlt, R.ReadClass;
  }

  lemma GroupLayout(quiet: bool, t: Text, rest: Text, s: Text)
    requires s == (if quiet then [0x28, 0x3F, 0x3A] else [0x28]) + (t + [0x29]) + rest
    requires quiet || !([0x3F, 0x3A] <= t)
    ensures s != [] && s[0] == 0x28 && R.GroupLen(s) == (if quiet then 3 else 1)
    ensures s[R.GroupLen(s)..] == t + ([0x29] + rest) && At(s, R.GroupLen(s) + |t|) == 0x29
  {
    var u := t + ([0x29] + rest);
    if quiet {
      assert s == [0x28, 0x3F, 0x3A] + u;
      assert s[3 + |t|] == u[|t|];
    } else {
      assert s == [0x28] + u;
      assert s[1 + |t|] == u[|t|];
      if |t| >= 2 {
        assert s[1] == t[0] && s[2] == t[1];
      } else if |t| == 1 {
        assert s[2] == 0x29;
      } else {
        assert s[1] == 0x29;
      }
    }
  }

  lemma {:induction false} GroupReads(quiet: bool, alt: Alt, rest: Text)
    requires AtomOk(Group(quiet, alt), rest)
    ensures AtomIsRead(Group(quiet, alt), rest)
    decreases alt, 1
  {
    hide R.ReadAtom, R.ReadAlt, R.GroupLen, AltText, AltOk, AltMeans;
    var x := Group(quiet, alt);
    var s := AtomText(x) + rest;
    GroupLayout(quiet, AltText(alt), rest, s);
    AltReads(alt, [0x29] + rest);
    GroupOnce(s, AltMeans(alt), |AltText(alt)|);
  }

  lemma {:induction false} AtomReads(x: Atom, rest: Text)
    requires AtomOk(x, rest)
    ensures AtomIsRead(x, rest)
    decreases x, 0
  {
    match x
    case Escape(e) => EscapeReads(e, rest);
    case Class(negated, xs) => SetReads(negated, xs, rest);
    case Group(quiet, alt) => GroupReads(quiet, alt, rest);
    case _ => SimpleReads(x, rest);
  }

  lemma {:induction false} AtomBegins(x: Atom, rest: Text)
    requires AtomOk(x, rest)
    ensures AtomText(x) != [] && AtomText(x)[0] != 0x7C && AtomText(x)[0] != 0x29
  {
  }

  // ----- branches -----

  lemma {:induction false} RepeatOnce(s: Text, r: Rx, n: nat)
    requires n <= |s| && R.ReadAtom(s) == Got(r, n)
    ensures R.ReadRepeat(s) ==
            match R.ReadQuant(s[n..])
            case NoQuant => Got(r, n)
            case Quant(lo, hi, m) => Got(Rep(r, lo, hi), n + m)
  {
    hide R.ReadAtom, R.ReadQuant;
  }

  lemma {:induction false} PartReads(p: Part, rest: Text)
    requires PartOk(p, rest)
    ensures R.ReadRepeat(PartText(p) + rest) == Got(PartMeans(p), |PartText(p)|)
    decreases p, 0
  {
    hide R.ReadRepeat, R.ReadAtom, R.ReadQuant, AtomText, AtomOk, AtomMeans, TimesText, TimesOk, Least, Most;
    var s, next := PartText(p) + rest, TimesText(p.times) + rest;
    assert s == AtomText(p.atom) + next && s[|AtomText(p.atom)|..] == next;
    AtomReads(p.atom, next);
    RepeatOnce(s, AtomMeans(p.atom), |AtomText(p.atom)|);
    if p.times.Once? {
      assert TimesText(p.times) == [] by {
        NoTimes(p.times);
      }
      assert next == rest;
      if R.ReadQuant(rest).Quant? {
        var q := TimesFound(rest);
        assert false;
      }
    } else {
      TimesRead(p.times, rest);
    }
  }

  lemma NoTimes(q: Times)
    requires q.Once?
    ensures TimesText(q) == []
  {
  }

  lemma {:induction false} PartsOnce(s: Text, r: Rx, n: nat, rs: seq<Rx>, m: nat)
    requires !EndsBranch(s) && R.ReadRepeat(s) == Got(r, n) && n <= |s| && R.ReadParts(s[n..]) == Got(rs, m)
    ensures R.ReadParts(s) == Got([r] + rs, n + m)
  {
    hide R.ReadRepeat;
  }

  lemma {:induction false} PartsRead(parts: seq<Part>, rest: Text)
    requires PartsOk(parts, rest)
    ensures R.ReadParts(PartsText(parts) + rest) == Got(PartsMean(parts), |PartsText(parts)|)
    decreases parts, 0
  {
    hide R.ReadRepeat, R.ReadParts, PartText, PartMeans, PartOk, EndsBranch;
    if parts == [] {
      NoPartsRead(rest);
    } else {
      var s, next := PartsText(parts) + rest, PartsText(parts[1..]) + rest;
      var n := |PartText(parts[0])|;
      assert s == PartText(parts[0]) + next && s[n..] == next;
      PartReads(parts[0], next);
      PartBegins(parts[0], next);
      PartsRead(parts[1..], rest);
      PartsOnce(s, PartMeans(parts[0]), n, PartsMean(parts[1..]), |PartsText(parts[1..])|);
    }
  }

  lemma {:induction false} NoPartsRead(rest: Text)
    requires EndsBranch(rest)
    ensures R.ReadParts(PartsText([]) + rest) == Got([], 0)
  {
    assert PartsText([]) + rest == rest;
  }

  lemma {:induction false} PartBegins(p: Part, rest: Text)
    requires PartOk(p, rest)
    ensures !EndsBranch(PartText(p) + rest)
  {
    hide AtomText, AtomOk, TimesText;
    AtomBegins(p.atom, TimesText(p.times) + rest);
  }

  lemma {:induction false} BranchesOnce(s: Text, parts: seq<Rx>, n: nat, rs: seq<Rx>, m: nat)
    requires s != [] && s[0] == 0x7C && R.ReadParts(s[1..]) == Got(parts, n)
    requires 1 + n <= |s| && R.ReadBranches(s[1 + n..]) == Got(rs, m)
    ensures R.ReadBranches(s) == Got([Cat(parts)] + rs, 1 + n + m)
  {
    hide R.ReadParts;
  }

  lemma {:induction false} NoOthersRead(rest: Text)
    requires rest == [] || rest[0] != 0x7C
    ensures R.ReadBranches(OthersText([]) + rest) == Got(OthersMean([]), |OthersText([])|)
  {
    assert OthersText([]) + rest == rest;
  }

  lemma {:induction false} NoOthersEnd(rest: Text)
    requires OthersOk([], rest)
    ensures rest == [] || rest[0] != 0x7C
  {
  }

  lemma {:induction false} OthersLayout(others: seq<Branch>, rest: Text)
    requires others != []
    ensures var t, v, s := PartsText(others[0].parts), OthersText(others[1..]), OthersText(others) + rest;
            && s != [] && s[0] == 0x7C && s[1..] == t + (v + rest) && s[1 + |t|..] == v + rest
            && |OthersText(others)| == 1 + |t| + |v|
  {
    hide PartsText;
    BarLayout(PartsText(others[0].parts), OthersText(others[1..]), rest);
  }

  lemma BarLayout(t: Text, v: Text, rest: Text)
    ensures var s := [0x7C] + (t + v) + rest; s[0] == 0x7C && s[1..] == t + (v + rest) && s[1 + |t|..] == v + rest
  {
    var s := [0x7C] + (t + v) + rest;
    assert s == [0x7C] + (t + (v + rest));
    assert s[1..][|t|..] == s[1 + |t|..];
  }

  lemma {:induction false} OthersOnce(others: seq<Branch>, rest: Text)
    requires others != []
    ensures OthersOk(others, rest) <==>
            PartsOk(others[0].parts, OthersText(others[1..]) + rest) && OthersOk(others[1..], rest)
    ensures OthersMean(others) == [Cat(PartsMean(others[0].parts))] + OthersMean(others[1..])
  {
    hide PartsOk, PartsMean, OthersText;
  }

  lemma {:induction false} OthersRead(others: seq<Branch>, rest: Text)
    requires OthersOk(others, rest)
    ensures R.ReadBranches(OthersText(others) + rest) == Got(OthersMean(others), |OthersText(others)|)
    decreases others, 0
  {
    hide R.ReadParts, R.ReadBranches, PartsText, PartsMean, PartsOk, OthersOk, OthersText, OthersMean;
    if others == [] {
      NoOthersEnd(rest);
      NoOthersRead(rest);
    } else {
      var t, v := PartsText(others[0].parts), OthersText(others[1..]);
      OthersOnce(others, rest);
      OthersLayout(others, rest);
      PartsRead(others[0].parts, v + rest);
      OthersRead(others[1..], rest);
      BranchesOnce(OthersText(others) + rest, PartsMean(others[0].parts), |t|, OthersMean(others[1..]), |v|);
    }
  }

  lemma {:induction false} AltOnce(s: Text, parts: seq<Rx>, n: nat, rs: seq<Rx>, m: nat)
    requires R.ReadParts(s) == Got(parts, n) && n <= |s| && R.ReadBranches(s[n..]) == Got(rs, m)
    ensures R.ReadAlt(s) == Got(if rs == [] then Cat(parts) else Union([Cat(parts)] + rs), n + m)
  {
    hide R.ReadParts, R.ReadBranches;
  }

  lemma {:induction false} AltReads(alt: Alt, rest: Text)
    requires AltOk(alt, rest)
    ensures R.ReadAlt(AltText(alt) + rest) == Got(AltMeans(alt), |AltText(alt)|)
    decreases alt, 0
  {
    hide R.ReadAlt, R.ReadParts, R.ReadBranches, PartsText, PartsMean, PartsOk, OthersText, OthersMean, OthersOk;
    var t, v := PartsText(alt.first.parts), OthersText(alt.others);
    var s := AltText(alt) + rest;
    assert s == t + (v + rest) && s[|t|..] == v + rest;
    PartsRead(alt.first.parts, v + rest);
    OthersRead(alt.others, rest);
    AltOnce(s, PartsMean(alt.first.parts), |t|, OthersMean(alt.others), |v|);
    AnyOthers(alt.others);
  }

  lemma {:induction false} AnyOthers(others: seq<Branch>)
    ensures OthersMean(others) == [] <==> others == []
  {
  }
}
