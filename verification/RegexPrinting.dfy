/** Writing regular expressions down, and the proof that the pattern reader gives back
    what was written. */
module RegexPrinting {
  import opened CharSets
  import opened Reading
  import opened RegexSyntax
  import opened RegexReading
  import opened RegexReparse
  import opened RegexSteps
  import opened GbnfPrinting

  // ----- classes -----

  /** Letters that mean something else behind a backslash. */
  predicate Special(b: byte)
  {
    IsShorthand(b) || b == 0x6E || b == 0x74 || b == 0x72
  }

  function MemberText(b: byte): (t: Text)
    ensures t != [] && t[0] != CLOSE_BRACKET && t[0] != DASH && t[0] != CARET
  {
    if Special(b) then [b] else [BACKSLASH, b]
  }

  function MembersText(bs: seq<byte>): (t: Text)
    ensures t != [] && t[0] != DASH && t[0] != CARET
    decreases |bs|
  {
    if bs == [] then [CLOSE_BRACKET] else MemberText(bs[0]) + MembersText(bs[1..])
  }

  function WithAll(acc: Table, bs: seq<byte>): Table
    decreases |bs|
  {
    if bs == [] then acc else WithAll(WithByte(acc, bs[0]), bs[1..])
  }

  /** The bytes of a table from `i` on. */
  function BytesFrom(t: Table, i: nat): (bs: seq<byte>)
    requires i <= 256
    ensures forall b: byte :: b in bs <==> i <= b && t[b]
    decreases 256 - i
  {
    if i == 256 then [] else if t[i] then [i] + BytesFrom(t, i + 1) else BytesFrom(t, i + 1)
  }

  lemma {:induction false} WithAllAt(acc: Table, bs: seq<byte>, b: byte)
    ensures WithAll(acc, bs)[b] <==> acc[b] || b in bs
    decreases |bs|
  {
    if bs != [] {
      WithAllAt(WithByte(acc, bs[0]), bs[1..], b);
    }
  }

  lemma {:induction false} BytesMakeTable(t: Table)
    ensures WithAll(NoBytes(), BytesFrom(t, 0)) == t
  {
    var u := WithAll(NoBytes(), BytesFrom(t, 0));
    forall b | 0 <= b < 256
      ensures u[b] == t[b]
    {
      WithAllAt(NoBytes(), BytesFrom(t, 0), b);
    }
  }

  lemma {:induction false} MemberReads(b: byte, acc: Table, rest: Text)
    requires rest != [] && rest[0] != DASH
    ensures ReadMember(MemberText(b) + rest, acc) == Got(WithByte(acc, b), |MemberText(b)|)
  {
    hide WithByte, Merge, ShorthandTable, WithRange;
  }

  lemma {:induction false} MembersRead(bs: seq<byte>, acc: Table, any: bool, rest: Text)
    requires any || bs != []
    ensures ReadMembers(MembersText(bs) + rest, acc, any) == Got(WithAll(acc, bs), |MembersText(bs)|)
    decreases |bs|
  {
    hide ReadMember, MemberText, WithByte;
    var s := MembersText(bs) + rest;
    if bs != [] {
      var t := MembersText(bs[1..]) + rest;
      assert s == MemberText(bs[0]) + t;
      MemberReads(bs[0], acc, t);
      assert s[|MemberText(bs[0])|..] == t;
      MembersRead(bs[1..], WithByte(acc, bs[0]), true, rest);
    }
  }

  /** What no byte is a member of: `[^\d\D]`. */
  const EMPTY_CLASS: Text := [OPEN_BRACKET, CARET, BACKSLASH, 0x64, BACKSLASH, 0x44, CLOSE_BRACKET]

  function ClassText(t: Table): (s: Text)
    ensures s != [] && s[0] == OPEN_BRACKET
  {
    if HasByte(t) then [OPEN_BRACKET] + MembersText(BytesFrom(t, 0)) else EMPTY_CLASS
  }

  lemma {:induction false} PlainClass(s: Text)
    requires |s| >= 2 && s[0] == OPEN_BRACKET && s[1] != CARET
    ensures ReadClass(s) == Later(1, ReadMembers(s[1..], NoBytes(), false))
  {
    hide ReadMembers, Complement, NoBytes;
  }

  lemma {:induction false} FilledClassReads(t: Table, rest: Text)
    requires HasByte(t)
    ensures ReadClass(ClassText(t) + rest) == Got(t, |ClassText(t)|)
  {
    hide ReadClass, ReadMembers, WithAll, NoBytes, MembersText, BytesFrom;
    var bs := BytesFrom(t, 0);
    var b: byte :| t[b];
    assert b in bs;
    var s := ClassText(t) + rest;
    assert s[1..] == MembersText(bs) + rest && s[1] == MembersText(bs)[0];
    PlainClass(s);
    MembersRead(bs, NoBytes(), false, rest);
    BytesMakeTable(t);
  }

  lemma {:induction false} ClassReads(t: Table, rest: Text)
    ensures ReadClass(ClassText(t) + rest) == Got(t, |ClassText(t)|)
  {
    hide ReadClass, HasByte;
    if HasByte(t) {
      FilledClassReads(t, rest);
    } else {
      EmptyClassReads(t, rest);
    }
  }

  /** Digits and everything else, complemented. */
  lemma AllButAll(t: Table)
    requires !HasByte(t)
    ensures t == Complement(Merge(Merge(NoBytes(), ShorthandTable(0x64)), ShorthandTable(0x44)))
  {
    var u := Complement(Merge(Merge(NoBytes(), ShorthandTable(0x64)), ShorthandTable(0x44)));
    assert forall b :: 0 <= b < 256 ==> t[b] == u[b];
  }

  lemma {:induction false} EmptyClassReads(t: Table, rest: Text)
    requires !HasByte(t)
    ensures ReadClass(EMPTY_CLASS + rest) == Got(t, |EMPTY_CLASS|)
  {
    hide Complement, Merge, ShorthandTable, NoBytes, WithByte, WithRange;
    var s := EMPTY_CLASS + rest;
    var none := NoBytes();
    var digits := Merge(none, ShorthandTable(0x64));
    var all := Merge(digits, ShorthandTable(0x44));
    var s2, s4, s6 := s[2..], s[4..], s[6..];
    assert s2[2..] == s4 && s4[2..] == s6;
    assert ReadMember(s2, none) == Got(digits, 2) && ReadMember(s4, digits) == Got(all, 2);
    hide ReadMember;
    assert ReadMembers(s6, all, true) == Got(all, 1);
    assert ReadMembers(s4, digits, true) == Got(all, 3);
    assert ReadMembers(s2, none, false) == Got(all, 5);
    AllButAll(t);
  }

  // ----- expressions -----

  /** The expressions the reader produces: branches are concatenations, an
      alternation has at least two of them, and only atoms are repeated. */
  predicate PartOk(r: Rx)
    decreases r, 1
  {
    match r
    case Rep(b, lo, hi) => !b.Rep? && AtomOk(b) && (hi == -1 || lo <= hi)
    case _ => AtomOk(r)
  }

  predicate AtomOk(r: Rx)
    decreases r, 0
  {
    match r
    case Nothing => true
    case One(_) => true
    case Cat(parts) => PartsOk(parts)
    case Union(branches) => |branches| >= 2 && BranchesOk(branches)
    case Rep(_, _, _) => false
  }

  predicate PartsOk(parts: seq<Rx>)
    decreases parts, 0
  {
    forall i :: 0 <= i < |parts| ==> PartOk(parts[i])
  }

  predicate BranchesOk(branches: seq<Rx>)
    decreases branches, 0
  {
    forall i :: 0 <= i < |branches| ==> branches[i].Cat? && PartsOk(branches[i].parts)
  }

  function AtomText(r: Rx): Text
    decreases r, 1
  {
    match r
    case Nothing => [CARET]
    case One(t) => ClassText(t)
    case Cat(parts) => [OPEN_PAREN] + PartsText(parts) + [CLOSE_PAREN]
    case Union(branches) => [OPEN_PAREN] + BranchesText(branches) + [CLOSE_PAREN]
    case Rep(_, _, _) => []
  }

  function PartText(r: Rx): Text
    decreases r, 2
  {
    match r
    case Rep(b, lo, hi) => AtomText(b) + BoundsText(lo, hi)
    case _ => AtomText(r)
  }

  function PartsText(parts: seq<Rx>): Text
    decreases parts, 0
  {
    if parts == [] then [] else PartText(parts[0]) + PartsText(parts[1..])
  }

  function MoreBranches(branches: seq<Rx>): Text
    decreases branches, 1
  {
    if branches == [] then []
    else [BAR] + ((if branches[0].Cat? then PartsText(branches[0].parts) else []) + MoreBranches(branches[1..]))
  }

  function BranchesText(branches: seq<Rx>): Text
    decreases branches, 1
  {
    if branches == [] then []
    else (if branches[0].Cat? then PartsText(branches[0].parts) else []) + MoreBranches(branches[1..])
  }

  /** A pattern for a whole expression: a concatenation or an alternation. */
  function PatternText(r: Rx): Text
  {
    match r
    case Cat(parts) => PartsText(parts)
    case Union(branches) => BranchesText(branches)
    case _ => []
  }

  predicate PatternOk(r: Rx)
  {
    (r.Cat? || r.Union?) && AtomOk(r)
  }

  // ----- reading back -----

  /** No quantifier starts here, and a group does not start with one. */
  predicate Calm(s: Text)
  {
    s == [] || s[0] == OPEN_BRACKET || s[0] == CARET || s[0] == OPEN_PAREN || s[0] == BAR || s[0] == CLOSE_PAREN
  }

  predicate Opens(s: Text)
  {
    s != [] && (s[0] == OPEN_BRACKET || s[0] == CARET || s[0] == OPEN_PAREN)
  }

  lemma {:induction false} PartOpens(r: Rx)
    requires PartOk(r)
    ensures Opens(PartText(r))
  {
    hide ClassText, BoundsText, PartsText, BranchesText;
  }

  lemma {:induction false} PartsCalm(parts: seq<Rx>, rest: Text)
    requires PartsOk(parts) && Calm(rest)
    ensures Calm(PartsText(parts) + rest) && (parts != [] ==> Opens(PartsText(parts) + rest))
  {
    hide PartText, PartOk;
    if parts == [] {
      assert PartsText(parts) + rest == rest;
    } else {
      PartOpens(parts[0]);
      assert (PartsText(parts) + rest)[0] == PartText(parts[0])[0];
    }
  }

  lemma {:induction false} BoundsQuantify(lo: nat, hi: int, rest: Text)
    requires hi == -1 || lo <= hi
    ensures ReadQuant(BoundsText(lo, hi) + rest) == Quant(lo, hi, |BoundsText(lo, hi)|)
  {
    hide NumberText, Number, DigitsLen, BoundsText, ReadBraces;
    var s, a, b := BoundsText(lo, hi) + rest, |NumberText(lo)|, |UpperText(hi)|;
    BoundsLayout(lo, hi, rest);
    NumberReads(lo);
    if hi >= 0 {
      NumberReads(hi);
    }
    BracesReadsComma(s, 0, a + 1, a + b + 2, lo, hi);
    assert s[0..] == s;
  }

  lemma {:induction false} AtomReads(r: Rx, rest: Text)
    requires AtomOk(r)
    ensures ReadAtom(AtomText(r) + rest) == Got(r, |AtomText(r)|)
    decreases r, 4
  {
    hide ReadClass, ReadAlt, PartsText, BranchesText, ClassText, PartsOk, BranchesOk;
    match r
    case Nothing =>
    case One(t) => ClassReads(t, rest);
    case Cat(parts) =>
      var tail := [CLOSE_PAREN] + rest;
      PartsCalm(parts, tail);
      PartsPattern(parts, tail);
      InGroup(r, PartsText(parts), rest);
    case Union(branches) =>
      var tail := [CLOSE_PAREN] + rest;
      BranchesCalm(branches, tail);
      BranchesPattern(branches, tail);
      InGroup(r, BranchesText(branches), rest);
  }

  lemma {:induction false} InGroup(r: Rx, t: Text, rest: Text)
    requires Calm(t + ([CLOSE_PAREN] + rest)) && ReadAlt(t + ([CLOSE_PAREN] + rest)) == Got(r, |t|)
    ensures ReadAtom([OPEN_PAREN] + t + [CLOSE_PAREN] + rest) == Got(r, |t| + 2)
  {
    hide ReadAlt, ReadClass;
    var s, u := [OPEN_PAREN] + t + [CLOSE_PAREN] + rest, t + ([CLOSE_PAREN] + rest);
    assert s == [OPEN_PAREN] + u && s[1..] == u && s[1] == u[0];
    assert s[1 + |t|] == CLOSE_PAREN;
  }

  lemma {:induction false} RepeatOnce(s: Text, n: nat, r: Rx)
    requires n <= |s| && ReadAtom(s) == Got(r, n)
    ensures ReadRepeat(s) ==
            match ReadQuant(s[n..])
            case NoQuant => Got(r, n)
            case Quant(lo, hi, m) => Got(Rep(r, lo, hi), n + m)
  {
    hide ReadAtom, ReadQuant;
  }

  lemma {:induction false} CalmIsNoQuant(s: Text)
    requires Calm(s)
    ensures ReadQuant(s).NoQuant?
  {
  }

  lemma {:induction false} PartReads(r: Rx, rest: Text)
    requires PartOk(r) && Calm(rest)
    ensures ReadRepeat(PartText(r) + rest) == Got(r, |PartText(r)|)
    decreases r, 5
  {
    hide ReadAtom, ReadQuant, ReadRepeat, AtomText, AtomOk, BoundsText, Calm;
    match r
    case Rep(b, lo, hi) =>
      var u := BoundsText(lo, hi);
      AtomReads(b, u + rest);
      BoundsQuantify(lo, hi, rest);
      assert PartText(r) + rest == AtomText(b) + (u + rest);
      assert (AtomText(b) + (u + rest))[|AtomText(b)|..] == u + rest;
      RepeatOnce(AtomText(b) + (u + rest), |AtomText(b)|, b);
    case _ =>
      AtomReads(r, rest);
      CalmIsNoQuant(rest);
      assert (AtomText(r) + rest)[|AtomText(r)|..] == rest;
      RepeatOnce(AtomText(r) + rest, |AtomText(r)|, r);
  }

  lemma {:induction false} NoPartsRead(parts: seq<Rx>, rest: Text)
    requires parts == [] && EndsParts(rest)
    ensures ReadParts(PartsText(parts) + rest) == Got(parts, |PartsText(parts)|)
  {
    hide ReadRepeat;
    assert PartsText(parts) + rest == rest;
  }

  lemma {:induction false} PartsRead(parts: seq<Rx>, rest: Text)
    requires PartsOk(parts) && EndsParts(rest)
    ensures ReadParts(PartsText(parts) + rest) == Got(parts, |PartsText(parts)|)
    decreases parts, 2
  {
    hide ReadRepeat, ReadParts, PartText, PartOk;
    if parts == [] {
      NoPartsRead(parts, rest);
    } else {
      var t := PartText(parts[0]);
      var u := PartsText(parts[1..]) + rest;
      PartsCalm(parts[1..], rest);
      PartsCalm(parts, rest);
      PartReads(parts[0], u);
      PartsRead(parts[1..], rest);
      assert PartsText(parts) + rest == t + u && (t + u)[|t|..] == u;
      PartsUnfold(t + u, |t|, parts[0]);
      assert [parts[0]] + parts[1..] == parts;
    }
  }

  predicate EndsPattern(rest: Text)
  {
    rest == [] || rest[0] == CLOSE_PAREN
  }

  lemma {:induction false} MoreCalm(bs: seq<Rx>, rest: Text)
    requires EndsPattern(rest)
    ensures EndsParts(MoreBranches(bs) + rest) && Calm(MoreBranches(bs) + rest)
  {
    hide PartsText;
    if bs == [] {
      assert MoreBranches(bs) + rest == rest;
    }
  }

  lemma {:induction false} MoreBranchesText(bs: seq<Rx>, rest: Text)
    requires bs != [] && bs[0].Cat?
    ensures MoreBranches(bs) + rest == [BAR] + (PartsText(bs[0].parts) + (MoreBranches(bs[1..]) + rest))
    ensures |MoreBranches(bs)| == 1 + |PartsText(bs[0].parts)| + |MoreBranches(bs[1..])|
  {
    hide PartsText;
  }

  lemma {:induction false} NoMoreReads(bs: seq<Rx>, rest: Text)
    requires bs == [] && EndsPattern(rest)
    ensures ReadBranches(MoreBranches(bs) + rest) == Got(bs, |MoreBranches(bs)|)
  {
    hide ReadParts;
    assert MoreBranches(bs) + rest == rest;
  }

  lemma {:induction false} MoreReads(bs: seq<Rx>, rest: Text)
    requires BranchesOk(bs) && EndsPattern(rest)
    ensures ReadBranches(MoreBranches(bs) + rest) == Got(bs, |MoreBranches(bs)|)
    decreases bs, 3
  {
    hide ReadParts, ReadBranches, PartsText, PartsOk, MoreBranches;
    if bs == [] {
      NoMoreReads(bs, rest);
    } else {
      var parts, v := bs[0].parts, MoreBranches(bs[1..]) + rest;
      var s, t := MoreBranches(bs) + rest, PartsText(parts);
      MoreBranchesText(bs, rest);
      assert s[1..] == t + v && s[1 + |t|..] == v;
      MoreCalm(bs[1..], rest);
      PartsRead(parts, v);
      MoreReads(bs[1..], rest);
      BranchesUnfold(s, |t|);
      assert [Cat(parts)] + bs[1..] == bs;
    }
  }

  lemma {:induction false} PartsPattern(parts: seq<Rx>, rest: Text)
    requires PartsOk(parts) && EndsPattern(rest)
    ensures ReadAlt(PartsText(parts) + rest) == Got(Cat(parts), |PartsText(parts)|)
    decreases parts, 3
  {
    PartsRead(parts, rest);
    hide ReadParts, PartsText, PartsOk;
    assert (PartsText(parts) + rest)[|PartsText(parts)|..] == rest;
  }

  lemma {:induction false} BranchesCalm(bs: seq<Rx>, rest: Text)
    requires bs != [] && BranchesOk(bs) && EndsPattern(rest)
    ensures Calm(BranchesText(bs) + rest)
  {
    hide PartsText, PartsOk, MoreBranches;
    var t, v := PartsText(bs[0].parts), MoreBranches(bs[1..]) + rest;
    MoreCalm(bs[1..], rest);
    PartsCalm(bs[0].parts, v);
    assert BranchesText(bs) + rest == t + v;
  }

  lemma {:induction false} BranchesPattern(bs: seq<Rx>, rest: Text)
    requires |bs| >= 2 && BranchesOk(bs) && EndsPattern(rest)
    ensures ReadAlt(BranchesText(bs) + rest) == Got(Union(bs), |BranchesText(bs)|)
    decreases bs, 4
  {
    hide ReadParts, ReadBranches, PartsText, PartsOk, MoreBranches;
    var parts, v := bs[0].parts, MoreBranches(bs[1..]) + rest;
    var t := PartsText(parts);
    MoreCalm(bs[1..], rest);
    PartsRead(parts, v);
    MoreReads(bs[1..], rest);
    assert BranchesText(bs) + rest == t + v && (t + v)[|t|..] == v;
    assert [Cat(parts)] + bs[1..] == bs;
  }

  /** A printed expression compiles and is read back as it was. */
  lemma PatternReadsBack(r: Rx)
    requires PatternOk(r)
    ensures Compiles(PatternText(r)) && ReadAlt(PatternText(r)).value == r
  {
    hide ReadAlt, PartsText, BranchesText, PartsOk, BranchesOk;
    var none: Text := [];
    assert PatternText(r) + none == PatternText(r);
    match r
    case Cat(parts) => PartsPattern(parts, none);
    case Union(branches) => BranchesPattern(branches, none);
  }
}
