/** Whatever pattern is read is spelled right: trees are found along the reading, and that they
    denote what was read follows from the other direction. */
module RegexUnspelled {
  import opened CharSets
  import opened Reading
  import opened RegexSyntax
  import opened RegexSpelling
  import opened RegexSpelled
  import opened GbnfUnspelled
  import R = RegexReading
  import A = RegexAcceptance

  // ----- classes -----

  lemma {:induction false} MemberFound(s: Text, acc: Table) returns (x: Member, rest: Text)
    requires s != [] && s[0] != 0x5D && R.ReadMember(s, acc).Got?
    ensures MemberOk(x, rest) && Parts(s, MemberText(x), rest)
  {
    hide R.WithByte, R.WithRange, R.Merge, R.ShorthandTable, R.EscapedByte, R.IsShorthand;
    if s[0] == 0x5C {
      x, rest := Quoted(s[1]), s[2..];
    } else if |s| > 2 && s[1] == 0x2D && s[2] != 0x5D {
      x, rest := Span(s[0], s[2]), s[3..];
    } else {
      x, rest := Byte(s[0]), s[1..];
    }
  }

  lemma {:induction false} MembersKinds(s: Text, acc: Table, any: bool)
    requires R.ReadMembers(s, acc, any).Got?
    ensures s != []
    ensures s[0] == 0x5D ==> any
    ensures s[0] != 0x5D ==>
              && R.ReadMember(s, acc).Got?
              && R.ReadMembers(s[R.ReadMember(s, acc).len..], R.ReadMember(s, acc).value, true).Got?
  {
    hide R.ReadMember;
  }

  lemma {:induction false} MembersCons(x: Member, tail: seq<Member>, rest: Text)
    requires MemberOk(x, MembersText(tail) + ([0x5D] + rest)) && MembersOk(tail, rest)
    ensures MembersOk([x] + tail, rest) && MembersText([x] + tail) == MemberText(x) + MembersText(tail)
  {
    hide MemberOk, MemberText;
    assert ([x] + tail)[1..] == tail;
  }

  lemma {:induction false} MembersFound(s: Text, acc: Table, any: bool) returns (xs: seq<Member>, rest: Text)
    requires R.ReadMembers(s, acc, any).Got?
    ensures MembersOk(xs, rest) && Parts(s, MembersText(xs), [0x5D] + rest) && (any || xs != [])
    decreases |s|
  {
    hide R.ReadMembers, R.ReadMember, MemberOk, MemberText, WithMember;
    MembersKinds(s, acc, any);
    if s[0] == 0x5D {
      xs, rest := [], s[1..];
      assert s == [0x5D] + rest && MembersText([]) + s == s;
    } else {
      var x, u := MemberFound(s, acc);
      MemberReads(x, u, acc);
      assert s[|MemberText(x)|..] == u;
      var tail;
      tail, rest := MembersFound(u, WithMember(acc, x), true);
      xs := [x] + tail;
      MembersCons(x, tail, rest);
      assert s == MemberText(x) + (MembersText(tail) + ([0x5D] + rest));
    }
  }

  lemma {:induction false} ClassKinds(s: Text, negated: bool)
    requires s != [] && R.ReadClass(s).Got? && negated == (At(s, 1) == 0x5E)
    ensures R.ReadMembers(s[OpenLen(negated)..], R.NoBytes(), false).Got?
  {
    hide R.ReadMembers, R.NoBytes, R.Complement;
  }

  lemma ClassLayout(s: Text, negated: bool, m: Text, rest: Text)
    requires s != [] && s[0] == 0x5B && negated == (At(s, 1) == 0x5E) && m != []
    requires s[OpenLen(negated)..] == m + ([0x5D] + rest)
    ensures s == [0x5B] + ((if negated then [0x5E] else []) + (m + [0x5D])) + rest
    ensures negated || m[0] != 0x5E
  {
    var t := m + ([0x5D] + rest);
    if negated {
      assert s == [0x5B] + ([0x5E] + t);
    } else {
      assert s == [0x5B] + t;
      assert s[1] == t[0] == m[0];
    }
  }

  lemma {:induction false} ClassFound(s: Text) returns (x: Atom, rest: Text)
    requires s != [] && s[0] == 0x5B && R.ReadClass(s).Got?
    ensures AtomOk(x, rest) && Parts(s, AtomText(x), rest)
  {
    hide R.ReadClass, R.ReadMembers, R.NoBytes, MembersOk, MembersText, MemberText;
    var negated := At(s, 1) == 0x5E;
    ClassKinds(s, negated);
    var xs;
    xs, rest := MembersFound(s[OpenLen(negated)..], R.NoBytes(), false);
    x := Class(negated, xs);
    FirstMember(xs);
    ClassLayout(s, negated, MembersText(xs), rest);
  }

  lemma {:induction false} FirstMember(xs: seq<Member>)
    requires xs != []
    ensures MembersText(xs) != [] && MembersText(xs)[0] == MemberText(xs[0])[0]
  {
    hide MemberText;
  }

  // ----- atoms -----

  lemma {:induction false} GroupFound(s: Text) returns (x: Atom, rest: Text)
    requires s != [] && s[0] == 0x28 && R.ReadAtom(s).Got?
    ensures AtomOk(x, rest) && Parts(s, AtomText(x), rest)
    decreases |s| - 1, 4
  {
    hide R.ReadAtom, R.ReadAlt, R.GroupLen, AltText, AltOk, AltMeans;
    A.GroupAtom(s);
    var k := A.GroupIsOpen(s);
    var alt, u := AltFound(s[k..]);
    AltReads(alt, u);
    rest := CloseLayout(s, k, AltText(alt), u);
    x := Group(k == 3, alt);
  }

  lemma CloseLayout(s: Text, k: nat, t: Text, u: Text) returns (rest: Text)
    requires s != [] && s[0] == 0x28 && k == R.GroupLen(s) <= |s| && s[k..] == t + u && At(s, k + |t|) == 0x29
    ensures u == [0x29] + rest && s == (if k == 3 then [0x28, 0x3F, 0x3A] else [0x28]) + (t + [0x29]) + rest
    ensures k == 3 || !([0x3F, 0x3A] <= t)
  {
    assert k + |t| < |s| && s[k + |t|] == s[k..][|t|] == u[0];
    rest := u[1..];
    assert u == [0x29] + rest;
    assert s == s[..k] + s[k..];
    assert s[..k] == if k == 3 then [0x28, 0x3F, 0x3A] else [0x28];
    if |t| >= 2 {
      assert s[k] == s[k..][0] == t[0] && s[k + 1] == s[k..][1] == t[1];
    }
  }

  lemma {:induction false} AtomFound(s: Text) returns (x: Atom, rest: Text)
    requires s != [] && R.ReadAtom(s).Got?
    ensures AtomOk(x, rest) && Parts(s, AtomText(x), rest)
    decreases |s|, 0
  {
    hide R.ReadAlt, R.ReadClass;
    if s[0] == 0x28 {
      x, rest := GroupFound(s);
    } else if s[0] == 0x5B {
      x, rest := ClassFound(s);
    } else if s[0] == 0x2E {
      x, rest := Dot, s[1..];
    } else if s[0] == 0x5C {
      x, rest := Escape(s[1]), s[2..];
    } else if s[0] == 0x5E || s[0] == 0x24 {
      x, rest := Anchor(s[0]), s[1..];
    } else {
      x, rest := Raw(s[0]), s[1..];
    }
  }

  // ----- branches -----

  lemma {:induction false} RepeatKinds(s: Text)
    requires R.ReadRepeat(s).Got?
    ensures R.ReadAtom(s).Got? && s != []
  {
    hide R.ReadQuant, R.ReadClass, R.ReadAlt;
  }

  lemma {:induction false} PartFound(s: Text) returns (p: Part, rest: Text)
    requires R.ReadRepeat(s).Got?
    ensures PartOk(p, rest) && Parts(s, PartText(p), rest)
    decreases |s|, 1
  {
    hide R.ReadRepeat, R.ReadAtom, R.ReadQuant, AtomText, AtomOk, AtomMeans, TimesText, TimesOk;
    RepeatKinds(s);
    var x, u := AtomFound(s);
    if StartsTimes(u) {
      var q :| StartsWith(u, q);
      rest := u[|TimesText(q)|..];
      assert u == TimesText(q) + rest;
      p := Part(x, q);
    } else {
      rest, p := u, Part(x, Once);
      NoTimes(Once);
      OnceOk();
      assert TimesText(Once) + u == u && AtomText(x) + [] == AtomText(x);
    }
  }

  lemma OnceOk()
    ensures TimesOk(Once)
  {
  }

  lemma {:induction false} PartsKinds(s: Text)
    requires R.ReadParts(s).Got? && !EndsBranch(s)
    ensures R.ReadRepeat(s).Got? && R.ReadParts(s[R.ReadRepeat(s).len..]).Got?
  {
    hide R.ReadRepeat;
  }

  lemma {:induction false} ConsPart(p: Part, tail: seq<Part>, rest: Text)
    requires PartOk(p, PartsText(tail) + rest) && PartsOk(tail, rest)
    ensures PartsOk([p] + tail, rest) && PartsText([p] + tail) == PartText(p) + PartsText(tail)
  {
    hide PartOk, PartText;
    assert ([p] + tail)[1..] == tail;
  }

  lemma {:induction false} PartsFound(s: Text) returns (parts: seq<Part>, rest: Text)
    requires R.ReadParts(s).Got?
    ensures PartsOk(parts, rest) && Parts(s, PartsText(parts), rest)
    decreases |s|, 2
  {
    hide R.ReadParts, R.ReadRepeat, PartOk, PartText, EndsBranch, PartsOk, PartsText;
    if EndsBranch(s) {
      parts, rest := [], s;
      NoPartsFound(s);
    } else {
      PartsKinds(s);
      var p, u := PartFound(s);
      PartReads(p, u);
      assert s[|PartText(p)|..] == u;
      var tail;
      tail, rest := PartsFound(u);
      parts := [p] + tail;
      ConsPart(p, tail, rest);
      assert s == PartText(p) + (PartsText(tail) + rest);
    }
  }

  lemma {:induction false} NoPartsFound(s: Text)
    requires EndsBranch(s)
    ensures PartsOk([], s) && Parts(s, PartsText([]), s)
  {
    assert PartsText([]) + s == s;
  }

  lemma {:induction false} BranchesKinds(s: Text)
    requires R.ReadBranches(s).Got? && s != [] && s[0] == 0x7C
    ensures R.ReadParts(s[1..]).Got?
    ensures var n := R.ReadParts(s[1..]).len; R.ReadBranches(s[1..][n..]).Got?
  {
    hide R.ReadParts;
    var n := R.ReadParts(s[1..]).len;
    assert R.ReadParts(s[1..]).Got?;
    assert s[1..][n..] == s[1 + n..];
  }

  lemma {:induction false} ConsOther(parts: seq<Part>, tail: seq<Branch>, rest: Text)
    requires PartsOk(parts, OthersText(tail) + rest) && OthersOk(tail, rest)
    ensures OthersOk([Branch(parts)] + tail, rest)
    ensures OthersText([Branch(parts)] + tail) == [0x7C] + (PartsText(parts) + OthersText(tail))
  {
    hide PartsOk, PartsText;
    assert ([Branch(parts)] + tail)[1..] == tail;
  }

  lemma {:induction false} NoOthers(s: Text)
    requires s == [] || s[0] != 0x7C
    ensures OthersOk([], s) && Parts(s, OthersText([]), s)
  {
    assert OthersText([]) + s == s;
  }

  lemma {:induction false} BranchesFound(s: Text) returns (others: seq<Branch>, rest: Text)
    requires R.ReadBranches(s).Got?
    ensures OthersOk(others, rest) && Parts(s, OthersText(others), rest)
    decreases |s|, 2
  {
    hide R.ReadParts, R.ReadBranches, PartsOk, PartsText, OthersOk, OthersText, PartsMean;
    if s == [] || s[0] != 0x7C {
      others, rest := [], s;
      NoOthers(s);
    } else {
      BranchesKinds(s);
      var parts, u := PartsFound(s[1..]);
      PartsRead(parts, u);
      assert s[1..][|PartsText(parts)|..] == u;
      var tail;
      tail, rest := BranchesFound(u);
      others := [Branch(parts)] + tail;
      ConsOther(parts, tail, rest);
      BarJoins(s, PartsText(parts), OthersText(tail), rest);
    }
  }

  lemma BarJoins(s: Text, t: Text, v: Text, rest: Text)
    requires s != [] && s[0] == 0x7C && s[1..] == t + (v + rest)
    ensures s == [0x7C] + (t + v) + rest
  {
    assert s == [0x7C] + s[1..];
  }

  lemma {:induction false} AltKinds(s: Text)
    requires R.ReadAlt(s).Got?
    ensures R.ReadParts(s).Got? && R.ReadBranches(s[R.ReadParts(s).len..]).Got?
  {
    hide R.ReadParts, R.ReadBranches;
  }

  lemma {:induction false} AltFound(s: Text) returns (alt: Alt, rest: Text)
    requires R.ReadAlt(s).Got?
    ensures AltOk(alt, rest) && Parts(s, AltText(alt), rest)
    decreases |s|, 3
  {
    hide R.ReadAlt, R.ReadParts, R.ReadBranches, PartsOk, PartsText, OthersOk, OthersText, PartsMean;
    AltKinds(s);
    var parts, u := PartsFound(s);
    PartsRead(parts, u);
    assert s[|PartsText(parts)|..] == u;
    var others;
    others, rest := BranchesFound(u);
    alt := Alt(Branch(parts), others);
    assert s == PartsText(parts) + (OthersText(others) + rest);
  }

  // ----- whole patterns -----

  /** A pattern compiles exactly if it is spelled right. */
  lemma {:induction false} CompilesIffSpelled(p: Text)
    ensures R.Compiles(p) <==> exists alt :: SpelledBy(p, alt)
  {
    hide R.ReadAlt, AltOk, AltText, AltMeans;
    if R.Compiles(p) {
      var alt, rest := AltFound(p);
      AltReads(alt, rest);
      assert AltText(alt) + [] == AltText(alt);
      assert SpelledBy(p, alt);
    }
    if alt :| SpelledBy(p, alt) {
      SpelledIsRead(p, alt);
    }
  }

  /** What is spelled is what is read. */
  lemma {:induction false} SpelledIsRead(p: Text, alt: Alt)
    requires SpelledBy(p, alt)
    ensures R.Compiles(p) && R.ReadAlt(p).value == AltMeans(alt)
  {
    hide R.ReadAlt, AltOk, AltText, AltMeans;
    AltReads(alt, []);
    assert AltText(alt) + [] == AltText(alt);
  }
}
