/** The pattern compiler and the set-based simulator. */
module RegexNfa {
  import opened CharSets
  import opened Languages
  import opened Reading
  import opened RegexSyntax
  import opened RegexReading
  import opened RegexReparse
  import opened RegexSteps
  import opened Nfa
  import opened Fragments
  import opened Building
  import opened IdLists
  import opened NfaRuns

  // ----- byte tables -----

  method ShorthandBytes(esc: byte) returns (ok: bool, t: Table)
    ensures ok <==> IsShorthand(esc)
    ensures ok ==> t == ShorthandTable(esc)
  {
    ok := esc in {0x64, 0x44, 0x77, 0x57, 0x73, 0x53};
    var bits: seq<bool> := [];
    for c := 0 to 256
      invariant |bits| == c && forall i: byte :: i < c ==> bits[i] == InShorthand(esc, i)
    {
      var digit := 0x30 <= c <= 0x39;
      var word := 0x61 <= c <= 0x7A || 0x41 <= c <= 0x5A || digit || c == 0x5F;
      var space := c == 0x20 || c == 0x09 || c == 0x0A || c == 0x0D || c == 0x0C || c == 0x0B;
      var member := if esc == 0x64 then digit else if esc == 0x44 then !digit
                    else if esc == 0x77 then word else if esc == 0x57 then !word
                    else if esc == 0x73 then space else !space;
      bits := bits + [member];
    }
    t := bits;
    assert t == ShorthandTable(esc);
  }

  method DotBytes() returns (t: Table)
    ensures t == AnyButNewline()
  {
    var bits: seq<bool> := [];
    for c := 0 to 256
      invariant |bits| == c && forall i: byte :: i < c ==> bits[i] == (i != NEWLINE)
    {
      bits := bits + [c != 0x0A];
    }
    t := bits;
    assert t == AnyButNewline();
  }

  method FlipBytes(t: Table) returns (u: Table)
    ensures u == Complement(t)
  {
    var bits := t;
    for c := 0 to 256
      invariant |bits| == 256
      invariant forall i: byte :: bits[i] == if i < c then !t[i] else t[i]
    {
      bits := bits[c := !t[c]];
    }
    u := bits;
    assert u == Complement(t);
  }

  method MergeBytes(t: Table, extra: Table) returns (u: Table)
    ensures u == Merge(t, extra)
  {
    var bits := t;
    for c := 0 to 256
      invariant |bits| == 256
      invariant forall i: byte :: bits[i] == if i < c then t[i] || extra[i] else t[i]
    {
      if extra[c] {
        bits := bits[c := true];
      }
    }
    u := bits;
    assert u == Merge(t, extra);
  }

  method RangeBytes(t: Table, lo: byte, hi: byte) returns (u: Table)
    requires lo <= hi
    ensures u == WithRange(t, lo, hi)
  {
    var bits := t;
    for c := lo to hi + 1
      invariant |bits| == 256
      invariant forall i: byte :: bits[i] == (t[i] || lo <= i < c)
    {
      bits := bits[c := true];
    }
    u := bits;
    assert u == WithRange(t, lo, hi);
  }

  /** Membership flags of a list of states. */
  method Flags(ids: seq<int>, n: nat) returns (flags: seq<bool>)
    requires Below(ids, n)
    ensures |flags| == n && forall q: nat :: q < n ==> (flags[q] <==> q in ids)
  {
    flags := seq(n, _ => false);
    for k := 0 to |ids|
      invariant |flags| == n && forall q: nat :: q < n ==> (flags[q] <==> q in ids[..k])
    {
      flags := flags[ids[k] := true];
    }
    assert ids[..|ids|] == ids;
  }

  class RegexNfa {
    var states: States
    var start: nat
    var accept: nat
    var compiled: bool
    var src: Text
    var pos: nat
    var error: bool
    /** What was compiled last. */
    ghost var pattern: Text

    constructor ()
      ensures Valid() && !compiled
    {
      states, start, accept, compiled, src, pos, error := [], 0, 0, false, [], 0, false;
    }

    method NewState() returns (id: nat)
      requires Unmarked(states)
      modifies `states
      ensures Unmarked(states) && states == Grow(old(states)) && id == |old(states)|
      ensures StaysFilled(old(states), states, true)
    {
      id := |states|;
      GrowOk(states);
      if Filled(states) {
        GrowFilled(states);
      }
      states := states + [State([], false)];
    }

    method AddEdge(from: nat, e: Edge)
      requires Unmarked(states) && from < |states| && e.to < |states|
      modifies `states
      ensures Unmarked(states) && states == Link(old(states), from, e)
      ensures StaysFilled(old(states), states, e.Free? || HasByte(e.table))
    {
      LinkOk(states, from, e);
      if Filled(states) && (e.Free? || HasByte(e.table)) {
        LinkFilled(states, from, e);
      }
      states := states[from := State(states[from].edges + [e], states[from].accepting)];
    }

    /** Two new states joined by one edge. */
    method AddStep(free: bool, t: Table) returns (f: Frag, ghost own: set<nat>)
      requires Unmarked(states)
      modifies `states
      ensures Built(old(states), states, own, f, if free then Unit<byte>() else TableLang(t))
      ensures StaysFilled(old(states), states, free || HasByte(t))
    {
      hide Open, Unmarked, Filled, HasByte;
      ghost var before := states;
      var s := NewState();
      var a := NewState();
      var e := if free then Free(a) else On(a, t);
      OpenEdge(before, e);
      AddEdge(s, e);
      f, own := Frag(s, a), {s, a};
    }

    /** One member of a class. */
    method ParseMember(bits: Table) returns (ok: bool, t: Table)
      requires pos < |src|
      modifies `pos, `error
      ensures pos <= |src| && (ok ==> error == old(error))
      ensures match ReadMember(src[old(pos)..], bits)
              case Fail => !ok
              case Got(u, n) => ok && t == u && pos == old(pos) + n
    {
      hide Merge, WithRange, ShorthandTable, EscapedByte;
      ok, t := true, bits;
      var c := src[pos];
      if c == BACKSLASH {
        pos := pos + 1;
        if pos >= |src| {
          error := true;
          return false, t;
        }
        var esc := src[pos];
        pos := pos + 1;
        var short, extra := ShorthandBytes(esc);
        if short {
          t := MergeBytes(bits, extra);
        } else {
          t := bits[EscapedByte(esc, true) := true];
        }
      } else if pos + 2 < |src| && src[pos + 1] == DASH && src[pos + 2] != CLOSE_BRACKET {
        var hi := src[pos + 2];
        pos := pos + 3;
        if c > hi {
          error := true;
          return false, t;
        }
        t := RangeBytes(bits, c, hi);
      } else {
        t := bits[c := true];
        pos := pos + 1;
      }
    }

    /** The members of a class, then its closing bracket. */
    method ParseMembers() returns (ok: bool, t: Table)
      requires pos <= |src|
      modifies `pos, `error
      ensures pos <= |src| && (ok ==> error == old(error))
      ensures match ReadMembers(src[old(pos)..], NoBytes(), false)
              case Fail => !ok
              case Got(u, n) => ok && t == u && pos == old(pos) + n
    {
      hide ReadMember, ReadMembers, NoBytes;
      ghost var start := pos;
      var any := false;
      ok, t := true, NoBytes();
      LaterNone(ReadMembers(src[start..], t, any));
      while pos < |src| && src[pos] != CLOSE_BRACKET
        invariant start <= pos <= |src| && error == old(error)
        invariant ReadMembers(src[start..], NoBytes(), false) == Later(pos - start, ReadMembers(src[pos..], t, any))
        decreases |src| - pos
      {
        ghost var here := pos;
        MembersOnce(src[pos..], t, any);
        ok, t := ParseMember(t);
        if !ok {
          return;
        }
        Cut(src, here, pos);
        any := true;
      }
      MembersEnd(src[pos..], t, any);
      if pos >= |src| || !any {
        error := true;
        return false, t;
      }
      pos := pos + 1;
    }

    method ParseClass() returns (ok: bool, f: Frag, ghost own: set<nat>)
      requires pos < |src| && Unmarked(states)
      modifies `states, `pos, `error
      ensures pos <= |src| && (ok ==> error == old(error))
      ensures match ReadClass(src[old(pos)..])
              case Fail => !ok
              case Got(t, n) =>
                && ok && pos == old(pos) + n && Built(old(states), states, own, f, TableLang(t))
                && StaysFilled(old(states), states, HasByte(t))
    {
      hide ReadMembers, NoBytes, Complement, Built, Unmarked, TableLang;
      f, own := Frag(0, 0), {};
      ghost var start := pos;
      pos := pos + 1;
      var negate := pos < |src| && src[pos] == CARET;
      if negate {
        pos := pos + 1;
      }
      Cut(src, start, pos);
      var t;
      ok, t := ParseMembers();
      if !ok {
        return;
      }
      if negate {
        t := FlipBytes(t);
      }
      f, own := AddStep(false, t);
    }

    /** An atom of one byte, or an anchor, which reads nothing. */
    method ParseSingle() returns (ok: bool, f: Frag, ghost own: set<nat>)
      requires pos < |src| && Unmarked(states) && src[pos] != OPEN_PAREN && src[pos] != OPEN_BRACKET
      modifies `states, `pos, `error
      ensures pos <= |src| && (ok ==> error == old(error))
      ensures match ReadAtom(src[old(pos)..])
              case Fail => !ok
              case Got(r, n) =>
                && ok && pos == old(pos) + n && Built(old(states), states, own, f, RxLang(r))
                && StaysFilled(old(states), states, RxFilled(r))
    {
      hide ReadAlt, ReadClass, NoBytes, ShorthandTable, EscapedByte, Built, Unmarked, TableLang;
      ok, f, own := true, Frag(0, 0), {};
      var c := src[pos];
      if c == CLOSE_PAREN || c == BAR {
        error := true;
        return false, f, own;
      }
      var t := NoBytes();
      var anchor := false;
      pos := pos + 1;
      if c == DOT {
        t := DotBytes();
      } else if c == BACKSLASH {
        if pos >= |src| {
          error := true;
          return false, f, own;
        }
        var esc := src[pos];
        pos := pos + 1;
        var short, named := ShorthandBytes(esc);
        t := if short then named else t[EscapedByte(esc, false) := true];
      } else if c == CARET || c == DOLLAR {
        anchor := true;
      } else {
        t := t[c := true];
      }
      f, own := AddStep(anchor, t);
    }

    method ParseAtom() returns (ok: bool, f: Frag, ghost own: set<nat>)
      requires pos <= |src| && !error && Unmarked(states)
      modifies `states, `pos, `src, `error
      ensures src == old(src) && pos <= |src| && (ok ==> !error)
      ensures match ReadAtom(src[old(pos)..])
              case Fail => !ok
              case Got(r, n) =>
                && ok && pos == old(pos) + n && Built(old(states), states, own, f, RxLang(r))
                && StaysFilled(old(states), states, RxFilled(r))
      decreases |src|, |src| - pos, 0
    {
      hide ReadAlt, ReadClass, Built, Unmarked, TableLang, NoBytes, ShorthandTable, EscapedByte, AnyButNewline;
      ok, f, own := false, Frag(0, 0), {};
      if pos >= |src| {
        error := true;
        return;
      }
      if src[pos] == OPEN_PAREN {
        ok, f, own := ParseGroup();
      } else if src[pos] == OPEN_BRACKET {
        ok, f, own := ParseClass();
      } else {
        ok, f, own := ParseSingle();
      }
    }

    method ParseGroup() returns (ok: bool, f: Frag, ghost own: set<nat>)
      requires pos < |src| && src[pos] == OPEN_PAREN && !error && Unmarked(states)
      modifies `states, `pos, `src, `error
      ensures src == old(src) && pos <= |src| && (ok ==> !error)
      ensures match ReadAtom(src[old(pos)..])
              case Fail => !ok
              case Got(r, n) =>
                && ok && pos == old(pos) + n && Built(old(states), states, own, f, RxLang(r))
                && StaysFilled(old(states), states, RxFilled(r))
      decreases |src|, |src| - pos - 1, 4
    {
      hide ReadAlt, ReadAtom, Built, Unmarked, Filled;
      ghost var start := pos;
      pos := pos + 1;
      if pos + 1 < |src| && src[pos] == QUESTION && src[pos + 1] == COLON {
        pos := pos + 2;
      }
      GroupReads(src, start, pos);
      ok, f, own := ParseAlt();
      if !ok {
        return;
      }
      if pos >= |src| || src[pos] != CLOSE_PAREN {
        error := true;
        return false, f, own;
      }
      pos := pos + 1;
    }

    /** A run of decimal digits and the number it spells. */
    method ScanInt() returns (any: bool, value: nat)
      requires pos <= |src|
      modifies `pos
      ensures var n := DigitsLen(src[old(pos)..]);
              pos == old(pos) + n && any == (n > 0) && value == Number(src[old(pos)..][..n])
    {
      ghost var start := pos;
      any, value := false, 0;
      while pos < |src| && IsDigit(src[pos])
        invariant start <= pos <= |src| && any == (pos > start)
        invariant DigitsLen(src[start..]) == pos - start + DigitsLen(src[pos..])
        invariant value == Number(src[start..][..pos - start])
        decreases |src| - pos
      {
        assert src[pos..][1..] == src[pos + 1..];
        assert src[start..][..pos - start + 1][..pos - start] == src[start..][..pos - start];
        value := value * 10 + DigitValue(src[pos]);
        any, pos := true, pos + 1;
      }
    }

    /** The bounds of a counted quantifier; a brace that opens none is left unread. */
    method ParseBraces() returns (ok: bool, n: nat, m: int)
      requires pos < |src|
      modifies `pos
      ensures pos <= |src|
      ensures match ReadBraces(src[old(pos)..])
              case NoQuant => !ok && pos == old(pos)
              case Quant(lo, hi, len) => ok && n == lo && AtLeast(n, m) == hi && pos == old(pos) + len
    {
      hide DigitsLen, Number, ReadBraces;
      var save := pos;
      pos := pos + 1;
      m := -1;
      ok, n := ScanInt();
      ghost var mid := pos;
      BracesReads(src, save, mid, n);
      var comma := pos < |src| && src[pos] == COMMA;
      if comma {
        pos := pos + 1;
        var bounded, mm := ScanInt();
        if bounded {
          m := mm;
        }
        if ok {
          BracesReadsComma(src, save, mid, pos, n, m);
        }
      }
      if !ok || pos >= |src| || src[pos] != CLOSE_BRACE {
        pos := save;
        return false, n, m;
      }
      pos := pos + 1;
      if !comma {
        m := n;
      }
    }

    /** A fresh copy of an atom, by reading its own text again. */
    method CloneAtom(atomSrc: Text, ghost l: Lang<byte>) returns (f: Frag, ghost own: set<nat>)
      requires pos <= |src| && !error && Unmarked(states)
      requires ReadRepeat(atomSrc).Got? && RxLang(ReadRepeat(atomSrc).value) == l
      modifies `states, `pos, `src, `error
      ensures src == old(src) && pos == old(pos) && !error
      ensures Built(old(states), states, own, f, l) && StaysFilled(old(states), states, RxFilled(ReadRepeat(atomSrc).value))
      decreases |atomSrc|, |atomSrc|, 2
    {
      hide ReadRepeat, RxLang, Built, Unmarked, Filled;
      var prevSrc, prevPos, prevErr := src, pos, error;
      src, pos, error := atomSrc, 0, false;
      assert src[0..] == atomSrc;
      var ok;
      ok, f, own := ParseRepeat();
      src, pos, error := prevSrc, prevPos, prevErr;
    }

    /** The copies a counted quantifier demands; the first is the atom already built. */
    method MandatoryCopies(atomSrc: Text, n: nat, atom: Frag, ghost m0: States, ghost atomOwn: set<nat>, ghost l: Lang<byte>)
      returns (f: Frag, ghost own: set<nat>)
      requires pos <= |src| && !error && Built(m0, states, atomOwn, atom, l)
      requires ReadRepeat(atomSrc).Got? && RxLang(ReadRepeat(atomSrc).value) == l
      modifies `states, `pos, `src, `error
      ensures src == old(src) && pos == old(pos) && !error
      ensures Built(m0, states, own, f, Pow(l, n))
      ensures StaysFilled(old(states), states, RxFilled(ReadRepeat(atomSrc).value))
      decreases |atomSrc|, |atomSrc|, 3
    {
      hide ReadRepeat, RxLang, Open, Unmarked, Filled;
      ghost var before := states;
      var s := NewState();
      OpenState(before);
      f, own := Frag(s, s), {s};
      var built := 0;
      if n >= 1 {
        BuiltKept(m0, before, states, atomOwn, atom, l);
        Append(states, own, s, s, Unit<byte>(), atomOwn, atom.start, atom.accept, l);
        AddEdge(s, Free(atom.start));
        f, own := Frag(s, atom.accept), own + atomOwn;
        built := 1;
        UnitCat(l);
        CatUnit(l);
      }
      while built < n
        invariant built <= n && src == old(src) && pos == old(pos) && !error
        invariant Built(m0, states, own, f, Pow(l, built)) && StaysFilled(old(states), states, RxFilled(ReadRepeat(atomSrc).value))
      {
        ghost var m1, o1, f1 := states, own, f;
        var g, o := CloneAtom(atomSrc, l);
        BuiltAppend(m0, m1, states, o1, f1, Pow(l, built), o, g, l);
        AddEdge(f.accept, Free(g.start));
        f, own := Frag(f.start, g.accept), own + o;
        PowSnoc(l, built);
        built := built + 1;
      }
    }

    /** After the demanded copies, any number of further ones. */
    method UnboundedCopies(atomSrc: Text, f: Frag, ghost m0: States, ghost own0: set<nat>, ghost l0: Lang<byte>, ghost l: Lang<byte>)
      returns (a: nat, ghost own: set<nat>)
      requires pos <= |src| && !error && Built(m0, states, own0, f, l0)
      requires ReadRepeat(atomSrc).Got? && RxLang(ReadRepeat(atomSrc).value) == l
      modifies `states, `pos, `src, `error
      ensures src == old(src) && pos == old(pos) && !error
      ensures Built(m0, states, own, Frag(f.start, a), Languages.Cat(l0, Repeat(l, 0, -1)))
      ensures StaysFilled(old(states), states, RxFilled(ReadRepeat(atomSrc).value))
      decreases |atomSrc|, |atomSrc|, 3
    {
      hide ReadRepeat, RxLang, Open, Unmarked, Filled;
      ghost var m1 := states;
      a := NewState();
      ghost var m2 := states;
      var g, o := CloneAtom(atomSrc, l);
      ghost var m3 := states;
      var ls := NewState();
      BuiltKept(m0, m1, states, own0, f, l0);
      BuiltKept(m2, m3, states, o, g, l);
      assert states[a] == m2[a];
      OpenUnbounded(states, own0, f.start, f.accept, l0, o, g.start, g.accept, l, ls, a);
      AddEdge(f.accept, Free(ls));
      AddEdge(ls, Free(g.start));
      AddEdge(ls, Free(a));
      AddEdge(g.accept, Free(g.start));
      AddEdge(g.accept, Free(a));
      own := own0 + (o + {ls, a});
    }

    /** After the demanded copies, up to `m - n` further ones, each of which may end it. */
    method OptionalCopies(atomSrc: Text, n: nat, m: nat, f: Frag, ghost m0: States, ghost own0: set<nat>, ghost l0: Lang<byte>, ghost l: Lang<byte>)
      returns (a: nat, ghost own: set<nat>)
      requires pos <= |src| && !error && Built(m0, states, own0, f, l0)
      requires ReadRepeat(atomSrc).Got? && RxLang(ReadRepeat(atomSrc).value) == l
      modifies `states, `pos, `src, `error
      ensures src == old(src) && pos == old(pos) && !error
      ensures Built(m0, states, own, Frag(f.start, a), Languages.Cat(l0, Repeat(l, 0, if m < n then 0 else m - n)))
      ensures StaysFilled(old(states), states, RxFilled(ReadRepeat(atomSrc).value))
      decreases |atomSrc|, |atomSrc|, 3
    {
      hide ReadRepeat, RxLang, Open, OpenOptions, Unmarked, AllOwn, Filled;
      ghost var m1 := states;
      a := NewState();
      BuiltKept(m0, m1, states, own0, f, l0);
      var cur, i := f.accept, n;
      ghost var pieces: seq<Piece> := [];
      own := own0 + {a};
      OpenOptionsStart(states, own0, f.start, f.accept, l0, l, a);
      while i < m
        invariant n <= i && |pieces| == i - n && (i == n || i <= m)
        invariant src == old(src) && pos == old(pos) && !error
        invariant m0 <= states && Unmarked(states) && MadeSince(own, |m0|, states)
        invariant own == own0 + AllOwn(pieces) + {a} && cur == ExitAt(f.accept, pieces, |pieces|) && cur in own
        invariant StaysFilled(old(states), states, RxFilled(ReadRepeat(atomSrc).value))
        invariant OpenOptions(states, own0, f.start, f.accept, l0, pieces, l, a)
      {
        ghost var before := states;
        var g, o := CloneAtom(atomSrc, l);
        ghost var p := Piece(o, g.start, g.accept);
        OpenOptionsKept(before, states, own0, f.start, f.accept, l0, pieces, l, a);
        assert own !! o;
        OpenOptionsStep(states, own0, f.start, f.accept, l0, pieces, l, a, p);
        AddEdge(cur, Free(g.start));
        AddEdge(cur, Free(a));
        cur, i := g.accept, i + 1;
        pieces, own := pieces + [p], own + o;
      }
      CloseOptions(states, own0, f.start, f.accept, l0, pieces, l, a);
      AddEdge(cur, Free(a));
    }

    method ParseCounted(atomSrc: Text, n: nat, m: int, atom: Frag, ghost m0: States, ghost atomOwn: set<nat>, ghost l: Lang<byte>)
      returns (f: Frag, ghost own: set<nat>)
      requires pos <= |src| && !error && Built(m0, states, atomOwn, atom, l)
      requires ReadRepeat(atomSrc).Got? && RxLang(ReadRepeat(atomSrc).value) == l
      modifies `states, `pos, `src, `error
      ensures src == old(src) && pos == old(pos) && !error
      ensures Built(m0, states, own, f, Repeat(l, n, AtLeast(n, m)))
      ensures StaysFilled(old(states), states, RxFilled(ReadRepeat(atomSrc).value))
      decreases |atomSrc|, |atomSrc|, 4
    {
      hide ReadRepeat, RxLang, Built, Filled;
      f, own := MandatoryCopies(atomSrc, n, atom, m0, atomOwn, l);
      var a;
      if m < 0 {
        a, own := UnboundedCopies(atomSrc, f, m0, own, Pow(l, n), l);
        RepeatSplit(l, n, -1);
      } else {
        a, own := OptionalCopies(atomSrc, n, m, f, m0, own, Pow(l, n), l);
        RepeatSplit(l, n, if m < n then 0 else m - n);
      }
      f := Frag(f.start, a);
    }

    /** The states and edges of `*`, `+` or `?`. */
    method AddQuantifier(q: byte, atom: Frag, ghost m0: States, ghost atomOwn: set<nat>, ghost l: Lang<byte>)
      returns (f: Frag, ghost own: set<nat>)
      requires q in {STAR, PLUS, QUESTION} && Built(m0, states, atomOwn, atom, l)
      modifies `states
      ensures Built(m0, states, own, f, Repeat(l, if q == PLUS then 1 else 0, if q == QUESTION then 1 else -1))
      ensures StaysFilled(old(states), states, true)
    {
      hide Open, Unmarked, Filled;
      ghost var m1 := states;
      var s := NewState();
      var a := NewState();
      BuiltKept(m0, m1, states, atomOwn, atom, l);
      OpenQuantified(states, atomOwn, atom.start, atom.accept, l, s, a, q != PLUS, q != QUESTION);
      AddEdge(s, Free(atom.start));
      if q != PLUS {
        AddEdge(s, Free(a));
      }
      if q != QUESTION {
        AddEdge(atom.accept, Free(atom.start));
      }
      AddEdge(atom.accept, Free(a));
      f, own := Frag(s, a), atomOwn + {s, a};
    }

    method ParseRepeat() returns (ok: bool, f: Frag, ghost own: set<nat>)
      requires pos <= |src| && !error && Unmarked(states)
      modifies `states, `pos, `src, `error
      ensures src == old(src) && pos <= |src| && (ok ==> !error)
      ensures match ReadRepeat(src[old(pos)..])
              case Fail => !ok
              case Got(r, n) =>
                && ok && pos == old(pos) + n && Built(old(states), states, own, f, RxLang(r))
                && StaysFilled(old(states), states, RxFilled(r))
      decreases |src|, |src| - pos, 1
    {
      hide ReadAtom, ReadBraces, Built, Unmarked, Filled;
      ghost var m0 := states;
      var begin := pos;
      ok, f, own := ParseAtom();
      if !ok {
        return;
      }
      ghost var r := ReadAtom(src[begin..]).value;
      RepeatReads(src, begin, pos, r);
      if pos >= |src| {
        return;
      }
      var q := src[pos];
      if q == STAR || q == PLUS || q == QUESTION {
        pos := pos + 1;
        f, own := AddQuantifier(q, f, m0, own, RxLang(r));
      } else if q == OPEN_BRACE {
        var save := pos;
        var counted, n, m := ParseBraces();
        if counted {
          var atomSrc := src[begin..save];
          ReparseIsFaithful(src[begin..]);
          assert src[begin..][..save - begin] == atomSrc;
          f, own := ParseCounted(atomSrc, n, m, f, m0, own, RxLang(r));
        }
      }
    }

    method ParseConcat() returns (ok: bool, f: Frag, ghost own: set<nat>)
      requires pos <= |src| && !error && Unmarked(states)
      modifies `states, `pos, `src, `error
      ensures src == old(src) && pos <= |src| && (ok ==> !error)
      ensures match ReadParts(src[old(pos)..])
              case Fail => !ok
              case Got(parts, n) =>
                && ok && pos == old(pos) + n && Built(old(states), states, own, f, PartsLang(parts))
                && StaysFilled(old(states), states, AllFilled(parts))
      decreases |src|, |src| - pos, 2
    {
      hide ReadRepeat, ReadParts, RxLang, PartsLang, Unit, Languages.Cat, Built, Unmarked, Open, Filled;
      ghost var m0, start := states, pos;
      var s := NewState();
      f, own := Frag(s, s), {s};
      BuiltState(m0);
      assert Built(m0, states, own, f, Unit<byte>());
      ok := true;
      var any := false;
      ghost var parts: seq<Rx> := [];
      NoParts(parts);
      ShiftNone(ReadParts(src[start..]));
      while pos < |src| && src[pos] != BAR && src[pos] != CLOSE_PAREN
        invariant src == old(src) && start <= pos <= |src| && !error && any == (parts != [])
        invariant Built(m0, states, own, f, PartsLang(parts)) && StaysFilled(old(states), states, AllFilled(parts))
        invariant ReadParts(src[start..]) == Shift(parts, pos - start, ReadParts(src[pos..]))
        invariant parts == [] ==> f == Frag(s, s)
        decreases |src| - pos
      {
        ghost var m1, here := states, pos;
        BuiltOk(m0, states, own, f, PartsLang(parts));
        var g;
        ghost var o;
        ok, g, o := ParseRepeat();
        if !ok {
          PartsFail(src, here);
          return;
        }
        ghost var r := ReadRepeat(src[here..]).value;
        PartsStep(src, start, here, pos, parts, r);
        BuiltAppend(m0, m1, states, own, f, PartsLang(parts), o, g, RxLang(r));
        BuiltOk(m1, states, o, g, RxLang(r));
        AddEdge(f.accept, Free(g.start));
        f, own := Frag(f.start, g.accept), own + o;
        PartsLangSnoc(parts, r);
        StaysFilledAdd(parts, r);
        parts, any := parts + [r], true;
      }
      PartsEnd(src, pos);
      assert parts + [] == parts;
      if !any {
        ghost var m1 := states;
        BuiltOk(m0, states, own, f, PartsLang(parts));
        var a := NewState();
        BuiltState(m1);
        NoParts(parts);
        BuiltAppend(m0, m1, states, own, f, PartsLang(parts), {a}, Frag(a, a), Unit<byte>());
        AddEdge(s, Free(a));
        f, own := Frag(s, a), own + {a};
      }
    }

    method ParseAlt() returns (ok: bool, f: Frag, ghost own: set<nat>)
      requires pos <= |src| && !error && Unmarked(states)
      modifies `states, `pos, `src, `error
      ensures src == old(src) && pos <= |src| && (ok ==> !error)
      ensures match ReadAlt(src[old(pos)..])
              case Fail => !ok
              case Got(r, n) =>
                && ok && pos == old(pos) + n && Built(old(states), states, own, f, RxLang(r))
                && StaysFilled(old(states), states, RxFilled(r))
      decreases |src|, |src| - pos, 3
    {
      hide ReadAlt, ReadParts, ReadBranches, Built, Unmarked, Open, Filled;
      ghost var m0, start := states, pos;
      ok, f, own := ParseConcat();
      if !ok {
        AltFail(src, start);
        return;
      }
      ghost var parts := ReadParts(src[start..]).value;
      AltReads(src, start, pos, parts);
      if pos >= |src| || src[pos] != BAR {
        BranchesEnd(src, pos);
        return;
      }
      ghost var rest := pos;
      ok, f, own := ParseBranches(f, m0, own, parts);
      if ok {
        UnionFilled(parts, ReadBranches(src[rest..]).value);
      }
    }

    /** A fork and a join around the first branch. */
    method StartFork(first: Frag, ghost m0: States, ghost own: set<nat>, ghost parts: seq<Rx>) returns (s: nat, a: nat)
      requires Built(m0, states, own, first, PartsLang(parts))
      modifies `states
      ensures m0 <= states && Unmarked(states) && MadeSince(own + {s, a}, |m0|, states) && s != a
      ensures OpenForks(states, [Piece(own, first.start, first.accept)], [Cat(parts)], s, a)
      ensures AllOwn([Piece(own, first.start, first.accept)]) == own && StaysFilled(old(states), states, true)
    {
      hide Open, OpenForks, AllOwn, Unmarked, Filled, PartsLang;
      ghost var m1 := states;
      s := NewState();
      a := NewState();
      BuiltKept(m0, m1, states, own, first, PartsLang(parts));
      assert PartsLang(parts) == RxLang(Cat(parts));
      FirstFork(states, Piece(own, first.start, first.accept), Cat(parts), s, a);
      AddEdge(s, Free(first.start));
      AddEdge(first.accept, Free(a));
    }

    /** Hangs one more branch between the fork and the join. */
    method JoinBranch(s: nat, a: nat, g: Frag, ghost m0: States, ghost before: States, ghost o: set<nat>, ghost own: set<nat>,
                      ghost pieces: seq<Piece>, ghost rs: seq<Rx>, ghost r: Rx)
      requires m0 <= before && OpenForks(before, pieces, rs, s, a) && Built(before, states, o, g, RxLang(r))
      requires own == AllOwn(pieces) + {s, a} && MadeSince(own, |m0|, before)
      modifies `states
      ensures m0 <= states && Unmarked(states) && MadeSince(own + o, |m0|, states)
      ensures OpenForks(states, pieces + [Piece(o, g.start, g.accept)], rs + [r], s, a)
      ensures AllOwn(pieces + [Piece(o, g.start, g.accept)]) == AllOwn(pieces) + o
      ensures StaysFilled(old(states), states, true)
    {
      hide Open, OpenForks, AllOwn, Unmarked, Filled, RxLang;
      OpenForksKept(before, states, pieces, rs, s, a);
      assert own !! o;
      OpenForksStep(states, pieces, rs, s, a, Piece(o, g.start, g.accept), r);
      assert s in own && a in own;
      AddEdge(s, Free(g.start));
      AddEdge(g.accept, Free(a));
    }

    /** The alternatives after the first, which is already built. */
    method ParseBranches(first: Frag, ghost m0: States, ghost firstOwn: set<nat>, ghost parts: seq<Rx>)
      returns (ok: bool, f: Frag, ghost own: set<nat>)
      requires pos < |src| && src[pos] == BAR && !error && Built(m0, states, firstOwn, first, PartsLang(parts))
      modifies `states, `pos, `src, `error
      ensures src == old(src) && pos <= |src| && (ok ==> !error)
      ensures match ReadBranches(src[old(pos)..])
              case Fail => !ok
              case Got(rs, n) =>
                && ok && pos == old(pos) + n && rs != [] && Built(m0, states, own, f, BranchesLang([Cat(parts)] + rs))
                && StaysFilled(old(states), states, AllFilled(rs))
      decreases |src|, |src| - pos, 2
    {
      hide ReadParts, ReadBranches, Unmarked, Open, OpenForks, AllOwn, Filled, MadeSince, PartsLang, BranchesLang;
      ghost var start := pos;
      var s, a := StartFork(first, m0, firstOwn, parts);
      ghost var pieces, rs: seq<Rx> := [Piece(firstOwn, first.start, first.accept)], [];
      assert [Cat(parts)] + rs == [Cat(parts)];
      ok, f, own := true, Frag(s, a), firstOwn + {s, a};
      ShiftNone(ReadBranches(src[start..]));
      while pos < |src| && src[pos] == BAR
        invariant src == old(src) && start <= pos <= |src| && !error && (pos > start ==> rs != [])
        invariant m0 <= states && Unmarked(states) && MadeSince(own, |m0|, states)
        invariant own == AllOwn(pieces) + {s, a} && s != a
        invariant StaysFilled(old(states), states, AllFilled(rs))
        invariant OpenForks(states, pieces, [Cat(parts)] + rs, s, a)
        invariant ReadBranches(src[start..]) == Shift(rs, pos - start, ReadBranches(src[pos..]))
        decreases |src| - pos
      {
        ghost var before, here := states, pos;
        pos := pos + 1;
        var g;
        ghost var o;
        ok, g, o := ParseConcat();
        if !ok {
          BranchesFail(src, here);
          return;
        }
        ghost var more := ReadParts(src[here + 1..]).value;
        BranchesStep(src, start, here, pos, rs, more);
        ghost var p := Piece(o, g.start, g.accept);
        JoinBranch(s, a, g, m0, before, o, own, pieces, [Cat(parts)] + rs, Cat(more));
        StaysFilledAdd(rs, Cat(more));
        assert [Cat(parts)] + (rs + [Cat(more)]) == [Cat(parts)] + rs + [Cat(more)];
        pieces, rs, own := pieces + [p], rs + [Cat(more)], own + o;
      }
      BranchesEnd(src, pos);
      assert rs + [] == rs;
      ForksOpen(states, pieces, [Cat(parts)] + rs, s, a);
    }

    ghost predicate Valid()
      reads this
    {
      compiled ==>
        && EdgesOk(states) && start < |states| && accept < |states|
        && (forall q :: 0 <= q < |states| ==> (states[q].accepting <==> q == accept))
        && Compiles(pattern) && Recognises(states, start, accept, RxLang(ReadAlt(pattern).value))
        && Onward(states, start, accept) && StaysFilled([], states, RxFilled(ReadAlt(pattern).value))
    }

    method Compile(text: Text) returns (ok: bool)
      modifies this
      ensures Valid() && ok == compiled == Compiles(text) && (ok ==> pattern == text)
    {
      hide ReadAlt, RxLang, Open, Recognises;
      states, compiled, error, src, pos := [], false, false, text, 0;
      assert src[0..] == text;
      var f;
      ghost var own;
      ok, f, own := ParseAlt();
      if !ok {
        return;
      }
      if pos != |text| || error {
        return false;
      }
      src := [];
      start, accept, pattern := f.start, f.accept, text;
      OpenRecognises(states, own, f.start, f.accept, RxLang(ReadAlt(text).value));
      MarkedRecognises(states, f.start, f.accept, RxLang(ReadAlt(text).value));
      OpenGoesOn(states, own, f.start, f.accept, RxLang(ReadAlt(text).value));
      states := states[accept := State(states[accept].edges, true)];
      compiled := true;
    }

    /** The free edges of one state. */
    method FollowFree(s: nat, out0: seq<int>, flags0: seq<bool>, stack0: seq<int>, ghost x: iset<nat>)
      returns (out: seq<int>, flags: seq<bool>, stack: seq<int>)
      requires EdgesOk(states) && s < |states| && s in out0 && Flagged(states, out0, flags0) && Below(stack0, |states|)
      requires Members(stack0) <= Members(out0) && Closing(states, x, Members(out0), Members(stack0) + iset{s})
      ensures Flagged(states, out, flags) && Below(stack, |states|) && Members(stack) <= Members(out)
      ensures Closing(states, x, Members(out), Members(stack))
      ensures Unset(flags) <= Unset(flags0) && (Unset(flags) == Unset(flags0) ==> stack == stack0)
      ensures out0 <= out && (Distinct(out0) ==> Distinct(out))
    {
      hide Closing, FreeFrom;
      out, flags, stack := out0, flags0, stack0;
      for i := 0 to |states[s].edges|
        invariant Unset(flags) <= Unset(flags0) && (Unset(flags) == Unset(flags0) ==> stack == stack0)
        invariant out0 <= out && (Distinct(out0) ==> Distinct(out))
        invariant Flagged(states, out, flags) && Below(stack, |states|) && Members(stack) <= Members(out)
        invariant Following(states, x, Members(out), Members(stack), s, i)
      {
        var e := states[s].edges[i];
        if e.Free? && !flags[e.to] {
          FollowNew(states, x, Members(out), Members(stack), s, i);
          FlagNew(states, out, flags, e.to);
          assert Members(stack + [e.to]) == Members(stack) + iset{e.to};
          out, flags, stack := out + [e.to], flags[e.to := true], stack + [e.to];
        }
      }
      FollowedAll(states, x, Members(out), Members(stack), s);
    }

    /** Duplicates of the given list stay, and every other state is added once. */
    method EpsilonClosure(ids: seq<int>) returns (out: seq<int>)
      requires EdgesOk(states) && Below(ids, |states|)
      ensures Ordered(out) && Below(out, |states|) && Members(out) == FreeFrom(states, Members(ids))
      ensures multiset(ids) <= multiset(out) && (Distinct(ids) ==> Increasing(out))
    {
      hide Closing, FreeFrom, EdgesOk;
      ghost var x := Members(ids);
      var stack := ids;
      var flags := Flags(ids, |states|);
      out := ids;
      ClosingStart(states, x);
      while stack != []
        invariant Flagged(states, out, flags) && Below(stack, |states|) && Members(stack) <= Members(out)
        invariant Closing(states, x, Members(out), Members(stack))
        invariant ids <= out && (Distinct(ids) ==> Distinct(out))
        decreases Unset(flags), |stack|
      {
        var s, rest := stack[|stack| - 1], stack[..|stack| - 1];
        assert stack == rest + [s];
        assert Members(stack) == Members(rest) + iset{s};
        assert s in Members(stack);
        out, flags, stack := FollowFree(s, out, flags, rest, x);
      }
      assert Members(stack) == iset{};
      ClosingDone(states, x, Members(out));
      var found := out;
      out := SortIds(found);
      SameCounts(found, out);
      assert Members(out) == Members(found);
      SameBelow(found, out, |states|);
      assert found == ids + found[|ids|..];
      if Distinct(found) {
        DistinctIncreases(found, out);
      }
    }

    method StartSet() returns (out: seq<int>)
      requires Valid()
      ensures Increasing(out) && Below(out, |states|)
      ensures Members(out) == if compiled then Reached(states, start, []) else iset{}
    {
      out := [];
      if !compiled {
        return;
      }
      out := [start];
      assert Members(out) == iset{start};
      out := EpsilonClosure(out);
      StartIsReached(states, start);
    }

    method Step(ids: seq<int>, c: byte) returns (next: seq<int>)
      requires Valid() && Below(ids, |states|)
      ensures Increasing(next) && Below(next, |states|)
      ensures Members(next) == if compiled then StepSet(states, Members(ids), c) else iset{}
    {
      next := [];
      if !compiled {
        return;
      }
      hide Recognises, Compiles, FreeFrom, AfterByte, Seen;
      var flags := Flags([], |states|);
      SeenNone(states, ids, c);
      for k := 0 to |ids|
        invariant Flagged(states, next, flags) && Distinct(next) && Members(next) == Seen(states, ids, k, 0, c)
      {
        for i := 0 to |states[ids[k]].edges|
          invariant Flagged(states, next, flags) && Distinct(next) && Members(next) == Seen(states, ids, k, i, c)
        {
          var e := states[ids[k]].edges[i];
          SeenEdge(states, ids, k, i, c);
          if e.On? && e.table[c] && !flags[e.to] {
            FlagNew(states, next, flags, e.to);
            next, flags := next + [e.to], flags[e.to := true];
          }
        }
        SeenRow(states, ids, k, c);
      }
      SeenAll(states, ids, c);
      next := EpsilonClosure(next);
    }

    method Accepts(ids: seq<int>) returns (ok: bool)
      requires Valid() && Below(ids, |states|)
      ensures ok <==> exists i :: 0 <= i < |ids| && states[ids[i]].accepting
      ensures compiled ==> (ok <==> accept in Members(ids))
    {
      for k := 0 to |ids|
        invariant forall i :: 0 <= i < k ==> !states[ids[i]].accepting
      {
        if states[ids[k]].accepting {
          return true;
        }
      }
      ok := false;
    }

    /** Feeding a whole text: the last set accepts exactly the texts of the pattern's
        language, an empty set means that no text of it starts this way, and if no class
        of the pattern is empty, any other set means that some text of it does. */
    method Run(text: Text) returns (ids: seq<int>)
      requires Valid() && compiled
      ensures Below(ids, |states|)
      ensures accept in Members(ids) <==> text in RxLang(ReadAlt(pattern).value)
      ensures ids == [] ==> forall v :: text + v !in RxLang(ReadAlt(pattern).value)
      ensures ids != [] && RxFilled(ReadAlt(pattern).value) ==> exists v :: text + v in RxLang(ReadAlt(pattern).value)
    {
      hide ReadAlt, RxLang, StepSet, EdgesOk;
      ids := StartSet();
      var k := 0;
      while k < |text| && (k == 0 || ids != [])
        invariant k <= |text| && Below(ids, |states|) && Members(ids) == Reached(states, start, text[..k])
      {
        ids := Step(ids, text[k]);
        StepIsReached(states, start, text[..k], text[k]);
        assert text[..k] + [text[k]] == text[..k + 1];
        k := k + 1;
      }
      if ids == [] {
        forall v
          ensures text + v !in RxLang(ReadAlt(pattern).value)
        {
          DeadEnd(states, start, accept, text[..k], text[k..] + v);
          assert text[..k] + (text[k..] + v) == text + v;
        }
        assert text + [] == text;
      } else {
        assert text[..k] == text;
        if RxFilled(ReadAlt(pattern).value) {
          EmptyIsFilled();
          assert ids[0] in Members(ids);
          var v := CanGoOn(states, start, accept, text, ids[0]);
          assert text + v in RxLang(ReadAlt(pattern).value);
        }
      }
    }
  }
}
