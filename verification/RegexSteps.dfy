/** How the readings of a pattern unfold, one element at a time, and the pure facts about
    counted copies the pattern compiler relies on. */
module RegexSteps {
  import opened CharSets
  import opened Languages
  import opened Reading
  import opened RegexSyntax
  import opened RegexReading
  import opened RegexReparse
  import opened Nfa
  import opened Fragments
  import opened Building

  /** Entry and exit of a fragment. */
  datatype Frag = Frag(start: nat, accept: nat)

  /** Since the automaton was `m0`, only new states were touched, and some of them now form
      an open fragment that reads exactly `l`. */
  ghost predicate Built(m0: States, m: States, own: set<nat>, f: Frag, l: Lang<byte>)
  {
    && m0 <= m && Unmarked(m) && MadeSince(own, |m0|, m) && f.start in own && f.accept in own
    && Open(m, own, f.start, f.accept, l)
  }

  lemma BuiltKept(m0: States, m: States, m': States, own: set<nat>, f: Frag, l: Lang<byte>)
    requires Built(m0, m, own, f, l) && m <= m' && Unmarked(m')
    ensures Built(m0, m', own, f, l)
  {
    OpenKept(m, m', own, f.start, f.accept, l);
  }

  /** One free edge turns two fragments into their concatenation. */
  lemma BuiltAppend(m0: States, m1: States, m: States, o1: set<nat>, f1: Frag, l1: Lang<byte>,
                    o2: set<nat>, f2: Frag, l2: Lang<byte>)
    requires Built(m0, m1, o1, f1, l1) && Built(m1, m, o2, f2, l2)
    ensures f1.accept < |m| && f2.start < |m|
    ensures Built(m0, Link(m, f1.accept, Free(f2.start)), o1 + o2, Frag(f1.start, f2.accept), Languages.Cat(l1, l2))
  {
    hide Open, Unmarked;
    BuiltKept(m0, m1, m, o1, f1, l1);
    LinkOk(m, f1.accept, Free(f2.start));
    Append(m, o1, f1.start, f1.accept, l1, o2, f2.start, f2.accept, l2);
  }

  lemma BuiltState(m: States)
    requires Unmarked(m)
    ensures Built(m, Grow(m), {|m|}, Frag(|m|, |m|), Unit<byte>())
  {
    GrowOk(m);
    OpenState(m);
  }

  lemma BuiltOk(m0: States, m: States, own: set<nat>, f: Frag, l: Lang<byte>)
    requires Built(m0, m, own, f, l)
    ensures Unmarked(m) && |m0| <= f.start < |m| && |m0| <= f.accept < |m|
  {
  }

  lemma {:induction false} NoForks(m: States, s: nat, a: nat)
    requires s < |m| && a < |m| && s != a && m[s].edges == [] && m[a].edges == []
    ensures OpenForks(m, [], [], s, a)
  {
  }

  /** The first branch of an alternation. */
  lemma {:induction false} FirstFork(m: States, p: Piece, r: Rx, s: nat, a: nat)
    requires Open(m, p.own, p.entry, p.exit, RxLang(r)) && s < |m| && a < |m| && s != a
    requires s !in p.own && a !in p.own && m[s].edges == [] && m[a].edges == []
    ensures OpenForks(AddBranch(m, p, s, a), [p], [r], s, a) && AllOwn([p]) == p.own
  {
    hide OpenForks, Open;
    var ps: seq<Piece>, rs: seq<Rx> := [], [];
    NoForks(m, s, a);
    OpenForksStep(m, ps, rs, s, a, p, r);
    assert ps + [p] == [p] && rs + [r] == [r];
  }

  lemma {:induction false} ForksOpen(m: States, pieces: seq<Piece>, rs: seq<Rx>, s: nat, a: nat)
    requires OpenForks(m, pieces, rs, s, a) && rs != []
    ensures Open(m, AllOwn(pieces) + {s, a}, s, a, BranchesLang(rs))
  {
    Alternatives(m, pieces, rs, s, a);
  }

  /** Looping over a copy after a fragment. */
  lemma OpenUnbounded(m: States, own: set<nat>, s: nat, cur: nat, l0: Lang<byte>,
                      o2: set<nat>, f: nat, c: nat, l: Lang<byte>, ls: nat, a: nat)
    requires Open(m, own, s, cur, l0) && Open(m, o2, f, c, l) && own !! o2
    requires ls < |m| && a < |m| && ls != a && ls !in own && a !in own && ls !in o2 && a !in o2
    requires m[ls].edges == [] && m[a].edges == []
    ensures cur < |m| && f < |m| && c < |m|
    ensures Open(Quantified(Link(m, cur, Free(ls)), f, c, ls, a, true, true), own + (o2 + {ls, a}), s, a,
                 Languages.Cat(l0, Repeat(l, 0, -1)))
  {
    hide Flows, Embeds, Passes;
    var m1 := Quantified(m, f, c, ls, a, true, true);
    OpenQuantified(m, o2, f, c, l, ls, a, true, true);
    assert cur in own && c in o2 && f in o2;
    FragmentKept(m, m1, own, s, cur, l0);
    Append(m1, own, s, cur, l0, o2 + {ls, a}, ls, a, Repeat(l, 0, -1));
    assert Quantified(Link(m, cur, Free(ls)), f, c, ls, a, true, true) == Link(m1, cur, Free(ls));
  }

  lemma {:induction false} FilledAt(rs: seq<Rx>, i: nat)
    requires AllFilled(rs) && i < |rs|
    ensures RxFilled(rs[i])
  {
  }

  lemma {:induction false} UnionFilled(parts: seq<Rx>, rs: seq<Rx>)
    ensures RxFilled(Union([Cat(parts)] + rs)) ==> AllFilled(parts) && AllFilled(rs)
  {
    var all := [Cat(parts)] + rs;
    if AllFilled(all) {
      FilledAt(all, 0);
      forall i | 0 <= i < |rs|
        ensures RxFilled(rs[i])
      {
        FilledAt(all, i + 1);
      }
    }
  }

  // ----- readings, one element at a time -----

  lemma PartsEnd(src: Text, here: nat)
    requires here <= |src| && EndsParts(src[here..])
    ensures ReadParts(src[here..]) == Got([], 0)
  {
  }

  lemma PartsFail(src: Text, here: nat)
    requires here <= |src| && !EndsParts(src[here..]) && ReadRepeat(src[here..]).Fail?
    ensures ReadParts(src[here..]).Fail?
  {
    hide ReadRepeat;
  }

  lemma {:induction false} PartsUnfold(s: Text, n: nat, r: Rx)
    requires !EndsParts(s) && ReadRepeat(s) == Got(r, n)
    ensures ReadParts(s) ==
            match ReadParts(s[n..])
            case Fail => Fail
            case Got(rs, m) => Got([r] + rs, n + m)
  {
    hide ReadRepeat;
  }

  lemma PartsStep(src: Text, start: nat, here: nat, end: nat, parts: seq<Rx>, r: Rx)
    requires start <= here <= end <= |src| && !EndsParts(src[here..]) && ReadRepeat(src[here..]) == Got(r, end - here)
    requires ReadParts(src[start..]) == Shift(parts, here - start, ReadParts(src[here..]))
    ensures here < end
    ensures ReadParts(src[start..]) == Shift(parts + [r], end - start, ReadParts(src[end..]))
  {
    hide ReadRepeat, ReadParts;
    PartsUnfold(src[here..], end - here, r);
    Cut(src, here, end);
    ShiftStep(parts, here - start, r, end - here, ReadParts(src[end..]));
  }

  lemma BranchesEnd(src: Text, here: nat)
    requires here <= |src| && (here < |src| ==> src[here] != BAR)
    ensures ReadBranches(src[here..]) == Got([], 0)
  {
  }

  lemma BranchesFail(src: Text, here: nat)
    requires here < |src| && src[here] == BAR && ReadParts(src[here + 1..]).Fail?
    ensures ReadBranches(src[here..]).Fail?
  {
    hide ReadParts;
    Cut(src, here, here + 1);
  }

  lemma BranchesStep(src: Text, start: nat, here: nat, end: nat, rs: seq<Rx>, parts: seq<Rx>)
    requires start <= here < end <= |src| && src[here] == BAR
    requires ReadParts(src[here + 1..]) == Got(parts, end - here - 1)
    requires ReadBranches(src[start..]) == Shift(rs, here - start, ReadBranches(src[here..]))
    ensures ReadBranches(src[start..]) == Shift(rs + [Cat(parts)], end - start, ReadBranches(src[end..]))
  {
    hide ReadParts, ReadBranches;
    Cut(src, here, here + 1);
    BranchesUnfold(src[here..], end - here - 1);
    Cut(src, here, end);
    ShiftStep(rs, here - start, Cat(parts), end - here, ReadBranches(src[end..]));
  }

  lemma AltFail(src: Text, start: nat)
    requires start <= |src| && ReadParts(src[start..]).Fail?
    ensures ReadAlt(src[start..]).Fail?
  {
    hide ReadParts, ReadBranches;
  }

  /** What a whole alternation reads as, from its first branch and the others. */
  lemma AltReads(src: Text, start: nat, mid: nat, parts: seq<Rx>)
    requires start <= mid <= |src| && ReadParts(src[start..]) == Got(parts, mid - start)
    ensures ReadAlt(src[start..]) ==
            match ReadBranches(src[mid..])
            case Fail => Fail
            case Got(rs, m) => Got(if rs == [] then Cat(parts) else Union([Cat(parts)] + rs), mid - start + m)
  {
    hide ReadParts, ReadBranches;
    Cut(src, start, mid);
  }

  lemma GroupReads(src: Text, start: nat, inner: nat)
    requires start < |src| && src[start] == OPEN_PAREN && inner == start + GroupLen(src[start..])
    ensures inner <= |src|
    ensures ReadAtom(src[start..]) ==
            match ReadAlt(src[inner..])
            case Fail => Fail
            case Got(r, n) => if At(src[start..], inner - start + n) == CLOSE_PAREN then Got(r, inner - start + n + 1) else Fail
  {
    hide ReadAlt, ReadClass;
    Cut(src, start, inner);
  }

  lemma RepeatReads(src: Text, start: nat, mid: nat, r: Rx)
    requires start <= mid <= |src| && ReadAtom(src[start..]) == Got(r, mid - start)
    ensures ReadRepeat(src[start..]) ==
            match ReadQuant(src[mid..])
            case NoQuant => Got(r, mid - start)
            case Quant(lo, hi, m) => Got(Rep(r, lo, hi), mid - start + m)
  {
    hide ReadAtom, ReadQuant;
    Cut(src, start, mid);
  }

  lemma {:induction false} PartsLangSnoc(parts: seq<Rx>, r: Rx)
    ensures PartsLang(parts + [r]) == Languages.Cat(PartsLang(parts), RxLang(r))
  {
    assert (parts + [r])[..|parts|] == parts;
  }

  lemma {:induction false} NoParts(parts: seq<Rx>)
    requires parts == []
    ensures PartsLang(parts) == Unit<byte>() && Languages.Cat(PartsLang(parts), Unit<byte>()) == PartsLang(parts)
  {
    hide Languages.Cat, Unit;
    CatUnit(PartsLang(parts));
  }

  lemma PowSnoc(l: Lang<byte>, n: nat)
    ensures Languages.Cat(Pow(l, n), l) == Pow(l, n + 1)
  {
    CatUnit(l);
    assert Pow(l, 1) == Languages.Cat(l, Pow(l, 0));
    PowAdd(l, n, 1);
  }

  /** A counted quantifier by the places of its parts in the whole pattern. */
  lemma BracesReads(src: Text, save: nat, mid: nat, n: nat)
    requires save < |src| && mid == save + 1 + DigitsLen(src[save + 1..]) <= |src|
    requires n == Number(src[save + 1..][..mid - save - 1])
    ensures mid == save + 1 ==> ReadBraces(src[save..]) == NoQuant
    ensures mid > save + 1 && !(mid < |src| && src[mid] == COMMA) ==>
              ReadBraces(src[save..]) == if mid < |src| && src[mid] == CLOSE_BRACE then Quant(n, n, mid + 1 - save) else NoQuant
  {
    hide DigitsLen, Number;
    Cut(src, save, save + 1);
    AtLater(src, save, mid - save, 0);
  }

  lemma BracesReadsComma(src: Text, save: nat, mid: nat, end: nat, n: nat, m: int)
    requires save < |src| && mid == save + 1 + DigitsLen(src[save + 1..]) && save + 1 < mid < |src| && src[mid] == COMMA
    requires n == Number(src[save + 1..][..mid - save - 1]) && end == mid + 1 + DigitsLen(src[mid + 1..])
    requires m == if end == mid + 1 then -1 else Number(src[mid + 1..][..end - mid - 1])
    ensures ReadBraces(src[save..]) ==
            if end < |src| && src[end] == CLOSE_BRACE then Quant(n, AtLeast(n, m), end + 1 - save) else NoQuant
  {
    hide DigitsLen, Number, AtLeast;
    Cut(src, save, save + 1);
    Cut(src, save, mid + 1);
    AtLater(src, save, mid - save, 0);
    AtLater(src, save, end - save, 0);
  }
  // ----- members of a class -----

  lemma {:induction false} MembersOnce(s: Text, acc: Table, any: bool)
    requires s != [] && s[0] != CLOSE_BRACKET
    ensures ReadMembers(s, acc, any) ==
            match ReadMember(s, acc)
            case Fail => Fail
            case Got(t, n) => Later(n, ReadMembers(s[n..], t, true))
  {
    hide ReadMember;
  }

  lemma {:induction false} MembersEnd(s: Text, acc: Table, any: bool)
    requires s == [] || s[0] == CLOSE_BRACKET
    ensures ReadMembers(s, acc, any) == if s == [] || !any then Fail else Got(acc, 1)
  {
    hide ReadMember;
  }
}
