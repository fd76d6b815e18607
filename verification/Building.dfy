/** Growing an automaton edge by edge: what each step of the Thompson construction does
    to the fragments built so far. */
module Building {
  import opened CharSets
  import opened Languages
  import opened RegexSyntax
  import opened Nfa
  import opened Fragments

  /** Every edge leads to a state. */
  predicate EdgesOk(m: States)
  {
    forall s, i :: 0 <= s < |m| && 0 <= i < |m[s].edges| ==> m[s].edges[i].to < |m|
  }

  /** An automaton under construction: no state accepts yet. */
  predicate Unmarked(m: States)
  {
    EdgesOk(m) && forall s :: 0 <= s < |m| ==> !m[s].accepting
  }

  function Grow(m: States): States
  {
    m + [State([], false)]
  }

  function Link(m: States, from: nat, e: Edge): States
    requires from < |m|
  {
    m[from := State(m[from].edges + [e], m[from].accepting)]
  }

  lemma GrowOk(m: States)
    requires Unmarked(m)
    ensures Unmarked(Grow(m))
  {
  }

  lemma LinkOk(m: States, from: nat, e: Edge)
    requires Unmarked(m) && from < |m| && e.to < |m|
    ensures Unmarked(Link(m, from, e))
  {
  }

  /** States made since the automaton had `n` of them. */
  predicate MadeSince(own: set<nat>, n: nat, m: States)
  {
    forall i :: i in own ==> n <= i < |m|
  }

  /** A finished fragment: its exit has no edges yet. */
  ghost predicate Open(m: States, own: set<nat>, s: nat, a: nat, l: Lang<byte>)
  {
    Fragment(m, own, s, a, l) && m[a].edges == []
  }

  lemma OpenKept(m: States, m': States, own: set<nat>, s: nat, a: nat, l: Lang<byte>)
    requires Open(m, own, s, a, l) && m <= m'
    ensures Open(m', own, s, a, l)
  {
    FragmentKept(m, m', own, s, a, l);
  }

  lemma OpenState(m: States)
    ensures Open(Grow(m), {|m|}, |m|, |m|, Unit<byte>())
  {
    FreshState(Grow(m), |m|);
  }

  /** Two new states joined by one edge. */
  lemma OpenEdge(m: States, e: Edge)
    requires e.to == |m| + 1
    ensures var m' := Link(Grow(Grow(m)), |m|, e);
            Open(m', {|m|, |m| + 1}, |m|, |m| + 1, if e.Free? then Unit<byte>() else TableLang(e.table))
  {
    var m' := Link(Grow(Grow(m)), |m|, e);
    assert m'[|m|].edges == [e];
    if e.Free? {
      NoByte(m', |m|, |m| + 1);
    } else {
      OneByte(m', |m|, |m| + 1, e.table);
    }
  }

  /** Appending a fragment to another by a free edge from its exit. */
  lemma Append(m: States, o1: set<nat>, s: nat, c: nat, l1: Lang<byte>, o2: set<nat>, f: nat, a: nat, l2: Lang<byte>)
    requires Open(m, o1, s, c, l1) && Open(m, o2, f, a, l2) && o1 !! o2
    ensures var m' := Link(m, c, Free(f)); Open(m', o1 + o2, s, a, Languages.Cat(l1, l2))
  {
    var m' := Link(m, c, Free(f));
    FragmentKept(m, m', o1, s, c, l1);
    FragmentKept(m, m', o2, f, a, l2);
    assert m'[c].edges == [Free(f)];
    Sequence(m', o1, s, c, l1, o2, f, a, l2);
  }

  /** The edges a quantifier `*`, `+` or `?` adds around a fragment. */
  function Quantified(m: States, f: nat, c: nat, s: nat, a: nat, skip: bool, again: bool): States
    requires f < |m| && c < |m| && s < |m| && a < |m|
  {
    var m1 := Link(m, s, Free(f));
    var m2 := if skip then Link(m1, s, Free(a)) else m1;
    var m3 := if again then Link(m2, c, Free(f)) else m2;
    Link(m3, c, Free(a))
  }

  lemma OpenQuantified(m: States, own: set<nat>, f: nat, c: nat, l: Lang<byte>, s: nat, a: nat, skip: bool, again: bool)
    requires Open(m, own, f, c, l) && s < |m| && a < |m| && s != a && s !in own && a !in own
    requires m[s].edges == [] && m[a].edges == [] && (skip || again)
    ensures Open(Quantified(m, f, c, s, a, skip, again), own + {s, a}, s, a,
                 Repeat(l, if skip then 0 else 1, if again then -1 else 1))
  {
    hide Flows, Embeds, Passes, Repeat;
    var m' := Quantified(m, f, c, s, a, skip, again);
    FragmentKept(m, m', own, f, c, l);
    assert m'[a].edges == [];
    assert m'[s].edges == if skip then [Free(f), Free(a)] else [Free(f)];
    assert m'[c].edges == if again then [Free(f), Free(a)] else [Free(a)];
    if skip && again {
      Star(m', own, f, c, l, s, a);
    } else if again {
      Plus(m', own, f, c, l, s, a);
    } else {
      Optional(m', own, f, c, l, s, a);
    }
  }

  // ----- alternatives, branch by branch -----

  ghost predicate OpenForks(m: States, pieces: seq<Piece>, rs: seq<Rx>, s: nat, a: nat)
  {
    Forks(m, pieces, rs, s, a) && m[a].edges == []
  }

  lemma OpenForksKept(m: States, m': States, pieces: seq<Piece>, rs: seq<Rx>, s: nat, a: nat)
    requires OpenForks(m, pieces, rs, s, a) && m <= m'
    ensures OpenForks(m', pieces, rs, s, a)
  {
    forall i | 0 <= i < |pieces|
      ensures BranchOk(m', pieces[i], rs[i], s, a)
    {
      assert BranchOk(m, pieces[i], rs[i], s, a);
      FragmentKept(m, m', pieces[i].own, pieces[i].entry, pieces[i].exit, RxLang(rs[i]));
    }
  }

  function AddBranch(m: States, p: Piece, s: nat, a: nat): States
    requires s < |m| && p.exit < |m|
  {
    Link(Link(m, s, Free(p.entry)), p.exit, Free(a))
  }

  lemma BranchKept(m: States, b: Piece, r: Rx, s: nat, a: nat, p: Piece)
    requires BranchOk(m, b, r, s, a) && s < |m| && p.exit < |m| && p.exit !in b.own
    ensures BranchOk(AddBranch(m, p, s, a), b, r, s, a)
  {
    hide RxLang, Embeds, Passes, Flows;
    FragmentKept(m, AddBranch(m, p, s, a), b.own, b.entry, b.exit, RxLang(r));
  }

  lemma {:induction false} NewBranch(m: States, p: Piece, r: Rx, s: nat, a: nat)
    requires Open(m, p.own, p.entry, p.exit, RxLang(r)) && s < |m| && s !in p.own && a !in p.own
    ensures BranchOk(AddBranch(m, p, s, a), p, r, s, a)
  {
    hide RxLang, Embeds, Passes, Flows;
    FragmentKept(m, AddBranch(m, p, s, a), p.own, p.entry, p.exit, RxLang(r));
  }

  lemma {:induction false} OpenForksStep(m: States, pieces: seq<Piece>, rs: seq<Rx>, s: nat, a: nat, p: Piece, r: Rx)
    requires OpenForks(m, pieces, rs, s, a) && Open(m, p.own, p.entry, p.exit, RxLang(r))
    requires s !in p.own && a !in p.own && p.own !! AllOwn(pieces)
    ensures OpenForks(AddBranch(m, p, s, a), pieces + [p], rs + [r], s, a)
    ensures AllOwn(pieces + [p]) == AllOwn(pieces) + p.own
  {
    hide RxLang, BranchOk, Flows, Embeds, Passes, FreeTo, AllOwn;
    var m', ps, qs := AddBranch(m, p, s, a), pieces + [p], rs + [r];
    AllOwnSnoc(pieces, p);
    assert p.exit in p.own && s != p.exit && a != p.exit;
    FreeToSnoc(pieces, p);
    forall i | 0 <= i < |ps|
      ensures BranchOk(m', ps[i], qs[i], s, a)
    {
      if i < |pieces| {
        OwnInAll(pieces, i);
        BranchKept(m, pieces[i], rs[i], s, a, p);
      } else {
        NewBranch(m, p, r, s, a);
      }
    }
  }

  lemma {:induction false} AllOwnSnoc(pieces: seq<Piece>, p: Piece)
    ensures AllOwn(pieces + [p]) == AllOwn(pieces) + p.own
  {
    assert (pieces + [p])[..|pieces|] == pieces;
  }

  lemma FreeToSnoc(pieces: seq<Piece>, p: Piece)
    ensures FreeTo(pieces + [p]) == FreeTo(pieces) + [Free(p.entry)]
  {
  }

  // ----- optional copies, one by one -----

  /** A fragment to `c` followed by optional copies, the last of them still open. */
  ghost predicate OpenOptions(m: States, own: set<nat>, s: nat, c: nat, l0: Lang<byte>,
                              pieces: seq<Piece>, l: Lang<byte>, a: nat)
  {
    && Fragment(m, own, s, c, l0) && a !in own && a < |m| && m[a].edges == []
    && Options(m, c, pieces, l, a, [])
    && (forall i :: 0 <= i < |pieces| ==> own !! pieces[i].own)
    && (forall i, j :: 0 <= i < j < |pieces| ==> pieces[i].own !! pieces[j].own)
  }

  lemma OpenOptionsStart(m: States, own: set<nat>, s: nat, c: nat, l0: Lang<byte>, l: Lang<byte>, a: nat)
    requires Open(m, own, s, c, l0) && a !in own && a < |m| && m[a].edges == []
    ensures OpenOptions(m, own, s, c, l0, [], l, a) && AllOwn([]) == {}
  {
  }

  lemma OpenOptionsKept(m: States, m': States, own: set<nat>, s: nat, c: nat, l0: Lang<byte>,
                        pieces: seq<Piece>, l: Lang<byte>, a: nat)
    requires OpenOptions(m, own, s, c, l0, pieces, l, a) && m <= m'
    ensures OpenOptions(m', own, s, c, l0, pieces, l, a)
  {
    FragmentKept(m, m', own, s, c, l0);
    forall i | 0 <= i < |pieces|
      ensures OptionAt(m', c, pieces, l, a, i)
    {
      assert OptionAt(m, c, pieces, l, a, i);
      FragmentKept(m, m', pieces[i].own, pieces[i].entry, pieces[i].exit, l);
    }
  }

  function AddOption(m: States, e: nat, p: Piece, a: nat): States
    requires e < |m|
  {
    Link(Link(m, e, Free(p.entry)), e, Free(a))
  }

  /** The state the next copy hangs on. */
  lemma LastExit(m: States, own: set<nat>, s: nat, c: nat, l0: Lang<byte>, pieces: seq<Piece>, l: Lang<byte>, a: nat, i: nat)
    requires OpenOptions(m, own, s, c, l0, pieces, l, a) && i < |pieces|
    ensures var e := ExitAt(c, pieces, |pieces|); e in pieces[i].own ==> e == pieces[i].exit && i == |pieces| - 1
    ensures ExitAt(c, pieces, |pieces|) !in own && ExitAt(c, pieces, |pieces|) != a
    ensures ExitAt(c, pieces, i) != ExitAt(c, pieces, |pieces|)
  {
    var n := |pieces| - 1;
    assert OptionAt(m, c, pieces, l, a, n) && OptionAt(m, c, pieces, l, a, i);
    assert pieces[n].exit in pieces[n].own && c in own;
    if i > 0 {
      assert OptionAt(m, c, pieces, l, a, i - 1);
    }
  }

  lemma {:induction false} OpenOptionsStep(m: States, own: set<nat>, s: nat, c: nat, l0: Lang<byte>,
                        pieces: seq<Piece>, l: Lang<byte>, a: nat, p: Piece)
    requires OpenOptions(m, own, s, c, l0, pieces, l, a) && Open(m, p.own, p.entry, p.exit, l)
    requires own !! p.own && AllOwn(pieces) !! p.own && a !in p.own
    ensures var m' := AddOption(m, ExitAt(c, pieces, |pieces|), p, a);
            OpenOptions(m', own, s, c, l0, pieces + [p], l, a)
    ensures AllOwn(pieces + [p]) == AllOwn(pieces) + p.own
  {
    hide Flows, Embeds, Passes;
    var e, ps := ExitAt(c, pieces, |pieces|), pieces + [p];
    var m' := AddOption(m, e, p, a);
    assert ps[..|pieces|] == pieces;
    forall i | 0 <= i < |pieces|
      ensures pieces[i].own !! p.own
    {
      OwnInAll(pieces, i);
    }
    assert e !in p.own by {
      if |pieces| > 0 {
        assert OptionAt(m, c, pieces, l, a, |pieces| - 1);
      }
    }
    assert e != a && (e == c || e !in own) by {
      if |pieces| > 0 {
        LastExit(m, own, s, c, l0, pieces, l, a, 0);
      }
    }
    FragmentKept(m, m', own, s, c, l0);
    FragmentKept(m, m', p.own, p.entry, p.exit, l);
    forall i | 0 <= i < |ps|
      ensures OptionAt(m', c, ps, l, a, i)
    {
      if i < |pieces| {
        OptionKept(m, own, s, c, l0, pieces, l, a, p, i);
      }
    }
  }

  lemma OptionKept(m: States, own: set<nat>, s: nat, c: nat, l0: Lang<byte>,
                   pieces: seq<Piece>, l: Lang<byte>, a: nat, p: Piece, i: nat)
    requires OpenOptions(m, own, s, c, l0, pieces, l, a) && i < |pieces|
    ensures var m' := AddOption(m, ExitAt(c, pieces, |pieces|), p, a);
            OptionAt(m', c, pieces + [p], l, a, i)
  {
    var e, ps := ExitAt(c, pieces, |pieces|), pieces + [p];
    var m' := AddOption(m, e, p, a);
    LastExit(m, own, s, c, l0, pieces, l, a, i);
    assert OptionAt(m, c, pieces, l, a, i);
    FragmentKept(m, m', pieces[i].own, pieces[i].entry, pieces[i].exit, l);
    assert ExitAt(c, ps, i) == ExitAt(c, pieces, i) && ps[i] == pieces[i];
  }

  /** Closing the last copy completes the fragment. */
  lemma {:induction false} CloseOptions(m: States, own: set<nat>, s: nat, c: nat, l0: Lang<byte>, pieces: seq<Piece>, l: Lang<byte>, a: nat)
    requires OpenOptions(m, own, s, c, l0, pieces, l, a)
    ensures var m' := Link(m, ExitAt(c, pieces, |pieces|), Free(a));
            Open(m', own + AllOwn(pieces) + {a}, s, a, Languages.Cat(l0, Repeat(l, 0, |pieces|)))
  {
    var e := ExitAt(c, pieces, |pieces|);
    var m' := Link(m, e, Free(a));
    assert e != a && (e == c || e !in own) by {
      if |pieces| > 0 {
        LastExit(m, own, s, c, l0, pieces, l, a, 0);
      }
    }
    FragmentKept(m, m', own, s, c, l0);
    forall i | 0 <= i < |pieces|
      ensures OptionAt(m', c, pieces, l, a, i)
    {
      LastExit(m, own, s, c, l0, pieces, l, a, i);
      assert OptionAt(m, c, pieces, l, a, i);
      FragmentKept(m, m', pieces[i].own, pieces[i].entry, pieces[i].exit, l);
    }
    ThenOptions(m', own, s, c, l0, pieces, l, a);
  }

  // ----- classes -----

  /** Every edge can be taken. */
  predicate Filled(m: States)
  {
    forall s, i :: 0 <= s < |m| && 0 <= i < |m[s].edges| && m[s].edges[i].On? ==> HasByte(m[s].edges[i].table)
  }

  /** Going from `m0` to `m`, only edges that can be taken were added, if `filled`. */
  predicate StaysFilled(m0: States, m: States, filled: bool)
  {
    Filled(m0) && filled ==> Filled(m)
  }

  lemma GrowFilled(m: States)
    requires Filled(m)
    ensures Filled(Grow(m))
  {
  }

  lemma LinkFilled(m: States, from: nat, e: Edge)
    requires Filled(m) && from < |m| && (e.On? ==> HasByte(e.table))
    ensures Filled(Link(m, from, e))
  {
  }

  lemma {:induction false} StaysFilledAdd(rs: seq<Rx>, r: Rx)
    ensures AllFilled(rs + [r]) <==> AllFilled(rs) && RxFilled(r)
  {
    hide RxFilled;
    assert (rs + [r])[|rs|] == r;
    if AllFilled(rs + [r]) {
      forall i | 0 <= i < |rs|
        ensures RxFilled(rs[i])
      {
        assert (rs + [r])[i] == rs[i];
      }
    }
  }
}
