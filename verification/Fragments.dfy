/** Thompson fragments: automaton pieces that read a language whatever automaton they
    end up part of. */
module Fragments {
  import opened CharSets
  import opened Languages
  import opened RegexSyntax
  import opened Nfa

  /** `m'` has the edges of `m` on all own states but the exit, and its final state is
      the exit or lies outside. */
  ghost predicate Embeds(m': States, m: States, own: set<nat>, a: nat, fin: nat)
  {
    && (fin == a || fin !in own)
    && (forall i :: i in own ==> i < |m| && i < |m'|)
    && (forall i :: i in own && i != a ==> m'[i].edges == m[i].edges)
  }

  /** Edges lead from `q` to `a`, whatever they read. */
  ghost predicate Go(m: States, q: nat, a: nat, n: nat)
    decreases n
  {
    q == a || (n > 0 && q < |m| && exists i :: 0 <= i < |m[q].edges| && Go(m, m[q].edges[i].to, a, n - 1))
  }

  ghost predicate Leads(m: States, q: nat, a: nat)
  {
    exists n: nat :: Go(m, q, a, n)
  }

  /** No edge leads out of the own states except at the exit. */
  predicate Enclosed(m: States, own: set<nat>, a: nat)
  {
    forall q, i :: q in own && q != a && q < |m| && 0 <= i < |m[q].edges| ==> m[q].edges[i].to in own
  }

  /** There are no dead ends: every own state leads to the exit. */
  ghost predicate Flows(m: States, own: set<nat>, a: nat)
  {
    Enclosed(m, own, a) && forall q :: q in own ==> Leads(m, q, a)
  }

  lemma LeadsSelf(m: States, a: nat)
    ensures Leads(m, a, a)
  {
    assert Go(m, a, a, 0);
  }

  lemma LeadsOver(m: States, q: nat, i: nat, a: nat)
    requires q < |m| && i < |m[q].edges| && Leads(m, m[q].edges[i].to, a)
    ensures Leads(m, q, a)
  {
    var n: nat :| Go(m, m[q].edges[i].to, a, n);
    assert Go(m, q, a, n + 1);
  }

  lemma {:induction false} GoOn(m: States, q: nat, c: nat, a: nat, n: nat)
    requires Go(m, q, c, n) && Leads(m, c, a)
    ensures Leads(m, q, a)
    decreases n
  {
    hide Leads;
    if q != c {
      var i :| 0 <= i < |m[q].edges| && Go(m, m[q].edges[i].to, c, n - 1);
      GoOn(m, m[q].edges[i].to, c, a, n - 1);
      LeadsOver(m, q, i, a);
    }
  }

  lemma LeadsOn(m: States, q: nat, c: nat, a: nat)
    requires Leads(m, q, c) && Leads(m, c, a)
    ensures Leads(m, q, a)
  {
    var n: nat :| Go(m, q, c, n);
    GoOn(m, q, c, a, n);
  }

  lemma {:induction false} GoKept(m: States, m': States, own: set<nat>, q: nat, a: nat, n: nat)
    requires Enclosed(m, own, a) && q in own && Go(m, q, a, n) && |m| <= |m'|
    requires forall i :: i in own && i != a && i < |m| ==> m'[i].edges == m[i].edges
    ensures Leads(m', q, a)
    decreases n
  {
    hide Leads;
    if q == a {
      LeadsSelf(m', a);
    } else {
      var i :| 0 <= i < |m[q].edges| && Go(m, m[q].edges[i].to, a, n - 1);
      GoKept(m, m', own, m[q].edges[i].to, a, n - 1);
      LeadsOver(m', q, i, a);
    }
  }

  lemma {:induction false} FlowsKept(m: States, m': States, own: set<nat>, a: nat)
    requires Flows(m, own, a) && |m| <= |m'| && forall i :: i in own ==> i < |m|
    requires forall i :: i in own && i != a ==> m'[i].edges == m[i].edges
    ensures Flows(m', own, a)
  {
    forall q | q in own
      ensures Leads(m', q, a)
    {
      var n: nat :| Go(m, q, a, n);
      GoKept(m, m', own, q, a, n);
    }
  }

  /** The states of a flowing part flow on through its exit. */
  lemma FlowsOn(m: States, own: set<nat>, c: nat, q: nat, i: nat, a: nat)
    requires Flows(m, own, c) && q in own && c < |m| && i < |m[c].edges| && Leads(m, m[c].edges[i].to, a)
    ensures Leads(m, q, a)
  {
    hide Leads;
    LeadsOver(m, c, i, a);
    LeadsOn(m, q, c, a);
  }

  /** The own states form a fragment from `s` to `a` that reads exactly `l`, in every
      automaton that embeds it. */
  ghost predicate Fragment(m: States, own: set<nat>, s: nat, a: nat, l: Lang<byte>)
  {
    && s in own && a in own && (forall i :: i in own ==> i < |m|) && Flows(m, own, a)
    && forall m', fin :: Embeds(m', m, own, a, fin) ==> Passes(m', s, a, l, fin)
  }

  /** Fragments survive any change outside their own states, and at their exit. */
  lemma FragmentKept(m: States, m': States, own: set<nat>, s: nat, a: nat, l: Lang<byte>)
    requires Fragment(m, own, s, a, l) && |m| <= |m'|
    requires forall i :: i in own && i != a ==> m'[i].edges == m[i].edges
    ensures Fragment(m', own, s, a, l)
  {
    FlowsKept(m, m', own, a);
    forall m'': States, fin | Embeds(m'', m', own, a, fin)
      ensures Passes(m'', s, a, l, fin)
    {
      assert Embeds(m'', m, own, a, fin);
    }
  }

  lemma FreshState(m: States, s: nat)
    requires s < |m|
    ensures Fragment(m, {s}, s, s, Unit<byte>())
  {
    LeadsSelf(m, s);
    forall m': States, fin | Embeds(m', m, {s}, s, fin)
      ensures Passes(m', s, s, Unit<byte>(), fin)
    {
      PassesHere(m', s, fin);
    }
  }

  lemma PairFlows(m: States, s: nat, a: nat)
    requires s < |m| && a < |m| && s != a && |m[s].edges| == 1 && m[s].edges[0].to == a
    ensures Flows(m, {s, a}, a)
  {
    hide Leads;
    LeadsSelf(m, a);
    LeadsOver(m, s, 0, a);
  }

  lemma OneByte(m: States, s: nat, a: nat, t: Table)
    requires s < |m| && a < |m| && s != a && m[s].edges == [On(a, t)]
    ensures Fragment(m, {s, a}, s, a, TableLang(t))
  {
    PairFlows(m, s, a);
    forall m': States, fin | Embeds(m', m, {s, a}, a, fin)
      ensures Passes(m', s, a, TableLang(t), fin)
    {
      assert s in {s, a};
      PassesOn(m', s, a, t, fin);
    }
  }

  lemma NoByte(m: States, s: nat, a: nat)
    requires s < |m| && a < |m| && s != a && m[s].edges == [Free(a)]
    ensures Fragment(m, {s, a}, s, a, Unit<byte>())
  {
    PairFlows(m, s, a);
    forall m': States, fin | Embeds(m', m, {s, a}, a, fin)
      ensures Passes(m', s, a, Unit<byte>(), fin)
    {
      assert s in {s, a};
      PassesHere(m', a, fin);
      PassesFree(m', s, a, a, Unit<byte>(), fin);
    }
  }

  lemma SequenceFlows(m: States, o1: set<nat>, c: nat, o2: set<nat>, f: nat, a: nat)
    requires Flows(m, o1, c) && Flows(m, o2, a) && o1 !! o2 && c in o1 && c < |m| && m[c].edges == [Free(f)] && f in o2
    ensures Flows(m, o1 + o2, a)
  {
    hide Leads;
    forall q | q in o1
      ensures Leads(m, q, a)
    {
      FlowsOn(m, o1, c, q, 0, a);
    }
  }

  /** Two fragments one after the other, linked by a free edge. */
  lemma Sequence(m: States, o1: set<nat>, s: nat, c: nat, l1: Lang<byte>, o2: set<nat>, f: nat, a: nat, l2: Lang<byte>)
    requires Fragment(m, o1, s, c, l1) && Fragment(m, o2, f, a, l2) && o1 !! o2
    requires m[c].edges == [Free(f)]
    ensures Fragment(m, o1 + o2, s, a, Languages.Cat(l1, l2))
  {
    var own := o1 + o2;
    assert c in o1 && a in o2 && s in o1;
    SequenceFlows(m, o1, c, o2, f, a);
    forall m': States, fin | Embeds(m', m, own, a, fin)
      ensures Passes(m', s, a, Languages.Cat(l1, l2), fin)
    {
      assert forall i :: i in o1 ==> i in own;
      assert forall i :: i in o2 ==> i in own;
      assert Embeds(m', m, o1, c, fin) && Embeds(m', m, o2, a, fin);
      assert c in own;
      PassesFree(m', c, f, a, l2, fin);
      PassesThrough(m', s, c, a, l1, l2, fin);
    }
  }

  /** The new entry and exit around a repeated fragment. */
  ghost predicate Around(m: States, own: set<nat>, f: nat, c: nat, l: Lang<byte>, s: nat, a: nat)
  {
    && Fragment(m, own, f, c, l) && s < |m| && a < |m| && s != a && s !in own && a !in own
  }

  lemma InnerEmbeds(m': States, m: States, own: set<nat>, f: nat, c: nat, l: Lang<byte>, s: nat, a: nat, fin: nat)
    requires Around(m, own, f, c, l, s, a) && Embeds(m', m, own + {s, a}, a, fin)
    ensures Passes(m', f, c, l, fin) && s != fin && c != fin
    ensures s < |m'| && c < |m'| && m'[s].edges == m[s].edges && m'[c].edges == m[c].edges
  {
    var all := own + {s, a};
    assert forall i :: i in own ==> i in all;
    assert s in all && c in all;
    assert Embeds(m', m, own, c, fin);
  }

  /** A part whose exit leads to `a` and perhaps back, with an entry that leads into it. */
  lemma AroundFlows(m: States, own: set<nat>, f: nat, c: nat, l: Lang<byte>, s: nat, a: nat)
    requires Around(m, own, f, c, l, s, a)
    requires m[s].edges == [Free(f)] || m[s].edges == [Free(f), Free(a)]
    requires m[c].edges == [Free(a)] || m[c].edges == [Free(f), Free(a)]
    ensures Flows(m, own + {s, a}, a)
  {
    hide Leads, Passes, Embeds;
    LeadsSelf(m, a);
    forall q | q in own
      ensures Leads(m, q, a)
    {
      FlowsOn(m, own, c, q, |m[c].edges| - 1, a);
    }
    LeadsOver(m, s, 0, a);
  }

  lemma Star(m: States, own: set<nat>, f: nat, c: nat, l: Lang<byte>, s: nat, a: nat)
    requires Around(m, own, f, c, l, s, a)
    requires m[s].edges == [Free(f), Free(a)] && m[c].edges == [Free(f), Free(a)]
    ensures Fragment(m, own + {s, a}, s, a, Repeat(l, 0, -1))
  {
    AroundFlows(m, own, f, c, l, s, a);
    forall m': States, fin | Embeds(m', m, own + {s, a}, a, fin)
      ensures Passes(m', s, a, Repeat(l, 0, -1), fin)
    {
      InnerEmbeds(m', m, own, f, c, l, s, a, fin);
      PassesLoop(m', f, c, a, l, fin);
      PassesHere(m', a, fin);
      PassesFork(m', s, f, a, a, Repeat(l, 1, -1), Unit<byte>(), fin);
      RepeatZeroOrMore(l);
    }
  }

  lemma Plus(m: States, own: set<nat>, f: nat, c: nat, l: Lang<byte>, s: nat, a: nat)
    requires Around(m, own, f, c, l, s, a)
    requires m[s].edges == [Free(f)] && m[c].edges == [Free(f), Free(a)]
    ensures Fragment(m, own + {s, a}, s, a, Repeat(l, 1, -1))
  {
    AroundFlows(m, own, f, c, l, s, a);
    forall m': States, fin | Embeds(m', m, own + {s, a}, a, fin)
      ensures Passes(m', s, a, Repeat(l, 1, -1), fin)
    {
      InnerEmbeds(m', m, own, f, c, l, s, a, fin);
      PassesLoop(m', f, c, a, l, fin);
      PassesFree(m', s, f, a, Repeat(l, 1, -1), fin);
    }
  }

  lemma Optional(m: States, own: set<nat>, f: nat, c: nat, l: Lang<byte>, s: nat, a: nat)
    requires Around(m, own, f, c, l, s, a)
    requires m[s].edges == [Free(f), Free(a)] && m[c].edges == [Free(a)]
    ensures Fragment(m, own + {s, a}, s, a, Repeat(l, 0, 1))
  {
    AroundFlows(m, own, f, c, l, s, a);
    forall m': States, fin | Embeds(m', m, own + {s, a}, a, fin)
      ensures Passes(m', s, a, Repeat(l, 0, 1), fin)
    {
      InnerEmbeds(m', m, own, f, c, l, s, a, fin);
      PassesHere(m', a, fin);
      PassesFree(m', c, a, a, Unit<byte>(), fin);
      PassesThrough(m', f, c, a, l, Unit<byte>(), fin);
      CatUnit(l);
      PassesFork(m', s, f, a, a, l, Unit<byte>(), fin);
      RepeatOnce(l);
    }
  }

  // ----- alternatives -----

  /** A fragment kept for later: its states, entry and exit. */
  datatype Piece = Piece(own: set<nat>, entry: nat, exit: nat)

  function AllOwn(pieces: seq<Piece>): set<nat>
  {
    if pieces == [] then {} else AllOwn(pieces[..|pieces| - 1]) + pieces[|pieces| - 1].own
  }

  lemma {:induction false} OwnInAll(pieces: seq<Piece>, i: nat)
    requires i < |pieces|
    ensures pieces[i].own <= AllOwn(pieces)
    decreases |pieces|
  {
    if i < |pieces| - 1 {
      OwnInAll(pieces[..|pieces| - 1], i);
    }
  }

  function FreeTo(pieces: seq<Piece>): (es: seq<Edge>)
    ensures |es| == |pieces| && forall i :: 0 <= i < |es| ==> es[i] == Free(pieces[i].entry)
  {
    seq(|pieces|, i requires 0 <= i < |pieces| => Free(pieces[i].entry))
  }

  ghost predicate BranchOk(m: States, p: Piece, r: Rx, s: nat, a: nat)
  {
    && Fragment(m, p.own, p.entry, p.exit, RxLang(r)) && s !in p.own && a !in p.own
    && m[p.exit].edges == [Free(a)]
  }

  /** `s` forks into the branches, each of which joins again at `a`. */
  ghost predicate Forks(m: States, pieces: seq<Piece>, rs: seq<Rx>, s: nat, a: nat)
  {
    && |pieces| == |rs| && s < |m| && a < |m| && s != a && m[s].edges == FreeTo(pieces)
    && forall i :: 0 <= i < |pieces| ==> BranchOk(m, pieces[i], rs[i], s, a)
  }

  lemma {:induction false} InBranches(rs: seq<Rx>, u: seq<byte>)
    ensures u in BranchesLang(rs) <==> exists i :: 0 <= i < |rs| && u in RxLang(rs[i])
    decreases |rs|
  {
    if rs != [] {
      var n := |rs| - 1;
      InBranches(rs[..n], u);
      if u in BranchesLang(rs) && u !in RxLang(rs[n]) {
        var i :| 0 <= i < n && u in RxLang(rs[..n][i]);
        assert rs[..n][i] == rs[i];
      }
      if exists i :: 0 <= i < |rs| && u in RxLang(rs[i]) {
        var i :| 0 <= i < |rs| && u in RxLang(rs[i]);
        if i < n {
          assert rs[..n][i] == rs[i];
        }
      }
    }
  }

  lemma {:induction false} BranchPasses(m': States, m: States, pieces: seq<Piece>, rs: seq<Rx>, s: nat, a: nat, fin: nat, i: nat)
    requires Forks(m, pieces, rs, s, a) && Embeds(m', m, AllOwn(pieces) + {s, a}, a, fin) && i < |pieces|
    ensures Passes(m', pieces[i].entry, a, RxLang(rs[i]), fin)
  {
    var p, all := pieces[i], AllOwn(pieces) + {s, a};
    assert BranchOk(m, p, rs[i], s, a);
    OwnInAll(pieces, i);
    assert forall x :: x in p.own ==> x in all;
    assert p.exit in all && p.exit != a;
    assert Embeds(m', m, p.own, p.exit, fin);
    PassesHere(m', a, fin);
    PassesFree(m', p.exit, a, a, Unit<byte>(), fin);
    PassesThrough(m', p.entry, p.exit, a, RxLang(rs[i]), Unit<byte>(), fin);
    CatUnit(RxLang(rs[i]));
  }

  lemma {:induction false} AllOwnAt(pieces: seq<Piece>, q: nat) returns (i: nat)
    requires q in AllOwn(pieces)
    ensures i < |pieces| && q in pieces[i].own
    decreases |pieces|
  {
    i := |pieces| - 1;
    if q !in pieces[i].own {
      i := AllOwnAt(pieces[..|pieces| - 1], q);
    }
  }

  lemma {:induction false} ForkEncloses(m: States, pieces: seq<Piece>, rs: seq<Rx>, s: nat, a: nat)
    requires Forks(m, pieces, rs, s, a)
    ensures Enclosed(m, AllOwn(pieces) + {s, a}, a)
  {
    hide Leads, Passes, Embeds, RxLang, AllOwn;
    var all := AllOwn(pieces) + {s, a};
    forall q, i | q in all && q != a && q < |m| && 0 <= i < |m[q].edges|
      ensures m[q].edges[i].to in all
    {
      if q == s {
        assert BranchOk(m, pieces[i], rs[i], s, a);
        OwnInAll(pieces, i);
      } else {
        var k := AllOwnAt(pieces, q);
        assert BranchOk(m, pieces[k], rs[k], s, a);
        OwnInAll(pieces, k);
      }
    }
  }

  lemma {:induction false} ForkFlows(m: States, pieces: seq<Piece>, rs: seq<Rx>, s: nat, a: nat)
    requires Forks(m, pieces, rs, s, a) && pieces != []
    ensures Flows(m, AllOwn(pieces) + {s, a}, a)
  {
    hide Leads, Passes, Embeds, RxLang, AllOwn;
    var all := AllOwn(pieces) + {s, a};
    ForkEncloses(m, pieces, rs, s, a);
    LeadsSelf(m, a);
    forall q | q in AllOwn(pieces)
      ensures Leads(m, q, a)
    {
      var k := AllOwnAt(pieces, q);
      assert BranchOk(m, pieces[k], rs[k], s, a);
      FlowsOn(m, pieces[k].own, pieces[k].exit, q, 0, a);
    }
    assert BranchOk(m, pieces[0], rs[0], s, a);
    OwnInAll(pieces, 0);
    LeadsOver(m, s, 0, a);
  }

  lemma {:induction false} Alternatives(m: States, pieces: seq<Piece>, rs: seq<Rx>, s: nat, a: nat)
    requires Forks(m, pieces, rs, s, a) && pieces != []
    ensures Fragment(m, AllOwn(pieces) + {s, a}, s, a, BranchesLang(rs))
  {
    var all, l := AllOwn(pieces) + {s, a}, BranchesLang(rs);
    AllOwnInRange(m, pieces, rs, s, a, |pieces|);
    ForkFlows(m, pieces, rs, s, a);
    assert pieces[..|pieces|] == pieces;
    forall m': States, fin | Embeds(m', m, all, a, fin)
      ensures Passes(m', s, a, l, fin)
    {
      assert s in all && m'[s].edges == m[s].edges;
      forall w, n: nat | Path(m', s, w, fin, n)
        ensures Leaves(m', a, l, w, fin, n)
      {
        ForkLeaves(m', m, pieces, rs, s, a, fin, w, n);
      }
      forall u, v | u in l && Reads(m', a, v, fin)
        ensures Reads(m', s, u + v, fin)
      {
        InBranches(rs, u);
        var i :| 0 <= i < |rs| && u in RxLang(rs[i]);
        BranchPasses(m', m, pieces, rs, s, a, fin, i);
        TakeFree(m', s, i, u + v, fin);
      }
    }
  }

  lemma {:induction false} ForkLeaves(m': States, m: States, pieces: seq<Piece>, rs: seq<Rx>, s: nat, a: nat, fin: nat, w: seq<byte>, n: nat)
    requires Forks(m, pieces, rs, s, a) && Embeds(m', m, AllOwn(pieces) + {s, a}, a, fin) && Path(m', s, w, fin, n)
    ensures Leaves(m', a, BranchesLang(rs), w, fin, n)
  {
    assert s in AllOwn(pieces) + {s, a};
    var i := FirstEdge(m', s, w, fin, n);
    BranchPasses(m', m, pieces, rs, s, a, fin, i);
    forall u | u in RxLang(rs[i])
      ensures u in BranchesLang(rs)
    {
      InBranches(rs, u);
    }
    assert Leaves(m', a, RxLang(rs[i]), w, fin, n - 1);
    LeavesLater(m', a, RxLang(rs[i]), BranchesLang(rs), w, fin, n - 1, n);
  }

  lemma {:induction false} AllOwnInRange(m: States, pieces: seq<Piece>, rs: seq<Rx>, s: nat, a: nat, k: nat)
    requires Forks(m, pieces, rs, s, a) && k <= |pieces|
    ensures forall i :: i in AllOwn(pieces[..k]) ==> i < |m|
    decreases k
  {
    hide Flows, Embeds, Passes, RxLang;
    if k > 0 {
      AllOwnInRange(m, pieces, rs, s, a, k - 1);
      assert pieces[..k][..k - 1] == pieces[..k - 1];
      assert BranchOk(m, pieces[k - 1], rs[k - 1], s, a);
    }
  }

  // ----- counted optional copies -----

  function ExitAt(c: nat, pieces: seq<Piece>, i: nat): nat
    requires i <= |pieces|
  {
    if i == 0 then c else pieces[i - 1].exit
  }

  ghost predicate OptionAt(m: States, c: nat, pieces: seq<Piece>, l: Lang<byte>, a: nat, i: nat)
    requires i < |pieces|
  {
    && Fragment(m, pieces[i].own, pieces[i].entry, pieces[i].exit, l) && a !in pieces[i].own
    && ExitAt(c, pieces, i) < |m| && m[ExitAt(c, pieces, i)].edges == [Free(pieces[i].entry), Free(a)]
  }

  /** From `c`, each copy may be read or skipped straight to `a`; `last` are the edges
      after the final copy. */
  ghost predicate Options(m: States, c: nat, pieces: seq<Piece>, l: Lang<byte>, a: nat, last: seq<Edge>)
  {
    && a < |m| && ExitAt(c, pieces, |pieces|) < |m| && m[ExitAt(c, pieces, |pieces|)].edges == last
    && forall i :: 0 <= i < |pieces| ==> OptionAt(m, c, pieces, l, a, i)
  }

  lemma {:induction false} OptionsPass(m': States, m: States, own: set<nat>, c: nat, pieces: seq<Piece>, l: Lang<byte>,
                                       a: nat, fin: nat, i: nat)
    requires Options(m, c, pieces, l, a, [Free(a)]) && i <= |pieces| && c in own && a !in own
    requires Embeds(m', m, own + AllOwn(pieces) + {a}, a, fin)
    ensures Passes(m', ExitAt(c, pieces, i), a, Repeat(l, 0, |pieces| - i), fin)
    decreases |pieces| - i
  {
    hide Passes, Repeat, Languages.Cat, Unit, AllOwn, Flows;
    var all, e := own + AllOwn(pieces) + {a}, ExitAt(c, pieces, i);
    if i > 0 {
      OwnInAll(pieces, i - 1);
      assert OptionAt(m, c, pieces, l, a, i - 1);
    }
    assert e in all && e != a;
    PassesHere(m', a, fin);
    if i == |pieces| {
      PassesFree(m', e, a, a, Unit<byte>(), fin);
      RepeatNone(l, 0);
    } else {
      var p := pieces[i];
      assert OptionAt(m, c, pieces, l, a, i);
      OwnInAll(pieces, i);
      assert forall x :: x in p.own ==> x in all;
      assert Embeds(m', m, p.own, p.exit, fin);
      OptionsPass(m', m, own, c, pieces, l, a, fin, i + 1);
      PassesThrough(m', p.entry, p.exit, a, l, Repeat(l, 0, |pieces| - i - 1), fin);
      PassesFork(m', e, p.entry, a, a, Languages.Cat(l, Repeat(l, 0, |pieces| - i - 1)), Unit<byte>(), fin);
      RepeatUnfold(l, |pieces| - i);
    }
  }

  lemma {:induction false} OptionsInRange(m: States, c: nat, pieces: seq<Piece>, l: Lang<byte>, a: nat, last: seq<Edge>, k: nat)
    requires Options(m, c, pieces, l, a, last) && k <= |pieces|
    ensures forall i :: i in AllOwn(pieces[..k]) ==> i < |m|
    decreases k
  {
    if k > 0 {
      OptionsInRange(m, c, pieces, l, a, last, k - 1);
      assert pieces[..k][..k - 1] == pieces[..k - 1];
      assert OptionAt(m, c, pieces, l, a, k - 1);
    }
  }

  lemma {:induction false} ExitLeads(m: States, c: nat, pieces: seq<Piece>, l: Lang<byte>, a: nat, i: nat)
    requires Options(m, c, pieces, l, a, [Free(a)]) && i <= |pieces|
    ensures Leads(m, ExitAt(c, pieces, i), a)
  {
    hide Leads, Passes, Embeds;
    LeadsSelf(m, a);
    if i < |pieces| {
      assert OptionAt(m, c, pieces, l, a, i);
      LeadsOver(m, ExitAt(c, pieces, i), 1, a);
    } else {
      LeadsOver(m, ExitAt(c, pieces, i), 0, a);
    }
  }

  predicate StaysIn(m: States, e: nat, all: set<nat>)
  {
    e < |m| && forall i :: 0 <= i < |m[e].edges| ==> m[e].edges[i].to in all
  }

  lemma {:induction false} OptionsEnclose(m: States, own: set<nat>, c: nat, pieces: seq<Piece>, l: Lang<byte>, a: nat)
    requires Options(m, c, pieces, l, a, [Free(a)]) && Enclosed(m, own, c) && a !in own && c in own
    ensures Enclosed(m, own + AllOwn(pieces) + {a}, a)
  {
    hide Leads, Passes, Embeds, AllOwn;
    var all := own + AllOwn(pieces) + {a};
    forall k | 0 <= k <= |pieces|
      ensures StaysIn(m, ExitAt(c, pieces, k), all)
    {
      if k < |pieces| {
        assert OptionAt(m, c, pieces, l, a, k);
        OwnInAll(pieces, k);
      }
    }
    forall q, i | q in all && q != a && q < |m| && 0 <= i < |m[q].edges|
      ensures m[q].edges[i].to in all
    {
      if q in own {
        assert q == c ==> StaysIn(m, ExitAt(c, pieces, 0), all);
      } else {
        var k := AllOwnAt(pieces, q);
        assert OptionAt(m, c, pieces, l, a, k);
        OwnInAll(pieces, k);
        assert q == pieces[k].exit ==> StaysIn(m, ExitAt(c, pieces, k + 1), all);
      }
    }
  }

  lemma {:induction false} OptionsFlow(m: States, own: set<nat>, c: nat, pieces: seq<Piece>, l: Lang<byte>, a: nat)
    requires Options(m, c, pieces, l, a, [Free(a)]) && Flows(m, own, c) && a !in own && c in own
    ensures Flows(m, own + AllOwn(pieces) + {a}, a)
  {
    hide Leads, Passes, Embeds, AllOwn;
    OptionsEnclose(m, own, c, pieces, l, a);
    LeadsSelf(m, a);
    forall q | q in own
      ensures Leads(m, q, a)
    {
      ExitLeads(m, c, pieces, l, a, 0);
      LeadsOn(m, q, c, a);
    }
    forall q | q in AllOwn(pieces)
      ensures Leads(m, q, a)
    {
      var k := AllOwnAt(pieces, q);
      assert OptionAt(m, c, pieces, l, a, k);
      ExitLeads(m, c, pieces, l, a, k + 1);
      LeadsOn(m, q, pieces[k].exit, a);
    }
  }

  /** A fragment followed by optional copies. */
  lemma {:induction false} ThenOptions(m: States, own: set<nat>, s: nat, c: nat, l0: Lang<byte>, pieces: seq<Piece>, l: Lang<byte>, a: nat)
    requires Fragment(m, own, s, c, l0) && a !in own && Options(m, c, pieces, l, a, [Free(a)])
    ensures Fragment(m, own + AllOwn(pieces) + {a}, s, a, Languages.Cat(l0, Repeat(l, 0, |pieces|)))
  {
    var all := own + AllOwn(pieces) + {a};
    OptionsInRange(m, c, pieces, l, a, [Free(a)], |pieces|);
    OptionsFlow(m, own, c, pieces, l, a);
    assert pieces[..|pieces|] == pieces;
    forall m': States, fin | Embeds(m', m, all, a, fin)
      ensures Passes(m', s, a, Languages.Cat(l0, Repeat(l, 0, |pieces|)), fin)
    {
      assert forall x :: x in own ==> x in all;
      assert Embeds(m', m, own, c, fin);
      OptionsPass(m', m, own, c, pieces, l, a, fin, 0);
      PassesThrough(m', s, c, a, l0, Repeat(l, 0, |pieces|), fin);
    }
  }
}
