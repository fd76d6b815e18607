/** Runs of an automaton as sets of states: the states reached by a word, free closure and
    steps by one byte. */
module NfaRuns {
  import opened CharSets
  import opened Languages
  import opened RegexSyntax
  import opened Nfa
  import opened Fragments
  import opened Building
  import opened IdLists

  /** The states in which some path from `s` reads `w`. */
  ghost function Reached(m: States, s: nat, w: seq<byte>): iset<nat>
  {
    iset q: nat | Reads(m, s, w, q)
  }

  ghost predicate FreeFromAt(m: States, x: iset<nat>, q: nat, s: nat)
  {
    s in x && Reads(m, s, [], q)
  }

  ghost predicate InFree(m: States, x: iset<nat>, q: nat)
  {
    exists s: nat :: FreeFromAt(m, x, q, s)
  }

  /** The states some path reaches from `x` without reading. */
  ghost function FreeFrom(m: States, x: iset<nat>): iset<nat>
  {
    iset q: nat | InFree(m, x, q)
  }

  predicate EdgeOn(m: States, s: nat, i: nat, b: byte, t: nat)
  {
    s < |m| && i < |m[s].edges| && m[s].edges[i].On? && m[s].edges[i].to == t && m[s].edges[i].table[b]
  }

  ghost predicate AfterByteAt(m: States, x: iset<nat>, b: byte, t: nat, s: nat, i: nat)
  {
    s in x && EdgeOn(m, s, i, b, t)
  }

  ghost predicate InAfter(m: States, x: iset<nat>, b: byte, t: nat)
  {
    exists s: nat, i: nat :: AfterByteAt(m, x, b, t, s, i)
  }

  /** The states one byte leads to from `x`. */
  ghost function AfterByte(m: States, x: iset<nat>, b: byte): iset<nat>
  {
    iset t: nat | InAfter(m, x, b, t)
  }

  ghost function StepSet(m: States, x: iset<nat>, b: byte): iset<nat>
  {
    FreeFrom(m, AfterByte(m, x, b))
  }

  // ----- paths, joined and split -----

  lemma {:induction false} ReadsJoin(m: States, q: nat, u: seq<byte>, r: nat, v: seq<byte>, p: nat, n: nat)
    requires Path(m, q, u, r, n) && Reads(m, r, v, p)
    ensures Reads(m, q, u + v, p)
    decreases n
  {
    if q == r && u == [] {
      assert u + v == v;
    } else {
      var i :| 0 <= i < |m[q].edges| && PathVia(m, q, i, u, r, n);
      match m[q].edges[i]
      case Free(t) =>
        ReadsJoin(m, t, u, r, v, p, n - 1);
        TakeFree(m, q, i, u + v, p);
      case On(t, table) =>
        ReadsJoin(m, t, u[1..], r, v, p, n - 1);
        var k: nat :| Path(m, t, u[1..] + v, p, k);
        assert (u + v)[0] == u[0] && (u + v)[1..] == u[1..] + v;
        assert PathVia(m, q, i, u + v, p, k + 1);
        TakeEdge(m, q, i, u + v, p, k + 1);
    }
  }

  /** A path that reads `u + v` passes a state after reading `u`. */
  lemma {:induction false} ReadsSplit(m: States, q: nat, u: seq<byte>, v: seq<byte>, p: nat, n: nat) returns (r: nat)
    requires Path(m, q, u + v, p, n)
    ensures Reads(m, q, u, r) && Path(m, r, v, p, n)
    decreases n
  {
    r := q;
    if u == [] {
      assert u + v == v;
      assert Path(m, q, u, q, 0);
      return;
    }
    var i := SomeEdge(m, q, u + v, p, n);
    match m[q].edges[i]
    case Free(t) =>
      r := ReadsSplit(m, t, u, v, p, n - 1);
      TakeFree(m, q, i, u, r);
      PathMore(m, r, v, p, n - 1, n);
    case On(t, table) =>
      assert (u + v)[0] == u[0] && (u + v)[1..] == u[1..] + v;
      r := ReadsSplit(m, t, u[1..], v, p, n - 1);
      var k: nat :| Path(m, t, u[1..], r, k);
      assert PathVia(m, q, i, u, r, k + 1);
      TakeEdge(m, q, i, u, r, k + 1);
      PathMore(m, r, v, p, n - 1, n);
  }

  lemma SomeEdge(m: States, q: nat, w: seq<byte>, p: nat, n: nat) returns (i: nat)
    requires w != [] && Path(m, q, w, p, n)
    ensures n > 0 && q < |m| && i < |m[q].edges| && PathVia(m, q, i, w, p, n)
  {
    i :| 0 <= i < |m[q].edges| && PathVia(m, q, i, w, p, n);
  }

  /** A path that reads one byte takes free moves, one edge on the byte, and free moves. */
  lemma {:induction false} ByteSplit(m: States, q: nat, b: byte, p: nat, n: nat) returns (r: nat, i: nat, t: nat)
    requires Path(m, q, [b], p, n)
    ensures Reads(m, q, [], r) && EdgeOn(m, r, i, b, t) && Reads(m, t, [], p)
    decreases n
  {
    i := SomeEdge(m, q, [b], p, n);
    match m[q].edges[i]
    case Free(u) =>
      var j := i;
      r, i, t := ByteSplit(m, u, b, p, n - 1);
      TakeFree(m, q, j, [], r);
    case On(u, table) =>
      r, t := q, u;
      assert [b][1..] == [];
      assert Path(m, q, [], q, 0);
      assert Path(m, u, [], p, n - 1);
  }

  /** Reading one more byte is one step of the state set. */
  lemma StepIsReached(m: States, s: nat, w: seq<byte>, b: byte)
    ensures StepSet(m, Reached(m, s, w), b) == Reached(m, s, w + [b])
  {
    var x := Reached(m, s, w);
    forall p: nat | p in Reached(m, s, w + [b])
      ensures p in StepSet(m, x, b)
    {
      var n: nat :| Path(m, s, w + [b], p, n);
      var q := ReadsSplit(m, s, w, [b], p, n);
      var r, i, t := ByteSplit(m, q, b, p, n);
      var k: nat :| Path(m, s, w, q, k);
      ReadsJoin(m, s, w, q, [], r, k);
      assert w + [] == w;
      assert AfterByteAt(m, x, b, t, r, i);
      assert FreeFromAt(m, AfterByte(m, x, b), p, t);
    }
    forall p: nat | p in StepSet(m, x, b)
      ensures p in Reached(m, s, w + [b])
    {
      var t: nat :| FreeFromAt(m, AfterByte(m, x, b), p, t);
      var r: nat, i: nat :| AfterByteAt(m, x, b, t, r, i);
      var k: nat :| Path(m, t, [], p, k);
      assert [b][1..] == [];
      assert PathVia(m, r, i, [b], p, k + 1);
      TakeEdge(m, r, i, [b], p, k + 1);
      var n: nat :| Path(m, s, w, r, n);
      ReadsJoin(m, s, w, r, [b], p, n);
    }
  }

  lemma StartIsReached(m: States, s: nat)
    ensures FreeFrom(m, iset{s}) == Reached(m, s, [])
  {
    forall q: nat | q in Reached(m, s, [])
      ensures q in FreeFrom(m, iset{s})
    {
      assert FreeFromAt(m, iset{s}, q, s);
    }
  }

  /** Whatever an accepted word starts with leaves some state alive. */
  lemma PrefixIsAlive(m: States, s: nat, u: seq<byte>, v: seq<byte>, p: nat)
    requires Reads(m, s, u + v, p)
    ensures Reached(m, s, u) != iset{}
  {
    var n: nat :| Path(m, s, u + v, p, n);
    var r := ReadsSplit(m, s, u, v, p, n);
    assert r in Reached(m, s, u);
  }

  lemma DeadEnd(m: States, s: nat, p: nat, u: seq<byte>, v: seq<byte>)
    requires Reached(m, s, u) == iset{}
    ensures !Reads(m, s, u + v, p)
  {
    if Reads(m, s, u + v, p) {
      PrefixIsAlive(m, s, u, v, p);
    }
  }

  // ----- closure -----

  predicate ClosedAt(m: States, c: iset<nat>, q: nat)
  {
    q < |m| ==> forall i :: 0 <= i < |m[q].edges| && m[q].edges[i].Free? ==> m[q].edges[i].to in c
  }

  lemma {:induction false} ClosedHolds(m: States, c: iset<nat>, q: nat, p: nat, n: nat)
    requires q in c && Path(m, q, [], p, n) && forall x :: x in c ==> ClosedAt(m, c, x)
    ensures p in c
    decreases n
  {
    if q != p {
      var i := FirstEdge(m, q, [], p, n);
      assert ClosedAt(m, c, q);
      ClosedHolds(m, c, m[q].edges[i].to, p, n - 1);
    }
  }

  /** A set between `x` and its free closure that no free edge leaves is the closure. */
  lemma ClosedIsExact(m: States, x: iset<nat>, c: iset<nat>)
    requires x <= c <= FreeFrom(m, x) && forall q :: q in c ==> ClosedAt(m, c, q)
    ensures c == FreeFrom(m, x)
  {
    forall p: nat | p in FreeFrom(m, x)
      ensures p in c
    {
      var s: nat :| FreeFromAt(m, x, p, s);
      var n: nat :| Path(m, s, [], p, n);
      ClosedHolds(m, c, s, p, n);
    }
  }

  lemma FreeEdgeStays(m: States, x: iset<nat>, q: nat, i: nat)
    requires q in FreeFrom(m, x) && q < |m| && i < |m[q].edges| && m[q].edges[i].Free?
    ensures m[q].edges[i].to in FreeFrom(m, x)
  {
    var t := m[q].edges[i].to;
    var s: nat :| FreeFromAt(m, x, q, s);
    var n: nat :| Path(m, s, [], q, n);
    assert Path(m, t, [], t, 0);
    TakeFree(m, q, i, [], t);
    var none: seq<byte> := [];
    ReadsJoin(m, s, none, q, none, t, n);
    assert none + none == none;
    assert FreeFromAt(m, x, t, s);
  }

  // ----- sets of states as id lists -----

  ghost function Members(ids: seq<int>): iset<nat>
  {
    iset q: nat | q in ids
  }

  /** `flags` marks exactly the listed states. */
  ghost predicate Flagged(m: States, out: seq<int>, flags: seq<bool>)
  {
    && Below(out, |m|) && |flags| == |m|
    && forall q: nat :: q < |m| ==> (flags[q] <==> q in out)
  }

  lemma FlagNew(m: States, out: seq<int>, flags: seq<bool>, t: nat)
    requires Flagged(m, out, flags) && t < |m| && !flags[t]
    ensures Flagged(m, out + [t], flags[t := true]) && Members(out + [t]) == Members(out) + iset{t}
    ensures Distinct(out) ==> Distinct(out + [t])
    ensures Unset(flags[t := true]) < Unset(flags)
  {
    assert t !in out;
    assert t in Unset(flags);
  }

  ghost function Unset(flags: seq<bool>): set<nat>
  {
    set q: nat | q < |flags| && !flags[q]
  }

  /** The closure loop: everything found so far is in the closure, and only the pending
      states may have unfollowed free edges. */
  ghost predicate Closing(m: States, x: iset<nat>, found: iset<nat>, pending: iset<nat>)
  {
    && x <= found <= FreeFrom(m, x) && pending <= found
    && forall q :: q in found && q !in pending ==> ClosedAt(m, found, q)
  }

  lemma ClosingStart(m: States, x: iset<nat>)
    ensures Closing(m, x, x, x)
  {
    forall q | q in x
      ensures q in FreeFrom(m, x)
    {
      assert Path(m, q, [], q, 0);
      assert FreeFromAt(m, x, q, q);
    }
  }

  /** Part way through the edges of `s`, which is no longer pending. */
  ghost predicate Following(m: States, x: iset<nat>, found: iset<nat>, pending: iset<nat>, s: nat, i: nat)
  {
    && s < |m| && s in found && i <= |m[s].edges| && Closing(m, x, found, pending + iset{s})
    && forall j :: 0 <= j < i && m[s].edges[j].Free? ==> m[s].edges[j].to in found
  }

  lemma FollowNew(m: States, x: iset<nat>, found: iset<nat>, pending: iset<nat>, s: nat, i: nat)
    requires Following(m, x, found, pending, s, i) && i < |m[s].edges| && m[s].edges[i].Free?
    ensures var t := m[s].edges[i].to; Following(m, x, found + iset{t}, pending + iset{t}, s, i + 1)
  {
    hide FreeFrom;
    var t := m[s].edges[i].to;
    FreeEdgeStays(m, x, s, i);
    forall q | q in found + iset{t} && q !in pending + iset{t} + iset{s}
      ensures ClosedAt(m, found + iset{t}, q)
    {
      assert ClosedAt(m, found, q);
    }
  }

  lemma FollowedAll(m: States, x: iset<nat>, found: iset<nat>, pending: iset<nat>, s: nat)
    requires s < |m| && Following(m, x, found, pending, s, |m[s].edges|)
    requires pending <= found
    ensures Closing(m, x, found, pending)
  {
  }

  lemma ClosingDone(m: States, x: iset<nat>, found: iset<nat>)
    requires Closing(m, x, found, iset{})
    ensures found == FreeFrom(m, x)
  {
    ClosedIsExact(m, x, found);
  }

  // ----- one byte -----

  /** The byte's targets from the states before `k` and the edges before `i` of state `k`. */
  ghost predicate TargetSeen(m: States, ids: seq<int>, k: nat, i: nat, c: byte, t: nat, k': nat, i': nat)
  {
    && k' < |ids| && ids[k'] >= 0 && EdgeOn(m, ids[k'], i', c, t)
    && (k' < k || (k' == k && i' < i))
  }

  ghost predicate InSeen(m: States, ids: seq<int>, k: nat, i: nat, c: byte, t: nat)
  {
    exists k': nat, i': nat :: TargetSeen(m, ids, k, i, c, t, k', i')
  }

  ghost function Seen(m: States, ids: seq<int>, k: nat, i: nat, c: byte): iset<nat>
  {
    iset t: nat | InSeen(m, ids, k, i, c, t)
  }

  lemma SeenNone(m: States, ids: seq<int>, c: byte)
    ensures Seen(m, ids, 0, 0, c) == iset{}
  {
  }

  lemma SeenEdge(m: States, ids: seq<int>, k: nat, i: nat, c: byte)
    requires Below(ids, |m|) && k < |ids| && i < |m[ids[k]].edges|
    ensures var e := m[ids[k]].edges[i];
            Seen(m, ids, k, i + 1, c) == Seen(m, ids, k, i, c) + if e.On? && e.table[c] then iset{e.to} else iset{}
  {
    var e := m[ids[k]].edges[i];
    forall t: nat
      ensures InSeen(m, ids, k, i + 1, c, t) <==> InSeen(m, ids, k, i, c, t) || (e.On? && e.table[c] && t == e.to)
    {
      if InSeen(m, ids, k, i, c, t) {
        var k': nat, i': nat :| TargetSeen(m, ids, k, i, c, t, k', i');
        assert TargetSeen(m, ids, k, i + 1, c, t, k', i');
      }
      if e.On? && e.table[c] && t == e.to {
        assert TargetSeen(m, ids, k, i + 1, c, t, k, i);
      }
      if InSeen(m, ids, k, i + 1, c, t) {
        var k': nat, i': nat :| TargetSeen(m, ids, k, i + 1, c, t, k', i');
        assert (k' == k && i' == i) || TargetSeen(m, ids, k, i, c, t, k', i');
      }
    }
  }

  lemma SeenRow(m: States, ids: seq<int>, k: nat, c: byte)
    requires Below(ids, |m|) && k < |ids|
    ensures Seen(m, ids, k + 1, 0, c) == Seen(m, ids, k, |m[ids[k]].edges|, c)
  {
    var i := |m[ids[k]].edges|;
    forall t: nat
      ensures InSeen(m, ids, k + 1, 0, c, t) <==> InSeen(m, ids, k, i, c, t)
    {
      if InSeen(m, ids, k + 1, 0, c, t) {
        var k': nat, i': nat :| TargetSeen(m, ids, k + 1, 0, c, t, k', i');
        assert TargetSeen(m, ids, k, i, c, t, k', i');
      }
      if InSeen(m, ids, k, i, c, t) {
        var k': nat, i': nat :| TargetSeen(m, ids, k, i, c, t, k', i');
        assert TargetSeen(m, ids, k + 1, 0, c, t, k', i');
      }
    }
  }

  lemma SeenAll(m: States, ids: seq<int>, c: byte)
    requires Below(ids, |m|)
    ensures Seen(m, ids, |ids|, 0, c) == AfterByte(m, Members(ids), c)
  {
    forall t: nat
      ensures InSeen(m, ids, |ids|, 0, c, t) <==> InAfter(m, Members(ids), c, t)
    {
      if InSeen(m, ids, |ids|, 0, c, t) {
        var k: nat, i: nat :| TargetSeen(m, ids, |ids|, 0, c, t, k, i);
        assert AfterByteAt(m, Members(ids), c, t, ids[k], i);
      }
      if InAfter(m, Members(ids), c, t) {
        var s: nat, i: nat :| AfterByteAt(m, Members(ids), c, t, s, i);
        var k :| 0 <= k < |ids| && ids[k] == s;
        assert TargetSeen(m, ids, |ids|, 0, c, t, k, i);
      }
    }
  }

  // ----- the finished automaton -----

  /** From `s` the automaton ends in `a` on exactly the words of `l`. */
  ghost predicate Recognises(m: States, s: nat, a: nat, l: Lang<byte>)
  {
    forall w :: Reads(m, s, w, a) <==> w in l
  }

  lemma OpenRecognises(m: States, own: set<nat>, s: nat, a: nat, l: Lang<byte>)
    requires Open(m, own, s, a, l)
    ensures Recognises(m, s, a, l)
  {
    assert Embeds(m, m, own, a, a);
    assert Passes(m, s, a, l, a);
    forall w
      ensures Reads(m, s, w, a) <==> w in l
    {
      if Reads(m, s, w, a) {
        var n: nat :| Path(m, s, w, a, n);
        assert Leaves(m, a, l, w, a, n);
        var k: nat :| LeavesAt(m, a, l, w, a, n, k);
        assert w[k..] == [];
        assert w[..k] == w;
      }
      if w in l {
        assert Path(m, a, [], a, 0);
        assert w + [] == w;
      }
    }
  }

  /** The state after compiling: only the exit accepts. */
  function Marked(m: States, a: nat): States
    requires a < |m|
  {
    m[a := State(m[a].edges, true)]
  }

  lemma {:induction false} MarkedPath(m: States, a: nat, q: nat, w: seq<byte>, p: nat, n: nat)
    requires a < |m|
    ensures Path(Marked(m, a), q, w, p, n) <==> Path(m, q, w, p, n)
    decreases n
  {
    var m' := Marked(m, a);
    if n > 0 && q < |m| {
      assert m'[q].edges == m[q].edges;
      forall i | 0 <= i < |m[q].edges|
        ensures PathVia(m', q, i, w, p, n) <==> PathVia(m, q, i, w, p, n)
      {
        match m[q].edges[i]
        case Free(t) => MarkedPath(m, a, t, w, p, n - 1);
        case On(t, table) =>
          if w != [] {
            MarkedPath(m, a, t, w[1..], p, n - 1);
          }
      }
    }
  }

  lemma MarkedRecognises(m: States, s: nat, a: nat, l: Lang<byte>)
    requires a < |m| && Recognises(m, s, a, l)
    ensures Recognises(Marked(m, a), s, a, l)
  {
    forall w
      ensures Reads(Marked(m, a), s, w, a) <==> w in l
    {
      forall n: nat
        ensures Path(Marked(m, a), s, w, a, n) <==> Path(m, s, w, a, n)
      {
        MarkedPath(m, a, s, w, a, n);
      }
    }
  }

  // ----- no dead ends -----

  /** Whatever state is reached from `s`, edges lead on to `a`. */
  ghost predicate Onward(m: States, s: nat, a: nat)
  {
    forall w, q: nat :: Reads(m, s, w, q) ==> Leads(m, q, a)
  }

  /** A path that starts inside stays inside up to the exit. */
  lemma {:induction false} StaysInside(m: States, own: set<nat>, a: nat, q: nat, w: seq<byte>, p: nat, n: nat)
    requires Enclosed(m, own, a) && q in own && q < |m| && a < |m| && m[a].edges == [] && Path(m, q, w, p, n)
    requires forall i :: i in own ==> i < |m|
    ensures p in own
    decreases n
  {
    if !(q == p && w == []) {
      var i :| 0 <= i < |m[q].edges| && PathVia(m, q, i, w, p, n);
      match m[q].edges[i]
      case Free(t) => StaysInside(m, own, a, t, w, p, n - 1);
      case On(t, _) => StaysInside(m, own, a, t, w[1..], p, n - 1);
    }
  }

  /** A whole fragment has no dead ends, and marking its exit changes no edge. */
  lemma {:induction false} OpenGoesOn(m: States, own: set<nat>, s: nat, a: nat, l: Lang<byte>)
    requires Open(m, own, s, a, l)
    ensures Onward(Marked(m, a), s, a) && StaysFilled(m, Marked(m, a), true)
  {
    hide Passes, Embeds;
    forall w, q: nat | Reads(Marked(m, a), s, w, q)
      ensures Leads(Marked(m, a), q, a)
    {
      var n: nat :| Path(Marked(m, a), s, w, q, n);
      MarkedPath(m, a, s, w, q, n);
      StaysInside(m, own, a, s, w, q, n);
      assert Leads(m, q, a);
      var k: nat :| Go(m, q, a, k);
      GoKept(m, Marked(m, a), own, q, a, k);
    }
  }

  lemma EmptyIsFilled()
    ensures Filled([])
  {
  }

  /** Edges that can be taken spell a text. */
  lemma {:induction false} GoSpells(m: States, q: nat, a: nat, n: nat) returns (v: seq<byte>)
    requires Filled(m) && Go(m, q, a, n)
    ensures Path(m, q, v, a, n)
    decreases n
  {
    v := [];
    if q != a {
      var i :| 0 <= i < |m[q].edges| && Go(m, m[q].edges[i].to, a, n - 1);
      v := GoSpells(m, m[q].edges[i].to, a, n - 1);
      match m[q].edges[i]
      case Free(t) => assert PathVia(m, q, i, v, a, n);
      case On(t, table) =>
        assert HasByte(m[q].edges[i].table);
        var b: byte :| table[b];
        assert ([b] + v)[1..] == v;
        v := [b] + v;
        assert PathVia(m, q, i, v, a, n);
    }
  }

  lemma {:induction false} CanGoOn(m: States, s: nat, a: nat, w: seq<byte>, q: nat) returns (v: seq<byte>)
    requires Onward(m, s, a) && Filled(m) && q in Reached(m, s, w)
    ensures Reads(m, s, w + v, a)
  {
    assert Leads(m, q, a);
    var k: nat :| Go(m, q, a, k);
    v := GoSpells(m, q, a, k);
    assert Reads(m, q, v, a);
    var n: nat :| Path(m, s, w, q, n);
    ReadsJoin(m, s, w, q, v, a, n);
  }
}
