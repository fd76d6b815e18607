/** Nondeterministic automata over bytes: paths, and fragments that read a language. */
module Nfa {
  import opened CharSets
  import opened Languages
  import opened RegexSyntax

  datatype Edge = Free(to: nat) | On(to: nat, table: Table)

  datatype State = State(edges: seq<Edge>, accepting: bool)

  type States = seq<State>

  /** Some path from `q` to `fin` over at most `n` edges reads `w`. */
  ghost predicate Path(m: States, q: nat, w: seq<byte>, fin: nat, n: nat)
    decreases n, 1
  {
    || (q == fin && w == [])
    || (n > 0 && q < |m| && exists i :: 0 <= i < |m[q].edges| && PathVia(m, q, i, w, fin, n))
  }

  ghost predicate PathVia(m: States, q: nat, i: nat, w: seq<byte>, fin: nat, n: nat)
    requires n > 0 && q < |m| && i < |m[q].edges|
    decreases n, 0
  {
    match m[q].edges[i]
    case Free(t) => Path(m, t, w, fin, n - 1)
    case On(t, table) => w != [] && table[w[0]] && Path(m, t, w[1..], fin, n - 1)
  }

  ghost predicate Reads(m: States, q: nat, w: seq<byte>, fin: nat)
  {
    exists n: nat :: Path(m, q, w, fin, n)
  }

  lemma {:induction false} PathMore(m: States, q: nat, w: seq<byte>, fin: nat, n: nat, k: nat)
    requires n <= k && Path(m, q, w, fin, n)
    ensures Path(m, q, w, fin, k)
    decreases n
  {
    if !(q == fin && w == []) {
      var i :| 0 <= i < |m[q].edges| && PathVia(m, q, i, w, fin, n);
      match m[q].edges[i]
      case Free(t) =>
        PathMore(m, t, w, fin, n - 1, k - 1);
        assert PathVia(m, q, i, w, fin, k);
      case On(t, table) =>
        PathMore(m, t, w[1..], fin, n - 1, k - 1);
        assert PathVia(m, q, i, w, fin, k);
    }
  }

  // ----- passing from one state to another -----

  /** The path leaves through `a` after reading `k` bytes that spell a word of `l`. */
  ghost predicate LeavesAt(m: States, a: nat, l: Lang<byte>, w: seq<byte>, fin: nat, n: nat, k: nat)
  {
    k <= |w| && w[..k] in l && Path(m, a, w[k..], fin, n)
  }

  ghost predicate Leaves(m: States, a: nat, l: Lang<byte>, w: seq<byte>, fin: nat, n: nat)
  {
    exists k: nat :: LeavesAt(m, a, l, w, fin, n, k)
  }

  /** Going from `s` to `fin` is exactly reading a word of `l` and going on from `a`;
      the rest of the path is no longer than the whole. */
  ghost predicate Passes(m: States, s: nat, a: nat, l: Lang<byte>, fin: nat)
  {
    && (forall w, n: nat :: Path(m, s, w, fin, n) ==> Leaves(m, a, l, w, fin, n))
    && (forall u, v :: u in l && Reads(m, a, v, fin) ==> Reads(m, s, u + v, fin))
  }

  lemma PassesHere(m: States, s: nat, fin: nat)
    ensures Passes(m, s, s, Unit<byte>(), fin)
  {
    forall w, n: nat | Path(m, s, w, fin, n)
      ensures Leaves(m, s, Unit<byte>(), w, fin, n)
    {
      assert w[..0] == [] && w[0..] == w;
      assert LeavesAt(m, s, Unit<byte>(), w, fin, n, 0);
    }
    forall u, v | u in Unit<byte>() && Reads(m, s, v, fin)
      ensures Reads(m, s, u + v, fin)
    {
      assert u + v == v;
    }
  }

  lemma ThroughLeaves(m: States, c: nat, a: nat, l1: Lang<byte>, l2: Lang<byte>, fin: nat, w: seq<byte>, n: nat)
    requires Leaves(m, c, l1, w, fin, n) && Passes(m, c, a, l2, fin)
    ensures Leaves(m, a, Languages.Cat(l1, l2), w, fin, n)
  {
    var k: nat :| LeavesAt(m, c, l1, w, fin, n, k);
    assert Leaves(m, a, l2, w[k..], fin, n);
    var j: nat :| LeavesAt(m, a, l2, w[k..], fin, n, j);
    CatIntro(l1, l2, w[..k], w[k..][..j]);
    assert w[..k] + w[k..][..j] == w[..k + j] && w[k..][j..] == w[k + j..];
    assert LeavesAt(m, a, Languages.Cat(l1, l2), w, fin, n, k + j);
  }

  lemma ThroughReads(m: States, s: nat, c: nat, a: nat, l1: Lang<byte>, l2: Lang<byte>, fin: nat, u: seq<byte>, v: seq<byte>)
    requires Passes(m, s, c, l1, fin) && Passes(m, c, a, l2, fin)
    requires u in Languages.Cat(l1, l2) && Reads(m, a, v, fin)
    ensures Reads(m, s, u + v, fin)
  {
    hide Path, Reads;
    var k: nat :| CutsAt(l1, l2, u, k);
    assert Reads(m, c, u[k..] + v, fin);
    assert u + v == u[..k] + (u[k..] + v);
  }

  lemma PassesThrough(m: States, s: nat, c: nat, a: nat, l1: Lang<byte>, l2: Lang<byte>, fin: nat)
    requires Passes(m, s, c, l1, fin) && Passes(m, c, a, l2, fin)
    ensures Passes(m, s, a, Languages.Cat(l1, l2), fin)
  {
    hide Languages.Cat, Path, Reads, Leaves;
    var l := Languages.Cat(l1, l2);
    forall w, n: nat | Path(m, s, w, fin, n)
      ensures Leaves(m, a, l, w, fin, n)
    {
      ThroughLeaves(m, c, a, l1, l2, fin, w, n);
    }
    forall u, v | u in l && Reads(m, a, v, fin)
      ensures Reads(m, s, u + v, fin)
    {
      ThroughReads(m, s, c, a, l1, l2, fin, u, v);
    }
  }

  lemma FirstEdge(m: States, s: nat, w: seq<byte>, fin: nat, n: nat) returns (i: nat)
    requires s != fin && Path(m, s, w, fin, n)
    ensures n > 0 && s < |m| && i < |m[s].edges| && PathVia(m, s, i, w, fin, n)
  {
    i :| 0 <= i < |m[s].edges| && PathVia(m, s, i, w, fin, n);
  }

  lemma {:induction false} TakeEdge(m: States, s: nat, i: nat, w: seq<byte>, fin: nat, n: nat)
    requires n > 0 && s < |m| && i < |m[s].edges| && PathVia(m, s, i, w, fin, n)
    ensures Reads(m, s, w, fin)
  {
    assert Path(m, s, w, fin, n);
  }

  lemma TakeFree(m: States, s: nat, i: nat, w: seq<byte>, fin: nat)
    requires s < |m| && i < |m[s].edges| && m[s].edges[i].Free? && Reads(m, m[s].edges[i].to, w, fin)
    ensures Reads(m, s, w, fin)
  {
    var n: nat :| Path(m, m[s].edges[i].to, w, fin, n);
    assert PathVia(m, s, i, w, fin, n + 1);
    TakeEdge(m, s, i, w, fin, n + 1);
  }

  lemma PassesOn(m: States, s: nat, a: nat, t: Table, fin: nat)
    requires s < |m| && s != fin && m[s].edges == [On(a, t)]
    ensures Passes(m, s, a, TableLang(t), fin)
  {
    forall w, n: nat | Path(m, s, w, fin, n)
      ensures Leaves(m, a, TableLang(t), w, fin, n)
    {
      var i := FirstEdge(m, s, w, fin, n);
      PathMore(m, a, w[1..], fin, n - 1, n);
      assert LeavesAt(m, a, TableLang(t), w, fin, n, 1);
    }
    forall u, v | u in TableLang(t) && Reads(m, a, v, fin)
      ensures Reads(m, s, u + v, fin)
    {
      var n: nat :| Path(m, a, v, fin, n);
      assert (u + v)[0] == u[0] && (u + v)[1..] == v;
      assert PathVia(m, s, 0, u + v, fin, n + 1);
      TakeEdge(m, s, 0, u + v, fin, n + 1);
    }
  }

  /** A state with two free moves reads what either leads to. */
  lemma PassesFork(m: States, s: nat, f: nat, g: nat, a: nat, l1: Lang<byte>, l2: Lang<byte>, fin: nat)
    requires s < |m| && s != fin && m[s].edges == [Free(f), Free(g)]
    requires Passes(m, f, a, l1, fin) && Passes(m, g, a, l2, fin)
    ensures Passes(m, s, a, l1 + l2, fin)
  {
    forall w, n: nat | Path(m, s, w, fin, n)
      ensures Leaves(m, a, l1 + l2, w, fin, n)
    {
      var i := FirstEdge(m, s, w, fin, n);
      assert Path(m, m[s].edges[i].to, w, fin, n - 1);
      assert Leaves(m, a, if i == 0 then l1 else l2, w, fin, n - 1);
      LeavesLater(m, a, if i == 0 then l1 else l2, l1 + l2, w, fin, n - 1, n);
    }
    forall u, v | u in l1 + l2 && Reads(m, a, v, fin)
      ensures Reads(m, s, u + v, fin)
    {
      if u in l1 {
        TakeFree(m, s, 0, u + v, fin);
      } else {
        TakeFree(m, s, 1, u + v, fin);
      }
    }
  }

  lemma LeavesLater(m: States, a: nat, l: Lang<byte>, l': Lang<byte>, w: seq<byte>, fin: nat, n: nat, n': nat)
    requires l <= l' && n <= n' && Leaves(m, a, l, w, fin, n)
    ensures Leaves(m, a, l', w, fin, n')
  {
    var k: nat :| LeavesAt(m, a, l, w, fin, n, k);
    PathMore(m, a, w[k..], fin, n, n');
    assert LeavesAt(m, a, l', w, fin, n', k);
  }

  lemma PassesFree(m: States, s: nat, t: nat, a: nat, l: Lang<byte>, fin: nat)
    requires s < |m| && s != fin && m[s].edges == [Free(t)] && Passes(m, t, a, l, fin)
    ensures Passes(m, s, a, l, fin)
  {
    forall w, n: nat | Path(m, s, w, fin, n)
      ensures Leaves(m, a, l, w, fin, n)
    {
      var i := FirstEdge(m, s, w, fin, n);
      assert Path(m, t, w, fin, n - 1);
      LeavesLater(m, a, l, l, w, fin, n - 1, n);
    }
    forall u, v | u in l && Reads(m, a, v, fin)
      ensures Reads(m, s, u + v, fin)
    {
      TakeFree(m, s, 0, u + v, fin);
    }
  }

  /** Going round from `c` back to `f` any number of times. */
  lemma {:induction false} LoopLeaves(m: States, f: nat, c: nat, a: nat, l: Lang<byte>, fin: nat, w: seq<byte>, n: nat)
    requires c < |m| && c != fin && m[c].edges == [Free(f), Free(a)] && Passes(m, f, c, l, fin)
    requires Path(m, f, w, fin, n)
    ensures Leaves(m, a, Repeat(l, 1, -1), w, fin, n)
    decreases n
  {
    assert Leaves(m, c, l, w, fin, n);
    var k: nat :| LeavesAt(m, c, l, w, fin, n, k);
    var i := FirstEdge(m, c, w[k..], fin, n);
    if i == 0 {
      LoopLeaves(m, f, c, a, l, fin, w[k..], n - 1);
      var j: nat :| LeavesAt(m, a, Repeat(l, 1, -1), w[k..], fin, n - 1, j);
      RepeatCons(l, 1, -1, w[..k], w[k..][..j]);
      RepeatWider(l, 2, -1, 1, -1);
      assert w[..k] + w[k..][..j] == w[..k + j] && w[k..][j..] == w[k + j..];
      PathMore(m, a, w[k + j..], fin, n - 1, n);
      assert LeavesAt(m, a, Repeat(l, 1, -1), w, fin, n, k + j);
    } else {
      RepeatNone(l, 0);
      RepeatCons(l, 0, 0, w[..k], []);
      RepeatWider(l, 1, 1, 1, -1);
      assert w[..k] + [] == w[..k];
      PathMore(m, a, w[k..], fin, n - 1, n);
      assert LeavesAt(m, a, Repeat(l, 1, -1), w, fin, n, k);
    }
  }

  lemma {:induction false} LoopReads(m: States, f: nat, c: nat, a: nat, l: Lang<byte>, fin: nat, u: seq<byte>, v: seq<byte>, n: nat)
    requires c < |m| && c != fin && m[c].edges == [Free(f), Free(a)] && Passes(m, f, c, l, fin)
    requires n > 0 && u in Pow(l, n) && Reads(m, a, v, fin)
    ensures Reads(m, f, u + v, fin)
    decreases n
  {
    var k: nat :| CutsAt(l, Pow(l, n - 1), u, k);
    assert u + v == u[..k] + (u[k..] + v);
    if n == 1 {
      assert u[k..] + v == v;
      TakeFree(m, c, 1, v, fin);
    } else {
      LoopReads(m, f, c, a, l, fin, u[k..], v, n - 1);
      TakeFree(m, c, 0, u[k..] + v, fin);
    }
  }

  lemma PassesLoop(m: States, f: nat, c: nat, a: nat, l: Lang<byte>, fin: nat)
    requires c < |m| && c != fin && m[c].edges == [Free(f), Free(a)] && Passes(m, f, c, l, fin)
    ensures Passes(m, f, a, Repeat(l, 1, -1), fin)
  {
    forall w, n: nat | Path(m, f, w, fin, n)
      ensures Leaves(m, a, Repeat(l, 1, -1), w, fin, n)
    {
      LoopLeaves(m, f, c, a, l, fin, w, n);
    }
    forall u, v | u in Repeat(l, 1, -1) && Reads(m, a, v, fin)
      ensures Reads(m, f, u + v, fin)
    {
      var n: nat :| RepeatsIn(l, 1, -1, u, n);
      LoopReads(m, f, c, a, l, fin, u, v, n);
    }
  }
}
