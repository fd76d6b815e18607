/** When the size limit makes the order of interning visible. Lists are sorted by id before
    they are cut, so what a cut keeps depends on which stack was interned first. */
module CutOrder {
  import opened Grammar
  import opened Pushdown
  import opened IdLists
  import opened Interning

  /** An arena in which the increasing list `ids` stands for `full`. */
  ghost predicate Orders(rules: Rules, arena: seq<Node>, table: map<Key, int>, full: set<Stack>, ids: seq<int>)
  {
    && ArenaOk(arena) && InternOk(arena, table) && StacksOk(rules, arena)
    && IdsIn(arena, ids) && Increasing(ids) && StacksOf(arena, ids) == full
  }

  function Cut(ids: seq<int>, lim: nat): seq<int>
  {
    if |ids| > lim then ids[..lim] else ids
  }

  /** Two arenas keep the same stacks of `full`. */
  ghost predicate Agree(rules: Rules, full: set<Stack>, lim: nat,
                        a1: seq<Node>, t1: map<Key, int>, i1: seq<int>, a2: seq<Node>, t2: map<Key, int>, i2: seq<int>)
  {
    Orders(rules, a1, t1, full, i1) && Orders(rules, a2, t2, full, i2) ==>
      StacksOf(a1, Cut(i1, lim)) == StacksOf(a2, Cut(i2, lim))
  }

  /** What a cut of `full` keeps does not depend on the order of interning. */
  ghost predicate OrderFree(rules: Rules, full: set<Stack>, lim: nat)
  {
    forall a1, t1, i1, a2, t2, i2 :: Agree(rules, full, lim, a1, t1, i1, a2, t2, i2)
  }

  // ----- when the order cannot show -----

  lemma OrderCannotShow(rules: Rules, full: set<Stack>, lim: nat, arena: seq<Node>, table: map<Key, int>, ids: seq<int>)
    requires Orders(rules, arena, table, full, ids) && (|full| <= lim || (lim == 1 && Empty in full))
    ensures StacksOf(arena, Cut(ids, lim)) == if |full| <= lim then full else {Empty}
  {
    StacksOfSize(arena, table, ids);
    if |full| > lim {
      EmptyIsMinusOne(arena, ids);
      MinusOneFirst(arena, ids);
      assert Cut(ids, lim) == [-1];
      assert StackOf(arena, -1) == Empty;
    }
  }

  // ----- interning in any order -----

  /** `t` is `s` or the stack under some of its frames. */
  predicate IsTail(t: Stack, s: Stack)
  {
    t == s || (s.Push? && IsTail(t, s.below))
  }

  /** Frames under others sit at references, so a waiting stack is under no other one. */
  lemma {:induction false} TailsCall(rules: Rules, t: Stack, s: Stack)
    requires CallerOk(rules, s) && IsTail(t, s)
    ensures CallerOk(rules, t)
    decreases s
  {
    if t != s {
      TailsCall(rules, t, s.below);
    }
  }

  lemma {:induction false} WaitingIsNoTail(rules: Rules, t: Stack, s: Stack)
    requires Settled(rules, t) && t.Push? && StackOk(rules, s) && IsTail(t, s)
    ensures t == s
  {
    if t != s {
      TailsCall(rules, t, s.below);
    }
  }

  ghost predicate MemoOk(rules: Rules, arena: seq<Node>, table: map<Key, int>)
  {
    ArenaOk(arena) && InternOk(arena, table) && StacksOk(rules, arena)
  }

  /** Interning a stack frame by frame adds only its tails. */
  lemma {:induction false} InternStack(rules: Rules, arena: seq<Node>, table: map<Key, int>, s: Stack)
    returns (arena': seq<Node>, table': map<Key, int>, id: int)
    requires MemoOk(rules, arena, table) && StackOk(rules, s)
    ensures MemoOk(rules, arena', table') && arena <= arena' && IsId(arena', id) && StackOf(arena', id) == s
    ensures forall i :: |arena| <= i < |arena'| ==> IsTail(StackOf(arena', i), s)
    decreases s
  {
    arena', table', id := arena, table, -1;
    if s.Push? {
      var parent;
      arena', table', parent := InternStack(rules, arena, table, s.below);
      var key := Key(s.pos, parent);
      if key in table' {
        id := table'[key];
        assert KeyOf(arena'[id]) == key;
      } else {
        var before := arena';
        PushNode(rules, arena', table', s.pos, parent);
        id := |arena'|;
        arena' := arena' + [Node(s.pos, parent, if parent < 0 then 1 else arena'[parent].depth + 1)];
        table' := table'[key := id];
        forall i | |arena| <= i < |arena'|
          ensures IsTail(StackOf(arena', i), s)
        {
          if i < id {
            StackOfGrows(before, arena', i);
          }
        }
      }
    }
  }

  /** Distinct waiting stacks. */
  ghost predicate Listed(rules: Rules, order: seq<Stack>)
  {
    && (forall k :: 0 <= k < |order| ==> order[k].Push? && Settled(rules, order[k]))
    && (forall j, k :: 0 <= j < k < |order| ==> order[j] != order[k])
  }

  predicate UnderOne(t: Stack, order: seq<Stack>)
  {
    exists k :: 0 <= k < |order| && IsTail(t, order[k])
  }

  /** Every interned stack lies in or under one of the list. */
  ghost predicate OnlyTails(arena: seq<Node>, order: seq<Stack>)
    requires ArenaOk(arena)
  {
    forall i :: 0 <= i < |arena| ==> UnderOne(StackOf(arena, i), order)
  }

  /** The ids increase along the list. */
  ghost predicate InOrder(arena: seq<Node>, list: seq<Stack>, ids: seq<int>)
    requires ArenaOk(arena)
  {
    && |ids| == |list| && Increasing(ids)
    && forall k :: 0 <= k < |ids| ==> IsId(arena, ids[k]) && StackOf(arena, ids[k]) == list[k]
  }

  lemma NothingInOrder(rules: Rules, arena: seq<Node>, table: map<Key, int>, ids: seq<int>)
    requires arena == [] && table == map[] && ids == []
    ensures MemoOk(rules, arena, table) && OnlyTails(arena, []) && InOrder(arena, [], ids)
  {
  }

  lemma WaitingIsOk(rules: Rules, s: Stack)
    requires Settled(rules, s)
    ensures StackOk(rules, s)
  {
  }

  /** Any list of distinct waiting stacks can be interned in its order. */
  lemma {:induction false} InternInOrder(rules: Rules, order: seq<Stack>)
    returns (arena: seq<Node>, table: map<Key, int>, ids: seq<int>)
    requires Listed(rules, order)
    ensures MemoOk(rules, arena, table) && OnlyTails(arena, order) && InOrder(arena, order, ids)
    decreases |order|
  {
    hide InternOk, StacksOk, OnlyTails, InOrder, Settled;
    arena, table, ids := [], map[], [];
    NothingInOrder(rules, arena, table, ids);
    if order != [] {
      var n := |order| - 1;
      var init, s := order[..n], order[n];
      assert StackOk(rules, s) by {
        WaitingIsOk(rules, s);
      }
      var a0, t0, i0 := InternInOrder(rules, init);
      var id;
      arena, table, id := InternStack(rules, a0, t0, s);
      ids := i0 + [id];
      IsNew(rules, a0, init, arena, s, id);
      StillInOrder(a0, init, i0, arena, s, id);
      StillOnlyTails(a0, init, arena, s);
      assert order == init + [s];
    }
  }

  lemma {:induction false} IsNew(rules: Rules, a0: seq<Node>, init: seq<Stack>, arena: seq<Node>, s: Stack, id: int)
    requires ArenaOk(a0) && ArenaOk(arena) && a0 <= arena && OnlyTails(a0, init) && Listed(rules, init + [s])
    requires IsId(arena, id) && StackOf(arena, id) == s
    ensures id >= |a0|
  {
    assert (init + [s])[|init|] == s;
    if 0 <= id < |a0| {
      StackOfGrows(a0, arena, id);
      assert UnderOne(StackOf(a0, id), init);
      var k :| 0 <= k < |init| && IsTail(s, init[k]);
      assert (init + [s])[k] == init[k];
      WaitingIsNoTail(rules, s, init[k]);
    }
  }

  lemma {:induction false} StillInOrder(a0: seq<Node>, init: seq<Stack>, i0: seq<int>, arena: seq<Node>, s: Stack, id: int)
    requires ArenaOk(a0) && ArenaOk(arena) && a0 <= arena && InOrder(a0, init, i0)
    requires |a0| <= id < |arena| && StackOf(arena, id) == s
    ensures InOrder(arena, init + [s], i0 + [id])
  {
    forall k | 0 <= k < |i0|
      ensures StackOf(arena, i0[k]) == init[k]
    {
      StackOfGrows(a0, arena, i0[k]);
    }
  }

  lemma {:induction false} StillOnlyTails(a0: seq<Node>, init: seq<Stack>, arena: seq<Node>, s: Stack)
    requires ArenaOk(a0) && ArenaOk(arena) && a0 <= arena && OnlyTails(a0, init)
    requires forall i :: |a0| <= i < |arena| ==> IsTail(StackOf(arena, i), s)
    ensures OnlyTails(arena, init + [s])
  {
    forall i | 0 <= i < |arena|
      ensures UnderOne(StackOf(arena, i), init + [s])
    {
      if i < |a0| {
        StackOfGrows(a0, arena, i);
        assert UnderOne(StackOf(a0, i), init);
        var k :| 0 <= k < |init| && IsTail(StackOf(a0, i), init[k]);
        assert (init + [s])[k] == init[k];
      } else {
        assert (init + [s])[|init|] == s;
      }
    }
  }

  // ----- two orders -----

  ghost function Elements(order: seq<Stack>): set<Stack>
  {
    set k | 0 <= k < |order| :: order[k]
  }

  /** The waiting stacks behind the finished parse, if that is among them. */
  function Front(done: bool, order: seq<Stack>): seq<Stack>
  {
    (if done then [Empty] else []) + order
  }

  lemma InOrderIsSet(arena: seq<Node>, list: seq<Stack>, ids: seq<int>)
    requires ArenaOk(arena) && InOrder(arena, list, ids)
    ensures StacksOf(arena, ids) == Elements(list)
  {
    forall s
      ensures s in StacksOf(arena, ids) <==> s in Elements(list)
    {
      if s in StacksOf(arena, ids) {
        var id :| id in ids && IsId(arena, id) && StackOf(arena, id) == s;
        var k :| 0 <= k < |ids| && ids[k] == id;
        assert list[k] == s;
      }
      if s in Elements(list) {
        var k :| 0 <= k < |list| && list[k] == s;
        assert ids[k] in ids && StackOf(arena, ids[k]) == s;
      }
    }
  }

  lemma {:induction false} OrderOf(rules: Rules, order: seq<Stack>, done: bool)
    returns (arena: seq<Node>, table: map<Key, int>, ids: seq<int>)
    requires Listed(rules, order)
    ensures Orders(rules, arena, table, Elements(Front(done, order)), ids) && InOrder(arena, Front(done, order), ids)
  {
    hide Settled, OnlyTails, InternOk, StacksOk, Elements;
    var own;
    arena, table, own := InternInOrder(rules, order);
    ids := (if done then [-1] else []) + own;
    FrontInOrder(arena, order, own, done);
    InOrderIsSet(arena, Front(done, order), ids);
    IdsAreIn(arena, Front(done, order), ids);
  }

  lemma IdsAreIn(arena: seq<Node>, list: seq<Stack>, ids: seq<int>)
    requires ArenaOk(arena) && InOrder(arena, list, ids)
    ensures IdsIn(arena, ids)
  {
  }

  lemma FrontInOrder(arena: seq<Node>, order: seq<Stack>, own: seq<int>, done: bool)
    requires ArenaOk(arena) && InOrder(arena, order, own) && forall k :: 0 <= k < |order| ==> order[k].Push?
    ensures InOrder(arena, Front(done, order), (if done then [-1] else []) + own)
  {
    forall k | 0 <= k < |own|
      ensures own[k] >= 0
    {
      assert StackOf(arena, own[k]) == order[k];
    }
    assert StackOf(arena, -1) == Empty;
  }

  lemma {:induction false} ListSet(s: set<Stack>) returns (q: seq<Stack>)
    ensures Elements(q) == s && |q| == |s| && forall j, k :: 0 <= j < k < |q| ==> q[j] != q[k]
    decreases s
  {
    q := [];
    if s != {} {
      var x :| x in s;
      var r := ListSet(s - {x});
      q := r + [x];
      assert forall k :: 0 <= k < |r| ==> r[k] in Elements(r);
      forall y
        ensures y in Elements(q) <==> y in s
      {
        if y in Elements(r) {
          var k :| 0 <= k < |r| && r[k] == y;
          assert q[k] == y;
        }
        assert q[|r|] == x;
      }
    }
  }

  /** A stack of the list survives the cut iff it comes early enough. */
  lemma SurvivesIff(list: seq<Stack>, lim: nat, arena: seq<Node>, table: map<Key, int>, ids: seq<int>, k: nat)
    requires ArenaOk(arena) && InternOk(arena, table) && InOrder(arena, list, ids) && k < |list|
    ensures list[k] in StacksOf(arena, Cut(ids, lim)) <==> k < lim
  {
    var cut := Cut(ids, lim);
    if k < lim {
      assert cut[k] == ids[k];
      assert ids[k] in cut;
    } else if list[k] in StacksOf(arena, cut) {
      var id :| id in cut && IsId(arena, id) && StackOf(arena, id) == list[k];
      StackOfInjective(arena, table, id, ids[k]);
    }
  }

  /** The waiting stacks of a set in two orders, the first of which puts a given place last
      and the second first. */
  lemma TwoOrders(rules: Rules, order: seq<Stack>, m: nat) returns (other: seq<Stack>)
    requires Listed(rules, order) && m < |order|
    ensures Listed(rules, other) && Elements(other) == Elements(order) && |other| == |order| && other[0] == order[m]
  {
    other := [order[m]] + order[..m] + order[m + 1..];
    forall s
      ensures s in Elements(other) <==> s in Elements(order)
    {
      if s in Elements(order) {
        var k :| 0 <= k < |order| && order[k] == s;
        assert other[if k == m then 0 else if k < m then k + 1 else k] == s;
      }
    }
  }

  lemma OrderShows(rules: Rules, full: set<Stack>, lim: nat)
    requires AllSettled(rules, full) && 0 < lim < |full| && !(lim == 1 && Empty in full)
    ensures !OrderFree(rules, full, lim)
  {
    hide OrderFree, Settled;
    var done, m := Empty in full, if Empty in full then lim - 1 else lim;
    var order := ListSet(full - {Empty});
    forall k | 0 <= k < |order|
      ensures order[k].Push? && Settled(rules, order[k])
    {
      assert order[k] in Elements(order);
    }
    TwoOrdersDiffer(rules, full, lim, done, order, m);
  }

  lemma TwoOrdersDiffer(rules: Rules, full: set<Stack>, lim: nat, done: bool, order: seq<Stack>, m: nat)
    requires Listed(rules, order) && full == Elements(order) + (if done then {Empty} else {})
    requires m < |order| && lim == (if done then m + 1 else m) && m > 0
    ensures !OrderFree(rules, full, lim)
  {
    hide Listed, Elements, Orders, StacksOf, InOrder, Cut, ArenaOk, InternOk;
    var other := TwoOrders(rules, order, m);
    FrontElements(done, order);
    FrontElements(done, other);
    var a1, t1, i1 := OrderOf(rules, order, done);
    var a2, t2, i2 := OrderOf(rules, other, done);
    Survives(rules, full, Front(done, order), lim, a1, t1, i1, if done then m + 1 else m);
    Survives(rules, full, Front(done, other), lim, a2, t2, i2, if done then 1 else 0);
    assert !Agree(rules, full, lim, a1, t1, i1, a2, t2, i2);
  }

  lemma Survives(rules: Rules, full: set<Stack>, list: seq<Stack>, lim: nat,
                 arena: seq<Node>, table: map<Key, int>, ids: seq<int>, k: nat)
    requires Orders(rules, arena, table, full, ids) && InOrder(arena, list, ids) && k < |list|
    ensures ArenaOk(arena) && (list[k] in StacksOf(arena, Cut(ids, lim)) <==> k < lim)
  {
    SurvivesIff(list, lim, arena, table, ids, k);
  }

  lemma FrontElements(done: bool, order: seq<Stack>)
    ensures Elements(Front(done, order)) == Elements(order) + if done then {Empty} else {}
  {
    var list, d := Front(done, order), if done then 1 else 0;
    forall s
      ensures s in Elements(list) <==> s in Elements(order) || (done && s == Empty)
    {
      if s in Elements(order) {
        var k :| 0 <= k < |order| && order[k] == s;
        assert list[k + d] == s;
      }
      if s in Elements(list) {
        var k :| 0 <= k < |list| && list[k] == s;
        assert k >= d ==> s == order[k - d];
      }
      if done {
        assert list[0] == Empty;
      }
    }
  }

  /** A cut of waiting and finished parses is the same in every order of interning iff
      nothing is cut, or only the finished parse is kept. */
  lemma OrderFreeIff(rules: Rules, full: set<Stack>, lim: nat)
    requires AllSettled(rules, full) && lim > 0
    ensures OrderFree(rules, full, lim) <==> |full| <= lim || (lim == 1 && Empty in full)
  {
    if |full| <= lim || (lim == 1 && Empty in full) {
      forall a1, t1, i1, a2, t2, i2
        ensures Agree(rules, full, lim, a1, t1, i1, a2, t2, i2)
      {
        if Orders(rules, a1, t1, full, i1) && Orders(rules, a2, t2, full, i2) {
          OrderCannotShow(rules, full, lim, a1, t1, i1);
          OrderCannotShow(rules, full, lim, a2, t2, i2);
        }
      }
    } else {
      OrderShows(rules, full, lim);
    }
  }
}
