/** Hash-consed stacks: the arena of frames, the intern table, and the facts that
    make ids stand for frame lists. */
module Interning {
  import opened Grammar
  import opened Pushdown
  import opened FirstPositions
  import opened IdLists

  /** One interned frame: a position plus the id of the continuation below it. */
  datatype Node = Node(pos: Pos, parent: int, depth: nat)

  datatype Key = Key(pos: Pos, parent: int)

  function KeyOf(n: Node): Key
  {
    Key(n.pos, n.parent)
  }

  /** Parents come first, and the recorded depth is one more than the parent's. */
  predicate ArenaOk(arena: seq<Node>)
  {
    forall i :: 0 <= i < |arena| ==> NodeOk(arena, i)
  }

  predicate NodeOk(arena: seq<Node>, i: nat)
    requires i < |arena|
  {
    var n := arena[i];
    -1 <= n.parent < i && n.depth == if n.parent < 0 then 1 else arena[n.parent].depth + 1
  }

  predicate IsId(arena: seq<Node>, id: int)
  {
    -1 <= id < |arena|
  }

  /** The frame list an id stands for; -1 is the empty one. */
  function StackOf(arena: seq<Node>, id: int): Stack
    requires ArenaOk(arena) && IsId(arena, id)
    decreases id + 1
  {
    if id < 0 then Empty else assert NodeOk(arena, id); Push(arena[id].pos, StackOf(arena, arena[id].parent))
  }

  predicate InternOk(arena: seq<Node>, table: map<Key, int>)
  {
    && (forall k :: k in table ==> 0 <= table[k] < |arena| && KeyOf(arena[table[k]]) == k)
    && (forall i :: 0 <= i < |arena| ==> KeyOf(arena[i]) in table && table[KeyOf(arena[i])] == i)
  }

  predicate IdsIn(arena: seq<Node>, ids: seq<int>)
  {
    forall k :: 0 <= k < |ids| ==> IsId(arena, ids[k])
  }

  ghost function StacksOf(arena: seq<Node>, ids: seq<int>): set<Stack>
    requires ArenaOk(arena)
  {
    set id | id in ids && IsId(arena, id) :: StackOf(arena, id)
  }

  ghost predicate StacksOk(rules: Rules, arena: seq<Node>)
    requires ArenaOk(arena)
  {
    forall i :: 0 <= i < |arena| ==> StackOk(rules, StackOf(arena, i))
  }

  lemma {:induction false} StackIsOk(rules: Rules, arena: seq<Node>, id: int)
    requires ArenaOk(arena) && StacksOk(rules, arena) && IsId(arena, id)
    ensures StackOk(rules, StackOf(arena, id))
  {
  }

  lemma {:induction false} DepthIsRecorded(arena: seq<Node>, id: int)
    requires ArenaOk(arena) && IsId(arena, id)
    ensures Depth(StackOf(arena, id)) == if id < 0 then 0 else arena[id].depth
    decreases id + 1
  {
    if id >= 0 {
      assert NodeOk(arena, id);
      DepthIsRecorded(arena, arena[id].parent);
    }
  }

  /** Growing the arena never changes what an id stands for. */
  lemma {:induction false} StackOfGrows(arena: seq<Node>, arena': seq<Node>, id: int)
    requires ArenaOk(arena) && ArenaOk(arena') && arena <= arena' && IsId(arena, id)
    ensures StackOf(arena', id) == StackOf(arena, id)
    decreases id + 1
  {
    if id >= 0 {
      assert NodeOk(arena, id) && arena'[id] == arena[id];
      StackOfGrows(arena, arena', arena[id].parent);
    }
  }

  lemma StacksOfGrows(arena: seq<Node>, arena': seq<Node>, ids: seq<int>)
    requires ArenaOk(arena) && ArenaOk(arena') && arena <= arena' && IdsIn(arena, ids)
    ensures IdsIn(arena', ids) && StacksOf(arena', ids) == StacksOf(arena, ids)
  {
    forall id | id in ids
      ensures IsId(arena, id) && StackOf(arena', id) == StackOf(arena, id)
    {
      StackOfGrows(arena, arena', id);
    }
    assert forall s :: s in StacksOf(arena', ids) <==> s in StacksOf(arena, ids);
  }

  /** Two ids never stand for the same frame list. */
  lemma {:induction false} StackOfInjective(arena: seq<Node>, table: map<Key, int>, i: int, j: int)
    requires ArenaOk(arena) && InternOk(arena, table) && IsId(arena, i) && IsId(arena, j)
    requires StackOf(arena, i) == StackOf(arena, j)
    ensures i == j
    decreases i + 1
  {
    if i >= 0 && j >= 0 {
      assert NodeOk(arena, i) && NodeOk(arena, j);
      StackOfInjective(arena, table, arena[i].parent, arena[j].parent);
      assert KeyOf(arena[i]) == KeyOf(arena[j]);
    }
  }

  lemma PushNode(rules: Rules, arena: seq<Node>, table: map<Key, int>, pos: Pos, parent: int)
    requires ArenaOk(arena) && InternOk(arena, table) && StacksOk(rules, arena) && IsId(arena, parent)
    requires Key(pos, parent) !in table && StackOk(rules, Push(pos, StackOf(arena, parent)))
    ensures var depth := if parent < 0 then 1 else arena[parent].depth + 1;
            var arena' := arena + [Node(pos, parent, depth)];
            && ArenaOk(arena') && StackOf(arena', |arena|) == Push(pos, StackOf(arena, parent))
            && InternOk(arena', table[Key(pos, parent) := |arena|]) && StacksOk(rules, arena')
  {
    var depth := if parent < 0 then 1 else arena[parent].depth + 1;
    var arena' := arena + [Node(pos, parent, depth)];
    forall i | 0 <= i < |arena'|
      ensures NodeOk(arena', i)
    {
      assert i < |arena| ==> NodeOk(arena, i);
    }
    StackOfGrows(arena, arena', parent);
    forall i | 0 <= i < |arena'|
      ensures StackOk(rules, StackOf(arena', i))
    {
      if i < |arena| {
        StackOfGrows(arena, arena', i);
      }
    }
  }

  // ----- sorted id lists -----

  lemma SameIdsSameStacks(arena: seq<Node>, a: seq<int>, b: seq<int>)
    requires ArenaOk(arena) && SameIds(a, b) && IdsIn(arena, a)
    ensures IdsIn(arena, b) && StacksOf(arena, a) == StacksOf(arena, b)
  {
    forall k | 0 <= k < |b|
      ensures IsId(arena, b[k])
    {
      var x := b[k];
      assert x in b;
      assert x in a;
    }
  }

  lemma {:induction false} LargerIsNew(arena: seq<Node>, table: map<Key, int>, ids: seq<int>, id: int)
    requires ArenaOk(arena) && InternOk(arena, table) && IsId(arena, id)
    requires forall k :: 0 <= k < |ids| ==> ids[k] < id
    ensures StackOf(arena, id) !in StacksOf(arena, ids)
  {
    forall x | x in ids && IsId(arena, x)
      ensures StackOf(arena, x) != StackOf(arena, id)
    {
      if StackOf(arena, x) == StackOf(arena, id) {
        StackOfInjective(arena, table, x, id);
      }
    }
  }

  lemma SnocSize(arena: seq<Node>, table: map<Key, int>, ids: seq<int>, id: int)
    requires ArenaOk(arena) && InternOk(arena, table) && IsId(arena, id)
    requires forall k :: 0 <= k < |ids| ==> ids[k] < id
    requires |StacksOf(arena, ids)| == |ids|
    ensures |StacksOf(arena, ids + [id])| == |ids| + 1
  {
    LargerIsNew(arena, table, ids, id);
    StacksOfSnoc(arena, ids, id);
  }

  lemma SplitLast(ids: seq<int>) returns (init: seq<int>, last: int)
    requires ids != [] && Increasing(ids)
    ensures ids == init + [last] && Increasing(init) && forall k :: 0 <= k < |init| ==> init[k] < last
  {
    init, last := ids[..|ids| - 1], ids[|ids| - 1];
  }

  /** A sorted id list is as long as the set of frame lists it stands for. */
  lemma {:induction false} StacksOfSize(arena: seq<Node>, table: map<Key, int>, ids: seq<int>)
    requires ArenaOk(arena) && InternOk(arena, table) && IdsIn(arena, ids) && Increasing(ids)
    ensures |StacksOf(arena, ids)| == |ids|
    decreases |ids|
  {
    if ids == [] {
      assert StacksOf(arena, ids) == {};
    } else {
      var init, last := SplitLast(ids);
      assert IsId(arena, ids[|init|]);
      assert forall k :: 0 <= k < |init| ==> init[k] == ids[k];
      StacksOfSize(arena, table, init);
      SnocSize(arena, table, init, last);
    }
  }

  lemma {:induction false} StacksOfSnoc(arena: seq<Node>, ids: seq<int>, id: int)
    requires ArenaOk(arena) && IsId(arena, id)
    ensures StacksOf(arena, ids + [id]) == StacksOf(arena, ids) + {StackOf(arena, id)}
  {
    assert forall x :: x in ids + [id] <==> x in ids || x == id;
  }

  lemma StacksOfConcat(arena: seq<Node>, a: seq<int>, b: seq<int>)
    requires ArenaOk(arena)
    ensures StacksOf(arena, a + b) == StacksOf(arena, a) + StacksOf(arena, b)
  {
    assert forall x :: x in a + b <==> x in a || x in b;
  }

  lemma EmptyIsMinusOne(arena: seq<Node>, ids: seq<int>)
    requires ArenaOk(arena)
    ensures Empty in StacksOf(arena, ids) <==> -1 in ids
  {
    if -1 in ids {
      assert IsId(arena, -1) && StackOf(arena, -1) == Empty;
    }
  }

  /** The finished parse sorts first. */
  lemma MinusOneFirst(arena: seq<Node>, ids: seq<int>)
    requires IdsIn(arena, ids) && Increasing(ids)
    ensures -1 in ids <==> ids != [] && ids[0] == -1
  {
    if -1 in ids {
      var k :| 0 <= k < |ids| && ids[k] == -1;
      assert ids[0] <= ids[k];
    }
  }

  // ----- what the size cap does to a result -----

  /** `got` stands for `full` under a limit of `lim` stacks: exact when `full` fits,
      otherwise `lim` members of it, and never without the finished parse. */
  ghost predicate Capped(full: set<Stack>, got: set<Stack>, lim: nat)
  {
    && got <= full
    && (|full| <= lim ==> got == full)
    && (|full| > lim ==> |got| == lim)
    && (Empty in full ==> Empty in got)
  }

  /** The same before the list is cut to the limit. */
  ghost predicate Enough(full: set<Stack>, got: set<Stack>, lim: nat)
  {
    && got <= full
    && (|full| <= lim ==> got == full)
    && (|full| > lim ==> |got| >= lim)
    && (Empty in full ==> Empty in got)
  }

  lemma CutIsCapped(arena: seq<Node>, table: map<Key, int>, full: set<Stack>, ids: seq<int>, lim: nat)
    requires ArenaOk(arena) && InternOk(arena, table) && IdsIn(arena, ids) && Increasing(ids)
    requires Enough(full, StacksOf(arena, ids), lim) && lim > 0
    ensures var cut := if |ids| > lim then ids[..lim] else ids;
            IdsIn(arena, cut) && Increasing(cut) && Capped(full, StacksOf(arena, cut), lim)
  {
    var cut := if |ids| > lim then ids[..lim] else ids;
    StacksOfSize(arena, table, ids);
    StacksOfSize(arena, table, cut);
    assert forall x :: x in cut ==> x in ids;
    SubsetSize(StacksOf(arena, ids), full);
    EmptyIsMinusOne(arena, ids);
    EmptyIsMinusOne(arena, cut);
    MinusOneFirst(arena, ids);
    assert ids != [] ==> cut[0] == ids[0];
  }

  lemma ExactIsEnough(full: set<Stack>, lim: nat)
    ensures Enough(full, full, lim)
  {
  }

  /** Two partial results with enough members have enough members together. */
  lemma EnoughUnion(f1: set<Stack>, g1: set<Stack>, f2: set<Stack>, g2: set<Stack>, lim: nat)
    requires Enough(f1, g1, lim) && Enough(f2, g2, lim)
    ensures Enough(f1 + f2, g1 + g2, lim)
  {
    SubsetSize(f1, f1 + f2);
    SubsetSize(f2, f1 + f2);
    SubsetSize(g1, g1 + g2);
    SubsetSize(g2, g1 + g2);
  }

  lemma CappedIsEnough(full: set<Stack>, got: set<Stack>, lim: nat)
    requires Capped(full, got, lim)
    ensures Enough(full, got, lim)
  {
  }
}
