/** The memo of a grammar as a value, and what each operation on it does: the answers of a
    grammar are a function of its rules, its limits and what it has interned and cached. */
module MemoSteps {
  import opened CharSets
  import opened Grammar
  import opened Pushdown
  import opened IdLists
  import opened Interning

  datatype Memo = Memo(arena: seq<Node>, table: map<Key, int>, visited: seq<uint32>, epoch: uint32,
                       cache: seq<seq<int>>, ready: seq<bool>)

  function Interned(m: Memo, pos: Pos, parent: int): (Memo, int)
  {
    var key := Key(pos, parent);
    if key in m.table then (m, m.table[key])
    else
      var depth := if 0 <= parent < |m.arena| then m.arena[parent].depth + 1 else 1;
      (m.(arena := m.arena + [Node(pos, parent, depth)], table := m.table[key := |m.arena|],
          visited := m.visited + [0]), |m.arena|)
  }

  function Begun(m: Memo): Memo
  {
    if m.epoch + 1 == 0x1_0000_0000 then m.(visited := seq(|m.visited|, _ => 0), epoch := 1)
    else m.(epoch := m.epoch + 1)
  }

  // ----- expansion -----

  /** The first `n` alternatives of a rule, queued above stack `s`. */
  function Descended(m: Memo, s: nat, target: nat, n: nat, queue: seq<int>): (Memo, seq<int>)
    decreases n
  {
    if n == 0 then (m, queue)
    else
      var before := Descended(m, s, target, n - 1, queue);
      var one := Interned(before.0, Pos(target, n - 1, 0), s);
      (one.0, before.1 + [one.1])
  }

  function Returned(m: Memo, s: nat, queue: seq<int>): (Memo, seq<int>)
  {
    var parent := if s < |m.arena| then m.arena[s].parent else -1;
    if 0 <= parent < |m.arena| then
      var up := m.arena[parent];
      var one := Interned(m, Pos(up.pos.rule, up.pos.alt, up.pos.idx + 1), up.parent);
      (one.0, queue + [one.1])
    else (m, queue + [-1])
  }

  /** A memo in the middle of an expansion. */
  datatype Work = Work(memo: Memo, queue: seq<int>, found: seq<int>)

  function Visited(rules: Rules, cap: nat, w: Work, s: nat): Work
  {
    if !(s < |w.memo.arena| && s < |w.memo.visited| && PosOk(rules, w.memo.arena[s].pos)) then w
    else
      var m, p := w.memo.(visited := w.memo.visited[s := w.memo.epoch]), w.memo.arena[s].pos;
      var alt := rules[p.rule].alts[p.alt];
      if p.idx >= |alt| then
        var r := Returned(m, s, w.queue);
        Work(r.0, r.1, w.found)
      else if alt[p.idx].Chars? then Work(m, w.queue, w.found + [s])
      else if m.arena[s].depth >= cap || alt[p.idx].rule >= |rules| then Work(m, w.queue, w.found)
      else
        var r := Descended(m, s, alt[p.idx].rule, |rules[alt[p.idx].rule].alts|, w.queue);
        Work(r.0, r.1, w.found)
  }

  /** One turn of the loop: the last queued stack is handled. */
  function Turn(rules: Rules, cap: nat, w: Work): Work
  {
    if w.queue == [] then w
    else
      var n := |w.queue| - 1;
      var s, rest := w.queue[n], w.(queue := w.queue[..n]);
      if s < 0 then rest.(found := w.found + [-1])
      else if s < |w.memo.visited| && w.memo.visited[s] == w.memo.epoch then rest
      else Visited(rules, cap, rest, s)
  }

  function Turns(rules: Rules, cap: nat, w: Work, n: nat): Work
    decreases n
  {
    if n == 0 then w else Turn(rules, cap, Turns(rules, cap, w, n - 1))
  }

  ghost predicate EndsWith(rules: Rules, cap: nat, w: Work, n: nat, end: Work)
  {
    Turns(rules, cap, w, n) == end && end.queue == []
  }

  lemma {:induction false} EndedStays(rules: Rules, cap: nat, w: Work, n: nat, k: nat, end: Work)
    requires EndsWith(rules, cap, w, n, end) && n <= k
    ensures Turns(rules, cap, w, k) == end
    decreases k
  {
    if n < k {
      EndedStays(rules, cap, w, n, k - 1, end);
    }
  }

  ghost predicate Ends(rules: Rules, cap: nat, w: Work, end: Work)
  {
    exists n: nat :: EndsWith(rules, cap, w, n, end)
  }

  /** Where the loop ends, if it does. */
  ghost function End(rules: Rules, cap: nat, w: Work): Work
  {
    if exists end :: Ends(rules, cap, w, end) then
      var end :| Ends(rules, cap, w, end);
      end
    else w
  }

  lemma {:induction false} EndIs(rules: Rules, cap: nat, w: Work, n: nat, end: Work)
    requires EndsWith(rules, cap, w, n, end)
    ensures End(rules, cap, w) == end
  {
    assert Ends(rules, cap, w, end);
    var e := End(rules, cap, w);
    var k: nat :| EndsWith(rules, cap, w, k, e);
    if k <= n {
      EndedStays(rules, cap, w, k, n, e);
    } else {
      EndedStays(rules, cap, w, n, k, end);
    }
  }

  ghost function Expanded(rules: Rules, cap: nat, m: Memo, stack: int, found: seq<int>): (Memo, seq<int>)
  {
    var end := End(rules, cap, Work(m, [stack], found));
    (end.memo, end.found)
  }

  // ----- sorting -----

  ghost function SortedIds(ids: seq<int>): seq<int>
  {
    if exists out :: Increasing(out) && SameIds(out, ids) then
      var out :| Increasing(out) && SameIds(out, ids);
      out
    else ids
  }

  lemma {:induction false} IncreasingIsUnique(a: seq<int>, b: seq<int>)
    requires Increasing(a) && Increasing(b) && SameIds(a, b)
    ensures a == b
    decreases |a|
  {
    if b != [] {
      assert b[0] in b;
    }
    if a != [] {
      var x := a[|a| - 1];
      assert x in a && x in b;
      var y := b[|b| - 1];
      assert y in b && y in a;
      var j :| 0 <= j < |a| && a[j] == y;
      var k :| 0 <= k < |b| && b[k] == x;
      assert x == y;
      InitSame(a, b);
      IncreasingIsUnique(a[..|a| - 1], b[..|b| - 1]);
    }
  }

  lemma InitSame(a: seq<int>, b: seq<int>)
    requires Increasing(a) && Increasing(b) && SameIds(a, b) && a != [] && b != [] && a[|a| - 1] == b[|b| - 1]
    ensures SameIds(a[..|a| - 1], b[..|b| - 1])
  {
    var i, j := a[..|a| - 1], b[..|b| - 1];
    forall x
      ensures x in i <==> x in j
    {
      InInit(a, x);
      InInit(b, x);
    }
  }

  lemma InInit(a: seq<int>, x: int)
    requires Increasing(a) && a != []
    ensures x in a[..|a| - 1] <==> x in a && x != a[|a| - 1]
  {
    if x in a && x != a[|a| - 1] {
      var k :| 0 <= k < |a| && a[k] == x;
      assert a[..|a| - 1][k] == x;
    }
  }

  lemma SortedIs(ids: seq<int>, out: seq<int>)
    requires Increasing(out) && SameIds(out, ids)
    ensures SortedIds(ids) == out
  {
    var s := SortedIds(ids);
    assert Increasing(s) && SameIds(s, ids);
    IncreasingIsUnique(s, out);
  }

  ghost function SortedCut(ids: seq<int>, lim: nat): seq<int>
  {
    var out := SortedIds(ids);
    if |out| > lim then out[..lim] else out
  }

  // ----- successors -----

  ghost function FreshNext(rules: Rules, cap: nat, lim: nat, m: Memo, s: nat): (Memo, seq<int>)
  {
    if s >= |m.arena| then (m, [])
    else
      var n := m.arena[s];
      var one := Interned(Begun(m), Pos(n.pos.rule, n.pos.alt, n.pos.idx + 1), n.parent);
      var all := Expanded(rules, cap, one.0, one.1, []);
      (all.0, SortedCut(all.1, lim))
  }

  function Stored(m: Memo, s: nat, next: seq<int>): Memo
  {
    var short := |m.arena| - |m.ready|;
    if s >= |m.arena| || short < 0 || |m.cache| != |m.ready| then m
    else
      m.(ready := (m.ready + seq(short, _ => false))[s := true], cache := (m.cache + seq(short, _ => []))[s := next])
  }

  ghost function Next(rules: Rules, cap: nat, lim: nat, m: Memo, s: nat): (Memo, seq<int>)
  {
    if s < |m.ready| && s < |m.cache| && m.ready[s] then (m, m.cache[s])
    else
      var one := FreshNext(rules, cap, lim, m, s);
      (Stored(one.0, s, one.1), one.1)
  }

  // ----- a step -----

  /** Does stack `s` wait for `c`? */
  predicate WaitsAt(rules: Rules, m: Memo, s: int, c: uint32)
  {
    0 <= s < |m.arena| && PosOk(rules, m.arena[s].pos) &&
    var p := m.arena[s].pos;
    var alt := rules[p.rule].alts[p.alt];
    p.idx < |alt| && alt[p.idx].Chars? && Contains(alt[p.idx].cs, c)
  }

  ghost function StepOf(rules: Rules, cap: nat, lim: nat, m: Memo, s: int, c: uint32, found: seq<int>): (Memo, seq<int>)
  {
    if WaitsAt(rules, m, s, c) then
      var one := Next(rules, cap, lim, m, s);
      (one.0, found + one.1)
    else (m, found)
  }

  ghost function StepsOf(rules: Rules, cap: nat, lim: nat, m: Memo, stacks: seq<int>, c: uint32, n: nat): (Memo, seq<int>)
    requires n <= |stacks|
    decreases n
  {
    if n == 0 then (m, [])
    else
      var before := StepsOf(rules, cap, lim, m, stacks, c, n - 1);
      StepOf(rules, cap, lim, before.0, stacks[n - 1], c, before.1)
  }

  ghost function Stepped(rules: Rules, cap: nat, lim: nat, m: Memo, stacks: seq<int>, c: uint32): (Memo, seq<int>)
  {
    var all := StepsOf(rules, cap, lim, m, stacks, c, |stacks|);
    (all.0, SortedCut(all.1, lim))
  }
}
