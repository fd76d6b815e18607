/** A grammar whose answers depend on what was asked before: under a size limit of `lim`, the
    choice `root ::= A "x" | B "y" | ...` with one way more than that. All classes share a
    codepoint, and each has one of its own to ask about. */
module ProbeOrder {
  import opened CharSets
  import opened Languages
  import opened Grammar
  import opened Pushdown
  import opened IdLists
  import opened Interning
  import opened GbnfSyntax
  import opened GbnfReading
  import opened Reading
  import opened Representation
  import opened LeftRecursion
  import opened GbnfPrinting
  import opened GbnfGrammar

  /** A class, and the codepoint that follows it. */
  datatype Way = Way(cs: CharSet, x: uint32)

  function Elems(w: Way): seq<Elem>
  {
    [Set(w.cs), Lit([w.x])]
  }

  function Items(w: Way): seq<Item>
  {
    [Chars(w.cs), CharItem(w.x)]
  }

  function Written(ws: seq<Way>): (alts: seq<Branch>)
    ensures |alts| == |ws| && forall i :: 0 <= i < |ws| ==> alts[i] == Branch(Elems(ws[i]))
  {
    seq(|ws|, i requires 0 <= i < |ws| => Branch(Elems(ws[i])))
  }

  /** `c` can start every way, `probes[i]` only way `i`, and what follows tells them apart. */
  predicate Apart(ws: seq<Way>, c: uint32, probes: seq<uint32>)
  {
    && |probes| == |ws|
    && (forall i :: 0 <= i < |ws| ==> WellFormed(ws[i].cs) && Contains(ws[i].cs, c))
    && (forall i, j :: 0 <= i < |ws| && 0 <= j < |ws| ==> (Contains(ws[j].cs, probes[i]) <==> i == j))
    && (forall i, j :: 0 <= i < j < |ws| ==> ws[i].x != ws[j].x)
  }

  // ----- the text of the grammar -----

  function TextOf(ws: seq<Way>): Text
  {
    GrammarText([Definition(ROOT, Written(ws))])
  }

  predicate WaysOk(ws: seq<Way>)
  {
    ws != [] && forall i :: 0 <= i < |ws| ==> WellFormed(ws[i].cs)
  }

  lemma {:induction false} TextReads(ws: seq<Way>)
    requires WaysOk(ws)
    ensures ReadRules(TextOf(ws), map[]).Got? && ReadRules(TextOf(ws), map[]).value == map[ROOT := Written(ws)]
  {
    hide ReadRules, GrammarText;
    var d, none: Source := Definition(ROOT, Written(ws)), map[];
    var ds, g := [d], none[ROOT := Written(ws)];
    assert ds[1..] == [];
    WrittenOk(ws);
    assert NewNames(ds[1..], g) && SourceOf(ds[1..], g) == g;
    GrammarReadsBack(ds, none);
    assert g == map[ROOT := Written(ws)];
  }

  lemma WrittenOk(ws: seq<Way>)
    requires WaysOk(ws)
    ensures DefOk(Definition(ROOT, Written(ws)))
  {
    var alts := Written(ws);
    forall i | 0 <= i < |alts|
      ensures SeqOk(alts[i].elems)
    {
      var es := Elems(ws[i]);
      assert ElemOk(es[0]) && ElemOk(es[1]);
    }
  }

  lemma {:induction false} WaysCompile(ws: seq<Way>)
    requires WaysOk(ws)
    ensures Compiles(TextOf(ws))
  {
    hide ReadRules, TextOf;
    TextReads(ws);
    var g, alts := map[ROOT := Written(ws)], Written(ws);
    NoNames(alts);
    forall x, b, lo: nat, hi
      ensures !IsEmptyLoop(g, x, b, lo, hi)
    {
      if IsEmptyLoop(g, x, b, lo, hi) {
        NoLoops(alts, Rep(b, lo, hi));
      }
    }
    forall x, y
      ensures !Calls(g, x, y)
    {
      if Calls(g, x, y) {
        NoCalls(g, alts, y);
      }
    }
    NoCycle(g);
  }

  /** Alternatives of classes and literals only. */
  predicate IsFlat(alts: seq<Branch>)
  {
    forall i, j :: 0 <= i < |alts| && 0 <= j < |alts[i].elems| ==> alts[i].elems[j].Set? || alts[i].elems[j].Lit?
  }

  lemma {:induction false} NoLoops(alts: seq<Branch>, e: Elem)
    requires IsFlat(alts) && e.Rep?
    ensures !IsPartOfAlts(e, alts)
  {
    forall i | 0 <= i < |alts|
      ensures !IsPartOfSeq(e, alts[i].elems)
    {
      assert forall j :: 0 <= j < |alts[i].elems| ==> !IsPart(e, alts[i].elems[j]);
    }
  }

  lemma {:induction false} NoCalls(g: Source, alts: seq<Branch>, y: Name)
    requires IsFlat(alts)
    ensures !BeginsAlts(g, alts, y)
  {
    forall i | 0 <= i < |alts|
      ensures !BeginsSeq(g, alts[i].elems, y)
    {
      var es := alts[i].elems;
      forall j | 0 <= j < |es|
        ensures !BeginsAt(g, es, y, j)
      {
        assert !BeginsElem(g, es[j], y);
      }
    }
  }

  lemma {:induction false} NoNames(alts: seq<Branch>)
    requires IsFlat(alts)
    ensures AltsNames(alts) == {}
    decreases |alts|
  {
    if alts != [] {
      NoNames(alts[..|alts| - 1]);
      NoSeqNames(alts[|alts| - 1].elems);
    }
  }

  lemma {:induction false} NoSeqNames(es: seq<Elem>)
    requires forall j :: 0 <= j < |es| ==> es[j].Set? || es[j].Lit?
    ensures SeqNames(es) == {}
    decreases |es|
  {
    if es != [] {
      NoSeqNames(es[..|es| - 1]);
    }
  }

  lemma NoCycle(g: Source)
    requires forall x, y :: !Calls(g, x, y)
    ensures !HasCallCycle(g)
  {
    hide Calls;
    forall p: seq<Name> | |p| >= 2
      ensures !CallPath(g, p)
    {
      assert !Calls(g, p[0], p[0 + 1]);
    }
  }

  // ----- the table of the grammar -----

  /** Rule `r` is the choice. */
  predicate IsChoice(rules: Rules, r: nat, ws: seq<Way>)
  {
    && r < |rules| && |rules[r].alts| == |ws|
    && forall i :: 0 <= i < |ws| ==> rules[r].alts[i] == Items(ws[i])
  }

  lemma {:induction false} WayItems(rules: Rules, ids: Ids, items: seq<Item>, w: Way, es: seq<Elem>)
    requires es == Elems(w) && HasSeq(rules, ids, items, es)
    ensures items == Items(w)
  {
    var k :| 0 <= k <= |items| && HasSeqCut(rules, ids, items, es, k);
    var init := es[..|es| - 1];
    assert init == [Set(w.cs)] && HasSeq(rules, ids, items[..k], init);
    var j :| 0 <= j <= k && HasSeqCut(rules, ids, items[..k], init, j);
    var none := init[..|init| - 1];
    assert none == [] && HasSeq(rules, ids, items[..k][..j], none);
    var e, cps := Set(w.cs), [w.x];
    assert HasElem(rules, ids, items[..k][j..], e);
    assert items[..k] == items[..k][..j] + items[..k][j..];
    var lit := Lit(cps);
    assert HasElem(rules, ids, items[k..], lit) && cps[..0] == [];
    assert LitItems(cps[..0]) == [];
    assert items == items[..k] + items[k..];
  }

  lemma {:induction false} RootTable(rules: Rules, ids: Ids, g: Source, ws: seq<Way>)
    requires HasSource(rules, ids, g) && ROOT in ids && g[ROOT] == Written(ws)
    ensures IsChoice(rules, ids[ROOT], ws)
  {
    hide HasSeq;
    var alts := rules[ids[ROOT]].alts;
    assert HasAlts(rules, ids, alts, Written(ws));
    forall i | 0 <= i < |ws|
      ensures alts[i] == Items(ws[i])
    {
      WayItems(rules, ids, alts[i], ws[i], Written(ws)[i].elems);
    }
  }

  // ----- its stacks -----

  /** Way `i` with `n` of its items read. */
  function At(r: nat, i: nat, n: nat): Stack
  {
    Push(Pos(r, i, n), Empty)
  }

  ghost function Firsts(r: nat, n: nat): set<Stack>
  {
    set i: nat | i < n :: At(r, i, 0)
  }

  /** The ways that have read `c`. */
  ghost function Seconds(r: nat, ws: seq<Way>, c: uint32): set<Stack>
  {
    set i: nat | i < |ws| && Contains(ws[i].cs, c) :: At(r, i, 1)
  }

  /** A waiting stack makes no move. */
  lemma {:induction false} WaitingStays(rules: Rules, cap: nat, s: Stack, t: Stack)
    requires StackOk(rules, s) && AtChars(rules, s) && Reachable(rules, cap, s, t)
    ensures t == s
  {
    var n: nat :| Reach(rules, cap, s, t, n);
    assert n == 0;
  }

  lemma {:induction false} SettledWaiting(rules: Rules, cap: nat, s: Stack)
    requires StackOk(rules, s) && AtChars(rules, s)
    ensures SettledFrom(rules, cap, s) == {s}
  {
    ReachableSelf(rules, cap, s);
    SettledFromIff(rules, cap, s, s);
    forall t | t in SettledFrom(rules, cap, s)
      ensures t == s
    {
      SettledFromIff(rules, cap, s, t);
      WaitingStays(rules, cap, s, t);
    }
  }

  lemma {:induction false} SettledDone(rules: Rules, cap: nat, s: Stack)
    requires StackOk(rules, s) && Finished(rules, s) && s.below == Empty
    ensures SettledFrom(rules, cap, s) == {Empty}
  {
    ReachableSelf(rules, cap, Empty);
    assert Move(rules, cap, s, Empty);
    ReachableCons(rules, cap, s, Empty, Empty);
    SettledFromIff(rules, cap, s, Empty);
    forall t | t in SettledFrom(rules, cap, s)
      ensures t == Empty
    {
      SettledFromIff(rules, cap, s, t);
      var n: nat :| Reach(rules, cap, s, t, n);
      if n > 0 {
        var m :| Move(rules, cap, s, m) && Reach(rules, cap, m, t, n - 1);
        assert m == Empty && n == 1;
      }
    }
  }

  lemma {:induction false} WayStacks(rules: Rules, r: nat, ws: seq<Way>, cap: nat, i: nat)
    requires IsChoice(rules, r, ws) && i < |ws|
    ensures StackOk(rules, At(r, i, 0)) && AtChars(rules, At(r, i, 0)) && TopChars(rules, At(r, i, 0)) == ws[i].cs
    ensures StackOk(rules, At(r, i, 1)) && AtChars(rules, At(r, i, 1))
    ensures TopChars(rules, At(r, i, 1)) == CharItem(ws[i].x).cs
    ensures SettledFrom(rules, cap, At(r, i, 0)) == {At(r, i, 0)}
    ensures SettledFrom(rules, cap, At(r, i, 1)) == {At(r, i, 1)}
    ensures SettledFrom(rules, cap, At(r, i, 2)) == {Empty}
  {
    hide SettledFrom;
    SettledWaiting(rules, cap, At(r, i, 0));
    SettledWaiting(rules, cap, At(r, i, 1));
    SettledDone(rules, cap, At(r, i, 2));
  }

  lemma ChoiceStart(rules: Rules, r: nat, ws: seq<Way>, cap: nat)
    requires IsChoice(rules, r, ws)
    ensures Start(rules, cap, r) == Firsts(r, |ws|)
  {
    hide SettledFrom;
    forall i: nat | i < |ws|
      ensures SettledFrom(rules, cap, At(r, i, 0)) == {At(r, i, 0)}
    {
      WayStacks(rules, r, ws, cap, i);
    }
    forall i: nat | i < |ws|
      ensures At(r, i, 0) in Start(rules, cap, r)
    {
      assert At(r, i, 0) in SettledFrom(rules, cap, Push(Pos(r, i, 0), Empty));
    }
    forall t | t in Start(rules, cap, r)
      ensures t in Firsts(r, |ws|)
    {
      var a: nat :| a < |rules[r].alts| && t in SettledFrom(rules, cap, Push(Pos(r, a, 0), Empty));
      assert t == At(r, a, 0);
    }
  }

  /** A codepoint takes the ways whose class has it one item further. */
  lemma ChoiceStep(rules: Rules, r: nat, ws: seq<Way>, cap: nat, lim: nat, c: uint32)
    requires IsChoice(rules, r, ws) && lim > 0
    ensures Step(rules, cap, Firsts(r, |ws|), c) == Seconds(r, ws, c)
    ensures EntriesFit(rules, cap, lim, Firsts(r, |ws|), c)
  {
    hide SettledFrom, Contains;
    var S := Firsts(r, |ws|);
    forall i: nat | i < |ws|
      ensures Skip(At(r, i, 0)) == At(r, i, 1) && SettledFrom(rules, cap, At(r, i, 1)) == {At(r, i, 1)}
      ensures Waits(rules, At(r, i, 0), c) <==> Contains(ws[i].cs, c)
    {
      WayStacks(rules, r, ws, cap, i);
    }
    forall i: nat | i < |ws| && Contains(ws[i].cs, c)
      ensures At(r, i, 1) in Step(rules, cap, S, c)
    {
      assert At(r, i, 0) in S && At(r, i, 1) in SettledFrom(rules, cap, Skip(At(r, i, 0)));
    }
  }

  /** What follows way `i` is accepted exactly if that way is still there. */
  lemma ChoiceEnd(rules: Rules, r: nat, ws: seq<Way>, cap: nat, S: set<Stack>, c: uint32, i: nat)
    requires IsChoice(rules, r, ws) && i < |ws| && S <= Seconds(r, ws, c)
    requires forall j, k :: 0 <= j < k < |ws| ==> ws[j].x != ws[k].x
    ensures Step(rules, cap, S, ws[i].x) == if At(r, i, 1) in S then {Empty} else {}
  {
    hide SettledFrom;
    forall j: nat | j < |ws|
      ensures Skip(At(r, j, 1)) == At(r, j, 2) && SettledFrom(rules, cap, At(r, j, 2)) == {Empty}
      ensures Waits(rules, At(r, j, 1), ws[i].x) <==> i == j
    {
      WayStacks(rules, r, ws, cap, j);
      OnlyItself(ws[j].x, ws[i].x);
    }
    if At(r, i, 1) in S {
      assert Empty in SettledFrom(rules, cap, Skip(At(r, i, 1)));
    }
  }

  lemma OnlyItself(x: uint32, y: uint32)
    ensures Contains(CharItem(x).cs, y) <==> x == y
  {
    assert CharItem(x).cs.ranges[0] == Range(x, x);
  }

  lemma {:induction false} SecondsSize(r: nat, ws: seq<Way>, c: uint32)
    requires forall i :: 0 <= i < |ws| ==> Contains(ws[i].cs, c)
    ensures |Seconds(r, ws, c)| == |ws|
    decreases |ws|
  {
    hide Contains;
    if ws == [] {
      assert Seconds(r, ws, c) == {};
    } else {
      var n := |ws| - 1;
      SecondsSize(r, ws[..n], c);
      forall i: nat | i < n
        ensures At(r, i, 1) in Seconds(r, ws[..n], c)
      {
        assert ws[..n][i] == ws[i];
      }
      assert Seconds(r, ws, c) == Seconds(r, ws[..n], c) + {At(r, n, 1)};
    }
  }

  // ----- what a question interns -----

  ghost predicate OnlyAmong(arena: seq<Node>, S: set<Stack>)
    requires ArenaOk(arena)
  {
    forall i :: 0 <= i < |arena| ==> StackOf(arena, i) in S
  }

  lemma StartInterns(rules: Rules, r: nat, ws: seq<Way>, cap: nat, arena: seq<Node>)
    requires IsChoice(rules, r, ws) && ArenaOk(arena) && NewStart(rules, cap, r, [], arena)
    ensures OnlyAmong(arena, Firsts(r, |ws|))
  {
    forall i | 0 <= i < |arena|
      ensures StackOf(arena, i) in Firsts(r, |ws|)
    {
      var t := StackOf(arena, i);
      assert StartsTo(rules, cap, r, t);
      var k: nat :| k < |rules[r].alts| && Reachable(rules, cap, Push(Pos(r, k, 0), Empty), t);
      WayStacks(rules, r, ws, cap, k);
      WaitingStays(rules, cap, At(r, k, 0), t);
    }
  }

  lemma ProbeLeadsTo(rules: Rules, r: nat, ws: seq<Way>, cap: nat, k: nat, probe: uint32, s: Stack, t: Stack)
    requires IsChoice(rules, r, ws) && k < |ws| && !Contains(ws[k].cs, probe)
    requires s in Firsts(r, |ws|) && Waits(rules, s, probe) && Reachable(rules, cap, Skip(s), t)
    ensures t != At(r, k, 1)
  {
    hide Reachable, SettledFrom;
    var j: nat :| j < |ws| && s == At(r, j, 0);
    WayStacks(rules, r, ws, cap, k);
    WayStacks(rules, r, ws, cap, j);
    assert Skip(s) == At(r, j, 1);
    WaitingStays(rules, cap, At(r, j, 1), t);
  }

  lemma {:induction false} ProbeInterns(rules: Rules, r: nat, ws: seq<Way>, cap: nat, a0: seq<Node>, arena: seq<Node>, k: nat, probe: uint32)
    requires IsChoice(rules, r, ws) && k < |ws| && ArenaOk(a0) && ArenaOk(arena) && a0 <= arena
    requires OnlyAmong(a0, Firsts(r, |ws|)) && NewStep(rules, cap, Firsts(r, |ws|), probe, a0, arena)
    requires !Contains(ws[k].cs, probe)
    ensures forall i :: 0 <= i < |arena| ==> StackOf(arena, i) != At(r, k, 1)
  {
    hide Waits, Reachable, IsChoice, Contains;
    var S := Firsts(r, |ws|);
    forall i | 0 <= i < |arena|
      ensures StackOf(arena, i) != At(r, k, 1)
    {
      var t := StackOf(arena, i);
      if i < |a0| {
        StackOfGrows(a0, arena, i);
        assert StackOf(a0, i) in S;
      } else {
        assert LeadsTo(rules, cap, S, probe, t);
        var s :| s in S && Waits(rules, s, probe) && Reachable(rules, cap, Skip(s), t);
        ProbeLeadsTo(rules, r, ws, cap, k, probe, s, t);
      }
    }
  }

  /** Of a set in which only `s` was interned before, every cut keeps `s`. */
  lemma {:induction false} OldestIsKept(a0: seq<Node>, arena: seq<Node>, table: map<Key, int>, old0: seq<int>, s: Stack,
                     full: set<Stack>, found: seq<int>, out: seq<int>, lim: nat)
    requires ArenaOk(a0) && ArenaOk(arena) && a0 <= arena && InternOk(arena, table) && s in full && lim > 0
    requires IdsIn(a0, old0) && s in StacksOf(a0, old0) && Empty !in full
    requires forall i :: 0 <= i < |a0| && StackOf(a0, i) in full ==> StackOf(a0, i) == s
    requires IdsIn(arena, found) && StacksOf(arena, found) == full && Lowest(found, out, lim)
    ensures s in StacksOf(arena, out)
  {
    var i :| i in old0 && IsId(a0, i) && StackOf(a0, i) == s;
    StackOfGrows(a0, arena, i);
    assert s in StacksOf(arena, found);
    var i' :| i' in found && IsId(arena, i') && StackOf(arena, i') == s;
    StackOfInjective(arena, table, i, i');
    forall j | j in found && j != i
      ensures i < j
    {
      assert StackOf(arena, j) in StacksOf(arena, found);
      if 0 <= j < |a0| {
        StackOfGrows(a0, arena, j);
        StackOfInjective(arena, table, i, j);
      }
    }
    LowestHasFirst(found, out, lim, i);
  }

  lemma LowestHasFirst(found: seq<int>, out: seq<int>, lim: nat, i: int)
    requires Lowest(found, out, lim) && lim > 0 && i in found && forall j :: j in found && j != i ==> i < j
    ensures i in out
  {
    assert out != [] ==> out[0] in out;
  }

  // ----- the runs -----

  /** A compiled choice under the size limit `lim`, with nothing asked or read. */
  ghost predicate IsFresh(grammar: GbnfGrammar, ws: seq<Way>, lim: nat)
    reads grammar
  {
    && grammar.Valid() && grammar.compiled && grammar.arena == [] && grammar.maxStacks == lim
    && IsChoice(grammar.rules, grammar.root, ws)
  }

  method NewGrammar(ws: seq<Way>, cap: nat, lim: nat) returns (grammar: GbnfGrammar, ghost g: Source, ghost ids: Ids)
    requires WaysOk(ws) && lim > 0
    ensures fresh(grammar) && IsFresh(grammar, ws, lim)
    ensures HasSource(grammar.rules, ids, g) && ROOT in ids && g == map[ROOT := Written(ws)]
  {
    hide ReadRules, HasSource, IsChoice, TextOf, Compiles;
    grammar := new GbnfGrammar(cap, lim);
    var ok;
    TextReads(ws);
    WaysCompile(ws);
    ok, g, ids := grammar.Compile(TextOf(ws));
    RootTable(grammar.rules, ids, g, ws);
  }

  /** Would the grammar accept `ws[i].x` next? Nothing is committed. */
  method AskEnd(grammar: GbnfGrammar, ws: seq<Way>, ghost c: uint32, mid: seq<int>, i: nat) returns (accepted: bool)
    requires grammar.Valid() && IsChoice(grammar.rules, grammar.root, ws) && IdsIn(grammar.arena, mid) && i < |ws|
    requires StacksOf(grammar.arena, mid) <= Seconds(grammar.root, ws, c)
    requires forall j, k :: 0 <= j < k < |ws| ==> ws[j].x != ws[k].x
    modifies grammar`arena, grammar`table, grammar`visited, grammar`epoch, grammar`nextCache, grammar`nextReady
    ensures grammar.Valid() && IdsIn(grammar.arena, mid)
    ensures StacksOf(grammar.arena, mid) == old(StacksOf(grammar.arena, mid))
    ensures accepted <==> At(grammar.root, i, 1) in StacksOf(grammar.arena, mid)
  {
    hide IsChoice, Step, StacksOf, Seconds;
    var end;
    ghost var found;
    end, found := grammar.StepInto(mid, ws[i].x);
    ChoiceEnd(grammar.rules, grammar.root, ws, grammar.maxDepth, StacksOf(grammar.arena, mid), c, i);
    EmptyIsMinusOne(grammar.arena, end);
    accepted := -1 in end;
  }

  /** Would each of the ways be accepted next? */
  method AskEnds(grammar: GbnfGrammar, ws: seq<Way>, ghost c: uint32, mid: seq<int>) returns (answers: seq<bool>)
    requires grammar.Valid() && IsChoice(grammar.rules, grammar.root, ws) && IdsIn(grammar.arena, mid)
    requires StacksOf(grammar.arena, mid) <= Seconds(grammar.root, ws, c)
    requires forall j, k :: 0 <= j < k < |ws| ==> ws[j].x != ws[k].x
    modifies grammar`arena, grammar`table, grammar`visited, grammar`epoch, grammar`nextCache, grammar`nextReady
    ensures |answers| == |ws|
    ensures forall i :: 0 <= i < |ws| ==> (answers[i] <==> At(grammar.root, i, 1) in old(StacksOf(grammar.arena, mid)))
  {
    hide IsChoice, StacksOf, Seconds;
    ghost var r, S := grammar.root, StacksOf(grammar.arena, mid);
    answers := [];
    for k := 0 to |ws|
      invariant grammar.Valid() && IsChoice(grammar.rules, r, ws) && IdsIn(grammar.arena, mid)
      invariant StacksOf(grammar.arena, mid) == S && |answers| == k
      invariant forall i :: 0 <= i < k ==> (answers[i] <==> At(r, i, 1) in S)
    {
      var accepted := AskEnd(grammar, ws, c, mid, k);
      answers := answers + [accepted];
    }
  }

  function NumTrue(answers: seq<bool>): nat
  {
    if answers == [] then 0 else NumTrue(answers[..|answers| - 1]) + if answers[|answers| - 1] then 1 else 0
  }

  ghost function Answered(r: nat, answers: seq<bool>): set<Stack>
  {
    set i: nat | i < |answers| && answers[i] :: At(r, i, 1)
  }

  lemma {:induction false} AnsweredSize(r: nat, answers: seq<bool>)
    ensures |Answered(r, answers)| == NumTrue(answers)
    decreases |answers|
  {
    if answers == [] {
      assert Answered(r, answers) == {};
    } else {
      var n := |answers| - 1;
      AnsweredSize(r, answers[..n]);
      var rest := Answered(r, answers[..n]);
      assert At(r, n, 1) !in rest;
      assert Answered(r, answers) == if answers[n] then rest + {At(r, n, 1)} else rest;
    }
  }

  /** As many ways are accepted as stacks are kept. */
  lemma {:induction false} AnswersCount(r: nat, ws: seq<Way>, c: uint32, S: set<Stack>, answers: seq<bool>)
    requires S <= Seconds(r, ws, c) && |answers| == |ws|
    requires forall i :: 0 <= i < |ws| ==> (answers[i] <==> At(r, i, 1) in S)
    ensures NumTrue(answers) == |S|
  {
    hide Contains;
    AnsweredSize(r, answers);
    assert Answered(r, answers) == S;
  }

  /** A fresh grammar, asked about `probes[asked]` unless that is negative, reads `c`. Then as
      many of the ways are accepted as the limit allows, and the one asked about is. */
  method Answers(ws: seq<Way>, cap: nat, lim: nat, c: uint32, probes: seq<uint32>, asked: int) returns (answers: seq<bool>)
    requires Apart(ws, c, probes) && ws != [] && lim > 0 && asked < |ws|
    ensures |answers| == |ws| && NumTrue(answers) == if |ws| <= lim then |ws| else lim
    ensures asked >= 0 ==> answers[asked]
  {
    hide IsChoice, Step, Start, StacksOf, Seconds, Firsts, Lowest, NewStart, NewStep, EntriesFit, Contains, HasSource;
    var grammar, g, ids := NewGrammar(ws, cap, lim);
    ghost var rules, r, depth := grammar.rules, grammar.root, grammar.maxDepth;
    var start := grammar.StartSet();
    ChoiceStart(rules, r, ws, depth);
    var mid := ReadFirst(grammar, ws, lim, c, probes, asked, start);
    ghost var S := StacksOf(grammar.arena, mid);
    answers := AskEnds(grammar, ws, c, mid);
    AnswersCount(r, ws, c, S, answers);
    SecondsSize(r, ws, c);
  }

  /** Asks the question and reads `c`. */
  method ReadFirst(grammar: GbnfGrammar, ws: seq<Way>, lim: nat, c: uint32, probes: seq<uint32>, asked: int, start: seq<int>)
    returns (mid: seq<int>)
    requires grammar.Valid() && grammar.maxStacks == lim && IsChoice(grammar.rules, grammar.root, ws)
    requires Apart(ws, c, probes) && lim > 0 && asked < |ws|
    requires IdsIn(grammar.arena, start) && StacksOf(grammar.arena, start) == Firsts(grammar.root, |ws|)
    requires NewStart(grammar.rules, grammar.maxDepth, grammar.root, [], grammar.arena)
    modifies grammar`arena, grammar`table, grammar`visited, grammar`epoch, grammar`nextCache, grammar`nextReady
    ensures grammar.Valid() && IdsIn(grammar.arena, mid)
    ensures Capped(Seconds(grammar.root, ws, c), StacksOf(grammar.arena, mid), lim)
    ensures asked >= 0 ==> At(grammar.root, asked, 1) in StacksOf(grammar.arena, mid)
  {
    hide IsChoice, Step, Start, StacksOf, Seconds, Firsts, Lowest, NewStart, NewStep, EntriesFit, Contains, Capped;
    ghost var rules, r, cap, a0 := grammar.rules, grammar.root, grammar.maxDepth, grammar.arena;
    ghost var found0, found1;
    ChoiceStep(rules, r, ws, cap, lim, c);
    if asked < 0 {
      mid, found1 := grammar.StepInto(start, c);
    } else {
      StartInterns(rules, r, ws, cap, a0);
      ChoiceStep(rules, r, ws, cap, lim, probes[asked]);
      var other;
      other, found0 := grammar.StepInto(start, probes[asked]);
      ghost var a1 := grammar.arena;
      mid, found1 := grammar.StepInto(start, c);
      ProbedIsKept(rules, r, ws, cap, lim, c, probes, asked, a0, a1, grammar.arena, grammar.table, found0, found1, mid);
    }
  }

  lemma {:induction false} ProbedIsKept(rules: Rules, r: nat, ws: seq<Way>, cap: nat, lim: nat, c: uint32,
                                        probes: seq<uint32>, j: nat, a0: seq<Node>, a1: seq<Node>, arena: seq<Node>,
                                        table: map<Key, int>, found0: seq<int>, found1: seq<int>, mid: seq<int>)
    requires IsChoice(rules, r, ws) && Apart(ws, c, probes) && lim > 0 && j < |ws|
    requires ArenaOk(a0) && ArenaOk(a1) && ArenaOk(arena) && InternOk(arena, table) && a0 <= a1 <= arena
    requires OnlyAmong(a0, Firsts(r, |ws|)) && NewStep(rules, cap, Firsts(r, |ws|), probes[j], a0, a1)
    requires IdsIn(a1, found0) && StacksOf(a1, found0) == Seconds(r, ws, probes[j])
    requires IdsIn(arena, found1) && StacksOf(arena, found1) == Seconds(r, ws, c) && Lowest(found1, mid, lim)
    ensures At(r, j, 1) in StacksOf(arena, mid)
  {
    hide IsChoice, StacksOf, Lowest, NewStep, OnlyAmong, Firsts, Contains, InternOk;
    var s, full := At(r, j, 1), Seconds(r, ws, c);
    assert s in Seconds(r, ws, probes[j]) && s in full;
    forall i | 0 <= i < |a1| && StackOf(a1, i) in full
      ensures StackOf(a1, i) == s
    {
      var k: nat :| k < |ws| && Contains(ws[k].cs, c) && StackOf(a1, i) == At(r, k, 1);
      if k != j {
        ProbeInterns(rules, r, ws, cap, a0, a1, k, probes[j]);
      }
    }
    OldestIsKept(a1, arena, table, found0, s, full, found1, mid, lim);
  }

  /** One question decides: with a way more than the limit allows, some text of the language
      is refused by a fresh grammar, and accepted by one that was asked about another text. */
  method QuestionDecides(ws: seq<Way>, cap: nat, lim: nat, c: uint32, probes: seq<uint32>)
    returns (j: nat, before: seq<bool>, after: seq<bool>)
    requires Apart(ws, c, probes) && lim > 0 && |ws| > lim
    ensures |before| == |after| == |ws| && NumTrue(before) == NumTrue(after) == lim
    ensures j < |ws| && !before[j] && after[j]
  {
    before := Answers(ws, cap, lim, c, probes, -1);
    j := SomeFalse(before);
    after := Answers(ws, cap, lim, c, probes, j);
  }

  method SomeFalse(answers: seq<bool>) returns (j: nat)
    requires NumTrue(answers) < |answers|
    ensures j < |answers| && !answers[j]
  {
    j := 0;
    while j < |answers| && answers[j]
      invariant j <= |answers| && NumTrue(answers[..j]) == j
    {
      assert answers[..j + 1][..j] == answers[..j];
      j := j + 1;
    }
    assert answers[..|answers|] == answers;
  }

  lemma {:induction false} ElemWord(g: Source, e: Elem, u: Word, es: seq<Elem>)
    requires es == [e] && u in ElemLang(g, e, 0)
    ensures u in SeqLang(g, es, 0)
  {
    hide ElemLang, Languages.Cat;
    var none: seq<Elem>, empty: Word := es[..|es| - 1], [];
    assert none == [] && es[|es| - 1] == e;
    NoWord(g, none);
    CatIntro(SeqLang(g, none, 0), ElemLang(g, e, 0), empty, u);
    assert empty + u == u;
  }

  lemma {:induction false} NoWord(g: Source, es: seq<Elem>)
    requires es == []
    ensures [] in SeqLang(g, es, 0)
  {
  }

  lemma {:induction false} WayWord(g: Source, w: Way, c: uint32, es: seq<Elem>)
    requires es == Elems(w) && Contains(w.cs, c)
    ensures [c, w.x] in SeqLang(g, es, 0)
  {
    hide Languages.Cat, SeqLang;
    var a: Word, b: Word := [c], [w.x];
    var first, last := Set(w.cs), Lit(b);
    assert a in ElemLang(g, first, 0) && b in ElemLang(g, last, 0);
    hide ElemLang, Contains;
    ElemWord(g, first, a, [first]);
    JoinWord(g, [first], last, a, b, es);
    assert a + b == [c, w.x];
  }

  lemma {:induction false} JoinWord(g: Source, init: seq<Elem>, e: Elem, u: Word, v: Word, es: seq<Elem>)
    requires es == init + [e] && u in SeqLang(g, init, 0) && v in ElemLang(g, e, 0)
    ensures u + v in SeqLang(g, es, 0)
  {
    hide ElemLang, Languages.Cat;
    assert es[..|es| - 1] == init && es[|es| - 1] == e;
    CatIntro(SeqLang(g, init, 0), ElemLang(g, e, 0), u, v);
  }

  /** Every way of the choice is in the language of its text. */
  lemma {:induction false} WaysAreWords(ws: seq<Way>, c: uint32, probes: seq<uint32>, i: nat)
    requires Apart(ws, c, probes) && i < |ws|
    ensures ReadRules(TextOf(ws), map[]).Got? && ReadRules(TextOf(ws), map[]).value == map[ROOT := Written(ws)]
    ensures [c, ws[i].x] in SourceLang(map[ROOT := Written(ws)], ROOT)
  {
    hide ReadRules, TextOf, Contains, SeqLang;
    TextReads(ws);
    var g: Source, x, w: Word := map[ROOT := Written(ws)], Call(ROOT), [c, ws[i].x];
    WayWord(g, ws[i], c, Elems(ws[i]));
    assert g[ROOT][i].elems == Elems(ws[i]);
    assert InAlts(g, g[ROOT], w, 0);
    assert w in ElemLang(g, x, 1);
    assert InRule(g, ROOT, w);
  }

  /** Way `i` of a choice for every limit: `[c p]` with a `p` of its own, then an `x` of its
      own, all of them codepoints that UTF-8 can carry. */
  function WayNumber(i: nat): Way
    requires i < 0x8_0000
  {
    Way(CharSet([Range(0x63, 0x63), Range(0x1_0000 + i, 0x1_0000 + i)], false), 0x9_0000 + i)
  }

  lemma WayHas(i: nat, c: uint32)
    requires i < 0x8_0000
    ensures Contains(WayNumber(i).cs, c) <==> c == 0x63 || c == 0x1_0000 + i
  {
    var rs := WayNumber(i).cs.ranges;
    assert rs[0] == Range(0x63, 0x63) && rs[1] == Range(0x1_0000 + i, 0x1_0000 + i);
  }

  /** There is such a grammar for every limit up to half a million, 4096 included. */
  method EveryLimitShows(cap: nat, lim: nat) returns (ws: seq<Way>, j: nat, before: seq<bool>, after: seq<bool>)
    requires 0 < lim < 0x7_FFFF
    ensures |before| == |after| == |ws| == lim + 1 && NumTrue(before) == NumTrue(after) == lim
    ensures j < |ws| && !before[j] && after[j]
    ensures [0x63, ws[j].x] in SourceLang(map[ROOT := Written(ws)], ROOT)
  {
    hide Contains, SourceLang;
    ws := seq(lim + 1, i requires 0 <= i <= lim => WayNumber(i));
    var probes := seq(lim + 1, i requires 0 <= i <= lim => 0x1_0000 + i);
    forall i, j | 0 <= i < |ws| && 0 <= j < |ws|
      ensures Contains(ws[j].cs, 0x63) && (Contains(ws[j].cs, probes[i]) <==> i == j)
      ensures WellFormed(ws[j].cs) && ws[i].x == 0x9_0000 + i
    {
      WayHas(j, 0x63);
      WayHas(j, probes[i]);
    }
    j, before, after := QuestionDecides(ws, cap, lim, 0x63, probes);
    WaysAreWords(ws, 0x63, probes, j);
  }
}
