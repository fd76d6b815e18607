/** How far the depth cap lets plain repetition run: `root ::= x*` desugars to a
    right-recursive rule, so every repetition leaves one more frame behind. */
module CapReach {
  import opened CharSets
  import opened Languages
  import opened Grammar
  import opened Pushdown
  import opened GbnfSyntax
  import opened Representation

  /** Rule `r` is nothing but the loop `s` over one character of `cs`. */
  predicate IsLoop(rules: Rules, r: nat, s: nat, cs: CharSet)
  {
    r < |rules| && s < |rules| && rules[r].alts == [[Ref(s)]] && rules[s].alts == [[], [Chars(cs), Ref(s)]]
  }

  /** The continuation right after `n` repetitions, about to enter the next one. */
  function Calls(r: nat, s: nat, n: nat): Stack
    decreases n
  {
    if n == 0 then Push(Pos(r, 0, 0), Empty) else Push(Pos(s, 1, 1), Calls(r, s, n - 1))
  }

  function Waiting(r: nat, s: nat, n: nat): Stack
  {
    Push(Pos(s, 1, 0), Calls(r, s, n))
  }

  lemma {:induction false} CallsOk(rules: Rules, r: nat, l: nat, cs: CharSet, n: nat)
    requires IsLoop(rules, r, l, cs)
    ensures CallerOk(rules, Calls(r, l, n)) && Depth(Calls(r, l, n)) == n + 1
  {
    if n > 0 {
      CallsOk(rules, r, l, cs, n - 1);
    }
  }

  /** Every stack that `n` repetitions can reach before the next codepoint. */
  ghost predicate Around(r: nat, l: nat, n: nat, t: Stack)
  {
    t == Empty || t == Calls(r, l, n) || t == Push(Pos(l, 0, 0), Calls(r, l, n)) || t == Waiting(r, l, n) ||
    exists j: nat :: j <= n && t == Skip(Calls(r, l, j))
  }

  lemma {:induction false} MoveAround(rules: Rules, r: nat, l: nat, cs: CharSet, cap: nat, n: nat, s: Stack, t: Stack)
    requires IsLoop(rules, r, l, cs)
    requires Around(r, l, n, s) && Move(rules, cap, s, t)
    ensures Around(r, l, n, t)
    ensures s == Calls(r, l, n) ==> n + 1 < cap
  {
    CallsOk(rules, r, l, cs, n);
    if s == Push(Pos(l, 0, 0), Calls(r, l, n)) {
      assert t == Skip(Calls(r, l, n));
    } else if s != Calls(r, l, n) && s != Waiting(r, l, n) && s != Empty {
      var j: nat :| j <= n && s == Skip(Calls(r, l, j));
      CallsOk(rules, r, l, cs, j);
      if j > 0 {
        assert t == Skip(Calls(r, l, j - 1));
      }
    }
  }

  lemma {:induction false} ReachAround(rules: Rules, r: nat, l: nat, cs: CharSet, cap: nat, n: nat, s: Stack, t: Stack, k: nat)
    requires IsLoop(rules, r, l, cs)
    requires Around(r, l, n, s) && Reach(rules, cap, s, t, k)
    ensures Around(r, l, n, t) && (s == Calls(r, l, n) && n + 1 >= cap ==> t == Calls(r, l, n))
    decreases k
  {
    if k > 0 {
      var m :| Move(rules, cap, s, m) && Reach(rules, cap, m, t, k - 1);
      MoveAround(rules, r, l, cs, cap, n, s, m);
      ReachAround(rules, r, l, cs, cap, n, m, t, k - 1);
    }
  }

  lemma {:induction false} UnwindsToEmpty(rules: Rules, r: nat, l: nat, cs: CharSet, cap: nat, n: nat)
    requires IsLoop(rules, r, l, cs)
    ensures Reachable(rules, cap, Skip(Calls(r, l, n)), Empty)
    decreases n
  {
    CallsOk(rules, r, l, cs, n);
    if n == 0 {
      ReachableSelf(rules, cap, Empty);
      assert Move(rules, cap, Skip(Calls(r, l, 0)), Empty);
      ReachableCons(rules, cap, Skip(Calls(r, l, 0)), Empty, Empty);
    } else {
      UnwindsToEmpty(rules, r, l, cs, cap, n - 1);
      CallsOk(rules, r, l, cs, n - 1);
      assert Move(rules, cap, Skip(Calls(r, l, n)), Skip(Calls(r, l, n - 1)));
      ReachableCons(rules, cap, Skip(Calls(r, l, n)), Skip(Calls(r, l, n - 1)), Empty);
    }
  }

  lemma {:induction false} SettledAfter(rules: Rules, r: nat, l: nat, cs: CharSet, cap: nat, n: nat)
    requires IsLoop(rules, r, l, cs)
    ensures SettledFrom(rules, cap, Calls(r, l, n)) == if n + 1 < cap then {Empty, Waiting(r, l, n)} else {}
  {
    var s := Calls(r, l, n);
    CallsOk(rules, r, l, cs, n);
    if n + 1 < cap {
      assert Move(rules, cap, s, Waiting(r, l, n));
      ReachableSelf(rules, cap, Waiting(r, l, n));
      ReachableCons(rules, cap, s, Waiting(r, l, n), Waiting(r, l, n));
      var e := Push(Pos(l, 0, 0), s);
      assert Move(rules, cap, s, e) && Move(rules, cap, e, Skip(s));
      UnwindsToEmpty(rules, r, l, cs, cap, n);
      ReachableCons(rules, cap, e, Skip(s), Empty);
      ReachableCons(rules, cap, s, e, Empty);
      SettledFromIff(rules, cap, s, Empty);
      SettledFromIff(rules, cap, s, Waiting(r, l, n));
    }
    forall t
      ensures t in SettledFrom(rules, cap, s) <==> n + 1 < cap && (t == Empty || t == Waiting(r, l, n))
    {
      SettledFromIff(rules, cap, s, t);
      if Settled(rules, t) && Reachable(rules, cap, s, t) {
        var k: nat :| Reach(rules, cap, s, t, k);
        ReachAround(rules, r, l, cs, cap, n, s, t, k);
        SettledAround(rules, r, l, cs, n, t);
      }
    }
  }

  lemma SettledAround(rules: Rules, r: nat, l: nat, cs: CharSet, n: nat, t: Stack)
    requires IsLoop(rules, r, l, cs)
    requires Around(r, l, n, t) && Settled(rules, t)
    ensures t == Empty || t == Waiting(r, l, n)
  {
    CallsOk(rules, r, l, cs, n);
    if exists j: nat :: j <= n && t == Skip(Calls(r, l, j)) {
      var j: nat :| j <= n && t == Skip(Calls(r, l, j));
      CallsOk(rules, r, l, cs, j);
    }
  }

  lemma StepAfter(rules: Rules, r: nat, l: nat, cs: CharSet, cap: nat, c: uint32, n: nat)
    requires IsLoop(rules, r, l, cs)
    requires Contains(cs, c)
    ensures Step(rules, cap, SettledFrom(rules, cap, Calls(r, l, n)), c) ==
            if n + 1 < cap then SettledFrom(rules, cap, Calls(r, l, n + 1)) else {}
  {
    SettledAfter(rules, r, l, cs, cap, n);
    CallsOk(rules, r, l, cs, n);
    if n + 1 < cap {
      assert Waits(rules, Waiting(r, l, n), c) && Skip(Waiting(r, l, n)) == Calls(r, l, n + 1);
    }
  }

  predicate AllIn(cs: CharSet, w: Word)
  {
    forall i :: 0 <= i < |w| ==> Contains(cs, w[i])
  }

  lemma {:induction false} NoMember(rules: Rules, r: nat, l: nat, cs: CharSet, cap: nat, c: uint32, n: nat)
    requires IsLoop(rules, r, l, cs) && !Contains(cs, c)
    ensures Step(rules, cap, SettledFrom(rules, cap, Calls(r, l, n)), c) == {}
  {
    SettledAfter(rules, r, l, cs, cap, n);
    CallsOk(rules, r, l, cs, n);
    assert !Waits(rules, Waiting(r, l, n), c) && !Waits(rules, Empty, c);
  }

  lemma {:induction false} RunAfter(rules: Rules, r: nat, l: nat, cs: CharSet, cap: nat, k: nat, w: Word)
    requires IsLoop(rules, r, l, cs)
    ensures Empty in Run(rules, cap, SettledFrom(rules, cap, Calls(r, l, k)), w) <==> AllIn(cs, w) && k + |w| + 2 <= cap
    decreases |w|
  {
    hide Step, SettledFrom, Contains;
    SettledAfter(rules, r, l, cs, cap, k);
    if w != [] {
      assert AllIn(cs, w) <==> Contains(cs, w[0]) && AllIn(cs, w[1..]) by {
        AllInCons(cs, w);
      }
      if Contains(cs, w[0]) {
        StepAfter(rules, r, l, cs, cap, w[0], k);
      } else {
        NoMember(rules, r, l, cs, cap, w[0], k);
      }
      if Contains(cs, w[0]) && k + 1 < cap {
        RunAfter(rules, r, l, cs, cap, k + 1, w[1..]);
      } else {
        EmptySetStays(rules, cap, w[1..]);
      }
    }
  }

  lemma AllInCons(cs: CharSet, w: Word)
    requires w != []
    ensures AllIn(cs, w) <==> Contains(cs, w[0]) && AllIn(cs, w[1..])
  {
    hide Contains;
    if Contains(cs, w[0]) && AllIn(cs, w[1..]) {
      forall i | 0 <= i < |w|
        ensures Contains(cs, w[i])
      {
        if i > 0 {
          assert w[i] == w[1..][i - 1];
        }
      }
    }
  }

  lemma {:induction false} LoopReach(rules: Rules, r: nat, l: nat, cs: CharSet, cap: nat, w: Word)
    requires IsLoop(rules, r, l, cs)
    ensures Empty in Run(rules, cap, Start(rules, cap, r), w) <==> AllIn(cs, w) && |w| + 2 <= cap
  {
    assert Start(rules, cap, r) == SettledFrom(rules, cap, Calls(r, l, 0));
    RunAfter(rules, r, l, cs, cap, 0, w);
  }

  /** The loop derives exactly the words of members. */
  lemma {:induction false} LoopDerives(rules: Rules, r: nat, l: nat, cs: CharSet, w: Word)
    requires IsLoop(rules, r, l, cs)
    ensures w in RuleLang(rules, l) <==> AllIn(cs, w)
    decreases |w|
  {
    hide Contains;
    RuleLangIsUnion(rules, l, w);
    assert rules[l].alts[0] == [] && rules[l].alts[1] == [Chars(cs)] + [Ref(l)];
    if w == [] {
      FormLangEmpty(rules);
      assert w in FormLang(rules, rules[l].alts[0]);
    } else {
      FormLangEmpty(rules);
      AllInCons(cs, w);
      LoopDerives(rules, r, l, cs, w[1..]);
      assert w == [w[0]] + w[1..];
      DerivableChars(rules, cs, [Ref(l)], w[0], w[1..]);
      assert w in FormLang(rules, rules[l].alts[1]) <==> Contains(cs, w[0]) && w[1..] in RuleLang(rules, l);
    }
  }

  lemma {:induction false} RootDerives(rules: Rules, r: nat, l: nat, cs: CharSet, w: Word)
    requires IsLoop(rules, r, l, cs)
    ensures w in RuleLang(rules, r) <==> AllIn(cs, w)
  {
    LoopDerives(rules, r, l, cs, w);
    RuleLangIsUnion(rules, r, w);
    assert rules[r].alts[0] == [Ref(l)];
    assert w in FormLang(rules, rules[r].alts[0]) <==> w in RuleLang(rules, l);
  }

  // ----- the parser's part -----

  /** An element that stands for one codepoint of `cs`: a class, or a literal of one
      character. */
  predicate IsChar(e: Elem, cs: CharSet)
  {
    e == Set(cs) || (e.Lit? && |e.cps| == 1 && CharItem(e.cps[0]) == Chars(cs))
  }

  /** The alternatives of a rule that is written as one starred element. */
  function Starred(e: Elem): seq<Branch>
  {
    [Branch([Rep(e, 0, -1)])]
  }

  lemma {:induction false} CharHasOne(rules: Rules, ids: Ids, base: seq<Item>, b: Elem, cs: CharSet)
    requires IsChar(b, cs) && HasElem(rules, ids, base, b)
    ensures base == [Chars(cs)]
  {
    if b.Lit? {
      var cps := b.cps;
      assert cps[..0] == [] && LitItems(cps[..0]) == [];
      assert LitItems(cps) == LitItems(cps[..|cps| - 1]) + [CharItem(cps[|cps| - 1])];
    }
  }

  lemma {:induction false} RepIsLoop(rules: Rules, ids: Ids, items: seq<Item>, b: Elem, cs: CharSet, e: Elem) returns (l: nat)
    requires IsChar(b, cs) && e == Rep(b, 0, -1) && HasElem(rules, ids, items, e)
    ensures l < |rules| && items == [Ref(l)] && rules[l].alts == [[], [Chars(cs), Ref(l)]]
  {
    var x, base :| HasRep(rules, ids, items, b, 0, -1, x, base);
    CharHasOne(rules, ids, base, b, cs);
    assert base == [Chars(cs)] && x == base[0];
    assert items[0..] == items;
    l := items[0].rule;
  }

  /** Whatever table represents such a rule, the rule is the loop. */
  lemma {:induction false} StarIsLoop(rules: Rules, ids: Ids, alts: seq<Alt>, b: Elem, cs: CharSet) returns (l: nat)
    requires IsChar(b, cs) && HasAlts(rules, ids, alts, Starred(b))
    ensures l < |rules| && alts == [[Ref(l)]] && rules[l].alts == [[], [Chars(cs), Ref(l)]]
  {
    var items, es := alts[0], Starred(b)[0].elems;
    var e := Rep(b, 0, -1);
    assert HasSeq(rules, ids, items, es) && es == [e];
    var k :| 0 <= k <= |items| && HasSeqCut(rules, ids, items, es, k);
    var init := es[..|es| - 1];
    assert init == [] && HasSeq(rules, ids, items[..k], init);
    assert items[..k] == [];
    assert items[k..] == items;
    l := RepIsLoop(rules, ids, items, b, cs, e);
  }

  /** For every grammar that reads as `root ::= [..]*` or `root ::= "c"*`, desugared into
      whatever table: the language is that of all words of members, and the simulator accepts
      exactly those that leave two frames of the depth limit unused, so no word of more than
      126 codepoints under a limit of 128. */
  lemma {:induction false} StarReach(rules: Rules, ids: Ids, g: Source, b: Elem, cs: CharSet, cap: nat, w: Word)
    requires HasSource(rules, ids, g) && ROOT in ids && g[ROOT] == Starred(b) && IsChar(b, cs)
    ensures w in SourceLang(g, ROOT) <==> AllIn(cs, w)
    ensures Empty in Run(rules, cap, Start(rules, cap, ids[ROOT]), w) <==> AllIn(cs, w) && |w| + 2 <= cap
  {
    hide Run, Start, HasAlts, SourceLang, RuleLang;
    var r := ids[ROOT];
    var l := StarIsLoop(rules, ids, rules[r].alts, b, cs);
    LoopReach(rules, r, l, cs, cap, w);
    RootDerives(rules, r, l, cs, w);
    TableMeansSource(rules, ids, g, ROOT);
  }
}
