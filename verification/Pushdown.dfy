/** The pushdown reading of a rule table on plain frame lists, without interning
    or memoisation, and its relation to derivations. */
module Pushdown {
  import opened CharSets
  import opened Languages
  import opened Grammar

  datatype Pos = Pos(rule: nat, alt: nat, idx: nat)

  /** A parse continuation, innermost frame first. `Empty` is a finished parse. */
  datatype Stack = Empty | Push(pos: Pos, below: Stack)

  predicate PosOk(rules: Rules, p: Pos)
  {
    p.rule < |rules| && p.alt < |rules[p.rule].alts| && p.idx <= |rules[p.rule].alts[p.alt]|
  }

  function AltOf(rules: Rules, p: Pos): Alt
    requires PosOk(rules, p)
  {
    rules[p.rule].alts[p.alt]
  }

  /** A frame under another one sits at the reference it descended through. */
  predicate CallerOk(rules: Rules, st: Stack)
  {
    st.Push? ==>
      && PosOk(rules, st.pos)
      && st.pos.idx < |AltOf(rules, st.pos)|
      && AltOf(rules, st.pos)[st.pos.idx].Ref?
      && CallerOk(rules, st.below)
  }

  predicate StackOk(rules: Rules, st: Stack)
  {
    st.Push? ==> PosOk(rules, st.pos) && CallerOk(rules, st.below)
  }

  function Depth(st: Stack): nat
  {
    if st.Empty? then 0 else 1 + Depth(st.below)
  }

  /** The top frame moved past its current item. */
  function Skip(st: Stack): Stack
  {
    if st.Empty? then Empty else Push(Pos(st.pos.rule, st.pos.alt, st.pos.idx + 1), st.below)
  }

  /** What the callers still owe once the frames above them are done. */
  function CallerForm(rules: Rules, st: Stack): seq<Item>
    requires CallerOk(rules, st)
  {
    if st.Empty? then [] else AltOf(rules, st.pos)[st.pos.idx + 1..] + CallerForm(rules, st.below)
  }

  /** The sentential form a stack stands for: the rest of the top alternative,
      then the rest of each caller after its reference. */
  function Form(rules: Rules, st: Stack): seq<Item>
    requires StackOk(rules, st)
  {
    if st.Empty? then [] else AltOf(rules, st.pos)[st.pos.idx..] + CallerForm(rules, st.below)
  }

  predicate Finished(rules: Rules, st: Stack)
    requires StackOk(rules, st)
  {
    st.Push? && st.pos.idx == |AltOf(rules, st.pos)|
  }

  predicate AtRef(rules: Rules, st: Stack)
    requires StackOk(rules, st)
  {
    st.Push? && st.pos.idx < |AltOf(rules, st.pos)| && AltOf(rules, st.pos)[st.pos.idx].Ref?
  }

  predicate AtChars(rules: Rules, st: Stack)
    requires StackOk(rules, st)
  {
    st.Push? && st.pos.idx < |AltOf(rules, st.pos)| && AltOf(rules, st.pos)[st.pos.idx].Chars?
  }

  function TopChars(rules: Rules, st: Stack): CharSet
    requires StackOk(rules, st) && AtChars(rules, st)
  {
    AltOf(rules, st.pos)[st.pos.idx].cs
  }

  function TopRule(rules: Rules, st: Stack): nat
    requires StackOk(rules, st) && AtRef(rules, st)
  {
    AltOf(rules, st.pos)[st.pos.idx].rule
  }

  /** Waiting for input, or complete. */
  predicate Settled(rules: Rules, st: Stack)
  {
    StackOk(rules, st) && (st.Empty? || AtChars(rules, st))
  }

  predicate Waits(rules: Rules, st: Stack, c: uint32)
  {
    StackOk(rules, st) && AtChars(rules, st) && Contains(TopChars(rules, st), c)
  }

  /** One move that reads no input: return from a finished alternative, or descend
      into an alternative of the referenced rule while the depth cap allows it. */
  ghost predicate Move(rules: Rules, cap: nat, s: Stack, t: Stack)
  {
    && StackOk(rules, s)
    && ((Finished(rules, s) && t == Skip(s.below)) || Descends(rules, cap, s, t))
  }

  ghost predicate Descends(rules: Rules, cap: nat, s: Stack, t: Stack)
    requires StackOk(rules, s)
  {
    && AtRef(rules, s) && Depth(s) < cap && TopRule(rules, s) < |rules|
    && t.Push? && t.below == s && t.pos.rule == TopRule(rules, s) && t.pos.idx == 0
    && t.pos.alt < |rules[t.pos.rule].alts|
  }

  /** The stacks entered when `s` descends into rule `r`. */
  ghost function Entries(rules: Rules, r: nat, s: Stack): set<Stack>
    requires r < |rules|
  {
    set a | 0 <= a < |rules[r].alts| :: Push(Pos(r, a, 0), s)
  }

  /** All moves of a stack, collected. */
  ghost function MovesOf(rules: Rules, cap: nat, s: Stack): set<Stack>
    requires RulesOk(rules) && StackOk(rules, s)
  {
    if Finished(rules, s) then {Skip(s.below)}
    else if AtRef(rules, s) && Depth(s) < cap && TopRule(rules, s) < |rules| then Entries(rules, TopRule(rules, s), s)
    else {}
  }

  lemma MovesOfIff(rules: Rules, cap: nat, s: Stack, t: Stack)
    requires RulesOk(rules) && StackOk(rules, s)
    ensures t in MovesOf(rules, cap, s) <==> Move(rules, cap, s, t)
  {
    if AtRef(rules, s) && Descends(rules, cap, s, t) {
      assert t == Push(Pos(TopRule(rules, s), t.pos.alt, 0), s);
    }
  }

  /** The depth cap drops this continuation. */
  predicate Blocked(rules: Rules, cap: nat, s: Stack)
  {
    StackOk(rules, s) && AtRef(rules, s) && Depth(s) >= cap
  }

  ghost predicate Reach(rules: Rules, cap: nat, s: Stack, t: Stack, n: nat)
    decreases n
  {
    if n == 0 then s == t
    else exists m :: Move(rules, cap, s, m) && Reach(rules, cap, m, t, n - 1)
  }

  ghost predicate Reachable(rules: Rules, cap: nat, s: Stack, t: Stack)
  {
    exists n: nat :: Reach(rules, cap, s, t, n)
  }

  /** No continuation started at `s` runs into the depth cap. */
  ghost predicate Unblocked(rules: Rules, cap: nat, s: Stack)
  {
    forall t :: Reachable(rules, cap, s, t) ==> !Blocked(rules, cap, t)
  }

  // ----- the finite universe of frame lists -----

  ghost function Positions(rules: Rules): set<Pos>
  {
    set r, a, i | 0 <= r < |rules| && 0 <= a < |rules[r].alts| && 0 <= i <= |rules[r].alts[a]| :: Pos(r, a, i)
  }

  ghost function Universe(rules: Rules, d: nat): set<Stack>
  {
    if d == 0 then {Empty}
    else {Empty} + set p, b | p in Positions(rules) && b in Universe(rules, d - 1) :: Push(p, b)
  }

  function Max(a: nat, b: nat): nat
  {
    if a < b then b else a
  }

  lemma {:induction false} InUniverse(rules: Rules, st: Stack, d: nat)
    requires StackOk(rules, st) && Depth(st) <= d
    ensures st in Universe(rules, d)
    decreases st
  {
    if st.Push? {
      InUniverse(rules, st.below, d - 1);
      assert st.pos == Pos(st.pos.rule, st.pos.alt, st.pos.idx);
      assert st.pos in Positions(rules);
      assert st == Push(st.pos, st.below);
    }
  }

  /** All settled stacks that `s` can move to. */
  ghost function SettledFrom(rules: Rules, cap: nat, s: Stack): set<Stack>
  {
    set t | t in Universe(rules, Max(cap, Depth(s))) && Settled(rules, t) && Reachable(rules, cap, s, t)
  }

  lemma {:induction false} SkipOk(rules: Rules, st: Stack)
    requires CallerOk(rules, st)
    ensures StackOk(rules, Skip(st)) && Depth(Skip(st)) == Depth(st)
    ensures Form(rules, Skip(st)) == CallerForm(rules, st)
  {
  }

  lemma {:induction false} SkipCharsOk(rules: Rules, st: Stack)
    requires StackOk(rules, st) && AtChars(rules, st)
    ensures StackOk(rules, Skip(st)) && Depth(Skip(st)) == Depth(st)
    ensures Form(rules, st) == [AltOf(rules, st.pos)[st.pos.idx]] + Form(rules, Skip(st))
  {
  }

  lemma {:induction false} MoveOk(rules: Rules, cap: nat, s: Stack, t: Stack)
    requires Move(rules, cap, s, t)
    ensures StackOk(rules, t) && Depth(t) <= Max(cap, Depth(s))
  {
    if Finished(rules, s) {
      SkipOk(rules, s.below);
    }
  }

  lemma {:induction false} ReachOk(rules: Rules, cap: nat, s: Stack, t: Stack, n: nat)
    requires StackOk(rules, s) && Reach(rules, cap, s, t, n)
    ensures StackOk(rules, t) && Depth(t) <= Max(cap, Depth(s))
    decreases n
  {
    if n > 0 {
      var m :| Move(rules, cap, s, m) && Reach(rules, cap, m, t, n - 1);
      MoveOk(rules, cap, s, m);
      ReachOk(rules, cap, m, t, n - 1);
    }
  }

  lemma SettledFromIff(rules: Rules, cap: nat, s: Stack, t: Stack)
    requires StackOk(rules, s)
    ensures t in SettledFrom(rules, cap, s) <==> Settled(rules, t) && Reachable(rules, cap, s, t)
  {
    if Settled(rules, t) && Reachable(rules, cap, s, t) {
      var n: nat :| Reach(rules, cap, s, t, n);
      ReachOk(rules, cap, s, t, n);
      InUniverse(rules, t, Max(cap, Depth(s)));
    }
  }

  lemma {:induction false} ReachSnoc(rules: Rules, cap: nat, s: Stack, m: Stack, t: Stack, n: nat)
    requires Reach(rules, cap, s, m, n) && Move(rules, cap, m, t)
    ensures Reach(rules, cap, s, t, n + 1)
    decreases n
  {
    if n == 0 {
      assert Reach(rules, cap, t, t, 0);
    } else {
      var s' :| Move(rules, cap, s, s') && Reach(rules, cap, s', m, n - 1);
      ReachSnoc(rules, cap, s', m, t, n - 1);
    }
  }

  lemma ReachableStep(rules: Rules, cap: nat, s: Stack, m: Stack, t: Stack)
    requires Reachable(rules, cap, s, m) && Move(rules, cap, m, t)
    ensures Reachable(rules, cap, s, t)
  {
    var n: nat :| Reach(rules, cap, s, m, n);
    ReachSnoc(rules, cap, s, m, t, n);
  }

  lemma ReachableSelf(rules: Rules, cap: nat, s: Stack)
    ensures Reachable(rules, cap, s, s)
  {
    assert Reach(rules, cap, s, s, 0);
  }

  lemma ReachableCons(rules: Rules, cap: nat, s: Stack, m: Stack, t: Stack)
    requires Move(rules, cap, s, m) && Reachable(rules, cap, m, t)
    ensures Reachable(rules, cap, s, t)
  {
    var n: nat :| Reach(rules, cap, m, t, n);
    assert Reach(rules, cap, s, t, n + 1);
  }

  lemma UnblockedStep(rules: Rules, cap: nat, s: Stack, m: Stack)
    requires Unblocked(rules, cap, s) && Move(rules, cap, s, m)
    ensures Unblocked(rules, cap, m)
  {
    forall t | Reachable(rules, cap, m, t)
      ensures !Blocked(rules, cap, t)
    {
      ReachableCons(rules, cap, s, m, t);
    }
  }

  // ----- moves and derivations -----

  lemma FinishedForm(rules: Rules, s: Stack)
    requires StackOk(rules, s) && Finished(rules, s)
    ensures StackOk(rules, Skip(s.below)) && Form(rules, Skip(s.below)) == Form(rules, s)
  {
    SkipOk(rules, s.below);
  }

  lemma RefForm(rules: Rules, s: Stack)
    requires StackOk(rules, s) && AtRef(rules, s)
    ensures |Form(rules, s)| > 0 && Form(rules, s)[0] == Ref(TopRule(rules, s))
  {
  }

  lemma DescendForm(rules: Rules, s: Stack, a: nat)
    requires StackOk(rules, s) && AtRef(rules, s) && TopRule(rules, s) < |rules|
    requires a < |rules[TopRule(rules, s)].alts|
    ensures |Form(rules, s)| > 0 && Form(rules, s)[0] == Ref(TopRule(rules, s))
    ensures var t := Push(Pos(TopRule(rules, s), a, 0), s);
            StackOk(rules, t) && Form(rules, t) == rules[TopRule(rules, s)].alts[a] + Form(rules, s)[1..]
  {
    assert Form(rules, s)[1..] == CallerForm(rules, s);
  }

  /** A move never adds words. */
  lemma MoveSound(rules: Rules, cap: nat, s: Stack, t: Stack, w: Word)
    requires Move(rules, cap, s, t) && StackOk(rules, t) && Derivable(rules, Form(rules, t), w)
    ensures Derivable(rules, Form(rules, s), w)
  {
    if Finished(rules, s) {
      FinishedForm(rules, s);
    } else {
      DescendForm(rules, s, t.pos.alt);
      assert t == Push(Pos(TopRule(rules, s), t.pos.alt, 0), s);
      var n: nat :| Derives(rules, Form(rules, t), w, n);
      DeriveFirst(rules, Form(rules, s), t.pos.alt, w, n);
    }
  }

  lemma {:induction false} ReachSound(rules: Rules, cap: nat, s: Stack, t: Stack, w: Word, k: nat)
    requires StackOk(rules, s) && StackOk(rules, t) && Reach(rules, cap, s, t, k)
    requires Derivable(rules, Form(rules, t), w)
    ensures Derivable(rules, Form(rules, s), w)
    decreases k
  {
    hide Form, Derivable, StackOk, Move;
    if k > 0 {
      var m :| Move(rules, cap, s, m) && Reach(rules, cap, m, t, k - 1);
      MoveOk(rules, cap, s, m);
      ReachSound(rules, cap, m, t, w, k - 1);
      MoveSound(rules, cap, s, m, w);
    }
  }

  lemma ReturnMove(rules: Rules, cap: nat, s: Stack) returns (m: Stack)
    requires StackOk(rules, s) && Finished(rules, s)
    ensures Move(rules, cap, s, m) && StackOk(rules, m) && Depth(m) < Depth(s) && Form(rules, m) == Form(rules, s)
  {
    m := Skip(s.below);
    FinishedForm(rules, s);
    SkipOk(rules, s.below);
  }

  lemma DescendMove(rules: Rules, cap: nat, s: Stack, w: Word, n: nat) returns (m: Stack)
    requires StackOk(rules, s) && AtRef(rules, s) && Depth(s) < cap && Derives(rules, Form(rules, s), w, n)
    ensures n > 0 && Move(rules, cap, s, m) && StackOk(rules, m) && Derives(rules, Form(rules, m), w, n - 1)
  {
    RefForm(rules, s);
    var a := FirstDerives(rules, Form(rules, s), w, n);
    DescendForm(rules, s, a);
    m := Push(Pos(TopRule(rules, s), a, 0), s);
  }

  /** Whatever an unblocked stack derives, one of its settled stacks derives. */
  lemma {:induction false} SettleComplete(rules: Rules, cap: nat, s: Stack, w: Word, n: nat) returns (t: Stack)
    requires StackOk(rules, s) && Unblocked(rules, cap, s)
    requires Derives(rules, Form(rules, s), w, n)
    ensures Settled(rules, t) && Reachable(rules, cap, s, t) && Derivable(rules, Form(rules, t), w)
    decreases n, Depth(s)
  {
    ReachableSelf(rules, cap, s);
    if Settled(rules, s) {
      t := s;
    } else {
      var m;
      if Finished(rules, s) {
        m := ReturnMove(rules, cap, s);
        UnblockedStep(rules, cap, s, m);
        t := SettleComplete(rules, cap, m, w, n);
      } else {
        assert !Blocked(rules, cap, s);
        m := DescendMove(rules, cap, s, w, n);
        UnblockedStep(rules, cap, s, m);
        t := SettleComplete(rules, cap, m, w, n - 1);
      }
      ReachableCons(rules, cap, s, m, t);
    }
  }

  // ----- sets of stacks -----

  ghost predicate AllSettled(rules: Rules, S: set<Stack>)
  {
    forall s :: s in S ==> Settled(rules, s)
  }

  ghost predicate InSetLang(rules: Rules, S: set<Stack>, w: Word)
  {
    exists s :: s in S && StackOk(rules, s) && Derivable(rules, Form(rules, s), w)
  }

  /** Everything some live continuation can still derive. */
  ghost function SetLang(rules: Rules, S: set<Stack>): Lang<uint32>
  {
    iset w: Word | InSetLang(rules, S, w)
  }

  ghost function Start(rules: Rules, cap: nat, root: nat): set<Stack>
    requires root < |rules|
  {
    set a, t | 0 <= a < |rules[root].alts| && t in SettledFrom(rules, cap, Push(Pos(root, a, 0), Empty)) :: t
  }

  ghost function Step(rules: Rules, cap: nat, S: set<Stack>, c: uint32): set<Stack>
  {
    set s, t | s in S && Waits(rules, s, c) && t in SettledFrom(rules, cap, Skip(s)) :: t
  }

  lemma StepSnoc(rules: Rules, cap: nat, S: set<Stack>, s: Stack, c: uint32)
    ensures Step(rules, cap, S + {s}, c) ==
            Step(rules, cap, S, c) + if Waits(rules, s, c) then SettledFrom(rules, cap, Skip(s)) else {}
  {
  }

  ghost function Quotient(l: Lang<uint32>, c: uint32): Lang<uint32>
  {
    iset w: Word | [c] + w in l
  }

  ghost predicate StepUnblocked(rules: Rules, cap: nat, S: set<Stack>, c: uint32)
  {
    forall s :: s in S && Waits(rules, s, c) ==> Unblocked(rules, cap, Skip(s))
  }

  ghost predicate StartUnblocked(rules: Rules, cap: nat, root: nat)
    requires root < |rules|
  {
    forall a :: 0 <= a < |rules[root].alts| ==> Unblocked(rules, cap, Push(Pos(root, a, 0), Empty))
  }

  lemma SettledFromSound(rules: Rules, cap: nat, s: Stack, t: Stack, w: Word)
    requires StackOk(rules, s) && t in SettledFrom(rules, cap, s)
    requires Derivable(rules, Form(rules, t), w)
    ensures Derivable(rules, Form(rules, s), w)
  {
    var k: nat :| Reach(rules, cap, s, t, k);
    ReachSound(rules, cap, s, t, w, k);
  }

  lemma SettledFromComplete(rules: Rules, cap: nat, s: Stack, w: Word) returns (t: Stack)
    requires StackOk(rules, s) && Unblocked(rules, cap, s)
    requires Derivable(rules, Form(rules, s), w)
    ensures t in SettledFrom(rules, cap, s) && Derivable(rules, Form(rules, t), w)
  {
    var n: nat :| Derives(rules, Form(rules, s), w, n);
    t := SettleComplete(rules, cap, s, w, n);
    SettledFromIff(rules, cap, s, t);
  }

  lemma DerivableChars(rules: Rules, cs: CharSet, rest: seq<Item>, c: uint32, w: Word)
    ensures Derivable(rules, [Chars(cs)] + rest, [c] + w) <==> Contains(cs, c) && Derivable(rules, rest, w)
  {
    var form, cw := [Chars(cs)] + rest, [c] + w;
    assert form[0] == Chars(cs) && form[1..] == rest && cw[0] == c && cw[1..] == w;
    if Derivable(rules, form, cw) {
      var n: nat :| Derives(rules, form, cw, n);
      assert Derives(rules, rest, w, n - 1);
    }
    if Contains(cs, c) && Derivable(rules, rest, w) {
      var n: nat :| Derives(rules, rest, w, n);
      assert Derives(rules, form, cw, n + 1);
    }
  }

  lemma SettledDerives(rules: Rules, s: Stack, c: uint32, w: Word)
    requires Settled(rules, s)
    ensures Derivable(rules, Form(rules, s), [c] + w) <==>
            Waits(rules, s, c) && StackOk(rules, Skip(s)) && Derivable(rules, Form(rules, Skip(s)), w)
  {
    if s.Push? {
      SkipCharsOk(rules, s);
      assert AltOf(rules, s.pos)[s.pos.idx] == Chars(TopChars(rules, s));
      DerivableChars(rules, TopChars(rules, s), Form(rules, Skip(s)), c, w);
    }
  }

  lemma StepSound(rules: Rules, cap: nat, S: set<Stack>, c: uint32, w: Word)
    requires AllSettled(rules, S) && InSetLang(rules, Step(rules, cap, S, c), w)
    ensures InSetLang(rules, S, [c] + w)
  {
    var t :| t in Step(rules, cap, S, c) && StackOk(rules, t) && Derivable(rules, Form(rules, t), w);
    var s :| s in S && Waits(rules, s, c) && t in SettledFrom(rules, cap, Skip(s));
    SkipCharsOk(rules, s);
    SettledFromSound(rules, cap, Skip(s), t, w);
    SettledDerives(rules, s, c, w);
  }

  lemma StepComplete(rules: Rules, cap: nat, S: set<Stack>, c: uint32, w: Word)
    requires AllSettled(rules, S) && StepUnblocked(rules, cap, S, c) && InSetLang(rules, S, [c] + w)
    ensures InSetLang(rules, Step(rules, cap, S, c), w)
  {
    var s :| s in S && StackOk(rules, s) && Derivable(rules, Form(rules, s), [c] + w);
    SettledDerives(rules, s, c, w);
    var t := SettledFromComplete(rules, cap, Skip(s), w);
    assert t in Step(rules, cap, S, c);
  }

  /** Consuming a codepoint takes the left quotient: never more than it, and
      exactly it when no continuation meets the depth cap. */
  lemma StepIsQuotient(rules: Rules, cap: nat, S: set<Stack>, c: uint32)
    requires AllSettled(rules, S)
    ensures SetLang(rules, Step(rules, cap, S, c)) <= Quotient(SetLang(rules, S), c)
    ensures StepUnblocked(rules, cap, S, c) ==>
              SetLang(rules, Step(rules, cap, S, c)) == Quotient(SetLang(rules, S), c)
  {
    forall w: Word
      ensures InSetLang(rules, Step(rules, cap, S, c), w) ==> InSetLang(rules, S, [c] + w)
      ensures StepUnblocked(rules, cap, S, c) && InSetLang(rules, S, [c] + w) ==>
                InSetLang(rules, Step(rules, cap, S, c), w)
    {
      if InSetLang(rules, Step(rules, cap, S, c), w) {
        StepSound(rules, cap, S, c, w);
      }
      if StepUnblocked(rules, cap, S, c) && InSetLang(rules, S, [c] + w) {
        StepComplete(rules, cap, S, c, w);
      }
    }
  }

  /** The start set denotes `root`, up to continuations lost to the cap. */
  lemma StartIsRoot(rules: Rules, cap: nat, root: nat)
    requires root < |rules|
    ensures AllSettled(rules, Start(rules, cap, root))
    ensures SetLang(rules, Start(rules, cap, root)) <= RuleLang(rules, root)
    ensures StartUnblocked(rules, cap, root) ==>
              SetLang(rules, Start(rules, cap, root)) == RuleLang(rules, root)
  {
    var S := Start(rules, cap, root);
    forall w: Word | InSetLang(rules, S, w)
      ensures w in RuleLang(rules, root)
    {
      var t :| t in S && StackOk(rules, t) && Derivable(rules, Form(rules, t), w);
      var a :| 0 <= a < |rules[root].alts| && t in SettledFrom(rules, cap, Push(Pos(root, a, 0), Empty));
      SettledFromSound(rules, cap, Push(Pos(root, a, 0), Empty), t, w);
      StartForm(rules, root, a);
      RuleLangIsUnion(rules, root, w);
    }
    if StartUnblocked(rules, cap, root) {
      forall w: Word | w in RuleLang(rules, root)
        ensures InSetLang(rules, S, w)
      {
        RuleLangIsUnion(rules, root, w);
        var a :| 0 <= a < |rules[root].alts| && w in FormLang(rules, rules[root].alts[a]);
        StartForm(rules, root, a);
        var t := SettledFromComplete(rules, cap, Push(Pos(root, a, 0), Empty), w);
        assert t in S;
      }
    }
  }

  lemma StartForm(rules: Rules, root: nat, a: nat)
    requires root < |rules| && a < |rules[root].alts|
    ensures StackOk(rules, Push(Pos(root, a, 0), Empty))
    ensures Form(rules, Push(Pos(root, a, 0), Empty)) == rules[root].alts[a]
  {
  }

  /** A settled set is accepting exactly when it holds the finished parse. */
  lemma AcceptsIff(rules: Rules, S: set<Stack>)
    requires AllSettled(rules, S)
    ensures Empty in S <==> [] in SetLang(rules, S)
  {
    if Empty in S {
      assert Derives(rules, Form(rules, Empty), [], 0);
    }
    if [] in SetLang(rules, S) {
      var s :| s in S && StackOk(rules, s) && Derivable(rules, Form(rules, s), []);
      var n: nat :| Derives(rules, Form(rules, s), [], n);
      if s.Push? {
        SkipCharsOk(rules, s);
        assert false;
      }
    }
  }

  // ----- whole words -----

  ghost function Run(rules: Rules, cap: nat, S: set<Stack>, w: Word): set<Stack>
    decreases |w|
  {
    if w == [] then S else Run(rules, cap, Step(rules, cap, S, w[0]), w[1..])
  }

  lemma {:induction false} EmptySetStays(rules: Rules, cap: nat, w: Word)
    ensures Run(rules, cap, {}, w) == {}
    decreases |w|
  {
    if w != [] {
      assert Step(rules, cap, {}, w[0]) == {};
      EmptySetStays(rules, cap, w[1..]);
    }
  }

  /** No continuation meets the depth cap anywhere along `w`. */
  ghost predicate RunUnblocked(rules: Rules, cap: nat, S: set<Stack>, w: Word)
    decreases |w|
  {
    w != [] ==> StepUnblocked(rules, cap, S, w[0]) && RunUnblocked(rules, cap, Step(rules, cap, S, w[0]), w[1..])
  }

  lemma {:induction false} RunIsQuotient(rules: Rules, cap: nat, S: set<Stack>, w: Word)
    requires AllSettled(rules, S)
    ensures AllSettled(rules, Run(rules, cap, S, w))
    ensures Empty in Run(rules, cap, S, w) ==> w in SetLang(rules, S)
    ensures RunUnblocked(rules, cap, S, w) && w in SetLang(rules, S) ==> Empty in Run(rules, cap, S, w)
    decreases |w|
  {
    if w == [] {
      AcceptsIff(rules, S);
    } else {
      StepIsQuotient(rules, cap, S, w[0]);
      RunIsQuotient(rules, cap, Step(rules, cap, S, w[0]), w[1..]);
      assert [w[0]] + w[1..] == w;
    }
  }

  /** Every word the simulator accepts is derivable from `root`, and every
      derivable word along which no continuation meets the cap is accepted. */
  lemma {:induction false} SimulatorDecidesRoot(rules: Rules, cap: nat, root: nat, w: Word)
    requires root < |rules|
    ensures Empty in Run(rules, cap, Start(rules, cap, root), w) ==> w in RuleLang(rules, root)
    ensures StartUnblocked(rules, cap, root) && RunUnblocked(rules, cap, Start(rules, cap, root), w) ==>
              (w in RuleLang(rules, root) ==> Empty in Run(rules, cap, Start(rules, cap, root), w))
  {
    StartIsRoot(rules, cap, root);
    RunIsQuotient(rules, cap, Start(rules, cap, root), w);
  }
}
