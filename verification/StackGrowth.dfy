/** Without left recursion the moves between two codepoints push at most one frame
    per rule, so short texts never meet the depth cap. */
module StackGrowth {
  import opened CharSets
  import opened Languages
  import opened Grammar
  import opened Pushdown
  import opened FirstPositions

  /** The top `k` frames were all entered since the last codepoint: everything
      before their current item vanished, and each sits on the reference to the
      rule above it. */
  ghost predicate Grown(rules: Rules, t: Stack, k: nat)
  {
    k > 0 ==>
      && t.Push? && PosOk(rules, t.pos) && VanishesBefore(rules, AltOf(rules, t.pos), t.pos.idx)
      && (k > 1 ==> CallsRule(rules, t.below, t.pos.rule))
      && Grown(rules, t.below, k - 1)
  }

  ghost predicate CallsRule(rules: Rules, st: Stack, r: nat)
  {
    && st.Push? && PosOk(rules, st.pos) && st.pos.idx < |AltOf(rules, st.pos)|
    && AltOf(rules, st.pos)[st.pos.idx] == Ref(r)
  }

  lemma CallIsEdge(rules: Rules, st: Stack, r: nat)
    requires CallsRule(rules, st, r) && VanishesBefore(rules, AltOf(rules, st.pos), st.pos.idx)
    ensures Edge(rules, st.pos.rule, r)
  {
    assert EdgeAt(rules, st.pos.rule, r, st.pos.alt, st.pos.idx);
  }

  lemma {:induction false} GrownBound(rules: Rules, rank: seq<nat>, t: Stack, k: nat)
    requires IsRank(rules, rank) && Grown(rules, t, k) && k > 0
    ensures rank[t.pos.rule] + k <= |rules|
    decreases k
  {
    if k > 1 {
      GrownBound(rules, rank, t.below, k - 1);
      CallIsEdge(rules, t.below, t.pos.rule);
    }
  }

  lemma VanishedIsNullable(rules: Rules, p: Pos)
    requires PosOk(rules, p) && p.idx == |AltOf(rules, p)| && VanishesBefore(rules, AltOf(rules, p), p.idx)
    ensures Nullable(rules, p.rule)
  {
    FormVanishes(rules, AltOf(rules, p));
    RuleLangIsUnion(rules, p.rule, []);
  }

  /** One move keeps the grown part on top of at most `d` older frames. */
  lemma MoveGrown(rules: Rules, cap: nat, t: Stack, t': Stack, k: nat, d: nat) returns (k': nat)
    requires Move(rules, cap, t, t') && Grown(rules, t, k) && Depth(t) <= d + k
    ensures Grown(rules, t', k') && Depth(t') <= d + k'
  {
    if Finished(rules, t) {
      SkipOk(rules, t.below);
      if k < 2 {
        k' := 0;
      } else {
        k' := k - 1;
        VanishedIsNullable(rules, t.pos);
      }
    } else {
      k' := k + 1;
      assert CallsRule(rules, t, t'.pos.rule);
    }
  }

  lemma {:induction false} ReachGrown(rules: Rules, cap: nat, s: Stack, t: Stack, n: nat, k: nat, d: nat)
    returns (k': nat)
    requires StackOk(rules, s) && Reach(rules, cap, s, t, n) && Grown(rules, s, k) && Depth(s) <= d + k
    ensures Grown(rules, t, k') && Depth(t) <= d + k'
    decreases n
  {
    if n == 0 {
      k' := k;
    } else {
      var m :| Move(rules, cap, s, m) && Reach(rules, cap, m, t, n - 1);
      MoveOk(rules, cap, s, m);
      var j := MoveGrown(rules, cap, s, m, k, d);
      k' := ReachGrown(rules, cap, m, t, n - 1, j, d);
    }
  }

  lemma {:induction false} GrownDepth(rules: Rules, rank: seq<nat>, t: Stack, k: nat, d: nat)
    requires IsRank(rules, rank) && StackOk(rules, t) && Grown(rules, t, k) && Depth(t) <= d + k
    ensures Depth(t) <= d + |rules|
    ensures AtRef(rules, t) ==> Depth(t) < d + |rules|
  {
    if k > 0 {
      GrownBound(rules, rank, t, k);
      if AtRef(rules, t) {
        CallIsEdge(rules, t, TopRule(rules, t));
      }
    }
  }

  /** Whatever the cap, the moves from a stack with `k` grown frames over `d` older
      ones stay within `d + |rules|` frames; a cap of that size is never met. */
  lemma {:induction false} GrowthBound(rules: Rules, cap: nat, s: Stack, k: nat, d: nat)
    requires Ranked(rules) && StackOk(rules, s) && Grown(rules, s, k) && Depth(s) <= d + k
    ensures forall t :: Reachable(rules, cap, s, t) ==> Depth(t) <= d + |rules|
    ensures d + |rules| <= cap ==> Unblocked(rules, cap, s)
  {
    var rank :| IsRank(rules, rank);
    forall t | Reachable(rules, cap, s, t)
      ensures Depth(t) <= d + |rules|
      ensures d + |rules| <= cap ==> !Blocked(rules, cap, t)
    {
      var n: nat :| Reach(rules, cap, s, t, n);
      ReachOk(rules, cap, s, t, n);
      var k' := ReachGrown(rules, cap, s, t, n, k, d);
      GrownDepth(rules, rank, t, k', d);
    }
  }

  ghost predicate Within(S: set<Stack>, d: nat)
  {
    forall s :: s in S ==> Depth(s) <= d
  }

  lemma StartWithin(rules: Rules, cap: nat, root: nat)
    requires Ranked(rules) && root < |rules|
    ensures Within(Start(rules, cap, root), |rules|)
    ensures |rules| <= cap ==> StartUnblocked(rules, cap, root)
  {
    forall a | 0 <= a < |rules[root].alts|
      ensures forall t :: t in SettledFrom(rules, cap, Push(Pos(root, a, 0), Empty)) ==> Depth(t) <= |rules|
      ensures |rules| <= cap ==> Unblocked(rules, cap, Push(Pos(root, a, 0), Empty))
    {
      var s := Push(Pos(root, a, 0), Empty);
      assert Grown(rules, s, 1);
      GrowthBound(rules, cap, s, 1, 0);
    }
  }

  /** Each codepoint adds at most |rules| frames. */
  lemma StepWithin(rules: Rules, cap: nat, S: set<Stack>, c: uint32, d: nat)
    requires Ranked(rules) && Within(S, d)
    ensures Within(Step(rules, cap, S, c), d + |rules|)
    ensures d + |rules| <= cap ==> StepUnblocked(rules, cap, S, c)
  {
    forall s | s in S && Waits(rules, s, c)
      ensures forall t :: t in SettledFrom(rules, cap, Skip(s)) ==> Depth(t) <= d + |rules|
      ensures d + |rules| <= cap ==> Unblocked(rules, cap, Skip(s))
    {
      SkipCharsOk(rules, s);
      assert Grown(rules, Skip(s), 0);
      GrowthBound(rules, cap, Skip(s), 0, d);
    }
  }

  lemma {:induction false} RunWithin(rules: Rules, cap: nat, S: set<Stack>, w: Word, d: nat)
    requires Ranked(rules) && Within(S, d) && d + |w| * |rules| <= cap
    ensures RunUnblocked(rules, cap, S, w)
    decreases |w|
  {
    if w != [] {
      assert |w| * |rules| == |rules| + |w[1..]| * |rules|;
      StepWithin(rules, cap, S, w[0], d);
      RunWithin(rules, cap, Step(rules, cap, S, w[0]), w[1..], d + |rules|);
    }
  }

  /** For a grammar that passed the left-recursion check the simulator decides the
      language of `root` on every word with (length + 1) * |rules| <= cap. */
  lemma {:induction false} ShortWordsDecided(rules: Rules, cap: nat, root: nat, w: Word)
    requires Ranked(rules) && root < |rules| && (|w| + 1) * |rules| <= cap
    ensures Empty in Run(rules, cap, Start(rules, cap, root), w) <==> w in RuleLang(rules, root)
  {
    assert (|w| + 1) * |rules| == |rules| + |w| * |rules|;
    StartWithin(rules, cap, root);
    RunWithin(rules, cap, Start(rules, cap, root), w, |rules|);
    SimulatorDecidesRoot(rules, cap, root, w);
  }
}
