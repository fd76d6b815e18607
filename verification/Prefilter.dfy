/** The first-byte prefilter: the bytes that may start the next token. */
module Prefilter {
  import opened CharSets
  import opened Languages
  import opened Grammar
  import opened Pushdown
  import opened FirstPositions
  import opened StackGrowth
  import opened Utf8
  import opened ByteRuns

  /** The block of codepoints a multi-byte lead opens, clamped to the values its
      length may legally encode. */
  function BlockLow(b: byte): uint32
    requires Extra(b) > 0
  {
    var base := LowShift(LeadBits(b, Extra(b)), Extra(b));
    if base < MinFor(Extra(b)) then MinFor(Extra(b)) else base
  }

  function BlockHigh(b: byte): uint32
    requires Extra(b) > 0
  {
    var top := HighShift(LeadBits(b, Extra(b)), Extra(b));
    if top < MAX_CODEPOINT then top else MAX_CODEPOINT
  }

  /** Byte `b` may open a codepoint of the set. */
  ghost predicate Opens(cs: CharSet, b: byte)
  {
    if Extra(b) == 0 then Contains(cs, b)
    else Extra(b) > 0 && BlockLow(b) <= BlockHigh(b) && Meets(cs, BlockLow(b), BlockHigh(b))
  }

  ghost predicate OpensAt(rules: Rules, s: Stack, b: byte)
  {
    StackOk(rules, s) && AtChars(rules, s) && Opens(TopChars(rules, s), b)
  }

  /** The flag `lead_bytes` computes for `b`. */
  ghost predicate Flagged(rules: Rules, S: set<Stack>, p: Partial, b: byte)
  {
    if p.remaining > 0 then IsContinuation(b) else exists s :: s in S && OpensAt(rules, s, b)
  }

  lemma LeadRange(p: Partial, b: byte)
    requires p.remaining == 0 && Extra(b) > 0
    ensures Feed(p, b).More?
    ensures var q := Feed(p, b).partial;
            PartialOk(q) && q.remaining > 0 && LowEnd(q) == BlockLow(b) && HighEnd(q) == BlockHigh(b)
  {
  }

  lemma FlaggedIffConsumes(rules: Rules, S: set<Stack>, p: Partial, b: byte)
    requires p.remaining == 0 && Extra(b) > 0
    ensures Flagged(rules, S, p, b) <==>
            BlockLow(b) <= BlockHigh(b) && CanConsume(rules, S, BlockLow(b), BlockHigh(b))
  {
    if Flagged(rules, S, p, b) {
      var s :| s in S && OpensAt(rules, s, b);
      assert ConsumesAt(rules, s, BlockLow(b), BlockHigh(b));
    }
    if BlockLow(b) <= BlockHigh(b) && CanConsume(rules, S, BlockLow(b), BlockHigh(b)) {
      var s :| s in S && ConsumesAt(rules, s, BlockLow(b), BlockHigh(b));
      assert OpensAt(rules, s, b);
    }
  }

  lemma SingleByte(rules: Rules, cap: nat, S: set<Stack>, p: Partial, b: byte)
    requires p.remaining == 0
    ensures Extra(b) < 0 ==> Update(rules, cap, S, p, [b]) == Dead
    ensures Extra(b) == 0 ==> (Update(rules, cap, S, p, [b]).Live? <==> Step(rules, cap, S, b) != {})
    ensures Extra(b) > 0 ==> (Update(rules, cap, S, p, [b]).Live? <==> EndOkAfter(rules, S, p, b))
  {
    var text: seq<byte> := [b];
    assert text[0] == b && text[1..] == [];
    FeedOk(p, b);
    match Feed(p, b)
    case Bad =>
    case More(q) =>
      LeadRange(p, b);
      assert Loop(rules, cap, S, q, text[1..]) == Live(S, q);
    case Char(c, q) =>
      var T := Step(rules, cap, S, c);
      assert Loop(rules, cap, T, q, text[1..]) == Live(T, q);
  }

  ghost predicate EndOkAfter(rules: Rules, S: set<Stack>, p: Partial, b: byte)
    requires p.remaining == 0 && Extra(b) > 0
  {
    LeadRange(p, b);
    EndOk(rules, S, Feed(p, b).partial)
  }

  /** The prefilter never loses a legal token: a non-empty text that is accepted
      begins with a flagged byte. */
  lemma AcceptedTextIsFlagged(rules: Rules, cap: nat, S: set<Stack>, p: Partial, text: seq<byte>)
    requires PartialOk(p) && text != [] && Update(rules, cap, S, p, text).Live?
    ensures Flagged(rules, S, p, text[0])
  {
    if p.remaining == 0 {
      var b := text[0];
      UpdateConcat(rules, cap, S, p, [b], text[1..]);
      assert [b] + text[1..] == text;
      SingleByte(rules, cap, S, p, b);
      if Extra(b) == 0 {
        StepConsumes(rules, cap, S, b, b, b);
        var s :| s in S && ConsumesAt(rules, s, b, b);
        assert OpensAt(rules, s, b);
      } else {
        LeadRange(p, b);
        FlaggedIffConsumes(rules, S, p, b);
      }
    }
  }

  /** Outside a half character a multi-byte lead is flagged exactly when that single
      byte is accepted. */
  lemma LeadFlagIsExact(rules: Rules, cap: nat, S: set<Stack>, p: Partial, b: byte)
    requires p.remaining == 0 && b >= 0x80
    ensures Flagged(rules, S, p, b) <==> Update(rules, cap, S, p, [b]).Live?
  {
    SingleByte(rules, cap, S, p, b);
    if Extra(b) > 0 {
      LeadRange(p, b);
      FlaggedIffConsumes(rules, S, p, b);
    }
  }

  // ----- an ASCII flag is exact while the cap is out of reach -----

  /** The parser gives every rule at least one alternative. */
  predicate AllDefined(rules: Rules)
  {
    forall r :: 0 <= r < |rules| ==> rules[r].alts != []
  }

  lemma RefInRange(rules: Rules, s: Stack)
    requires RulesOk(rules) && StackOk(rules, s) && AtRef(rules, s)
    ensures TopRule(rules, s) < |rules|
  {
    assert FormOk(rules, rules[s.pos.rule].alts[s.pos.alt]);
    assert ItemOk(|rules|, AltOf(rules, s.pos)[s.pos.idx]);
  }

  lemma {:induction false} ReachableTrans(rules: Rules, cap: nat, s: Stack, m: Stack, t: Stack, n: nat)
    requires Reach(rules, cap, s, m, n) && Reachable(rules, cap, m, t)
    ensures Reachable(rules, cap, s, t)
    decreases n
  {
    if n > 0 {
      var s' :| Move(rules, cap, s, s') && Reach(rules, cap, s', m, n - 1);
      ReachableTrans(rules, cap, s', m, t, n - 1);
      ReachableCons(rules, cap, s, s', t);
    }
  }

  lemma ReachablePasses(rules: Rules, cap: nat, s: Stack, m: Stack)
    requires Reachable(rules, cap, s, m)
    ensures forall t :: Reachable(rules, cap, m, t) ==> Reachable(rules, cap, s, t)
    ensures Unblocked(rules, cap, s) ==> Unblocked(rules, cap, m)
  {
    var n: nat :| Reach(rules, cap, s, m, n);
    forall t | Reachable(rules, cap, m, t)
      ensures Reachable(rules, cap, s, t)
    {
      ReachableTrans(rules, cap, s, m, t, n);
    }
  }

  /** Entering a rule either comes to wait for input or passes through it. */
  lemma {:induction false} EnterRule(rules: Rules, rank: seq<nat>, cap: nat, s: Stack) returns (t: Stack, through: bool)
    requires IsRank(rules, rank) && RulesOk(rules) && AllDefined(rules)
    requires StackOk(rules, s) && AtRef(rules, s) && TopRule(rules, s) < |rules| && Unblocked(rules, cap, s)
    ensures Reachable(rules, cap, s, t)
    ensures if through then t == Skip(s) && Nullable(rules, TopRule(rules, s)) else Settled(rules, t)
    decreases rank[TopRule(rules, s)], 1, 0
  {
    var m := Push(Pos(TopRule(rules, s), 0, 0), s);
    ReachableSelf(rules, cap, s);
    assert Move(rules, cap, s, m);
    UnblockedStep(rules, cap, s, m);
    t, through := WalkAlt(rules, rank, cap, m);
    ReachableCons(rules, cap, s, m, t);
  }

  lemma {:induction false} WalkAlt(rules: Rules, rank: seq<nat>, cap: nat, m: Stack) returns (t: Stack, through: bool)
    requires IsRank(rules, rank) && RulesOk(rules) && AllDefined(rules)
    requires StackOk(rules, m) && m.Push? && Unblocked(rules, cap, m)
    requires VanishesBefore(rules, AltOf(rules, m.pos), m.pos.idx)
    ensures Reachable(rules, cap, m, t)
    ensures if through then t == Skip(m.below) && Nullable(rules, m.pos.rule) else Settled(rules, t)
    decreases rank[m.pos.rule], 0, |AltOf(rules, m.pos)| - m.pos.idx
  {
    ReachableSelf(rules, cap, m);
    if Settled(rules, m) {
      t, through := m, false;
    } else if Finished(rules, m) {
      t, through := Skip(m.below), true;
      ReachableStep(rules, cap, m, m, t);
      VanishedIsNullable(rules, m.pos);
    } else {
      RefInRange(rules, m);
      CallIsEdge(rules, m, TopRule(rules, m));
      t, through := EnterRule(rules, rank, cap, m);
      if through {
        ReachablePasses(rules, cap, m, t);
        t, through := WalkAlt(rules, rank, cap, Skip(m));
      }
    }
  }

  /** A continuation that never meets the cap always comes to wait or finishes. */
  lemma {:induction false} AlwaysSettles(rules: Rules, rank: seq<nat>, cap: nat, s: Stack) returns (t: Stack)
    requires IsRank(rules, rank) && RulesOk(rules) && AllDefined(rules)
    requires StackOk(rules, s) && Unblocked(rules, cap, s)
    ensures Settled(rules, t) && Reachable(rules, cap, s, t)
    decreases Depth(s), if s.Push? then |AltOf(rules, s.pos)| - s.pos.idx else 0
  {
    ReachableSelf(rules, cap, s);
    if Settled(rules, s) {
      t := s;
    } else if Finished(rules, s) {
      var m := Skip(s.below);
      SkipOk(rules, s.below);
      assert Move(rules, cap, s, m);
      UnblockedStep(rules, cap, s, m);
      t := AlwaysSettles(rules, rank, cap, m);
      ReachableCons(rules, cap, s, m, t);
    } else {
      RefInRange(rules, s);
      var through: bool;
      t, through := EnterRule(rules, rank, cap, s);
      if through {
        ReachablePasses(rules, cap, s, t);
        t := AlwaysSettles(rules, rank, cap, Skip(s));
      }
    }
  }

  /** For a grammar that compiled, and stacks that leave |rules| frames below the
      cap, every flag outside a half character is exact. */
  lemma FlagIsExact(rules: Rules, cap: nat, S: set<Stack>, p: Partial, b: byte, d: nat)
    requires Ranked(rules) && RulesOk(rules) && AllDefined(rules)
    requires Within(S, d) && d + |rules| <= cap && p.remaining == 0
    ensures Flagged(rules, S, p, b) <==> Update(rules, cap, S, p, [b]).Live?
  {
    if b >= 0x80 {
      LeadFlagIsExact(rules, cap, S, p, b);
    } else {
      SingleByte(rules, cap, S, p, b);
      if Flagged(rules, S, p, b) {
        var s :| s in S && OpensAt(rules, s, b);
        assert Waits(rules, s, b);
        StepWithin(rules, cap, S, b, d);
        SkipCharsOk(rules, s);
        var rank :| IsRank(rules, rank);
        var t := AlwaysSettles(rules, rank, cap, Skip(s));
        SettledFromIff(rules, cap, Skip(s), t);
        assert t in Step(rules, cap, S, b);
      }
      if Step(rules, cap, S, b) != {} {
        StepConsumes(rules, cap, S, b, b, b);
        var s :| s in S && ConsumesAt(rules, s, b, b);
        assert OpensAt(rules, s, b);
      }
    }
  }

  /** A compiled grammar whose rule count fits under the cap has a start state. */
  lemma StartIsLive(rules: Rules, cap: nat, root: nat)
    requires Ranked(rules) && RulesOk(rules) && AllDefined(rules) && root < |rules| <= cap
    ensures Start(rules, cap, root) != {}
  {
    StartWithin(rules, cap, root);
    StartForm(rules, root, 0);
    var rank :| IsRank(rules, rank);
    var s := Push(Pos(root, 0, 0), Empty);
    assert Unblocked(rules, cap, s);
    var t := AlwaysSettles(rules, rank, cap, s);
    SettledFromIff(rules, cap, s, t);
    assert t in Start(rules, cap, root);
  }
}
