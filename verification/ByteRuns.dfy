/** Feeding raw token text to the pushdown simulator: the meaning of the byte-level
    matcher on plain frame lists. */
module ByteRuns {
  import opened CharSets
  import opened Languages
  import opened Grammar
  import opened Pushdown
  import opened FirstPositions
  import opened StackGrowth
  import opened Utf8

  datatype State = Dead | Live(stacks: set<Stack>, partial: Partial)

  /** The byte loop, without the check made when the text ends. */
  ghost function Loop(rules: Rules, cap: nat, S: set<Stack>, p: Partial, text: seq<byte>): State
    requires PartialOk(p)
    decreases |text|
  {
    if text == [] then Live(S, p)
    else
      FeedOk(p, text[0]);
      match Feed(p, text[0])
      case Bad => Dead
      case More(q) => Loop(rules, cap, S, q, text[1..])
      case Char(c, q) =>
        var T := Step(rules, cap, S, c);
        if T == {} then Dead else Loop(rules, cap, T, q, text[1..])
  }

  /** `v` followed by so many base-64 digits: all zero, and all ones. */
  function LowShift(v: nat, remaining: nat): nat
  {
    if remaining == 1 then v * 0x40 else if remaining == 2 then v * 0x1000 else v * 0x40000
  }

  function HighShift(v: nat, remaining: nat): nat
  {
    if remaining == 1 then v * 0x40 + 0x3F else if remaining == 2 then v * 0x1000 + 0xFFF else v * 0x40000 + 0x3FFFF
  }

  /** The codepoints a half character can still become. */
  function LowEnd(p: Partial): uint32
    requires PartialOk(p) && p.remaining > 0
  {
    var v := LowShift(p.value, p.remaining);
    if v < p.min then p.min else v
  }

  function HighEnd(p: Partial): uint32
    requires PartialOk(p) && p.remaining > 0
  {
    var v := HighShift(p.value, p.remaining);
    if v < MAX_CODEPOINT then v else MAX_CODEPOINT
  }

  ghost predicate ConsumesAt(rules: Rules, s: Stack, lo: uint32, hi: uint32)
  {
    StackOk(rules, s) && AtChars(rules, s) && Meets(TopChars(rules, s), lo, hi)
  }

  /** Some live continuation can consume a codepoint of [lo, hi]. */
  ghost predicate CanConsume(rules: Rules, S: set<Stack>, lo: uint32, hi: uint32)
  {
    exists s :: s in S && ConsumesAt(rules, s, lo, hi)
  }

  /** A text may end inside a character only while some completion is legal. */
  ghost predicate EndOk(rules: Rules, S: set<Stack>, p: Partial)
    requires PartialOk(p)
  {
    p.remaining > 0 ==> LowEnd(p) <= HighEnd(p) && CanConsume(rules, S, LowEnd(p), HighEnd(p))
  }

  /** What `update_text` does to a live state. */
  ghost function Update(rules: Rules, cap: nat, S: set<Stack>, p: Partial, text: seq<byte>): State
    requires PartialOk(p)
  {
    var r := Loop(rules, cap, S, p, text);
    LoopOk(rules, cap, S, p, text);
    if r.Live? && EndOk(rules, r.stacks, r.partial) then r else Dead
  }

  lemma {:induction false} LoopOk(rules: Rules, cap: nat, S: set<Stack>, p: Partial, text: seq<byte>)
    requires PartialOk(p)
    ensures Loop(rules, cap, S, p, text).Live? ==> PartialOk(Loop(rules, cap, S, p, text).partial)
    decreases |text|
  {
    if text != [] {
      FeedOk(p, text[0]);
      match Feed(p, text[0])
      case Bad =>
      case More(q) => LoopOk(rules, cap, S, q, text[1..]);
      case Char(c, q) => LoopOk(rules, cap, Step(rules, cap, S, c), q, text[1..]);
    }
  }

  // ----- token boundaries -----

  lemma {:induction false} LoopConcat(rules: Rules, cap: nat, S: set<Stack>, p: Partial, a: seq<byte>, b: seq<byte>)
    requires PartialOk(p)
    ensures match Loop(rules, cap, S, p, a)
            case Dead => Loop(rules, cap, S, p, a + b) == Dead
            case Live(T, q) => PartialOk(q) && Loop(rules, cap, S, p, a + b) == Loop(rules, cap, T, q, b)
    decreases |a|
  {
    if a == [] {
      assert a + b == b;
    } else {
      assert (a + b)[0] == a[0] && (a + b)[1..] == a[1..] + b;
      FeedOk(p, a[0]);
      match Feed(p, a[0])
      case Bad =>
      case More(q) => LoopConcat(rules, cap, S, q, a[1..], b);
      case Char(c, q) => LoopConcat(rules, cap, Step(rules, cap, S, c), q, a[1..], b);
    }
  }

  /** One more byte narrows the range a half character can still become. */
  lemma RangeShrinks(p: Partial, b: byte)
    requires PartialOk(p) && p.remaining > 0
    ensures match Feed(p, b)
            case Bad => true
            case More(q) => PartialOk(q) && q.remaining > 0 && LowEnd(p) <= LowEnd(q) && HighEnd(q) <= HighEnd(p)
            case Char(c, _) => LowEnd(p) <= c <= HighEnd(p)
  {
  }

  lemma WiderConsumes(rules: Rules, S: set<Stack>, lo: uint32, hi: uint32, lo': uint32, hi': uint32)
    requires CanConsume(rules, S, lo', hi') && lo <= lo' && hi' <= hi
    ensures CanConsume(rules, S, lo, hi)
  {
    var s :| s in S && ConsumesAt(rules, s, lo', hi');
    var c: uint32 :| lo' <= c <= hi' && Contains(TopChars(rules, s), c);
    assert ConsumesAt(rules, s, lo, hi);
  }

  lemma StepConsumes(rules: Rules, cap: nat, S: set<Stack>, c: uint32, lo: uint32, hi: uint32)
    requires Step(rules, cap, S, c) != {} && lo <= c <= hi
    ensures CanConsume(rules, S, lo, hi)
  {
    var t :| t in Step(rules, cap, S, c);
    var s :| s in S && Waits(rules, s, c) && t in SettledFrom(rules, cap, Skip(s));
    assert ConsumesAt(rules, s, lo, hi);
  }

  /** If any continuation succeeds, ending here would have been fine too. */
  lemma {:induction false} EndWasOk(rules: Rules, cap: nat, S: set<Stack>, p: Partial, text: seq<byte>)
    requires PartialOk(p) && Update(rules, cap, S, p, text).Live?
    ensures EndOk(rules, S, p)
    decreases |text|
  {
    if text != [] && p.remaining > 0 {
      RangeShrinks(p, text[0]);
      match Feed(p, text[0])
      case More(q) =>
        EndWasOk(rules, cap, S, q, text[1..]);
        WiderConsumes(rules, S, LowEnd(p), HighEnd(p), LowEnd(q), HighEnd(q));
      case Char(c, q) =>
        StepConsumes(rules, cap, S, c, LowEnd(p), HighEnd(p));
    }
  }

  /** One `update_text` call from a state that may already be dead. */
  ghost function Then(rules: Rules, cap: nat, st: State, text: seq<byte>): State
  {
    if st.Live? && PartialOk(st.partial) then Update(rules, cap, st.stacks, st.partial, text) else Dead
  }

  /** Token boundaries do not matter: two updates are one update with the joined
      text, wherever the cut falls, inside a character included. */
  lemma UpdateConcat(rules: Rules, cap: nat, S: set<Stack>, p: Partial, a: seq<byte>, b: seq<byte>)
    requires PartialOk(p)
    ensures Update(rules, cap, S, p, a + b) == Then(rules, cap, Update(rules, cap, S, p, a), b)
  {
    LoopConcat(rules, cap, S, p, a, b);
    match Loop(rules, cap, S, p, a)
    case Dead =>
    case Live(T, q) =>
      if Update(rules, cap, T, q, b).Live? {
        EndWasOk(rules, cap, T, q, b);
      }
  }

  // ----- whole texts -----

  /** The byte loop is the codepoint simulator behind the decoder. */
  lemma {:induction false} LoopIsDecodeThenRun(rules: Rules, cap: nat, S: set<Stack>, p: Partial, text: seq<byte>)
    requires PartialOk(p)
    ensures var d := Decode(p, text);
            Loop(rules, cap, S, p, text) ==
            if d.Valid? && (d.cps == [] || Run(rules, cap, S, d.cps) != {})
            then Live(Run(rules, cap, S, d.cps), d.partial) else Dead
    decreases |text|
  {
    if text != [] {
      FeedOk(p, text[0]);
      match Feed(p, text[0])
      case Bad =>
      case More(q) => LoopIsDecodeThenRun(rules, cap, S, q, text[1..]);
      case Char(c, q) =>
        var T := Step(rules, cap, S, c);
        LoopIsDecodeThenRun(rules, cap, T, q, text[1..]);
        match Decode(q, text[1..]) {
          case Invalid =>
          case Valid(w, r) =>
            assert ([c] + w)[1..] == w;
            assert Run(rules, cap, S, [c] + w) == Run(rules, cap, T, w);
            EmptySetStays(rules, cap, w);
        }
    }
  }

  function Flatten(chunks: seq<seq<byte>>): seq<byte>
  {
    if chunks == [] then [] else chunks[0] + Flatten(chunks[1..])
  }

  /** A run of `update_text` calls, none of which may be refused. */
  ghost function UpdateAll(rules: Rules, cap: nat, st: State, chunks: seq<seq<byte>>): State
    decreases |chunks|
  {
    if chunks == [] then st else UpdateAll(rules, cap, Then(rules, cap, st, chunks[0]), chunks[1..])
  }

  lemma {:induction false} UpdateAllDead(rules: Rules, cap: nat, chunks: seq<seq<byte>>)
    ensures UpdateAll(rules, cap, Dead, chunks) == Dead
    decreases |chunks|
  {
    if chunks != [] {
      UpdateAllDead(rules, cap, chunks[1..]);
    }
  }

  lemma {:induction false} UpdateAllIsUpdate(rules: Rules, cap: nat, S: set<Stack>, p: Partial, chunks: seq<seq<byte>>)
    requires PartialOk(p) && EndOk(rules, S, p)
    ensures UpdateAll(rules, cap, Live(S, p), chunks) == Update(rules, cap, S, p, Flatten(chunks))
    decreases |chunks|
  {
    if chunks != [] {
      LoopOk(rules, cap, S, p, chunks[0]);
      UpdateConcat(rules, cap, S, p, chunks[0], Flatten(chunks[1..]));
      match Update(rules, cap, S, p, chunks[0])
      case Dead => UpdateAllDead(rules, cap, chunks[1..]);
      case Live(T, q) => UpdateAllIsUpdate(rules, cap, T, q, chunks[1..]);
    }
  }

  /** Stopping is legal: a finished parse and no half character. */
  ghost predicate IsDone(st: State)
  {
    st.Live? && st.partial.remaining == 0 && Empty in st.stacks
  }

  ghost predicate InEncodedLang(rules: Rules, root: nat, text: seq<byte>)
  {
    exists w: Word :: Encodable(w) && text == EncodeAll(w) && w in RuleLang(rules, root)
  }

  /** Any chunking of a text that ends with stopping legal spells a word of `root`
      in UTF-8, and any chunking of a short enough word of `root` is accepted. */
  lemma {:induction false} ChunksDecideRoot(rules: Rules, cap: nat, root: nat, chunks: seq<seq<byte>>)
    requires root < |rules|
    ensures IsDone(UpdateAll(rules, cap, Live(Start(rules, cap, root), WHOLE), chunks)) ==>
              InEncodedLang(rules, root, Flatten(chunks))
    ensures forall w: Word ::
              Ranked(rules) && (|w| + 1) * |rules| <= cap && Encodable(w) && Flatten(chunks) == EncodeAll(w) ==>
              (IsDone(UpdateAll(rules, cap, Live(Start(rules, cap, root), WHOLE), chunks)) <==> w in RuleLang(rules, root))
  {
    var S, text := Start(rules, cap, root), Flatten(chunks);
    UpdateAllIsUpdate(rules, cap, S, WHOLE, chunks);
    LoopIsDecodeThenRun(rules, cap, S, WHOLE, text);
    if IsDone(Update(rules, cap, S, WHOLE, text)) {
      var d := Decode(WHOLE, text);
      DecodeSound(WHOLE, text);
      assert Pending(WHOLE) + text == text && EncodeAll(d.cps) + [] == EncodeAll(d.cps);
      SimulatorDecidesRoot(rules, cap, root, d.cps);
    }
    forall w: Word | Ranked(rules) && (|w| + 1) * |rules| <= cap && Encodable(w) && text == EncodeAll(w)
      ensures IsDone(Update(rules, cap, S, WHOLE, text)) <==> w in RuleLang(rules, root)
    {
      var q := DecodeEncode(WHOLE, w);
      ShortWordsDecided(rules, cap, root, w);
    }
  }

  // ----- the cap on the number of stacks -----

  /** No step along the text produces more than `lim` stacks, so the size cap never
      drops one. */
  ghost predicate NeverCut(rules: Rules, cap: nat, lim: nat, S: set<Stack>, p: Partial, text: seq<byte>)
    requires PartialOk(p)
    decreases |text|
  {
    text != [] ==>
      (FeedOk(p, text[0]);
       match Feed(p, text[0])
       case Bad => true
       case More(q) => NeverCut(rules, cap, lim, S, q, text[1..])
       case Char(c, q) =>
         var T := Step(rules, cap, S, c);
         |T| <= lim && (T != {} ==> NeverCut(rules, cap, lim, T, q, text[1..])))
  }

  lemma StepMonotone(rules: Rules, cap: nat, S: set<Stack>, T: set<Stack>, c: uint32)
    requires S <= T
    ensures Step(rules, cap, S, c) <= Step(rules, cap, T, c)
  {
  }

  lemma EndOkMonotone(rules: Rules, S: set<Stack>, T: set<Stack>, p: Partial)
    requires PartialOk(p) && S <= T && EndOk(rules, S, p)
    ensures EndOk(rules, T, p)
  {
    if p.remaining > 0 {
      var s :| s in S && ConsumesAt(rules, s, LowEnd(p), HighEnd(p));
      assert s in T;
    }
  }

  /** What a matcher answer says about the unmemoised simulator: an accepted text is
      accepted there too with at least these stacks, and when no step is cut the two
      agree completely. */
  ghost predicate Answers(rules: Rules, cap: nat, lim: nat, S: set<Stack>, p: Partial, text: seq<byte>,
                          ok: bool, S': set<Stack>, p': Partial)
    requires PartialOk(p)
  {
    var u := Update(rules, cap, S, p, text);
    && (ok ==> u.Live? && S' <= u.stacks && p' == u.partial)
    && (NeverCut(rules, cap, lim, S, p, text) ==>
          (ok <==> u.Live?) && (ok ==> S' == u.stacks))
  }

  lemma {:induction false} NeverCutSplits(rules: Rules, cap: nat, lim: nat, S: set<Stack>, p: Partial,
                                          a: seq<byte>, b: seq<byte>)
    requires PartialOk(p) && NeverCut(rules, cap, lim, S, p, a + b)
    ensures NeverCut(rules, cap, lim, S, p, a)
    ensures var r := Loop(rules, cap, S, p, a);
            r.Live? && PartialOk(r.partial) ==> NeverCut(rules, cap, lim, r.stacks, r.partial, b)
    decreases |a|
  {
    if a == [] {
      assert a + b == b;
    } else {
      assert (a + b)[0] == a[0] && (a + b)[1..] == a[1..] + b;
      FeedOk(p, a[0]);
      match Feed(p, a[0])
      case Bad =>
      case More(q) => NeverCutSplits(rules, cap, lim, S, q, a[1..], b);
      case Char(c, q) =>
        if Step(rules, cap, S, c) != {} {
          NeverCutSplits(rules, cap, lim, Step(rules, cap, S, c), q, a[1..], b);
        }
    }
  }

  /** From a larger set of stacks a text is accepted at least as often. */
  lemma {:induction false} LoopMonotone(rules: Rules, cap: nat, S: set<Stack>, T: set<Stack>, p: Partial, text: seq<byte>)
    requires PartialOk(p) && S <= T && Loop(rules, cap, S, p, text).Live?
    ensures var r, q := Loop(rules, cap, S, p, text), Loop(rules, cap, T, p, text);
            q.Live? && r.stacks <= q.stacks && r.partial == q.partial
    decreases |text|
  {
    if text != [] {
      FeedOk(p, text[0]);
      match Feed(p, text[0])
      case More(q) => LoopMonotone(rules, cap, S, T, q, text[1..]);
      case Char(c, q) =>
        StepMonotone(rules, cap, S, T, c);
        LoopMonotone(rules, cap, Step(rules, cap, S, c), Step(rules, cap, T, c), q, text[1..]);
    }
  }

  lemma UpdateMonotone(rules: Rules, cap: nat, S: set<Stack>, T: set<Stack>, p: Partial, text: seq<byte>)
    requires PartialOk(p) && S <= T && Update(rules, cap, S, p, text).Live?
    ensures var r, q := Update(rules, cap, S, p, text), Update(rules, cap, T, p, text);
            q.Live? && r.stacks <= q.stacks && r.partial == q.partial
  {
    LoopMonotone(rules, cap, S, T, p, text);
    LoopOk(rules, cap, S, p, text);
    var r := Loop(rules, cap, S, p, text);
    EndOkMonotone(rules, r.stacks, Loop(rules, cap, T, p, text).stacks, r.partial);
  }
}
