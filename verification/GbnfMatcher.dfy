/** The byte-level matcher: live stacks plus a half character, over one grammar. */
module GbnfMatcher {
  import opened CharSets
  import opened Languages
  import opened Grammar
  import opened Pushdown
  import opened IdLists
  import opened Interning
  import opened Utf8
  import opened ByteRuns
  import opened Prefilter
  import opened FirstPositions
  import opened GbnfSyntax
  import opened GbnfReading
  import opened Reading
  import opened MemoSteps
  import TokenCuts
  import opened G = GbnfGrammar

  /** What the answers of a matcher depend on besides the half character. */
  datatype Point = Point(memo: Memo, ids: seq<int>)

  ghost function LiveAt(x: Point): set<Stack>
  {
    if ArenaOk(x.memo.arena) then StacksOf(x.memo.arena, x.ids) else {}
  }

  ghost function StepAt(rules: Rules, cap: nat, lim: nat, x: Point, c: uint32): Point
  {
    var y := Stepped(rules, cap, lim, x.memo, x.ids, c);
    Point(y.0, y.1)
  }

  /** The memoised step under the size limit. */
  ghost function MachineOf(rules: Rules, cap: nat, lim: nat): TokenCuts.Machine<Point>
  {
    TokenCuts.Machine((x: Point, c: uint32) => StepAt(rules, cap, lim, x, c), (x: Point) => LiveAt(x))
  }

  /** The run is that of the machine, and stays within the plain step. */
  ghost predicate RunsAs(rules: Rules, cap: nat, lim: nat, x: Point, p: Partial, text: seq<byte>,
                         ok: bool, y: Point, q: Partial)
    requires PartialOk(p)
  {
    var m := MachineOf(rules, cap, lim);
    && TokenCuts.KeepsWithin(m, rules, cap, x, p, text)
    && TokenCuts.Text(m, rules, TokenCuts.At(x, p), text) == if ok then TokenCuts.At(y, q) else TokenCuts.Refused
  }

  /** What is left to run from `y` decides about all of it from `x`. */
  ghost predicate Reaches(rules: Rules, cap: nat, lim: nat, x: Point, p: Partial, text: seq<byte>,
                          y: Point, q: Partial, rest: seq<byte>)
    requires PartialOk(p) && PartialOk(q)
  {
    var m := MachineOf(rules, cap, lim);
    && TokenCuts.Bytes(m, x, p, text) == TokenCuts.Bytes(m, y, q, rest)
    && (TokenCuts.KeepsWithin(m, rules, cap, y, q, rest) ==> TokenCuts.KeepsWithin(m, rules, cap, x, p, text))
  }

  lemma ReachesHere(rules: Rules, cap: nat, lim: nat, x: Point, p: Partial, text: seq<byte>)
    requires PartialOk(p)
    ensures Reaches(rules, cap, lim, x, p, text, x, p, text)
  {
  }

  /** One byte further. */
  lemma {:induction false} ReachesNext(rules: Rules, cap: nat, lim: nat, x: Point, p: Partial, text: seq<byte>,
                                       y: Point, q: Partial, rest: seq<byte>, ok: bool, z: Point, q': Partial)
    requires PartialOk(p) && PartialOk(q) && PartialOk(q') && rest != []
    requires Reaches(rules, cap, lim, x, p, text, y, q, rest)
    requires match Feed(q, rest[0])
             case Bad => !ok
             case More(r) => ok && z == y && q' == r
             case Char(c, r) => && z == StepAt(rules, cap, lim, y, c) && q' == r && (ok <==> LiveAt(z) != {})
                                && LiveAt(z) <= Step(rules, cap, LiveAt(y), c)
    ensures ok ==> Reaches(rules, cap, lim, x, p, text, z, q', rest[1..])
    ensures !ok ==> RunsAs(rules, cap, lim, x, p, text, false, z, q')
  {
    hide StepAt, LiveAt, Step;
  }

  lemma {:induction false} ReachesEnd(rules: Rules, cap: nat, lim: nat, x: Point, p: Partial, text: seq<byte>,
                                      y: Point, q: Partial, rest: seq<byte>, ok: bool)
    requires PartialOk(p) && PartialOk(q) && rest == [] && Reaches(rules, cap, lim, x, p, text, y, q, rest)
    requires ok <==> EndOk(rules, LiveAt(y), q)
    ensures RunsAs(rules, cap, lim, x, p, text, ok, y, q)
  {
    hide StepAt, LiveAt, EndOk;
  }

  class GbnfMatcher {
    const grammar: G.GbnfGrammar
    var stacks: seq<int>
    var partial: Partial

    constructor (maxDepth: nat, maxStacks: nat)
      requires maxStacks > 0
      ensures Valid() && fresh(grammar) && stacks == [] && partial == WHOLE
      ensures grammar.maxDepth == maxDepth && grammar.maxStacks == maxStacks && !grammar.compiled
    {
      grammar := new G.GbnfGrammar(maxDepth, maxStacks);
      stacks, partial := [], WHOLE;
    }

    ghost predicate Valid()
      reads this, grammar
    {
      grammar.Valid() && IdsIn(grammar.arena, stacks) && Increasing(stacks) && PartialOk(partial)
    }

    /** The live frame lists. */
    ghost function Live(): set<Stack>
      requires Valid()
      reads this, grammar
    {
      StacksOf(grammar.arena, stacks)
    }

    /** Compiles a grammar and starts at its root. A grammar can only be refused for
        lack of a start state when it has more rules than the depth cap has frames. */
    method Compile(src: Text) returns (ok: bool, ghost g: Source)
      requires Valid()
      modifies this, grammar
      ensures Valid() && partial == WHOLE
      ensures ok ==> grammar.compiled && Live() == Start(grammar.rules, grammar.maxDepth, grammar.root)
      ensures ok ==> ReadRules(src, map[]).Got? && g == ReadRules(src, map[]).value && Closed(g, ROOT)
      ensures ok ==> RuleLang(grammar.rules, grammar.root) == SourceLang(g, ROOT)
      ensures (grammar.compiled <==> Compiles(src)) && (grammar.compiled && |grammar.rules| <= grammar.maxDepth ==> ok)
    {
      hide ReadRules, Closed, SourceLang, RuleLang, Start, Compiles;
      partial, stacks := WHOLE, [];
      ghost var names;
      ok, g, names := grammar.Compile(src);
      if !ok {
        return;
      }
      stacks := grammar.StartSet();
      EmptyIds(grammar.arena, stacks);
      if |grammar.rules| <= grammar.maxDepth {
        StartIsLive(grammar.rules, grammar.maxDepth, grammar.root);
      }
      ok := stacks != [];
    }

    /** Back to the start of `root`, keeping the grammar and its memo. */
    method Reset()
      requires Valid()
      modifies this, grammar`arena, grammar`table, grammar`visited, grammar`epoch
      ensures Valid() && old(grammar.arena) <= grammar.arena
      ensures grammar.compiled ==>
                Live() == Start(grammar.rules, grammar.maxDepth, grammar.root) && partial == WHOLE
      ensures !grammar.compiled ==> stacks == old(stacks) && partial == old(partial)
    {
      if !grammar.compiled {
        return;
      }
      stacks := grammar.StartSet();
      partial := WHOLE;
    }

    /** Feeds one whole codepoint, next to a run `S` of the uncut simulator. */
    method RunChar(c: uint32, ids: seq<int>, ghost S: set<Stack>)
      returns (ok: bool, ids': seq<int>, ghost S': set<Stack>)
      requires grammar.Valid() && IdsIn(grammar.arena, ids) && StacksOf(grammar.arena, ids) <= S
      modifies grammar`arena, grammar`table, grammar`visited, grammar`epoch, grammar`nextCache, grammar`nextReady
      ensures grammar.Valid() && old(grammar.arena) <= grammar.arena && IdsIn(grammar.arena, ids') && Increasing(ids')
      ensures S' == Step(grammar.rules, grammar.maxDepth, S, c) && StacksOf(grammar.arena, ids') <= S'
      ensures ok ==> S' != {}
      ensures Point(grammar.State(), ids') == StepAt(grammar.rules, grammar.maxDepth, grammar.maxStacks, Point(old(grammar.State()), ids), c)
      ensures ok == (ids' != []) && StacksOf(grammar.arena, ids') <= Step(grammar.rules, grammar.maxDepth, old(StacksOf(grammar.arena, ids)), c)
      ensures old(StacksOf(grammar.arena, ids)) == S && |S'| <= grammar.maxStacks ==>
                StacksOf(grammar.arena, ids') == S' && (ok <==> S' != {})
    {
      ghost var found;
      ids', found := grammar.StepInto(ids, c);
      S' := Step(grammar.rules, grammar.maxDepth, S, c);
      StepMonotone(grammar.rules, grammar.maxDepth, StacksOf(grammar.arena, ids), S, c);
      EmptyIds(grammar.arena, ids');
      ok := ids' != [];
    }

    /** One byte of the loop. */
    method RunByte(b: byte, ids: seq<int>, p: Partial, ghost S: set<Stack>)
      returns (ok: bool, ids': seq<int>, p': Partial, ghost S': set<Stack>)
      requires grammar.Valid() && IdsIn(grammar.arena, ids) && Increasing(ids) && PartialOk(p)
      requires StacksOf(grammar.arena, ids) <= S
      modifies grammar`arena, grammar`table, grammar`visited, grammar`epoch, grammar`nextCache, grammar`nextReady
      ensures grammar.Valid() && old(grammar.arena) <= grammar.arena && IdsIn(grammar.arena, ids') && Increasing(ids')
      ensures PartialOk(p') && StacksOf(grammar.arena, ids') <= S'
      ensures match Feed(p, b)
              case Bad => true
              case More(_) => Point(grammar.State(), ids') == Point(old(grammar.State()), ids)
              case Char(c, _) =>
                && Point(grammar.State(), ids') == StepAt(grammar.rules, grammar.maxDepth, grammar.maxStacks, Point(old(grammar.State()), ids), c)
                && ok == (ids' != []) && StacksOf(grammar.arena, ids') <= Step(grammar.rules, grammar.maxDepth, old(StacksOf(grammar.arena, ids)), c)
      ensures match Feed(p, b)
              case Bad => !ok
              case More(q) =>
                ok && S' == S && p' == q && StacksOf(grammar.arena, ids') == old(StacksOf(grammar.arena, ids))
              case Char(c, q) =>
                && S' == Step(grammar.rules, grammar.maxDepth, S, c) && p' == q && (ok ==> S' != {})
                && (old(StacksOf(grammar.arena, ids)) == S && |S'| <= grammar.maxStacks ==>
                      StacksOf(grammar.arena, ids') == S' && (ok <==> S' != {}))
    {
      hide StacksOf, Step, StepAt, CacheOk, InternOk, StacksOk, RulesOk, Ranked, ArenaOk, Increasing;
      ok, ids', p', S' := true, ids, p, S;
      FeedOk(p, b);
      if p.remaining > 0 {
        if !(0x80 <= b < 0xC0) {
          ok := false;
          return;
        }
        var v := p.value * 64 + (b - 0x80);
        if p.remaining == 1 && (v < p.min || v > MAX_CODEPOINT) {
          ok := false;
          return;
        }
        p' := Partial(v, p.min, p.remaining - 1);
        if p.remaining == 1 {
          ok, ids', S' := RunChar(v, ids, S);
        }
        return;
      }
      var extra := Extra(b);
      if extra < 0 {
        ok := false;
      } else if extra == 0 {
        ok, ids', S' := RunChar(b, ids, S);
      } else {
        p' := Partial(LeadBits(b, extra), MinFor(extra), extra);
      }
    }

    /** Runs a text from a given state without committing it. */
    method Run(text: seq<byte>, ids: seq<int>, p: Partial) returns (ok: bool, ids': seq<int>, p': Partial)
      requires grammar.Valid() && IdsIn(grammar.arena, ids) && Increasing(ids) && PartialOk(p)
      modifies grammar`arena, grammar`table, grammar`visited, grammar`epoch, grammar`nextCache, grammar`nextReady
      ensures grammar.Valid() && old(grammar.arena) <= grammar.arena && IdsIn(grammar.arena, ids') && Increasing(ids')
      ensures PartialOk(p')
      ensures Answers(grammar.rules, grammar.maxDepth, grammar.maxStacks,
                      old(StacksOf(grammar.arena, ids)), p, text, ok, StacksOf(grammar.arena, ids'), p')
      ensures RunsAs(grammar.rules, grammar.maxDepth, grammar.maxStacks, Point(old(grammar.State()), ids), p, text,
                     ok, Point(grammar.State(), ids'), p')
    {
      hide StacksOf, Step, Reaches, RunsAs, StepAt, CacheOk, InternOk, StacksOk, RulesOk, Ranked, ArenaOk, Increasing;
      ghost var rules, cap, lim := grammar.rules, grammar.maxDepth, grammar.maxStacks;
      ghost var S0 := StacksOf(grammar.arena, ids);
      ghost var S := S0;
      ok, ids', p' := true, ids, p;
      ghost var x := Point(grammar.State(), ids);
      ReachesHere(rules, cap, lim, x, p, text);
      assert text[0..] == text;
      for i := 0 to |text|
        invariant ok && grammar.Valid() && old(grammar.arena) <= grammar.arena
        invariant IdsIn(grammar.arena, ids') && Increasing(ids') && PartialOk(p')
        invariant StacksOf(grammar.arena, ids') <= S
        invariant Reaches(rules, cap, lim, x, p, text, Point(grammar.State(), ids'), p', text[i..])
        invariant Loop(rules, cap, S0, p, text) == Loop(rules, cap, S, p', text[i..])
        invariant NeverCut(rules, cap, lim, S0, p, text) ==>
                    NeverCut(rules, cap, lim, S, p', text[i..]) && StacksOf(grammar.arena, ids') == S
      {
        assert text[i..][0] == text[i] && text[i..][1..] == text[i + 1..];
        FeedOk(p', text[i]);
        ghost var y, q := Point(grammar.State(), ids'), p';
        ok, ids', p', S := RunByte(text[i], ids', p', S);
        EmptyIds(grammar.arena, ids');
        ReachesNext(rules, cap, lim, x, p, text, y, q, text[i..], ok, Point(grammar.State(), ids'), p');
        if !ok {
          return;
        }
      }
      assert text[|text|..] == [];
      if p'.remaining > 0 {
        var lo, hi := LowEnd(p'), HighEnd(p');
        ok := lo <= hi;
        if ok {
          ok := grammar.CanConsumeRange(ids', lo, hi);
        }
      }
      ReachesEnd(rules, cap, lim, x, p, text, Point(grammar.State(), ids'), p', text[|text|..], ok);
      if EndOk(rules, StacksOf(grammar.arena, ids'), p') {
        EndOkMonotone(rules, StacksOf(grammar.arena, ids'), S, p');
      }
    }

    /** Would `text` keep the output inside the language? Nothing is committed. */
    method WouldAccept(text: seq<byte>) returns (ok: bool)
      requires Valid()
      modifies grammar`arena, grammar`table, grammar`visited, grammar`epoch, grammar`nextCache, grammar`nextReady
      ensures Valid() && Live() == old(Live()) && old(grammar.arena) <= grammar.arena
      ensures ok ==> Update(grammar.rules, grammar.maxDepth, old(Live()), old(partial), text).Live?
      ensures NeverCut(grammar.rules, grammar.maxDepth, grammar.maxStacks, old(Live()), old(partial), text) ==>
                (ok <==> Update(grammar.rules, grammar.maxDepth, old(Live()), old(partial), text).Live?)
    {
      ghost var a0 := grammar.arena;
      var ids, p;
      ok, ids, p := Run(text, stacks, partial);
      StacksOfGrows(a0, grammar.arena, stacks);
    }

    /** Commits `text` when it is legal; a refused text changes nothing. */
    method UpdateText(text: seq<byte>) returns (ok: bool)
      requires Valid()
      modifies this, grammar`arena, grammar`table, grammar`visited, grammar`epoch, grammar`nextCache, grammar`nextReady
      ensures Valid() && old(grammar.arena) <= grammar.arena
      ensures ok ==> Answers(grammar.rules, grammar.maxDepth, grammar.maxStacks,
                             old(Live()), old(partial), text, true, Live(), partial)
      ensures RunsAs(grammar.rules, grammar.maxDepth, grammar.maxStacks, Point(old(grammar.State()), old(stacks)), old(partial),
                     text, ok, Point(grammar.State(), stacks), partial)
      ensures !ok ==> Live() == old(Live()) && partial == old(partial)
      ensures !ok && NeverCut(grammar.rules, grammar.maxDepth, grammar.maxStacks, old(Live()), old(partial), text) ==>
                Update(grammar.rules, grammar.maxDepth, old(Live()), old(partial), text) == Dead
    {
      ghost var a0 := grammar.arena;
      var ids, p;
      ok, ids, p := Run(text, stacks, partial);
      if ok {
        stacks, partial := ids, p;
      } else {
        StacksOfGrows(a0, grammar.arena, stacks);
      }
    }

    /** Stopping is legal. The finished parse sorts first. */
    method IsDone() returns (done: bool)
      requires Valid()
      ensures done <==> ByteRuns.IsDone(State.Live(Live(), partial))
    {
      EmptyIsMinusOne(grammar.arena, stacks);
      MinusOneFirst(grammar.arena, stacks);
      return partial.remaining == 0 && stacks != [] && stacks[0] == -1;
    }

    /** The prefilter of the current state. */
    method LeadBytes() returns (flags: seq<bool>)
      requires Valid()
      ensures |flags| == 256 && forall b: byte :: flags[b] <==> Flagged(grammar.rules, Live(), partial, b)
    {
      if partial.remaining > 0 {
        return seq(256, b => 0x80 <= b < 0xC0);
      }
      flags := grammar.LeadBytes(stacks);
    }
  }

  lemma EmptyIds(arena: seq<Node>, ids: seq<int>)
    requires ArenaOk(arena) && IdsIn(arena, ids)
    ensures StacksOf(arena, ids) == {} <==> ids == []
  {
    if ids != [] {
      assert StackOf(arena, ids[0]) in StacksOf(arena, ids);
    }
  }

  /** Feeds a whole generation, token by token, to a matcher that stands at its start.
      Whatever the token boundaries and whatever was interned or cached before, a
      generation that passes and may stop spells a word of the grammar as written; and
      when the word is short enough for the depth cap and no step is cut by the size
      cap, exactly the words of the grammar pass. */
  method Generate(m: GbnfMatcher, tokens: seq<seq<byte>>, ghost g: Source) returns (ok: bool)
    requires m.Valid() && m.grammar.compiled && m.partial == WHOLE
    requires m.Live() == Start(m.grammar.rules, m.grammar.maxDepth, m.grammar.root)
    requires RuleLang(m.grammar.rules, m.grammar.root) == SourceLang(g, ROOT)
    modifies m, m.grammar
    ensures m.Valid()
    ensures ok ==> exists w: Word :: Encodable(w) && Flatten(tokens) == EncodeAll(w) && w in SourceLang(g, ROOT)
    ensures NeverCut(old(m.grammar.rules), m.grammar.maxDepth, m.grammar.maxStacks,
                     old(m.Live()), WHOLE, Flatten(tokens)) ==>
              forall w: Word | Encodable(w) && Flatten(tokens) == EncodeAll(w) &&
                               (|w| + 1) * |old(m.grammar.rules)| <= m.grammar.maxDepth ::
                ok <==> w in SourceLang(g, ROOT)
  {
    hide SourceLang, RuleLang, Start, Step;
    ghost var rules, cap, lim, root := m.grammar.rules, m.grammar.maxDepth, m.grammar.maxStacks, m.grammar.root;
    ghost var S0 := m.Live();
    ChunksDecideRoot(rules, cap, root, tokens);
    ghost var st := State.Live(S0, WHOLE);
    ghost var exact := NeverCut(rules, cap, lim, S0, WHOLE, Flatten(tokens));
    assert tokens[0..] == tokens;
    for i := 0 to |tokens|
      invariant m.Valid() && m.grammar.rules == rules
      invariant Follows(rules, cap, lim, m.Live(), m.partial, st, exact, tokens[i..])
      invariant UpdateAll(rules, cap, State.Live(S0, WHOLE), tokens) == UpdateAll(rules, cap, st, tokens[i..])
    {
      assert tokens[i..][0] == tokens[i] && tokens[i..][1..] == tokens[i + 1..];
      ghost var S, p := m.Live(), m.partial;
      var fed := m.UpdateText(tokens[i]);
      if !fed {
        RefusedIsDead(rules, cap, lim, S, p, st, exact, tokens[i..]);
        return false;
      }
      st := FollowStep(rules, cap, lim, S, p, st, exact, tokens[i..], m.Live(), m.partial);
    }
    ok := m.IsDone();
  }

  /** The matcher's state lies inside the state of the uncut simulator, and is that
      state as long as nothing is cut. */
  ghost predicate Follows(rules: Rules, cap: nat, lim: nat, S: set<Stack>, p: Partial, st: State,
                          exact: bool, rest: seq<seq<byte>>)
  {
    && PartialOk(p) && st.Live? && S <= st.stacks && p == st.partial
    && (exact ==> S == st.stacks && NeverCut(rules, cap, lim, S, p, Flatten(rest)))
  }

  lemma {:induction false} RefusedIsDead(rules: Rules, cap: nat, lim: nat, S: set<Stack>, p: Partial, st: State,
                      exact: bool, rest: seq<seq<byte>>)
    requires Follows(rules, cap, lim, S, p, st, exact, rest) && rest != []
    requires NeverCut(rules, cap, lim, S, p, rest[0]) ==> Update(rules, cap, S, p, rest[0]) == Dead
    ensures exact ==> UpdateAll(rules, cap, st, rest) == Dead
  {
    if exact {
      NeverCutSplits(rules, cap, lim, S, p, rest[0], Flatten(rest[1..]));
      UpdateAllDead(rules, cap, rest[1..]);
    }
  }

  lemma FollowStep(rules: Rules, cap: nat, lim: nat, S: set<Stack>, p: Partial, st: State, exact: bool,
                   rest: seq<seq<byte>>, S': set<Stack>, p': Partial) returns (st': State)
    requires Follows(rules, cap, lim, S, p, st, exact, rest) && rest != [] && PartialOk(p')
    requires Answers(rules, cap, lim, S, p, rest[0], true, S', p')
    ensures st' == Then(rules, cap, st, rest[0]) && Follows(rules, cap, lim, S', p', st', exact, rest[1..])
  {
    st' := Then(rules, cap, st, rest[0]);
    UpdateMonotone(rules, cap, S, st.stacks, p, rest[0]);
    if exact {
      NeverCutSplits(rules, cap, lim, S, p, rest[0], Flatten(rest[1..]));
    }
  }

  // ----- token boundaries -----

  /** Two matchers that no later call can tell apart. */
  ghost predicate Alike(m: GbnfMatcher, n: GbnfMatcher)
    reads m, n, m.grammar, n.grammar
  {
    && m.grammar.rules == n.grammar.rules && m.grammar.root == n.grammar.root && m.grammar.compiled == n.grammar.compiled
    && m.grammar.maxDepth == n.grammar.maxDepth && m.grammar.maxStacks == n.grammar.maxStacks
    && m.grammar.State() == n.grammar.State() && m.stacks == n.stacks && m.partial == n.partial
  }

  /** Where a machine stands after some of the chunks. */
  ghost predicate Stands(rules: Rules, cap: nat, lim: nat, x: Point, p: Partial, chunks: seq<seq<byte>>,
                         r: TokenCuts.Run<Point>, rest: seq<seq<byte>>)
  {
    var m := MachineOf(rules, cap, lim);
    TokenCuts.Texts(m, rules, TokenCuts.At(x, p), chunks) == TokenCuts.Texts(m, rules, r, rest)
  }

  lemma StandsHere(rules: Rules, cap: nat, lim: nat, x: Point, p: Partial, chunks: seq<seq<byte>>)
    ensures Stands(rules, cap, lim, x, p, chunks, TokenCuts.At(x, p), chunks)
  {
  }

  lemma {:induction false} StandsEnd(rules: Rules, cap: nat, lim: nat, x: Point, p: Partial, chunks: seq<seq<byte>>,
                                     r: TokenCuts.Run<Point>, rest: seq<seq<byte>>)
    requires Stands(rules, cap, lim, x, p, chunks, r, rest) && rest == []
    ensures TokenCuts.Texts(MachineOf(rules, cap, lim), rules, TokenCuts.At(x, p), chunks) == r
  {
  }

  lemma {:induction false} StandsNext(rules: Rules, cap: nat, lim: nat, x: Point, p: Partial, chunks: seq<seq<byte>>,
                                      y: Point, q: Partial, rest: seq<seq<byte>>, ok: bool, z: Point, q': Partial)
    requires PartialOk(q) && rest != [] && Stands(rules, cap, lim, x, p, chunks, TokenCuts.At(y, q), rest)
    requires RunsAs(rules, cap, lim, y, q, rest[0], ok, z, q')
    ensures ok ==> Stands(rules, cap, lim, x, p, chunks, TokenCuts.At(z, q'), rest[1..])
    ensures !ok ==> TokenCuts.Texts(MachineOf(rules, cap, lim), rules, TokenCuts.At(x, p), chunks) == TokenCuts.Refused
  {
    hide MachineOf, TokenCuts.Text, TokenCuts.KeepsWithin;
    if !ok {
      TokenCuts.RefusedStays(MachineOf(rules, cap, lim), rules, TokenCuts.Refused, rest[1..]);
    }
  }

  /** A matcher that gets a text in one piece and an equal one that gets it token by token, cut
      wherever, inside a character included, and whatever the size limit drops on the way:
      both pass or neither does, and if they pass they stay equal. */
  method FeedBothWays(m: GbnfMatcher, n: GbnfMatcher, tokens: seq<seq<byte>>) returns (ok: bool, fed: bool)
    requires m != n && m.grammar != n.grammar && m.Valid() && n.Valid() && Alike(m, n)
    requires EndOk(m.grammar.rules, m.Live(), m.partial)
    modifies m, n, m.grammar, n.grammar
    ensures ok == fed && (ok ==> m.Valid() && n.Valid() && Alike(m, n))
  {
    hide Answers, StacksOf, MachineOf, EndOk, RunsAs, Stands, NeverCut, Update;
    hide CacheOk, InternOk, StacksOk, RulesOk, Ranked, ArenaOk, Increasing, TokenCuts.Text, TokenCuts.KeepsWithin;
    StandsHere(m.grammar.rules, m.grammar.maxDepth, m.grammar.maxStacks, Point(m.grammar.State(), m.stacks), m.partial, tokens);
    ghost var rules, cap, lim := m.grammar.rules, m.grammar.maxDepth, m.grammar.maxStacks;
    ghost var x, p := Point(m.grammar.State(), m.stacks), m.partial;
    ok := FeedWhole(m, tokens);
    fed := true;
    assert tokens[0..] == tokens;
    for i := 0 to |tokens|
      invariant fed && n.Valid() && n.grammar.rules == rules && n.grammar.root == old(n.grammar.root)
      invariant n.grammar.compiled == old(n.grammar.compiled)
      modifies n, n.grammar
      invariant Stands(rules, cap, lim, x, p, tokens, TokenCuts.At(Point(n.grammar.State(), n.stacks), n.partial), tokens[i..])
    {
      assert tokens[i..][0] == tokens[i] && tokens[i..][1..] == tokens[i + 1..];
      ghost var y, q := Point(n.grammar.State(), n.stacks), n.partial;
      fed := n.UpdateText(tokens[i]);
      StandsNext(rules, cap, lim, x, p, tokens, y, q, tokens[i..], fed, Point(n.grammar.State(), n.stacks), n.partial);
      if !fed {
        return;
      }
    }
    StandsEnd(rules, cap, lim, x, p, tokens, TokenCuts.At(Point(n.grammar.State(), n.stacks), n.partial), tokens[|tokens|..]);
  }

  /** All tokens in one call. */
  method FeedWhole(m: GbnfMatcher, tokens: seq<seq<byte>>) returns (ok: bool)
    requires m.Valid() && EndOk(m.grammar.rules, m.Live(), m.partial)
    modifies m, m.grammar`arena, m.grammar`table, m.grammar`visited, m.grammar`epoch, m.grammar`nextCache, m.grammar`nextReady
    ensures m.Valid()
    ensures TokenCuts.Texts(MachineOf(m.grammar.rules, m.grammar.maxDepth, m.grammar.maxStacks), m.grammar.rules,
                            TokenCuts.At(Point(old(m.grammar.State()), old(m.stacks)), old(m.partial)), tokens) ==
            if ok then TokenCuts.At(Point(m.grammar.State(), m.stacks), m.partial) else TokenCuts.Refused
  {
    hide Answers, StacksOf, EndOk;
    var text := Joined(tokens);
    ghost var x, p := Point(m.grammar.State(), m.stacks), m.partial;
    ok := m.UpdateText(text);
    TokenCuts.ChunksAreOneText(MachineOf(m.grammar.rules, m.grammar.maxDepth, m.grammar.maxStacks), m.grammar.rules,
                               m.grammar.maxDepth, x, p, tokens);
  }

  method Joined(tokens: seq<seq<byte>>) returns (text: seq<byte>)
    ensures text == Flatten(tokens)
  {
    text := [];
    assert tokens[0..] == tokens && text + Flatten(tokens) == Flatten(tokens);
    for i := 0 to |tokens|
      invariant text + Flatten(tokens[i..]) == Flatten(tokens)
    {
      assert tokens[i..][1..] == tokens[i + 1..];
      text := text + tokens[i];
    }
    assert text + [] == text;
  }
}
