/** The compiled grammar with its interning arena and memoised successors. */
module GbnfGrammar {
  import opened CharSets
  import opened Languages
  import opened Grammar
  import opened Pushdown
  import opened FirstPositions
  import opened IdLists
  import opened Interning
  import opened Worklist
  import opened Utf8
  import opened ByteRuns
  import opened Prefilter
  import opened GbnfSyntax
  import opened GbnfReading
  import opened Reading
  import P = GbnfParser
  import Representation
  import opened LeftRecursion
  import opened MemoSteps

  /** A memo entry: the successors of stack `i` under the size cap. */
  ghost predicate EntryOk(rules: Rules, cap: nat, lim: nat, arena: seq<Node>, i: nat, ids: seq<int>)
    requires ArenaOk(arena) && i < |arena|
  {
    && IdsIn(arena, ids) && Increasing(ids)
    && Capped(SettledFrom(rules, cap, Skip(StackOf(arena, i))), StacksOf(arena, ids), lim)
  }

  ghost predicate CacheOk(rules: Rules, cap: nat, lim: nat, arena: seq<Node>, cache: seq<seq<int>>, ready: seq<bool>)
    requires ArenaOk(arena)
  {
    && |ready| == |cache| <= |arena|
    && forall i :: 0 <= i < |ready| && ready[i] ==> EntryOk(rules, cap, lim, arena, i, cache[i])
  }

  /** Entries stay correct while the arena grows. */
  lemma CacheGrows(rules: Rules, cap: nat, lim: nat, arena: seq<Node>, arena': seq<Node>,
                   cache: seq<seq<int>>, ready: seq<bool>)
    requires ArenaOk(arena) && ArenaOk(arena') && arena <= arena' && CacheOk(rules, cap, lim, arena, cache, ready)
    ensures CacheOk(rules, cap, lim, arena', cache, ready)
  {
    forall i | 0 <= i < |ready| && ready[i]
      ensures EntryOk(rules, cap, lim, arena', i, cache[i])
    {
      assert EntryOk(rules, cap, lim, arena, i, cache[i]);
      StackOfGrows(arena, arena', i);
      StacksOfGrows(arena, arena', cache[i]);
    }
  }

  /** The stacks marked in the current visiting generation. */
  ghost function Marked(arena: seq<Node>, visited: seq<uint32>, epoch: uint32): set<Stack>
    requires ArenaOk(arena) && |visited| == |arena|
  {
    set i | 0 <= i < |arena| && visited[i] == epoch :: StackOf(arena, i)
  }

  lemma {:induction false} MarkedHas(arena: seq<Node>, visited: seq<uint32>, epoch: uint32, s: nat)
    requires ArenaOk(arena) && |visited| == |arena| && s < |arena| && visited[s] == epoch
    ensures StackOf(arena, s) in Marked(arena, visited, epoch)
  {
  }

  lemma MarkedGrows(arena: seq<Node>, visited: seq<uint32>, arena': seq<Node>, visited': seq<uint32>, epoch: uint32)
    requires ArenaOk(arena) && |visited| == |arena| && ArenaOk(arena') && |visited'| == |arena'|
    requires Grew(arena, visited, arena', visited') && epoch > 0
    ensures Marked(arena', visited', epoch) == Marked(arena, visited, epoch)
  {
    forall i | 0 <= i < |arena|
      ensures StackOf(arena', i) == StackOf(arena, i)
    {
      StackOfGrows(arena, arena', i);
    }
    assert forall s :: s in Marked(arena, visited, epoch) ==> s in Marked(arena', visited', epoch);
  }

  lemma {:induction false} MarkOne(arena: seq<Node>, table: map<Key, int>, visited: seq<uint32>, epoch: uint32, s: nat)
    requires ArenaOk(arena) && InternOk(arena, table) && |visited| == |arena| && s < |arena|
    ensures Marked(arena, visited[s := epoch], epoch) == Marked(arena, visited, epoch) + {StackOf(arena, s)}
    ensures visited[s] != epoch ==> StackOf(arena, s) !in Marked(arena, visited, epoch)
  {
    if visited[s] != epoch && StackOf(arena, s) in Marked(arena, visited, epoch) {
      var i :| 0 <= i < |arena| && visited[i] == epoch && StackOf(arena, i) == StackOf(arena, s);
      StackOfInjective(arena, table, i, s);
    }
    var visited' := visited[s := epoch];
    assert visited'[s] == epoch;
    assert forall i :: 0 <= i < |arena| && visited[i] == epoch ==> visited'[i] == epoch;
  }

  ghost function StartUpTo(rules: Rules, cap: nat, root: nat, n: nat): set<Stack>
    requires root < |rules| && n <= |rules[root].alts|
  {
    set a, t | 0 <= a < n && t in SettledFrom(rules, cap, Push(Pos(root, a, 0), Empty)) :: t
  }

  lemma NothingStarted(rules: Rules, cap: nat, root: nat, arena: seq<Node>)
    requires root < |rules| && ArenaOk(arena)
    ensures Explored(rules, cap, {}, {}, {}) && StartUpTo(rules, cap, root, 0) == {} && NewStart(rules, cap, root, arena, arena)
  {
  }

  lemma StartUpToNext(rules: Rules, cap: nat, root: nat, n: nat)
    requires root < |rules| && n < |rules[root].alts|
    ensures StartUpTo(rules, cap, root, n + 1) ==
            StartUpTo(rules, cap, root, n) + SettledFrom(rules, cap, Push(Pos(root, n, 0), Empty))
  {
  }

  lemma JoinStep(rules: Rules, cap: nat, lim: nat, S: set<Stack>, s: Stack, c: uint32, got: set<Stack>, next: set<Stack>)
    requires Waits(rules, s, c) && Enough(Step(rules, cap, S, c), got, lim)
    requires Capped(SettledFrom(rules, cap, Skip(s)), next, lim)
    ensures Enough(Step(rules, cap, S + {s}, c), got + next, lim)
  {
    StepSnoc(rules, cap, S, s, c);
    CappedIsEnough(SettledFrom(rules, cap, Skip(s)), next, lim);
    EnoughUnion(Step(rules, cap, S, c), got, SettledFrom(rules, cap, Skip(s)), next, lim);
  }

  lemma {:induction false} IdleStep(rules: Rules, cap: nat, arena: seq<Node>, before: seq<int>, s: int, c: uint32)
    requires ArenaOk(arena) && IsId(arena, s) && !Waits(rules, StackOf(arena, s), c)
    ensures Step(rules, cap, StacksOf(arena, before + [s]), c) == Step(rules, cap, StacksOf(arena, before), c)
  {
    StacksOfSnoc(arena, before, s);
    StepSnoc(rules, cap, StacksOf(arena, before), StackOf(arena, s), c);
  }

  lemma NoStackSteps(rules: Rules, cap: nat, lim: nat, arena: seq<Node>, c: uint32)
    requires ArenaOk(arena)
    ensures Enough(Step(rules, cap, StacksOf(arena, []), c), StacksOf(arena, []), lim)
    ensures StepsExactly(rules, cap, lim, StacksOf(arena, []), c, StacksOf(arena, []))
    ensures NewStep(rules, cap, StacksOf(arena, []), c, arena, arena)
  {
    assert StacksOf(arena, []) == {};
    assert Step(rules, cap, {}, c) == {};
  }

  lemma {:induction false} JoinStepIds(rules: Rules, cap: nat, lim: nat, a0: seq<Node>, a1: seq<Node>,
                    before: seq<int>, s: nat, c: uint32, found: seq<int>, next: seq<int>)
    requires ArenaOk(a0) && ArenaOk(a1) && a0 <= a1 && IdsIn(a0, before) && s < |a0| && IdsIn(a0, found)
    requires Waits(rules, StackOf(a0, s), c) && EntryOk(rules, cap, lim, a1, s, next)
    requires Enough(Step(rules, cap, StacksOf(a0, before), c), StacksOf(a0, found), lim)
    ensures IdsIn(a1, found + next)
    ensures Enough(Step(rules, cap, StacksOf(a1, before + [s]), c), StacksOf(a1, found + next), lim)
  {
    StackOfGrows(a0, a1, s);
    StacksOfGrows(a0, a1, before);
    StacksOfGrows(a0, a1, found);
    StacksOfSnoc(a1, before, s);
    StacksOfConcat(a1, found, next);
    JoinStep(rules, cap, lim, StacksOf(a0, before), StackOf(a0, s), c, StacksOf(a0, found), StacksOf(a1, next));
  }

  lemma TopCharsOk(rules: Rules, s: Stack)
    requires RulesOk(rules) && StackOk(rules, s) && AtChars(rules, s)
    ensures WellFormed(TopChars(rules, s))
  {
    assert FormOk(rules, rules[s.pos.rule].alts[s.pos.alt]);
    assert ItemOk(|rules|, AltOf(rules, s.pos)[s.pos.idx]);
  }

  ghost predicate OverlapsAt(rules: Rules, s: Stack, lo: uint32, hi: uint32)
  {
    StackOk(rules, s) && AtChars(rules, s) && Overlaps(TopChars(rules, s), lo, hi)
  }

  /** The set some live stack waits for passes the intersection test. */
  ghost predicate OverlapsAny(rules: Rules, S: set<Stack>, lo: uint32, hi: uint32)
  {
    exists s :: s in S && OverlapsAt(rules, s, lo, hi)
  }

  lemma {:induction false} OverlapsIsConsumes(rules: Rules, arena: seq<Node>, ids: seq<int>, lo: uint32, hi: uint32)
    requires RulesOk(rules) && ArenaOk(arena) && lo <= hi
    ensures OverlapsAny(rules, StacksOf(arena, ids), lo, hi) <==> CanConsume(rules, StacksOf(arena, ids), lo, hi)
  {
    forall s | StackOk(rules, s) && AtChars(rules, s)
      ensures OverlapsAt(rules, s, lo, hi) <==> ConsumesAt(rules, s, lo, hi)
    {
      TopCharsOk(rules, s);
      OverlapsIsMeets(TopChars(rules, s), lo, hi);
    }
  }

  /** The arena only grows, and new frames carry no mark. */
  ghost predicate Grew(arena: seq<Node>, visited: seq<uint32>, arena': seq<Node>, visited': seq<uint32>)
  {
    arena <= arena' && visited <= visited' && forall i :: |visited| <= i < |visited'| ==> visited'[i] == 0
  }

  /** New frames are among the queued ones. */
  ghost predicate NewIn(a0: seq<Node>, arena: seq<Node>, ids: seq<int>)
  {
    forall i :: |a0| <= i < |arena| ==> i in ids
  }

  lemma NothingNew(arena: seq<Node>, ids: seq<int>)
    ensures NewIn(arena, arena, ids)
  {
  }

  lemma NewInMore(a0: seq<Node>, a1: seq<Node>, arena: seq<Node>, ids: seq<int>, id: int)
    requires NewIn(a0, a1, ids) && NewIn(a1, arena, [id])
    ensures NewIn(a0, arena, ids + [id])
  {
    forall i | |a0| <= i < |arena|
      ensures i in ids + [id]
    {
      if i >= |a1| {
        assert i in [id];
      }
    }
  }

  lemma QueuedIsNew(a0: seq<Node>, arena: seq<Node>, ids: seq<int>, id: int)
    requires NewIn(a0, arena, [id]) || a0 == arena
    ensures NewIn(a0, arena, ids + [id])
  {
    forall i | |a0| <= i < |arena|
      ensures i in ids + [id]
    {
      assert i in [id];
    }
  }

  /** The stacks entered through the first `n` alternatives. */
  ghost function EntriesUpTo(r: nat, s: Stack, n: nat): set<Stack>
  {
    set b | 0 <= b < n :: Push(Pos(r, b, 0), s)
  }

  /** New frames are reached from `source` without reading. */
  ghost predicate NewFrom(rules: Rules, cap: nat, source: Stack, a0: seq<Node>, arena: seq<Node>)
    requires ArenaOk(arena)
  {
    forall i :: |a0| <= i < |arena| ==> Reachable(rules, cap, source, StackOf(arena, i))
  }

  lemma NothingReached(rules: Rules, cap: nat, source: Stack, arena: seq<Node>)
    requires ArenaOk(arena)
    ensures NewFrom(rules, cap, source, arena, arena)
  {
  }

  lemma {:induction false} OneStack(arena: seq<Node>, id: int)
    requires ArenaOk(arena) && IsId(arena, id)
    ensures StacksOf(arena, [id]) == {StackOf(arena, id)} && IdsIn(arena, [id])
  {
  }

  lemma NoStacks(arena: seq<Node>, ids: seq<int>)
    requires ArenaOk(arena) && ids == []
    ensures StacksOf(arena, ids) == {}
  {
  }

  lemma NewQueued(rules: Rules, cap: nat, source: Stack, out0: set<Stack>, done: set<Stack>, out: set<Stack>,
                  a0: seq<Node>, a1: seq<Node>, arena: seq<Node>, work: seq<int>)
    requires ArenaOk(a1) && ArenaOk(arena) && a0 <= a1 <= arena && IdsIn(arena, work)
    requires NewFrom(rules, cap, source, a0, a1) && NewIn(a1, arena, work)
    requires Progress(rules, cap, source, out0, done, StacksOf(arena, work), out)
    ensures NewFrom(rules, cap, source, a0, arena)
  {
    forall i | |a0| <= i < |arena|
      ensures Reachable(rules, cap, source, StackOf(arena, i))
    {
      if i < |a1| {
        StackOfGrows(a1, arena, i);
      } else {
        assert i in work && StackOf(arena, i) in StacksOf(arena, work);
      }
    }
  }

  /** Some stack of `S` waits for `c` and leads to `t` once it has it. */
  ghost predicate LeadsTo(rules: Rules, cap: nat, S: set<Stack>, c: uint32, t: Stack)
  {
    exists s :: s in S && Waits(rules, s, c) && Reachable(rules, cap, Skip(s), t)
  }

  /** New frames come from stacks that waited for the codepoint. */
  ghost predicate NewStep(rules: Rules, cap: nat, S: set<Stack>, c: uint32, a0: seq<Node>, arena: seq<Node>)
    requires ArenaOk(arena)
  {
    forall i :: |a0| <= i < |arena| ==> LeadsTo(rules, cap, S, c, StackOf(arena, i))
  }

  lemma NewStepMore(rules: Rules, cap: nat, S: set<Stack>, s: Stack, c: uint32,
                    a0: seq<Node>, a1: seq<Node>, arena: seq<Node>)
    requires ArenaOk(a1) && ArenaOk(arena) && a0 <= a1 <= arena && NewStep(rules, cap, S, c, a0, a1)
    requires a1 == arena || (Waits(rules, s, c) && NewFrom(rules, cap, Skip(s), a1, arena))
    ensures NewStep(rules, cap, S + {s}, c, a0, arena)
  {
    forall i | |a0| <= i < |arena|
      ensures LeadsTo(rules, cap, S + {s}, c, StackOf(arena, i))
    {
      if i < |a1| {
        StackOfGrows(a1, arena, i);
        assert LeadsTo(rules, cap, S, c, StackOf(a1, i));
      } else {
        assert s in S + {s};
      }
    }
  }

  /** Some alternative of `root` leads to `t` without reading. */
  ghost predicate StartsTo(rules: Rules, cap: nat, root: nat, t: Stack)
    requires root < |rules|
  {
    exists a: nat :: a < |rules[root].alts| && Reachable(rules, cap, Push(Pos(root, a, 0), Empty), t)
  }

  ghost predicate NewStart(rules: Rules, cap: nat, root: nat, a0: seq<Node>, arena: seq<Node>)
    requires root < |rules| && ArenaOk(arena)
  {
    forall i :: |a0| <= i < |arena| ==> StartsTo(rules, cap, root, StackOf(arena, i))
  }

  lemma NewStartMore(rules: Rules, cap: nat, root: nat, a: nat, a0: seq<Node>, a1: seq<Node>, arena: seq<Node>)
    requires root < |rules| && a < |rules[root].alts| && ArenaOk(a1) && ArenaOk(arena) && a0 <= a1 <= arena
    requires NewStart(rules, cap, root, a0, a1) && NewFrom(rules, cap, Push(Pos(root, a, 0), Empty), a1, arena)
    ensures NewStart(rules, cap, root, a0, arena)
  {
    forall i | |a0| <= i < |arena|
      ensures StartsTo(rules, cap, root, StackOf(arena, i))
    {
      if i < |a1| {
        StackOfGrows(a1, arena, i);
        assert StartsTo(rules, cap, root, StackOf(a1, i));
      }
    }
  }

  /** A freshly interned source and all an expansion of it adds. */
  lemma {:induction false} NewFromSource(rules: Rules, cap: nat, a0: seq<Node>, a1: seq<Node>, arena: seq<Node>, id: int)
    requires ArenaOk(a1) && ArenaOk(arena) && a0 <= a1 <= arena && IsId(a1, id) && NewIn(a0, a1, [id])
    requires NewFrom(rules, cap, StackOf(a1, id), a1, arena)
    ensures NewFrom(rules, cap, StackOf(a1, id), a0, arena)
  {
    forall i | |a0| <= i < |a1|
      ensures Reachable(rules, cap, StackOf(a1, id), StackOf(arena, i))
    {
      assert i in [id];
      StackOfGrows(a1, arena, i);
      ReachableSelf(rules, cap, StackOf(a1, id));
    }
  }

  /** No single successor list is longer than the limit. */
  ghost predicate EntriesFit(rules: Rules, cap: nat, lim: nat, S: set<Stack>, c: uint32)
  {
    forall s :: s in S && Waits(rules, s, c) ==> |SettledFrom(rules, cap, Skip(s))| <= lim
  }

  /** While no single list is too long, nothing of the step is missing. */
  ghost predicate StepsExactly(rules: Rules, cap: nat, lim: nat, S: set<Stack>, c: uint32, got: set<Stack>)
  {
    EntriesFit(rules, cap, lim, S, c) ==> got == Step(rules, cap, S, c)
  }

  lemma JoinExactly(rules: Rules, cap: nat, lim: nat, S: set<Stack>, s: Stack, c: uint32, got: set<Stack>, next: set<Stack>)
    requires Waits(rules, s, c) && StepsExactly(rules, cap, lim, S, c, got)
    requires Capped(SettledFrom(rules, cap, Skip(s)), next, lim)
    ensures StepsExactly(rules, cap, lim, S + {s}, c, got + next)
  {
    hide Step, SettledFrom;
    StepSnoc(rules, cap, S, s, c);
    if EntriesFit(rules, cap, lim, S + {s}, c) {
      assert s in S + {s};
      assert EntriesFit(rules, cap, lim, S, c);
    }
  }

  lemma {:induction false} JoinExactlyIds(rules: Rules, cap: nat, lim: nat, a0: seq<Node>, a1: seq<Node>,
                       before: seq<int>, s: nat, c: uint32, found: seq<int>, next: seq<int>)
    requires ArenaOk(a0) && ArenaOk(a1) && a0 <= a1 && IdsIn(a0, before) && s < |a0| && IdsIn(a0, found)
    requires Waits(rules, StackOf(a0, s), c) && EntryOk(rules, cap, lim, a1, s, next)
    requires StepsExactly(rules, cap, lim, StacksOf(a0, before), c, StacksOf(a0, found))
    ensures StepsExactly(rules, cap, lim, StacksOf(a1, before + [s]), c, StacksOf(a1, found + next))
  {
    hide StepsExactly;
    StackOfGrows(a0, a1, s);
    StacksOfGrows(a0, a1, before);
    StacksOfGrows(a0, a1, found);
    StacksOfSnoc(a1, before, s);
    StacksOfConcat(a1, found, next);
    JoinExactly(rules, cap, lim, StacksOf(a0, before), StackOf(a0, s), c, StacksOf(a0, found), StacksOf(a1, next));
  }

  lemma {:induction false} IdleExactly(rules: Rules, cap: nat, lim: nat, arena: seq<Node>, before: seq<int>, s: int, c: uint32, got: set<Stack>)
    requires ArenaOk(arena) && IsId(arena, s) && !Waits(rules, StackOf(arena, s), c)
    requires StepsExactly(rules, cap, lim, StacksOf(arena, before), c, got)
    ensures StepsExactly(rules, cap, lim, StacksOf(arena, before + [s]), c, got)
  {
    IdleStep(rules, cap, arena, before, s, c);
    StacksOfSnoc(arena, before, s);
    if EntriesFit(rules, cap, lim, StacksOf(arena, before + [s]), c) {
      assert EntriesFit(rules, cap, lim, StacksOf(arena, before), c);
    }
  }

  lemma EmptyMemo(rules: Rules, maxDepth: nat, maxStacks: nat)
    ensures ArenaOk([]) && InternOk([], map[]) && StacksOk(rules, [])
    ensures CacheOk(rules, maxDepth, maxStacks, [], [], [])
  {
  }

  /** The text reads, every called rule and `root` are defined, no rule can begin with itself,
      and nothing that can be empty is repeated without bound. */
  ghost predicate Compiles(src: Text)
  {
    var r := ReadRules(src, map[]);
    r.Got? && Closed(r.value, ROOT) && !HasCallCycle(r.value) && !HasEmptyLoop(r.value)
  }

  /** Parses the text and checks the table for left recursion. */
  method CompileRules(src: Text) returns (ok: bool, rules: Rules, root: nat, ghost g: Source, ghost ids: Representation.Ids)
    ensures RulesOk(rules) && (ok ==> root < |rules| && Ranked(rules) && AllDefined(rules))
    ensures ok ==> Representation.HasSource(rules, ids, g) && ROOT in ids && root == ids[ROOT]
    ensures ok ==> ReadRules(src, map[]).Got? && g == ReadRules(src, map[]).value && Closed(g, ROOT)
    ensures ok <==> Compiles(src)
    ensures ok ==> RuleLang(rules, root) == SourceLang(g, ROOT)
  {
    hide ReadRules, Closed, RulesOk, LeftRecursive, Ranked, RuleLang, SourceLang, Nullable;
    hide P.TableOk, Representation.HasSource, HasCallCycle, HasEmptyLoop, Layered, LoopsIn, NamesOk;
    var p := new P.Parser(src);
    ok, root, g := p.Parse();
    rules, ids := p.rules, p.ids;
    if !ok {
      return;
    }
    Representation.TableMeansSource(rules, ids, g, ROOT);
    LeftRecursiveIff(rules, ids, g);
    var nullable := ComputeNullable(rules);
    ok := CheckLeftRecursion(rules, nullable);
  }

  class GbnfGrammar {
    /** `kMaxStackDepth` and `kMaxStacks`. */
    const maxDepth: nat
    const maxStacks: nat

    var rules: Rules
    var root: nat
    var compiled: bool
    var arena: seq<Node>
    var table: map<Key, int>
    var visited: seq<uint32>
    var epoch: uint32
    var nextCache: seq<seq<int>>
    var nextReady: seq<bool>

    constructor (maxDepth: nat, maxStacks: nat)
      requires maxStacks > 0
      ensures Valid() && !compiled && this.maxDepth == maxDepth && this.maxStacks == maxStacks
    {
      this.maxDepth, this.maxStacks := maxDepth, maxStacks;
      rules, root, compiled := [], 0, false;
      arena, table, visited, epoch := [], map[], [], 0;
      nextCache, nextReady := [], [];
    }

    ghost predicate Valid()
      reads this
    {
      && RulesOk(rules) && (compiled ==> root < |rules| && Ranked(rules) && AllDefined(rules)) && maxStacks > 0
      && ArenaOk(arena) && InternOk(arena, table) && StacksOk(rules, arena)
      && |visited| == |arena| && (forall i :: 0 <= i < |visited| ==> visited[i] <= epoch)
      && CacheOk(rules, maxDepth, maxStacks, arena, nextCache, nextReady)
    }

    /** What has been interned and cached. */
    ghost function State(): Memo
      reads this
    {
      Memo(arena, table, visited, epoch, nextCache, nextReady)
    }

    /** Compiles a grammar text. Whether it succeeds depends on what is written alone; the
        compiled root then derives exactly what the text denotes. Ids and memo of an
        earlier grammar are gone. */
    method Compile(src: Text) returns (ok: bool, ghost g: Source, ghost ids: Representation.Ids)
      requires Valid()
      modifies this
      ensures Valid() && compiled == ok && arena == []
      ensures ok ==> Representation.HasSource(rules, ids, g) && ROOT in ids && root == ids[ROOT]
      ensures ok ==> ReadRules(src, map[]).Got? && g == ReadRules(src, map[]).value && Closed(g, ROOT)
      ensures ok <==> Compiles(src)
      ensures ok ==> RuleLang(rules, root) == SourceLang(g, ROOT)
    {
      hide ReadRules, Closed, RulesOk, Ranked, RuleLang, SourceLang, Compiles;
      hide Representation.HasSource, ArenaOk, InternOk, StacksOk, CacheOk;
      compiled := false;
      arena, table, visited, epoch := [], map[], [], 0;
      nextCache, nextReady := [], [];
      ok, rules, root, g, ids := CompileRules(src);
      EmptyMemo(rules, maxDepth, maxStacks);
      compiled := ok;
    }

    /** Frames are shared: the id of a frame list is the same whoever asks first. */
    method Intern(pos: Pos, parent: int) returns (id: int)
      requires Valid() && IsId(arena, parent)
      requires StackOk(rules, Push(pos, StackOf(arena, parent)))
      modifies `arena, `table, `visited
      ensures Valid() && Grew(old(arena), old(visited), arena, visited)
      ensures 0 <= id < |arena| && StackOf(arena, id) == Push(pos, StackOf(arena, parent))
      ensures NewIn(old(arena), arena, [id])
      ensures (State(), id) == Interned(old(State()), pos, parent)
    {
      if Key(pos, parent) in table {
        id := table[Key(pos, parent)];
        assert KeyOf(arena[id]) == Key(pos, parent);
        return;
      }
      id := |arena|;
      var depth := if parent < 0 then 1 else arena[parent].depth + 1;
      PushNode(rules, arena, table, pos, parent);
      ghost var grown := arena + [Node(pos, parent, depth)];
      StackOfGrows(arena, grown, parent);
      CacheGrows(rules, maxDepth, maxStacks, arena, grown, nextCache, nextReady);
      arena := arena + [Node(pos, parent, depth)];
      visited := visited + [0];
      table := table[Key(pos, parent) := id];
    }

    /** Starts a generation in which nothing is marked yet. */
    method BeginVisit()
      requires Valid()
      modifies `visited, `epoch
      ensures State() == Begun(old(State()))
      ensures Valid() && epoch > 0 && forall i :: 0 <= i < |visited| ==> visited[i] != epoch
    {
      if epoch + 1 == 0x1_0000_0000 {
        visited := seq(|visited|, _ => 0);
        epoch := 1;
      } else {
        epoch := epoch + 1;
      }
    }

    /** Queues every alternative of the rule that stack `s` refers to. */
    method Descend(s: nat, target: nat, queue: seq<int>) returns (work: seq<int>)
      requires Valid() && s < |arena| && IdsIn(arena, queue) && target < |rules|
      requires AtRef(rules, StackOf(arena, s))
      modifies `arena, `table, `visited
      ensures Valid() && Grew(old(arena), old(visited), arena, visited)
      ensures IdsIn(arena, work) && StackOf(arena, s) == old(StackOf(arena, s)) && NewIn(old(arena), arena, work)
      ensures (State(), work) == Descended(old(State()), s, target, |rules[target].alts|, queue)
      ensures StacksOf(arena, work) == old(StacksOf(arena, queue)) + Entries(rules, target, StackOf(arena, s))
    {
      hide Interned, CacheOk, InternOk, StacksOk, RulesOk, AllDefined, Ranked, NewIn, StacksOf, AtRef, IdsIn;
      work := queue;
      ghost var st := StackOf(arena, s);
      ghost var queued := StacksOf(arena, queue);
      NothingNew(arena, work);
      for a := 0 to |rules[target].alts|
        invariant Valid() && Grew(old(arena), old(visited), arena, visited)
        invariant IdsIn(arena, work) && StackOf(arena, s) == st && NewIn(old(arena), arena, work)
        invariant (State(), work) == Descended(old(State()), s, target, a, queue)
        invariant StacksOf(arena, work) == queued + EntriesUpTo(target, st, a)
      {
        ghost var a1, w1 := arena, work;
        work := DescendOne(s, target, a, work);
        NewInMore(old(arena), a1, arena, w1, work[|work| - 1]);
      }
    }

    /** Queues one alternative. */
    method DescendOne(s: nat, target: nat, a: nat, queue: seq<int>) returns (work: seq<int>)
      requires Valid() && s < |arena| && IdsIn(arena, queue) && target < |rules| && a < |rules[target].alts|
      requires AtRef(rules, StackOf(arena, s))
      modifies `arena, `table, `visited
      ensures Valid() && Grew(old(arena), old(visited), arena, visited)
      ensures IdsIn(arena, work) && StackOf(arena, s) == old(StackOf(arena, s))
      ensures work != [] && work == queue + [work[|work| - 1]] && NewIn(old(arena), arena, [work[|work| - 1]])
      ensures (State(), work[|work| - 1]) == Interned(old(State()), Pos(target, a, 0), s)
      ensures StacksOf(arena, work) == old(StacksOf(arena, queue)) + {Push(Pos(target, a, 0), StackOf(arena, s))}
    {
      hide Interned, CacheOk, InternOk, RulesOk, AllDefined, Ranked, NewIn, StacksOf;
      ghost var before := arena;
      var id := Intern(Pos(target, a, 0), s);
      StackOfGrows(before, arena, s);
      StacksOfGrows(before, arena, queue);
      StacksOfSnoc(arena, queue, id);
      work := queue + [id];
    }

    /** Queues the caller of a finished stack, stepped past its reference. */
    method Return(s: nat, queue: seq<int>) returns (work: seq<int>)
      requires Valid() && s < |arena| && IdsIn(arena, queue) && Finished(rules, StackOf(arena, s))
      modifies `arena, `table, `visited
      ensures Valid() && Grew(old(arena), old(visited), arena, visited)
      ensures IdsIn(arena, work) && StackOf(arena, s) == old(StackOf(arena, s)) && NewIn(old(arena), arena, work)
      ensures (State(), work) == Returned(old(State()), s, queue)
      ensures StacksOf(arena, work) == old(StacksOf(arena, queue)) + {Skip(StackOf(arena, s).below)}
    {
      hide CacheOk, InternOk, RulesOk, AllDefined, Ranked, StacksOf, NewIn, Interned;
      var parent := arena[s].parent;
      assert NodeOk(arena, s);
      var id := -1;
      ghost var before := arena;
      if parent >= 0 {
        var pp := arena[parent].pos;
        assert NodeOk(arena, parent);
        SkipOk(rules, StackOf(arena, parent));
        id := Intern(Pos(pp.rule, pp.alt, pp.idx + 1), arena[parent].parent);
      }
      StackOfGrows(before, arena, s);
      StacksOfGrows(before, arena, queue);
      StackOfGrows(before, arena, parent);
      StacksOfSnoc(arena, queue, id);
      work := queue + [id];
      QueuedIsNew(before, arena, queue, id);
    }

    /** Marks a stack, reports it if it waits, and queues its moves otherwise. */
    method Visit(s: nat, queue: seq<int>, found: seq<int>) returns (work: seq<int>, out: seq<int>)
      requires Valid() && epoch > 0 && s < |arena| && visited[s] != epoch && IdsIn(arena, queue) && IdsIn(arena, found)
      modifies `arena, `table, `visited
      ensures Valid() && old(arena) <= arena && IdsIn(arena, work) && IdsIn(arena, out) && NewIn(old(arena), arena, work)
      ensures StackOf(arena, s) == old(StackOf(arena, s))
      ensures Work(State(), work, out) == Visited(rules, maxDepth, Work(old(State()), queue, found), s)
      ensures Marked(arena, visited, epoch) == old(Marked(arena, visited, epoch)) + {StackOf(arena, s)}
      ensures StacksOf(arena, work) == old(StacksOf(arena, queue)) + MovesOf(rules, maxDepth, StackOf(arena, s))
      ensures StacksOf(arena, out) ==
              old(StacksOf(arena, found)) + if Settled(rules, StackOf(arena, s)) then {StackOf(arena, s)} else {}
    {
      hide CacheOk, InternOk, AllDefined, Ranked, Marked, StacksOf, NewIn, Interned, Descended, Returned;
      MarkOne(arena, table, visited, epoch, s);
      visited := visited[s := epoch];
      ghost var a0, v0 := arena, visited;
      assert NodeOk(arena, s);
      DepthIsRecorded(arena, s);
      var p := arena[s].pos;
      var alt := rules[p.rule].alts[p.alt];
      out := found;
      NothingNew(arena, queue);
      if p.idx >= |alt| {
        work := Return(s, queue);
      } else if alt[p.idx].Chars? {
        out := found + [s];
        work := queue;
        StacksOfSnoc(arena, found, s);
      } else if arena[s].depth >= maxDepth {
        work := queue;
      } else {
        assert FormOk(rules, alt) && ItemOk(|rules|, alt[p.idx]);
        work := Descend(s, alt[p.idx].rule, queue);
      }
      MarkedGrows(a0, v0, arena, visited, epoch);
      StacksOfGrows(a0, arena, out);
    }

    /** Handles the last queued stack: one turn of the expansion loop. */
    method ExpandOne(queue: seq<int>, found: seq<int>, ghost source: Stack, ghost out0: set<Stack>)
      returns (work: seq<int>, out: seq<int>)
      requires Valid() && epoch > 0 && queue != [] && IdsIn(arena, queue) && IdsIn(arena, found) && StackOk(rules, source)
      requires Progress(rules, maxDepth, source, out0,
                        Marked(arena, visited, epoch), StacksOf(arena, queue), StacksOf(arena, found))
      modifies `arena, `table, `visited
      ensures Valid() && old(arena) <= arena && IdsIn(arena, work) && IdsIn(arena, out) && NewIn(old(arena), arena, work)
      ensures Work(State(), work, out) == Turn(rules, maxDepth, Work(old(State()), queue, found))
      ensures Progress(rules, maxDepth, source, out0,
                       Marked(arena, visited, epoch), StacksOf(arena, work), StacksOf(arena, out))
      ensures || (|work| < |queue| && Marked(arena, visited, epoch) == old(Marked(arena, visited, epoch)))
              || Universe(rules, Max(maxDepth, Depth(source))) - Marked(arena, visited, epoch) <
                 Universe(rules, Max(maxDepth, Depth(source))) - old(Marked(arena, visited, epoch))
    {
      hide Visited, Interned, CacheOk, InternOk, AllDefined, Ranked, Marked, StacksOf, Universe, Depth, Max, NewIn, Progress;
      hide RulesOk, StacksOk, StackOk, MovesOf, Settled;
      var s, rest := queue[|queue| - 1], queue[..|queue| - 1];
      assert queue == rest + [s];
      assert IsId(arena, s) && IdsIn(arena, rest);
      ghost var st := StackOf(arena, s);
      ghost var done, todo, got := Marked(arena, visited, epoch), StacksOf(arena, queue), StacksOf(arena, found);
      StacksOfSnoc(arena, rest, s);
      NothingNew(arena, rest);
      StackIsOk(rules, arena, s);
      if s < 0 {
        work, out := rest, found + [-1];
        StacksOfSnoc(arena, found, -1);
        ProgressReport(rules, maxDepth, source, out0, done, todo, got, StacksOf(arena, work));
      } else if visited[s] == epoch {
        work, out := rest, found;
        MarkedHas(arena, visited, epoch, s);
        ProgressDrop(rules, maxDepth, source, out0, done, todo, got, st, StacksOf(arena, work));
      } else {
        MarkOne(arena, table, visited, epoch, s);
        assert st !in done;
        work, out := Visit(s, rest, found);
        ProgressVisit(rules, maxDepth, source, out0, done, todo, got, st, StacksOf(arena, work), StacksOf(arena, out));
      }
    }

    /** Pushes a stack through returns and descents until it waits or is done,
        adding exactly its settled stacks to the result. */
    method Expand(stack: int, found: seq<int>) returns (out: seq<int>)
      requires Valid() && epoch > 0 && IsId(arena, stack) && IdsIn(arena, found)
      requires Explored(rules, maxDepth, Marked(arena, visited, epoch), {}, StacksOf(arena, found))
      modifies `arena, `table, `visited
      ensures Valid() && old(arena) <= arena && IdsIn(arena, out)
      ensures Explored(rules, maxDepth, Marked(arena, visited, epoch), {}, StacksOf(arena, out))
      ensures StacksOf(arena, out) ==
              old(StacksOf(arena, found)) + old(SettledFrom(rules, maxDepth, StackOf(arena, stack)))
      ensures NewFrom(rules, maxDepth, old(StackOf(arena, stack)), old(arena), arena)
      ensures (State(), out) == Expanded(rules, maxDepth, old(State()), stack, found)
    {
      hide Turn, CacheOk, InternOk, RulesOk, AllDefined, Ranked, StacksOk, StackOk, StacksOf, Marked, Universe, Depth, Max;
      hide Explored, Progress, SettledFrom, End, NewIn, NewFrom;
      StackIsOk(rules, arena, stack);
      var work := [stack];
      out := found;
      ghost var source, out0 := StackOf(arena, stack), StacksOf(arena, found);
      OneStack(arena, stack);
      NothingReached(rules, maxDepth, source, arena);
      ProgressStart(rules, maxDepth, source, out0, Marked(arena, visited, epoch));
      ghost var w0, turns: nat := Work(State(), work, out), 0;
      while work != []
        invariant Valid() && old(arena) <= arena && IdsIn(arena, work) && IdsIn(arena, out)
        invariant Progress(rules, maxDepth, source, out0,
                           Marked(arena, visited, epoch), StacksOf(arena, work), StacksOf(arena, out))
        invariant Work(State(), work, out) == Turns(rules, maxDepth, w0, turns)
        invariant NewFrom(rules, maxDepth, source, old(arena), arena)
        decreases Universe(rules, Max(maxDepth, Depth(source))) - Marked(arena, visited, epoch), |work|
      {
        ghost var a1 := arena;
        work, out := ExpandOne(work, out, source, out0);
        turns := turns + 1;
        NewQueued(rules, maxDepth, source, out0, Marked(arena, visited, epoch), StacksOf(arena, out), old(arena), a1, arena, work);
      }
      EndIs(rules, maxDepth, w0, turns, Work(State(), work, out));
      NoStacks(arena, work);
      ExpandIsExact(rules, maxDepth, source, Marked(arena, visited, epoch), out0, StacksOf(arena, out));
    }

    /** The expanded stacks at the start of `root`, in id order. */
    method StartSet() returns (out: seq<int>)
      requires Valid()
      modifies `arena, `table, `visited, `epoch
      ensures Valid() && old(arena) <= arena && IdsIn(arena, out) && Increasing(out)
      ensures StacksOf(arena, out) == if compiled then Start(rules, maxDepth, root) else {}
      ensures compiled ==> NewStart(rules, maxDepth, root, old(arena), arena)
    {
      hide CacheOk, InternOk, AllDefined, Ranked, Explored, StacksOf, SettledFrom, NewStart, NewFrom, NewIn, Interned, Expanded, Begun;
      out := [];
      NoStacks(arena, out);
      if !compiled {
        return;
      }
      BeginVisit();
      assert Marked(arena, visited, epoch) == {};
      NothingStarted(rules, maxDepth, root, arena);
      for a := 0 to |rules[root].alts|
        invariant Valid() && epoch > 0 && old(arena) <= arena && IdsIn(arena, out)
        invariant Explored(rules, maxDepth, Marked(arena, visited, epoch), {}, StacksOf(arena, out))
        invariant StacksOf(arena, out) == StartUpTo(rules, maxDepth, root, a)
        invariant NewStart(rules, maxDepth, root, old(arena), arena)
      {
        ghost var a0, v0 := arena, visited;
        StartForm(rules, root, a);
        var id := Intern(Pos(root, a, 0), -1);
        MarkedGrows(a0, v0, arena, visited, epoch);
        StacksOfGrows(a0, arena, out);
        ghost var a1 := arena;
        out := Expand(id, out);
        NewFromSource(rules, maxDepth, a0, a1, arena, id);
        NewStartMore(rules, maxDepth, root, a, old(arena), a0, arena);
        StartUpToNext(rules, maxDepth, root, a);
      }
      ghost var all := out;
      out := Dedup(out);
      SameIdsSameStacks(arena, all, out);
      assert StartUpTo(rules, maxDepth, root, |rules[root].alts|) == Start(rules, maxDepth, root);
    }

    /** The successors of a waiting stack, expanded afresh and cut to the size cap. */
    method FreshSuccessors(s: nat) returns (next: seq<int>)
      requires Valid() && s < |arena| && AtChars(rules, StackOf(arena, s))
      modifies `arena, `table, `visited, `epoch
      ensures Valid() && old(arena) <= arena && EntryOk(rules, maxDepth, maxStacks, arena, s, next)
      ensures NewFrom(rules, maxDepth, Skip(old(StackOf(arena, s))), old(arena), arena)
      ensures (State(), next) == FreshNext(rules, maxDepth, maxStacks, old(State()), s)
    {
      hide Interned, Begun, Expanded, SortedCut, StacksOf, SettledFrom, NewFrom, NewIn, CacheOk, InternOk, Capped, Enough, RulesOk, AllDefined, Ranked;
      ghost var st, a0 := StackOf(arena, s), arena;
      SkipCharsOk(rules, st);
      assert NodeOk(arena, s);
      var p, parent := arena[s].pos, arena[s].parent;
      BeginVisit();
      ghost var v1 := visited;
      assert Marked(arena, visited, epoch) == {};
      var id := Intern(Pos(p.rule, p.alt, p.idx + 1), parent);
      StackOfGrows(a0, arena, parent);
      MarkedGrows(a0, v1, arena, visited, epoch);
      assert StackOf(arena, id) == Skip(st);
      ghost var a1 := arena;
      next := [];
      NoStacks(arena, next);
      next := Expand(id, next);
      NewFromSource(rules, maxDepth, a0, a1, arena, id);
      StackOfGrows(a0, arena, s);
      ExactIsEnough(SettledFrom(rules, maxDepth, Skip(st)), maxStacks);
      next := SortAndCut(next, SettledFrom(rules, maxDepth, Skip(st)));
    }

    method Remember(s: nat, next: seq<int>)
      requires Valid() && s < |arena| && EntryOk(rules, maxDepth, maxStacks, arena, s, next)
      modifies `nextCache, `nextReady
      ensures State() == Stored(old(State()), s, next)
      ensures Valid() && s < |nextReady| && nextReady[s] && nextCache[s] == next
    {
      var short := |arena| - |nextReady|;
      nextReady := (nextReady + seq(short, _ => false))[s := true];
      nextCache := (nextCache + seq(short, _ => []))[s := next];
    }

    /** Where a stack goes once its pending codepoint is consumed: computed once,
        remembered, and right under the size cap whichever way it was obtained. */
    method Successors(s: nat) returns (next: seq<int>)
      requires Valid() && s < |arena| && AtChars(rules, StackOf(arena, s))
      modifies `arena, `table, `visited, `epoch, `nextCache, `nextReady
      ensures Valid() && old(arena) <= arena && EntryOk(rules, maxDepth, maxStacks, arena, s, next)
      ensures NewFrom(rules, maxDepth, Skip(old(StackOf(arena, s))), old(arena), arena)
      ensures (State(), next) == Next(rules, maxDepth, maxStacks, old(State()), s)
    {
      if s < |nextReady| && nextReady[s] {
        return nextCache[s];
      }
      next := FreshSuccessors(s);
      Remember(s, next);
    }

    /** The item a stack waits at, if it waits. */
    method TopWaits(s: int) returns (waits: bool, cs: CharSet)
      requires Valid() && IsId(arena, s)
      ensures waits <==> AtChars(rules, StackOf(arena, s))
      ensures waits ==> s >= 0 && cs == TopChars(rules, StackOf(arena, s))
    {
      cs := CharSet([], false);
      if s < 0 {
        return false, cs;
      }
      assert NodeOk(arena, s) && StackOk(rules, StackOf(arena, s));
      var p := arena[s].pos;
      var alt := rules[p.rule].alts[p.alt];
      if p.idx >= |alt| || !alt[p.idx].Chars? {
        return false, cs;
      }
      return true, alt[p.idx].cs;
    }

    /** Advances every stack by one codepoint. As frame lists the result is the
        unmemoised step under the size cap, whatever was interned or cached before. */
    method StepInto(stacks: seq<int>, cp: uint32) returns (out: seq<int>, ghost found: seq<int>)
      requires Valid() && IdsIn(arena, stacks)
      modifies `arena, `table, `visited, `epoch, `nextCache, `nextReady
      ensures Valid() && old(arena) <= arena && IdsIn(arena, stacks) && IdsIn(arena, out) && Increasing(out)
      ensures StacksOf(arena, stacks) == old(StacksOf(arena, stacks))
      ensures Capped(Step(rules, maxDepth, StacksOf(arena, stacks), cp), StacksOf(arena, out), maxStacks)
      ensures NewStep(rules, maxDepth, StacksOf(arena, stacks), cp, old(arena), arena)
      ensures (State(), out) == Stepped(rules, maxDepth, maxStacks, old(State()), stacks, cp)
      ensures IdsIn(arena, found) && Lowest(found, out, maxStacks)
      ensures StepsExactly(rules, maxDepth, maxStacks, StacksOf(arena, stacks), cp, StacksOf(arena, found))
    {
      hide Step, Enough, Capped, CacheOk, InternOk, StacksOk, StacksOf, Lowest, NewStep, StepsExactly, StepOf, SortedCut, AllDefined, Ranked, RulesOk;
      out := [];
      ghost var a0 := arena;
      NoStackSteps(rules, maxDepth, maxStacks, arena, cp);
      assert stacks[..0] == [];
      for i := 0 to |stacks|
        invariant Valid() && a0 <= arena && IdsIn(arena, out)
        invariant Enough(Step(rules, maxDepth, StacksOf(arena, stacks[..i]), cp), StacksOf(arena, out), maxStacks)
        invariant StepsExactly(rules, maxDepth, maxStacks, StacksOf(arena, stacks[..i]), cp, StacksOf(arena, out))
        invariant (State(), out) == StepsOf(rules, maxDepth, maxStacks, old(State()), stacks, cp, i)
        invariant NewStep(rules, maxDepth, StacksOf(arena, stacks[..i]), cp, a0, arena)
      {
        assert stacks[..i + 1] == stacks[..i] + [stacks[i]];
        assert IdsIn(a0, stacks[..i]);
        out := StepOne(stacks[..i], stacks[i], cp, out, a0);
      }
      assert stacks[..|stacks|] == stacks;
      StacksOfGrows(a0, arena, stacks);
      found := out;
      out := SortAndCut(out, Step(rules, maxDepth, StacksOf(arena, stacks), cp));
    }

    method SortAndCut(ids: seq<int>, ghost full: set<Stack>) returns (out: seq<int>)
      requires Valid() && IdsIn(arena, ids) && Enough(full, StacksOf(arena, ids), maxStacks)
      ensures IdsIn(arena, out) && Increasing(out) && Capped(full, StacksOf(arena, out), maxStacks)
      ensures Lowest(ids, out, maxStacks) && out == SortedCut(ids, maxStacks)
    {
      out := Dedup(ids);
      SortedIs(ids, out);
      CutIsLowest(ids, out, maxStacks);
      SameIdsSameStacks(arena, ids, out);
      CutIsCapped(arena, table, full, out, maxStacks);
      if |out| > maxStacks {
        out := out[..maxStacks];
      }
    }

    /** One turn of the step loop: the successors of `s` join those of `before`. */
    method StepOne(ghost before: seq<int>, s: int, cp: uint32, found: seq<int>, ghost a0: seq<Node>)
      returns (out: seq<int>)
      requires Valid() && a0 <= arena && IdsIn(arena, before) && IsId(arena, s) && IdsIn(arena, found)
      requires Enough(Step(rules, maxDepth, StacksOf(arena, before), cp), StacksOf(arena, found), maxStacks)
      requires StepsExactly(rules, maxDepth, maxStacks, StacksOf(arena, before), cp, StacksOf(arena, found))
      requires NewStep(rules, maxDepth, StacksOf(arena, before), cp, a0, arena)
      modifies `arena, `table, `visited, `epoch, `nextCache, `nextReady
      ensures Valid() && old(arena) <= arena && IdsIn(arena, out)
      ensures Enough(Step(rules, maxDepth, StacksOf(arena, before + [s]), cp), StacksOf(arena, out), maxStacks)
      ensures StepsExactly(rules, maxDepth, maxStacks, StacksOf(arena, before + [s]), cp, StacksOf(arena, out))
      ensures NewStep(rules, maxDepth, StacksOf(arena, before + [s]), cp, a0, arena)
      ensures (State(), out) == StepOf(rules, maxDepth, maxStacks, old(State()), s, cp, found)
    {
      hide Step, Enough, StacksOf, EntryOk, CacheOk, InternOk, StepsExactly, NewStep, NewFrom;
      ghost var a1 := arena;
      out := found;
      var waits, cs := TopWaits(s);
      var m := Matches(cs, cp);
      if waits && m {
        var next := Successors(s);
        out := found + next;
        JoinStepIds(rules, maxDepth, maxStacks, a1, arena, before, s, cp, found, next);
        JoinExactlyIds(rules, maxDepth, maxStacks, a1, arena, before, s, cp, found, next);
      } else {
        IdleStep(rules, maxDepth, arena, before, s, cp);
        IdleExactly(rules, maxDepth, maxStacks, arena, before, s, cp, StacksOf(arena, found));
      }
      StacksOfGrows(a1, arena, before);
      StacksOfSnoc(arena, before, s);
      StackOfGrows(a1, arena, s);
      NewStepMore(rules, maxDepth, StacksOf(arena, before), StackOf(arena, s), cp, a0, a1, arena);
    }

    /** Can the next codepoint be anything in [lo, hi]? Exact for bounds in order. */
    method CanConsumeRange(stacks: seq<int>, lo: uint32, hi: uint32) returns (b: bool)
      requires Valid() && IdsIn(arena, stacks)
      ensures b <==> OverlapsAny(rules, StacksOf(arena, stacks), lo, hi)
      ensures lo <= hi ==> (b <==> CanConsume(rules, StacksOf(arena, stacks), lo, hi))
    {
      if lo <= hi {
        OverlapsIsConsumes(rules, arena, stacks, lo, hi);
      }
      for i := 0 to |stacks|
        invariant forall j :: 0 <= j < i ==> !OverlapsAt(rules, StackOf(arena, stacks[j]), lo, hi)
      {
        var waits, cs := TopWaits(stacks[i]);
        if waits {
          var meets := Intersects(cs, lo, hi);
          if meets {
            assert StackOf(arena, stacks[i]) in StacksOf(arena, stacks);
            return true;
          }
        }
      }
      return false;
    }

    /** Flags the bytes that may start the next codepoint. */
    method LeadBytes(stacks: seq<int>) returns (flags: seq<bool>)
      requires Valid() && IdsIn(arena, stacks)
      ensures |flags| == 256
      ensures forall b: byte :: flags[b] <==> Flagged(rules, StacksOf(arena, stacks), WHOLE, b)
    {
      flags := seq(256, _ => false);
      for i := 0 to |stacks|
        invariant |flags| == 256
        invariant forall b: byte :: flags[b] <==> exists j :: 0 <= j < i && OpensAt(rules, StackOf(arena, stacks[j]), b)
      {
        var waits, cs := TopWaits(stacks[i]);
        if waits {
          TopCharsOk(rules, StackOf(arena, stacks[i]));
          flags := MarkOpeners(cs, flags);
        }
      }
      forall b: byte
        ensures flags[b] <==> Flagged(rules, StacksOf(arena, stacks), WHOLE, b)
      {
        if flags[b] {
          var j :| 0 <= j < |stacks| && OpensAt(rules, StackOf(arena, stacks[j]), b);
          assert StackOf(arena, stacks[j]) in StacksOf(arena, stacks);
        }
        if Flagged(rules, StacksOf(arena, stacks), WHOLE, b) {
          var st :| st in StacksOf(arena, stacks) && OpensAt(rules, st, b);
          var id :| id in stacks && IsId(arena, id) && StackOf(arena, id) == st;
        }
      }
    }
  }

  /** Adds the flags of one character set: ASCII members one by one, multi-byte leads
      block by block. */
  method MarkOpeners(cs: CharSet, flags: seq<bool>) returns (out: seq<bool>)
    requires WellFormed(cs) && |flags| == 256
    ensures |out| == 256 && forall b: byte :: out[b] <==> flags[b] || Opens(cs, b)
  {
    out := flags;
    for b := 0 to 0x80
      invariant |out| == 256
      invariant forall x: byte :: out[x] <==> flags[x] || (x < b && Opens(cs, x))
    {
      if !out[b] {
        var m := Matches(cs, b);
        out := out[b := m];
      }
    }
    ghost var ascii := out;
    for b := 0xC2 to 0xF5
      invariant |out| == 256
      invariant forall x: byte :: out[x] <==> ascii[x] || (0xC2 <= x < b && Opens(cs, x))
    {
      if !out[b] {
        var lo, hi := BlockLow(b), BlockHigh(b);
        if lo <= hi {
          var meets := Intersects(cs, lo, hi);
          out := out[b := meets];
        }
      }
    }
  }
}
