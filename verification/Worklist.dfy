/** The invariant of the expansion worklist, on plain frame lists. */
module Worklist {
  import opened Grammar
  import opened Pushdown

  /** Every move out of an explored stack leads to one that is explored, queued, or
      a finished parse already reported; explored stacks that wait are reported. */
  ghost predicate Explored(rules: Rules, cap: nat, done: set<Stack>, todo: set<Stack>, out: set<Stack>)
  {
    && (forall s :: s in done && Settled(rules, s) ==> s in out)
    && (forall s, t :: s in done && Move(rules, cap, s, t) ==> Handled(done, todo, out, t))
  }

  ghost predicate Handled(done: set<Stack>, todo: set<Stack>, out: set<Stack>, t: Stack)
  {
    t in done || t in todo || (t == Empty && Empty in out)
  }

  /** Everything reported or queued comes from `source` or was reported before. */
  ghost predicate FromSource(rules: Rules, cap: nat, source: Stack, todo: set<Stack>, out0: set<Stack>, out: set<Stack>)
  {
    && (forall t :: t in todo ==> Reachable(rules, cap, source, t))
    && out0 <= out
    && (forall t :: t in out && t !in out0 ==> Settled(rules, t) && Reachable(rules, cap, source, t))
  }

  /** Taking `s` off the queue: the finished parse is reported, an explored stack is
      dropped, any other is explored and its moves queued. */
  lemma TakeOne(rules: Rules, cap: nat, done: set<Stack>, todo: set<Stack>, out: set<Stack>, s: Stack,
                done': set<Stack>, todo': set<Stack>, out': set<Stack>)
    requires Explored(rules, cap, done, todo, out)
    requires done <= done' <= done + {s} && out <= out' && todo - {s} <= todo'
    requires s in done' || (s == Empty && Empty in out')
    requires s in done' - done ==> (Settled(rules, s) ==> s in out')
    requires s in done' - done ==> forall t :: Move(rules, cap, s, t) ==> Handled(done', todo', out', t)
    ensures Explored(rules, cap, done', todo', out')
  {
    forall r, t | r in done' && Move(rules, cap, r, t)
      ensures Handled(done', todo', out', t)
    {
      if r in done {
        assert Handled(done, todo, out, t);
      }
    }
  }

  lemma {:induction false} ExploredReaches(rules: Rules, cap: nat, done: set<Stack>, out: set<Stack>,
                                           s: Stack, t: Stack, n: nat)
    requires Explored(rules, cap, done, {}, out) && Handled(done, {}, out, s) && Reach(rules, cap, s, t, n)
    ensures Handled(done, {}, out, t)
    decreases n
  {
    if n > 0 {
      var m :| Move(rules, cap, s, m) && Reach(rules, cap, m, t, n - 1);
      ExploredReaches(rules, cap, done, out, m, t, n - 1);
    }
  }

  /** The whole loop invariant of expanding `source` on top of the results `out0`. */
  ghost predicate Progress(rules: Rules, cap: nat, source: Stack, out0: set<Stack>,
                           done: set<Stack>, todo: set<Stack>, out: set<Stack>)
  {
    && Explored(rules, cap, done, todo, out)
    && FromSource(rules, cap, source, todo, out0, out)
    && Handled(done, todo, out, source)
  }

  lemma ProgressStart(rules: Rules, cap: nat, source: Stack, out0: set<Stack>, done: set<Stack>)
    requires Explored(rules, cap, done, {}, out0)
    ensures Progress(rules, cap, source, out0, done, {source}, out0)
  {
    ReachableSelf(rules, cap, source);
    forall s, t | s in done && Move(rules, cap, s, t)
      ensures Handled(done, {source}, out0, t)
    {
      assert Handled(done, {}, out0, t);
    }
  }

  lemma ProgressReport(rules: Rules, cap: nat, source: Stack, out0: set<Stack>,
                       done: set<Stack>, todo: set<Stack>, out: set<Stack>, todo': set<Stack>)
    requires Progress(rules, cap, source, out0, done, todo, out) && todo == todo' + {Empty}
    ensures Progress(rules, cap, source, out0, done, todo', out + {Empty})
  {
    TakeOne(rules, cap, done, todo, out, Empty, done, todo', out + {Empty});
  }

  lemma ProgressDrop(rules: Rules, cap: nat, source: Stack, out0: set<Stack>,
                     done: set<Stack>, todo: set<Stack>, out: set<Stack>, s: Stack, todo': set<Stack>)
    requires Progress(rules, cap, source, out0, done, todo, out) && todo == todo' + {s} && s in done
    ensures Progress(rules, cap, source, out0, done, todo', out)
  {
    TakeOne(rules, cap, done, todo, out, s, done, todo', out);
  }

  lemma {:induction false} ProgressVisit(rules: Rules, cap: nat, source: Stack, out0: set<Stack>,
                      done: set<Stack>, todo: set<Stack>, out: set<Stack>, s: Stack,
                      todo': set<Stack>, out': set<Stack>)
    requires RulesOk(rules) && StackOk(rules, source) && StackOk(rules, s)
    requires Progress(rules, cap, source, out0, done, todo, out) && s in todo
    requires todo - {s} + MovesOf(rules, cap, s) <= todo' <= todo + MovesOf(rules, cap, s)
    requires out' == out + if Settled(rules, s) then {s} else {}
    ensures Progress(rules, cap, source, out0, done + {s}, todo', out')
    ensures s in Universe(rules, Max(cap, Depth(source)))
  {
    VisitExplored(rules, cap, done, todo, out, s, todo', out');
    VisitFromSource(rules, cap, source, s, todo, out0, out, todo', out');
    ReachableInUniverse(rules, cap, source, s);
  }

  /** With the queue empty, exactly the settled stacks of `source` were added. */
  lemma ExpandIsExact(rules: Rules, cap: nat, source: Stack, done: set<Stack>, out0: set<Stack>, out: set<Stack>)
    requires StackOk(rules, source) && Progress(rules, cap, source, out0, done, {}, out)
    ensures Explored(rules, cap, done, {}, out) && out == out0 + SettledFrom(rules, cap, source)
  {
    forall t
      ensures t in SettledFrom(rules, cap, source) ==> t in out
      ensures t in out && t !in out0 ==> t in SettledFrom(rules, cap, source)
    {
      SettledFromIff(rules, cap, source, t);
      if t in SettledFrom(rules, cap, source) {
        var n: nat :| Reach(rules, cap, source, t, n);
        ExploredReaches(rules, cap, done, out, source, t, n);
      }
    }
  }

  /** Visiting `s` keeps the worklist invariant. */
  lemma VisitExplored(rules: Rules, cap: nat, done: set<Stack>, todo: set<Stack>, out: set<Stack>, s: Stack,
                      todo': set<Stack>, out': set<Stack>)
    requires RulesOk(rules) && StackOk(rules, s) && Explored(rules, cap, done, todo, out)
    requires todo - {s} + MovesOf(rules, cap, s) <= todo'
    requires out' == out + if Settled(rules, s) then {s} else {}
    ensures Explored(rules, cap, done + {s}, todo', out')
  {
    forall t | Move(rules, cap, s, t)
      ensures Handled(done + {s}, todo', out', t)
    {
      MovesOfIff(rules, cap, s, t);
    }
    TakeOne(rules, cap, done, todo, out, s, done + {s}, todo', out');
  }

  lemma VisitFromSource(rules: Rules, cap: nat, source: Stack, s: Stack, todo: set<Stack>, out0: set<Stack>,
                        out: set<Stack>, todo': set<Stack>, out': set<Stack>)
    requires RulesOk(rules) && StackOk(rules, s) && FromSource(rules, cap, source, todo, out0, out) && s in todo
    requires todo' <= todo + MovesOf(rules, cap, s)
    requires out' == out + if Settled(rules, s) then {s} else {}
    ensures FromSource(rules, cap, source, todo', out0, out')
  {
    forall t | t in todo' && t !in todo
      ensures Reachable(rules, cap, source, t)
    {
      MovesOfIff(rules, cap, s, t);
      ReachableStep(rules, cap, source, s, t);
    }
  }

  lemma {:induction false} ReachableInUniverse(rules: Rules, cap: nat, source: Stack, s: Stack)
    requires StackOk(rules, source) && Reachable(rules, cap, source, s)
    ensures s in Universe(rules, Max(cap, Depth(source)))
  {
    var n: nat :| Reach(rules, cap, source, s, n);
    ReachOk(rules, cap, source, s, n);
    InUniverse(rules, s, Max(cap, Depth(source)));
  }
}
