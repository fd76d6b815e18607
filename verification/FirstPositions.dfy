/** Nullable rules, the left-recursion check, and the bound on stack growth it buys. */
module FirstPositions {
  import opened IdLists
  import opened CharSets
  import opened Languages
  import opened Grammar
  import opened Pushdown

  ghost predicate Nullable(rules: Rules, r: nat)
  {
    [] in RuleLang(rules, r)
  }

  // ----- nullable fixed point -----

  /** Every item is a reference to a flagged rule. */
  predicate Silent(flags: seq<bool>, items: seq<Item>)
  {
    forall i :: 0 <= i < |items| ==> items[i].Ref? && items[i].rule < |flags| && flags[items[i].rule]
  }

  ghost predicate FlagsSound(rules: Rules, flags: seq<bool>)
  {
    |flags| == |rules| && forall r :: 0 <= r < |flags| && flags[r] ==> Nullable(rules, r)
  }

  predicate HasSilentAlt(flags: seq<bool>, alts: seq<Alt>)
  {
    exists a :: 0 <= a < |alts| && Silent(flags, alts[a])
  }

  lemma {:induction false} FormVanishes(rules: Rules, items: seq<Item>)
    requires VanishesBefore(rules, items, |items|)
    ensures [] in FormLang(rules, items)
    decreases |items|
  {
    if items == [] {
      FormLangEmpty(rules);
    } else {
      FormVanishes(rules, items[1..]);
      assert items == [Ref(items[0].rule)] + items[1..];
      FormLangCat(rules, [Ref(items[0].rule)], items[1..]);
      CatIntro(RuleLang(rules, items[0].rule), FormLang(rules, items[1..]), [], []);
    }
  }

  lemma SilentAltIsNullable(rules: Rules, flags: seq<bool>, r: nat)
    requires r < |rules| && FlagsSound(rules, flags) && HasSilentAlt(flags, rules[r].alts)
    ensures Nullable(rules, r)
  {
    var a :| 0 <= a < |rules[r].alts| && Silent(flags, rules[r].alts[a]);
    FormVanishes(rules, rules[r].alts[a]);
    RuleLangIsUnion(rules, r, []);
  }

  /** At the fixed point every form that derives the empty word is silent. */
  lemma {:induction false} FixpointComplete(rules: Rules, flags: seq<bool>, form: seq<Item>, n: nat)
    requires |flags| == |rules|
    requires forall r :: 0 <= r < |rules| && !flags[r] ==> !HasSilentAlt(flags, rules[r].alts)
    requires Derives(rules, form, [], n)
    ensures Silent(flags, form)
    decreases n
  {
    if form != [] {
      var a := FirstDerives(rules, form, [], n);
      var alt := rules[form[0].rule].alts[a];
      FixpointComplete(rules, flags, alt + form[1..], n - 1);
      assert forall i :: 0 <= i < |alt| ==> (alt + form[1..])[i] == alt[i];
      assert forall i :: 1 <= i < |form| ==> (alt + form[1..])[|alt| + i - 1] == form[i];
      assert Silent(flags, alt);
    }
  }

  method AllSilent(flags: seq<bool>, items: seq<Item>) returns (b: bool)
    ensures b == Silent(flags, items)
  {
    for i := 0 to |items|
      invariant forall j :: 0 <= j < i ==> items[j].Ref? && items[j].rule < |flags| && flags[items[j].rule]
    {
      if !items[i].Ref? || items[i].rule >= |flags| || !flags[items[i].rule] {
        return false;
      }
    }
    return true;
  }

  method AnySilent(flags: seq<bool>, alts: seq<Alt>) returns (b: bool)
    ensures b == HasSilentAlt(flags, alts)
  {
    for a := 0 to |alts|
      invariant forall j :: 0 <= j < a ==> !Silent(flags, alts[j])
    {
      var all := AllSilent(flags, alts[a]);
      if all {
        return true;
      }
    }
    return false;
  }

  ghost function Unflagged(flags: seq<bool>): set<nat>
  {
    set r | 0 <= r < |flags| && !flags[r]
  }

  /** Marks exactly the rules that derive the empty string. */
  method ComputeNullable(rules: Rules) returns (nullable: seq<bool>)
    requires RulesOk(rules)
    ensures |nullable| == |rules|
    ensures forall r :: 0 <= r < |rules| ==> (nullable[r] <==> Nullable(rules, r))
  {
    nullable := seq(|rules|, _ => false);
    var changed := true;
    while changed
      invariant FlagsSound(rules, nullable)
      invariant !changed ==> forall r :: 0 <= r < |rules| && !nullable[r] ==> !HasSilentAlt(nullable, rules[r].alts)
      decreases Unflagged(nullable), changed
    {
      changed := false;
      ghost var before := nullable;
      for r := 0 to |rules|
        invariant FlagsSound(rules, nullable)
        invariant if changed then Unflagged(nullable) < Unflagged(before) else nullable == before
        invariant !changed ==> forall q :: 0 <= q < r && !nullable[q] ==> !HasSilentAlt(nullable, rules[q].alts)
      {
        if nullable[r] {
          continue;
        }
        var any := AnySilent(nullable, rules[r].alts);
        if any {
          SilentAltIsNullable(rules, nullable, r);
          assert r in Unflagged(nullable);
          nullable := nullable[r := true];
          changed := true;
        }
      }
    }
    forall r | 0 <= r < |rules| && Nullable(rules, r)
      ensures nullable[r]
    {
      var n: nat :| Derives(rules, [Ref(r)], [], n);
      FixpointComplete(rules, nullable, [Ref(r)], n);
      assert [Ref(r)][0] == Ref(r);
    }
  }

  // ----- the first-position graph -----

  /** Everything before position `i` of the alternative can vanish. */
  ghost predicate VanishesBefore(rules: Rules, alt: Alt, i: nat)
    requires i <= |alt|
  {
    forall j :: 0 <= j < i ==> alt[j].Ref? && Nullable(rules, alt[j].rule)
  }

  ghost predicate EdgeAt(rules: Rules, r: nat, s: nat, a: nat, i: nat)
  {
    && r < |rules| && a < |rules[r].alts| && i < |rules[r].alts[a]|
    && rules[r].alts[a][i] == Ref(s) && VanishesBefore(rules, rules[r].alts[a], i)
  }

  /** `s` can be entered at the first input position of `r`. */
  ghost predicate Edge(rules: Rules, r: nat, s: nat)
  {
    exists a: nat, i: nat :: EdgeAt(rules, r, s, a, i)
  }

  ghost predicate EdgePath(rules: Rules, p: seq<nat>)
  {
    |p| >= 1 && forall k :: 0 <= k < |p| - 1 ==> Edge(rules, p[k], p[k + 1])
  }

  ghost predicate Cycle(rules: Rules, p: seq<nat>)
  {
    |p| >= 2 && EdgePath(rules, p) && p[0] == p[|p| - 1]
  }

  ghost predicate LeftRecursive(rules: Rules)
  {
    exists p :: Cycle(rules, p)
  }

  ghost predicate IsRank(rules: Rules, rank: seq<nat>)
  {
    && |rank| == |rules|
    && (forall r :: 0 <= r < |rank| ==> rank[r] < |rules|)
    && (forall r: nat, s: nat :: Edge(rules, r, s) ==> r < |rank| && s < |rank| && rank[s] < rank[r])
  }

  ghost predicate Ranked(rules: Rules)
  {
    exists rank :: IsRank(rules, rank)
  }

  lemma {:induction false} RankDropsAlong(rules: Rules, rank: seq<nat>, p: seq<nat>, k: nat)
    requires IsRank(rules, rank) && EdgePath(rules, p) && 1 <= k < |p|
    ensures p[0] < |rank| && p[k] < |rank| && rank[p[k]] + k <= rank[p[0]]
    decreases k
  {
    assert Edge(rules, p[k - 1], p[k - 1 + 1]);
    if k > 1 {
      RankDropsAlong(rules, rank, p, k - 1);
    }
  }

  lemma RankedIsAcyclic(rules: Rules)
    requires Ranked(rules)
    ensures !LeftRecursive(rules)
  {
    var rank :| IsRank(rules, rank);
    forall p | Cycle(rules, p)
      ensures false
    {
      RankDropsAlong(rules, rank, p, |p| - 1);
    }
  }

  /** The references of one alternative that can be entered at its first position. */
  method FirstRefs(rules: Rules, nullable: seq<bool>, alt: Alt) returns (refs: seq<nat>)
    requires |nullable| == |rules| && FormOk(rules, alt)
    requires forall r :: 0 <= r < |rules| ==> (nullable[r] <==> Nullable(rules, r))
    ensures forall s: nat :: s in refs <==> exists i: nat :: 0 <= i < |alt| && alt[i] == Ref(s) && VanishesBefore(rules, alt, i)
  {
    refs := [];
    for i := 0 to |alt|
      invariant VanishesBefore(rules, alt, i)
      invariant forall s: nat :: s in refs <==> exists j: nat :: 0 <= j < i && alt[j] == Ref(s) && VanishesBefore(rules, alt, j)
    {
      if !alt[i].Ref? {
        break;
      }
      refs := refs + [alt[i].rule];
      if !nullable[alt[i].rule] {
        break;
      }
    }
  }

  ghost predicate AdjOk(rules: Rules, adj: seq<seq<nat>>)
  {
    |adj| == |rules| && forall r: nat, s: nat :: 0 <= r < |adj| ==> (s in adj[r] <==> Edge(rules, r, s))
  }

  method BuildAdjacency(rules: Rules, nullable: seq<bool>) returns (adj: seq<seq<nat>>)
    requires RulesOk(rules) && |nullable| == |rules|
    requires forall r :: 0 <= r < |rules| ==> (nullable[r] <==> Nullable(rules, r))
    ensures AdjOk(rules, adj)
  {
    adj := [];
    for r := 0 to |rules|
      invariant |adj| == r
      invariant forall q: nat, s: nat :: 0 <= q < r ==> (s in adj[q] <==> Edge(rules, q, s))
    {
      var out: seq<nat> := [];
      for a := 0 to |rules[r].alts|
        invariant forall s: nat :: s in out <==> exists b: nat, i: nat :: b < a && EdgeAt(rules, r, s, b, i)
      {
        var refs := FirstRefs(rules, nullable, rules[r].alts[a]);
        forall s: nat
          ensures s in refs <==> exists i: nat :: EdgeAt(rules, r, s, a, i)
        {
          if s in refs {
            var i: nat :| 0 <= i < |rules[r].alts[a]| && rules[r].alts[a][i] == Ref(s) &&
                          VanishesBefore(rules, rules[r].alts[a], i);
            assert EdgeAt(rules, r, s, a, i);
          }
        }
        out := out + refs;
      }
      adj := adj + [out];
    }
  }

  // ----- three-colour depth-first search -----

  type Color = x: int | 0 <= x <= 2

  /** `color`: 0 unvisited, 1 on the stack, 2 done; done nodes carry a rank below `fin`. */
  ghost predicate DoneOk(adj: seq<seq<nat>>, color: seq<Color>, rank: seq<nat>, fin: nat)
  {
    && |color| == |adj| && |rank| == |adj|
    && fin == |Done(color)|
    && (forall r :: 0 <= r < |adj| && color[r] == 2 ==> rank[r] < fin)
    && (forall r, j :: 0 <= r < |adj| && color[r] == 2 && 0 <= j < |adj[r]| ==>
          adj[r][j] < |adj| && color[adj[r][j]] == 2 && rank[adj[r][j]] < rank[r])
  }

  ghost function Done(color: seq<Color>): set<nat>
  {
    set r: nat | r < |color| && color[r] == 2
  }

  ghost function White(color: seq<Color>): set<nat>
  {
    set r: nat | r < |color| && color[r] == 0
  }

  /** A node being explored and the number of its edges already taken. */
  datatype Visit = Visit(node: nat, next: nat)

  ghost predicate VisitsOk(adj: seq<seq<nat>>, color: seq<Color>, stack: seq<Visit>)
    requires |color| == |adj|
  {
    forall k :: 0 <= k < |stack| ==>
      stack[k].node < |adj| && stack[k].next <= |adj[stack[k].node]| && color[stack[k].node] == 1
  }

  ghost predicate Distinct(stack: seq<Visit>)
  {
    forall i, j :: 0 <= i < j < |stack| ==> stack[i].node != stack[j].node
  }

  ghost predicate OnStack(stack: seq<Visit>, r: nat)
  {
    exists k :: 0 <= k < |stack| && stack[k].node == r
  }

  ghost predicate GreysOnStack(color: seq<Color>, stack: seq<Visit>)
  {
    forall r: nat :: r < |color| && color[r] == 1 ==> OnStack(stack, r)
  }

  /** The last edge taken from `low` leads to `high`. */
  ghost predicate Link(adj: seq<seq<nat>>, low: Visit, high: Visit)
  {
    low.node < |adj| && 0 < low.next <= |adj[low.node]| && adj[low.node][low.next - 1] == high.node
  }

  ghost predicate LinkAt(adj: seq<seq<nat>>, stack: seq<Visit>, k: int)
  {
    0 < k < |stack| && Link(adj, stack[k - 1], stack[k])
  }

  ghost predicate Linked(adj: seq<seq<nat>>, stack: seq<Visit>)
  {
    forall k :: 0 < k < |stack| ==> LinkAt(adj, stack, k)
  }

  /** Edges taken before the last one lead to done nodes. */
  ghost predicate EarlierDone(adj: seq<seq<nat>>, color: seq<Color>, stack: seq<Visit>)
    requires |color| == |adj| && AdjInRange(adj) && VisitsOk(adj, color, stack)
  {
    forall k, j :: 0 <= k < |stack| && 0 <= j < stack[k].next - 1 ==> color[adj[stack[k].node][j]] == 2
  }

  ghost predicate TopDone(adj: seq<seq<nat>>, color: seq<Color>, stack: seq<Visit>)
    requires |color| == |adj| && AdjInRange(adj) && VisitsOk(adj, color, stack)
  {
    stack != [] ==>
      var top := stack[|stack| - 1];
      forall j :: 0 <= j < top.next ==> color[adj[top.node][j]] == 2
  }

  ghost predicate StackInv(adj: seq<seq<nat>>, color: seq<Color>, stack: seq<Visit>)
  {
    && |color| == |adj| && AdjInRange(adj)
    && VisitsOk(adj, color, stack) && Distinct(stack) && GreysOnStack(color, stack)
    && Linked(adj, stack) && EarlierDone(adj, color, stack) && TopDone(adj, color, stack)
  }

  ghost predicate AdjInRange(adj: seq<seq<nat>>)
  {
    forall r, j :: 0 <= r < |adj| && 0 <= j < |adj[r]| ==> adj[r][j] < |adj|
  }

  ghost predicate AdjPath(adj: seq<seq<nat>>, p: seq<nat>)
  {
    |p| >= 1 && (forall k :: 0 <= k < |p| - 1 ==> p[k] < |adj| && p[k + 1] in adj[p[k]])
  }

  ghost predicate AdjCycle(adj: seq<seq<nat>>, p: seq<nat>)
  {
    |p| >= 2 && AdjPath(adj, p) && p[0] == p[|p| - 1]
  }

  function Nodes(stack: seq<Visit>, k: nat): (p: seq<nat>)
    requires k <= |stack|
    ensures |p| == |stack| - k && forall i :: 0 <= i < |p| ==> p[i] == stack[k + i].node
  {
    seq<nat>(|stack| - k, i requires 0 <= i < |stack| - k => stack[k + i].node)
  }

  lemma BackEdgeIsCycle(adj: seq<seq<nat>>, stack: seq<Visit>, next: nat)
    returns (p: seq<nat>)
    requires Linked(adj, stack) && stack != [] && stack[|stack| - 1].node < |adj|
    requires next in adj[stack[|stack| - 1].node] && OnStack(stack, next)
    ensures AdjCycle(adj, p)
  {
    var k :| 0 <= k < |stack| && stack[k].node == next;
    p := Nodes(stack, k) + [next];
    forall i | 0 <= i < |p| - 1
      ensures p[i] < |adj| && p[i + 1] in adj[p[i]]
    {
      if i < |p| - 2 {
        assert LinkAt(adj, stack, k + i + 1);
        assert Link(adj, stack[k + i], stack[k + i + 1]);
      }
    }
  }

  function Bump(stack: seq<Visit>): (bumped: seq<Visit>)
    requires stack != []
    ensures |bumped| == |stack|
    ensures forall k :: 0 <= k < |stack| ==> bumped[k].node == stack[k].node
    ensures forall k :: 0 <= k < |stack| - 1 ==> bumped[k] == stack[k]
    ensures bumped[|stack| - 1].next == stack[|stack| - 1].next + 1
  {
    stack[..|stack| - 1] + [Visit(stack[|stack| - 1].node, stack[|stack| - 1].next + 1)]
  }

  /** Everything but the top condition survives taking one more edge of the top. */
  lemma BumpKeeps(adj: seq<seq<nat>>, color: seq<Color>, stack: seq<Visit>)
    requires StackInv(adj, color, stack) && stack != []
    requires stack[|stack| - 1].next < |adj[stack[|stack| - 1].node]|
    ensures var b := Bump(stack);
            && VisitsOk(adj, color, b) && Distinct(b) && GreysOnStack(color, b)
            && Linked(adj, b) && EarlierDone(adj, color, b)
  {
    var b := Bump(stack);
    forall r: nat | r < |color| && color[r] == 1
      ensures OnStack(b, r)
    {
      assert OnStack(stack, r);
      var k :| 0 <= k < |stack| && stack[k].node == r;
      assert b[k].node == r;
    }
    forall k | 0 < k < |b|
      ensures LinkAt(adj, b, k)
    {
      assert LinkAt(adj, stack, k);
    }
  }

  lemma NextKeeps(adj: seq<seq<nat>>, color: seq<Color>, stack: seq<Visit>)
    requires StackInv(adj, color, stack) && stack != []
    requires var top := stack[|stack| - 1]; top.next < |adj[top.node]| && color[adj[top.node][top.next]] == 2
    ensures StackInv(adj, color, Bump(stack))
  {
    BumpKeeps(adj, color, stack);
  }

  lemma PushKeeps(adj: seq<seq<nat>>, color: seq<Color>, stack: seq<Visit>, next: nat)
    requires StackInv(adj, color, stack) && stack != []
    requires var top := stack[|stack| - 1]; top.next < |adj[top.node]| && adj[top.node][top.next] == next
    requires color[next] == 0
    ensures StackInv(adj, color[next := 1], Bump(stack) + [Visit(next, 0)])
  {
    BumpKeeps(adj, color, stack);
    PushGrey(adj, color, Bump(stack), next);
    PushLinked(adj, color, Bump(stack), next);
  }

  lemma PushGrey(adj: seq<seq<nat>>, color: seq<Color>, stack: seq<Visit>, next: nat)
    requires |color| == |adj| && VisitsOk(adj, color, stack) && Distinct(stack) && GreysOnStack(color, stack)
    requires next < |adj| && color[next] == 0
    ensures var color', stack' := color[next := 1], stack + [Visit(next, 0)];
            VisitsOk(adj, color', stack') && Distinct(stack') && GreysOnStack(color', stack')
  {
    var color', stack' := color[next := 1], stack + [Visit(next, 0)];
    forall r: nat | r < |color'| && color'[r] == 1
      ensures OnStack(stack', r)
    {
      if r == next {
        assert stack'[|stack|].node == next;
      } else {
        assert OnStack(stack, r);
        var k :| 0 <= k < |stack| && stack[k].node == r;
        assert stack'[k].node == r;
      }
    }
  }

  lemma PushLinked(adj: seq<seq<nat>>, color: seq<Color>, stack: seq<Visit>, next: nat)
    requires |color| == |adj| && AdjInRange(adj) && VisitsOk(adj, color, stack) && stack != []
    requires Linked(adj, stack) && EarlierDone(adj, color, stack)
    requires var top := stack[|stack| - 1]; 0 < top.next && adj[top.node][top.next - 1] == next
    requires color[next] == 0
    requires VisitsOk(adj, color[next := 1], stack + [Visit(next, 0)])
    ensures var color', stack' := color[next := 1], stack + [Visit(next, 0)];
            Linked(adj, stack') && EarlierDone(adj, color', stack') && TopDone(adj, color', stack')
  {
    var stack' := stack + [Visit(next, 0)];
    forall k | 0 < k < |stack'|
      ensures LinkAt(adj, stack', k)
    {
      assert k < |stack| ==> LinkAt(adj, stack, k);
    }
  }

  lemma PopGreys(adj: seq<seq<nat>>, color: seq<Color>, stack: seq<Visit>)
    requires StackInv(adj, color, stack) && stack != []
    ensures var n := |stack| - 1;
            VisitsOk(adj, color[stack[n].node := 2], stack[..n]) && GreysOnStack(color[stack[n].node := 2], stack[..n])
  {
    var n := |stack| - 1;
    var color', stack' := color[stack[n].node := 2], stack[..n];
    forall r: nat | r < |color'| && color'[r] == 1
      ensures OnStack(stack', r)
    {
      assert OnStack(stack, r);
      var k :| 0 <= k < |stack| && stack[k].node == r;
      assert stack'[k].node == r;
    }
  }

  lemma PopLinked(adj: seq<seq<nat>>, stack: seq<Visit>)
    requires Linked(adj, stack) && stack != []
    ensures Linked(adj, stack[..|stack| - 1])
  {
    var stack' := stack[..|stack| - 1];
    forall k | 0 < k < |stack'|
      ensures LinkAt(adj, stack', k)
    {
      assert LinkAt(adj, stack, k);
    }
  }

  lemma PopKeeps(adj: seq<seq<nat>>, color: seq<Color>, stack: seq<Visit>)
    requires StackInv(adj, color, stack) && stack != []
    requires var top := stack[|stack| - 1]; top.next == |adj[top.node]|
    ensures StackInv(adj, color[stack[|stack| - 1].node := 2], stack[..|stack| - 1])
  {
    var n := |stack| - 1;
    PopGreys(adj, color, stack);
    PopLinked(adj, stack);
    if n > 0 {
      assert LinkAt(adj, stack, n);
    }
    hide GreysOnStack, Linked, LinkAt, OnStack;
    assert TopDone(adj, color[stack[n].node := 2], stack[..n]);
  }

  lemma PopDone(adj: seq<seq<nat>>, color: seq<Color>, stack: seq<Visit>, rank: seq<nat>, fin: nat)
    requires DoneOk(adj, color, rank, fin) && StackInv(adj, color, stack) && stack != []
    requires var top := stack[|stack| - 1]; top.next == |adj[top.node]|
    ensures DoneOk(adj, color[stack[|stack| - 1].node := 2], rank[stack[|stack| - 1].node := fin], fin + 1)
  {
    var r := stack[|stack| - 1].node;
    assert Done(color[r := 2]) == Done(color) + {r} && r !in Done(color);
  }

  lemma DoneBound(color: seq<Color>)
    ensures |Done(color)| <= |color|
    decreases |color|
  {
    if color != [] {
      var n := |color| - 1;
      DoneBound(color[..n]);
      assert Done(color) <= Done(color[..n]) + {n};
      SubsetSize(Done(color), Done(color[..n]) + {n});
    }
  }

  ghost function TopLeft(adj: seq<seq<nat>>, stack: seq<Visit>): int
  {
    if stack == [] || stack[|stack| - 1].node >= |adj| then 0
    else |adj[stack[|stack| - 1].node]| - stack[|stack| - 1].next
  }

  lemma Recolor(adj: seq<seq<nat>>, color: seq<Color>, rank: seq<nat>, fin: nat, next: nat)
    requires DoneOk(adj, color, rank, fin) && next < |adj| && color[next] == 0
    ensures DoneOk(adj, color[next := 1], rank, fin) && White(color[next := 1]) < White(color)
  {
    assert Done(color[next := 1]) == Done(color);
    assert next in White(color) && White(color[next := 1]) == White(color) - {next};
  }

  /** Explores everything reachable from `start` before returning. */
  method Explore(adj: seq<seq<nat>>, color0: seq<Color>, start: nat, ghost rank0: seq<nat>, ghost fin0: nat)
    returns (ok: bool, color: seq<Color>, ghost rank: seq<nat>, ghost fin: nat, ghost cycle: seq<nat>)
    requires AdjInRange(adj) && DoneOk(adj, color0, rank0, fin0)
    requires start < |adj| && color0[start] == 0 && forall r :: 0 <= r < |adj| ==> color0[r] != 1
    ensures ok ==> DoneOk(adj, color, rank, fin) && (forall r :: 0 <= r < |adj| ==> color[r] != 1)
    ensures ok ==> color[start] == 2 && forall r :: 0 <= r < |adj| && color0[r] == 2 ==> color[r] == 2
    ensures !ok ==> AdjCycle(adj, cycle)
  {
    color, rank, fin, cycle := color0, rank0, fin0, [];
    var stack := [Visit(start, 0)];
    color := color[start := 1];
    assert Done(color) == Done(color0);
    assert stack[0].node == start;
    while stack != []
      invariant DoneOk(adj, color, rank, fin) && StackInv(adj, color, stack)
      invariant color[start] != 0 && forall r :: 0 <= r < |adj| && color0[r] == 2 ==> color[r] == 2
      decreases White(color), |stack|, TopLeft(adj, stack)
    {
      var r, i := stack[|stack| - 1].node, stack[|stack| - 1].next;
      if i < |adj[r]| {
        var next := adj[r][i];
        if color[next] == 1 {
          cycle := BackEdgeIsCycle(adj, stack, next);
          return false, color, rank, fin, cycle;
        }
        if color[next] == 0 {
          PushKeeps(adj, color, stack, next);
          Recolor(adj, color, rank, fin, next);
          color, stack := color[next := 1], Bump(stack) + [Visit(next, 0)];
        } else {
          NextKeeps(adj, color, stack);
          stack := Bump(stack);
        }
      } else {
        PopKeeps(adj, color, stack);
        PopDone(adj, color, stack, rank, fin);
        assert White(color[r := 2]) == White(color);
        color, rank, fin, stack := color[r := 2], rank[r := fin], fin + 1, stack[..|stack| - 1];
      }
    }
    forall r | 0 <= r < |adj|
      ensures color[r] != 1
    {
      assert !OnStack(stack, r);
    }
    ok := true;
  }

  lemma AdjCycleIsCycle(rules: Rules, adj: seq<seq<nat>>, p: seq<nat>)
    requires AdjOk(rules, adj) && AdjCycle(adj, p)
    ensures LeftRecursive(rules)
  {
    assert Cycle(rules, p);
  }

  lemma DoneIsRank(rules: Rules, adj: seq<seq<nat>>, color: seq<Color>, rank: seq<nat>, fin: nat)
    requires AdjOk(rules, adj) && DoneOk(adj, color, rank, fin)
    requires forall r :: 0 <= r < |adj| ==> color[r] == 2
    ensures IsRank(rules, rank)
  {
    DoneBound(color);
    forall r: nat, s: nat | Edge(rules, r, s)
      ensures r < |rank| && s < |rank| && rank[s] < rank[r]
    {
      assert s in adj[r];
    }
  }

  /** Accepts exactly the grammars whose first-position graph has no cycle. */
  method CheckLeftRecursion(rules: Rules, nullable: seq<bool>) returns (ok: bool)
    requires RulesOk(rules) && |nullable| == |rules|
    requires forall r :: 0 <= r < |rules| ==> (nullable[r] <==> Nullable(rules, r))
    ensures ok <==> !LeftRecursive(rules)
    ensures ok ==> Ranked(rules)
  {
    var adj := BuildAdjacency(rules, nullable);
    forall r, j | 0 <= r < |adj| && 0 <= j < |adj[r]|
      ensures adj[r][j] < |adj|
    {
      assert adj[r][j] in adj[r] && Edge(rules, r, adj[r][j]);
    }
    var color: seq<Color> := seq(|rules|, _ => 0);
    ghost var rank: seq<nat>, fin: nat := seq(|rules|, _ => 0), 0;
    assert Done(color) == {};
    for start := 0 to |rules|
      invariant DoneOk(adj, color, rank, fin)
      invariant forall r :: 0 <= r < |adj| ==> color[r] != 1
      invariant forall r :: 0 <= r < start ==> color[r] == 2
    {
      if color[start] != 0 {
        continue;
      }
      var fine: bool;
      ghost var cycle: seq<nat>;
      fine, color, rank, fin, cycle := Explore(adj, color, start, rank, fin);
      if !fine {
        AdjCycleIsCycle(rules, adj, cycle);
        return false;
      }
    }
    DoneIsRank(rules, adj, color, rank, fin);
    RankedIsAcyclic(rules);
    return true;
  }
}
