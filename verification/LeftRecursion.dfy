/** What the check for left recursion says about the grammar as written. */
module LeftRecursion {
  import opened CharSets
  import opened Languages
  import opened Grammar
  import opened FirstPositions
  import opened GbnfSyntax
  import opened Desugaring
  import opened Representation

  /** `f` is `e` or a part of it. */
  ghost predicate IsPart(f: Elem, e: Elem)
    decreases e, 0
  {
    || f == e
    || (e.Group? && IsPartOfAlts(f, e.alts))
    || (e.Rep? && IsPart(f, e.elem))
  }

  ghost predicate IsPartOfSeq(f: Elem, es: seq<Elem>)
    decreases es, 0
  {
    exists i :: 0 <= i < |es| && IsPart(f, es[i])
  }

  ghost predicate IsPartOfAlts(f: Elem, alts: seq<Branch>)
    decreases alts, 0
  {
    exists i :: 0 <= i < |alts| && IsPartOfSeq(f, alts[i].elems)
  }

  /** Can `e` derive the empty word? */
  ghost predicate Erasable(g: Source, e: Elem)
  {
    exists n: nat :: [] in ElemLang(g, e, n)
  }

  /** Some rule has an unbounded repetition of an element that can be empty. */
  ghost predicate HasEmptyLoop(g: Source)
  {
    exists x, b, lo: nat, hi :: IsEmptyLoop(g, x, b, lo, hi)
  }

  ghost predicate IsEmptyLoop(g: Source, x: Name, b: Elem, lo: nat, hi: int)
  {
    x in g && hi < 0 && IsPartOfAlts(Rep(b, lo, hi), g[x]) && Erasable(g, b)
  }

  // ----- every part of a represented rule is represented -----

  lemma {:induction false} PartOfElem(rules: Rules, ids: Ids, items: seq<Item>, e: Elem, f: Elem)
    requires HasElem(rules, ids, items, e) && IsPart(f, e)
    ensures exists its :: HasElem(rules, ids, its, f)
    decreases e, 0
  {
    if f != e {
      match e
      case Group(alts) => PartOfAlts(rules, ids, rules[items[0].rule].alts, alts, f);
      case Rep(b, lo, hi) =>
        var x, base :| HasRep(rules, ids, items, b, lo, hi, x, base);
        PartOfElem(rules, ids, base, b, f);
    }
  }

  lemma {:induction false} PartOfSeq(rules: Rules, ids: Ids, items: seq<Item>, es: seq<Elem>, f: Elem)
    requires HasSeq(rules, ids, items, es) && IsPartOfSeq(f, es)
    ensures exists its :: HasElem(rules, ids, its, f)
    decreases es, 0
  {
    var n := |es| - 1;
    var k :| 0 <= k <= |items| && HasSeqCut(rules, ids, items, es, k);
    var i :| 0 <= i < |es| && IsPart(f, es[i]);
    if i == n {
      PartOfElem(rules, ids, items[k..], es[n], f);
    } else {
      assert es[..n][i] == es[i];
      PartOfSeq(rules, ids, items[..k], es[..n], f);
    }
  }

  lemma {:induction false} PartOfAlts(rules: Rules, ids: Ids, table: seq<Alt>, alts: seq<Branch>, f: Elem)
    requires HasAlts(rules, ids, table, alts) && IsPartOfAlts(f, alts)
    ensures exists its :: HasElem(rules, ids, its, f)
    decreases alts, 0
  {
    var i :| 0 <= i < |alts| && IsPartOfSeq(f, alts[i].elems);
    PartOfSeq(rules, ids, table[i], alts[i].elems, f);
  }

  // ----- and its loop is a left recursion -----

  lemma {:induction false} ItemVanishes(rules: Rules, x: Item)
    requires [] in FormLang(rules, [x])
    ensures x.Ref? && Nullable(rules, x.rule)
  {
    var w: Word := [];
    var k: nat :| Derives(rules, [x], w, k);
    assert [x][0] == x && [x][1..] == [];
  }

  lemma {:induction false} StarOverNothing(rules: Rules, l: nat, x: Item)
    requires IsStar(rules, l, x) && [] in FormLang(rules, [x])
    ensures LeftRecursive(rules)
  {
    ItemVanishes(rules, x);
    var alt := rules[l].alts[1];
    assert alt == [x, Ref(l)];
    assert VanishesBefore(rules, alt, 1);
    assert EdgeAt(rules, l, l, 1, 1);
    assert Edge(rules, l, l);
    var p: seq<nat> := [l, l];
    assert Cycle(rules, p);
  }

  lemma {:induction false} LoopIsLeftRecursive(rules: Rules, ids: Ids, g: Source, items: seq<Item>, e: Elem, b: Elem, lo: nat, hi: int)
    requires HasSource(rules, ids, g) && e == Rep(b, lo, hi) && hi < 0
    requires HasElem(rules, ids, items, e) && Erasable(g, b)
    ensures LeftRecursive(rules)
  {
    hide LeftRecursive;
    var x, base :| HasRep(rules, ids, items, b, lo, hi, x, base);
    var none: Word := [];
    var n: nat :| none in ElemLang(g, b, n);
    ElemLower(rules, ids, g, base, b, none, n);
    Rewrap(rules, x, base, none);
    StarOverNothing(rules, items[lo..][0].rule, x);
  }

  /** A table that represents a grammar with such a loop is left recursive, so the grammar is
      refused, although no rule of it need refer to itself. */
  lemma {:induction false} EmptyLoopIsRefused(rules: Rules, ids: Ids, g: Source)
    requires HasSource(rules, ids, g) && g.Keys <= ids.Keys && HasEmptyLoop(g)
    ensures LeftRecursive(rules)
  {
    hide LeftRecursive, Erasable, HasAlts, IsPartOfAlts;
    var x, b, lo: nat, hi :| IsEmptyLoop(g, x, b, lo, hi);
    var e := Rep(b, lo, hi);
    PartOfAlts(rules, ids, rules[ids[x]].alts, g[x], e);
    var items: seq<Item> :| HasElem(rules, ids, items, e);
    LoopIsLeftRecursive(rules, ids, g, items, e, b, lo, hi);
  }

  // ----- rules that call each other first -----

  /** `e` can begin with a call of `y`. */
  ghost predicate BeginsElem(g: Source, e: Elem, y: Name)
    decreases e, 0
  {
    match e
    case Lit(_) => false
    case Set(_) => false
    case Call(x) => x == y
    case Group(alts) => BeginsAlts(g, alts, y)
    case Rep(b, lo, hi) => hi != 0 && BeginsElem(g, b, y)
  }

  ghost predicate BeginsAt(g: Source, es: seq<Elem>, y: Name, i: nat)
    requires i < |es|
    decreases es, 0
  {
    BeginsElem(g, es[i], y) && forall j :: 0 <= j < i ==> Erasable(g, es[j])
  }

  ghost predicate BeginsSeq(g: Source, es: seq<Elem>, y: Name)
    decreases es, 1
  {
    exists i :: 0 <= i < |es| && BeginsAt(g, es, y, i)
  }

  ghost predicate BeginsAlts(g: Source, alts: seq<Branch>, y: Name)
    decreases alts, 0
  {
    exists i :: 0 <= i < |alts| && BeginsSeq(g, alts[i].elems, y)
  }

  /** Rule `x` can begin with a call of rule `y`. */
  ghost predicate Calls(g: Source, x: Name, y: Name)
  {
    x in g && y in g && BeginsAlts(g, g[x], y)
  }

  ghost predicate CallPath(g: Source, p: seq<Name>)
  {
    |p| >= 1 && forall k :: 0 <= k < |p| - 1 ==> Calls(g, p[k], p[k + 1])
  }

  /** Some rule can begin with itself, directly or through others. */
  ghost predicate HasCallCycle(g: Source)
  {
    exists p :: |p| >= 2 && CallPath(g, p) && p[0] == p[|p| - 1]
  }

  /** From `r` edges lead to `s`, at least one of them. */
  ghost predicate Leads(rules: Rules, r: nat, s: nat)
  {
    exists p :: |p| >= 2 && EdgePath(rules, p) && p[0] == r && p[|p| - 1] == s
  }

  lemma LeadsByEdge(rules: Rules, r: nat, s: nat)
    requires Edge(rules, r, s)
    ensures Leads(rules, r, s)
  {
    var p: seq<nat> := [r, s];
    assert EdgePath(rules, p);
  }

  lemma LeadsTrans(rules: Rules, r: nat, s: nat, t: nat)
    requires Leads(rules, r, s) && Leads(rules, s, t)
    ensures Leads(rules, r, t)
  {
    var p :| |p| >= 2 && EdgePath(rules, p) && p[0] == r && p[|p| - 1] == s;
    var q :| |q| >= 2 && EdgePath(rules, q) && q[0] == s && q[|q| - 1] == t;
    var pq := p + q[1..];
    forall k | 0 <= k < |pq| - 1
      ensures Edge(rules, pq[k], pq[k + 1])
    {
      if k < |p| - 1 {
        assert Edge(rules, p[k], p[k + 1]);
      } else {
        assert pq[k] == q[k - (|p| - 1)];
        assert Edge(rules, q[k - (|p| - 1)], q[k - (|p| - 1) + 1]);
      }
    }
    assert EdgePath(rules, pq);
  }

  /** `items` can begin with the rule `s`, or with one that leads to it. */
  ghost predicate OpensWith(rules: Rules, items: seq<Item>, s: nat)
  {
    exists i :: 0 <= i < |items| && OpensFrom(rules, items, s, i)
  }

  ghost predicate OpensFrom(rules: Rules, items: seq<Item>, s: nat, i: nat)
    requires i < |items|
  {
    && VanishesBefore(rules, items, i) && items[i].Ref?
    && (items[i].rule == s || Leads(rules, items[i].rule, s))
  }

  lemma OpensMeansLeads(rules: Rules, r: nat, a: nat, s: nat)
    requires r < |rules| && a < |rules[r].alts| && OpensWith(rules, rules[r].alts[a], s)
    ensures Leads(rules, r, s)
  {
    hide Leads;
    var items := rules[r].alts[a];
    var i :| 0 <= i < |items| && OpensFrom(rules, items, s, i);
    assert items[i] == Ref(items[i].rule);
    assert EdgeAt(rules, r, items[i].rule, a, i);
    LeadsByEdge(rules, r, items[i].rule);
    if items[i].rule != s {
      LeadsTrans(rules, r, items[i].rule, s);
    }
  }

  lemma OpensFirst(rules: Rules, items: seq<Item>, s: nat)
    requires items != [] && items[0].Ref? && (items[0].rule == s || Leads(rules, items[0].rule, s))
    ensures OpensWith(rules, items, s)
  {
    hide Leads;
    assert OpensFrom(rules, items, s, 0);
  }

  /** The items of an erasable element all vanish. */
  lemma {:induction false} ErasableVanishes(rules: Rules, ids: Ids, g: Source, items: seq<Item>, e: Elem)
    requires HasSource(rules, ids, g) && HasElem(rules, ids, items, e) && Erasable(g, e)
    ensures VanishesBefore(rules, items, |items|)
  {
    var none: Word := [];
    var n: nat :| none in ElemLang(g, e, n);
    ElemLower(rules, ids, g, items, e, none, n);
    AllVanish(rules, items);
  }

  lemma {:induction false} AllVanish(rules: Rules, items: seq<Item>)
    requires [] in FormLang(rules, items)
    ensures VanishesBefore(rules, items, |items|)
    decreases |items|
  {
    if items != [] {
      var none: Word := [];
      assert items == [items[0]] + items[1..];
      FormLangCat(rules, [items[0]], items[1..]);
      assert none in Cat(FormLang(rules, [items[0]]), FormLang(rules, items[1..]));
      var k: nat :| CutsAt(FormLang(rules, [items[0]]), FormLang(rules, items[1..]), none, k);
      assert none[..k] == none && none[k..] == none;
      ItemVanishes(rules, items[0]);
      AllVanish(rules, items[1..]);
      forall j | 0 <= j < |items|
        ensures items[j].Ref? && Nullable(rules, items[j].rule)
      {
        if j > 0 {
          assert items[j] == items[1..][j - 1];
        }
      }
    }
  }

  lemma {:induction false} RepOpens(rules: Rules, items: seq<Item>, x: Item, lo: nat, hi: int, s: nat)
    requires IsRepetition(rules, items, x, lo, hi) && hi != 0
    requires x.Ref? && (x.rule == s || Leads(rules, x.rule, s))
    ensures OpensWith(rules, items, s)
  {
    hide Leads, OpensWith;
    if lo > 0 {
      assert items[0] == items[..lo][0] == x;
      OpensFirst(rules, items, s);
    } else {
      assert items[lo..] == items;
      var r := items[0].rule;
      var alt := rules[r].alts[1];
      assert alt[0] == x;
      OpensFirst(rules, alt, s);
      OpensMeansLeads(rules, r, 1, s);
      OpensFirst(rules, items, s);
    }
  }

  lemma {:induction false} WrapOpens(rules: Rules, x: Item, base: seq<Item>, s: nat)
    requires Wraps(rules, x, base) && OpensWith(rules, base, s)
    ensures x.Ref? && (x.rule == s || Leads(rules, x.rule, s))
  {
    hide Leads;
    if base == [x] {
      var i :| 0 <= i < |base| && OpensFrom(rules, base, s, i);
    } else {
      assert rules[x.rule].alts[0] == base;
      OpensMeansLeads(rules, x.rule, 0, s);
    }
  }

  lemma {:induction false} ElemOpens(rules: Rules, ids: Ids, g: Source, items: seq<Item>, e: Elem, y: Name)
    requires HasSource(rules, ids, g) && HasElem(rules, ids, items, e) && BeginsElem(g, e, y) && y in ids
    ensures OpensWith(rules, items, ids[y])
    decreases e, 0
  {
    hide Leads, OpensWith;
    match e
    case Call(x) => OpensFirst(rules, items, ids[y]);
    case Group(alts) =>
      var r := items[0].rule;
      AltsOpen(rules, ids, g, r, alts, y);
      OpensFirst(rules, items, ids[y]);
    case Rep(b, lo, hi) =>
      var x, base :| HasRep(rules, ids, items, b, lo, hi, x, base);
      ElemOpens(rules, ids, g, base, b, y);
      WrapOpens(rules, x, base, ids[y]);
      RepOpens(rules, items, x, lo, hi, ids[y]);
  }

  lemma {:induction false} SeqOpens(rules: Rules, ids: Ids, g: Source, items: seq<Item>, es: seq<Elem>, y: Name)
    requires HasSource(rules, ids, g) && HasSeq(rules, ids, items, es) && BeginsSeq(g, es, y) && y in ids
    ensures OpensWith(rules, items, ids[y])
    decreases es, 1
  {
    hide Leads;
    var n := |es| - 1;
    var k :| 0 <= k <= |items| && HasSeqCut(rules, ids, items, es, k);
    var i :| 0 <= i < |es| && BeginsAt(g, es, y, i);
    if i == n {
      ElemOpens(rules, ids, g, items[k..], es[n], y);
      SeqVanishes(rules, ids, g, items[..k], es[..n]);
      var j :| 0 <= j < |items[k..]| && OpensFrom(rules, items[k..], ids[y], j);
      OpensBehind(rules, items, k, j, ids[y]);
    } else {
      assert es[..n][i] == es[i];
      assert BeginsAt(g, es[..n], y, i);
      SeqOpens(rules, ids, g, items[..k], es[..n], y);
      var j :| 0 <= j < k && OpensFrom(rules, items[..k], ids[y], j);
      assert OpensFrom(rules, items, ids[y], j);
    }
  }

  lemma OpensBehind(rules: Rules, items: seq<Item>, k: nat, j: nat, s: nat)
    requires k + j < |items| && VanishesBefore(rules, items[..k], k) && OpensFrom(rules, items[k..], s, j)
    ensures OpensWith(rules, items, s)
  {
    hide Leads, Nullable;
    forall i | 0 <= i < k + j
      ensures items[i].Ref? && Nullable(rules, items[i].rule)
    {
      if i < k {
        assert items[..k][i] == items[i];
      } else {
        assert items[k..][i - k] == items[i];
      }
    }
    assert items[k..][j] == items[k + j];
    assert OpensFrom(rules, items, s, k + j);
  }

  lemma {:induction false} SeqVanishes(rules: Rules, ids: Ids, g: Source, items: seq<Item>, es: seq<Elem>)
    requires HasSource(rules, ids, g) && HasSeq(rules, ids, items, es) && forall j :: 0 <= j < |es| ==> Erasable(g, es[j])
    ensures VanishesBefore(rules, items, |items|)
    decreases es
  {
    hide Erasable, Nullable;
    if es != [] {
      var n := |es| - 1;
      var k :| 0 <= k <= |items| && HasSeqCut(rules, ids, items, es, k);
      SeqVanishes(rules, ids, g, items[..k], es[..n]);
      ErasableVanishes(rules, ids, g, items[k..], es[n]);
      forall i | 0 <= i < |items|
        ensures items[i].Ref? && Nullable(rules, items[i].rule)
      {
        if i < k {
          assert items[..k][i] == items[i];
        } else {
          assert items[k..][i - k] == items[i];
        }
      }
    }
  }

  lemma {:induction false} AltsOpen(rules: Rules, ids: Ids, g: Source, r: nat, alts: seq<Branch>, y: Name)
    requires HasSource(rules, ids, g) && r < |rules| && HasAlts(rules, ids, rules[r].alts, alts)
    requires BeginsAlts(g, alts, y) && y in ids
    ensures Leads(rules, r, ids[y])
    decreases alts, 0
  {
    hide Leads, OpensWith;
    var i :| 0 <= i < |alts| && BeginsSeq(g, alts[i].elems, y);
    SeqOpens(rules, ids, g, rules[r].alts[i], alts[i].elems, y);
    OpensMeansLeads(rules, r, i, ids[y]);
  }

  lemma {:induction false} CallsLead(rules: Rules, ids: Ids, g: Source, p: seq<Name>)
    requires HasSource(rules, ids, g) && g.Keys <= ids.Keys && |p| >= 2 && CallPath(g, p)
    ensures p[0] in ids && p[|p| - 1] in ids && Leads(rules, ids[p[0]], ids[p[|p| - 1]])
    decreases |p|
  {
    hide Leads, HasAlts, BeginsAlts;
    var n := |p| - 1;
    assert Calls(g, p[n - 1], p[n - 1 + 1]);
    AltsOpen(rules, ids, g, ids[p[n - 1]], g[p[n - 1]], p[n]);
    if n > 1 {
      assert CallPath(g, p[..n]);
      CallsLead(rules, ids, g, p[..n]);
      LeadsTrans(rules, ids[p[0]], ids[p[n - 1]], ids[p[n]]);
    }
  }

  /** A grammar in which a rule can begin with itself is refused. */
  lemma {:induction false} CallCycleIsRefused(rules: Rules, ids: Ids, g: Source)
    requires HasSource(rules, ids, g) && g.Keys <= ids.Keys && HasCallCycle(g)
    ensures LeftRecursive(rules)
  {
    hide HasSource;
    var p :| |p| >= 2 && CallPath(g, p) && p[0] == p[|p| - 1];
    CallsLead(rules, ids, g, p);
    var q :| |q| >= 2 && EdgePath(rules, q) && q[0] == ids[p[0]] && q[|q| - 1] == ids[p[0]];
    assert Cycle(rules, q);
  }

  // ----- and nothing else is refused -----

  predicate Earlier(n: nat, x: Item)
  {
    x.Ref? ==> x.rule < n
  }

  predicate AllEarlier(n: nat, alts: seq<Alt>)
  {
    forall a, i :: 0 <= a < |alts| && 0 <= i < |alts[a]| ==> Earlier(n, alts[a][i])
  }

  /** The alternatives of a loop with the number `n`. */
  predicate LoopAlts(n: nat, alts: seq<Alt>)
  {
    |alts| == 2 && alts[0] == [] && |alts[1]| == 2 && alts[1][1] == Ref(n) && Earlier(n, alts[1][0])
  }

  /** Synthetic rules refer to earlier ones; only loops refer to themselves. */
  predicate Layered(rules: Rules)
  {
    forall r :: 0 <= r < |rules| && rules[r].name == [] ==> AllEarlier(r, rules[r].alts) || LoopAlts(r, rules[r].alts)
  }

  predicate IsLoop(rules: Rules, l: nat)
  {
    IsSynthetic(rules, l) && LoopAlts(l, rules[l].alts)
  }

  /** The loop `l` was made for the unbounded repetition `e`. */
  ghost predicate MadeFor(rules: Rules, ids: Ids, l: nat, e: Elem, x: Item, base: seq<Item>)
  {
    e.Rep? && e.hi < 0 && IsStar(rules, l, x) && HasElem(rules, ids, base, e.elem) && Wraps(rules, x, base)
  }

  ghost predicate IsLoopOf(rules: Rules, ids: Ids, l: nat, e: Elem)
  {
    exists x, base :: MadeFor(rules, ids, l, e, x, base)
  }

  /** Every loop from number `n` on was made for one of `parts`. */
  ghost predicate LoopsIn(rules: Rules, ids: Ids, n: nat, parts: iset<Elem>)
  {
    forall l: nat :: n <= l && IsLoop(rules, l) ==> LoopIn(rules, ids, l, parts)
  }

  ghost predicate LoopIn(rules: Rules, ids: Ids, l: nat, parts: iset<Elem>)
  {
    exists e :: e in parts && IsLoopOf(rules, ids, l, e)
  }

  ghost function ElemParts(e: Elem): iset<Elem>
  {
    iset f | IsPart(f, e)
  }

  ghost function SeqParts(es: seq<Elem>): iset<Elem>
  {
    iset f | IsPartOfSeq(f, es)
  }

  ghost function AltsParts(alts: seq<Branch>): iset<Elem>
  {
    iset f | IsPartOfAlts(f, alts)
  }

  ghost function SourceParts(g: Source): iset<Elem>
  {
    iset x, f | x in g && IsPartOfAlts(f, g[x]) :: f
  }

  ghost predicate NamesOk(rules: Rules, ids: Ids)
  {
    && (forall x :: x in ids ==> ids[x] < |rules| && rules[ids[x]].name == x != [])
    && forall r: nat :: r < |rules| && rules[r].name != [] ==> rules[r].name in ids && ids[rules[r].name] == r
  }

  lemma {:induction false} VanishingIsErasable(rules: Rules, ids: Ids, g: Source, items: seq<Item>, e: Elem)
    requires HasSource(rules, ids, g) && HasElem(rules, ids, items, e) && VanishesBefore(rules, items, |items|)
    ensures Erasable(g, e)
  {
    FormVanishes(rules, items);
    var none: Word := [];
    var k: nat :| Derives(rules, items, none, k);
    ElemUpper(rules, ids, g, items, e, none, k);
  }

  lemma {:induction false} VanishingSeq(rules: Rules, ids: Ids, g: Source, items: seq<Item>, es: seq<Elem>, j: nat)
    requires HasSource(rules, ids, g) && HasSeq(rules, ids, items, es) && VanishesBefore(rules, items, |items|) && j < |es|
    ensures Erasable(g, es[j])
    decreases es
  {
    hide Erasable, Nullable;
    var n := |es| - 1;
    var k :| 0 <= k <= |items| && HasSeqCut(rules, ids, items, es, k);
    if j == n {
      VanishingIsErasable(rules, ids, g, items[k..], es[n]);
    } else {
      assert es[..n][j] == es[j];
      VanishingSeq(rules, ids, g, items[..k], es[..n], j);
    }
  }

  /** A path of edges through synthetic rules to the named rule `y`. */
  ghost predicate Trail(rules: Rules, ids: Ids, q: seq<nat>, y: Name)
  {
    && EdgePath(rules, q) && y in ids && q[|q| - 1] == ids[y]
    && forall k :: 0 <= k < |q| - 1 ==> IsSynthetic(rules, q[k])
  }

  lemma TrailNext(rules: Rules, ids: Ids, q: seq<nat>, y: Name) returns (a: nat, i: nat)
    requires NamesOk(rules, ids) && Trail(rules, ids, q, y) && IsSynthetic(rules, q[0])
    ensures |q| >= 2 && Trail(rules, ids, q[1..], y) && EdgeAt(rules, q[0], q[1], a, i)
  {
    hide EdgeAt;
    assert Edge(rules, q[0], q[0 + 1]);
    a, i :| EdgeAt(rules, q[0], q[1], a, i);
    var t := q[1..];
    forall k | 0 <= k < |t| - 1
      ensures Edge(rules, t[k], t[k + 1]) && IsSynthetic(rules, t[k])
    {
      assert Edge(rules, q[k + 1], q[k + 1 + 1]) && IsSynthetic(rules, q[k + 1]);
    }
  }

  ghost predicate IsCopy(rules: Rules, r: nat, x: Item)
  {
    x == Ref(r) || IsStar(rules, r, x) || exists m: nat :: IsOpt(rules, r, x, m)
  }

  lemma {:induction false} CopyNext(rules: Rules, r: nat, x: Item, s: nat, a: nat, i: nat)
    requires IsCopy(rules, r, x) && x != Ref(r) && EdgeAt(rules, r, s, a, i)
    ensures IsSynthetic(rules, r) && IsCopy(rules, s, x)
  {
    if IsStar(rules, r, x) {
      assert rules[r].alts[1] == [x, Ref(r)];
    } else {
      var m: nat :| IsOpt(rules, r, x, m);
      if m > 1 {
        var t :| 0 <= t < |rules| && rules[r].alts == [[], [x, Ref(t)]] && IsOpt(rules, t, x, m - 1);
        assert rules[r].alts[1] == [x, Ref(t)];
      } else {
        assert rules[r].alts[1] == [x];
      }
    }
  }

  lemma {:induction false} RepItems(rules: Rules, items: seq<Item>, x: Item, lo: nat, hi: int, i: nat, r: nat)
    requires IsRepetition(rules, items, x, lo, hi) && i < |items| && items[i] == Ref(r)
    ensures hi != 0 && IsCopy(rules, r, x)
  {
    if i < lo {
      assert items[..lo][i] == items[i];
      CopiesAre(x, lo, i);
    } else {
      assert items[lo..][i - lo] == items[i];
    }
  }

  lemma {:induction false} CopiesAre(x: Item, n: nat, i: nat)
    requires i < |CopiesOf(x, n)|
    ensures CopiesOf(x, n)[i] == x
    decreases n
  {
    if i > 0 {
      CopiesAre(x, n - 1, i - 1);
    }
  }

  lemma {:induction false} CopyBegins(rules: Rules, ids: Ids, g: Source, x: Item, base: seq<Item>, b: Elem, q: seq<nat>, y: Name)
    requires NamesOk(rules, ids) && HasSource(rules, ids, g) && HasElem(rules, ids, base, b) && Wraps(rules, x, base)
    requires Trail(rules, ids, q, y) && IsCopy(rules, q[0], x)
    ensures BeginsElem(g, b, y)
    decreases |q|, b, 1
  {
    hide IsCopy;
    if x == Ref(q[0]) {
      if base == [x] {
        ElemBegins(rules, ids, g, base, b, 0, q, y);
      } else {
        var a, i := TrailNext(rules, ids, q, y);
        assert rules[q[0]].alts[0] == base;
        ElemBegins(rules, ids, g, base, b, i, q[1..], y);
      }
    } else {
      CopyIsSynthetic(rules, q[0], x);
      var a, i := TrailNext(rules, ids, q, y);
      CopyNext(rules, q[0], x, q[1], a, i);
      CopyBegins(rules, ids, g, x, base, b, q[1..], y);
    }
  }

  lemma CopyIsSynthetic(rules: Rules, r: nat, x: Item)
    requires IsCopy(rules, r, x) && x != Ref(r)
    ensures IsSynthetic(rules, r)
  {
  }

  lemma {:induction false} ElemBegins(rules: Rules, ids: Ids, g: Source, items: seq<Item>, e: Elem, i: nat, q: seq<nat>, y: Name)
    requires NamesOk(rules, ids) && HasSource(rules, ids, g) && HasElem(rules, ids, items, e)
    requires i < |items| && VanishesBefore(rules, items, i) && Trail(rules, ids, q, y) && items[i] == Ref(q[0])
    ensures BeginsElem(g, e, y)
    decreases |q|, e, 0
  {
    hide Nullable, IsCopy, IsRepetition;
    match e
    case Lit(cps) => LitHasChars(cps, i);
    case Set(cs) =>
    case Call(x) =>
      assert !IsSynthetic(rules, q[0]);
      assert |q| == 1;
    case Group(alts) =>
      var a, j := TrailNext(rules, ids, q, y);
      SeqBegins(rules, ids, g, rules[q[0]].alts[a], alts[a].elems, j, q[1..], y);
    case Rep(b, lo, hi) =>
      var x, base :| HasRep(rules, ids, items, b, lo, hi, x, base);
      RepItems(rules, items, x, lo, hi, i, q[0]);
      CopyBegins(rules, ids, g, x, base, b, q, y);
  }

  lemma {:induction false} LitHasChars(cps: Word, i: nat)
    requires i < |LitItems(cps)|
    ensures LitItems(cps)[i].Chars?
    decreases |cps|
  {
    if i < |LitItems(cps[..|cps| - 1])| {
      LitHasChars(cps[..|cps| - 1], i);
    }
  }

  lemma {:induction false} SeqBegins(rules: Rules, ids: Ids, g: Source, items: seq<Item>, es: seq<Elem>, i: nat, q: seq<nat>, y: Name)
    requires NamesOk(rules, ids) && HasSource(rules, ids, g) && HasSeq(rules, ids, items, es)
    requires i < |items| && VanishesBefore(rules, items, i) && Trail(rules, ids, q, y) && items[i] == Ref(q[0])
    ensures BeginsSeq(g, es, y)
    decreases |q|, es, 2
  {
    hide Nullable, Erasable, Trail, EdgePath;
    var n := |es| - 1;
    var k :| 0 <= k <= |items| && HasSeqCut(rules, ids, items, es, k);
    if i < k {
      assert items[..k][i] == items[i];
      SeqBegins(rules, ids, g, items[..k], es[..n], i, q, y);
      var j :| 0 <= j < n && BeginsAt(g, es[..n], y, j);
      assert es[..n][j] == es[j];
      assert BeginsAt(g, es, y, j);
    } else {
      assert items[k..][i - k] == items[i];
      ElemBegins(rules, ids, g, items[k..], es[n], i - k, q, y);
      forall j | 0 <= j < n
        ensures Erasable(g, es[j])
      {
        assert es[..n][j] == es[j];
        VanishingSeq(rules, ids, g, items[..k], es[..n], j);
      }
      assert BeginsAt(g, es, y, n);
    }
  }

  /** From one named rule to the next: the first calls the second at its beginning. */
  lemma {:induction false} SegmentCalls(rules: Rules, ids: Ids, g: Source, x: Name, q: seq<nat>, y: Name)
    requires NamesOk(rules, ids) && HasSource(rules, ids, g) && x in ids && q != [] && Edge(rules, ids[x], q[0])
    requires Trail(rules, ids, q, y)
    ensures Calls(g, x, y)
  {
    hide NamesOk, HasSeq, Nullable;
    var r := ids[x];
    var a: nat, i: nat :| EdgeAt(rules, r, q[0], a, i);
    SeqBegins(rules, ids, g, rules[r].alts[a], g[x][a].elems, i, q, y);
    assert BeginsAlts(g, g[x], y);
  }

  /** The first named rule behind the start of a path. */
  lemma {:induction false} FirstNamed(rules: Rules, ids: Ids, p: seq<nat>, y: Name) returns (k: nat, z: Name)
    requires NamesOk(rules, ids) && EdgePath(rules, p) && |p| >= 2 && y in ids && p[|p| - 1] == ids[y]
    ensures 1 <= k < |p| && z in ids && p[k] == ids[z] && Trail(rules, ids, p[1..k + 1], z)
  {
    k := 1;
    while IsSynthetic(rules, p[k])
      invariant 1 <= k < |p| && forall j :: 1 <= j < k ==> IsSynthetic(rules, p[j])
      decreases |p| - k
    {
      k := k + 1;
    }
    if k < |p| - 1 {
      assert Edge(rules, p[k], p[k + 1]);
    }
    z := rules[p[k]].name;
    var q := p[1..k + 1];
    forall j | 0 <= j < |q| - 1
      ensures Edge(rules, q[j], q[j + 1]) && IsSynthetic(rules, q[j])
    {
      assert Edge(rules, p[j + 1], p[j + 1 + 1]);
    }
  }

  lemma {:induction false} PathCalls(rules: Rules, ids: Ids, g: Source, x: Name, p: seq<nat>, y: Name) returns (c: seq<Name>)
    requires NamesOk(rules, ids) && HasSource(rules, ids, g) && x in ids && y in ids
    requires EdgePath(rules, p) && |p| >= 2 && p[0] == ids[x] && p[|p| - 1] == ids[y]
    ensures |c| >= 2 && CallPath(g, c) && c[0] == x && c[|c| - 1] == y
    decreases |p|
  {
    hide Trail, HasSource, Calls;
    var k, z := FirstNamed(rules, ids, p, y);
    assert Edge(rules, p[0], p[0 + 1]);
    SegmentCalls(rules, ids, g, x, p[1..k + 1], z);
    if k == |p| - 1 {
      assert rules[ids[z]].name == z && rules[ids[y]].name == y;
      c := [x, y];
    } else {
      PathTail(rules, p, k);
      var rest := PathCalls(rules, ids, g, z, p[k..], y);
      c := [x] + rest;
      forall j | 0 <= j < |c| - 1
        ensures Calls(g, c[j], c[j + 1])
      {
        if j > 0 {
          assert Calls(g, rest[j - 1], rest[j - 1 + 1]);
        }
      }
    }
  }

  lemma PathTail(rules: Rules, p: seq<nat>, k: nat)
    requires EdgePath(rules, p) && k < |p|
    ensures EdgePath(rules, p[k..])
  {
    hide Edge;
    var t := p[k..];
    forall j | 0 <= j < |t| - 1
      ensures Edge(rules, t[j], t[j + 1])
    {
      assert Edge(rules, p[k + j], p[k + j + 1]);
    }
  }

  /** A cycle can be entered anywhere. */
  lemma Rotate(rules: Rules, p: seq<nat>, m: nat) returns (q: seq<nat>)
    requires Cycle(rules, p) && m < |p|
    ensures Cycle(rules, q) && q[0] == p[m]
  {
    hide Edge;
    q := p[m..] + p[1..m + 1];
    forall j | 0 <= j < |q| - 1
      ensures Edge(rules, q[j], q[j + 1])
    {
      if j < |p| - m - 1 {
        assert Edge(rules, p[m + j], p[m + j + 1]);
      } else {
        var i := j - (|p| - m - 1);
        assert Edge(rules, p[i], p[i + 1]);
      }
    }
  }

  lemma {:induction false} EdgeGoesDown(rules: Rules, r: nat, s: nat)
    requires Layered(rules) && IsSynthetic(rules, r) && IsSynthetic(rules, s) && Edge(rules, r, s)
    ensures s <= r
  {
    var a: nat, i: nat :| EdgeAt(rules, r, s, a, i);
    if AllEarlier(r, rules[r].alts) {
      assert Earlier(r, rules[r].alts[a][i]);
    }
  }

  lemma {:induction false} PathGoesDown(rules: Rules, p: seq<nat>, k: nat)
    requires Layered(rules) && EdgePath(rules, p) && (forall j :: 0 <= j < |p| ==> IsSynthetic(rules, p[j])) && k < |p|
    ensures p[k] <= p[0]
    decreases k
  {
    hide Layered, Edge;
    if k > 0 {
      PathGoesDown(rules, p, k - 1);
      assert Edge(rules, p[k - 1], p[k - 1 + 1]);
      EdgeGoesDown(rules, p[k - 1], p[k]);
    }
  }

  lemma {:induction false} SelfEdgeIsLoop(rules: Rules, l: nat) returns (x: Item)
    requires Layered(rules) && IsSynthetic(rules, l) && Edge(rules, l, l)
    ensures IsLoop(rules, l) && x == rules[l].alts[1][0] && x.Ref? && Nullable(rules, x.rule)
  {
    var a: nat, i: nat :| EdgeAt(rules, l, l, a, i);
    assert !Earlier(l, rules[l].alts[a][i]);
    assert a == 1 && i == 1;
    x := rules[l].alts[1][0];
  }

  lemma {:induction false} LoopIsWritten(rules: Rules, ids: Ids, g: Source, l: nat, x: Item)
    requires HasSource(rules, ids, g) && LoopsIn(rules, ids, 0, SourceParts(g))
    requires IsLoop(rules, l) && x == rules[l].alts[1][0] && x.Ref? && Nullable(rules, x.rule)
    ensures HasEmptyLoop(g)
  {
    assert LoopIn(rules, ids, l, SourceParts(g));
    var e :| e in SourceParts(g) && IsLoopOf(rules, ids, l, e);
    var name :| name in g && IsPartOfAlts(e, g[name]);
    var x', base :| MadeFor(rules, ids, l, e, x', base);
    assert x == [x', Ref(l)][0];
    ErasableBase(rules, ids, g, x, base, e.elem);
    assert e == Rep(e.elem, e.lo, e.hi);
    assert IsEmptyLoop(g, name, e.elem, e.lo, e.hi);
  }

  lemma {:induction false} ErasableBase(rules: Rules, ids: Ids, g: Source, x: Item, base: seq<Item>, b: Elem)
    requires HasSource(rules, ids, g) && HasElem(rules, ids, base, b) && Wraps(rules, x, base)
    requires x.Ref? && Nullable(rules, x.rule)
    ensures Erasable(g, b)
  {
    hide HasSource;
    var one, none: Word := [x], [];
    assert VanishesBefore(rules, one, 1);
    FormVanishes(rules, one);
    var k: nat :| Derives(rules, one, none, k);
    Unwrap(rules, x, base, none, k);
    ElemUpper(rules, ids, g, base, b, none, k);
  }

  /** A table made from a grammar is left recursive exactly if, as written, some rule can
      begin with itself or something that can be empty is repeated without bound. */
  lemma {:induction false} LeftRecursiveIff(rules: Rules, ids: Ids, g: Source)
    requires NamesOk(rules, ids) && HasSource(rules, ids, g) && g.Keys <= ids.Keys
    requires Layered(rules) && LoopsIn(rules, ids, 0, SourceParts(g))
    ensures LeftRecursive(rules) <==> HasCallCycle(g) || HasEmptyLoop(g)
  {
    if HasCallCycle(g) {
      CallCycleIsRefused(rules, ids, g);
    } else if HasEmptyLoop(g) {
      EmptyLoopIsRefused(rules, ids, g);
    }
    if LeftRecursive(rules) {
      var p :| Cycle(rules, p);
      CycleIsWritten(rules, ids, g, p);
    }
  }

  lemma {:induction false} CycleIsWritten(rules: Rules, ids: Ids, g: Source, p: seq<nat>)
    requires NamesOk(rules, ids) && HasSource(rules, ids, g) && Layered(rules) && LoopsIn(rules, ids, 0, SourceParts(g))
    requires Cycle(rules, p)
    ensures HasCallCycle(g) || HasEmptyLoop(g)
  {
    hide HasEmptyLoop, HasSource, Layered, LoopsIn, Edge, Nullable;
    CycleInTable(rules, p);
    if m :| 0 <= m < |p| && !IsSynthetic(rules, p[m]) {
      var q := Rotate(rules, p, m);
      var x := rules[p[m]].name;
      var c := PathCalls(rules, ids, g, x, q, x);
    } else {
      assert Edge(rules, p[0], p[0 + 1]);
      EdgeGoesDown(rules, p[0], p[1]);
      PathTail(rules, p, 1);
      PathGoesDown(rules, p[1..], |p| - 2);
      var x := SelfEdgeIsLoop(rules, p[0]);
      LoopIsWritten(rules, ids, g, p[0], x);
    }
  }

  lemma CycleInTable(rules: Rules, p: seq<nat>)
    requires Cycle(rules, p)
    ensures forall k :: 0 <= k < |p| ==> p[k] < |rules|
  {
    forall k | 0 <= k < |p|
      ensures p[k] < |rules|
    {
      var j := if k == |p| - 1 then 0 else k;
      assert Edge(rules, p[j], p[j + 1]);
    }
  }

  // ----- loops while the table grows -----

  lemma {:induction false} LoopKept(rules: Rules, ids: Ids, rules': Rules, ids': Ids, l: nat, e: Elem)
    requires Keeps(rules, rules') && Submap(ids, ids') && IsLoopOf(rules, ids, l, e)
    ensures IsLoopOf(rules', ids', l, e)
  {
    var x, base :| MadeFor(rules, ids, l, e, x, base);
    ElemKept(rules, ids, rules', ids', base, e.elem);
    assert MadeFor(rules', ids', l, e, x, base);
  }

  /** Earlier loops stay where they are, later ones join them. */
  lemma {:induction false} LoopsJoin(rules: Rules, ids: Ids, rules': Rules, ids': Ids, n: nat,
                                     p: iset<Elem>, q: iset<Elem>, all: iset<Elem>)
    requires Keeps(rules, rules') && Submap(ids, ids') && p <= all && q <= all
    requires LoopsIn(rules, ids, n, p) && LoopsIn(rules', ids', |rules|, q)
    ensures LoopsIn(rules', ids', n, all)
  {
    hide IsLoopOf;
    forall l: nat | n <= l && IsLoop(rules', l)
      ensures LoopIn(rules', ids', l, all)
    {
      if l < |rules| {
        assert IsLoop(rules, l);
        assert LoopIn(rules, ids, l, p);
        var e :| e in p && IsLoopOf(rules, ids, l, e);
        LoopKept(rules, ids, rules', ids', l, e);
      } else {
        assert LoopIn(rules', ids', l, q);
      }
    }
  }

  lemma NoLoopsYet(rules: Rules, ids: Ids, parts: iset<Elem>)
    ensures LoopsIn(rules, ids, |rules|, parts)
  {
  }

  lemma {:induction false} RepParts(e: Elem, lo: nat, hi: int)
    ensures ElemParts(e) <= ElemParts(Rep(e, lo, hi)) && Rep(e, lo, hi) in ElemParts(Rep(e, lo, hi))
  {
  }

  lemma {:induction false} GroupParts(alts: seq<Branch>)
    ensures AltsParts(alts) <= ElemParts(Group(alts))
  {
  }

  lemma {:induction false} SeqPartsGrow(es: seq<Elem>, e: Elem)
    ensures SeqParts(es) <= SeqParts(es + [e]) && ElemParts(e) <= SeqParts(es + [e])
  {
    var es' := es + [e];
    forall f | f in SeqParts(es)
      ensures f in SeqParts(es')
    {
      var i :| 0 <= i < |es| && IsPart(f, es[i]);
      assert es'[i] == es[i];
    }
    assert es'[|es|] == e;
  }

  lemma {:induction false} AltsPartsGrow(alts: seq<Branch>, es: seq<Elem>)
    ensures AltsParts(alts) <= AltsParts(alts + [Branch(es)]) && SeqParts(es) <= AltsParts(alts + [Branch(es)])
  {
    var alts' := alts + [Branch(es)];
    forall f | f in AltsParts(alts)
      ensures f in AltsParts(alts')
    {
      var i :| 0 <= i < |alts| && IsPartOfSeq(f, alts[i].elems);
      assert alts'[i] == alts[i];
    }
    assert alts'[|alts|] == Branch(es);
  }

  lemma {:induction false} SourcePartsGrow(g: Source, x: Name, alts: seq<Branch>)
    requires x !in g
    ensures SourceParts(g) <= SourceParts(g[x := alts]) && AltsParts(alts) <= SourceParts(g[x := alts])
  {
    var g' := g[x := alts];
    forall f | f in SourceParts(g)
      ensures f in SourceParts(g')
    {
      var y :| y in g && IsPartOfAlts(f, g[y]);
      assert y in g' && g'[y] == g[y];
    }
    assert g'[x] == alts;
  }
}
