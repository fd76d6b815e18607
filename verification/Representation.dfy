/** How a rule table represents a written grammar, and that the two have the same
    language. */
module Representation {
  import opened CharSets
  import opened Languages
  import opened Grammar
  import opened GbnfSyntax
  import opened Desugaring

  type Ids = map<Name, nat>

  function LitItems(cps: Word): seq<Item>
  {
    if cps == [] then [] else LitItems(cps[..|cps| - 1]) + [CharItem(cps[|cps| - 1])]
  }

  function CharItem(c: uint32): Item
  {
    Chars(CharSet([Range(c, c)], false))
  }

  /** `x` is the item of an element that has just one, otherwise a synthetic rule wrapping
      its items. */
  predicate Wraps(rules: Rules, x: Item, items: seq<Item>)
  {
    || items == [x]
    || (|items| != 1 && x.Ref? && IsSynthetic(rules, x.rule) && rules[x.rule].alts == [items])
  }

  /** `items` is the desugared form of element `e` in the table. */
  ghost predicate HasElem(rules: Rules, ids: Ids, items: seq<Item>, e: Elem)
    decreases e, 0
  {
    match e
    case Lit(cps) => items == LitItems(cps)
    case Set(cs) => items == [Chars(cs)]
    case Call(x) => x in ids && items == [Ref(ids[x])]
    case Group(alts) =>
      && |items| == 1 && items[0].Ref? && IsSynthetic(rules, items[0].rule)
      && HasAlts(rules, ids, rules[items[0].rule].alts, alts)
    case Rep(b, lo, hi) => exists x, base :: HasRep(rules, ids, items, b, lo, hi, x, base)
  }

  ghost predicate HasRep(rules: Rules, ids: Ids, items: seq<Item>, b: Elem, lo: nat, hi: int, x: Item, base: seq<Item>)
    decreases b, 1
  {
    HasElem(rules, ids, base, b) && Wraps(rules, x, base) && IsRepetition(rules, items, x, lo, hi)
  }

  ghost predicate HasSeq(rules: Rules, ids: Ids, items: seq<Item>, es: seq<Elem>)
    decreases es, 1
  {
    if es == [] then items == []
    else exists k :: 0 <= k <= |items| && HasSeqCut(rules, ids, items, es, k)
  }

  ghost predicate HasSeqCut(rules: Rules, ids: Ids, items: seq<Item>, es: seq<Elem>, k: nat)
    requires es != [] && k <= |items|
    decreases es, 0
  {
    HasSeq(rules, ids, items[..k], es[..|es| - 1]) && HasElem(rules, ids, items[k..], es[|es| - 1])
  }

  ghost predicate HasAlts(rules: Rules, ids: Ids, table: seq<Alt>, alts: seq<Branch>)
    decreases alts, 0
  {
    |table| == |alts| && forall i :: 0 <= i < |alts| ==> HasSeq(rules, ids, table[i], alts[i].elems)
  }

  /** The table represents the whole grammar `g`: every known name is a defined rule
      whose alternatives are represented. */
  ghost predicate HasSource(rules: Rules, ids: Ids, g: Source)
  {
    forall x :: x in ids ==> x in g && ids[x] < |rules| && HasAlts(rules, ids, rules[ids[x]].alts, g[x])
  }

  // ----- the representation survives the growth of the table -----

  /** Synthetic rules are never changed once made; named ones keep their name. */
  ghost predicate Keeps(rules: Rules, rules': Rules)
  {
    && |rules| <= |rules'|
    && forall r :: 0 <= r < |rules| ==>
         rules'[r].name == rules[r].name && (rules[r].name == [] ==> rules'[r] == rules[r])
  }

  ghost predicate Submap(a: Ids, b: Ids)
  {
    forall x :: x in a ==> x in b && b[x] == a[x]
  }

  lemma {:induction false} OptKept(rules: Rules, rules': Rules, t: nat, x: Item, m: nat)
    requires Keeps(rules, rules') && IsOpt(rules, t, x, m)
    ensures IsOpt(rules', t, x, m)
    decreases m
  {
    if m > 1 {
      var t' :| 0 <= t' < |rules| && rules[t].alts == [[], [x, Ref(t')]] && IsOpt(rules, t', x, m - 1);
      OptKept(rules, rules', t', x, m - 1);
    }
  }

  lemma RepetitionKept(rules: Rules, rules': Rules, items: seq<Item>, x: Item, lo: nat, hi: int)
    requires Keeps(rules, rules') && IsRepetition(rules, items, x, lo, hi)
    ensures IsRepetition(rules', items, x, lo, hi)
  {
    if hi > lo {
      OptKept(rules, rules', items[lo..][0].rule, x, hi - lo);
    }
  }

  lemma {:induction false} ElemKept(rules: Rules, ids: Ids, rules': Rules, ids': Ids, items: seq<Item>, e: Elem)
    requires Keeps(rules, rules') && Submap(ids, ids') && HasElem(rules, ids, items, e)
    ensures HasElem(rules', ids', items, e)
    decreases e, 0
  {
    match e
    case Lit(cps) =>
    case Set(cs) =>
    case Call(x) =>
    case Group(alts) => AltsKept(rules, ids, rules', ids', rules[items[0].rule].alts, alts);
    case Rep(b, lo, hi) =>
      var x, base :| HasRep(rules, ids, items, b, lo, hi, x, base);
      ElemKept(rules, ids, rules', ids', base, b);
      RepetitionKept(rules, rules', items, x, lo, hi);
      assert HasRep(rules', ids', items, b, lo, hi, x, base);
  }

  lemma {:induction false} SeqKept(rules: Rules, ids: Ids, rules': Rules, ids': Ids, items: seq<Item>, es: seq<Elem>)
    requires Keeps(rules, rules') && Submap(ids, ids') && HasSeq(rules, ids, items, es)
    ensures HasSeq(rules', ids', items, es)
    decreases es, 0
  {
    if es != [] {
      var k :| 0 <= k <= |items| && HasSeqCut(rules, ids, items, es, k);
      SeqKept(rules, ids, rules', ids', items[..k], es[..|es| - 1]);
      ElemKept(rules, ids, rules', ids', items[k..], es[|es| - 1]);
      assert HasSeqCut(rules', ids', items, es, k);
    }
  }

  lemma {:induction false} AltsKept(rules: Rules, ids: Ids, rules': Rules, ids': Ids, table: seq<Alt>, alts: seq<Branch>)
    requires Keeps(rules, rules') && Submap(ids, ids') && HasAlts(rules, ids, table, alts)
    ensures HasAlts(rules', ids', table, alts)
    decreases alts, 0
  {
    forall i | 0 <= i < |alts|
      ensures HasSeq(rules', ids', table[i], alts[i].elems)
    {
      SeqKept(rules, ids, rules', ids', table[i], alts[i].elems);
    }
  }

  // ----- table derivations stay inside the written language -----

  lemma {:induction false} CharItemDerives(rules: Rules, cs: CharSet, w: Word, k: nat)
    requires Derives(rules, [Chars(cs)], w, k)
    ensures IsMember(cs, w)
  {
    assert [Chars(cs)][0] == Chars(cs) && [Chars(cs)][1..] == [];
  }

  lemma {:induction false} DerivesCharItem(rules: Rules, cs: CharSet, w: Word)
    requires IsMember(cs, w)
    ensures Derives(rules, [Chars(cs)], w, 1)
  {
    assert [Chars(cs)][0] == Chars(cs) && [Chars(cs)][1..] == [] && w[1..] == [];
  }

  lemma {:induction false} LitUpper(rules: Rules, cps: Word, w: Word, k: nat)
    requires Derives(rules, LitItems(cps), w, k)
    ensures w == cps
    decreases |cps|
  {
    if cps != [] {
      var n := |cps| - 1;
      var j := DerivesSplit(rules, LitItems(cps[..n]), [CharItem(cps[n])], w, k);
      LitUpper(rules, cps[..n], w[..j], k);
      CharItemDerives(rules, CharItem(cps[n]).cs, w[j..], k);
      assert w == w[..j] + w[j..];
    }
  }

  lemma {:induction false} LitLower(rules: Rules, cps: Word)
    ensures cps in FormLang(rules, LitItems(cps))
    decreases |cps|
  {
    if cps == [] {
      FormLangEmpty(rules);
    } else {
      var n := |cps| - 1;
      LitLower(rules, cps[..n]);
      assert InRange(CharItem(cps[n]).cs.ranges[0], cps[n]);
      DerivesCharItem(rules, CharItem(cps[n]).cs, [cps[n]]);
      FormLangCat(rules, LitItems(cps[..n]), [CharItem(cps[n])]);
      CatIntro(FormLang(rules, LitItems(cps[..n])), FormLang(rules, [CharItem(cps[n])]), cps[..n], [cps[n]]);
      assert cps == cps[..n] + [cps[n]];
    }
  }

  lemma {:induction false} ElemUpper(rules: Rules, ids: Ids, g: Source, items: seq<Item>, e: Elem, w: Word, k: nat)
    requires HasSource(rules, ids, g) && HasElem(rules, ids, items, e) && Derives(rules, items, w, k)
    ensures w in ElemLang(g, e, k)
    decreases k, e, 0
  {
    match e
    case Lit(cps) => LitUpper(rules, cps, w, k);
    case Set(cs) => CharItemDerives(rules, cs, w, k);
    case Call(x) =>
      var a := DerivesRule(rules, items, ids[x], w, k);
      SeqUpper(rules, ids, g, rules[ids[x]].alts[a], g[x][a].elems, w, k - 1);
      assert InAlts(g, g[x], w, k - 1);
    case Group(alts) =>
      var r := items[0].rule;
      assert items == [Ref(r)];
      var a := DerivesRule(rules, items, r, w, k);
      DerivesMore(rules, rules[r].alts[a], w, k - 1, k);
      SeqUpper(rules, ids, g, rules[r].alts[a], alts[a].elems, w, k);
      assert InAlts(g, alts, w, k);
    case Rep(b, lo, hi) =>
      var x, base :| HasRep(rules, ids, items, b, lo, hi, x, base);
      RepetitionUpper(rules, items, x, lo, hi, w, k);
      forall u | Derives(rules, [x], u, k)
        ensures u in ElemLang(g, b, k)
      {
        Unwrap(rules, x, base, u, k);
        ElemUpper(rules, ids, g, base, b, u, k);
      }
      RepeatMonotone(StepLang(rules, [x], k), ElemLang(g, b, k), lo, hi);
  }

  lemma {:induction false} Unwrap(rules: Rules, x: Item, base: seq<Item>, u: Word, k: nat)
    requires Wraps(rules, x, base) && Derives(rules, [x], u, k)
    ensures Derives(rules, base, u, k)
  {
    if base != [x] {
      var a := DerivesRule(rules, [x], x.rule, u, k);
      DerivesMore(rules, base, u, k - 1, k);
    }
  }

  lemma {:induction false} SeqUpper(rules: Rules, ids: Ids, g: Source, items: seq<Item>, es: seq<Elem>, w: Word, k: nat)
    requires HasSource(rules, ids, g) && HasSeq(rules, ids, items, es) && Derives(rules, items, w, k)
    ensures w in SeqLang(g, es, k)
    decreases k, es, 0
  {
    if es != [] {
      var n := |es| - 1;
      var c :| 0 <= c <= |items| && HasSeqCut(rules, ids, items, es, c);
      assert items == items[..c] + items[c..];
      var j := DerivesSplit(rules, items[..c], items[c..], w, k);
      SeqUpper(rules, ids, g, items[..c], es[..n], w[..j], k);
      ElemUpper(rules, ids, g, items[c..], es[n], w[j..], k);
      CatIntro(SeqLang(g, es[..n], k), ElemLang(g, es[n], k), w[..j], w[j..]);
      assert w == w[..j] + w[j..];
    }
  }

  // ----- and reach all of it -----

  lemma {:induction false} ElemLower(rules: Rules, ids: Ids, g: Source, items: seq<Item>, e: Elem, w: Word, n: nat)
    requires HasSource(rules, ids, g) && HasElem(rules, ids, items, e) && w in ElemLang(g, e, n)
    ensures w in FormLang(rules, items)
    decreases n, e, 0
  {
    match e
    case Lit(cps) => LitLower(rules, cps);
    case Set(cs) => DerivesCharItem(rules, cs, w);
    case Call(x) =>
      assert InAlts(g, g[x], w, n - 1);
      var i :| 0 <= i < |g[x]| && w in SeqLang(g, g[x][i].elems, n - 1);
      SeqLower(rules, ids, g, rules[ids[x]].alts[i], g[x][i].elems, w, n - 1);
      AltDerivable(rules, ids[x], i, w);
    case Group(alts) =>
      var r := items[0].rule;
      assert items == [Ref(r)];
      assert InAlts(g, alts, w, n);
      var i :| 0 <= i < |alts| && w in SeqLang(g, alts[i].elems, n);
      SeqLower(rules, ids, g, rules[r].alts[i], alts[i].elems, w, n);
      AltDerivable(rules, r, i, w);
    case Rep(b, lo, hi) =>
      var x, base :| HasRep(rules, ids, items, b, lo, hi, x, base);
      forall u | u in ElemLang(g, b, n)
        ensures u in FormLang(rules, [x])
      {
        ElemLower(rules, ids, g, base, b, u, n);
        Rewrap(rules, x, base, u);
      }
      RepeatMonotone(ElemLang(g, b, n), FormLang(rules, [x]), lo, hi);
      RepetitionLower(rules, items, x, lo, hi);
  }

  lemma Rewrap(rules: Rules, x: Item, base: seq<Item>, u: Word)
    requires Wraps(rules, x, base) && u in FormLang(rules, base)
    ensures u in FormLang(rules, [x])
  {
    if base != [x] {
      AltDerivable(rules, x.rule, 0, u);
    }
  }

  lemma {:induction false} SeqLower(rules: Rules, ids: Ids, g: Source, items: seq<Item>, es: seq<Elem>, w: Word, n: nat)
    requires HasSource(rules, ids, g) && HasSeq(rules, ids, items, es) && w in SeqLang(g, es, n)
    ensures w in FormLang(rules, items)
    decreases n, es, 0
  {
    if es == [] {
      FormLangEmpty(rules);
    } else {
      var m := |es| - 1;
      var c :| 0 <= c <= |items| && HasSeqCut(rules, ids, items, es, c);
      var k: nat :| CutsAt(SeqLang(g, es[..m], n), ElemLang(g, es[m], n), w, k);
      SeqLower(rules, ids, g, items[..c], es[..m], w[..k], n);
      ElemLower(rules, ids, g, items[c..], es[m], w[k..], n);
      FormLangCat(rules, items[..c], items[c..]);
      CatIntro(FormLang(rules, items[..c]), FormLang(rules, items[c..]), w[..k], w[k..]);
      assert items == items[..c] + items[c..] && w == w[..k] + w[k..];
    }
  }

  /** Desugaring preserves meaning: every rule of the table derives exactly what the
      rule denotes as written. */
  lemma TableMeansSource(rules: Rules, ids: Ids, g: Source, x: Name)
    requires HasSource(rules, ids, g) && x in ids
    ensures RuleLang(rules, ids[x]) == SourceLang(g, x)
  {
    forall w: Word
      ensures w in RuleLang(rules, ids[x]) <==> w in SourceLang(g, x)
    {
      if w in RuleLang(rules, ids[x]) {
        var k: nat :| Derives(rules, [Ref(ids[x])], w, k);
        ElemUpper(rules, ids, g, [Ref(ids[x])], Call(x), w, k);
      }
      if w in SourceLang(g, x) {
        var n: nat :| w in ElemLang(g, Call(x), n);
        ElemLower(rules, ids, g, [Ref(ids[x])], Call(x), w, n);
      }
    }
  }
}
