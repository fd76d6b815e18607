/** Groups and repetitions as synthetic rules, and why they mean what was written. */
module Desugaring {
  import opened CharSets
  import opened Languages
  import opened Grammar
  import opened GbnfSyntax

  /** Words derivable from a form within `k` steps. */
  ghost function StepLang(rules: Rules, form: seq<Item>, k: nat): Lang<uint32>
  {
    iset w: Word | Derives(rules, form, w, k)
  }

  function CopiesOf(x: Item, n: nat): seq<Item>
  {
    if n == 0 then [] else [x] + CopiesOf(x, n - 1)
  }

  predicate IsSynthetic(rules: Rules, r: nat)
  {
    r < |rules| && rules[r].name == []
  }

  /** Rule `s` is the right-recursive loop over `x`. */
  predicate IsStar(rules: Rules, s: nat, x: Item)
  {
    IsSynthetic(rules, s) && rules[s].alts == [[], [x, Ref(s)]]
  }

  /** Rule `t` opens `m` nested optional copies of `x`. */
  predicate IsOpt(rules: Rules, t: nat, x: Item, m: nat)
    decreases m
  {
    && IsSynthetic(rules, t) && m > 0
    && if m == 1 then rules[t].alts == [[], [x]]
       else exists t' :: 0 <= t' < |rules| && rules[t].alts == [[], [x, Ref(t')]] && IsOpt(rules, t', x, m - 1)
  }

  /** `tail` stands for up to `extra` further copies of `x`; negative: any number. */
  predicate IsTail(rules: Rules, tail: seq<Item>, x: Item, extra: int)
  {
    if extra == 0 then tail == []
    else |tail| == 1 && tail[0].Ref? &&
         if extra < 0 then IsStar(rules, tail[0].rule, x) else IsOpt(rules, tail[0].rule, x, extra)
  }

  /** `items` is the desugared form of `x` repeated between `lo` and `hi` times. */
  predicate IsRepetition(rules: Rules, items: seq<Item>, x: Item, lo: nat, hi: int)
  {
    && |items| >= lo && items[..lo] == CopiesOf(x, lo)
    && (hi < 0 || lo <= hi) && IsTail(rules, items[lo..], x, if hi < 0 then -1 else hi - lo)
  }

  // ----- upper bounds, by derivation steps -----

  lemma StepLangGrows(rules: Rules, form: seq<Item>, k: nat, m: nat)
    requires k <= m
    ensures StepLang(rules, form, k) <= StepLang(rules, form, m)
  {
    forall w | w in StepLang(rules, form, k)
      ensures w in StepLang(rules, form, m)
    {
      DerivesMore(rules, form, w, k, m);
    }
  }

  lemma PairSplit(rules: Rules, x: Item, y: Item, w: Word, k: nat) returns (j: nat)
    requires Derives(rules, [x, y], w, k)
    ensures j <= |w| && Derives(rules, [x], w[..j], k) && Derives(rules, [y], w[j..], k)
  {
    assert [x, y] == [x] + [y];
    j := DerivesSplit(rules, [x], [y], w, k);
  }

  lemma {:induction false} StarUpper(rules: Rules, s: nat, x: Item, w: Word, k: nat)
    requires IsStar(rules, s, x) && Derives(rules, [Ref(s)], w, k)
    ensures w in Repeat(StepLang(rules, [x], k), 0, -1)
    decreases k
  {
    var l := StepLang(rules, [x], k);
    var a := DerivesRule(rules, [Ref(s)], s, w, k);
    RepeatNone(l, -1);
    if a == 1 {
      var j := PairSplit(rules, x, Ref(s), w, k - 1);
      StarUpper(rules, s, x, w[j..], k - 1);
      StepLangGrows(rules, [x], k - 1, k);
      RepeatMonotone(StepLang(rules, [x], k - 1), l, 0, -1);
      RepeatCons(l, 0, -1, w[..j], w[j..]);
      RepeatWider(l, 1, -1, 0, -1);
      assert w == w[..j] + w[j..];
    }
  }

  lemma {:induction false} OptUpper(rules: Rules, t: nat, x: Item, m: nat, w: Word, k: nat)
    requires IsOpt(rules, t, x, m) && Derives(rules, [Ref(t)], w, k)
    ensures w in Repeat(StepLang(rules, [x], k), 0, m)
    decreases m
  {
    var l := StepLang(rules, [x], k);
    var a := DerivesRule(rules, [Ref(t)], t, w, k);
    RepeatNone(l, m);
    StepLangGrows(rules, [x], k - 1, k);
    if a == 1 && m == 1 {
      RepeatNone(l, 0);
      RepeatCons(l, 0, 0, w, []);
      RepeatWider(l, 1, 1, 0, 1);
      assert w + [] == w;
    } else if a == 1 {
      var t' :| 0 <= t' < |rules| && rules[t].alts == [[], [x, Ref(t')]] && IsOpt(rules, t', x, m - 1);
      var j := PairSplit(rules, x, Ref(t'), w, k - 1);
      OptUpper(rules, t', x, m - 1, w[j..], k - 1);
      RepeatMonotone(StepLang(rules, [x], k - 1), l, 0, m - 1);
      RepeatCons(l, 0, m - 1, w[..j], w[j..]);
      RepeatWider(l, 1, m, 0, m);
      assert w == w[..j] + w[j..];
    }
  }

  lemma {:induction false} TailUpper(rules: Rules, tail: seq<Item>, x: Item, extra: int, w: Word, k: nat)
    requires extra >= -1 && IsTail(rules, tail, x, extra) && Derives(rules, tail, w, k)
    ensures w in Repeat(StepLang(rules, [x], k), 0, extra)
  {
    if extra == 0 {
      RepeatNone(StepLang(rules, [x], k), 0);
    } else {
      assert tail == [Ref(tail[0].rule)];
      if extra < 0 {
        StarUpper(rules, tail[0].rule, x, w, k);
      } else {
        OptUpper(rules, tail[0].rule, x, extra, w, k);
      }
    }
  }

  lemma {:induction false} CopiesUpper(rules: Rules, x: Item, n: nat, w: Word, k: nat)
    requires Derives(rules, CopiesOf(x, n), w, k)
    ensures w in Pow(StepLang(rules, [x], k), n)
    decreases n
  {
    if n > 0 {
      var j := DerivesSplit(rules, [x], CopiesOf(x, n - 1), w, k);
      CopiesUpper(rules, x, n - 1, w[j..], k);
      CatIntro(StepLang(rules, [x], k), Pow(StepLang(rules, [x], k), n - 1), w[..j], w[j..]);
      assert w == w[..j] + w[j..];
    }
  }

  /** A derivation from a desugared repetition uses a permitted number of copies,
      none needing more steps than the whole. */
  lemma {:induction false} RepetitionUpper(rules: Rules, items: seq<Item>, x: Item, lo: nat, hi: int, w: Word, k: nat)
    requires IsRepetition(rules, items, x, lo, hi) && Derives(rules, items, w, k)
    ensures w in Repeat(StepLang(rules, [x], k), lo, hi)
  {
    var l, extra := StepLang(rules, [x], k), if hi < 0 then -1 else hi - lo;
    assert items == CopiesOf(x, lo) + items[lo..];
    var j := DerivesSplit(rules, CopiesOf(x, lo), items[lo..], w, k);
    CopiesUpper(rules, x, lo, w[..j], k);
    TailUpper(rules, items[lo..], x, extra, w[j..], k);
    CatIntro(Pow(l, lo), Repeat(l, 0, extra), w[..j], w[j..]);
    RepeatSplit(l, lo, extra);
    assert w == w[..j] + w[j..];
    if hi < 0 {
      RepeatWider(l, lo, -1, lo, hi);
    }
  }

  // ----- lower bounds -----

  lemma AltDerivable(rules: Rules, r: nat, a: nat, w: Word)
    requires r < |rules| && a < |rules[r].alts| && w in FormLang(rules, rules[r].alts[a])
    ensures w in RuleLang(rules, r)
  {
    RuleLangIsUnion(rules, r, w);
  }

  lemma PairDerivable(rules: Rules, x: Item, y: Item, u: Word, v: Word)
    requires u in FormLang(rules, [x]) && v in FormLang(rules, [y])
    ensures u + v in FormLang(rules, [x, y])
  {
    assert [x, y] == [x] + [y];
    FormLangCat(rules, [x], [y]);
    CatIntro(FormLang(rules, [x]), FormLang(rules, [y]), u, v);
  }

  lemma {:induction false} StarLower(rules: Rules, s: nat, x: Item, w: Word, n: nat)
    requires IsStar(rules, s, x) && w in Pow(FormLang(rules, [x]), n)
    ensures w in RuleLang(rules, s)
    decreases n
  {
    var l := FormLang(rules, [x]);
    if n == 0 {
      FormLangEmpty(rules);
      AltDerivable(rules, s, 0, w);
    } else {
      var k: nat :| CutsAt(l, Pow(l, n - 1), w, k);
      StarLower(rules, s, x, w[k..], n - 1);
      PairDerivable(rules, x, Ref(s), w[..k], w[k..]);
      assert w == w[..k] + w[k..];
      AltDerivable(rules, s, 1, w);
    }
  }

  lemma {:induction false} OptLower(rules: Rules, t: nat, x: Item, m: nat, w: Word, n: nat)
    requires IsOpt(rules, t, x, m) && n <= m && w in Pow(FormLang(rules, [x]), n)
    ensures w in RuleLang(rules, t)
    decreases m
  {
    var l := FormLang(rules, [x]);
    if n == 0 {
      FormLangEmpty(rules);
      assert rules[t].alts[0] == [];
      AltDerivable(rules, t, 0, w);
    } else {
      var k: nat :| CutsAt(l, Pow(l, n - 1), w, k);
      assert w == w[..k] + w[k..];
      if m == 1 {
        assert w == w[..k];
        AltDerivable(rules, t, 1, w);
      } else {
        var t' :| 0 <= t' < |rules| && rules[t].alts == [[], [x, Ref(t')]] && IsOpt(rules, t', x, m - 1);
        OptLower(rules, t', x, m - 1, w[k..], n - 1);
        PairDerivable(rules, x, Ref(t'), w[..k], w[k..]);
        AltDerivable(rules, t, 1, w);
      }
    }
  }

  lemma TailLower(rules: Rules, tail: seq<Item>, x: Item, extra: int, w: Word)
    requires extra >= -1 && IsTail(rules, tail, x, extra) && w in Repeat(FormLang(rules, [x]), 0, extra)
    ensures w in FormLang(rules, tail)
  {
    var n: nat :| RepeatsIn(FormLang(rules, [x]), 0, extra, w, n);
    if extra == 0 {
      FormLangEmpty(rules);
    } else {
      assert tail == [Ref(tail[0].rule)];
      if extra < 0 {
        StarLower(rules, tail[0].rule, x, w, n);
      } else {
        OptLower(rules, tail[0].rule, x, extra, w, n);
      }
    }
  }

  lemma {:induction false} CopiesLang(rules: Rules, x: Item, n: nat)
    ensures FormLang(rules, CopiesOf(x, n)) == Pow(FormLang(rules, [x]), n)
    decreases n
  {
    if n == 0 {
      FormLangEmpty(rules);
    } else {
      CopiesLang(rules, x, n - 1);
      FormLangCat(rules, [x], CopiesOf(x, n - 1));
    }
  }

  lemma RepetitionLower(rules: Rules, items: seq<Item>, x: Item, lo: nat, hi: int)
    requires IsRepetition(rules, items, x, lo, hi)
    ensures Repeat(FormLang(rules, [x]), lo, hi) <= FormLang(rules, items)
  {
    var l, extra := FormLang(rules, [x]), if hi < 0 then -1 else hi - lo;
    RepeatSplit(l, lo, extra);
    if hi < 0 {
      RepeatWider(l, lo, hi, lo, -1);
    }
    assert items == CopiesOf(x, lo) + items[lo..];
    FormLangCat(rules, CopiesOf(x, lo), items[lo..]);
    CopiesLang(rules, x, lo);
    forall w | w in Repeat(l, 0, extra)
      ensures w in FormLang(rules, items[lo..])
    {
      TailLower(rules, items[lo..], x, extra, w);
    }
    CatMonotone(Pow(l, lo), Pow(l, lo), Repeat(l, 0, extra), FormLang(rules, items[lo..]));
  }

  /** A desugared repetition denotes exactly the permitted powers of its element. */
  lemma RepetitionLang(rules: Rules, items: seq<Item>, x: Item, lo: nat, hi: int)
    requires IsRepetition(rules, items, x, lo, hi)
    ensures FormLang(rules, items) == Repeat(FormLang(rules, [x]), lo, hi)
  {
    RepetitionLower(rules, items, x, lo, hi);
    forall w | w in FormLang(rules, items)
      ensures w in Repeat(FormLang(rules, [x]), lo, hi)
    {
      var k: nat :| Derives(rules, items, w, k);
      RepetitionUpper(rules, items, x, lo, hi, w, k);
      assert StepLang(rules, [x], k) <= FormLang(rules, [x]);
      RepeatMonotone(StepLang(rules, [x], k), FormLang(rules, [x]), lo, hi);
    }
  }
}
