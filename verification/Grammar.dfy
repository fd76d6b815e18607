/** The compiled rule table and its meaning: leftmost derivation over sentential
    forms. */
module Grammar {
  import opened CharSets
  import opened Languages

  datatype Item = Chars(cs: CharSet) | Ref(rule: nat)

  type Alt = seq<Item>

  /** Synthetic rules, made for groups and repetitions, have an empty name. */
  datatype Rule = Rule(name: seq<byte>, alts: seq<Alt>)

  type Rules = seq<Rule>

  /** The name "root". */
  const ROOT: seq<byte> := [0x72, 0x6F, 0x6F, 0x74]

  /** References name rules of the table, and character ranges are not inverted. */
  predicate ItemOk(n: nat, x: Item)
  {
    match x
    case Chars(cs) => WellFormed(cs)
    case Ref(r) => r < n
  }

  predicate FormOk(rules: Rules, form: seq<Item>)
  {
    forall i :: 0 <= i < |form| ==> ItemOk(|rules|, form[i])
  }

  predicate RulesOk(rules: Rules)
  {
    forall r, a :: 0 <= r < |rules| && 0 <= a < |rules[r].alts| ==> FormOk(rules, rules[r].alts[a])
  }

  /** `w` is derivable from the sentential form in at most `n` leftmost steps,
      counting the consumption of a codepoint as a step. */
  ghost predicate Derives(rules: Rules, form: seq<Item>, w: Word, n: nat)
    decreases n
  {
    if form == [] then w == []
    else if n == 0 then false
    else
      match form[0]
      case Chars(cs) => w != [] && Contains(cs, w[0]) && Derives(rules, form[1..], w[1..], n - 1)
      case Ref(r) => r < |rules| && exists a :: 0 <= a < |rules[r].alts| && DerivesVia(rules, form, a, w, n)
  }

  /** The first step replaces the leading reference by its alternative `a`. */
  ghost predicate DerivesVia(rules: Rules, form: seq<Item>, a: nat, w: Word, n: nat)
    requires n > 0 && form != [] && form[0].Ref? && form[0].rule < |rules|
    requires a < |rules[form[0].rule].alts|
    decreases n, 0
  {
    Derives(rules, rules[form[0].rule].alts[a] + form[1..], w, n - 1)
  }

  ghost predicate Derivable(rules: Rules, form: seq<Item>, w: Word)
  {
    exists n: nat :: Derives(rules, form, w, n)
  }

  ghost function FormLang(rules: Rules, form: seq<Item>): Lang<uint32>
  {
    iset w: Word | Derivable(rules, form, w)
  }

  ghost function RuleLang(rules: Rules, r: nat): Lang<uint32>
  {
    FormLang(rules, [Ref(r)])
  }

  lemma {:induction false} DerivesMore(rules: Rules, form: seq<Item>, w: Word, n: nat, m: nat)
    requires n <= m && Derives(rules, form, w, n)
    ensures Derives(rules, form, w, m)
    decreases n
  {
    if form != [] {
      match form[0]
      case Chars(cs) =>
        DerivesMore(rules, form[1..], w[1..], n - 1, m - 1);
      case Ref(r) =>
        var a :| 0 <= a < |rules[r].alts| && DerivesVia(rules, form, a, w, n);
        DerivesMore(rules, rules[r].alts[a] + form[1..], w, n - 1, m - 1);
        assert DerivesVia(rules, form, a, w, m);
    }
  }

  lemma {:induction false} DerivesJoin(rules: Rules, f: seq<Item>, g: seq<Item>, u: Word, v: Word, n: nat, m: nat)
    requires Derives(rules, f, u, n) && Derives(rules, g, v, m)
    ensures Derives(rules, f + g, u + v, n + m)
    decreases n
  {
    if f == [] {
      assert f + g == g && u + v == v;
      DerivesMore(rules, g, v, m, n + m);
    } else {
      assert (f + g)[0] == f[0] && (f + g)[1..] == f[1..] + g;
      match f[0]
      case Chars(cs) =>
        assert (u + v)[1..] == u[1..] + v;
        DerivesJoin(rules, f[1..], g, u[1..], v, n - 1, m);
      case Ref(r) =>
        var a :| 0 <= a < |rules[r].alts| && DerivesVia(rules, f, a, u, n);
        var alt := rules[r].alts[a];
        DerivesJoin(rules, alt + f[1..], g, u, v, n - 1, m);
        assert (alt + f[1..]) + g == alt + (f + g)[1..];
        assert DerivesVia(rules, f + g, a, u + v, n + m);
    }
  }

  /** A leading character set derives the first character. */
  lemma {:induction false} CharsDerives(rules: Rules, form: seq<Item>, w: Word, n: nat)
    requires form != [] && form[0].Chars?
    ensures Derives(rules, form, w, n) <==>
            n > 0 && w != [] && Contains(form[0].cs, w[0]) && Derives(rules, form[1..], w[1..], n - 1)
  {
  }

  lemma {:induction false} DeriveFirst(rules: Rules, form: seq<Item>, a: nat, w: Word, n: nat)
    requires form != [] && form[0].Ref? && form[0].rule < |rules| && a < |rules[form[0].rule].alts|
    requires Derives(rules, rules[form[0].rule].alts[a] + form[1..], w, n)
    ensures Derives(rules, form, w, n + 1)
  {
    assert DerivesVia(rules, form, a, w, n + 1);
  }

  lemma FirstDerives(rules: Rules, form: seq<Item>, w: Word, n: nat) returns (a: nat)
    requires form != [] && form[0].Ref? && Derives(rules, form, w, n)
    ensures n > 0 && form[0].rule < |rules| && a < |rules[form[0].rule].alts|
    ensures Derives(rules, rules[form[0].rule].alts[a] + form[1..], w, n - 1)
  {
    a :| 0 <= a < |rules[form[0].rule].alts| && DerivesVia(rules, form, a, w, n);
  }

  /** A derivation of a concatenation splits the word, neither part needing more steps. */
  lemma {:induction false} DerivesSplit(rules: Rules, f: seq<Item>, g: seq<Item>, w: Word, n: nat) returns (k: nat)
    requires Derives(rules, f + g, w, n)
    ensures k <= |w| && Derives(rules, f, w[..k], n) && Derives(rules, g, w[k..], n)
    decreases n
  {
    if f == [] {
      assert f + g == g && w[0..] == w;
      k := 0;
    } else {
      hide Derives;
      assert (f + g)[0] == f[0] && (f + g)[1..] == f[1..] + g;
      match f[0]
      case Chars(cs) =>
        CharsDerives(rules, f + g, w, n);
        var j := DerivesSplit(rules, f[1..], g, w[1..], n - 1);
        k := j + 1;
        assert w[..k][1..] == w[1..][..j] && w[1..][j..] == w[k..];
        CharsDerives(rules, f, w[..k], n);
        DerivesMore(rules, g, w[k..], n - 1, n);
      case Ref(r) =>
        var a := FirstDerives(rules, f + g, w, n);
        var alt := rules[r].alts[a];
        assert alt + (f + g)[1..] == (alt + f[1..]) + g;
        k := DerivesSplit(rules, alt + f[1..], g, w, n - 1);
        DeriveFirst(rules, f, a, w[..k], n - 1);
        DerivesMore(rules, g, w[k..], n - 1, n);
    }
  }

  /** Concatenated sentential forms have concatenated languages. */
  lemma FormLangCat(rules: Rules, f: seq<Item>, g: seq<Item>)
    ensures FormLang(rules, f + g) == Cat(FormLang(rules, f), FormLang(rules, g))
  {
    var lf, lg := FormLang(rules, f), FormLang(rules, g);
    forall w: Word
      ensures w in FormLang(rules, f + g) <==> w in Cat(lf, lg)
    {
      if w in FormLang(rules, f + g) {
        var n: nat :| Derives(rules, f + g, w, n);
        var k := DerivesSplit(rules, f, g, w, n);
        assert CutsAt(lf, lg, w, k);
      }
      if w in Cat(lf, lg) {
        var k: nat :| CutsAt(lf, lg, w, k);
        var n: nat :| Derives(rules, f, w[..k], n);
        var m: nat :| Derives(rules, g, w[k..], m);
        DerivesJoin(rules, f, g, w[..k], w[k..], n, m);
        assert w == w[..k] + w[k..];
      }
    }
  }

  lemma FormLangEmpty(rules: Rules)
    ensures FormLang(rules, []) == Unit()
  {
    forall w: Word
      ensures w in FormLang(rules, []) <==> w in Unit<uint32>()
    {
      if w == [] {
        assert Derives(rules, [], w, 0);
      }
    }
  }

  lemma DerivesRule(rules: Rules, form: seq<Item>, r: nat, w: Word, n: nat) returns (a: nat)
    requires form == [Ref(r)] && Derives(rules, form, w, n)
    ensures n > 0 && r < |rules| && a < |rules[r].alts| && Derives(rules, rules[r].alts[a], w, n - 1)
  {
    assert form[0] == Ref(r);
    a :| 0 <= a < |rules[form[0].rule].alts| && DerivesVia(rules, form, a, w, n);
    assert rules[r].alts[a] + form[1..] == rules[r].alts[a];
  }

  lemma RuleDerives(rules: Rules, form: seq<Item>, r: nat, a: nat, w: Word, n: nat)
    requires form == [Ref(r)] && r < |rules| && a < |rules[r].alts| && Derives(rules, rules[r].alts[a], w, n)
    ensures Derives(rules, form, w, n + 1)
  {
    assert form[0] == Ref(r);
    assert rules[r].alts[a] + form[1..] == rules[r].alts[a];
    assert DerivesVia(rules, form, a, w, n + 1);
  }

  /** A rule's language is the union of its alternatives' languages. */
  lemma RuleLangIsUnion(rules: Rules, r: nat, w: Word)
    requires r < |rules|
    ensures w in RuleLang(rules, r) <==>
            exists a :: 0 <= a < |rules[r].alts| && w in FormLang(rules, rules[r].alts[a])
  {
    if w in RuleLang(rules, r) {
      var n: nat :| Derives(rules, [Ref(r)], w, n);
      var a := DerivesRule(rules, [Ref(r)], r, w, n);
      assert w in FormLang(rules, rules[r].alts[a]);
    }
    if exists a :: 0 <= a < |rules[r].alts| && w in FormLang(rules, rules[r].alts[a]) {
      var a :| 0 <= a < |rules[r].alts| && w in FormLang(rules, rules[r].alts[a]);
      var n: nat :| Derives(rules, rules[r].alts[a], w, n);
      RuleDerives(rules, [Ref(r)], r, a, w, n);
    }
  }

  /** Appending rules changes the language of no existing form. */
  lemma {:induction false} DerivesInLarger(rules: Rules, rules': Rules, form: seq<Item>, w: Word, n: nat)
    requires rules <= rules' && RulesOk(rules) && FormOk(rules, form)
    ensures Derives(rules, form, w, n) <==> Derives(rules', form, w, n)
    decreases n
  {
    if n > 0 && form != [] {
      assert ItemOk(|rules|, form[0]);
      match form[0]
      case Chars(cs) =>
        if w != [] {
          DerivesInLarger(rules, rules', form[1..], w[1..], n - 1);
        }
      case Ref(r) =>
        forall a | 0 <= a < |rules[r].alts|
          ensures DerivesVia(rules, form, a, w, n) <==> DerivesVia(rules', form, a, w, n)
        {
          assert FormOk(rules, rules[r].alts[a]);
          DerivesInLarger(rules, rules', rules[r].alts[a] + form[1..], w, n - 1);
        }
    }
  }

  lemma AppendingKeepsLang(rules: Rules, rules': Rules, form: seq<Item>)
    requires rules <= rules' && RulesOk(rules) && FormOk(rules, form)
    ensures FormLang(rules', form) == FormLang(rules, form)
  {
    forall w: Word
      ensures w in FormLang(rules', form) <==> w in FormLang(rules, form)
    {
      if w in FormLang(rules', form) {
        var n: nat :| Derives(rules', form, w, n);
        DerivesInLarger(rules, rules', form, w, n);
      }
      if w in FormLang(rules, form) {
        var n: nat :| Derives(rules, form, w, n);
        DerivesInLarger(rules, rules', form, w, n);
      }
    }
  }
}
