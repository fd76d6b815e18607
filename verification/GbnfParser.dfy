/** The recursive-descent parser that turns GBNF text into a rule table. */
module GbnfParser {
  import opened CharSets
  import opened Languages
  import opened Grammar
  import opened GbnfSyntax
  import opened GbnfReading
  import opened Reading
  import opened Desugaring
  import opened Representation
  import opened LeftRecursion

  /** References are in range, names and ids agree, synthetic rules are complete and refer to
      earlier rules, and a rule whose definition has not begun has no alternatives. */
  ghost predicate TableOk(rules: Rules, ids: Ids, defined: set<Name>)
  {
    && RulesOk(rules) && Layered(rules)
    && (forall x :: x in ids ==> x != [] && ids[x] < |rules| && rules[ids[x]].name == x)
    && (forall r :: 0 <= r < |rules| ==>
          if rules[r].name == [] then rules[r].alts != []
          else rules[r].name in ids && ids[rules[r].name] == r)
    && (forall x :: x in ids && x !in defined ==> rules[ids[x]].alts == [])
  }

  /** The rules defined so far: all represented, and the known names are the defined
      ones and those they call. */
  ghost predicate SourceOk(rules: Rules, ids: Ids, g: Source)
  {
    && ids.Keys == g.Keys + CalledNames(g)
    && forall x :: x in g ==> x in ids && ids[x] < |rules| && g[x] != [] &&
                              HasAlts(rules, ids, rules[ids[x]].alts, g[x])
  }

  ghost function CalledNames(g: Source): set<Name>
  {
    set x, y | x in g && y in AltsNames(g[x]) :: y
  }

  lemma FormOkInLarger(rules: Rules, rules': Rules, form: seq<Item>)
    requires |rules| <= |rules'| && FormOk(rules, form)
    ensures FormOk(rules', form)
  {
    forall i | 0 <= i < |form|
      ensures ItemOk(|rules'|, form[i])
    {
      assert ItemOk(|rules|, form[i]);
    }
  }

  ghost predicate AltsOk(n: nat, alts: seq<Alt>)
  {
    forall a, i :: 0 <= a < |alts| && 0 <= i < |alts[a]| ==> ItemOk(n, alts[a][i])
  }

  lemma AppendOk(rules: Rules, rule: Rule)
    requires RulesOk(rules) && AltsOk(|rules| + 1, rule.alts)
    ensures RulesOk(rules + [rule])
  {
    var rules' := rules + [rule];
    forall r, a | 0 <= r < |rules'| && 0 <= a < |rules'[r].alts|
      ensures FormOk(rules', rules'[r].alts[a])
    {
      if r < |rules| {
        FormOkInLarger(rules, rules', rules[r].alts[a]);
      }
    }
  }

  lemma AppendLayered(rules: Rules, rule: Rule)
    requires Layered(rules)
    requires rule.name == [] ==> AllEarlier(|rules|, rule.alts) || LoopAlts(|rules|, rule.alts)
    ensures Layered(rules + [rule])
  {
  }

  lemma OkIsEarlier(n: nat, alts: seq<Alt>)
    requires AltsOk(n, alts)
    ensures AllEarlier(n, alts) && !LoopAlts(n, alts)
  {
    assert |alts| == 2 && |alts[1]| == 2 ==> ItemOk(n, alts[1][1]);
  }

  /** No rule from number `n` on is a loop. */
  ghost predicate NoLoops(rules: Rules, n: nat)
  {
    forall l :: n <= l < |rules| ==> !IsLoop(rules, l)
  }

  /** Every loop from number `n` on goes over `x`. */
  ghost predicate LoopsOver(rules: Rules, n: nat, x: Item)
  {
    forall l :: n <= l < |rules| && IsLoop(rules, l) ==> IsStar(rules, l, x)
  }

  lemma NoLoopsMore(r1: Rules, rules: Rules, n: nat)
    requires r1 <= rules && NoLoops(r1, n) && NoLoops(rules, |r1|)
    ensures NoLoops(rules, n)
  {
    forall l | n <= l < |rules|
      ensures !IsLoop(rules, l)
    {
      if l < |r1| {
        assert !IsLoop(r1, l);
      }
    }
  }

  /** The loops of one postfix operator. */
  lemma {:induction false} RepLoops(r1: Rules, rules: Rules, ids: Ids, n: nat, x: Item, cur: seq<Item>, e: Elem, lo: nat, hi: int)
    requires r1 <= rules && NoLoops(r1, n) && (if hi < 0 then LoopsOver(rules, |r1|, x) else NoLoops(rules, |r1|))
    requires HasElem(rules, ids, cur, e) && Wraps(rules, x, cur)
    ensures LoopsIn(rules, ids, n, ElemParts(Rep(e, lo, hi)))
  {
    var rep := Rep(e, lo, hi);
    RepParts(e, lo, hi);
    forall l: nat | n <= l && IsLoop(rules, l)
      ensures LoopIn(rules, ids, l, ElemParts(rep))
    {
      if l < |r1| {
        assert IsLoop(r1, l);
      }
      assert MadeFor(rules, ids, l, rep, x, cur);
      assert IsLoopOf(rules, ids, l, rep);
    }
  }

  lemma {:induction false} PostfixLoops(r1: Rules, rules: Rules, ids: Ids, n: nat, e: Elem, lo: nat, hi: int)
    requires r1 <= rules && LoopsIn(r1, ids, n, ElemParts(e)) && LoopsIn(rules, ids, |r1|, ElemParts(Rep(e, lo, hi)))
    ensures LoopsIn(rules, ids, n, ElemParts(Rep(e, lo, hi))) && ElemParts(e) <= ElemParts(Rep(e, lo, hi))
  {
    hide LoopsIn;
    RepParts(e, lo, hi);
    PrefixKeeps(r1, rules);
    SubmapSelf(ids);
    LoopsJoin(r1, ids, rules, ids, n, ElemParts(e), ElemParts(Rep(e, lo, hi)), ElemParts(Rep(e, lo, hi)));
  }

  lemma {:induction false} PieceLoops(r0: Rules, r1: Rules, rules: Rules, ids: Ids, e: Elem, e': Elem)
    requires r1 <= rules && LoopsIn(r1, ids, |r0|, ElemParts(e)) && LoopsIn(rules, ids, |r1|, ElemParts(e'))
    requires ElemParts(e) <= ElemParts(e')
    ensures LoopsIn(rules, ids, |r0|, ElemParts(e'))
  {
    hide LoopsIn, ElemParts;
    PrefixKeeps(r1, rules);
    SubmapSelf(ids);
    LoopsJoin(r1, ids, rules, ids, |r0|, ElemParts(e), ElemParts(e'), ElemParts(e'));
  }

  /** The loops of a sequence with one element more. */
  lemma {:induction false} SeqLoops(r0: Rules, i0: Ids, rules: Rules, ids: Ids, n: nat, es: seq<Elem>, e: Elem)
    requires r0 <= rules && Submap(i0, ids) && LoopsIn(r0, i0, n, SeqParts(es)) && LoopsIn(rules, ids, |r0|, ElemParts(e))
    ensures LoopsIn(rules, ids, n, SeqParts(es + [e]))
  {
    hide LoopsIn, ElemParts, SeqParts;
    SeqPartsGrow(es, e);
    PrefixKeeps(r0, rules);
    LoopsJoin(r0, i0, rules, ids, n, SeqParts(es), ElemParts(e), SeqParts(es + [e]));
  }

  lemma {:induction false} AltsLoops(r0: Rules, i0: Ids, rules: Rules, ids: Ids, n: nat, alts: seq<Branch>, es: seq<Elem>)
    requires r0 <= rules && Submap(i0, ids) && LoopsIn(r0, i0, n, AltsParts(alts)) && LoopsIn(rules, ids, |r0|, SeqParts(es))
    ensures LoopsIn(rules, ids, n, AltsParts(alts + [Branch(es)]))
  {
    hide LoopsIn, AltsParts, SeqParts;
    AltsPartsGrow(alts, es);
    PrefixKeeps(r0, rules);
    LoopsJoin(r0, i0, rules, ids, n, AltsParts(alts), SeqParts(es), AltsParts(alts + [Branch(es)]));
  }

  lemma {:induction false} FirstLoops(rules: Rules, ids: Ids, n: nat, es: seq<Elem>)
    requires LoopsIn(rules, ids, n, SeqParts(es))
    ensures LoopsIn(rules, ids, n, AltsParts([Branch(es)]))
  {
    hide IsLoopOf, SeqParts, AltsParts;
    AltsPartsGrow([], es);
    assert [] + [Branch(es)] == [Branch(es)];
    forall l: nat | n <= l && IsLoop(rules, l)
      ensures LoopIn(rules, ids, l, AltsParts([Branch(es)]))
    {
      assert LoopIn(rules, ids, l, SeqParts(es));
    }
  }

  lemma {:induction false} GroupLoops(rules: Rules, ids: Ids, n: nat, table: seq<Alt>, alts: seq<Branch>)
    requires LoopsIn(rules, ids, n, AltsParts(alts)) && AltsOk(|rules|, table)
    ensures AllEarlier(|rules|, table)
    ensures LoopsIn(rules + [Rule([], table)], ids, n, ElemParts(Group(alts)))
  {
    hide LoopsIn, ElemParts, AltsParts, AltsOk;
    var rules' := rules + [Rule([], table)];
    OkIsEarlier(|rules|, table);
    GroupParts(alts);
    PrefixKeeps(rules, rules');
    SubmapSelf(ids);
    assert !IsLoop(rules', |rules|);
    LastIsNoLoop(rules', ids, |rules|, AltsParts(alts));
    LoopsJoin(rules, ids, rules', ids, n, AltsParts(alts), AltsParts(alts), ElemParts(Group(alts)));
  }

  lemma LoopsMore(rules: Rules, ids: Ids, n: nat, p: iset<Elem>, q: iset<Elem>)
    requires LoopsIn(rules, ids, n, p) && p <= q
    ensures LoopsIn(rules, ids, n, q)
  {
    hide IsLoopOf;
    forall l: nat | n <= l && IsLoop(rules, l)
      ensures LoopIn(rules, ids, l, q)
    {
      assert LoopIn(rules, ids, l, p);
    }
  }

  lemma LastIsNoLoop(rules: Rules, ids: Ids, n: nat, parts: iset<Elem>)
    requires |rules| == n + 1 && !IsLoop(rules, n)
    ensures LoopsIn(rules, ids, n, parts)
  {
  }

  lemma NamedIsNoLoop(rules: Rules, ids: Ids, name: Name)
    requires name != []
    ensures LoopsIn(rules + [Rule(name, [])], ids, |rules|, iset{})
  {
  }

  lemma PrefixKeeps(rules: Rules, rules': Rules)
    requires rules <= rules'
    ensures Keeps(rules, rules')
  {
  }

  lemma StringStep(src: Text, start: nat, here: nat, w: Word, c: uint32, n: nat)
    requires start <= here < |src| && src[here] != QUOTE && ReadChar(src[here..]) == Got(c, n)
    requires ReadString(src[start..]) == Shift(w, here - start, ReadString(src[here..]))
    ensures here + n <= |src|
    ensures ReadString(src[start..]) == Shift(w + [c], here + n - start, ReadString(src[here + n..]))
  {
    assert src[here..][n..] == src[here + n..];
    ShiftStep(w, here - start, c, n, ReadString(src[here + n..]));
  }

  /** Repetition bounds by the places of their parts in the whole text. */
  lemma {:induction false} CountsRead(src: Text, start: nat, mid: nat, lo: nat)
    requires start < |src| && mid == start + 1 + DigitsLen(src[start + 1..]) <= |src|
    requires lo == Number(src[start + 1..][..mid - start - 1])
    ensures At(src[mid..], 0) != COMMA ==>
              ReadCounts(src[start..]) ==
              if At(src[mid..], 0) == CLOSE_BRACE then Got(Counts(mid - start - 1, 0, lo, lo), mid + 1 - start) else Fail
  {
    hide DigitsLen, Number;
    Cut(src, start, start + 1);
    AtLater(src, start, mid - start, 0);
  }

  lemma {:induction false} CountsReadComma(src: Text, start: nat, mid: nat, end: nat, lo: nat, hi: int)
    requires start < |src| && mid == start + 1 + DigitsLen(src[start + 1..]) < |src| && src[mid] == COMMA
    requires lo == Number(src[start + 1..][..mid - start - 1]) && end == mid + 1 + DigitsLen(src[mid + 1..]) <= |src|
    requires hi == if end == mid + 1 then -1 else Number(src[mid + 1..][..end - mid - 1])
    ensures ReadCounts(src[start..]) ==
            if At(src[end..], 0) != CLOSE_BRACE then Fail
            else Got(Counts(mid - start - 1, end - mid - 1, lo, hi), end + 1 - start)
  {
    hide DigitsLen, Number;
    Cut(src, start, start + 1);
    Cut(src, start, mid + 1);
    AtLater(src, start, mid - start, 0);
    AtLater(src, start, end - start, 0);
  }

  /** A rule head by the places of its parts in the whole text. */
  lemma {:induction false} HeadReads(src: Text, start: nat, mid: nat, at: nat)
    requires start <= mid <= at <= |src| && mid == start + WordLen(src[start..]) && at == mid + SpaceLen(src[mid..], false)
    ensures var ok := mid > start && at + 2 < |src| && src[at] == COLON && src[at + 1] == COLON && src[at + 2] == EQUALS;
            ReadHead(src[start..]) ==
            if !ok then Fail else Got(src[start..][..mid - start], at + 3 - start + SpaceLen(src[at + 3..], true))
  {
    hide WordLen, SpaceLen;
    Cut(src, start, mid);
    AtLater(src, start, at - start, 0);
    AtLater(src, start, at - start, 1);
    AtLater(src, start, at - start, 2);
    if at + 3 <= |src| {
      Cut(src, start, at + 3);
    }
  }

  lemma {:induction false} StringFail(src: Text, here: nat)
    requires here < |src| && src[here] != QUOTE && ReadChar(src[here..]).Fail?
    ensures ReadString(src[here..]).Fail?
  {
    hide ReadChar;
  }

  lemma {:induction false} StringEnd(src: Text, here: nat)
    requires here <= |src| && (here < |src| ==> src[here] == QUOTE)
    ensures ReadString(src[here..]) == if here < |src| then Got([], 1) else Fail
  {
  }

  lemma RangesStep(src: Text, start: nat, here: nat, done: seq<Range>, r: Range, n: nat)
    requires start <= here < |src| && src[here] != CLOSE_BRACKET && ReadRange(src[here..]) == Got(r, n)
    requires ReadRanges(src[start..]) == Shift(done, here - start, ReadRanges(src[here..]))
    ensures here + n <= |src|
    ensures ReadRanges(src[start..]) == Shift(done + [r], here + n - start, ReadRanges(src[here + n..]))
  {
    assert src[here..][n..] == src[here + n..];
    ShiftStep(done, here - start, r, n, ReadRanges(src[here + n..]));
  }

  lemma {:induction false} RangesFail(src: Text, here: nat)
    requires here < |src| && src[here] != CLOSE_BRACKET && ReadRange(src[here..]).Fail?
    ensures ReadRanges(src[here..]).Fail?
  {
    hide ReadRange;
  }

  lemma {:induction false} RangesEnd(src: Text, here: nat)
    requires here <= |src| && (here < |src| ==> src[here] == CLOSE_BRACKET)
    ensures ReadRanges(src[here..]) == if here < |src| then Got([], 1) else Fail
  {
  }

  lemma {:induction false} LitItemsSnoc(w: Word, c: uint32)
    ensures LitItems(w + [c]) == LitItems(w) + [CharItem(c)]
  {
    assert (w + [c])[..|w|] == w;
  }

  lemma ItemOkInLarger(n: nat, m: nat, x: Item)
    requires n <= m && ItemOk(n, x)
    ensures ItemOk(m, x)
  {
  }

  lemma {:induction false} CopiesSnoc(x: Item, n: nat)
    ensures CopiesOf(x, n + 1) == CopiesOf(x, n) + [x]
    decreases n
  {
    if n > 0 {
      CopiesSnoc(x, n - 1);
    }
  }

  lemma {:induction false} CopiesLen(x: Item, n: nat)
    ensures |CopiesOf(x, n)| == n
    decreases n
  {
    if n > 0 {
      CopiesLen(x, n - 1);
    }
  }

  lemma WrapsKept(rules: Rules, rules': Rules, x: Item, items: seq<Item>)
    requires rules <= rules' && Wraps(rules, x, items)
    ensures Wraps(rules', x, items)
  {
  }

  /** Elements that vanish are exactly those without items. */
  lemma {:induction false} VanishesIff(rules: Rules, ids: Ids, items: seq<Item>, e: Elem)
    requires HasElem(rules, ids, items, e)
    ensures Vanishes(e) <==> items == []
  {
    match e
    case Lit(cps) =>
    case Set(cs) =>
    case Call(x) =>
    case Group(alts) =>
    case Rep(b, lo, hi) =>
      var x, base :| HasRep(rules, ids, items, b, lo, hi, x, base);
  }

  lemma {:induction false} PostfixEnds(src: Text, here: nat, e: Elem)
    requires here <= |src| && (here < |src| ==> !IsPostfix(src[here]))
    ensures ReadPostfix(src[here..], e) == Got(e, 0)
  {
  }

  lemma {:induction false} PostfixFails(src: Text, here: nat, e: Elem)
    requires here < |src| && IsPostfix(src[here]) && (Vanishes(e) || ReadOne(src[here..]).Fail?)
    ensures ReadPostfix(src[here..], e).Fail?
  {
    hide ReadOne;
  }

  lemma {:induction false} PostfixStep(src: Text, here: nat, e: Elem, lo: nat, hi: int, n: nat)
    requires here < |src| && IsPostfix(src[here]) && !Vanishes(e) && ReadOne(src[here..]) == Got(Bounds(lo, hi), n)
    ensures here + n <= |src|
    ensures ReadPostfix(src[here..], e) == Later(n, ReadPostfix(src[here + n..], Rep(e, lo, hi)))
  {
    hide ReadOne;
    assert src[here..][n..] == src[here + n..];
  }

  lemma {:induction false} WordLenPositive(s: Text)
    requires s != [] && IsWordByte(s[0])
    ensures 0 < WordLen(s)
  {
  }

  lemma {:induction false} LitItemsOk(n: nat, w: Word)
    ensures forall i :: 0 <= i < |LitItems(w)| ==> ItemOk(n, LitItems(w)[i])
    decreases |w|
  {
    if w != [] {
      LitItemsOk(n, w[..|w| - 1]);
    }
  }

  /** A group's alternatives are still represented once its own rule is added. */
  lemma {:induction false} GroupOk(rules: Rules, ids: Ids, table: seq<Alt>, alts: seq<Branch>)
    requires AltsOk(|rules|, table) && HasAlts(rules, ids, table, alts)
    ensures AltsOk(|rules| + 1, table)
    ensures HasElem(rules + [Rule([], table)], ids, [Ref(|rules|)], Group(alts))
  {
    forall a, i | 0 <= a < |table| && 0 <= i < |table[a]|
      ensures ItemOk(|rules| + 1, table[a][i])
    {
      ItemOkInLarger(|rules|, |rules| + 1, table[a][i]);
    }
    PrefixKeeps(rules, rules + [Rule([], table)]);
    AltsKept(rules, ids, rules + [Rule([], table)], ids, table, alts);
  }

  lemma {:induction false} SeqEnds(src: Text, here: nat, at: nat, nested: bool)
    requires here <= at <= |src| && at == here + SpaceLen(src[here..], nested) && EndsSequence(src[at..])
    ensures ReadSeq(src[here..], nested) == Got([], at - here)
  {
    hide SpaceLen;
    Cut(src, here, at);
  }

  /** One element with its postfix operators. */
  ghost function ReadPiece(src: Text, at: nat): (r: Read<Elem>)
    requires at < |src|
    ensures r.Got? ==> 0 < r.len && at + r.len <= |src|
  {
    match ReadElem(src[at..])
    case Fail => Fail
    case Got(e, n) => Later(n, ReadPostfix(src[at + n..], e))
  }

  lemma {:induction false} SeqFails(src: Text, here: nat, at: nat, nested: bool)
    requires here <= at < |src| && at == here + SpaceLen(src[here..], nested) && !EndsSequence(src[at..])
    requires ReadPiece(src, at).Fail?
    ensures ReadSeq(src[here..], nested).Fail?
  {
    hide SpaceLen, ReadElem, ReadPostfix, EndsSequence;
    Cut(src, here, at);
    if ReadElem(src[at..]).Got? {
      Cut(src, at, at + ReadElem(src[at..]).len);
    }
  }

  lemma {:induction false} SeqUnfolds(src: Text, here: nat, at: nat, end: nat, nested: bool, e: Elem)
    requires here <= at <= end <= |src| && at < |src|
    requires at == here + SpaceLen(src[here..], nested) && !EndsSequence(src[at..])
    requires ReadPiece(src, at) == Got(e, end - at)
    ensures ReadSeq(src[here..], nested) ==
            match ReadSeq(src[end..], nested)
            case Fail => Fail
            case Got(v, m) => Got([e] + v, end - here + m)
  {
    hide SpaceLen, ReadElem, ReadPostfix, ReadSeq, EndsSequence;
    var n := ReadElem(src[at..]).len;
    Cut(src, here, at);
    Cut(src, at, at + n);
    Cut(src, at, end);
    SeqUnfold(src[here..], at - here, n, end - at - n, nested, ReadElem(src[at..]).value, e);
  }

  lemma {:induction false} SeqStep(src: Text, start: nat, here: nat, at: nat, end: nat, nested: bool, es: seq<Elem>, e: Elem)
    requires start <= here <= at <= end <= |src| && at < |src|
    requires at == here + SpaceLen(src[here..], nested) && !EndsSequence(src[at..])
    requires ReadPiece(src, at) == Got(e, end - at)
    requires ReadSeq(src[start..], nested) == Shift(es, here - start, ReadSeq(src[here..], nested))
    ensures ReadSeq(src[start..], nested) == Shift(es + [e], end - start, ReadSeq(src[end..], nested))
  {
    hide SpaceLen, ReadPiece, ReadSeq, EndsSequence;
    SeqUnfolds(src, here, at, end, nested, e);
    ShiftStep(es, here - start, e, end - here, ReadSeq(src[end..], nested));
  }

  lemma {:induction false} SeqGrows(rules: Rules, ids: Ids, rules': Rules, ids': Ids,
                 items: seq<Item>, es: seq<Elem>, cur: seq<Item>, e: Elem)
    requires rules <= rules' && Submap(ids, ids') && FormOk(rules, items) && HasSeq(rules, ids, items, es)
    requires FormOk(rules', cur) && HasElem(rules', ids', cur, e)
    ensures FormOk(rules', items + cur) && HasSeq(rules', ids', items + cur, es + [e])
    ensures SeqNames(es + [e]) == SeqNames(es) + ElemNames(e)
  {
    PrefixKeeps(rules, rules');
    FormOkInLarger(rules, rules', items);
    SeqKept(rules, ids, rules', ids', items, es);
    var all, es' := items + cur, es + [e];
    assert all[..|items|] == items && all[|items|..] == cur;
    assert es'[..|es|] == es && es'[|es|] == e;
    assert HasSeqCut(rules', ids', all, es', |items|);
  }

  /** After the white space at `here` comes a bar, and its alternative begins at `at`. */
  ghost predicate BarAt(src: Text, here: nat, at: nat, nested: bool)
    requires here <= |src|
  {
    var after := here + SpaceLen(src[here..], nested) + 1;
    && after <= at <= |src| && At(src[here..], after - 1 - here) == BAR
    && at == after + SpaceLen(src[after..], true)
  }

  lemma {:induction false} MoreFails(src: Text, here: nat, at: nat, nested: bool)
    requires here <= |src| && BarAt(src, here, at, nested) && ReadSeq(src[at..], nested).Fail?
    ensures ReadMore(src[here..], nested).Fail?
  {
    hide SpaceLen, ReadSeq;
    Cut(src, here, here + SpaceLen(src[here..], nested) + 1);
    Cut(src, here, at);
  }

  lemma {:induction false} MoreUnfolds(src: Text, here: nat, at: nat, end: nat, nested: bool, es: seq<Elem>)
    requires here <= |src| && BarAt(src, here, at, nested) && at <= end <= |src|
    requires ReadSeq(src[at..], nested) == Got(es, end - at)
    ensures ReadMore(src[here..], nested) ==
            match ReadMore(src[end..], nested)
            case Fail => Fail
            case Got(v, m) => Got([Branch(es)] + v, end - here + m)
  {
    hide SpaceLen, ReadSeq, ReadMore;
    var k := SpaceLen(src[here..], nested);
    Cut(src, here, here + k + 1);
    Cut(src, here, at);
    Cut(src, here, end);
    MoreUnfold(src[here..], k, at - here, end - at, nested, es);
  }

  lemma {:induction false} MoreStep(src: Text, start: nat, here: nat, at: nat, end: nat, nested: bool,
                 alts: seq<Branch>, es: seq<Elem>)
    requires start <= here <= |src| && BarAt(src, here, at, nested) && at <= end <= |src|
    requires ReadSeq(src[at..], nested) == Got(es, end - at)
    requires ReadAlts(src[start..], nested) == Shift(alts, here - start, ReadMore(src[here..], nested))
    ensures ReadAlts(src[start..], nested) == Shift(alts + [Branch(es)], end - start, ReadMore(src[end..], nested))
  {
    hide SpaceLen, ReadSeq, ReadAlts, ReadMore;
    MoreUnfolds(src, here, at, end, nested, es);
    ShiftStep(alts, here - start, Branch(es), end - here, ReadMore(src[end..], nested));
  }

  lemma {:induction false} AltsStart(src: Text, start: nat, end: nat, nested: bool, es: seq<Elem>)
    requires start <= end <= |src| && ReadSeq(src[start..], nested) == Got(es, end - start)
    ensures ReadAlts(src[start..], nested) == Shift([Branch(es)], end - start, ReadMore(src[end..], nested))
  {
    hide ReadSeq, ReadMore;
    Cut(src, start, end);
  }

  lemma {:induction false} AltsFail(src: Text, start: nat, nested: bool)
    requires start <= |src| && ReadSeq(src[start..], nested).Fail?
    ensures ReadAlts(src[start..], nested).Fail?
  {
    hide ReadSeq, ReadMore;
  }

  lemma GroupReads(src: Text, start: nat, mid: nat, at: nat, alts: seq<Branch>)
    requires start < mid <= at <= |src| && src[start] == OPEN_PAREN
    requires ReadAlts(src[start + 1..], true) == Got(alts, mid - start - 1)
    requires at == mid + SpaceLen(src[mid..], true)
    ensures ReadElem(src[start..]) ==
            if At(src[start..], at - start) != CLOSE_PAREN then Fail else Got(Group(alts), at + 1 - start)
  {
    hide SpaceLen, ReadAlts, ReadString, ReadClass, WordLen;
    Cut(src, start, start + 1);
    Cut(src, start, mid);
  }

  lemma GroupFails(src: Text, start: nat)
    requires start < |src| && src[start] == OPEN_PAREN && ReadAlts(src[start + 1..], true).Fail?
    ensures ReadElem(src[start..]).Fail?
  {
    hide SpaceLen, ReadAlts, ReadString, ReadClass, WordLen;
    Cut(src, start, start + 1);
  }

  lemma SubmapTrans(a: Ids, b: Ids, c: Ids)
    requires Submap(a, b) && Submap(b, c)
    ensures Submap(a, c)
  {
  }

  lemma SubmapSelf(a: Ids)
    ensures Submap(a, a)
  {
  }

  lemma {:induction false} NoItemsOk(rules: Rules, ids: Ids)
    ensures FormOk(rules, []) && HasSeq(rules, ids, [], []) && SeqNames([]) == {}
  {
  }

  lemma {:induction false} FirstAlt(rules: Rules, ids: Ids, items: seq<Item>, es: seq<Elem>)
    requires FormOk(rules, items) && HasSeq(rules, ids, items, es)
    ensures AltsOk(|rules|, [items]) && HasAlts(rules, ids, [items], [Branch(es)])
    ensures AltsNames([Branch(es)]) == SeqNames(es)
  {
    AltsGrow(rules, ids, rules, ids, [], [], items, es);
    assert [] + [items] == [items] && [] + [Branch(es)] == [Branch(es)];
  }

  lemma {:induction false} AltsGrow(rules: Rules, ids: Ids, rules': Rules, ids': Ids,
                 table: seq<Alt>, alts: seq<Branch>, items: seq<Item>, es: seq<Elem>)
    requires rules <= rules' && Submap(ids, ids') && AltsOk(|rules|, table) && HasAlts(rules, ids, table, alts)
    requires FormOk(rules', items) && HasSeq(rules', ids', items, es)
    ensures AltsOk(|rules'|, table + [items]) && HasAlts(rules', ids', table + [items], alts + [Branch(es)])
    ensures AltsNames(alts + [Branch(es)]) == AltsNames(alts) + SeqNames(es)
  {
    PrefixKeeps(rules, rules');
    AltsKept(rules, ids, rules', ids', table, alts);
    var table', alts' := table + [items], alts + [Branch(es)];
    assert alts'[..|alts|] == alts && alts'[|alts|] == Branch(es);
    forall a, i | 0 <= a < |table'| && 0 <= i < |table'[a]|
      ensures ItemOk(|rules'|, table'[a][i])
    {
      if a < |table| {
        ItemOkInLarger(|rules|, |rules'|, table[a][i]);
      }
    }
  }

  class Parser {
    const src: Text
    var rules: Rules
    var ids: Ids
    var defined: set<Name>
    var pos: nat

    constructor (src: Text)
      ensures Valid() && this.src == src && rules == [] && ids == map[] && defined == {} && pos == 0
    {
      this.src := src;
      rules, ids, defined, pos := [], map[], {}, 0;
    }

    ghost predicate Valid()
      reads this
    {
      pos <= |src| && TableOk(rules, ids, defined)
    }

    method Peek(off: nat) returns (b: byte)
      requires pos <= |src|
      ensures b == At(src[pos..], off)
    {
      b := if pos + off < |src| then src[pos + off] else 0;
    }

    method SkipComment()
      requires pos <= |src|
      modifies `pos
      ensures pos == old(pos) + CommentLen(src[old(pos)..]) <= |src|
    {
      ghost var start := pos;
      while pos < |src| && src[pos] != NEWLINE
        invariant start <= pos <= |src|
        invariant CommentLen(src[start..]) == pos - start + CommentLen(src[pos..])
        decreases |src| - pos
      {
        assert src[pos..][1..] == src[pos + 1..];
        pos := pos + 1;
      }
    }

    method SkipSpace(newlines: bool)
      requires pos <= |src|
      modifies `pos
      ensures pos == old(pos) + SpaceLen(src[old(pos)..], newlines) <= |src|
    {
      ghost var start := pos;
      while pos < |src|
        invariant start <= pos <= |src|
        invariant SpaceLen(src[start..], newlines) == pos - start + SpaceLen(src[pos..], newlines)
      {
        ghost var here := pos;
        var c := src[pos];
        if c == HASH {
          SkipComment();
        } else if c == 0x20 || c == 0x09 || c == 0x0D || (c == NEWLINE && newlines) {
          pos := pos + 1;
        } else {
          return;
        }
        assert src[here..][pos - here..] == src[pos..];
      }
    }

    method Hex(digits: nat) returns (ok: bool, out: uint32)
      requires pos <= |src|
      modifies `pos
      ensures pos <= |src|
      ensures match ReadHex(src[old(pos)..], digits, 0)
              case Fail => !ok
              case Got(v, n) => ok && out == v && pos == old(pos) + n
    {
      ghost var start := pos;
      out := 0;
      for i := 0 to digits
        invariant start <= pos <= |src| && pos == start + i
        invariant ReadHex(src[start..], digits, 0) == Later(i, ReadHex(src[pos..], digits - i, out))
      {
        var c := Peek(0);
        var v := HexDigit(c);
        if v < 0 || pos >= |src| {
          return false, out;
        }
        assert src[pos..][1..] == src[pos + 1..];
        out := (out * 16 + v) % 0x1_0000_0000;
        pos := pos + 1;
      }
      ok := true;
    }

    method Continuation(extra: nat, lead: uint32) returns (ok: bool, cp: uint32)
      requires pos <= |src|
      modifies `pos
      ensures pos <= |src|
      ensures match ReadTail(src[old(pos)..], extra, lead)
              case Fail => !ok
              case Got(v, n) => ok && cp == v && pos == old(pos) + n
    {
      ghost var start := pos;
      cp := lead;
      for i := 0 to extra
        invariant start <= pos <= |src| && pos == start + i
        invariant ReadTail(src[start..], extra, lead) == Later(i, ReadTail(src[pos..], extra - i, cp))
      {
        if pos >= |src| || !(0x80 <= src[pos] < 0xC0) {
          return false, cp;
        }
        assert src[pos..][1..] == src[pos + 1..];
        cp := (cp * 64 + src[pos] % 64) % 0x1_0000_0000;
        pos := pos + 1;
      }
      ok := true;
    }

    /** One character of a literal or class. */
    method NextChar() returns (ok: bool, cp: uint32)
      requires pos <= |src|
      modifies `pos
      ensures pos <= |src|
      ensures match ReadChar(src[old(pos)..])
              case Fail => !ok
              case Got(v, n) => ok && cp == v && pos == old(pos) + n
    {
      ghost var rest := src[pos..];
      if pos >= |src| {
        return false, 0;
      }
      var b := src[pos];
      assert rest[1..] == src[pos + 1..];
      if b != BACKSLASH {
        pos := pos + 1;
        if b < 0x80 {
          return true, b;
        }
        if b < 0xC0 {
          return false, 0;
        }
        var extra := if b >= 0xF0 then 3 else if b >= 0xE0 then 2 else 1;
        ok, cp := Continuation(extra, if extra == 3 then b % 8 else if extra == 2 then b % 16 else b % 32);
        return;
      }
      pos := pos + 1;
      if pos >= |src| {
        return false, 0;
      }
      var e := src[pos];
      assert rest[2..] == src[pos + 1..];
      pos := pos + 1;
      if e == 0x6E {
        return true, 0x0A;
      } else if e == 0x72 {
        return true, 0x0D;
      } else if e == 0x74 {
        return true, 0x09;
      } else if e == 0x30 {
        return true, 0;
      } else if e == 0x78 {
        ok, cp := Hex(2);
      } else if e == 0x75 {
        ok, cp := Hex(4);
      } else if e == 0x55 {
        ok, cp := Hex(8);
      } else {
        return true, e;
      }
    }

    /** A string literal: one item per character. */
    method ParseString(before: seq<Item>) returns (ok: bool, items: seq<Item>)
      requires pos < |src|
      modifies `pos
      ensures pos <= |src|
      ensures match ReadString(src[old(pos) + 1..])
              case Fail => !ok
              case Got(w, n) => ok && items == before + LitItems(w) && pos == old(pos) + 1 + n
    {
      hide ReadChar, ReadString;
      pos := pos + 1;
      ghost var start, w := pos, [];
      items := before;
      ShiftNone(ReadString(src[start..]));
      while pos < |src| && src[pos] != QUOTE
        invariant start <= pos <= |src| && items == before + LitItems(w)
        invariant ReadString(src[start..]) == Shift(w, pos - start, ReadString(src[pos..]))
        decreases |src| - pos
      {
        ghost var here := pos;
        var cp;
        ok, cp := NextChar();
        if !ok {
          StringFail(src, here);
          return;
        }
        StringStep(src, start, here, w, cp, pos - here);
        LitItemsSnoc(w, cp);
        w := w + [cp];
        items := items + [CharItem(cp)];
      }
      StringEnd(src, pos);
      ok := pos < |src|;
      if ok {
        pos := pos + 1;
        assert w + [] == w;
      }
    }

    method ParseRange() returns (ok: bool, r: Range)
      requires pos <= |src|
      modifies `pos
      ensures pos <= |src|
      ensures match ReadRange(src[old(pos)..])
              case Fail => !ok
              case Got(x, n) => ok && r == x && pos == old(pos) + n
    {
      ghost var start := pos;
      var lo, hi;
      r := Range(0, 0);
      ok, lo := NextChar();
      if !ok {
        return;
      }
      hi := lo;
      var dash := Peek(0);
      var after := Peek(1);
      assert forall i: nat :: At(src[start..], pos - start + i) == At(src[pos..], i);
      if dash == DASH && after != CLOSE_BRACKET && after != 0 {
        pos := pos + 1;
        assert src[start..][pos - start..] == src[pos..];
        ok, hi := NextChar();
        if !ok {
          return;
        }
      }
      if hi < lo {
        return false, r;
      }
      return true, Range(lo, hi);
    }

    method ParseRanges() returns (ok: bool, ranges: seq<Range>)
      requires pos <= |src|
      modifies `pos
      ensures pos <= |src|
      ensures match ReadRanges(src[old(pos)..])
              case Fail => !ok
              case Got(xs, n) => ok && ranges == xs && pos == old(pos) + n
    {
      hide ReadRange, ReadRanges;
      ghost var start := pos;
      ranges := [];
      ShiftNone(ReadRanges(src[start..]));
      while pos < |src| && src[pos] != CLOSE_BRACKET
        invariant start <= pos <= |src|
        invariant ReadRanges(src[start..]) == Shift(ranges, pos - start, ReadRanges(src[pos..]))
        decreases |src| - pos
      {
        ghost var here := pos;
        var r;
        ok, r := ParseRange();
        if !ok {
          RangesFail(src, here);
          return;
        }
        RangesStep(src, start, here, ranges, r, pos - here);
        ranges := ranges + [r];
      }
      RangesEnd(src, pos);
      ok := pos < |src|;
      if ok {
        pos := pos + 1;
        assert ranges + [] == ranges;
      }
    }

    method ParseClass() returns (ok: bool, cs: CharSet)
      requires pos < |src|
      modifies `pos
      ensures pos <= |src|
      ensures match ReadClass(src[old(pos) + 1..])
              case Fail => !ok
              case Got(x, n) => ok && cs == x && pos == old(pos) + 1 + n
    {
      hide ReadRanges;
      pos := pos + 1;
      ghost var top := pos;
      var c := Peek(0);
      var negated := c == CARET;
      if negated {
        pos := pos + 1;
      }
      assert src[top..][pos - top..] == src[pos..];
      var ranges;
      ok, ranges := ParseRanges();
      cs := CharSet(ranges, negated);
    }

    /** A run of decimal digits and the number it spells. */
    method ParseDigits() returns (len: nat, value: nat)
      requires pos <= |src|
      modifies `pos
      ensures len == DigitsLen(src[old(pos)..]) && pos == old(pos) + len <= |src|
      ensures value == Number(src[old(pos)..][..len])
    {
      ghost var start := pos;
      len, value := 0, 0;
      while pos < |src| && IsDigit(src[pos])
        invariant start <= pos <= |src| && len == pos - start
        invariant DigitsLen(src[start..]) == len + DigitsLen(src[pos..])
        invariant value == Number(src[start..][..len])
        decreases |src| - pos
      {
        assert src[pos..][1..] == src[pos + 1..];
        assert src[start..][..len + 1][..len] == src[start..][..len];
        value := value * 10 + DigitValue(src[pos]);
        len, pos := len + 1, pos + 1;
      }
    }

    method ParseCounts() returns (ok: bool, c: Counts)
      requires pos < |src|
      modifies `pos
      ensures pos <= |src|
      ensures match ReadCounts(src[old(pos)..])
              case Fail => !ok
              case Got(v, n) => ok && c == v && pos == old(pos) + n
    {
      hide DigitsLen, Number, ReadCounts;
      ghost var start := pos;
      pos := pos + 1;
      var a, lo := ParseDigits();
      c := Counts(a, 0, lo, lo);
      ghost var mid := pos;
      CountsRead(src, start, mid, lo);
      var comma := Peek(0);
      if comma == COMMA {
        pos := pos + 1;
        var b, hi := ParseDigits();
        c := Counts(a, b, lo, if b == 0 then -1 else hi);
        CountsReadComma(src, start, mid, pos, lo, c.hi);
      }
      var close := Peek(0);
      ok := close == CLOSE_BRACE;
      if ok {
        pos := pos + 1;
      }
    }

    method ParseRepeatBounds() returns (ok: bool, lo: nat, hi: int)
      requires pos < |src|
      modifies `pos
      ensures pos <= |src|
      ensures match ReadBounds(src[old(pos)..])
              case Fail => !ok
              case Got(b, n) => ok && lo == b.lo && hi == b.hi && pos == old(pos) + n
    {
      var c;
      ok, c := ParseCounts();
      lo, hi := c.lo, c.hi;
      if !ok || (c.aLen == 0 && c.bLen == 0) {
        return false, lo, hi;
      }
      if lo > MAX_REPEAT || hi > MAX_REPEAT {
        return false, lo, hi;
      }
      if hi >= 0 && hi < lo {
        return false, lo, hi;
      }
      ok := true;
    }

    method RuleId(name: Name) returns (id: nat)
      requires Valid() && name != []
      modifies `rules, `ids
      ensures Valid() && old(rules) <= rules && Submap(old(ids), ids) && ids.Keys == old(ids.Keys) + {name}
      ensures name in ids && id == ids[name] && LoopsIn(rules, ids, |old(rules)|, iset{})
    {
      NoLoopsYet(rules, ids, iset{});
      if name in ids {
        return ids[name];
      }
      id := |rules|;
      AppendOk(rules, Rule(name, []));
      AppendLayered(rules, Rule(name, []));
      NamedIsNoLoop(rules, ids[name := id], name);
      rules := rules + [Rule(name, [])];
      ids := ids[name := id];
    }

    method AddSynthetic(alts: seq<Alt>) returns (id: nat)
      requires Valid() && alts != [] && AltsOk(|rules| + 1, alts)
      requires AllEarlier(|rules|, alts) || LoopAlts(|rules|, alts)
      modifies `rules
      ensures Valid() && rules == old(rules) + [Rule([], alts)] && id == |old(rules)|
    {
      id := |rules|;
      AppendOk(rules, Rule([], alts));
      AppendLayered(rules, Rule([], alts));
      rules := rules + [Rule([], alts)];
    }

    /** X? becomes S ::= | X, or S ::= | X tail when nested. */
    method MakeOpt(x: Item, tail: int, ghost m: nat) returns (id: nat)
      requires Valid() && ItemOk(|rules|, x) && m > 0
      requires if m == 1 then tail == -1 else 0 <= tail < |rules| && IsOpt(rules, tail, x, m - 1)
      modifies `rules
      ensures Valid() && old(rules) <= rules && id < |rules| && IsOpt(rules, id, x, m)
      ensures NoLoops(rules, |old(rules)|)
    {
      var one := if tail >= 0 then [x, Ref(tail)] else [x];
      ghost var before := rules;
      id := AddSynthetic([[], one]);
      if m > 1 {
        PrefixKeeps(before, rules);
        OptKept(before, rules, tail, x, m - 1);
      }
    }

    /** X* becomes the right-recursive S ::= | X S. */
    method MakeStar(x: Item) returns (id: nat)
      requires Valid() && ItemOk(|rules|, x)
      modifies `rules
      ensures Valid() && old(rules) <= rules && id < |rules| && IsStar(rules, id, x)
      ensures LoopsOver(rules, |old(rules)|, x)
    {
      id := |rules|;
      var empty: Alt := [];
      var again := AddSynthetic([empty, [x, Ref(id)]]);
    }

    /** The single item a whole element is repeated as. */
    method Fold(cur: seq<Item>) returns (x: Item)
      requires Valid() && cur != [] && FormOk(rules, cur)
      modifies `rules
      ensures Valid() && old(rules) <= rules && Wraps(rules, x, cur) && ItemOk(|rules|, x)
      ensures NoLoops(rules, |old(rules)|)
    {
      if |cur| == 1 {
        assert ItemOk(|rules|, cur[0]);
        return cur[0];
      }
      FormOkInLarger(rules, rules + [Rule([], [cur])], cur);
      var id := AddSynthetic([cur]);
      x := Ref(id);
    }

    /** Nested optionals, innermost first: up to `n` copies of `x`. */
    method MakeOpts(x: Item, n: nat) returns (id: nat)
      requires Valid() && ItemOk(|rules|, x) && n > 0
      modifies `rules
      ensures Valid() && old(rules) <= rules && id < |rules| && IsOpt(rules, id, x, n)
      ensures NoLoops(rules, |old(rules)|)
    {
      id := MakeOpt(x, -1, 1);
      for i := 1 to n
        invariant Valid() && old(rules) <= rules && id < |rules| && IsOpt(rules, id, x, i)
        invariant NoLoops(rules, |old(rules)|)
      {
        ItemOkInLarger(|old(rules)|, |rules|, x);
        ghost var r1 := rules;
        id := MakeOpt(x, id, i + 1);
        NoLoopsMore(r1, rules, |old(rules)|);
      }
    }

    /** `lo` copies, then a loop or optionals for the rest. */
    method RepeatItem(x: Item, lo: nat, hi: int) returns (items: seq<Item>)
      requires Valid() && ItemOk(|rules|, x) && (hi == -1 || lo <= hi)
      modifies `rules
      ensures Valid() && old(rules) <= rules && FormOk(rules, items) && IsRepetition(rules, items, x, lo, hi)
      ensures if hi < 0 then LoopsOver(rules, |old(rules)|, x) else NoLoops(rules, |old(rules)|)
    {
      items := [];
      for i := 0 to lo
        invariant rules == old(rules)
        invariant items == CopiesOf(x, i) && forall k :: 0 <= k < |items| ==> items[k] == x
      {
        CopiesSnoc(x, i);
        items := items + [x];
      }
      CopiesLen(x, lo);
      assert items[..lo] == items;
      if hi < 0 {
        var star := MakeStar(x);
        assert (items + [Ref(star)])[lo..] == [Ref(star)] && (items + [Ref(star)])[..lo] == items;
        items := items + [Ref(star)];
      } else if hi > lo {
        var opt := MakeOpts(x, hi - lo);
        assert (items + [Ref(opt)])[lo..] == [Ref(opt)] && (items + [Ref(opt)])[..lo] == items;
        items := items + [Ref(opt)];
      }
      ItemOkInLarger(|old(rules)|, |rules|, x);
    }

    /** One postfix operator, applied to a whole element. */
    method ApplyOne(cur: seq<Item>, lo: nat, hi: int, ghost e: Elem) returns (items: seq<Item>)
      requires Valid() && cur != [] && FormOk(rules, cur) && HasElem(rules, ids, cur, e)
      requires hi == -1 || lo <= hi
      modifies `rules
      ensures Valid() && old(rules) <= rules && FormOk(rules, items) && HasElem(rules, ids, items, Rep(e, lo, hi))
      ensures LoopsIn(rules, ids, |old(rules)|, ElemParts(Rep(e, lo, hi)))
    {
      ghost var r0 := rules;
      var x := Fold(cur);
      ghost var r1 := rules;
      items := RepeatItem(x, lo, hi);
      WrapsKept(r1, rules, x, cur);
      PrefixKeeps(r0, rules);
      ElemKept(r0, ids, rules, ids, cur, e);
      RepLoops(r1, rules, ids, |r0|, x, cur, e, lo, hi);
      assert HasRep(rules, ids, items, e, lo, hi, x, cur);
    }

    method ParseOne() returns (ok: bool, lo: nat, hi: int)
      requires pos < |src| && IsPostfix(src[pos])
      modifies `pos
      ensures pos <= |src|
      ensures match ReadOne(src[old(pos)..])
              case Fail => !ok
              case Got(b, n) => ok && lo == b.lo && hi == b.hi && pos == old(pos) + n
    {
      hide ReadBounds;
      var c := src[pos];
      if c == STAR {
        pos := pos + 1;
        return true, 0, -1;
      } else if c == QUESTION {
        pos := pos + 1;
        return true, 0, 1;
      } else if c == PLUS {
        pos := pos + 1;
        return true, 1, -1;
      } else {
        ok, lo, hi := ParseRepeatBounds();
      }
    }

    /** The postfix operators right after an element bind to all of it. */
    method ApplyPostfix(elem: seq<Item>, ghost e: Elem) returns (ok: bool, items: seq<Item>, ghost e': Elem)
      requires Valid() && FormOk(rules, elem) && HasElem(rules, ids, elem, e)
      modifies `rules, `pos
      ensures Valid() && old(rules) <= rules && ElemNames(e') == ElemNames(e)
      ensures match ReadPostfix(src[old(pos)..], e)
              case Fail => !ok
              case Got(v, n) => ok && e' == v && pos == old(pos) + n
      ensures ok ==> FormOk(rules, items) && HasElem(rules, ids, items, e')
      ensures ok ==> LoopsIn(rules, ids, |old(rules)|, ElemParts(e')) && ElemParts(e) <= ElemParts(e')
    {
      hide ReadOne, ReadPostfix, HasElem, FormOk, TableOk, Vanishes, LoopsIn, ElemParts, Keeps, Submap;
      ghost var start := pos;
      items, e' := elem, e;
      LaterNone(ReadPostfix(src[start..], e));
      NoLoopsYet(rules, ids, ElemParts(e));
      while pos < |src|
        invariant Valid() && old(rules) <= rules && start <= pos && ElemNames(e') == ElemNames(e)
        invariant FormOk(rules, items) && HasElem(rules, ids, items, e')
        invariant LoopsIn(rules, ids, |old(rules)|, ElemParts(e')) && ElemParts(e) <= ElemParts(e')
        invariant ReadPostfix(src[start..], e) == Later(pos - start, ReadPostfix(src[pos..], e'))
        decreases |src| - pos
      {
        var c := src[pos];
        if !(c == STAR || c == PLUS || c == QUESTION || c == OPEN_BRACE) {
          PostfixEnds(src, pos, e');
          return true, items, e';
        }
        VanishesIff(rules, ids, items, e');
        if items == [] {
          PostfixFails(src, pos, e');
          return false, items, e';
        }
        ghost var here := pos;
        var lo, hi;
        ok, lo, hi := ParseOne();
        if !ok {
          PostfixFails(src, here, e');
          return;
        }
        PostfixStep(src, here, e', lo, hi, pos - here);
        ghost var r1 := rules;
        items := ApplyOne(items, lo, hi, e');
        PostfixLoops(r1, rules, ids, |old(rules)|, e', lo, hi);
        e' := Rep(e', lo, hi);
      }
      PostfixEnds(src, pos, e');
      ok := true;
    }

    method ParseName() returns (name: Name)
      requires pos <= |src|
      modifies `pos
      ensures pos == old(pos) + WordLen(src[old(pos)..]) <= |src|
      ensures name == src[old(pos)..][..WordLen(src[old(pos)..])]
    {
      ghost var start := pos;
      name := [];
      while pos < |src| && IsWordByte(src[pos])
        invariant start <= pos <= |src| && name == src[start..pos]
        invariant WordLen(src[start..]) == pos - start + WordLen(src[pos..])
        decreases |src| - pos
      {
        assert src[pos..][1..] == src[pos + 1..];
        name := name + [src[pos]];
        pos := pos + 1;
      }
      assert src[start..][..pos - start] == src[start..pos];
    }

    /** A parenthesised group becomes a synthetic rule with its alternatives. */
    method ParseGroup() returns (ok: bool, item: Item, ghost alts: seq<Branch>)
      requires Valid() && pos < |src| && src[pos] == OPEN_PAREN
      modifies `rules, `ids, `pos
      ensures Valid() && old(rules) <= rules && Submap(old(ids), ids)
      ensures match ReadElem(src[old(pos)..])
              case Fail => !ok
              case Got(e, n) => ok && e == Group(alts) && pos == old(pos) + n
      ensures ok ==> ItemOk(|rules|, item) && HasElem(rules, ids, [item], Group(alts))
      ensures ok ==> ids.Keys == old(ids.Keys) + AltsNames(alts)
      ensures ok ==> LoopsIn(rules, ids, |old(rules)|, ElemParts(Group(alts)))
      decreases |src| - pos, 0
    {
      hide SpaceLen, ReadElem, ReadAlts, HasAlts, HasElem, AltsOk, TableOk, LoopsIn, ElemParts, AltsParts, AllEarlier, LoopAlts;
      ghost var start := pos;
      item := Ref(0);
      pos := pos + 1;
      var table;
      ok, table, alts := ParseAlternates(true);
      if !ok {
        GroupFails(src, start);
        return;
      }
      ghost var mid := pos;
      SkipSpace(true);
      GroupReads(src, start, mid, pos, alts);
      AtLater(src, start, pos - start, 0);
      var c := Peek(0);
      if c != CLOSE_PAREN {
        return false, item, alts;
      }
      pos := pos + 1;
      GroupOk(rules, ids, table, alts);
      GroupLoops(rules, ids, |old(rules)|, table, alts);
      var id := AddSynthetic(table);
      item := Ref(id);
    }

    /** One element without its postfix operators. */
    method ParseElem() returns (ok: bool, items: seq<Item>, ghost e: Elem)
      requires Valid() && pos < |src|
      modifies `rules, `ids, `pos
      ensures Valid() && old(rules) <= rules && Submap(old(ids), ids)
      ensures match ReadElem(src[old(pos)..])
              case Fail => !ok
              case Got(v, n) => ok && e == v && pos == old(pos) + n
      ensures ok ==> FormOk(rules, items) && HasElem(rules, ids, items, e) && ids.Keys == old(ids.Keys) + ElemNames(e)
      ensures ok ==> LoopsIn(rules, ids, |old(rules)|, ElemParts(e))
      decreases |src| - pos, 1
    {
      hide ReadString, ReadClass, SpaceLen, WordLen, LoopsIn, ElemParts;
      var c := src[pos];
      ghost var rest := src[pos..];
      assert rest[1..] == src[pos + 1..];
      items, e := [], Lit([]);
      if c == QUOTE {
        ghost var r := ReadString(rest[1..]);
        ok, items := ParseString([]);
        if ok {
          e := Lit(r.value);
          LitItemsOk(|rules|, r.value);
          NoLoopsYet(rules, ids, ElemParts(e));
          assert [] + LitItems(r.value) == LitItems(r.value);
        }
      } else if c == OPEN_BRACKET {
        var cs;
        ok, cs := ParseClass();
        items, e := [Chars(cs)], Set(cs);
        NoLoopsYet(rules, ids, ElemParts(e));
      } else if c == DOT {
        pos := pos + 1;
        ok, items, e := true, [Chars(CharSet([], true))], Set(CharSet([], true));
        NoLoopsYet(rules, ids, ElemParts(e));
      } else if c == OPEN_PAREN {
        var item;
        ghost var alts;
        ok, item, alts := ParseGroup();
        items, e := [item], Group(alts);
      } else if IsWordByte(c) {
        WordLenPositive(rest);
        var name := ParseName();
        var id := RuleId(name);
        ok, items, e := true, [Ref(id)], Call(name);
        LoopsMore(rules, ids, |old(rules)|, iset{}, ElemParts(e));
      } else {
        ok := false;
      }
    }

    /** One element with its postfix operators. */
    method ParsePiece() returns (ok: bool, items: seq<Item>, ghost e: Elem)
      requires Valid() && pos < |src|
      modifies `rules, `ids, `pos
      ensures Valid() && old(rules) <= rules && Submap(old(ids), ids)
      ensures match ReadPiece(src, old(pos))
              case Fail => !ok
              case Got(v, n) => ok && e == v && pos == old(pos) + n && n > 0
      ensures ok ==> FormOk(rules, items) && HasElem(rules, ids, items, e) && ids.Keys == old(ids.Keys) + ElemNames(e)
      ensures ok ==> LoopsIn(rules, ids, |old(rules)|, ElemParts(e))
      decreases |src| - pos, 2
    {
      hide ReadElem, ReadPostfix, HasElem, TableOk, FormOk, Submap, LoopsIn, ElemParts, ElemNames;
      ghost var at, r0 := pos, rules;
      var elem;
      ghost var e0;
      ok, elem, e0 := ParseElem();
      items, e := elem, e0;
      if !ok {
        return;
      }
      ghost var r1 := rules;
      ok, items, e := ApplyPostfix(elem, e0);
      if ok {
        PieceLoops(r0, r1, rules, ids, e0, e);
      }
    }

    /** Elements, each with its postfix operators, up to the end of an alternative. */
    method ParseSequence(nested: bool) returns (ok: bool, items: seq<Item>, ghost es: seq<Elem>)
      requires Valid()
      modifies `rules, `ids, `pos
      ensures Valid() && old(rules) <= rules && Submap(old(ids), ids)
      ensures match ReadSeq(src[old(pos)..], nested)
              case Fail => !ok
              case Got(v, n) => ok && es == v && pos == old(pos) + n
      ensures ok ==> FormOk(rules, items) && HasSeq(rules, ids, items, es) && ids.Keys == old(ids.Keys) + SeqNames(es)
      ensures ok ==> LoopsIn(rules, ids, |old(rules)|, SeqParts(es))
      decreases |src| - pos, 3
    {
      hide SpaceLen, ReadPiece, ReadSeq, HasElem, TableOk, FormOk, Submap, LoopsIn, ElemParts, SeqParts;
      hide HasSeq, SeqNames, ElemNames;
      ghost var start := pos;
      items, es := [], [];
      ShiftNone(ReadSeq(src[start..], nested));
      NoItemsOk(rules, ids);
      SubmapSelf(ids);
      NoLoopsYet(rules, ids, SeqParts(es));
      while true
        invariant Valid() && old(rules) <= rules && Submap(old(ids), ids) && start <= pos
        invariant FormOk(rules, items) && HasSeq(rules, ids, items, es) && ids.Keys == old(ids.Keys) + SeqNames(es)
        invariant LoopsIn(rules, ids, |old(rules)|, SeqParts(es))
        invariant ReadSeq(src[start..], nested) == Shift(es, pos - start, ReadSeq(src[pos..], nested))
        decreases |src| - pos
      {
        ghost var here, r0, i0 := pos, rules, ids;
        SkipSpace(nested);
        ghost var at := pos;
        if pos >= |src| || src[pos] == BAR || src[pos] == CLOSE_PAREN || src[pos] == NEWLINE {
          ok := true;
          SeqEnds(src, here, at, nested);
          assert es + [] == es;
          return;
        }
        var cur;
        ghost var e;
        ok, cur, e := ParsePiece();
        SubmapTrans(old(ids), i0, ids);
        if !ok {
          SeqFails(src, here, at, nested);
          return;
        }
        SeqStep(src, start, here, at, pos, nested, es, e);
        SeqLoops(r0, i0, rules, ids, |old(rules)|, es, e);
        SeqGrows(r0, i0, rules, ids, items, es, cur, e);
        items, es := items + cur, es + [e];
      }
    }

    /** Moves past the bar before a further alternative, if there is one. */
    method ParseBar(nested: bool) returns (more: bool)
      requires pos <= |src|
      modifies `pos
      ensures old(pos) <= pos <= |src| && (more ==> old(pos) < pos && BarAt(src, old(pos), pos, nested))
      ensures !more ==> ReadMore(src[old(pos)..], nested) == Got([], pos - old(pos))
    {
      hide SpaceLen;
      ghost var here := pos;
      SkipSpace(nested);
      AtLater(src, here, pos - here, 0);
      var c := Peek(0);
      more := c == BAR;
      if more {
        pos := pos + 1;
        SkipSpace(true);
      }
    }

    /** Alternatives separated by bars. */
    method ParseAlternates(nested: bool) returns (ok: bool, table: seq<Alt>, ghost alts: seq<Branch>)
      requires Valid()
      modifies `rules, `ids, `pos
      ensures Valid() && old(rules) <= rules && Submap(old(ids), ids)
      ensures match ReadAlts(src[old(pos)..], nested)
              case Fail => !ok
              case Got(v, n) => ok && alts == v && pos == old(pos) + n
      ensures ok ==> table != [] && AltsOk(|rules|, table) && HasAlts(rules, ids, table, alts)
      ensures ok ==> ids.Keys == old(ids.Keys) + AltsNames(alts)
      ensures ok ==> LoopsIn(rules, ids, |old(rules)|, AltsParts(alts))
      decreases |src| - pos, 4
    {
      hide SpaceLen, ReadSeq, ReadAlts, ReadMore, BarAt, HasSeq, HasAlts, AltsOk, TableOk, FormOk, Submap, AltsNames, LoopsIn, AltsParts, SeqParts;
      ghost var start := pos;
      var items;
      ghost var es;
      table, alts := [], [];
      ok, items, es := ParseSequence(nested);
      if !ok {
        AltsFail(src, start, nested);
        return;
      }
      FirstAlt(rules, ids, items, es);
      FirstLoops(rules, ids, |old(rules)|, es);
      AltsStart(src, start, pos, nested, es);
      table, alts := [items], [Branch(es)];
      while true
        invariant Valid() && old(rules) <= rules && Submap(old(ids), ids) && start <= pos
        invariant table != [] && AltsOk(|rules|, table) && HasAlts(rules, ids, table, alts)
        invariant ids.Keys == old(ids.Keys) + AltsNames(alts)
        invariant LoopsIn(rules, ids, |old(rules)|, AltsParts(alts))
        invariant ReadAlts(src[start..], nested) == Shift(alts, pos - start, ReadMore(src[pos..], nested))
        decreases |src| - pos
      {
        ghost var here, r0, i0 := pos, rules, ids;
        var more := ParseBar(nested);
        if !more {
          ok := true;
          assert alts + [] == alts;
          return;
        }
        ghost var at := pos;
        ok, items, es := ParseSequence(nested);
        SubmapTrans(old(ids), i0, ids);
        if !ok {
          MoreFails(src, here, at, nested);
          return;
        }
        MoreStep(src, start, here, at, pos, nested, alts, es);
        AltsLoops(r0, i0, rules, ids, |old(rules)|, alts, es);
        AltsGrow(r0, i0, rules, ids, table, alts, items, es);
        table, alts := table + [items], alts + [Branch(es)];
      }
    }

    method ParseHead() returns (ok: bool, name: Name)
      requires pos <= |src|
      modifies `pos
      ensures pos <= |src|
      ensures match ReadHead(src[old(pos)..])
              case Fail => !ok
              case Got(v, n) => ok && name == v && pos == old(pos) + n
    {
      hide SpaceLen, WordLen, ReadHead;
      ghost var start := pos;
      name := ParseName();
      ghost var mid := pos;
      if name == [] {
        HeadReads(src, start, mid, mid + SpaceLen(src[mid..], false));
        return false, name;
      }
      SkipSpace(false);
      HeadReads(src, start, mid, pos);
      var c0 := Peek(0);
      var c1 := Peek(1);
      var c2 := Peek(2);
      if c0 != COLON || c1 != COLON || c2 != EQUALS {
        return false, name;
      }
      pos := pos + 3;
      SkipSpace(true);
      ok := true;
    }

    /** One definition. Its alternatives enter the table only when all are read. */
    method ParseRule(ghost g: Source) returns (ok: bool, ghost d: Definition)
      requires Valid() && g.Keys == defined && SourceOk(rules, ids, g) && LoopsIn(rules, ids, 0, SourceParts(g))
      modifies `rules, `ids, `pos, `defined
      ensures Valid()
      ensures match ReadRule(src[old(pos)..])
              case Fail => !ok
              case Got(v, n) => if v.name in g then !ok else ok && d == v && pos == old(pos) + n
      ensures ok ==> var g' := g[d.name := d.alts]; g'.Keys == defined && SourceOk(rules, ids, g') && LoopsIn(rules, ids, 0, SourceParts(g'))
    {
      hide ReadHead, ReadAlts, HasAlts, AltsOk, SourceOk, Submap, TableOk, LoopsIn, SourceParts, AltsParts;
      ghost var start := pos;
      d := Definition([], []);
      var name;
      ok, name := ParseHead();
      if !ok {
        return;
      }
      Cut(src, start, pos);
      if name in defined {
        return false, d;
      }
      ghost var r0, i0 := rules, ids;
      BeginDefinition(rules, ids, defined, name);
      defined := defined + {name};
      var id := RuleId(name);
      ghost var r1, i1 := rules, ids;
      var table;
      ghost var alts;
      ok, table, alts := ParseAlternates(false);
      if !ok {
        return;
      }
      d := Definition(name, alts);
      SubmapTrans(i0, i1, ids);
      SubmapAt(i1, ids, name);
      TableAt(rules, ids, defined, name);
      InstallTable(rules, ids, defined, name, table);
      InstallSource(r0, i0, g, i1, rules, ids, defined, name, table, alts);
      InstallLoops(r0, i0, g, r1, i1, rules, ids, defined, name, table, alts);
      rules := rules[id := Rule(name, table)];
    }

    /** All rules of the text. */
    method ParseGrammar() returns (ok: bool, ghost g: Source)
      requires Valid() && pos == 0 && rules == [] && ids == map[] && defined == {}
      modifies `rules, `ids, `pos, `defined
      ensures Valid()
      ensures match ReadRules(src, map[])
              case Fail => !ok
              case Got(v, n) => ok && g == v
      ensures ok ==> g.Keys == defined && SourceOk(rules, ids, g) && LoopsIn(rules, ids, 0, SourceParts(g))
    {
      hide SpaceLen, ReadRule, HasAlts, SourceOk, TableOk, LoopsIn, SourceParts;
      g := map[];
      assert src[0..] == src;
      NoLoopsYet(rules, ids, SourceParts(g));
      NothingDefined(rules, ids, g);
      LaterNone(ReadRules(src, g));
      while true
        invariant Valid() && g.Keys == defined && SourceOk(rules, ids, g) && LoopsIn(rules, ids, 0, SourceParts(g))
        invariant ReadRules(src, map[]) == Later(pos, ReadRules(src[pos..], g))
        decreases |src| - pos
      {
        ghost var here := pos;
        SkipSpace(true);
        Cut(src, here, pos);
        if pos >= |src| {
          return true, g;
        }
        ghost var at := pos;
        ghost var d;
        ok, d := ParseRule(g);
        RulesStep(src, here, at, g);
        if !ok {
          return;
        }
        g := g[d.name := d.alts];
      }
    }

    /** Parses a grammar: every rule that is called must be defined, and `root` must
        be. The table then represents what was read. */
    method Parse() returns (ok: bool, root: nat, ghost g: Source)
      requires Valid() && pos == 0 && rules == [] && ids == map[] && defined == {}
      modifies `rules, `ids, `pos, `defined
      ensures Valid() && RulesOk(rules)
      ensures match ReadRules(src, map[])
              case Fail => !ok
              case Got(v, n) => (ok <==> Closed(v, ROOT)) && (ok ==> g == v)
      ensures ok ==> HasSource(rules, ids, g) && ROOT in ids && root == ids[ROOT] < |rules|
      ensures ok ==> g.Keys <= ids.Keys && NamesOk(rules, ids) && Layered(rules) && LoopsIn(rules, ids, 0, SourceParts(g))
      ensures ok ==> forall r :: 0 <= r < |rules| ==> rules[r].alts != []
    {
      hide HasAlts, AltsNames, ReadRules, CalledNames, LoopsIn, SourceParts;
      root := 0;
      ok, g := ParseGrammar();
      if !ok {
        return;
      }
      for r := 0 to |rules|
        invariant Valid() && SourceOk(rules, ids, g) && g.Keys == defined
        invariant forall q :: 0 <= q < r ==> rules[q].alts != []
      {
        if rules[r].name != [] && rules[r].alts == [] {
          UndefinedRule(rules, ids, g, defined, rules[r].name);
          return false, root, g;
        }
      }
      AllRulesDefined(rules, ids, g, defined);
      if ROOT !in ids {
        return false, root, g;
      }
      root := ids[ROOT];
    }
  }

  lemma {:induction false} RulesStep(src: Text, here: nat, at: nat, g: Source)
    requires here <= at < |src| && at == here + SpaceLen(src[here..], true)
    ensures var r := ReadRule(src[at..]);
            r.Got? ==> 0 < r.len && at + r.len <= |src|
    ensures var r := ReadRule(src[at..]);
            ReadRules(src[here..], g) ==
            if r.Fail? || r.value.name in g then Fail
            else Later(at + r.len - here, ReadRules(src[at + r.len..], g[r.value.name := r.value.alts]))
  {
    hide SpaceLen, ReadRule;
    Cut(src, here, at);
    if ReadRule(src[at..]).Got? {
      Cut(src, here, at + ReadRule(src[at..]).len);
    }
  }

  lemma NothingDefined(rules: Rules, ids: Ids, g: Source)
    requires ids == map[] && g == map[]
    ensures SourceOk(rules, ids, g)
  {
  }

  lemma UndefinedRule(rules: Rules, ids: Ids, g: Source, defined: set<Name>, x: Name)
    requires TableOk(rules, ids, defined) && SourceOk(rules, ids, g) && g.Keys == defined
    requires x in ids && rules[ids[x]].alts == []
    ensures !Closed(g, ROOT)
  {
    hide AltsNames;
    if x in g {
      assert false;
    } else {
      var y :| y in g && x in AltsNames(g[y]);
    }
  }

  lemma AllRulesDefined(rules: Rules, ids: Ids, g: Source, defined: set<Name>)
    requires TableOk(rules, ids, defined) && SourceOk(rules, ids, g) && g.Keys == defined
    requires forall r :: 0 <= r < |rules| ==> rules[r].alts != []
    ensures HasSource(rules, ids, g)
    ensures Closed(g, ROOT) <==> ROOT in ids
  {
    hide HasAlts, AltsNames;
    assert ids.Keys <= g.Keys;
    forall x, y | x in g && y in AltsNames(g[x])
      ensures y in g.Keys
    {
      assert y in CalledNames(g);
      assert y in ids.Keys;
    }
  }

  lemma TableAt(rules: Rules, ids: Ids, defined: set<Name>, x: Name)
    requires TableOk(rules, ids, defined) && x in ids
    ensures ids[x] < |rules|
  {
  }

  lemma BeginDefinition(rules: Rules, ids: Ids, defined: set<Name>, x: Name)
    requires TableOk(rules, ids, defined)
    ensures TableOk(rules, ids, defined + {x})
  {
  }

  lemma SubmapAt(a: Ids, b: Ids, x: Name)
    requires Submap(a, b) && x in a
    ensures x in b && b[x] == a[x]
  {
  }

  lemma RuleUpdateOk(rules: Rules, id: nat, name: Name, table: seq<Alt>)
    requires RulesOk(rules) && id < |rules| && rules[id].name == name && AltsOk(|rules|, table)
    ensures RulesOk(rules[id := Rule(name, table)])
    ensures name != [] ==> Keeps(rules, rules[id := Rule(name, table)])
  {
    var rules' := rules[id := Rule(name, table)];
    forall r, a | 0 <= r < |rules'| && 0 <= a < |rules'[r].alts|
      ensures FormOk(rules', rules'[r].alts[a])
    {
      if r != id {
        FormOkInLarger(rules, rules', rules[r].alts[a]);
      }
    }
  }

  lemma {:induction false} CalledNamesUpdate(g: Source, name: Name, alts: seq<Branch>)
    requires name !in g
    ensures CalledNames(g[name := alts]) == CalledNames(g) + AltsNames(alts)
  {
    var g' := g[name := alts];
    assert forall x :: x in g ==> x in g' && g'[x] == g[x];
    assert name in g' && g'[name] == alts;
  }

  lemma InstallTable(rules: Rules, ids: Ids, defined: set<Name>, name: Name, table: seq<Alt>)
    requires TableOk(rules, ids, defined) && name in defined && name in ids
    requires table != [] && AltsOk(|rules|, table)
    ensures TableOk(rules[ids[name] := Rule(name, table)], ids, defined)
  {
    RuleUpdateOk(rules, ids[name], name, table);
  }

  /** The loops of a definition are written in it. */
  lemma {:induction false} InstallLoops(r0: Rules, i0: Ids, g: Source, r1: Rules, i1: Ids, rules: Rules, ids: Ids,
                                        defined: set<Name>, name: Name, table: seq<Alt>, alts: seq<Branch>)
    requires r0 <= r1 <= rules && Submap(i0, ids) && Submap(i1, ids) && name !in g && name in ids
    requires TableOk(rules, ids, defined) && AltsOk(|rules|, table) && LoopsIn(r0, i0, 0, SourceParts(g))
    requires Submap(i0, i1) && LoopsIn(r1, i1, |r0|, iset{}) && LoopsIn(rules, ids, |r1|, AltsParts(alts))
    ensures LoopsIn(rules[ids[name] := Rule(name, table)], ids, 0, SourceParts(g[name := alts]))
  {
    hide LoopsIn, SourceParts, AltsParts, Submap, AltsOk;
    var rules', all := rules[ids[name] := Rule(name, table)], SourceParts(g[name := alts]);
    SourcePartsGrow(g, name, alts);
    PrefixKeeps(r0, r1);
    LoopsJoin(r0, i0, r1, i1, 0, SourceParts(g), iset{}, all);
    PrefixKeeps(r1, rules);
    LoopsJoin(r1, i1, rules, ids, 0, all, AltsParts(alts), all);
    RuleUpdateOk(rules, ids[name], name, table);
    SubmapSelf(ids);
    NoLoopsYet(rules', ids, all);
    LoopsJoin(rules, ids, rules', ids, 0, all, all, all);
  }

  /** Filling in a definition represents one rule more and disturbs no other. */
  lemma {:induction false} InstallSource(r0: Rules, i0: Ids, g: Source, i1: Ids, rules: Rules, ids: Ids, defined: set<Name>,
                      name: Name, table: seq<Alt>, alts: seq<Branch>)
    requires SourceOk(r0, i0, g) && r0 <= rules && Submap(i0, ids)
    requires i1.Keys == i0.Keys + {name} && ids.Keys == i1.Keys + AltsNames(alts)
    requires TableOk(rules, ids, defined) && name in ids && name !in g
    requires alts != [] && AltsOk(|rules|, table) && HasAlts(rules, ids, table, alts)
    ensures SourceOk(rules[ids[name] := Rule(name, table)], ids, g[name := alts])
  {
    hide HasAlts, AltsNames, RulesOk, AltsOk, CalledNames;
    var rules' := rules[ids[name] := Rule(name, table)];
    RuleUpdateOk(rules, ids[name], name, table);
    AltsKept(rules, ids, rules', ids, table, alts);
    InstallNames(i0, i1, ids, g, name, alts);
    forall x | x in g
      ensures x in ids && ids[x] < |rules'| && HasAlts(rules', ids, rules'[ids[x]].alts, g[x])
    {
      InstallOther(r0, i0, rules, rules', ids, x, g[x], name);
    }
  }

  lemma {:induction false} InstallNames(i0: Ids, i1: Ids, ids: Ids, g: Source, name: Name, alts: seq<Branch>)
    requires i0.Keys == g.Keys + CalledNames(g) && name !in g
    requires i1.Keys == i0.Keys + {name} && ids.Keys == i1.Keys + AltsNames(alts)
    ensures ids.Keys == g[name := alts].Keys + CalledNames(g[name := alts])
  {
    hide AltsNames, CalledNames;
    CalledNamesUpdate(g, name, alts);
    assert g[name := alts].Keys == g.Keys + {name};
  }

  lemma {:induction false} InstallOther(r0: Rules, i0: Ids, rules: Rules, rules': Rules, ids: Ids, x: Name, alts: seq<Branch>, name: Name)
    requires x in i0 && i0[x] < |r0| && HasAlts(r0, i0, r0[i0[x]].alts, alts)
    requires r0 <= rules && Submap(i0, ids) && Keeps(rules, rules') && x != name
    requires name in ids && ids[name] < |rules| && rules[ids[name]].name == name
    requires ids[x] < |rules| && rules[ids[x]].name == x
    requires forall r :: 0 <= r < |rules| && r != ids[name] ==> rules'[r] == rules[r]
    ensures ids[x] < |rules'| && HasAlts(rules', ids, rules'[ids[x]].alts, alts)
  {
    hide HasAlts;
    PrefixKeeps(r0, rules);
    assert Keeps(r0, rules');
    AltsKept(r0, i0, rules', ids, r0[i0[x]].alts, alts);
    assert rules'[ids[x]] == r0[i0[x]];
  }
}
