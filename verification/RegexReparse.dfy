/** Re-reading an atom on its own: counted repetition clones an atom by parsing the exact
    bytes it was read from, which must give the same expression again. */
module RegexReparse {
  import opened CharSets
  import opened Reading
  import opened RegexSyntax
  import opened RegexReading

  /** Dropping from a cut text is cutting the dropped text. */
  lemma CutDrop(s: Text, k: nat, n: nat)
    requires n <= k <= |s|
    ensures s[..k][n..] == s[n..][..k - n]
  {
  }

  lemma {:induction false} DigitsCut(s: Text, k: nat)
    requires k <= |s|
    ensures DigitsLen(s[..k]) == if DigitsLen(s) < k then DigitsLen(s) else k
    decreases k
  {
    if k > 0 && IsDigit(s[0]) {
      DigitsCut(s[1..], k - 1);
      CutDrop(s, k, 1);
    }
  }

  lemma MemberCut(s: Text, acc: Table, k: nat)
    requires s != [] && ReadMember(s, acc).Got? && ReadMember(s, acc).len < k <= |s|
    ensures ReadMember(s[..k], acc) == ReadMember(s, acc)
  {
    hide Merge, ShorthandTable, WithByte, WithRange, EscapedByte;
  }

  lemma {:induction false} MembersCut(s: Text, acc: Table, any: bool, k: nat)
    requires ReadMembers(s, acc, any).Got? && ReadMembers(s, acc, any).len <= k <= |s|
    ensures ReadMembers(s[..k], acc, any) == ReadMembers(s, acc, any)
    decreases |s|
  {
    hide ReadMember;
    if s[0] != CLOSE_BRACKET {
      var n := ReadMember(s, acc).len;
      MemberCut(s, acc, k);
      CutDrop(s, k, n);
      MembersCut(s[n..], ReadMember(s, acc).value, true, k - n);
    }
  }

  lemma ClassCut(s: Text, k: nat)
    requires s != [] && ReadClass(s).Got? && ReadClass(s).len <= k <= |s|
    ensures ReadClass(s[..k]) == ReadClass(s)
  {
    var j := if At(s, 1) == CARET then 2 else 1;
    CutDrop(s, k, j);
    MembersCut(s[j..], NoBytes(), false, k - j);
  }

  lemma BracesCut(s: Text, k: nat)
    requires 0 < k <= |s| && (ReadBraces(s).Quant? ==> ReadBraces(s).len <= k)
    ensures ReadBraces(s[..k]) == ReadBraces(s)
  {
    hide DigitsLen, Number;
    CutDrop(s, k, 1);
    DigitsCut(s[1..], k - 1);
    var a := DigitsLen(s[1..]);
    if a < k - 1 {
      assert s[..k][1..][..a] == s[1..][..a];
      assert At(s[..k], a + 1) == At(s, a + 1);
      if At(s, a + 1) == COMMA {
        BracesCutAfterComma(s, k, a);
      } else {
        assert a > 0 && At(s, a + 1) == CLOSE_BRACE ==> ReadBraces(s).len == a + 2;
      }
    }
  }

  lemma BracesCutAfterComma(s: Text, k: nat, a: nat)
    requires a + 1 < k <= |s| && a == DigitsLen(s[1..]) && At(s, a + 1) == COMMA
    requires ReadBraces(s).Quant? ==> ReadBraces(s).len <= k
    requires DigitsLen(s[..k][1..]) == a && s[..k][1..][..a] == s[1..][..a]
    ensures ReadBraces(s[..k]) == ReadBraces(s)
  {
    hide DigitsLen, Number;
    CutDrop(s, k, a + 2);
    DigitsCut(s[a + 2..], k - a - 2);
    var b := DigitsLen(s[a + 2..]);
    if b < k - a - 2 {
      assert s[..k][a + 2..][..b] == s[a + 2..][..b];
      assert At(s[..k], a + b + 2) == At(s, a + b + 2);
    }
  }

  /** A quantifier inside the cut is kept, and cutting never makes one. */
  lemma QuantCut(s: Text, k: nat)
    requires k <= |s| && (ReadQuant(s).Quant? ==> ReadQuant(s).len <= k)
    ensures ReadQuant(s[..k]) == ReadQuant(s)
  {
    hide ReadBraces;
    if k > 0 && s[0] == OPEN_BRACE {
      BracesCut(s, k);
    }
  }

  /** An atom is read the same from any text cut at or after its end. */
  lemma {:induction false} AtomCut(s: Text, k: nat)
    requires ReadAtom(s).Got? && ReadAtom(s).len <= k <= |s|
    ensures ReadAtom(s[..k]) == ReadAtom(s)
    decreases |s|, 0
  {
    hide ReadClass, ReadAlt;
    if s[0] == OPEN_PAREN {
      var g := GroupLen(s);
      CutDrop(s, k, g);
      AltCut(s[g..], k - g);
    } else if s[0] == OPEN_BRACKET {
      ClassCut(s, k);
    }
  }

  lemma {:induction false} RepeatCut(s: Text, k: nat)
    requires ReadRepeat(s).Got? && ReadRepeat(s).len < k <= |s|
    ensures ReadRepeat(s[..k]) == ReadRepeat(s)
    decreases |s|, 1
  {
    hide ReadAtom, ReadQuant;
    AtomCut(s, k);
    var n := ReadAtom(s).len;
    CutDrop(s, k, n);
    QuantCut(s[n..], k - n);
  }

  lemma {:induction false} PartsCut(s: Text, k: nat)
    requires ReadParts(s).Got? && ReadParts(s).len < k <= |s|
    ensures ReadParts(s[..k]) == ReadParts(s)
    decreases |s|, 2
  {
    hide ReadRepeat;
    if !EndsParts(s) {
      RepeatCut(s, k);
      var n := ReadRepeat(s).len;
      CutDrop(s, k, n);
      PartsCut(s[n..], k - n);
    }
  }

  lemma {:induction false} BranchesCut(s: Text, k: nat)
    requires ReadBranches(s).Got? && ReadBranches(s).len < k <= |s|
    ensures ReadBranches(s[..k]) == ReadBranches(s)
    decreases |s|, 2
  {
    hide ReadParts;
    if s[0] == BAR {
      var n := ReadParts(s[1..]).len;
      CutDrop(s, k, 1);
      PartsCut(s[1..], k - 1);
      BranchesUnfold(s, n);
      BranchesUnfold(s[..k], n);
      CutDrop(s, k, 1 + n);
      BranchesCut(s[1 + n..], k - 1 - n);
    }
  }

  lemma {:induction false} BranchesUnfold(s: Text, n: nat)
    requires s != [] && s[0] == BAR && ReadParts(s[1..]).Got? && ReadParts(s[1..]).len == n
    ensures 1 + n <= |s|
    ensures ReadBranches(s) ==
            match ReadBranches(s[1 + n..])
            case Fail => Fail
            case Got(rs, m) => Got([Cat(ReadParts(s[1..]).value)] + rs, 1 + n + m)
  {
    hide ReadParts;
  }

  lemma {:induction false} AltCut(s: Text, k: nat)
    requires ReadAlt(s).Got? && ReadAlt(s).len < k <= |s|
    ensures ReadAlt(s[..k]) == ReadAlt(s)
    decreases |s|, 3
  {
    hide ReadParts, ReadBranches;
    PartsCut(s, k);
    var n := ReadParts(s).len;
    CutDrop(s, k, n);
    BranchesCut(s[n..], k - n);
  }

  /** Reading just the bytes of an atom takes all of them and gives the same expression. */
  lemma {:induction false} ReparseIsFaithful(s: Text)
    requires ReadAtom(s).Got?
    ensures var n := ReadAtom(s).len; ReadRepeat(s[..n]) == Got(ReadAtom(s).value, n)
  {
    hide ReadAtom;
    var n := ReadAtom(s).len;
    AtomCut(s, n);
    assert s[..n][n..] == [];
  }
}
