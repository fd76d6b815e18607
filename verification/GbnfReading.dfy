/** How GBNF text is read: the reference reader, from the remaining text to a syntax
    tree and the number of bytes it takes. */
module GbnfReading {
  import opened CharSets
  import opened GbnfSyntax
  import opened Reading

  const MAX_REPEAT := 1024

  const NEWLINE: byte := 0x0A
  const QUOTE: byte := 0x22
  const HASH: byte := 0x23
  const OPEN_PAREN: byte := 0x28
  const CLOSE_PAREN: byte := 0x29
  const STAR: byte := 0x2A
  const PLUS: byte := 0x2B
  const COMMA: byte := 0x2C
  const DASH: byte := 0x2D
  const DOT: byte := 0x2E
  const COLON: byte := 0x3A
  const EQUALS: byte := 0x3D
  const QUESTION: byte := 0x3F
  const OPEN_BRACKET: byte := 0x5B
  const BACKSLASH: byte := 0x5C
  const CLOSE_BRACKET: byte := 0x5D
  const CARET: byte := 0x5E
  const OPEN_BRACE: byte := 0x7B
  const BAR: byte := 0x7C
  const CLOSE_BRACE: byte := 0x7D

  predicate IsWordByte(b: byte)
  {
    0x61 <= b <= 0x7A || 0x41 <= b <= 0x5A || 0x30 <= b <= 0x39 || b == DASH || b == 0x5F
  }

  // ----- lexical -----

  function CommentLen(s: Text): (n: nat)
    ensures n <= |s| && (s != [] && s[0] != NEWLINE ==> n > 0)
  {
    if s == [] || s[0] == NEWLINE then 0 else 1 + CommentLen(s[1..])
  }

  /** White space and comments to skip; a newline counts only if `newlines`. */
  function SpaceLen(s: Text, newlines: bool): (n: nat)
    ensures n <= |s|
    decreases |s|
  {
    if s == [] then 0
    else if s[0] == HASH then CommentLen(s) + SpaceLen(s[CommentLen(s)..], newlines)
    else if s[0] == 0x20 || s[0] == 0x09 || s[0] == 0x0D then 1 + SpaceLen(s[1..], newlines)
    else if s[0] == NEWLINE && newlines then 1 + SpaceLen(s[1..], newlines)
    else 0
  }

  function WordLen(s: Text): (n: nat)
    ensures n <= |s|
  {
    if s == [] || !IsWordByte(s[0]) then 0 else 1 + WordLen(s[1..])
  }

  function HexDigit(b: byte): int
  {
    if IsDigit(b) then b - 0x30
    else if 0x61 <= b <= 0x66 then b - 0x61 + 10
    else if 0x41 <= b <= 0x46 then b - 0x41 + 10
    else -1
  }

  /** Exactly `digits` hexadecimal digits, shifted into 32 bits. */
  function ReadHex(s: Text, digits: nat, acc: uint32): (r: Read<uint32>)
    ensures r.Got? ==> r.len == digits <= |s|
    decreases digits
  {
    if digits == 0 then Got(acc, 0)
    else if HexDigit(At(s, 0)) < 0 || s == [] then Fail
    else
      match ReadHex(s[1..], digits - 1, (acc * 16 + HexDigit(s[0])) % 0x1_0000_0000)
      case Fail => Fail
      case Got(v, n) => Got(v, n + 1)
  }

  /** `extra` continuation bytes. The grammar text is decoded leniently: overlong
      forms and values past the last codepoint are not refused here. */
  function ReadTail(s: Text, extra: nat, acc: uint32): (r: Read<uint32>)
    ensures r.Got? ==> r.len == extra <= |s|
    decreases extra
  {
    if extra == 0 then Got(acc, 0)
    else if s == [] || !(0x80 <= s[0] < 0xC0) then Fail
    else
      match ReadTail(s[1..], extra - 1, (acc * 64 + s[0] % 64) % 0x1_0000_0000)
      case Fail => Fail
      case Got(v, n) => Got(v, n + 1)
  }

  /** One character of a literal or class: an escape, or a UTF-8 sequence. */
  function ReadChar(s: Text): (r: Read<uint32>)
    ensures r.Got? ==> 0 < r.len <= |s|
  {
    if s == [] then Fail
    else if s[0] != BACKSLASH then
      var b := s[0];
      if b < 0x80 then Got(b, 1)
      else if b < 0xC0 then Fail
      else
        var extra := if b >= 0xF0 then 3 else if b >= 0xE0 then 2 else 1;
        var lead := if extra == 3 then b % 8 else if extra == 2 then b % 16 else b % 32;
        match ReadTail(s[1..], extra, lead)
        case Fail => Fail
        case Got(v, n) => Got(v, n + 1)
    else if |s| == 1 then Fail
    else
      var e := s[1];
      if e == 0x6E then Got(0x0A, 2)
      else if e == 0x72 then Got(0x0D, 2)
      else if e == 0x74 then Got(0x09, 2)
      else if e == 0x30 then Got(0, 2)
      else if e == 0x78 || e == 0x75 || e == 0x55 then
        match ReadHex(s[2..], if e == 0x78 then 2 else if e == 0x75 then 4 else 8, 0)
        case Fail => Fail
        case Got(v, n) => Got(v, n + 2)
      else Got(e, 2)
  }

  // ----- elements -----

  /** The rest of a string literal, closing quote included. */
  function ReadString(s: Text): (r: Read<Word>)
    ensures r.Got? ==> 0 < r.len <= |s|
    decreases |s|
  {
    if s == [] then Fail
    else if s[0] == QUOTE then Got([], 1)
    else
      match ReadChar(s)
      case Fail => Fail
      case Got(c, n) =>
        match ReadString(s[n..])
        case Fail => Fail
        case Got(w, m) => Got([c] + w, n + m)
  }

  /** One range of a class; a dash before the closing bracket is a member. */
  function ReadRange(s: Text): (r: Read<Range>)
    ensures r.Got? ==> 0 < r.len <= |s| && r.value.lo <= r.value.hi
  {
    match ReadChar(s)
    case Fail => Fail
    case Got(lo, n) =>
      if At(s, n) == DASH && At(s, n + 1) != CLOSE_BRACKET && At(s, n + 1) != 0 then
        match ReadChar(s[n + 1..])
        case Fail => Fail
        case Got(hi, m) => if hi < lo then Fail else Got(Range(lo, hi), n + 1 + m)
      else Got(Range(lo, lo), n)
  }

  function ReadRanges(s: Text): (r: Read<seq<Range>>)
    ensures r.Got? ==> 0 < r.len <= |s| && forall i :: 0 <= i < |r.value| ==> r.value[i].lo <= r.value[i].hi
    decreases |s|
  {
    if s == [] then Fail
    else if s[0] == CLOSE_BRACKET then Got([], 1)
    else
      match ReadRange(s)
      case Fail => Fail
      case Got(x, n) =>
        match ReadRanges(s[n..])
        case Fail => Fail
        case Got(xs, m) => Got([x] + xs, n + m)
  }

  /** A class after its opening bracket. */
  function ReadClass(s: Text): (r: Read<CharSet>)
    ensures r.Got? ==> 0 < r.len <= |s| && WellFormed(r.value)
  {
    var negated := At(s, 0) == CARET;
    var k := if negated then 1 else 0;
    match ReadRanges(s[k..])
    case Fail => Fail
    case Got(xs, n) => Got(CharSet(xs, negated), k + n)
  }

  datatype Bounds = Bounds(lo: nat, hi: int)

  /** The digit runs of a counted repetition, from its opening brace to its closing
      one: how many digits each has and what they spell. */
  datatype Counts = Counts(aLen: nat, bLen: nat, lo: nat, hi: int)

  function ReadCounts(s: Text): (r: Read<Counts>)
    requires s != []
    ensures r.Got? ==> 0 < r.len <= |s| && r.value.hi >= -1
  {
    var a := DigitsLen(s[1..]);
    var lo := Number(s[1..][..a]);
    if At(s, a + 1) == COMMA && a + 1 < |s| then
      var b := DigitsLen(s[a + 2..]);
      var hi := if b == 0 then -1 else Number(s[a + 2..][..b]);
      if At(s, a + b + 2) != CLOSE_BRACE then Fail else Got(Counts(a, b, lo, hi), a + b + 3)
    else if At(s, a + 1) != CLOSE_BRACE then Fail
    else Got(Counts(a, 0, lo, lo), a + 2)
  }

  /** The bounds they give: at least one number, none over the limit, not inverted. */
  function ReadBounds(s: Text): (r: Read<Bounds>)
    requires s != []
    ensures r.Got? ==> 0 < r.len <= |s| && (r.value.hi == -1 || r.value.lo <= r.value.hi)
  {
    match ReadCounts(s)
    case Fail => Fail
    case Got(c, n) =>
      if c.aLen == 0 && c.bLen == 0 then Fail
      else if c.lo > MAX_REPEAT || c.hi > MAX_REPEAT then Fail
      else if c.hi >= 0 && c.hi < c.lo then Fail
      else Got(Bounds(c.lo, c.hi), n)
  }

  /** Elements that leave no item behind cannot be repeated. */
  predicate Vanishes(e: Elem)
  {
    match e
    case Lit(cps) => cps == []
    case Rep(_, lo, hi) => lo == 0 && hi == 0
    case _ => false
  }

  predicate IsPostfix(b: byte)
  {
    b == STAR || b == PLUS || b == QUESTION || b == OPEN_BRACE
  }

  /** The postfix operators following element `e`, applied left to right. */
  function ReadPostfix(s: Text, e: Elem): (r: Read<Elem>)
    ensures r.Got? ==> r.len <= |s|
    decreases |s|
  {
    if s == [] || !IsPostfix(s[0]) then Got(e, 0)
    else if Vanishes(e) then Fail
    else
      match ReadOne(s)
      case Fail => Fail
      case Got(b, n) =>
        match ReadPostfix(s[n..], Rep(e, b.lo, b.hi))
        case Fail => Fail
        case Got(e', m) => Got(e', n + m)
  }

  /** One postfix operator as bounds. */
  function ReadOne(s: Text): (r: Read<Bounds>)
    requires s != [] && IsPostfix(s[0])
    ensures r.Got? ==> 0 < r.len <= |s| && (r.value.hi == -1 || r.value.lo <= r.value.hi)
  {
    if s[0] == STAR then Got(Bounds(0, -1), 1)
    else if s[0] == QUESTION then Got(Bounds(0, 1), 1)
    else if s[0] == PLUS then Got(Bounds(1, -1), 1)
    else ReadBounds(s)
  }

  /** One element without its postfix operators. */
  function ReadElem(s: Text): (r: Read<Elem>)
    requires s != []
    ensures r.Got? ==> 0 < r.len <= |s|
    decreases |s|, 0
  {
    if s[0] == QUOTE then
      match ReadString(s[1..])
      case Fail => Fail
      case Got(w, n) => Got(Lit(w), n + 1)
    else if s[0] == OPEN_BRACKET then
      match ReadClass(s[1..])
      case Fail => Fail
      case Got(cs, n) => Got(Set(cs), n + 1)
    else if s[0] == DOT then Got(Set(CharSet([], true)), 1)
    else if s[0] == OPEN_PAREN then
      match ReadAlts(s[1..], true)
      case Fail => Fail
      case Got(alts, n) =>
        var k := n + SpaceLen(s[1 + n..], true);
        if At(s, 1 + k) != CLOSE_PAREN then Fail else Got(Group(alts), k + 2)
    else if IsWordByte(s[0]) then Got(Call(s[..WordLen(s)]), WordLen(s))
    else Fail
  }

  predicate EndsSequence(s: Text)
  {
    s == [] || s[0] == BAR || s[0] == CLOSE_PAREN || s[0] == NEWLINE
  }

  /** Elements up to the end of an alternative. */
  function ReadSeq(s: Text, nested: bool): (r: Read<seq<Elem>>)
    ensures r.Got? ==> r.len <= |s|
    decreases |s|, 1
  {
    var k := SpaceLen(s, nested);
    var t := s[k..];
    if EndsSequence(t) then Got([], k)
    else
      match ReadElem(t)
      case Fail => Fail
      case Got(e, n) =>
        match ReadPostfix(t[n..], e)
        case Fail => Fail
        case Got(e', m) =>
          match ReadSeq(t[n + m..], nested)
          case Fail => Fail
          case Got(es, l) => Got([e'] + es, k + n + m + l)
  }

  function ReadAlts(s: Text, nested: bool): (r: Read<seq<Branch>>)
    ensures r.Got? ==> r.len <= |s| && r.value != []
    decreases |s|, 3
  {
    match ReadSeq(s, nested)
    case Fail => Fail
    case Got(es, n) =>
      match ReadMore(s[n..], nested)
      case Fail => Fail
      case Got(alts, m) => Got([Branch(es)] + alts, n + m)
  }

  /** The alternatives after the first. */
  function ReadMore(s: Text, nested: bool): (r: Read<seq<Branch>>)
    ensures r.Got? ==> r.len <= |s|
    decreases |s|, 2
  {
    var k := SpaceLen(s, nested);
    if At(s, k) != BAR then Got([], k)
    else
      var j := k + 1 + SpaceLen(s[k + 1..], true);
      match ReadSeq(s[j..], nested)
      case Fail => Fail
      case Got(es, n) =>
        match ReadMore(s[j + n..], nested)
        case Fail => Fail
        case Got(alts, m) => Got([Branch(es)] + alts, j + n + m)
  }

  // ----- one step of reading -----

  lemma {:induction false} SeqUnfold(s: Text, k: nat, n: nat, m: nat, nested: bool, e: Elem, e': Elem)
    requires k == SpaceLen(s, nested) && !EndsSequence(s[k..])
    requires ReadElem(s[k..]) == Got(e, n) && ReadPostfix(s[k..][n..], e) == Got(e', m)
    ensures 0 < n && k + n + m <= |s|
    ensures ReadSeq(s, nested) ==
            match ReadSeq(s[k..][n + m..], nested)
            case Fail => Fail
            case Got(v, l) => Got([e'] + v, k + n + m + l)
  {
    hide SpaceLen, ReadElem, ReadPostfix, EndsSequence;
    var t := s[k..];
    assert |t[n..]| == |t| - n && m <= |t[n..]|;
  }

  lemma {:induction false} MoreUnfold(s: Text, k: nat, j: nat, n: nat, nested: bool, es: seq<Elem>)
    requires k == SpaceLen(s, nested) && At(s, k) == BAR && k < |s| && j == k + 1 + SpaceLen(s[k + 1..], true)
    requires ReadSeq(s[j..], nested) == Got(es, n)
    ensures j + n <= |s|
    ensures ReadMore(s, nested) ==
            match ReadMore(s[j + n..], nested)
            case Fail => Fail
            case Got(v, m) => Got([Branch(es)] + v, j + n + m)
  {
    hide SpaceLen, ReadSeq, At;
  }

  // ----- rules -----

  datatype Definition = Definition(name: Name, alts: seq<Branch>)

  /** A rule's name and its `::=`, up to where the alternatives begin. */
  function ReadHead(s: Text): (r: Read<Name>)
    ensures r.Got? ==> 0 < r.len <= |s| && r.value != []
  {
    var n := WordLen(s);
    var k := n + SpaceLen(s[n..], false);
    if n == 0 || At(s, k) != COLON || At(s, k + 1) != COLON || At(s, k + 2) != EQUALS then Fail
    else Got(s[..n], k + 3 + SpaceLen(s[k + 3..], true))
  }

  function ReadRule(s: Text): (r: Read<Definition>)
    ensures r.Got? ==> 0 < r.len <= |s| && r.value.name != [] && r.value.alts != []
  {
    match ReadHead(s)
    case Fail => Fail
    case Got(name, n) =>
      match ReadAlts(s[n..], false)
      case Fail => Fail
      case Got(alts, m) => Got(Definition(name, alts), n + m)
  }

  /** The rules of a whole text on top of those read before; none may be defined twice. */
  function ReadRules(s: Text, g: Source): (r: Read<Source>)
    decreases |s|
  {
    var k := SpaceLen(s, true);
    if k == |s| then Got(g, k)
    else
      match ReadRule(s[k..])
      case Fail => Fail
      case Got(d, n) =>
        if d.name in g then Fail
        else
          match ReadRules(s[k + n..], g[d.name := d.alts])
          case Fail => Fail
          case Got(g', m) => Got(g', k + n + m)
  }

  // ----- names -----

  function ElemNames(e: Elem): set<Name>
    decreases e, 0
  {
    match e
    case Lit(_) => {}
    case Set(_) => {}
    case Call(x) => {x}
    case Group(alts) => AltsNames(alts)
    case Rep(b, _, _) => ElemNames(b)
  }

  function SeqNames(es: seq<Elem>): set<Name>
    decreases es, 0
  {
    if es == [] then {} else SeqNames(es[..|es| - 1]) + ElemNames(es[|es| - 1])
  }

  function AltsNames(alts: seq<Branch>): set<Name>
    decreases alts, 0
  {
    if alts == [] then {} else AltsNames(alts[..|alts| - 1]) + SeqNames(alts[|alts| - 1].elems)
  }

  /** Every rule called anywhere is defined, and `root` is. */
  predicate Closed(g: Source, root: Name)
  {
    root in g && forall x :: x in g ==> AltsNames(g[x]) <= g.Keys
  }
}
