/** How a pattern is read: the reference reader, from the remaining pattern to a regular
    expression and the number of bytes it takes. */
module RegexReading {
  import opened CharSets
  import opened Reading
  import opened RegexSyntax

  const NEWLINE: byte := 0x0A
  const DOLLAR: byte := 0x24
  const OPEN_PAREN: byte := 0x28
  const CLOSE_PAREN: byte := 0x29
  const STAR: byte := 0x2A
  const PLUS: byte := 0x2B
  const COMMA: byte := 0x2C
  const DASH: byte := 0x2D
  const DOT: byte := 0x2E
  const COLON: byte := 0x3A
  const QUESTION: byte := 0x3F
  const OPEN_BRACKET: byte := 0x5B
  const BACKSLASH: byte := 0x5C
  const CLOSE_BRACKET: byte := 0x5D
  const CARET: byte := 0x5E
  const OPEN_BRACE: byte := 0x7B
  const BAR: byte := 0x7C
  const CLOSE_BRACE: byte := 0x7D

  // ----- byte sets -----

  function NoBytes(): Table
  {
    seq(256, i requires 0 <= i < 256 => false)
  }

  predicate IsWordByte(b: byte)
  {
    0x61 <= b <= 0x7A || 0x41 <= b <= 0x5A || 0x30 <= b <= 0x39 || b == 0x5F
  }

  predicate IsSpaceByte(b: byte)
  {
    b == 0x20 || b == 0x09 || b == 0x0A || b == 0x0D || b == 0x0C || b == 0x0B
  }

  predicate IsShorthand(esc: byte)
  {
    esc in {0x64, 0x44, 0x77, 0x57, 0x73, 0x53}
  }

  /** \d \D \w \W \s \S */
  predicate InShorthand(esc: byte, b: byte)
  {
    if esc == 0x64 then IsDigit(b)
    else if esc == 0x44 then !IsDigit(b)
    else if esc == 0x77 then IsWordByte(b)
    else if esc == 0x57 then !IsWordByte(b)
    else if esc == 0x73 then IsSpaceByte(b)
    else !IsSpaceByte(b)
  }

  function ShorthandTable(esc: byte): Table
  {
    seq(256, i requires 0 <= i < 256 => InShorthand(esc, i))
  }

  function AnyButNewline(): Table
  {
    seq(256, i requires 0 <= i < 256 => i != NEWLINE)
  }

  function Complement(t: Table): Table
  {
    seq(256, i requires 0 <= i < 256 => !t[i])
  }

  function Merge(t: Table, u: Table): Table
  {
    seq(256, i requires 0 <= i < 256 => t[i] || u[i])
  }

  function WithRange(t: Table, lo: byte, hi: byte): Table
  {
    seq(256, i requires 0 <= i < 256 => t[i] || lo <= i <= hi)
  }

  function WithByte(t: Table, b: byte): Table
  {
    t[b := true]
  }

  /** The byte an escape stands for outside a class; \f and \v are not known inside. */
  function EscapedByte(esc: byte, inClass: bool): byte
  {
    if esc == 0x6E then 0x0A
    else if esc == 0x74 then 0x09
    else if esc == 0x72 then 0x0D
    else if esc == 0x66 && !inClass then 0x0C
    else if esc == 0x76 && !inClass then 0x0B
    else esc
  }

  // ----- classes -----

  /** One member of a class, added to those read so far. */
  function ReadMember(s: Text, acc: Table): (r: Read<Table>)
    requires s != []
    ensures r.Got? ==> 0 < r.len <= |s|
  {
    if s[0] == BACKSLASH then
      if |s| == 1 then Fail
      else if IsShorthand(s[1]) then Got(Merge(acc, ShorthandTable(s[1])), 2)
      else Got(WithByte(acc, EscapedByte(s[1], true)), 2)
    else if |s| > 2 && s[1] == DASH && s[2] != CLOSE_BRACKET then
      if s[0] > s[2] then Fail else Got(WithRange(acc, s[0], s[2]), 3)
    else Got(WithByte(acc, s[0]), 1)
  }

  /** The members of a class up to its closing bracket. */
  function ReadMembers(s: Text, acc: Table, any: bool): (r: Read<Table>)
    ensures r.Got? ==> 0 < r.len <= |s|
    decreases |s|
  {
    if s == [] then Fail
    else if s[0] == CLOSE_BRACKET then if any then Got(acc, 1) else Fail
    else
      match ReadMember(s, acc)
      case Fail => Fail
      case Got(t, n) => Later(n, ReadMembers(s[n..], t, true))
  }

  /** A class from its opening bracket. */
  function ReadClass(s: Text): (r: Read<Table>)
    requires s != []
    ensures r.Got? ==> 0 < r.len <= |s|
  {
    var negate := At(s, 1) == CARET;
    var k := if negate then 2 else 1;
    match ReadMembers(s[k..], NoBytes(), false)
    case Fail => Fail
    case Got(t, n) => Got(if negate then Complement(t) else t, k + n)
  }

  // ----- quantifiers -----

  datatype Quant = NoQuant | Quant(lo: nat, hi: int, len: nat)

  function AtLeast(n: nat, m: int): int
  {
    if m < 0 then -1 else if m < n then n else m
  }

  /** A counted quantifier from its opening brace. A brace that opens none is a literal.
      An upper bound below the lower one counts as equal to it. */
  function ReadBraces(s: Text): (q: Quant)
    requires s != []
    ensures q.Quant? ==> 0 < q.len <= |s| && (q.hi == -1 || q.lo <= q.hi)
  {
    var a := DigitsLen(s[1..]);
    var n := Number(s[1..][..a]);
    if a == 0 then NoQuant
    else if At(s, a + 1) == COMMA then
      var b := DigitsLen(s[a + 2..]);
      var m := if b == 0 then -1 else Number(s[a + 2..][..b]);
      if At(s, a + b + 2) == CLOSE_BRACE then Quant(n, AtLeast(n, m), a + b + 3) else NoQuant
    else if At(s, a + 1) == CLOSE_BRACE then Quant(n, n, a + 2)
    else NoQuant
  }

  function ReadQuant(s: Text): (q: Quant)
    ensures q.Quant? ==> 0 < q.len <= |s| && (q.hi == -1 || q.lo <= q.hi)
  {
    if s == [] then NoQuant
    else if s[0] == STAR then Quant(0, -1, 1)
    else if s[0] == PLUS then Quant(1, -1, 1)
    else if s[0] == QUESTION then Quant(0, 1, 1)
    else if s[0] == OPEN_BRACE then ReadBraces(s)
    else NoQuant
  }

  // ----- expressions -----

  /** Bytes of a group opener, `(` or `(?:`. */
  function GroupLen(s: Text): nat
  {
    if |s| > 2 && s[1] == QUESTION && s[2] == COLON then 3 else 1
  }

  /** One unquantified item. A dangling quantifier is a literal, anchors read nothing. */
  function ReadAtom(s: Text): (r: Read<Rx>)
    ensures r.Got? ==> 0 < r.len <= |s|
    decreases |s|, 0
  {
    if s == [] then Fail
    else if s[0] == OPEN_PAREN then
      var k := GroupLen(s);
      match ReadAlt(s[k..])
      case Fail => Fail
      case Got(r, n) => if At(s, k + n) == CLOSE_PAREN then Got(r, k + n + 1) else Fail
    else if s[0] == OPEN_BRACKET then
      match ReadClass(s)
      case Fail => Fail
      case Got(t, n) => Got(One(t), n)
    else if s[0] == CLOSE_PAREN || s[0] == BAR then Fail
    else if s[0] == DOT then Got(One(AnyButNewline()), 1)
    else if s[0] == BACKSLASH then
      if |s| == 1 then Fail
      else if IsShorthand(s[1]) then Got(One(ShorthandTable(s[1])), 2)
      else Got(One(WithByte(NoBytes(), EscapedByte(s[1], false))), 2)
    else if s[0] == CARET || s[0] == DOLLAR then Got(Nothing, 1)
    else Got(One(WithByte(NoBytes(), s[0])), 1)
  }

  /** An atom with at most one quantifier. */
  function ReadRepeat(s: Text): (r: Read<Rx>)
    ensures r.Got? ==> 0 < r.len <= |s|
    decreases |s|, 1
  {
    match ReadAtom(s)
    case Fail => Fail
    case Got(r, n) =>
      match ReadQuant(s[n..])
      case NoQuant => Got(r, n)
      case Quant(lo, hi, m) => Got(Rep(r, lo, hi), n + m)
  }

  predicate EndsParts(s: Text)
  {
    s == [] || s[0] == BAR || s[0] == CLOSE_PAREN
  }

  function ReadParts(s: Text): (r: Read<seq<Rx>>)
    ensures r.Got? ==> r.len <= |s|
    decreases |s|, 2
  {
    if EndsParts(s) then Got([], 0)
    else
      match ReadRepeat(s)
      case Fail => Fail
      case Got(r, n) =>
        match ReadParts(s[n..])
        case Fail => Fail
        case Got(rs, m) => Got([r] + rs, n + m)
  }

  /** The branches after the first, each behind a bar. */
  function ReadBranches(s: Text): (r: Read<seq<Rx>>)
    ensures r.Got? ==> r.len <= |s|
    decreases |s|, 2
  {
    if s == [] || s[0] != BAR then Got([], 0)
    else
      match ReadParts(s[1..])
      case Fail => Fail
      case Got(parts, n) =>
        match ReadBranches(s[1 + n..])
        case Fail => Fail
        case Got(rs, m) => Got([Cat(parts)] + rs, 1 + n + m)
  }

  function ReadAlt(s: Text): (r: Read<Rx>)
    ensures r.Got? ==> r.len <= |s|
    decreases |s|, 3
  {
    match ReadParts(s)
    case Fail => Fail
    case Got(parts, n) =>
      match ReadBranches(s[n..])
      case Fail => Fail
      case Got(rs, m) => Got(if rs == [] then Cat(parts) else Union([Cat(parts)] + rs), n + m)
  }

  /** A pattern is supported when reading it takes all of it. */
  predicate Compiles(pattern: Text)
  {
    ReadAlt(pattern).Got? && ReadAlt(pattern).len == |pattern|
  }
}
