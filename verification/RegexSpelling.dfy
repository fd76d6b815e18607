/** How patterns are spelled, without a reader: concrete syntax trees that keep every byte of a
    pattern, what each of them is written as, and which bytes it stands for. */
module RegexSpelling {
  import opened CharSets
  import opened Reading
  import opened RegexSyntax
  import G = GbnfSpelling

  // ----- trees -----

  /** A member of a class: `a`, `a-z`, or `\e`. */
  datatype Member = Byte(b: byte) | Span(lo: byte, hi: byte) | Quoted(e: byte)

  datatype Atom =
    | Raw(b: byte)
    | Dot
    | Escape(e: byte)
    | Anchor(b: byte)
    | Class(negated: bool, members: seq<Member>)
    | Group(quiet: bool, alt: Alt)

  /** Nothing, `*`, `+`, `?`, or `{a}`, `{a,}`, `{a,b}`. */
  datatype Times = Once | Star | Plus | Question | Counted(a: Text, comma: bool, b: Text)

  datatype Part = Part(atom: Atom, times: Times)

  datatype Branch = Branch(parts: seq<Part>)

  /** Branches between bars. */
  datatype Alt = Alt(first: Branch, others: seq<Branch>)

  // ----- what they are written as -----

  function MemberText(x: Member): (t: Text)
    ensures t != []
  {
    match x
    case Byte(b) => [b]
    case Span(lo, hi) => [lo, 0x2D, hi]
    case Quoted(e) => [0x5C, e]
  }

  function MembersText(xs: seq<Member>): Text
  {
    if xs == [] then [] else MemberText(xs[0]) + MembersText(xs[1..])
  }

  function TimesText(q: Times): Text
  {
    match q
    case Once => []
    case Star => [0x2A]
    case Plus => [0x2B]
    case Question => [0x3F]
    case Counted(a, comma, b) => [0x7B] + a + (if comma then [0x2C] + b else []) + [0x7D]
  }

  function AtomText(x: Atom): Text
    decreases x, 0
  {
    match x
    case Raw(b) => [b]
    case Dot => [0x2E]
    case Escape(e) => [0x5C, e]
    case Anchor(b) => [b]
    case Class(negated, xs) => [0x5B] + ((if negated then [0x5E] else []) + (MembersText(xs) + [0x5D]))
    case Group(quiet, alt) => (if quiet then [0x28, 0x3F, 0x3A] else [0x28]) + (AltText(alt) + [0x29])
  }

  function PartsText(parts: seq<Part>): Text
    decreases parts, 0
  {
    if parts == [] then [] else PartText(parts[0]) + PartsText(parts[1..])
  }

  function PartText(p: Part): Text
    decreases p, 0
  {
    AtomText(p.atom) + TimesText(p.times)
  }

  function OthersText(others: seq<Branch>): Text
    decreases others, 0
  {
    if others == [] then [] else [0x7C] + (PartsText(others[0].parts) + OthersText(others[1..]))
  }

  function AltText(alt: Alt): Text
    decreases alt, 0
  {
    PartsText(alt.first.parts) + OthersText(alt.others)
  }

  // ----- which bytes they stand for -----

  predicate DigitByte(b: byte)
  {
    0x30 <= b <= 0x39
  }

  predicate WordByte(b: byte)
  {
    DigitByte(b) || 0x41 <= b <= 0x5A || 0x61 <= b <= 0x7A || b == 0x5F
  }

  predicate SpaceByte(b: byte)
  {
    0x09 <= b <= 0x0D || b == 0x20
  }

  /** `\d` digits, `\w` letters, digits and underscore, `\s` white space, upper case for
      everything else; `\n`, `\t` and `\r` control bytes, `\f` and `\v` too outside classes;
      any other byte itself. */
  predicate EscapeHas(e: byte, inClass: bool, b: byte)
  {
    if e == 0x64 then DigitByte(b)
    else if e == 0x44 then !DigitByte(b)
    else if e == 0x77 then WordByte(b)
    else if e == 0x57 then !WordByte(b)
    else if e == 0x73 then SpaceByte(b)
    else if e == 0x53 then !SpaceByte(b)
    else if e == 0x6E then b == 0x0A
    else if e == 0x74 then b == 0x09
    else if e == 0x72 then b == 0x0D
    else if e == 0x66 && !inClass then b == 0x0C
    else if e == 0x76 && !inClass then b == 0x0B
    else b == e
  }

  predicate MemberHas(x: Member, b: byte)
  {
    match x
    case Byte(c) => b == c
    case Span(lo, hi) => lo <= b <= hi
    case Quoted(e) => EscapeHas(e, true, b)
  }

  predicate AnyHas(xs: seq<Member>, b: byte)
  {
    exists i :: 0 <= i < |xs| && MemberHas(xs[i], b)
  }

  /** The bytes of an atom that stands for one byte. */
  predicate AtomHas(x: Atom, b: byte)
  {
    match x
    case Raw(c) => b == c
    case Dot => b != 0x0A
    case Escape(e) => EscapeHas(e, false, b)
    case Class(negated, xs) => AnyHas(xs, b) != negated
    case _ => false
  }

  function BytesOf(x: Atom): Table
  {
    seq(256, b requires 0 <= b < 256 => AtomHas(x, b))
  }

  function AtomMeans(x: Atom): Rx
    decreases x, 0
  {
    match x
    case Anchor(_) => Nothing
    case Group(_, alt) => AltMeans(alt)
    case _ => One(BytesOf(x))
  }

  /** How many copies are asked for; a negative upper bound means none, and an upper bound below
      the lower one counts as equal to it. */
  function Least(q: Times): nat
    requires q.Counted? ==> G.AllDigits(q.a)
  {
    match q
    case Star => 0
    case Question => 0
    case Counted(a, _, _) => G.Decimal(a)
    case _ => 1
  }

  function Most(q: Times): int
    requires q.Counted? ==> G.AllDigits(q.a) && G.AllDigits(q.b)
  {
    match q
    case Once => 1
    case Question => 1
    case Counted(a, comma, b) =>
      if comma && b == [] then -1 else if comma && G.Decimal(b) >= G.Decimal(a) then G.Decimal(b) else G.Decimal(a)
    case _ => -1
  }

  function PartMeans(p: Part): Rx
    decreases p, 0
  {
    var r := AtomMeans(p.atom);
    if p.times.Once? || !TimesOk(p.times) then r else Rep(r, Least(p.times), Most(p.times))
  }

  function PartsMean(parts: seq<Part>): seq<Rx>
    decreases parts, 0
  {
    if parts == [] then [] else [PartMeans(parts[0])] + PartsMean(parts[1..])
  }

  function OthersMean(others: seq<Branch>): seq<Rx>
    decreases others, 0
  {
    if others == [] then [] else [Cat(PartsMean(others[0].parts))] + OthersMean(others[1..])
  }

  function AltMeans(alt: Alt): Rx
    decreases alt, 0
  {
    var first := Cat(PartsMean(alt.first.parts));
    if alt.others == [] then first else Union([first] + OthersMean(alt.others))
  }

  // ----- which of them are spelled right -----

  /** A dash behind a member makes a range unless a bracket follows it. */
  predicate MakesSpan(rest: Text)
  {
    |rest| >= 2 && rest[0] == 0x2D && rest[1] != 0x5D
  }

  predicate MemberOk(x: Member, rest: Text)
  {
    match x
    case Byte(b) => b != 0x5C && b != 0x5D && !MakesSpan(rest)
    case Span(lo, hi) => lo != 0x5C && lo != 0x5D && hi != 0x5D && lo <= hi
    case Quoted(_) => true
  }

  predicate MembersOk(xs: seq<Member>, rest: Text)
  {
    xs == [] || (MemberOk(xs[0], MembersText(xs[1..]) + ([0x5D] + rest)) && MembersOk(xs[1..], rest))
  }

  predicate TimesOk(q: Times)
  {
    q.Counted? ==> G.AllDigits(q.a) && G.AllDigits(q.b) && q.a != [] && (q.comma || q.b == [])
  }

  ghost predicate StartsWith(t: Text, q: Times)
  {
    TimesOk(q) && !q.Once? && TimesText(q) <= t
  }

  /** A quantifier comes next. A brace that opens no count is none. */
  ghost predicate StartsTimes(t: Text)
  {
    exists q :: StartsWith(t, q)
  }

  /** Any byte that does not open, close or bar a group, open a class, quote or anchor: a
      quantifier with nothing before it, a bracket or a brace stand for themselves. */
  predicate IsRaw(b: byte)
  {
    b !in {0x28, 0x29, 0x5B, 0x5C, 0x7C, 0x2E, 0x5E, 0x24}
  }

  /** Atom `x` ends where `rest` begins. */
  ghost predicate AtomOk(x: Atom, rest: Text)
    decreases x, 0
  {
    match x
    case Raw(b) => IsRaw(b)
    case Dot => true
    case Escape(_) => true
    case Anchor(b) => b == 0x5E || b == 0x24
    case Class(negated, xs) => xs != [] && MembersOk(xs, rest) && (negated || MemberText(xs[0])[0] != 0x5E)
    case Group(quiet, alt) => AltOk(alt, [0x29] + rest) && (quiet || !([0x3F, 0x3A] <= AltText(alt)))
  }

  predicate EndsBranch(rest: Text)
  {
    rest == [] || rest[0] == 0x7C || rest[0] == 0x29
  }

  ghost predicate PartsOk(parts: seq<Part>, rest: Text)
    decreases parts, 0
  {
    if parts == [] then EndsBranch(rest)
    else
      var next := PartsText(parts[1..]) + rest;
      PartOk(parts[0], next) && PartsOk(parts[1..], rest)
  }

  /** One quantifier at most belongs to an atom; a further one is an atom of its own. */
  ghost predicate PartOk(p: Part, rest: Text)
    decreases p, 0
  {
    AtomOk(p.atom, TimesText(p.times) + rest) && TimesOk(p.times) && (p.times.Once? ==> !StartsTimes(rest))
  }

  ghost predicate OthersOk(others: seq<Branch>, rest: Text)
    decreases others, 0
  {
    if others == [] then rest == [] || rest[0] != 0x7C
    else PartsOk(others[0].parts, OthersText(others[1..]) + rest) && OthersOk(others[1..], rest)
  }

  ghost predicate AltOk(alt: Alt, rest: Text)
    decreases alt, 0
  {
    PartsOk(alt.first.parts, OthersText(alt.others) + rest) && OthersOk(alt.others, rest)
  }

  /** The pattern `p` is spelled as `alt` says. */
  ghost predicate SpelledBy(p: Text, alt: Alt)
  {
    AltOk(alt, []) && AltText(alt) == p
  }
}
