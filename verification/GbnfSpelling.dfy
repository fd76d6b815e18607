/** How grammars are spelled, without a reader: concrete syntax trees that keep every byte of a
    text, what each of them is written as, and what it denotes. A tree says how its parts are
    told apart by what follows them. */
module GbnfSpelling {
  import opened CharSets
  import opened GbnfSyntax
  import opened Reading

  // ----- characters -----

  /** A plain ASCII byte, a longer UTF-8 sequence, `\e`, or `\x`, `\u`, `\U` with digits. */
  datatype Char = Raw(b: byte) | Multi(lead: byte, tail: Text) | Escape(e: byte) | Hex(e: byte, digits: Text)

  predicate IsHex(b: byte)
  {
    0x30 <= b <= 0x39 || 0x41 <= b <= 0x46 || 0x61 <= b <= 0x66
  }

  function HexOf(b: byte): (d: nat)
    requires IsHex(b)
    ensures d < 16
  {
    if b <= 0x39 then b - 0x30 else if b <= 0x46 then b - 0x41 + 10 else b - 0x61 + 10
  }

  predicate AllHex(ds: Text)
  {
    forall i :: 0 <= i < |ds| ==> IsHex(ds[i])
  }

  /** Positional notation, most significant digit first. */
  function HexNumber(ds: Text): nat
    requires AllHex(ds)
  {
    if ds == [] then 0 else HexNumber(ds[..|ds| - 1]) * 16 + HexOf(ds[|ds| - 1])
  }

  predicate AllTail(t: Text)
  {
    forall i :: 0 <= i < |t| ==> 0x80 <= t[i] <= 0xBF
  }

  predicate CharOk(ch: Char)
  {
    match ch
    case Raw(b) => b <= 0x7F && b != 0x5C
    case Multi(lead, tail) => lead >= 0xC0 && AllTail(tail) && |tail| == if lead >= 0xF0 then 3 else if lead >= 0xE0 then 2 else 1
    case Escape(e) => e != 0x78 && e != 0x75 && e != 0x55
    case Hex(e, ds) => AllHex(ds) && ((e == 0x78 && |ds| == 2) || (e == 0x75 && |ds| == 4) || (e == 0x55 && |ds| == 8))
  }

  function CharText(ch: Char): (t: Text)
    ensures t != []
  {
    match ch
    case Raw(b) => [b]
    case Multi(lead, tail) => [lead] + tail
    case Escape(e) => [0x5C, e]
    case Hex(e, ds) => [0x5C, e] + ds
  }

  /** The value bits of a lead byte. */
  function LeadValue(lead: byte): nat
    requires lead >= 0xC0
  {
    if lead >= 0xF8 then lead - 0xF8 else if lead >= 0xF0 then lead - 0xF0 else if lead >= 0xE0 then lead - 0xE0 else lead - 0xC0
  }

  function TailValue(b: byte): nat
    requires b >= 0x80
  {
    b - 0x80
  }

  function CharValue(ch: Char): nat
    requires CharOk(ch)
  {
    match ch
    case Raw(b) => b
    case Multi(lead, t) =>
      if |t| == 1 then LeadValue(lead) * 0x40 + TailValue(t[0])
      else if |t| == 2 then LeadValue(lead) * 0x1000 + TailValue(t[0]) * 0x40 + TailValue(t[1])
      else LeadValue(lead) * 0x40000 + TailValue(t[0]) * 0x1000 + TailValue(t[1]) * 0x40 + TailValue(t[2])
    case Escape(e) => if e == 0x6E then 0x0A else if e == 0x72 then 0x0D else if e == 0x74 then 0x09 else if e == 0x30 then 0 else e
    case Hex(_, ds) => HexNumber(ds)
  }

  // ----- blank space -----

  datatype Blank = Space(b: byte) | Comment(text: Text)

  function BlankText(x: Blank): (t: Text)
    ensures t != []
  {
    match x
    case Space(b) => [b]
    case Comment(t) => [0x23] + t
  }

  type Gap = seq<Blank>

  function GapText(gap: Gap): Text
  {
    if gap == [] then [] else BlankText(gap[0]) + GapText(gap[1..])
  }

  /** Spaces, tabs, carriage returns and comments are blank; line ends are if `lines`. */
  predicate StartsBlank(t: Text, lines: bool)
  {
    t != [] && (t[0] == 0x20 || t[0] == 0x09 || t[0] == 0x0D || t[0] == 0x23 || (t[0] == 0x0A && lines))
  }

  predicate EndsLine(t: Text)
  {
    t == [] || t[0] == 0x0A
  }

  /** All blank space before `rest`: comments run to the end of their line. */
  predicate GapOk(gap: Gap, lines: bool, rest: Text)
    decreases |gap|
  {
    if gap == [] then !StartsBlank(rest, lines)
    else
      && GapOk(gap[1..], lines, rest)
      && match gap[0]
         case Space(b) => b == 0x20 || b == 0x09 || b == 0x0D || (b == 0x0A && lines)
         case Comment(t) => 0x0A !in t && EndsLine(GapText(gap[1..]) + rest)
  }

  // ----- elements -----

  /** `a` or `a-z`. */
  datatype Span = One(ch: Char) | FromTo(lo: Char, hi: Char)

  /** `*`, `+`, `?`, or `{a}`, `{a,b}` with either number left out behind a comma. */
  datatype Op = Star | Plus | Question | Counted(a: Text, comma: bool, b: Text)

  datatype El =
    | Str(chars: seq<Char>)
    | Class(negated: bool, spans: seq<Span>)
    | Dot
    | Word(name: Text)
    | Paren(alts: Alts)
    | Post(el: El, op: Op)

  datatype Item = Item(gap: Gap, el: El)

  /** Elements, each behind blank space, and the blank space behind the last. */
  datatype Row = Row(items: seq<Item>, end: Gap)

  /** A further alternative, with the blank space behind its bar. */
  datatype Other = Other(gap: Gap, row: Row)

  datatype Alts = Alts(first: Row, others: seq<Other>)

  predicate IsDigitByte(b: byte)
  {
    0x30 <= b <= 0x39
  }

  predicate AllDigits(ds: Text)
  {
    forall i :: 0 <= i < |ds| ==> IsDigitByte(ds[i])
  }

  function Decimal(ds: Text): nat
    requires AllDigits(ds)
  {
    if ds == [] then 0 else Decimal(ds[..|ds| - 1]) * 10 + (ds[|ds| - 1] - 0x30)
  }

  function OpText(op: Op): (t: Text)
    ensures t != []
  {
    match op
    case Star => [0x2A]
    case Plus => [0x2B]
    case Question => [0x3F]
    case Counted(a, comma, b) => [0x7B] + a + (if comma then [0x2C] + b else []) + [0x7D]
  }

  /** How many copies an operator asks for; a negative upper bound means none. */
  function Least(op: Op): nat
    requires op.Counted? ==> AllDigits(op.a)
  {
    match op
    case Star => 0
    case Plus => 1
    case Question => 0
    case Counted(a, _, _) => Decimal(a)
  }

  function Most(op: Op): int
    requires op.Counted? ==> AllDigits(op.a) && AllDigits(op.b)
  {
    match op
    case Star => -1
    case Plus => -1
    case Question => 1
    case Counted(a, comma, b) => if !comma then Decimal(a) else if b == [] then -1 else Decimal(b)
  }

  predicate OpOk(op: Op)
  {
    op.Counted? ==>
      && AllDigits(op.a) && AllDigits(op.b) && (op.comma || op.b == []) && (op.a != [] || op.b != [])
      && Least(op) <= 1024 && Most(op) <= 1024 && (Most(op) < 0 || Least(op) <= Most(op))
  }

  function CharsText(chars: seq<Char>): Text
  {
    if chars == [] then [] else CharText(chars[0]) + CharsText(chars[1..])
  }

  predicate CharsOk(chars: seq<Char>)
  {
    forall i :: 0 <= i < |chars| ==> CharOk(chars[i]) && CharText(chars[i])[0] != 0x22
  }

  function SpanText(x: Span): (t: Text)
    ensures t != []
  {
    match x
    case One(ch) => CharText(ch)
    case FromTo(lo, hi) => CharText(lo) + [0x2D] + CharText(hi)
  }

  function SpansText(xs: seq<Span>): Text
  {
    if xs == [] then [] else SpanText(xs[0]) + SpansText(xs[1..])
  }

  /** A dash behind a member makes a range, unless a bracket, a zero byte or the end of the
      text follows it. */
  predicate MakesRange(t: Text)
  {
    |t| >= 2 && t[0] == 0x2D && t[1] != 0x5D && t[1] != 0
  }

  predicate SpanOk(x: Span, rest: Text)
  {
    match x
    case One(ch) => CharOk(ch) && CharText(ch)[0] != 0x5D && !MakesRange(rest)
    case FromTo(lo, hi) =>
      && CharOk(lo) && CharOk(hi) && CharText(lo)[0] != 0x5D && CharText(hi)[0] != 0x5D && CharText(hi)[0] != 0
      && CharValue(lo) <= CharValue(hi)
  }

  predicate SpansOk(xs: seq<Span>, rest: Text)
  {
    xs == [] || (SpanOk(xs[0], SpansText(xs[1..]) + ([0x5D] + rest)) && SpansOk(xs[1..], rest))
  }

  predicate IsWord(b: byte)
  {
    0x61 <= b <= 0x7A || 0x41 <= b <= 0x5A || 0x30 <= b <= 0x39 || b == 0x2D || b == 0x5F
  }

  predicate NameOk(x: Text)
  {
    x != [] && forall i :: 0 <= i < |x| ==> IsWord(x[i])
  }

  predicate StartsOp(t: Text)
  {
    t != [] && (t[0] == 0x2A || t[0] == 0x2B || t[0] == 0x3F || t[0] == 0x7B)
  }

  function ElText(e: El): Text
    decreases e, 0
  {
    match e
    case Str(chars) => [0x22] + CharsText(chars) + [0x22]
    case Class(negated, xs) => [0x5B] + (if negated then [0x5E] else []) + SpansText(xs) + [0x5D]
    case Dot => [0x2E]
    case Word(x) => x
    case Paren(alts) => [0x28] + AltsText(alts) + [0x29]
    case Post(b, op) => ElText(b) + OpText(op)
  }

  function ItemsText(items: seq<Item>): Text
    decreases items, 0
  {
    if items == [] then [] else GapText(items[0].gap) + (ElText(items[0].el) + ItemsText(items[1..]))
  }

  function RowText(row: Row): Text
    decreases row, 0
  {
    ItemsText(row.items) + GapText(row.end)
  }

  function OthersText(others: seq<Other>): Text
    decreases others, 0
  {
    if others == [] then []
    else [0x7C] + (GapText(others[0].gap) + (RowText(others[0].row) + OthersText(others[1..])))
  }

  function AltsText(alts: Alts): Text
    decreases alts, 0
  {
    RowText(alts.first) + OthersText(alts.others)
  }

  // ----- what they denote -----

  function Values(chars: seq<Char>): Word
    requires CharsOk(chars)
  {
    if chars == [] then [] else [Low(CharValue(chars[0]))] + Values(chars[1..])
  }

  /** No spelling has a value past 32 bits. */
  function Low(v: nat): uint32
  {
    if v < 0x1_0000_0000 then v else 0
  }

  function SpanRange(x: Span): Range
  {
    match x
    case One(ch) => if CharOk(ch) then Range(Low(CharValue(ch)), Low(CharValue(ch))) else Range(0, 0)
    case FromTo(lo, hi) => if CharOk(lo) && CharOk(hi) then Range(Low(CharValue(lo)), Low(CharValue(hi))) else Range(0, 0)
  }

  function SpanRanges(xs: seq<Span>): seq<Range>
  {
    if xs == [] then [] else [SpanRange(xs[0])] + SpanRanges(xs[1..])
  }

  function ElMeans(e: El): Elem
    decreases e, 0
  {
    match e
    case Str(chars) => Lit(if CharsOk(chars) then Values(chars) else [])
    case Class(negated, xs) => Set(CharSet(SpanRanges(xs), negated))
    case Dot => Set(CharSet([], true))
    case Word(x) => Call(x)
    case Paren(alts) => Group(AltsMean(alts))
    case Post(b, op) => if OpOk(op) then Rep(ElMeans(b), Least(op), Most(op)) else ElMeans(b)
  }

  function ItemsMean(items: seq<Item>): seq<Elem>
    decreases items, 0
  {
    if items == [] then [] else [ElMeans(items[0].el)] + ItemsMean(items[1..])
  }

  function OthersMean(others: seq<Other>): seq<Branch>
    decreases others, 0
  {
    if others == [] then [] else [Branch(ItemsMean(others[0].row.items))] + OthersMean(others[1..])
  }

  function AltsMean(alts: Alts): seq<Branch>
    decreases alts, 0
  {
    [Branch(ItemsMean(alts.first.items))] + OthersMean(alts.others)
  }

  // ----- which of them are spelled right -----

  /** An empty literal and something repeated zero times leave nothing to repeat. */
  predicate LeavesNothing(e: Elem)
  {
    (e.Lit? && e.cps == []) || (e.Rep? && e.lo == 0 && e.hi == 0)
  }

  /** Element `e` ends where `rest` begins. */
  predicate ElOk(e: El, rest: Text)
    decreases e, 0
  {
    match e
    case Str(chars) => CharsOk(chars)
    case Class(negated, xs) =>
      SpansOk(xs, rest) && (negated || (SpansText(xs) + [0x5D])[0] != 0x5E)
    case Dot => true
    case Word(x) => NameOk(x) && (rest == [] || !IsWord(rest[0]))
    case Paren(alts) => AltsOk(alts, true, [0x29] + rest)
    case Post(b, op) => ElOk(b, OpText(op) + rest) && OpOk(op) && !LeavesNothing(ElMeans(b))
  }

  predicate ItemsOk(items: seq<Item>, nested: bool, rest: Text)
    decreases items, 0
  {
    items == [] ||
    (var next := ItemsText(items[1..]) + rest;
     && GapOk(items[0].gap, nested, ElText(items[0].el) + next)
     && ElOk(items[0].el, next) && !StartsOp(next) && ItemsOk(items[1..], nested, rest))
  }

  /** An alternative ends at a bar, a bracket, a line end or the end of the text. */
  predicate EndsRow(rest: Text)
  {
    rest == [] || rest[0] == 0x7C || rest[0] == 0x29 || rest[0] == 0x0A
  }

  predicate RowOk(row: Row, nested: bool, rest: Text)
    decreases row, 0
  {
    ItemsOk(row.items, nested, GapText(row.end) + rest) && GapOk(row.end, nested, rest) && EndsRow(rest)
  }

  /** No blank space comes first. */
  predicate Tight(row: Row)
  {
    if row.items == [] then row.end == [] else row.items[0].gap == []
  }

  predicate OthersOk(others: seq<Other>, nested: bool, rest: Text)
    decreases others, 0
  {
    if others == [] then rest == [] || rest[0] != 0x7C
    else
      var next := OthersText(others[1..]) + rest;
      && Tight(others[0].row) && GapOk(others[0].gap, true, RowText(others[0].row) + next)
      && RowOk(others[0].row, nested, next) && OthersOk(others[1..], nested, rest)
  }

  predicate AltsOk(alts: Alts, nested: bool, rest: Text)
    decreases alts, 0
  {
    RowOk(alts.first, nested, OthersText(alts.others) + rest) && OthersOk(alts.others, nested, rest)
  }

  // ----- grammars -----

  /** `name ::= alternatives`, with the blank space around the sign. */
  datatype Rule = Rule(name: Text, before: Gap, after: Gap, alts: Alts)

  function RuleText(r: Rule): Text
  {
    r.name + (GapText(r.before) + ([0x3A, 0x3A, 0x3D] + (GapText(r.after) + AltsText(r.alts))))
  }

  predicate RuleOk(r: Rule, rest: Text)
  {
    && NameOk(r.name) && GapOk(r.before, false, [0x3A, 0x3A, 0x3D] + (GapText(r.after) + (AltsText(r.alts) + rest)))
    && GapOk(r.after, true, AltsText(r.alts) + rest)
    && Tight(r.alts.first) && AltsOk(r.alts, false, rest)
  }

  /** Rules, each behind blank space, and the blank space behind the last. */
  datatype Sheet = Sheet(rules: seq<(Gap, Rule)>, end: Gap)

  function RulesText(rules: seq<(Gap, Rule)>): Text
  {
    if rules == [] then [] else GapText(rules[0].0) + (RuleText(rules[0].1) + RulesText(rules[1..]))
  }

  function SheetText(sheet: Sheet): Text
  {
    RulesText(sheet.rules) + GapText(sheet.end)
  }

  predicate RulesOk(rules: seq<(Gap, Rule)>, rest: Text)
  {
    rules == [] ||
    (var next := RulesText(rules[1..]) + rest;
     && GapOk(rules[0].0, true, RuleText(rules[0].1) + next) && RuleOk(rules[0].1, next)
     && RulesOk(rules[1..], rest))
  }

  /** What the rules define on top of `g`, and whether each name is new. */
  function RulesMean(rules: seq<(Gap, Rule)>, g: Source): Source
  {
    if rules == [] then g else RulesMean(rules[1..], g[rules[0].1.name := AltsMean(rules[0].1.alts)])
  }

  predicate NewNames(rules: seq<(Gap, Rule)>, g: Source)
  {
    rules == [] || (rules[0].1.name !in g && NewNames(rules[1..], g[rules[0].1.name := AltsMean(rules[0].1.alts)]))
  }

  predicate SheetOk(sheet: Sheet, g: Source)
  {
    RulesOk(sheet.rules, GapText(sheet.end)) && GapOk(sheet.end, true, []) && NewNames(sheet.rules, g)
  }

  /** The text `t` spells the grammar `g`. */
  ghost predicate Spells(t: Text, g: Source)
  {
    exists sheet :: SpelledBy(t, g, sheet)
  }

  ghost predicate SpelledBy(t: Text, g: Source, sheet: Sheet)
  {
    SheetOk(sheet, map[]) && SheetText(sheet) == t && RulesMean(sheet.rules, map[]) == g
  }
}
