/** Regular expressions as the pattern parser understands them, and their languages. */
module RegexSyntax {
  import opened CharSets
  import opened Languages

  /** A 256-entry membership table. */
  type Table = t: seq<bool> | |t| == 256 witness seq(256, _ => false)

  /** `Rep` carries every quantifier; a negative upper bound means none. */
  datatype Rx =
    | Nothing
    | One(table: Table)
    | Cat(parts: seq<Rx>)
    | Union(branches: seq<Rx>)
    | Rep(rx: Rx, lo: nat, hi: int)

  ghost predicate IsByteOf(t: Table, w: seq<byte>)
  {
    |w| == 1 && t[w[0]]
  }

  ghost function TableLang(t: Table): Lang<byte>
  {
    iset w: seq<byte> | IsByteOf(t, w)
  }

  ghost function RxLang(r: Rx): Lang<byte>
    decreases r, 0
  {
    match r
    case Nothing => Unit<byte>()
    case One(t) => TableLang(t)
    case Cat(parts) => PartsLang(parts)
    case Union(branches) => BranchesLang(branches)
    case Rep(b, lo, hi) => Repeat(RxLang(b), lo, hi)
  }

  ghost function PartsLang(parts: seq<Rx>): Lang<byte>
    decreases parts, 0
  {
    if parts == [] then Unit<byte>() else Languages.Cat(PartsLang(parts[..|parts| - 1]), RxLang(parts[|parts| - 1]))
  }

  ghost function BranchesLang(branches: seq<Rx>): Lang<byte>
    decreases branches, 0
  {
    if branches == [] then iset{} else BranchesLang(branches[..|branches| - 1]) + RxLang(branches[|branches| - 1])
  }

  /** Some byte is a member. */
  predicate HasByte(t: Table)
  {
    exists b: byte :: t[b]
  }

  /** No class of the expression is empty. */
  predicate RxFilled(r: Rx)
  {
    match r
    case Nothing => true
    case One(t) => HasByte(t)
    case Cat(parts) => AllFilled(parts)
    case Union(branches) => AllFilled(branches)
    case Rep(b, _, _) => RxFilled(b)
  }

  predicate AllFilled(rs: seq<Rx>)
  {
    forall i :: 0 <= i < |rs| ==> RxFilled(rs[i])
  }
}
