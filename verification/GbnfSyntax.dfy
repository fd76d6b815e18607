/** GBNF grammars as written: their syntax trees and what those trees mean. */
module GbnfSyntax {
  import opened CharSets
  import opened Languages

  type Name = seq<byte>

  /** One element of a sequence. `Rep` carries any postfix operator: `*` is 0 to
      unbounded, `+` 1 to unbounded, `?` 0 to 1, `{m,n}` as written; a negative
      upper bound means none. */
  datatype Elem =
    | Lit(cps: Word)
    | Set(cs: CharSet)
    | Call(name: Name)
    | Group(alts: seq<Branch>)
    | Rep(elem: Elem, lo: nat, hi: int)

  /** One alternative. */
  datatype Branch = Branch(elems: seq<Elem>)

  /** The alternatives of every defined rule. */
  type Source = map<Name, seq<Branch>>

  ghost predicate IsMember(cs: CharSet, w: Word)
  {
    |w| == 1 && Contains(cs, w[0])
  }

  ghost function SetLang(cs: CharSet): Lang<uint32>
  {
    iset w: Word | IsMember(cs, w)
  }

  /** What an element denotes when rule names may be unfolded `n` deep. */
  ghost function ElemLang(g: Source, e: Elem, n: nat): Lang<uint32>
    decreases n, e, 0
  {
    match e
    case Lit(cps) => iset{cps}
    case Set(cs) => SetLang(cs)
    case Call(x) => if n == 0 || x !in g then iset{} else AltsLang(g, g[x], n - 1)
    case Group(alts) => AltsLang(g, alts, n)
    case Rep(b, lo, hi) => Repeat(ElemLang(g, b, n), lo, hi)
  }

  ghost function SeqLang(g: Source, es: seq<Elem>, n: nat): Lang<uint32>
    decreases n, es, 0
  {
    if es == [] then Unit() else Cat(SeqLang(g, es[..|es| - 1], n), ElemLang(g, es[|es| - 1], n))
  }

  ghost predicate InAlts(g: Source, alts: seq<Branch>, w: Word, n: nat)
    decreases n, alts, 0
  {
    exists i :: 0 <= i < |alts| && w in SeqLang(g, alts[i].elems, n)
  }

  ghost function AltsLang(g: Source, alts: seq<Branch>, n: nat): Lang<uint32>
    decreases n, alts, 1
  {
    iset w: Word | InAlts(g, alts, w, n)
  }

  ghost predicate InRule(g: Source, x: Name, w: Word)
  {
    exists n: nat :: w in ElemLang(g, Call(x), n)
  }

  /** The language of a named rule: unfold names as deep as it takes. */
  ghost function SourceLang(g: Source, x: Name): Lang<uint32>
  {
    iset w: Word | InRule(g, x, w)
  }
}
