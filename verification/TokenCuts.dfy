/** Token boundaries under the size limit. The step that the matcher takes may drop stacks and
    depends on a memo that it changes; all that is used of it here is that it is a function of
    the matcher's state and that along the text it keeps only stacks of the plain step. */
module TokenCuts {
  import opened CharSets
  import opened Grammar
  import opened Pushdown
  import opened Utf8
  import opened ByteRuns

  datatype Run<X> = Refused | At(x: X, partial: Partial)

  /** A machine over states `X`, each of which has live stacks. */
  datatype Machine<!X> = Machine(step: (X, uint32) -> X, live: X -> set<Stack>)

  /** Along the text, no step keeps a stack that the plain step would not reach. */
  ghost predicate KeepsWithin<X(!new)>(m: Machine<X>, rules: Rules, cap: nat, x: X, p: Partial, text: seq<byte>)
    requires PartialOk(p)
    decreases |text|
  {
    text == [] ||
    (FeedOk(p, text[0]);
     match Feed(p, text[0])
     case Bad => true
     case More(q) => KeepsWithin(m, rules, cap, x, q, text[1..])
     case Char(c, q) =>
       var y := m.step(x, c);
       && m.live(y) <= Step(rules, cap, m.live(x), c)
       && (m.live(y) == {} || KeepsWithin(m, rules, cap, y, q, text[1..])))
  }

  ghost function Bytes<X(!new)>(m: Machine<X>, x: X, p: Partial, text: seq<byte>): Run<X>
    requires PartialOk(p)
    decreases |text|
  {
    if text == [] then At(x, p)
    else
      FeedOk(p, text[0]);
      match Feed(p, text[0])
      case Bad => Refused
      case More(q) => Bytes(m, x, q, text[1..])
      case Char(c, q) =>
        var y := m.step(x, c);
        if m.live(y) == {} then Refused else Bytes(m, y, q, text[1..])
  }

  /** One text, with the check made where it ends. */
  ghost function Text<X(!new)>(m: Machine<X>, rules: Rules, r: Run<X>, text: seq<byte>): Run<X>
  {
    if r.Refused? || !PartialOk(r.partial) then Refused
    else
      var s := Bytes(m, r.x, r.partial, text);
      BytesOk(m, r.x, r.partial, text);
      if s.At? && EndOk(rules, m.live(s.x), s.partial) then s else Refused
  }

  lemma {:induction false} BytesOk<X(!new)>(m: Machine<X>, x: X, p: Partial, text: seq<byte>)
    requires PartialOk(p)
    ensures Bytes(m, x, p, text).At? ==> PartialOk(Bytes(m, x, p, text).partial)
    decreases |text|
  {
    if text != [] {
      FeedOk(p, text[0]);
      match Feed(p, text[0])
      case Bad =>
      case More(q) => BytesOk(m, x, q, text[1..]);
      case Char(c, q) => BytesOk(m, m.step(x, c), q, text[1..]);
    }
  }

  lemma {:induction false} BytesConcat<X(!new)>(m: Machine<X>, x: X, p: Partial, a: seq<byte>, b: seq<byte>)
    requires PartialOk(p)
    ensures match Bytes(m, x, p, a)
            case Refused => Bytes(m, x, p, a + b) == Refused
            case At(y, q) => PartialOk(q) && Bytes(m, x, p, a + b) == Bytes(m, y, q, b)
    decreases |a|
  {
    if a == [] {
      assert a + b == b;
    } else {
      assert (a + b)[0] == a[0] && (a + b)[1..] == a[1..] + b;
      FeedOk(p, a[0]);
      match Feed(p, a[0])
      case Bad =>
      case More(q) => BytesConcat(m, x, q, a[1..], b);
      case Char(c, q) => BytesConcat(m, m.step(x, c), q, a[1..], b);
    }
  }

  /** If any continuation succeeds, ending here would have been fine too. */
  lemma {:induction false} CouldEnd<X(!new)>(m: Machine<X>, rules: Rules, cap: nat, x: X, p: Partial, text: seq<byte>)
    requires PartialOk(p) && KeepsWithin(m, rules, cap, x, p, text) && Text(m, rules, At(x, p), text).At?
    ensures EndOk(rules, m.live(x), p)
    decreases |text|
  {
    if text != [] && p.remaining > 0 {
      RangeShrinks(p, text[0]);
      match Feed(p, text[0])
      case More(q) =>
        CouldEnd(m, rules, cap, x, q, text[1..]);
        WiderConsumes(rules, m.live(x), LowEnd(p), HighEnd(p), LowEnd(q), HighEnd(q));
      case Char(c, q) =>
        StepConsumes(rules, cap, m.live(x), c, LowEnd(p), HighEnd(p));
    }
  }

  lemma {:induction false} KeepsSplits<X(!new)>(m: Machine<X>, rules: Rules, cap: nat, x: X, p: Partial,
                                                a: seq<byte>, b: seq<byte>)
    requires PartialOk(p) && KeepsWithin(m, rules, cap, x, p, a + b)
    ensures KeepsWithin(m, rules, cap, x, p, a)
    ensures var r := Bytes(m, x, p, a); r.At? && PartialOk(r.partial) ==> KeepsWithin(m, rules, cap, r.x, r.partial, b)
    decreases |a|
  {
    if a == [] {
      assert a + b == b;
    } else {
      assert (a + b)[0] == a[0] && (a + b)[1..] == a[1..] + b;
      FeedOk(p, a[0]);
      match Feed(p, a[0])
      case Bad =>
      case More(q) => KeepsSplits(m, rules, cap, x, q, a[1..], b);
      case Char(c, q) =>
        if m.live(m.step(x, c)) != {} {
          KeepsSplits(m, rules, cap, m.step(x, c), q, a[1..], b);
        }
    }
  }

  /** Two texts are one joined text, wherever the cut falls and whatever the steps drop. */
  lemma {:induction false} TextConcat<X(!new)>(m: Machine<X>, rules: Rules, cap: nat, x: X, p: Partial,
                                               a: seq<byte>, b: seq<byte>)
    requires PartialOk(p) && KeepsWithin(m, rules, cap, x, p, a + b)
    ensures Text(m, rules, At(x, p), a + b) == Text(m, rules, Text(m, rules, At(x, p), a), b)
  {
    BytesConcat(m, x, p, a, b);
    KeepsSplits(m, rules, cap, x, p, a, b);
    match Bytes(m, x, p, a)
    case Refused =>
    case At(y, q) =>
      if Text(m, rules, At(y, q), b).At? {
        CouldEnd(m, rules, cap, y, q, b);
      }
  }

  ghost function Texts<X(!new)>(m: Machine<X>, rules: Rules, r: Run<X>, chunks: seq<seq<byte>>): Run<X>
    decreases |chunks|
  {
    if chunks == [] then r else Texts(m, rules, Text(m, rules, r, chunks[0]), chunks[1..])
  }

  lemma {:induction false} RefusedStays<X(!new)>(m: Machine<X>, rules: Rules, r: Run<X>, chunks: seq<seq<byte>>)
    requires r.Refused?
    ensures Texts(m, rules, r, chunks) == r
    decreases |chunks|
  {
    if chunks != [] {
      RefusedStays(m, rules, r, chunks[1..]);
    }
  }

  /** Any chunking of a text leads where the whole text leads. */
  lemma {:induction false} ChunksAreOneText<X(!new)>(m: Machine<X>, rules: Rules, cap: nat, x: X, p: Partial,
                                                     chunks: seq<seq<byte>>)
    requires PartialOk(p) && EndOk(rules, m.live(x), p) && KeepsWithin(m, rules, cap, x, p, Flatten(chunks))
    ensures Texts(m, rules, At(x, p), chunks) == Text(m, rules, At(x, p), Flatten(chunks))
    decreases |chunks|
  {
    if chunks != [] {
      hide KeepsWithin;
      BytesOk(m, x, p, chunks[0]);
      TextConcat(m, rules, cap, x, p, chunks[0], Flatten(chunks[1..]));
      KeepsSplits(m, rules, cap, x, p, chunks[0], Flatten(chunks[1..]));
      match Text(m, rules, At(x, p), chunks[0])
      case Refused =>
        RefusedStays(m, rules, Text(m, rules, At(x, p), chunks[0]), chunks[1..]);
      case At(y, q) => ChunksAreOneText(m, rules, cap, y, q, chunks[1..]);
    }
  }

  /** The machine that drops nothing. */
  ghost function Plain(rules: Rules, cap: nat): Machine<set<Stack>>
  {
    Machine((S: set<Stack>, c: uint32) => Step(rules, cap, S, c), (S: set<Stack>) => S)
  }

  lemma {:induction false} PlainBytes(rules: Rules, cap: nat, S: set<Stack>, p: Partial, text: seq<byte>)
    requires PartialOk(p)
    ensures Bytes(Plain(rules, cap), S, p, text) ==
            match Loop(rules, cap, S, p, text) case Dead => Refused case Live(T, q) => At(T, q)
    decreases |text|
  {
    if text != [] {
      FeedOk(p, text[0]);
      match Feed(p, text[0])
      case Bad =>
      case More(q) => PlainBytes(rules, cap, S, q, text[1..]);
      case Char(c, q) => PlainBytes(rules, cap, Step(rules, cap, S, c), q, text[1..]);
    }
  }

  /** Without a limit this is `update_text` on plain frame lists. */
  lemma {:induction false} PlainIsUpdate(rules: Rules, cap: nat, S: set<Stack>, p: Partial, text: seq<byte>)
    requires PartialOk(p)
    ensures Text(Plain(rules, cap), rules, At(S, p), text) ==
            match Update(rules, cap, S, p, text) case Dead => Refused case Live(T, q) => At(T, q)
  {
    PlainBytes(rules, cap, S, p, text);
    LoopOk(rules, cap, S, p, text);
  }
}
