/** The byte assembler of the matcher: codepoints built byte by byte, with a half
    character carried from one text to the next. This is section 3 of RFC 3629,
    except that the surrogate range is not excluded. */
module Utf8 {
  import opened CharSets

  /** A half-decoded codepoint. `min` is the smallest value its length may encode.
      Once `remaining` drops to zero the other two fields are stale. */
  datatype Partial = Partial(value: uint32, min: uint32, remaining: nat)

  const WHOLE: Partial := Partial(0, 0, 0)

  predicate IsContinuation(b: byte)
  {
    0x80 <= b < 0xC0
  }

  /** Continuation bytes expected after a lead byte; -1 marks an invalid lead. */
  function Extra(b: byte): int
  {
    if b < 0x80 then 0
    else if b < 0xC2 then -1
    else if b < 0xE0 then 1
    else if b < 0xF0 then 2
    else if b < 0xF5 then 3
    else -1
  }

  function MinFor(extra: int): uint32
  {
    if extra == 1 then 0x80 else if extra == 2 then 0x800 else 0x10000
  }

  /** The tag bits of a lead byte. */
  function LeadTag(extra: int): byte
  {
    if extra == 1 then 0xC0 else if extra == 2 then 0xE0 else 0xF0
  }

  /** The value bits of a lead byte: masking them out takes its tag off. */
  function LeadBits(b: byte, extra: int): uint32
    requires Extra(b) == extra > 0
  {
    b - LeadTag(extra)
  }

  datatype Fed = Bad | More(partial: Partial) | Char(cp: uint32, partial: Partial)

  /** What one byte does to the assembler. */
  function Feed(p: Partial, b: byte): Fed
    requires PartialOk(p)
  {
    if p.remaining > 0 then
      if !IsContinuation(b) then Bad
      else
        var v := p.value * 64 + (b - 0x80);
        if p.remaining > 1 then More(Partial(v, p.min, p.remaining - 1))
        else if v < p.min || v > MAX_CODEPOINT then Bad
        else Char(v, Partial(v, p.min, 0))
    else
      var extra := Extra(b);
      if extra < 0 then Bad
      else if extra == 0 then Char(b, p)
      else More(Partial(LeadBits(b, extra), MinFor(extra), extra))
  }

  /** The half characters the assembler can hold. */
  predicate PartialOk(p: Partial)
  {
    || p.remaining == 0
    || (p.remaining == 1 && p.min == 0x80 && 2 <= p.value < 0x20)
    || (p.remaining == 2 && p.min == 0x800 && p.value < 0x10)
    || (p.remaining == 1 && p.min == 0x800 && p.value < 0x400)
    || (p.remaining == 3 && p.min == 0x10000 && p.value < 5)
    || (p.remaining == 2 && p.min == 0x10000 && p.value < 5 * 64)
    || (p.remaining == 1 && p.min == 0x10000 && p.value < 5 * 4096)
  }

  /** The bytes a half character was built from. */
  function Pending(p: Partial): seq<byte>
    requires PartialOk(p)
  {
    if p.remaining == 0 then []
    else if p.min == 0x80 then [0xC0 + p.value]
    else if p.min == 0x800 then
      if p.remaining == 2 then [0xE0 + p.value] else [0xE0 + p.value / 64, 0x80 + p.value % 64]
    else
      if p.remaining == 3 then [0xF0 + p.value]
      else if p.remaining == 2 then [0xF0 + p.value / 64, 0x80 + p.value % 64]
      else [0xF0 + p.value / 64 / 64, 0x80 + p.value / 64 % 64, 0x80 + p.value % 64]
  }

  /** The UTF-8 encoding of one codepoint. */
  function Encode(c: uint32): seq<byte>
    requires c <= 0x10FFFF
  {
    if c < 0x80 then [c]
    else if c < 0x800 then [0xC0 + c / 64, 0x80 + c % 64]
    else if c < 0x10000 then [0xE0 + c / 64 / 64, 0x80 + c / 64 % 64, 0x80 + c % 64]
    else [0xF0 + c / 64 / 64 / 64, 0x80 + c / 64 / 64 % 64, 0x80 + c / 64 % 64, 0x80 + c % 64]
  }

  predicate Encodable(w: Word)
  {
    forall i :: 0 <= i < |w| ==> w[i] <= 0x10FFFF
  }

  function EncodeAll(w: Word): seq<byte>
    requires Encodable(w)
  {
    if w == [] then [] else Encode(w[0]) + EncodeAll(w[1..])
  }

  datatype Decoded = Invalid | Valid(cps: Word, partial: Partial)

  /** Feeds a whole text. */
  function Decode(p: Partial, text: seq<byte>): Decoded
    requires PartialOk(p)
    decreases |text|
  {
    if text == [] then Valid([], p)
    else
      match Feed(p, text[0])
      case Bad => Invalid
      case More(p') => FeedOk(p, text[0]); Decode(p', text[1..])
      case Char(c, p') =>
        FeedOk(p, text[0]);
        match Decode(p', text[1..])
        case Invalid => Invalid
        case Valid(cps, q) => Valid([c] + cps, q)
  }

  lemma FeedOk(p: Partial, b: byte)
    requires PartialOk(p)
    ensures var f := Feed(p, b); f.Bad? || PartialOk(f.partial)
  {
  }

  lemma Digit(v: nat, d: nat)
    requires d < 64
    ensures (v * 64 + d) / 64 == v && (v * 64 + d) % 64 == d
  {
  }

  lemma FeedMore(p: Partial, b: byte)
    requires PartialOk(p) && Feed(p, b).More?
    ensures var q := Feed(p, b).partial;
            PartialOk(q) && q.remaining > 0 && Pending(q) == Pending(p) + [b]
  {
    if p.remaining > 0 {
      FeedMoreDigit(p, b);
    } else {
      FeedLead(p, b);
    }
  }

  lemma FeedMoreDigit(p: Partial, b: byte)
    requires PartialOk(p) && p.remaining > 1 && IsContinuation(b)
    ensures var q := Partial(p.value * 64 + (b - 0x80), p.min, p.remaining - 1);
            PartialOk(q) && Pending(q) == Pending(p) + [b] && Feed(p, b) == More(q)
  {
    Digit(p.value, b - 0x80);
  }

  lemma FeedChar(p: Partial, b: byte)
    requires PartialOk(p) && Feed(p, b).Char?
    ensures var f := Feed(p, b);
            f.partial.remaining == 0 && f.cp <= 0x10FFFF && Encode(f.cp) == Pending(p) + [b]
  {
    if p.remaining > 0 {
      Digit(p.value, b - 0x80);
    }
  }

  /** Feeding loses and invents no byte: what was held and fed is the encoding of
      the codepoints delivered plus what is held now. */
  lemma {:induction false} DecodeSound(p: Partial, text: seq<byte>)
    requires PartialOk(p) && Decode(p, text).Valid?
    ensures var d := Decode(p, text);
            && PartialOk(d.partial) && Encodable(d.cps)
            && Pending(p) + text == EncodeAll(d.cps) + Pending(d.partial)
    decreases |text|
  {
    if text != [] {
      var b, rest := text[0], text[1..];
      assert text == [b] + rest;
      match Feed(p, b)
      case More(q) =>
        FeedMore(p, b);
        DecodeSound(q, rest);
        Reassociate(Pending(p), [b], rest);
      case Char(c, q) =>
        FeedChar(p, b);
        DecodeSound(q, rest);
        var d := Decode(q, rest);
        EncodeCons(c, d.cps);
        assert Pending(q) + rest == rest;
        Reassociate(Pending(p), [b], rest);
        Reassociate(Encode(c), EncodeAll(d.cps), Pending(d.partial));
    }
  }

  lemma Reassociate(a: seq<byte>, b: seq<byte>, c: seq<byte>)
    ensures (a + b) + c == a + (b + c)
  {
  }

  lemma {:induction false} EncodeCons(c: uint32, w: Word)
    requires c <= 0x10FFFF && Encodable(w)
    ensures Encodable([c] + w) && EncodeAll([c] + w) == Encode(c) + EncodeAll(w)
  {
    assert ([c] + w)[1..] == w;
  }

  lemma {:induction false} DecodeConcat(p: Partial, a: seq<byte>, b: seq<byte>)
    requires PartialOk(p)
    ensures match Decode(p, a)
            case Invalid => Decode(p, a + b).Invalid?
            case Valid(u, q) =>
              && PartialOk(q)
              && Decode(p, a + b) ==
                 match Decode(q, b)
                 case Invalid => Invalid
                 case Valid(v, r) => Valid(u + v, r)
    decreases |a|
  {
    if a == [] {
      assert a + b == b;
      match Decode(p, b) {
        case Invalid =>
        case Valid(v, r) => assert [] + v == v;
      }
    } else {
      assert (a + b)[0] == a[0] && (a + b)[1..] == a[1..] + b;
      match Feed(p, a[0]) {
        case Bad =>
        case More(q) =>
          FeedOk(p, a[0]);
          DecodeConcat(q, a[1..], b);
        case Char(c, q) =>
          FeedOk(p, a[0]);
          DecodeConcat(q, a[1..], b);
          match Decode(q, a[1..]) {
            case Invalid =>
            case Valid(u, r) =>
              match Decode(r, b) {
                case Invalid =>
                case Valid(v, _) => assert [c] + (u + v) == ([c] + u) + v;
              }
          }
      }
    }
  }

  lemma {:induction false} DecodeMore(p: Partial, b: byte, rest: seq<byte>)
    requires PartialOk(p) && Feed(p, b).More?
    ensures PartialOk(Feed(p, b).partial) && Decode(p, [b] + rest) == Decode(Feed(p, b).partial, rest)
  {
    FeedOk(p, b);
    assert ([b] + rest)[1..] == rest;
  }

  lemma {:induction false} DecodeLast(p: Partial, b: byte)
    requires PartialOk(p) && Feed(p, b).Char?
    ensures Decode(p, [b]) == Valid([Feed(p, b).cp], Feed(p, b).partial)
  {
    FeedOk(p, b);
    assert [b][1..] == [];
  }

  lemma FeedLead(p: Partial, b: byte)
    requires p.remaining == 0 && Extra(b) > 0
    ensures Feed(p, b) == More(Partial(LeadBits(b, Extra(b)), MinFor(Extra(b)), Extra(b)))
  {
  }

  lemma FeedDigit(p: Partial, d: nat)
    requires PartialOk(p) && p.remaining > 1 && d < 64
    ensures Feed(p, 0x80 + d) == More(Partial(p.value * 64 + d, p.min, p.remaining - 1))
  {
  }

  lemma FeedLastDigit(p: Partial, d: nat)
    requires PartialOk(p) && p.remaining == 1 && d < 64 && p.min <= p.value * 64 + d <= 0x10FFFF
    ensures Feed(p, 0x80 + d) == Char(p.value * 64 + d, Partial(p.value * 64 + d, p.min, 0))
  {
  }

  /** The value of base-64 digits behind `v`. */
  function Value(v: nat, ds: seq<nat>): nat
    decreases |ds|
  {
    if ds == [] then v else Value(v * 64 + ds[0], ds[1..])
  }

  predicate AreDigits(ds: seq<nat>)
  {
    forall i :: 0 <= i < |ds| ==> ds[i] < 64
  }

  function Continuations(ds: seq<nat>): (bs: seq<byte>)
    requires AreDigits(ds)
    ensures |bs| == |ds|
  {
    seq(|ds|, i requires 0 <= i < |ds| => 0x80 + ds[i])
  }

  /** The continuation bytes complete the half character they belong to. */
  lemma {:induction false} DecodeDigits(q: Partial, ds: seq<nat>)
    requires PartialOk(q) && q.remaining == |ds| > 0 && AreDigits(ds) && q.min <= Value(q.value, ds) <= 0x10FFFF
    ensures Decode(q, Continuations(ds)) == Valid([Value(q.value, ds)], Partial(Value(q.value, ds), q.min, 0))
    decreases |ds|
  {
    var d, rest := ds[0], ds[1..];
    if |ds| == 1 {
      assert Value(q.value, ds) == q.value * 64 + d;
      hide Feed, Decode;
      assert Continuations(ds) == [0x80 + d];
      FeedLastDigit(q, d);
      DecodeLast(q, 0x80 + d);
    } else {
      hide Feed, Decode;
      assert Continuations(ds) == [0x80 + d] + Continuations(rest);
      FeedDigit(q, d);
      DecodeMore(q, 0x80 + d, Continuations(rest));
      DecodeDigits(Partial(q.value * 64 + d, q.min, q.remaining - 1), rest);
    }
  }

  /** A lead byte and its continuation bytes. */
  lemma {:induction false} DecodeLed(p: Partial, b: byte, ds: seq<nat>)
    requires p.remaining == 0 && Extra(b) == |ds| > 0 && AreDigits(ds)
    requires MinFor(|ds|) <= Value(LeadBits(b, |ds|), ds) <= 0x10FFFF
    ensures var c := Value(LeadBits(b, |ds|), ds);
            Decode(p, [b] + Continuations(ds)) == Valid([c], Partial(c, MinFor(|ds|), 0))
  {
    hide Feed, Decode;
    FeedLead(p, b);
    DecodeMore(p, b, Continuations(ds));
    DecodeDigits(Partial(LeadBits(b, |ds|), MinFor(|ds|), |ds|), ds);
  }

  lemma DecodeOne(p: Partial, c: uint32) returns (q: Partial)
    requires p.remaining == 0 && c <= 0x10FFFF
    ensures q.remaining == 0 && Decode(p, Encode(c)) == Valid([c], q)
  {
    hide Decode, Feed;
    if c < 0x80 {
      q := p;
      OneByte(p, c);
    } else {
      var b, ds := EncodeLed(c);
      DecodeLed(p, b, ds);
      q := Partial(c, MinFor(|ds|), 0);
    }
  }

  lemma {:induction false} OneByte(p: Partial, c: uint32)
    requires p.remaining == 0 && c < 0x80
    ensures Decode(p, Encode(c)) == Valid([c], p)
  {
    assert Feed(p, c) == Char(c, p);
    hide Decode, Feed;
    DecodeLast(p, c);
  }

  /** The encoding of a larger codepoint as lead byte and digits. */
  lemma EncodeLed(c: uint32) returns (b: byte, ds: seq<nat>)
    requires 0x80 <= c <= 0x10FFFF
    ensures AreDigits(ds) && |ds| > 0 && Encode(c) == [b] + Continuations(ds)
    ensures Extra(b) == |ds| && MinFor(|ds|) <= c && Value(LeadBits(b, |ds|), ds) == c
  {
    hide Value, Continuations;
    if c < 0x800 {
      b, ds := 0xC0 + c / 64, [c % 64];
      OneDigit(c / 64, c % 64);
    } else if c < 0x10000 {
      b, ds := 0xE0 + c / 64 / 64, [c / 64 % 64, c % 64];
      TwoDigits(c / 64 / 64, c / 64 % 64, c % 64);
    } else {
      b, ds := 0xF0 + c / 64 / 64 / 64, [c / 64 / 64 % 64, c / 64 % 64, c % 64];
      ThreeDigits(c / 64 / 64 / 64, c / 64 / 64 % 64, c / 64 % 64, c % 64);
    }
    EncodeBytes(c, b, ds);
  }

  lemma {:induction false} TwoDigits(v: nat, e: nat, d: nat)
    ensures Value(v, [e, d]) == (v * 64 + e) * 64 + d
  {
    assert [e, d][1..] == [d];
    OneDigit(v * 64 + e, d);
  }

  lemma {:induction false} ThreeDigits(v: nat, f: nat, e: nat, d: nat)
    ensures Value(v, [f, e, d]) == ((v * 64 + f) * 64 + e) * 64 + d
  {
    assert [f, e, d][1..] == [e, d];
    TwoDigits(v * 64 + f, e, d);
  }

  lemma EncodeBytes(c: uint32, b: byte, ds: seq<nat>)
    requires 0x80 <= c <= 0x10FFFF && AreDigits(ds)
    requires if c < 0x800 then b == 0xC0 + c / 64 && ds == [c % 64]
             else if c < 0x10000 then b == 0xE0 + c / 64 / 64 && ds == [c / 64 % 64, c % 64]
             else b == 0xF0 + c / 64 / 64 / 64 && ds == [c / 64 / 64 % 64, c / 64 % 64, c % 64]
    ensures Encode(c) == [b] + Continuations(ds)
  {
  }

  lemma {:induction false} MoreDigits(v: nat, ds: seq<nat>)
    requires ds != []
    ensures Value(v, ds) == Value(v * 64 + ds[0], ds[1..])
  {
  }

  lemma {:induction false} OneDigit(v: nat, d: nat)
    ensures Value(v, [d]) == v * 64 + d
  {
    assert [d][1..] == [];
  }

  /** Every word of codepoints comes back from its encoding, with nothing held. */
  lemma {:induction false} DecodeEncode(p: Partial, w: Word) returns (q: Partial)
    requires p.remaining == 0 && Encodable(w)
    ensures q.remaining == 0 && Decode(p, EncodeAll(w)) == Valid(w, q)
    decreases |w|
  {
    if w == [] {
      q := p;
    } else {
      var r := DecodeOne(p, w[0]);
      q := DecodeEncode(r, w[1..]);
      DecodeConcat(p, Encode(w[0]), EncodeAll(w[1..]));
      assert [w[0]] + w[1..] == w;
    }
  }

  /** The codepoints delivered for a text are the only ones it encodes. */
  lemma {:induction false} DecodeUnique(p: Partial, text: seq<byte>, w: Word)
    requires p.remaining == 0 && Encodable(w)
    ensures text == EncodeAll(w) <==>
            Decode(p, text).Valid? && Decode(p, text).partial.remaining == 0 && Decode(p, text).cps == w
  {
    if text == EncodeAll(w) {
      var q := DecodeEncode(p, w);
    }
    if Decode(p, text).Valid? && Decode(p, text).partial.remaining == 0 && Decode(p, text).cps == w {
      DecodeSound(p, text);
      assert Pending(p) + text == text && EncodeAll(w) + [] == EncodeAll(w);
    }
  }
  /** The codepoints a text can deliver are those up to 0x10FFFF, all of them. */
  lemma {:induction false} DeliverableIff(p: Partial, c: uint32)
    requires p.remaining == 0
    ensures c <= 0x10FFFF <==> exists text :: Delivers(p, text, c)
  {
    if c <= 0x10FFFF {
      var q := DecodeOne(p, c);
      assert Delivers(p, Encode(c), c);
    }
    if text :| Delivers(p, text, c) {
      DecodeSound(p, text);
      assert Decode(p, text).cps[0] == c;
    }
  }

  ghost predicate Delivers(p: Partial, text: seq<byte>, c: uint32)
    requires PartialOk(p)
  {
    Decode(p, text).Valid? && Decode(p, text).cps == [c]
  }

  lemma {:induction false} DecodeFirst(p: Partial, b: byte, rest: seq<byte>)
    requires PartialOk(p) && Feed(p, b).Bad?
    ensures Decode(p, [b] + rest).Invalid?
  {
  }

  lemma {:induction false} LastByte(p: Partial, b: byte)
    requires PartialOk(p) && p.remaining == 1
    ensures Decode(p, [b]) ==
            var v := p.value * 64 + (b - 0x80);
            if 0x80 <= b <= 0xBF && p.min <= v <= 0x10FFFF then Valid([v], Partial(v, p.min, 0)) else Invalid
  {
    hide Decode;
    if Feed(p, b).Bad? {
      DecodeFirst(p, b, []);
      assert [b] + [] == [b];
    } else {
      DecodeLast(p, b);
    }
  }

  /** What two, three and four bytes with a proper lead and proper middle are worth. */
  lemma {:induction false} TwoBytes(p: Partial, a: byte, b: byte)
    requires p.remaining == 0 && 0xC0 <= a <= 0xDF
    ensures Decode(p, [a, b]) ==
            var v := (a - 0xC0) * 64 + (b - 0x80);
            if 0x80 <= b <= 0xBF && 0x80 <= v then Valid([v], Partial(v, 0x80, 0)) else Invalid
  {
    hide Decode;
    assert [a, b] == [a] + [b];
    if a < 0xC2 {
      DecodeFirst(p, a, [b]);
    } else {
      DecodeMore(p, a, [b]);
      LastByte(Partial(a - 0xC0, 0x80, 1), b);
    }
  }

  lemma {:induction false} ThreeBytes(p: Partial, a: byte, b: byte, c: byte)
    requires p.remaining == 0 && 0xE0 <= a <= 0xEF && 0x80 <= b <= 0xBF
    ensures Decode(p, [a, b, c]) ==
            var v := ((a - 0xE0) * 64 + (b - 0x80)) * 64 + (c - 0x80);
            if 0x80 <= c <= 0xBF && 0x800 <= v then Valid([v], Partial(v, 0x800, 0)) else Invalid
  {
    hide Decode;
    assert [a, b, c] == [a] + [b, c] && [b, c] == [b] + [c];
    DecodeMore(p, a, [b, c]);
    var q := Partial(a - 0xE0, 0x800, 2);
    DecodeMore(q, b, [c]);
    LastByte(Partial(q.value * 64 + (b - 0x80), 0x800, 1), c);
  }

  lemma {:induction false} FourBytes(p: Partial, a: byte, b: byte, c: byte, d: byte)
    requires p.remaining == 0 && 0xF0 <= a <= 0xF4 && 0x80 <= b <= 0xBF && 0x80 <= c <= 0xBF
    ensures Decode(p, [a, b, c, d]) ==
            var v := (((a - 0xF0) * 64 + (b - 0x80)) * 64 + (c - 0x80)) * 64 + (d - 0x80);
            if 0x80 <= d <= 0xBF && 0x10000 <= v <= 0x10FFFF then Valid([v], Partial(v, 0x10000, 0)) else Invalid
  {
    hide Decode;
    assert [a, b, c, d] == [a] + [b, c, d] && [b, c, d] == [b] + [c, d] && [c, d] == [c] + [d];
    DecodeMore(p, a, [b, c, d]);
    var q := Partial(a - 0xF0, 0x10000, 3);
    DecodeMore(q, b, [c, d]);
    var r := Partial(q.value * 64 + (b - 0x80), 0x10000, 2);
    DecodeMore(r, c, [d]);
    LastByte(Partial(r.value * 64 + (c - 0x80), 0x10000, 1), d);
  }

  /** Both ends of every length: F4 8F BF BF is the last codepoint and F4 90 80 80 is refused,
      and so are the overlong C1 BF, E0 9F BF and F0 8F BF BF. */
  lemma {:induction false} Corners(p: Partial)
    requires p.remaining == 0
    ensures Encode(0x7F) == [0x7F] && Encode(0x80) == [0xC2, 0x80] && Encode(0x7FF) == [0xDF, 0xBF]
    ensures Encode(0x800) == [0xE0, 0xA0, 0x80] && Encode(0x20AC) == [0xE2, 0x82, 0xAC] && Encode(0xFFFF) == [0xEF, 0xBF, 0xBF]
    ensures Encode(0x10000) == [0xF0, 0x90, 0x80, 0x80] && Encode(0x1F600) == [0xF0, 0x9F, 0x98, 0x80]
    ensures Encode(0x10FFFF) == [0xF4, 0x8F, 0xBF, 0xBF] && Delivers(p, [0xF4, 0x8F, 0xBF, 0xBF], 0x10FFFF)
    ensures Decode(p, [0xF4, 0x90, 0x80, 0x80]).Invalid? && Decode(p, [0xC1, 0xBF]).Invalid?
    ensures Decode(p, [0xE0, 0x9F, 0xBF]).Invalid? && Decode(p, [0xF0, 0x8F, 0xBF, 0xBF]).Invalid?
  {
    hide Decode, Feed;
    var q := DecodeOne(p, 0x10FFFF);
    FourBytes(p, 0xF4, 0x90, 0x80, 0x80);
    FourBytes(p, 0xF0, 0x8F, 0xBF, 0xBF);
    ThreeBytes(p, 0xE0, 0x9F, 0xBF);
    TwoBytes(p, 0xC1, 0xBF);
  }
}
