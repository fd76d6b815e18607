/** Readings of a text: what the start of the remaining bytes stands for, and how many
    bytes that takes. */
module Reading {
  import opened CharSets

  type Text = seq<byte>

  datatype Read<+T> = Fail | Got(value: T, len: nat)

  /** The byte at an offset; zero past the end. */
  function At(s: Text, i: nat): byte
  {
    if i < |s| then s[i] else 0
  }

  /** A reading that starts `n` bytes later. */
  function Later<T>(n: nat, r: Read<T>): Read<T>
  {
    match r
    case Fail => Fail
    case Got(v, m) => Got(v, n + m)
  }

  /** A list reading of which `done` was read in the first `n` bytes. */
  function Shift<T>(done: seq<T>, n: nat, r: Read<seq<T>>): Read<seq<T>>
  {
    match r
    case Fail => Fail
    case Got(v, m) => Got(done + v, n + m)
  }

  lemma ShiftNone<T>(r: Read<seq<T>>)
    ensures Shift([], 0, r) == r
  {
    if r.Got? {
      assert [] + r.value == r.value;
    }
  }

  lemma AtLater(src: Text, start: nat, k: nat, i: nat)
    requires start + k <= |src|
    ensures At(src[start..], k + i) == At(src[start + k..], i)
  {
  }

  lemma ShiftStep<T>(done: seq<T>, n: nat, x: T, k: nat, r: Read<seq<T>>)
    ensures Shift(done + [x], n + k, r) == Shift(done, n, match r case Fail => Fail case Got(v, m) => Got([x] + v, k + m))
  {
    if r.Got? {
      assert (done + [x]) + r.value == done + ([x] + r.value);
    }
  }

  lemma LaterNone<T>(r: Read<T>)
    ensures Later(0, r) == r
  {
  }

  /** Cutting a suffix of a text is cutting the text. */
  lemma Cut(src: Text, start: nat, at: nat)
    requires start <= at <= |src|
    ensures src[start..][at - start..] == src[at..]
  {
  }

  // ----- decimal numbers -----

  predicate IsDigit(b: byte)
  {
    0x30 <= b <= 0x39
  }

  function DigitValue(b: byte): nat
    requires IsDigit(b)
  {
    b - 0x30
  }

  function DigitsLen(s: Text): (n: nat)
    ensures n <= |s| && forall i :: 0 <= i < n ==> IsDigit(s[i])
  {
    if s == [] || !IsDigit(s[0]) then 0 else 1 + DigitsLen(s[1..])
  }

  function Number(s: Text): nat
    requires forall i :: 0 <= i < |s| ==> IsDigit(s[i])
    decreases |s|
  {
    if s == [] then 0 else Number(s[..|s| - 1]) * 10 + DigitValue(s[|s| - 1])
  }
}
