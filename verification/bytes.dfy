/** Bytes, byte strings and the decimal rendering used by the unified-diff
    hunk headers (the `%ld` conversions of `APR_OFF_T_FMT`). */
module Bytes {

  import opened Wrappers

  type Byte = b: int | 0 <= b < 256

  const CR: Byte := 13
  const LF: Byte := 10
  const Comma: Byte := 44
  const Minus: Byte := 45
  const Zero: Byte := 48

  predicate IsEol(b: Byte) {
    b == CR || b == LF
  }

  predicate IsDigit(b: Byte) {
    Zero <= b < Zero + 10
  }

  /** The bytes of an ASCII literal (the model's stand-in for a C string
      constant; every literal used here is 7-bit). */
  function Ascii(s: string): (r: seq<Byte>)
    ensures |r| == |s|
  {
    seq(|s|, i requires 0 <= i < |s| => (s[i] as int) % 256)
  }

  /** Concatenation of a sequence of byte strings, in order. */
  function Concat(ss: seq<seq<Byte>>): seq<Byte>
  {
    if ss == [] then [] else Concat(ss[..|ss| - 1]) + ss[|ss| - 1]
  }

  lemma {:induction false} ConcatAppend(a: seq<seq<Byte>>, b: seq<seq<Byte>>)
    ensures Concat(a + b) == Concat(a) + Concat(b)
    decreases |b|
  {
    if b == [] {
      assert a + b == a;
    } else {
      var b' := b[..|b| - 1];
      assert (a + b)[..|a + b| - 1] == a + b';
      ConcatAppend(a, b');
    }
  }

  lemma ConcatCons(x: seq<Byte>, rest: seq<seq<Byte>>)
    ensures Concat([x] + rest) == x + Concat(rest)
  {
    ConcatAppend([x], rest);
    assert Concat([x]) == Concat([]) + x;
  }

  // ---------------------------------------------------------------------
  // Decimal numbers

  /** The decimal digits of `n`, most significant first, no leading zero. */
  function Digits(n: nat): (r: seq<Byte>)
    ensures |r| > 0
    ensures forall i :: 0 <= i < |r| ==> IsDigit(r[i])
    decreases n
  {
    if n < 10 then [Zero + n] else Digits(n / 10) + [Zero + n % 10]
  }

  /** `%ld` of a signed integer. */
  function Decimal(n: int): (r: seq<Byte>)
    ensures |r| > 0
    ensures forall i :: 0 <= i < |r| ==> r[i] != Comma
  {
    if n < 0 then [Minus] + Digits(-n) else Digits(n)
  }

  /** Reads back a non-empty run of decimal digits. */
  function ParseDigits(s: seq<Byte>): (r: Option<nat>)
    decreases |s|
  {
    if |s| == 0 || !IsDigit(s[|s| - 1]) then None
    else if |s| == 1 then Some(s[0] - Zero)
    else match ParseDigits(s[..|s| - 1])
         case None => None
         case Some(h) => Some(h * 10 + (s[|s| - 1] - Zero))
  }

  /** Reads back an optionally negative decimal number. */
  function ParseDecimal(s: seq<Byte>): Option<int>
  {
    if |s| > 0 && s[0] == Minus then
      match ParseDigits(s[1..])
      case None => None
      case Some(v) => if v == 0 then None else Some(0 - v as int)
    else
      match ParseDigits(s)
      case None => None
      case Some(v) => Some(v)
  }

  lemma {:induction false} DigitsRoundTrip(n: nat)
    ensures ParseDigits(Digits(n)) == Some(n)
    decreases n
  {
    if n >= 10 {
      DigitsRoundTrip(n / 10);
      var s := Digits(n);
      assert s[..|s| - 1] == Digits(n / 10);
    }
  }

  /** Printing an integer and reading it back gives the integer. */
  lemma DecimalRoundTrip(n: int)
    ensures ParseDecimal(Decimal(n)) == Some(n)
  {
    if n < 0 {
      DigitsRoundTrip(-n);
      assert Decimal(n)[1..] == Digits(-n);
    } else {
      DigitsRoundTrip(n);
    }
  }
}
