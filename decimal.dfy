/**
 * Decimal rendering of integers, as printf's `%u`/`%d` and the C++ stream
 * `operator<<` produce it, and a reader that recovers the number.
 */
module Decimal {
  import opened Common

  predicate IsDigit(c: char)
  {
    '0' <= c <= '9'
  }

  function DigitChar(d: nat): (c: char)
    requires d < 10
    ensures IsDigit(c) && c as int - '0' as int == d
  {
    ('0' as int + d) as char
  }

  /** The shortest decimal text of `n`: no sign, no leading zero. */
  function Digits(n: nat): (s: string)
    ensures 1 <= |s| && AllDigits(s)
    ensures |s| > 1 ==> s[0] != '0'
  {
    if n < 10 then [DigitChar(n)] else Digits(n / 10) + [DigitChar(n % 10)]
  }

  function DigitValue(c: char): (d: nat)
    requires IsDigit(c)
    ensures d < 10
  {
    c as int - '0' as int
  }

  predicate AllDigits(s: string)
  {
    forall i :: 0 <= i < |s| ==> IsDigit(s[i])
  }

  /** The number a string of decimal digits denotes. */
  function Value(s: string): nat
    requires AllDigits(s)
  {
    if s == [] then 0 else Value(s[..|s| - 1]) * 10 + DigitValue(s[|s| - 1])
  }

  /** Reads an optionally signed decimal integer, as the C++ int it was printed from. */
  function ReadInt(s: string): Option<int>
  {
    if s != [] && s[0] == '-' then
      if 2 <= |s| && AllDigits(s[1..]) then Some(0 - Value(s[1..]) as int) else None
    else if 1 <= |s| && AllDigits(s) then Some(Value(s))
    else None
  }

  /** Reading the decimal text back gives the number that was printed. */
  lemma {:induction false} ValueOfDigits(n: nat)
    ensures Value(Digits(n)) == n
  {
    if n >= 10 {
      var s := Digits(n);
      assert s[..|s| - 1] == Digits(n / 10);
      ValueOfDigits(n / 10);
    }
  }

  /** Distinct numbers print differently. */
  lemma DigitsInjective(m: nat, n: nat)
    requires Digits(m) == Digits(n)
    ensures m == n
  {
    ValueOfDigits(m);
    ValueOfDigits(n);
  }

  /**
   * `%d` applied to a value the source holds as uint32_t: the bits are read as
   * a two's-complement 32-bit int, so values from 2^31 on print negative.
   */
  function Int32Text(v: uint32): string
  {
    IntText(AsInt32(v))
  }

  /** A uint32's bits read as a two's-complement 32-bit int. */
  function AsInt32(v: uint32): (r: int)
    ensures -0x8000_0000 <= r < 0x8000_0000
    ensures (v - r) % 0x1_0000_0000 == 0
    ensures v < 0x8000_0000 <==> r == v
  {
    if v < 0x8000_0000 then v else v - 0x1_0000_0000
  }

  /** A signed int as the C++ stream and `%d` print it. */
  function IntText(i: int): string
  {
    if i >= 0 then Digits(i) else "-" + Digits(-i)
  }

  /** Reading the text of an int back gives the int. */
  lemma IntTextReads(i: int)
    ensures ReadInt(IntText(i)) == Some(i)
  {
    if i >= 0 {
      ValueOfDigits(i);
    } else {
      var t := IntText(i);
      assert t[1..] == Digits(-i);
      ValueOfDigits(-i);
    }
  }

  /** The text of an int consists of digits and a minus sign. */
  lemma IntTextChars(i: int)
    ensures forall k :: 0 <= k < |IntText(i)| ==> IsDigit(IntText(i)[k]) || IntText(i)[k] == '-'
  {
    if i < 0 {
      var t := IntText(i);
      assert forall k :: 1 <= k < |t| ==> t[k] == Digits(-i)[k - 1];
    }
  }

  /** What `%d` prints for a uint32 reads back as the same 32 bits taken as a signed int. */
  lemma Int32TextReads(v: uint32)
    ensures ReadInt(Int32Text(v)) == Some(AsInt32(v))
    ensures v < 0x8000_0000 ==> ReadInt(Int32Text(v)) == Some(v)
  {
    IntTextReads(AsInt32(v));
  }
}
