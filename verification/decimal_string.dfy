/** Decimal rendering of unsigned numbers, as `sprintf("%0*u", minLength, n)`
    produces it, and the reading of a digit string back into a number.

    `ToDecimal` is the `%u` conversion (shortest form, "0" for zero);
    `DecimalStringWithPadding` adds the `0` flag with a field width, which
    pads on the left with '0' up to that width and never truncates. */
module DecimalString {

  predicate IsDigit(c: char) {
    '0' <= c <= '9'
  }

  /** Every character of `s` is one of '0'..'9'. */
  predicate IsDecimal(s: string) {
    forall i :: 0 <= i < |s| ==> IsDigit(s[i])
  }

  function DigitChar(d: nat): (c: char)
    requires d < 10
    ensures IsDigit(c) && DigitValue(c) == d
  {
    (('0' as int) + d) as char
  }

  function DigitValue(c: char): (d: nat)
    requires IsDigit(c)
    ensures d < 10
  {
    (c as int) - ('0' as int)
  }

  function Pow10(k: nat): (p: nat)
    ensures p >= 1
  {
    if k == 0 then 1 else 10 * Pow10(k - 1)
  }

  function Max(a: nat, b: nat): nat {
    if a < b then b else a
  }

  /** Number of characters `%u` prints for `n`: zero has one digit. */
  function Digits(n: nat): (k: nat)
    ensures k >= 1
  {
    if n < 10 then 1 else 1 + Digits(n / 10)
  }

  /** The `%u` conversion: the shortest decimal spelling of `n`. It has
      exactly `Digits(n)` characters, all digits, and no leading zero
      unless `n` is zero. */
  function ToDecimal(n: nat): (s: string)
    ensures |s| == Digits(n)
    ensures IsDecimal(s)
    ensures s[0] == '0' <==> n == 0
  {
    if n < 10 then [DigitChar(n)]
    else ToDecimal(n / 10) + [DigitChar(n % 10)]
  }

  function Zeros(k: nat): (s: string)
    ensures |s| == k && forall i :: 0 <= i < k ==> s[i] == '0'
  {
    seq(k, _ => '0')
  }

  /** The `%0*u` conversion with field width `minLength`: the decimal
      spelling of `number` preceded by as many '0's as it takes to reach
      `minLength` characters. A number with more digits than `minLength`
      is printed in full. */
  function DecimalStringWithPadding(number: nat, minLength: nat): (s: string)
    ensures IsDecimal(s)
    ensures |s| == Max(minLength, Digits(number))
    ensures forall i :: 0 <= i < |s| - Digits(number) ==> s[i] == '0'
    ensures s[|s| - Digits(number)..] == ToDecimal(number)
  {
    if Digits(number) < minLength then Zeros(minLength - Digits(number)) + ToDecimal(number)
    else ToDecimal(number)
  }

  /** The number a digit string spells, most significant digit first;
      the empty string spells zero. */
  function Value(s: string): nat
    requires IsDecimal(s)
  {
    if s == [] then 0 else Value(s[..|s| - 1]) * 10 + DigitValue(s[|s| - 1])
  }

  /** Reading back the `%u` spelling of `n` gives `n`. */
  lemma {:induction false} ToDecimalRoundTrip(n: nat)
    ensures Value(ToDecimal(n)) == n
  {
    var s := ToDecimal(n);
    if n < 10 {
      assert s[..|s| - 1] == [];
    } else {
      assert s[..|s| - 1] == ToDecimal(n / 10);
      ToDecimalRoundTrip(n / 10);
    }
  }

  /** A run of '0's is worth nothing. */
  lemma {:induction false} ZerosValue(k: nat)
    ensures Value(Zeros(k)) == 0
  {
    if k > 0 {
      assert Zeros(k)[..k - 1] == Zeros(k - 1);
      ZerosValue(k - 1);
    }
  }

  /** Leading '0's do not change the number a digit string spells. */
  lemma {:induction false} LeadingZerosValue(k: nat, s: string)
    requires IsDecimal(s)
    ensures IsDecimal(Zeros(k) + s) && Value(Zeros(k) + s) == Value(s)
  {
    var t := Zeros(k) + s;
    if s == [] {
      assert t == Zeros(k);
      ZerosValue(k);
    } else {
      assert t[..|t| - 1] == Zeros(k) + s[..|s| - 1];
      LeadingZerosValue(k, s[..|s| - 1]);
    }
  }

  /** Reading back the padded spelling gives the number: padding adds
      only leading zeros, and nothing is truncated. */
  lemma PaddingRoundTrip(number: nat, minLength: nat)
    ensures Value(DecimalStringWithPadding(number, minLength)) == number
  {
    ToDecimalRoundTrip(number);
    if Digits(number) < minLength {
      LeadingZerosValue(minLength - Digits(number), ToDecimal(number));
    }
  }

  /** A number fits in a field of `width` digits (at least one) exactly
      when it is below 10^width. */
  lemma {:induction false} DigitsBound(n: nat, width: nat)
    requires width >= 1
    ensures Digits(n) <= width <==> n < Pow10(width)
  {
    if n >= 10 && width > 1 {
      DigitsBound(n / 10, width - 1);
    }
  }

  /** When the number fits its field, the padded spelling is exactly
      `minLength` characters long. */
  lemma PaddedLength(number: nat, minLength: nat)
    requires minLength >= 1 && number < Pow10(minLength)
    ensures |DecimalStringWithPadding(number, minLength)| == minLength
  {
    DigitsBound(number, minLength);
  }

  /** Every 32-bit unsigned number has at most ten decimal digits. */
  lemma Uint32Digits(n: nat)
    requires n < 0x1_0000_0000
    ensures Digits(n) <= 10
  {
    assert Pow10(10) == 10_000_000_000;
    DigitsBound(n, 10);
  }

  // The C formatter behind the padded string prints into a stack array of
  // `minLength` characters; `sprintf` stores the digits and then a
  // terminating NUL.

  /** Bytes `sprintf` stores for `%0*u`: the padded digits and the NUL. */
  function SprintfBytesWritten(number: nat, minLength: nat): nat {
    |DecimalStringWithPadding(number, minLength)| + 1
  }

  /** An array of `minLength` characters is always overrun: by one byte
      (the NUL) when the number fits the width, and by one more byte for
      every digit beyond it otherwise. */
  lemma SourceBufferOverrun(number: nat, minLength: nat)
    ensures SprintfBytesWritten(number, minLength) > minLength
    ensures SprintfBytesWritten(number, minLength) - minLength
      == (if Digits(number) <= minLength then 1 else Digits(number) - minLength + 1)
  {
  }

  /** The smallest case: 0 printed with width 1 needs two bytes. */
  lemma SourceBufferOverrunExample()
    ensures SprintfBytesWritten(0, 1) == 2
  {
  }
}
