/** Decimal digits and the pieces of .NET integer handling the renamer relies on:
    `char.IsDigit` (ASCII only here), `int.TryParse` / `long.TryParse` with the default
    `NumberStyles.Integer`, `ToString()` and the `"D<n>"` format, and the unchecked
    `int` increment. */
module Decimal {
  import opened Wrappers

  const MIN_INT32: int := -0x8000_0000
  const MAX_INT32: int := 0x7FFF_FFFF
  const MIN_INT64: int := -0x8000_0000_0000_0000
  const MAX_INT64: int := 0x7FFF_FFFF_FFFF_FFFF

  /** A C# `int`. */
  type Int32 = x: int | -0x8000_0000 <= x <= 0x7FFF_FFFF

  /** A C# `long`. */
  type Int64 = x: int | -0x8000_0000_0000_0000 <= x <= 0x7FFF_FFFF_FFFF_FFFF

  /** `x + 1` on a C# `int` in an unchecked context: the successor modulo 2^32,
      wrapping from int.MaxValue to int.MinValue. */
  function Inc32(x: Int32): (r: Int32)
    ensures (r - (x + 1)) % 0x1_0000_0000 == 0
    ensures x < MAX_INT32 ==> r == x + 1
  {
    if x == MAX_INT32 then MIN_INT32 else x + 1
  }

  function Pow10(k: nat): (p: nat)
    ensures p >= 1
  {
    if k == 0 then 1 else 10 * Pow10(k - 1)
  }

  predicate IsDigit(c: char)
  {
    '0' <= c <= '9'
  }

  predicate AllDigits(s: string)
  {
    forall i :: 0 <= i < |s| ==> IsDigit(s[i])
  }

  function DigitValue(c: char): (d: nat)
    requires IsDigit(c)
    ensures d < 10
  {
    c as int - '0' as int
  }

  function DigitChar(d: nat): (c: char)
    requires d < 10
    ensures IsDigit(c) && DigitValue(c) == d
  {
    ('0' as int + d) as char
  }

  /** `new string(s.Where(char.IsDigit).ToArray())`: the digits of `s`, in order. */
  function DigitsOf(s: string): (r: string)
    ensures AllDigits(r) && |r| <= |s|
    ensures AllDigits(s) ==> r == s
  {
    if s == [] then []
    else (if IsDigit(s[0]) then [s[0]] else []) + DigitsOf(s[1..])
  }

  /** The digits kept are exactly the digits that occur. */
  lemma {:induction false} DigitsOfMembers(s: string, c: char)
    ensures c in DigitsOf(s) <==> c in s && IsDigit(c)
  {
    if s != [] {
      DigitsOfMembers(s[1..], c);
      assert s == [s[0]] + s[1..];
    }
  }

  /** Filtering digits distributes over concatenation, so their order is kept. */
  lemma {:induction false} DigitsOfConcat(a: string, b: string)
    ensures DigitsOf(a + b) == DigitsOf(a) + DigitsOf(b)
  {
    if a == [] {
      assert a + b == b;
    } else {
      var head := if IsDigit(a[0]) then [a[0]] else [];
      var tail := a[1..] + b;
      assert a + b == [a[0]] + tail;
      assert (a + b)[1..] == tail;
      DigitsOfConcat(a[1..], b);
      calc {
        DigitsOf(a + b);
        head + DigitsOf(tail);
        head + (DigitsOf(a[1..]) + DigitsOf(b));
        (head + DigitsOf(a[1..])) + DigitsOf(b);
        DigitsOf(a) + DigitsOf(b);
      }
    }
  }

  /** The number a string of decimal digits denotes (leading zeros allowed). */
  function DigitsValue(s: string): (v: nat)
    requires AllDigits(s)
    ensures v < Pow10(|s|)
  {
    if s == [] then 0
    else
      var v' := DigitsValue(s[..|s| - 1]);
      assert v' <= Pow10(|s| - 1) - 1;
      10 * v' + DigitValue(s[|s| - 1])
  }

  /** The shortest decimal spelling of `n`: no leading zero except for "0" itself. */
  function NatToDigits(n: nat): (r: string)
    ensures AllDigits(r) && |r| >= 1
    ensures n == 0 ==> r == "0"
    ensures n > 0 ==> r[0] != '0'
    ensures DigitsValue(r) == n
    decreases n
  {
    if n < 10 then [DigitChar(n)]
    else
      var high := NatToDigits(n / 10);
      var r := high + [DigitChar(n % 10)];
      assert r[..|r| - 1] == high;
      r
  }

  /** `ToString()` of a C# integer: an optional '-' and the shortest digit string. */
  function IntToString(n: int): string
  {
    if n < 0 then "-" + NatToDigits(-n) else NatToDigits(n)
  }

  function Zeros(k: nat): (z: string)
    ensures |z| == k && forall i :: 0 <= i < k ==> z[i] == '0'
  {
    if k == 0 then [] else Zeros(k - 1) + "0"
  }

  /** Left-pads `s` with '0' up to `width` characters; longer strings are kept whole. */
  function PadLeft(s: string, width: nat): string
  {
    if |s| < width then Zeros(width - |s|) + s else s
  }

  /** `n.ToString("D" + width)`: the magnitude zero-padded to `width` digits, after a
      '-' when `n` is negative. */
  function FormatD(n: int, width: nat): string
  {
    var digits := PadLeft(NatToDigits(if n < 0 then -n else n), width);
    if n < 0 then "-" + digits else digits
  }

  /** The white space `NumberStyles.AllowLeadingWhite` / `AllowTrailingWhite` accept. */
  predicate IsWhite(c: char)
  {
    c == ' ' || '\t' <= c <= '\r'
  }

  function TrimStart(s: string): (r: string)
    ensures |r| <= |s| && r == s[|s| - |r|..]
    ensures forall i :: 0 <= i < |s| - |r| ==> IsWhite(s[i])
    ensures r == [] || !IsWhite(r[0])
  {
    if s != [] && IsWhite(s[0]) then TrimStart(s[1..]) else s
  }

  function TrimEnd(s: string): (r: string)
    ensures |r| <= |s| && r == s[..|r|]
    ensures forall i :: |r| <= i < |s| ==> IsWhite(s[i])
    ensures r == [] || !IsWhite(r[|r| - 1])
  {
    if s != [] && IsWhite(s[|s| - 1]) then TrimEnd(s[..|s| - 1]) else s
  }

  function TrimWhite(s: string): string
  {
    TrimEnd(TrimStart(s))
  }

  /** The integer syntax of `NumberStyles.Integer`: optional white space, an optional
      '+' or '-', at least one digit, optional white space. No range check. */
  function ParseInteger(s: string): Option<int>
  {
    var t := TrimWhite(s);
    var signed := |t| > 0 && (t[0] == '-' || t[0] == '+');
    var digits := if signed then t[1..] else t;
    if digits == [] || !AllDigits(digits) then None
    else
      var magnitude: int := DigitsValue(digits);
      Some(if signed && t[0] == '-' then -magnitude else magnitude)
  }

  /** `long.TryParse`: None when the text is not an integer or lies outside the range of `long`. */
  function TryParseInt64(s: string): (r: Option<Int64>)
    ensures r.Some? <==> ParseInteger(s).Some? && MIN_INT64 <= ParseInteger(s).value <= MAX_INT64
    ensures r.Some? ==> r.value == ParseInteger(s).value
  {
    match ParseInteger(s)
    case Some(v) => if MIN_INT64 <= v <= MAX_INT64 then Some(v) else None
    case None => None
  }

  /** `int.TryParse`: None when the text is not an integer or lies outside the range of `int`. */
  function TryParseInt32(s: string): (r: Option<Int32>)
    ensures r.Some? <==> ParseInteger(s).Some? && MIN_INT32 <= ParseInteger(s).value <= MAX_INT32
    ensures r.Some? ==> r.value == ParseInteger(s).value
  {
    match ParseInteger(s)
    case Some(v) => if MIN_INT32 <= v <= MAX_INT32 then Some(v) else None
    case None => None
  }

  // ----- Lemmas -----

  /** A string without white space at either end is left alone by trimming. */
  lemma TrimWhiteNoop(s: string)
    requires s != [] ==> !IsWhite(s[0]) && !IsWhite(s[|s| - 1])
    ensures TrimWhite(s) == s
  {
  }

  /** A non-empty run of digits parses to the number it spells. */
  lemma {:induction false} ParseDigits(s: string)
    requires s != [] && AllDigits(s)
    ensures ParseInteger(s) == Some(DigitsValue(s))
  {
    TrimWhiteNoop(s);
  }

  /** Parsing reads back what `ToString()` writes, for every integer. */
  lemma {:induction false} ParseIntToString(n: int)
    ensures ParseInteger(IntToString(n)) == Some(n)
  {
    var s := IntToString(n);
    var m := if n < 0 then -n else n;
    var d := NatToDigits(m);
    assert IsDigit(d[|d| - 1]);
    TrimWhiteNoop(s);
    if n < 0 {
      assert s[1..] == d;
    }
  }

  /** `long.ToString()` followed by `long.TryParse` is the identity. */
  lemma {:induction false} TryParseInt64ToString(n: Int64)
    ensures TryParseInt64(IntToString(n)) == Some(n)
  {
    ParseIntToString(n);
  }

  /** `int.ToString()` written after any text is read back by `int.TryParse` from where it starts. */
  lemma TryParseInt32AfterText(text: string, n: Int32)
    ensures TryParseInt32((text + IntToString(n))[|text|..]) == Some(n)
  {
    assert (text + IntToString(n))[|text|..] == IntToString(n);
    ParseIntToString(n);
  }

  /** Leading zeros do not change the value of a digit string. */
  lemma {:induction false} LeadingZerosValue(k: nat, s: string)
    requires AllDigits(s)
    ensures AllDigits(Zeros(k) + s) && DigitsValue(Zeros(k) + s) == DigitsValue(s)
    decreases |s|
  {
    var z := Zeros(k) + s;
    if s == [] {
      assert z == Zeros(k);
      ZerosValue(k);
    } else {
      assert z[..|z| - 1] == Zeros(k) + s[..|s| - 1];
      LeadingZerosValue(k, s[..|s| - 1]);
    }
  }

  lemma {:induction false} ZerosValue(k: nat)
    ensures AllDigits(Zeros(k)) && DigitsValue(Zeros(k)) == 0
  {
    if k > 0 {
      assert Zeros(k)[..k - 1] == Zeros(k - 1);
      ZerosValue(k - 1);
    }
  }

  /** The "D" format of a non-negative number is a digit string of the requested width
      (or longer, when the number needs more digits) that spells the number. */
  lemma {:induction false} FormatDNonNegative(n: nat, width: nat)
    ensures AllDigits(FormatD(n, width))
    ensures DigitsValue(FormatD(n, width)) == n
    ensures |FormatD(n, width)| == if width < |NatToDigits(n)| then |NatToDigits(n)| else width
  {
    var d := NatToDigits(n);
    if |d| < width {
      LeadingZerosValue(width - |d|, d);
    }
  }

  /** The "D" format of a negative number is '-' followed by the padded magnitude. */
  lemma {:induction false} FormatDNegative(n: int, width: nat)
    requires n < 0
    ensures FormatD(n, width)[0] == '-'
    ensures FormatD(n, width)[1..] == FormatD(-n, width)
  {
  }

  /** A number below 10^k needs at most k digits. */
  lemma {:induction false} NatToDigitsFits(n: nat, k: nat)
    requires 1 <= k && n < Pow10(k)
    ensures |NatToDigits(n)| <= k
    decreases n
  {
    if n >= 10 {
      assert k >= 2;
      assert n / 10 < Pow10(k - 1);
      NatToDigitsFits(n / 10, k - 1);
    }
  }

  /** Two digit strings of the same length that spell the same number are equal. */
  lemma {:induction false} DigitsValueInjective(a: string, b: string)
    requires AllDigits(a) && AllDigits(b) && |a| == |b|
    requires DigitsValue(a) == DigitsValue(b)
    ensures a == b
    decreases |a|
  {
    if a != [] {
      var i := |a| - 1;
      assert DigitValue(a[i]) == DigitsValue(a) % 10;
      assert DigitValue(b[i]) == DigitsValue(b) % 10;
      assert DigitsValue(a[..i]) == DigitsValue(a) / 10;
      assert DigitsValue(b[..i]) == DigitsValue(b) / 10;
      DigitsValueInjective(a[..i], b[..i]);
      assert a == a[..i] + [a[i]];
      assert b == b[..i] + [b[i]];
    }
  }
}
