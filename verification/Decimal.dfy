/** Decimal notation: Python's `str(n)`, zero padding, `lstrip("0")` and `int(digits)`. */
module Decimal {

  predicate IsDigit(c: char) {
    '0' <= c <= '9'
  }

  predicate AllDigits(s: string) {
    forall i :: 0 <= i < |s| ==> IsDigit(s[i])
  }

  function DigitOf(d: nat): (c: char)
    requires d < 10
    ensures IsDigit(c) && c as int - '0' as int == d
  {
    ('0' as int + d) as char
  }

  function Print(n: nat): (s: string)
    ensures s != "" && AllDigits(s)
  {
    if n < 10 then [DigitOf(n)] else Print(n / 10) + [DigitOf(n % 10)]
  }

  function Value(s: string): (n: nat)
    requires AllDigits(s)
  {
    if s == "" then 0 else 10 * Value(s[..|s| - 1]) + (s[|s| - 1] as int - '0' as int)
  }

  /** The least number of leading zeros that makes `s` at least `width` long. */
  function PadZeros(s: string, width: nat): (r: string)
    decreases width - |s|
  {
    if |s| < width then PadZeros("0" + s, width) else s
  }

  function StripZeros(s: string): (r: string) {
    if s != "" && s[0] == '0' then StripZeros(s[1..]) else s
  }

  function Power(k: nat): (p: nat) {
    if k == 0 then 1 else 10 * Power(k - 1)
  }

  /** A printed number has no more digits than it needs. */
  lemma {:induction false} PrintLength(n: nat)
    ensures n < Power(|Print(n)|) && (n >= 10 ==> Power(|Print(n)| - 1) <= n) && (n < 10 ==> |Print(n)| == 1)
  {
    if n < 10 {
      assert Power(1) == 10 * Power(0);
    } else {
      PrintLength(n / 10);
      var k := |Print(n / 10)|;
      assert |Print(n)| == k + 1 && Power(k + 1) == 10 * Power(k);
      if n / 10 < 10 {
        assert Power(1) == 10 * Power(0);
      } else {
        assert Power(k) == 10 * Power(k - 1);
      }
    }
  }

  lemma {:induction false} PrintValue(n: nat)
    ensures Value(Print(n)) == n
  {
    if n < 10 {
      assert Print(n)[..0] == "";
    } else {
      var s := Print(n);
      assert s[..|s| - 1] == Print(n / 10);
      PrintValue(n / 10);
    }
  }

  lemma {:induction false} LeadingZero(s: string)
    requires AllDigits(s)
    ensures AllDigits("0" + s) && Value("0" + s) == Value(s)
  {
    var z := "0" + s;
    if s == "" {
      assert z[..0] == "";
    } else {
      var front := s[..|s| - 1];
      LeadingZero(front);
      assert z[..|z| - 1] == "0" + front;
    }
  }

  lemma {:induction false} PadValue(s: string, width: nat)
    requires AllDigits(s)
    ensures AllDigits(PadZeros(s, width)) && Value(PadZeros(s, width)) == Value(s)
    decreases width - |s|
  {
    if |s| < width {
      LeadingZero(s);
      PadValue("0" + s, width);
    }
  }

  lemma {:induction false} PadLength(s: string, width: nat)
    ensures |PadZeros(s, width)| == if |s| < width then width else |s|
    decreases width - |s|
  {
    if |s| < width {
      PadLength("0" + s, width);
    }
  }

  /** Stripping zeros neither adds nor hides anything but digits. */
  lemma {:induction false} StripDigits(s: string)
    ensures AllDigits(StripZeros(s)) <==> AllDigits(s)
  {
    if s != "" && s[0] == '0' {
      StripDigits(s[1..]);
      assert s == [s[0]] + s[1..];
      assert AllDigits(s[1..]) ==> AllDigits(s);
    }
  }

  lemma {:induction false} StripValue(s: string)
    requires AllDigits(s)
    ensures AllDigits(StripZeros(s)) && Value(StripZeros(s)) == Value(s)
  {
    if s != "" && s[0] == '0' {
      LeadingZero(s[1..]);
      assert s == "0" + s[1..];
      StripValue(s[1..]);
    }
  }
}
