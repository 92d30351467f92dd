/** Decimal text of integers: Python's `str(n)` / f-string formatting and `int(text)`. */
module Decimal {
  import opened Wrappers

  predicate IsDigit(c: char) {
    '0' <= c <= '9'
  }

  predicate AllDigits(s: string) {
    forall i :: 0 <= i < |s| ==> IsDigit(s[i])
  }

  function DigitChar(d: nat): (c: char)
    requires d < 10
    ensures IsDigit(c) && c as int - '0' as int == d
  {
    ('0' as int + d) as char
  }

  /** The digits of `n` without leading zeros. */
  function ShowNat(n: nat): (s: string)
    ensures |s| >= 1 && AllDigits(s)
    ensures s[0] == '0' ==> n == 0
  {
    if n < 10 then [DigitChar(n)] else ShowNat(n / 10) + [DigitChar(n % 10)]
  }

  /** `f"{n}"` for an integer `n`. */
  function Show(n: int): string {
    if n < 0 then "-" + ShowNat(-n) else ShowNat(n)
  }

  /** The value of a digit string, most significant digit first. */
  function DigitsValue(s: string): nat
    requires AllDigits(s)
  {
    if |s| == 0 then 0 else DigitsValue(s[..|s| - 1]) * 10 + (s[|s| - 1] as int - '0' as int)
  }

  /** `int(s)` for an optional minus sign followed by at least one digit; `None` is the
      `ValueError` Python raises for any other text. */
  function Parse(s: string): Option<int> {
    if |s| > 1 && s[0] == '-' && AllDigits(s[1..]) then Some(0 - DigitsValue(s[1..]) as int)
    else if |s| > 0 && AllDigits(s) then Some(DigitsValue(s) as int)
    else None
  }

  lemma DigitsValueAppend(s: string, c: char)
    requires AllDigits(s) && IsDigit(c)
    ensures AllDigits(s + [c])
    ensures DigitsValue(s + [c]) == DigitsValue(s) * 10 + (c as int - '0' as int)
  {
    assert (s + [c])[..|s|] == s;
  }

  /** Reading back the digits of `n` gives `n`. */
  lemma {:induction false} ShowNatValue(n: nat)
    ensures DigitsValue(ShowNat(n)) == n
  {
    if n >= 10 {
      ShowNatValue(n / 10);
      DigitsValueAppend(ShowNat(n / 10), DigitChar(n % 10));
    }
  }

  /** Appending `k` zero digits multiplies the value by 10^k; here k = 4. */
  lemma FourZeros(s: string)
    requires AllDigits(s)
    ensures AllDigits(s + "0000")
    ensures DigitsValue(s + "0000") == DigitsValue(s) * 10000
  {
    DigitsValueAppend(s, '0');
    DigitsValueAppend(s + "0", '0');
    assert s + "00" == (s + "0") + "0";
    DigitsValueAppend(s + "00", '0');
    assert s + "000" == (s + "00") + "0";
    DigitsValueAppend(s + "000", '0');
    assert s + "0000" == (s + "000") + "0";
  }

  /** `int(f"{n}0000") == n * 10000` for every integer `n`, negative ones included. */
  lemma ParseShowFourZeros(n: int)
    ensures Parse(Show(n) + "0000") == Some(n * 10000)
  {
    if n < 0 {
      var t := ShowNat(-n);
      FourZeros(t);
      ShowNatValue(-n);
      assert Show(n) + "0000" == "-" + (t + "0000");
      assert (Show(n) + "0000")[1..] == t + "0000";
    } else {
      FourZeros(ShowNat(n));
      ShowNatValue(n);
    }
  }
}
