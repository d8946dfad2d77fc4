/** Decimal numbers as `%d` prints them and `pj_strtol` reads them. */
module Decimal {
  import opened PjLib

  function Digit(n: nat): char
    requires n < 10
  {
    (n + '0' as int) as char
  }

  function Print(n: nat): (s: string)
    ensures s != "" && forall i | 0 <= i < |s| :: IsDigit(s[i])
  {
    if n < 10 then [Digit(n)] else Print(n / 10) + [Digit(n % 10)]
  }

  /** `%d` of an `int`. */
  function PrintInt(n: int): string {
    if n < 0 then "-" + Print(-n) else Print(n)
  }

  lemma {:induction false} DigitsThen(a: string, b: string, acc: nat)
    requires forall i | 0 <= i < |a| :: IsDigit(a[i])
    ensures DigitsFrom(a + b, acc) == DigitsFrom(b, DigitsFrom(a, acc))
  {
    if a == "" {
      assert a + b == b;
    } else {
      assert (a + b)[1..] == a[1..] + b;
      DigitsThen(a[1..], b, 10 * acc + (a[0] as int - '0' as int));
    }
  }

  /** A printed `int` is read back, sign included, whatever non-digit text follows it. */
  lemma ReadPrinted(n: int, rest: string)
    requires rest == "" || !IsDigit(rest[0])
    ensures StrToL(PrintInt(n) + rest) == n
    ensures n >= 0 ==> StrToL("+" + (PrintInt(n) + rest)) == n
  {
    var m := if n < 0 then -n else n;
    ReadUnsigned(m, rest);
    var digits := Print(m) + rest;
    assert digits[0] == Print(m)[0] && IsDigit(digits[0]);
    assert ("+" + digits)[1..] == digits;
    if n < 0 {
      assert PrintInt(n) + rest == "-" + digits;
      assert ("-" + digits)[1..] == digits;
    }
  }

  lemma ReadUnsigned(n: nat, rest: string)
    requires rest == "" || !IsDigit(rest[0])
    ensures DigitsFrom(Print(n) + rest, 0) == n
  {
    DigitsThen(Print(n), rest, 0);
    ReadDigits(n);
  }

  lemma {:induction false} ReadDigits(n: nat)
    ensures DigitsFrom(Print(n), 0) == n
  {
    if n >= 10 {
      DigitsThen(Print(n / 10), [Digit(n % 10)], 0);
      ReadDigits(n / 10);
    }
    var v := if n < 10 then 0 else n / 10;
    assert DigitsFrom([Digit(n % 10)], v) == DigitsFrom("", 10 * v + n % 10);
  }
}
