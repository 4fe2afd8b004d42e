/** Decimal numerals, as JavaScript prints integers: the numeral of a number, the number of a numeral, and
    that each determines the other. Ports, array indices, JSON numbers and bound parameters are made of them. */
module Decimals {
  predicate IsDigit(c: char) {
    '0' <= c <= '9'
  }

  function DigitChar(d: nat): (c: char)
    requires d < 10
    ensures IsDigit(c) && c as int == '0' as int + d
  {
    ('0' as int + d) as char
  }

  /** The numeral of `n`, without leading zeros. */
  function Digits(n: nat): (s: string)
    ensures s != [] && forall i :: 0 <= i < |s| ==> IsDigit(s[i])
    ensures s[0] == '0' <==> n == 0
  {
    if n < 10 then [DigitChar(n)] else Digits(n / 10) + [DigitChar(n % 10)]
  }

  /** The number a digit string denotes. */
  function Number(s: string): nat
    requires forall i :: 0 <= i < |s| ==> IsDigit(s[i])
  {
    if s == [] then 0 else
      assert IsDigit(s[|s| - 1]);
      10 * Number(s[..|s| - 1]) + (s[|s| - 1] as int - '0' as int)
  }

  lemma {:induction false} NumberOfDigits(n: nat)
    ensures Number(Digits(n)) == n
  {
    if n >= 10 {
      NumberOfDigits(n / 10);
      assert Digits(n)[..|Digits(n)| - 1] == Digits(n / 10);
    } else {
      assert Digits(n)[..0] == [];
    }
  }

  lemma DigitsSnoc(n: nat, d: nat)
    requires n > 0 && d < 10
    ensures Digits(10 * n + d) == Digits(n) + [DigitChar(d)]
  {
    assert (10 * n + d) / 10 == n && (10 * n + d) % 10 == d;
  }

  lemma NumberOne(s: string)
    requires |s| == 1 && IsDigit(s[0])
    ensures Number(s) == s[0] as int - '0' as int
  {
    assert s[..0] == [];
  }

  /** A digit string without leading zero is the numeral of its number. */
  lemma {:induction false} DigitsOfNumber(s: string)
    requires s != [] && forall i :: 0 <= i < |s| ==> IsDigit(s[i])
    requires |s| > 1 ==> s[0] != '0'
    ensures Digits(Number(s)) == s
    ensures |s| > 1 ==> Number(s) >= 10
    ensures s != "0" ==> Number(s) > 0
  {
    var init, last := s[..|s| - 1], s[|s| - 1];
    if |s| == 1 {
      NumberOne(s);
      assert s == [last];
    } else {
      DigitsOfNumber(init);
      assert s == init + [last] && init[0] == s[0];
      var d := last as int - '0' as int;
      hide Digits;
      DigitsSnoc(Number(init), d);
      assert Number(s) == 10 * Number(init) + d && DigitChar(d) == last;
    }
  }

  /** How JavaScript's toString prints an integer. */
  function IntText(n: int): (s: string)
    ensures s != []
  {
    if n < 0 then "-" + Digits(-n) else Digits(n)
  }
}
