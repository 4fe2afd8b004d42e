/** Finite JavaScript numbers as their shortest decimal digits and the place of the point, and the text that
    section 6.1.6.1.20 of ECMA-262 prints for them. */
module JsNumbers {
  import opened Decimals

  /** `digits` are those of the number without zeros at either end, `point` says how many of them stand before
      the point (fewer than none when zeros follow it). */
  datatype JsNumber = Zero | Finite(negative: bool, digits: string, point: int)

  predicate AllDigits(s: string) {
    forall i :: 0 <= i < |s| ==> IsDigit(s[i])
  }

  predicate Significant(s: string) {
    s != "" && AllDigits(s) && s[0] != '0' && s[|s| - 1] != '0'
  }

  type Num = x: JsNumber | x.Zero? || Significant(x.digits) witness Zero

  function Zeros(n: nat): (s: string)
    ensures |s| == n && AllDigits(s)
  {
    seq(n, _ => '0')
  }

  predicate Fixed(digits: string, point: int) {
    -6 < point <= 21
  }

  /** The exponent with its sign. */
  function Exponent(e: int): string {
    if e < 0 then "-" + Digits(-e) else "+" + Digits(e)
  }

  function Mantissa(digits: string): string
    requires digits != ""
  {
    if |digits| == 1 then digits else digits[..1] + "." + digits[1..]
  }

  /** A positive number. */
  function Unsigned(digits: string, point: int): string
    requires digits != ""
  {
    if !Fixed(digits, point) then Mantissa(digits) + "e" + Exponent(point - 1)
    else if |digits| <= point then digits + Zeros(point - |digits|)
    else if point > 0 then digits[..point] + "." + digits[point..]
    else "0." + Zeros(-point) + digits
  }

  /** Number.prototype.toString of a finite number. */
  function Print(x: Num): string {
    if x.Zero? then "0"
    else (if x.negative then "-" else "") + Unsigned(x.digits, x.point)
  }

  // ---------------------------------------------------------------------------
  // The characters of the text
  // ---------------------------------------------------------------------------

  lemma DigitsJoin(a: string, b: string)
    requires AllDigits(a) && AllDigits(b)
    ensures AllDigits(a + b)
  {
  }

  predicate Numeric(c: char) {
    IsDigit(c) || c in "-+.e"
  }

  predicate AllNumeric(s: string) {
    forall i :: 0 <= i < |s| ==> Numeric(s[i])
  }

  lemma NumericJoin(a: string, b: string)
    requires AllNumeric(a) && AllNumeric(b)
    ensures AllNumeric(a + b)
  {
  }

  lemma DigitsAreNumeric(s: string)
    requires AllDigits(s)
    ensures AllNumeric(s) && forall n :: 0 <= n <= |s| ==> AllNumeric(s[..n]) && AllNumeric(s[n..])
  {
  }

  lemma MantissaShape(digits: string)
    requires Significant(digits)
    ensures AllNumeric(Mantissa(digits)) && Mantissa(digits) != "" && Mantissa(digits)[0] == digits[0]
  {
    DigitsAreNumeric(digits);
    hide AllNumeric;
    if |digits| > 1 {
      assert AllNumeric(".") by { PunctuationIsNumeric(); }
      NumericJoin(digits[..1], ".");
      NumericJoin(digits[..1] + ".", digits[1..]);
    }
  }

  lemma PunctuationIsNumeric()
    ensures AllNumeric(".") && AllNumeric("e") && AllNumeric("-") && AllNumeric("+") && AllNumeric("0.")
  {
  }

  lemma ExponentShape(e: int)
    ensures AllNumeric(Exponent(e))
  {
    var n: nat := if e < 0 then -e else e;
    DigitsAreNumeric(Digits(n));
    PunctuationIsNumeric();
    hide AllNumeric;
    NumericJoin(if e < 0 then "-" else "+", Digits(n));
  }

  lemma UnsignedShape(digits: string, point: int)
    requires Significant(digits)
    ensures var s := Unsigned(digits, point); s != "" && s != "0" && IsDigit(s[0]) && AllNumeric(s)
  {
    hide AllNumeric, Mantissa, Exponent;
    PunctuationIsNumeric();
    DigitsAreNumeric(digits);
    if !Fixed(digits, point) {
      MantissaShape(digits);
      ExponentShape(point - 1);
      NumericJoin(Mantissa(digits), "e");
      NumericJoin(Mantissa(digits) + "e", Exponent(point - 1));
    } else if |digits| <= point {
      DigitsAreNumeric(Zeros(point - |digits|));
      NumericJoin(digits, Zeros(point - |digits|));
    } else if point > 0 {
      NumericJoin(digits[..point], ".");
      NumericJoin(digits[..point] + ".", digits[point..]);
    } else {
      DigitsAreNumeric(Zeros(-point));
      NumericJoin("0.", Zeros(-point));
      NumericJoin("0." + Zeros(-point), digits);
    }
  }

  /** A printed number consists of the characters of numbers, with a digit or a minus in front. */
  lemma PrintShape(x: Num)
    ensures Print(x) != "" && (IsDigit(Print(x)[0]) || Print(x)[0] == '-') && AllNumeric(Print(x))
  {
    hide Unsigned, AllNumeric;
    DigitsAreNumeric("0");
    PunctuationIsNumeric();
    if x.Finite? {
      UnsignedShape(x.digits, x.point);
      DigitsAreNumeric("");
      NumericJoin(if x.negative then "-" else "", Unsigned(x.digits, x.point));
    }
  }

  /** The text has an exponent exactly for numbers from 10 to the 21st on, and below 10 to the minus 6th. */
  lemma ExponentExactly(x: Num)
    ensures 'e' in Print(x) <==> x.Finite? && (x.point > 21 || x.point < -5)
  {
  }
}
