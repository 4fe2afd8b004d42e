/** A reader of JSON texts after the grammar of RFC 8259, which gives back every printed value. */
module JsonReader {
  import opened Decimals
  import opened JsNumbers
  import opened JsonText
  import opened Options

  // ---------------------------------------------------------------------------
  // Numbers (section 6)
  // ---------------------------------------------------------------------------

  predicate IsDigitCode(u: CodeUnit) { 0x30 <= u <= 0x39 }

  predicate DigitCodes(t: Text) {
    forall i :: 0 <= i < |t| ==> IsDigitCode(t[i])
  }

  /** How many digits the text begins with. */
  function DigitRun(t: Text): (n: nat)
    ensures n <= |t| && DigitCodes(t[..n])
  {
    if t != [] && IsDigitCode(t[0]) then
      var n := DigitRun(t[1..]);
      assert t[..n + 1] == [t[0]] + t[1..][..n];
      n + 1
    else 0
  }

  function DecimalValue(t: Text): nat
    requires DigitCodes(t)
  {
    if t == [] then 0
    else
      assert IsDigitCode(t[|t| - 1]);
      10 * DecimalValue(t[..|t| - 1]) + (t[|t| - 1] as int - 0x30)
  }

  /** An optional fraction: a point and at least one digit. */
  function ReadFraction(t: Text): (r: Option<(Text, Text)>)
    ensures r.Some? ==> |r.value.1| <= |t| && DigitCodes(r.value.0)
  {
    if t == [] || t[0] != 0x2E then Some(([], t))
    else
      var k := DigitRun(t[1..]);
      if k == 0 then None else Some((t[1..][..k], t[1..][k..]))
  }

  /** An optional exponent: the letter, an optional sign and at least one digit. */
  function ReadExponent(t: Text): (r: Option<(int, Text)>)
    ensures r.Some? ==> |r.value.1| <= |t|
  {
    if t == [] || t[0] !in {0x65, 0x45} then Some((0, t))
    else
      var signed := |t| > 1 && t[1] in {0x2B, 0x2D};
      var d := if signed then t[2..] else t[1..];
      var k := DigitRun(d);
      if k == 0 then None
      else
        var e: int := DecimalValue(d[..k]);
        Some((if signed && t[1] == 0x2D then -e else e, d[k..]))
  }

  function CharOf(u: CodeUnit): (c: char)
    requires IsDigitCode(u)
    ensures IsDigit(c) && c as int == u
  {
    u as char
  }

  /** The number of a sign, digits, and the place of the point among them. */
  function Value(negative: bool, digits: Text, point: int): JsNumbers.Num
    requires DigitCodes(digits)
    decreases |digits|
  {
    if digits == [] then Zero
    else if digits[0] == 0x30 then Value(negative, digits[1..], point - 1)
    else if digits[|digits| - 1] == 0x30 then Value(negative, digits[..|digits| - 1], point)
    else
      var s := seq(|digits|, i requires 0 <= i < |digits| => CharOf(digits[i]));
      assert Significant(s) by {
        assert s[0] == CharOf(digits[0]) && s[|s| - 1] == CharOf(digits[|digits| - 1]);
        assert forall i :: 0 <= i < |s| ==> s[i] == CharOf(digits[i]);
      }
      Finite(negative, s, point)
  }

  /** An integer without needless zeros, an optional fraction and an optional exponent. */
  function ReadUnsigned(t: Text, negative: bool): (r: Option<(JsNumbers.Num, Text)>)
    ensures r.Some? ==> |r.value.1| < |t|
  {
    var n := DigitRun(t);
    if n == 0 || (n > 1 && t[0] == 0x30) then None
    else
      match ReadFraction(t[n..])
      case None => None
      case Some((fraction, b)) =>
        match ReadExponent(b)
        case None => None
        case Some((e, rest)) => Some((Value(negative, t[..n] + fraction, n + e), rest))
  }

  function ReadNumber(t: Text): (r: Option<(JsNumbers.Num, Text)>)
    ensures r.Some? ==> |r.value.1| < |t|
  {
    if t != [] && t[0] == 0x2D then ReadUnsigned(t[1..], true) else ReadUnsigned(t, false)
  }

  // ---------------------------------------------------------------------------
  // Strings (section 7)
  // ---------------------------------------------------------------------------

  function HexValue(u: CodeUnit): int {
    if 0x30 <= u <= 0x39 then u - 0x30
    else if 0x61 <= u <= 0x66 then u - 0x61 + 10
    else if 0x41 <= u <= 0x46 then u - 0x41 + 10
    else -1
  }

  /** What the letter behind a backslash stands for. */
  function Escape(u: CodeUnit): Option<CodeUnit> {
    if u == 0x22 || u == 0x5C || u == 0x2F then Some(u)
    else if u == 0x62 then Some(0x08)
    else if u == 0x66 then Some(0x0C)
    else if u == 0x6E then Some(0x0A)
    else if u == 0x72 then Some(0x0D)
    else if u == 0x74 then Some(0x09)
    else None
  }

  /** Four hexadecimal digits. */
  function ReadHex(t: Text): Option<CodeUnit> {
    if |t| < 4 || HexValue(t[0]) < 0 || HexValue(t[1]) < 0 || HexValue(t[2]) < 0 || HexValue(t[3]) < 0 then None
    else Some(4096 * HexValue(t[0]) + 256 * HexValue(t[1]) + 16 * HexValue(t[2]) + HexValue(t[3]))
  }

  /** The characters that must be escaped, and surrogates, which have no code outside a pair. */
  predicate MustEscape(u: CodeUnit) {
    u == 0x22 || u == 0x5C || u < 0x20 || 0xD800 <= u <= 0xDFFF
  }

  /** The characters up to the closing quotation mark. A strict reader refuses to read what need not be escaped. */
  function ReadChars(t: Text, strict: bool): (r: Option<(Text, Text)>)
    ensures r.Some? ==> |r.value.1| < |t|
    decreases |t|
  {
    if t == [] || t[0] < 0x20 then None
    else if t[0] == 0x22 then Some(([], t[1..]))
    else if t[0] != 0x5C then Then(t[0], ReadChars(t[1..], strict))
    else if |t| < 2 then None
    else if t[1] == 0x75 then
      var u := ReadHex(t[2..]);
      if u.None? || (strict && !MustEscape(u.value)) then None
      else Then(u.value, ReadChars(t[6..], strict))
    else
      var u := Escape(t[1]);
      if u.None? || (strict && !MustEscape(u.value)) then None
      else Then(u.value, ReadChars(t[2..], strict))
  }

  function Then(u: CodeUnit, r: Option<(Text, Text)>): Option<(Text, Text)> {
    if r.None? then None else Some(([u] + r.value.0, r.value.1))
  }

  // ---------------------------------------------------------------------------
  // Values (sections 2 to 5)
  // ---------------------------------------------------------------------------

  /** Insignificant white space, which a strict reader does not skip. */
  function Skip(t: Text, strict: bool): (r: Text)
    ensures |r| <= |t|
  {
    if !strict && t != [] && t[0] in {0x20, 0x09, 0x0A, 0x0D} then Skip(t[1..], strict) else t
  }

  predicate Begins(t: Text, word: Text) {
    |t| >= |word| && t[..|word|] == word
  }

  const NULL_WORD: Text := [0x6E, 0x75, 0x6C, 0x6C]
  const TRUE_WORD: Text := [0x74, 0x72, 0x75, 0x65]
  const FALSE_WORD: Text := [0x66, 0x61, 0x6C, 0x73, 0x65]

  function ReadValue(t: Text, strict: bool): (r: Option<(Json, Text)>)
    ensures r.Some? ==> |r.value.1| < |t|
    decreases |t|, 0
  {
    if Begins(t, NULL_WORD) then Some((Json.Null, t[4..]))
    else if Begins(t, TRUE_WORD) then Some((Bool(true), t[4..]))
    else if Begins(t, FALSE_WORD) then Some((Bool(false), t[5..]))
    else if t == [] then None
    else if t[0] == 0x22 then
      match ReadChars(t[1..], strict)
      case None => None
      case Some((s, rest)) => Some((Str(s), rest))
    else if t[0] == 0x5B then
      var u := Skip(t[1..], strict);
      if u != [] && u[0] == 0x5D then Some((Arr(INil), u[1..]))
      else
        match ReadItems(u, strict)
        case None => None
        case Some((items, rest)) => Some((Arr(items), rest))
    else if t[0] == 0x7B then
      var u := Skip(t[1..], strict);
      if u != [] && u[0] == 0x7D then Some((Obj(MNil), u[1..]))
      else
        match ReadMembers(u, strict)
        case None => None
        case Some((ms, rest)) => Some((Obj(ms), rest))
    else
      match ReadNumber(t)
      case None => None
      case Some((n, rest)) => Some((Json.Num(n), rest))
  }

  /** At least one element, and the closing bracket. */
  function ReadItems(t: Text, strict: bool): (r: Option<(Items, Text)>)
    ensures r.Some? ==> |r.value.1| < |t|
    decreases |t|, 1
  {
    match ReadValue(t, strict)
    case None => None
    case Some((v, a)) =>
      var b := Skip(a, strict);
      if b == [] then None
      else if b[0] == 0x5D then Some((ICons(v, INil), b[1..]))
      else if b[0] != 0x2C then None
      else
        match ReadItems(Skip(b[1..], strict), strict)
        case None => None
        case Some((items, rest)) => Some((ICons(v, items), rest))
  }

  /** At least one member, and the closing brace. */
  function ReadMembers(t: Text, strict: bool): (r: Option<(Members, Text)>)
    ensures r.Some? ==> |r.value.1| < |t|
    decreases |t|, 1
  {
    if t == [] || t[0] != 0x22 then None
    else
      match ReadChars(t[1..], strict)
      case None => None
      case Some((k, a)) =>
        var b := Skip(a, strict);
        if b == [] || b[0] != 0x3A then None
        else
          match ReadValue(Skip(b[1..], strict), strict)
          case None => None
          case Some((v, c)) =>
            var d := Skip(c, strict);
            if d == [] then None
            else if d[0] == 0x7D then Some((MCons(k, v, MNil), d[1..]))
            else if d[0] != 0x2C then None
            else
              match ReadMembers(Skip(d[1..], strict), strict)
              case None => None
              case Some((ms, rest)) => Some((MCons(k, v, ms), rest))
  }

  /** A whole text. */
  function Read(t: Text, strict: bool): Option<Json> {
    match ReadValue(Skip(t, strict), strict)
    case None => None
    case Some((v, rest)) => if Skip(rest, strict) == [] then Some(v) else None
  }

  // ---------------------------------------------------------------------------
  // Printed numbers are read back
  // ---------------------------------------------------------------------------

  predicate StartsDigit(t: Text) {
    t != [] && IsDigitCode(t[0])
  }

  lemma {:induction false} RunEnds(t: Text, r: Text)
    requires DigitCodes(t) && !StartsDigit(r)
    ensures DigitRun(t + r) == |t|
  {
    if t == [] {
      assert t + r == r;
    } else {
      assert (t + r)[1..] == t[1..] + r;
      RunEnds(t[1..], r);
    }
  }

  /** The code units of digits. */
  function Codes(s: string): (t: Text)
    requires AllDigits(s)
    ensures |t| == |s| && DigitCodes(t) && forall i :: 0 <= i < |s| ==> t[i] == s[i] as int
  {
    seq(|s|, i requires 0 <= i < |s| => assert IsDigit(s[i]); s[i] as int)
  }

  lemma {:induction false} ValueOfDigits(n: nat)
    ensures DecimalValue(Codes(Digits(n))) == n
  {
    var s := Digits(n);
    if n < 10 {
      assert Codes(s)[..0] == [];
    } else {
      ValueOfDigits(n / 10);
      assert s[..|s| - 1] == Digits(n / 10);
      assert Codes(s)[..|s| - 1] == Codes(Digits(n / 10));
    }
  }

  lemma {:induction false} ValueTrimsLeft(negative: bool, zeros: nat, digits: Text, point: int)
    requires DigitCodes(digits)
    ensures DigitCodes(Codes(Zeros(zeros)) + digits)
    ensures Value(negative, Codes(Zeros(zeros)) + digits, point) == Value(negative, digits, point - zeros)
  {
    if zeros == 0 {
      assert Codes(Zeros(0)) + digits == digits;
    } else {
      assert (Codes(Zeros(zeros)) + digits)[1..] == Codes(Zeros(zeros - 1)) + digits;
      ValueTrimsLeft(negative, zeros - 1, digits, point - 1);
    }
  }

  lemma {:induction false} ValueTrimsRight(negative: bool, digits: Text, zeros: nat, point: int)
    requires DigitCodes(digits) && digits != [] && digits[0] != 0x30
    ensures DigitCodes(digits + Codes(Zeros(zeros)))
    ensures Value(negative, digits + Codes(Zeros(zeros)), point) == Value(negative, digits, point)
  {
    if zeros == 0 {
      assert digits + Codes(Zeros(0)) == digits;
    } else {
      var t := digits + Codes(Zeros(zeros));
      assert t[..|t| - 1] == digits + Codes(Zeros(zeros - 1));
      ValueTrimsRight(negative, digits, zeros - 1, point);
    }
  }

  lemma ValueOfSignificant(negative: bool, digits: string, point: int)
    requires Significant(digits)
    ensures Value(negative, Codes(digits), point) == Finite(negative, digits, point)
  {
    var t := Codes(digits);
    var s := seq(|t|, i requires 0 <= i < |t| => CharOf(t[i]));
    assert s == digits;
  }

  /** What may follow a value: nothing, a comma or a closing bracket. */
  predicate Ends(r: Text) {
    r == [] || r[0] in {0x2C, 0x5D, 0x7D}
  }

  function FractionText(digits: string): Text
    requires AllDigits(digits)
  {
    if digits == "" then [] else [0x2E] + Codes(digits)
  }

  function ExponentText(e: Option<int>): Text {
    match e
    case None => []
    case Some(k) => if k < 0 then [0x65, 0x2D] + Codes(Digits(-k)) else [0x65, 0x2B] + Codes(Digits(k))
  }

  lemma FractionBack(digits: string, r: Text)
    requires AllDigits(digits) && !StartsDigit(r) && (r == [] || r[0] != 0x2E)
    ensures ReadFraction(FractionText(digits) + r) == Some((Codes(digits), r))
  {
    hide DigitRun, Codes;
    if digits == "" {
      assert [] + r == r && Codes(digits) == [];
    } else {
      var codes := Codes(digits);
      var t := [0x2E] + codes + r;
      RunEnds(codes, r);
      Cut([0x2E], codes, r);
    }
  }

  lemma Cut(a: Text, b: Text, c: Text)
    ensures (a + b + c)[|a|..] == b + c && (b + c)[..|b|] == b && (b + c)[|b|..] == c
  {
  }

  lemma ExponentBack(e: Option<int>, r: Text)
    requires Ends(r)
    ensures ReadExponent(ExponentText(e) + r) == Some((if e.Some? then e.value else 0, r))
  {
    hide DigitRun, Codes, Digits, DecimalValue;
    if e.None? {
      assert [] + r == r;
    } else {
      var n: nat := if e.value < 0 then -e.value else e.value;
      var codes := Codes(Digits(n));
      var head: Text := [0x65, if e.value < 0 then 0x2D else 0x2B];
      RunEnds(codes, r);
      ValueOfDigits(n);
      Cut(head, codes, r);
      assert ExponentText(e) == head + codes;
    }
  }

  /** An integer without needless zeros, a fraction and an exponent are read together. */
  lemma UnsignedBack(negative: bool, whole: string, fraction: string, e: Option<int>, r: Text)
    requires AllDigits(whole) && AllDigits(fraction) && Ends(r)
    requires whole != "" && (|whole| > 1 ==> whole[0] != '0')
    ensures ReadUnsigned(Codes(whole) + (FractionText(fraction) + (ExponentText(e) + r)), negative) ==
            Some((Value(negative, Codes(whole) + Codes(fraction), |whole| + if e.Some? then e.value else 0), r))
  {
    hide Value, ReadFraction, ReadExponent, ExponentText, DigitRun, FractionText, AllDigits;
    var behind := ExponentText(e) + r;
    var codes := Codes(whole);
    var c := FractionText(fraction) + behind;
    AfterDigits(e, r);
    AfterWhole(fraction, behind);
    RunEnds(codes, c);
    Cut([], codes, c);
    assert codes[0] == whole[0] as int && (codes + c)[0] == codes[0];
    hide Codes;
    FractionBack(fraction, behind);
    ExponentBack(e, r);
  }

  lemma AfterWhole(fraction: string, r: Text)
    requires AllDigits(fraction) && !StartsDigit(r)
    ensures !StartsDigit(FractionText(fraction) + r)
  {
    if fraction == "" {
      assert [] + r == r;
    }
  }

  lemma AfterDigits(e: Option<int>, r: Text)
    requires Ends(r)
    ensures var t := ExponentText(e) + r; !StartsDigit(t) && (t == [] || t[0] != 0x2E)
  {
    if e.None? {
      assert [] + r == r;
    }
  }

  lemma UnitsOfDigits(s: string)
    requires AllDigits(s)
    ensures AllNumeric(s) && Units(s) == Codes(s)
  {
  }

  lemma UnitsJoin(a: string, b: string)
    requires AllNumeric(a) && AllNumeric(b)
    ensures AllNumeric(a + b) && Units(a + b) == Units(a) + Units(b)
  {
  }

  lemma UnitsOf(s: string)
    ensures s == "." ==> AllNumeric(s) && Units(s) == [0x2E]
    ensures s == "0." ==> AllNumeric(s) && Units(s) == [0x30, 0x2E]
    ensures s == "e-" ==> AllNumeric(s) && Units(s) == [0x65, 0x2D]
    ensures s == "e+" ==> AllNumeric(s) && Units(s) == [0x65, 0x2B]
    ensures s == "-" ==> AllNumeric(s) && Units(s) == [0x2D]
  {
  }

  /** The parts that a printed positive number has: they are its text, and they have its value. */
  ghost predicate PartsOf(digits: string, point: int, whole: string, fraction: string, e: Option<int>)
    requires Significant(digits)
  {
    && AllDigits(whole) && AllDigits(fraction) && whole != "" && (|whole| > 1 ==> whole[0] != '0')
    && AllNumeric(Unsigned(digits, point))
    && Units(Unsigned(digits, point)) == Codes(whole) + (FractionText(fraction) + ExponentText(e))
    && forall negative ::
         Value(negative, Codes(whole) + Codes(fraction), |whole| + if e.Some? then e.value else 0) ==
         Finite(negative, digits, point)
  }

  lemma IntegerParts(digits: string, point: int)
    requires Significant(digits) && |digits| <= point <= 21
    ensures PartsOf(digits, point, digits + Zeros(point - |digits|), "", None)
  {
    var zeros := Zeros(point - |digits|);
    UnitsOfDigits(digits);
    UnitsOfDigits(zeros);
    UnitsJoin(digits, zeros);
    DigitsJoin(digits, zeros);
    assert Codes(digits + zeros) == Codes(digits) + Codes(zeros);
    forall negative
      ensures Value(negative, Codes(digits + zeros) + Codes(""), point) == Finite(negative, digits, point)
    {
      assert Codes(digits + zeros) + Codes("") == Codes(digits) + Codes(zeros);
      ValueTrimsRight(negative, Codes(digits), |zeros|, point);
      ValueOfSignificant(negative, digits, point);
    }
    assert Codes(digits + zeros) + ([] + []) == Codes(digits + zeros);
  }

  lemma DecimalParts(digits: string, point: int)
    requires Significant(digits) && 0 < point < |digits| && point <= 21
    ensures PartsOf(digits, point, digits[..point], digits[point..], None)
  {
    hide Value, Unsigned, Codes, Units, FractionText;
    DecimalUnits(digits, point);
    assert |digits[..point]| == point && digits[..point][0] == digits[0];
    forall negative
      ensures Value(negative, Codes(digits[..point]) + Codes(digits[point..]), point) ==
              Finite(negative, digits, point)
    {
      ValueOfHalves(negative, digits, point, point);
    }
  }

  lemma DecimalUnits(digits: string, point: int)
    requires Significant(digits) && 0 < point < |digits| && point <= 21
    ensures AllDigits(digits[..point]) && AllDigits(digits[point..]) && AllNumeric(Unsigned(digits, point))
    ensures Units(Unsigned(digits, point)) ==
            Codes(digits[..point]) + (FractionText(digits[point..]) + ExponentText(None))
  {
    hide Units, Codes;
    var a, b := digits[..point], digits[point..];
    UnitsOfDigits(a);
    UnitsOfDigits(b);
    UnitsOf(".");
    UnitsJoin(a, ".");
    UnitsJoin(a + ".", b);
    assert Codes(a) + ([0x2E] + Codes(b) + []) == Codes(a) + [0x2E] + Codes(b);
  }

  lemma SmallParts(digits: string, point: int)
    requires Significant(digits) && -6 < point <= 0
    ensures PartsOf(digits, point, "0", Zeros(-point) + digits, None)
  {
    assert AllDigits("0") by { assert "0" == Zeros(1); }
    DigitsJoin(Zeros(-point), digits);
    SmallUnits(digits, point);
    forall negative
      ensures Value(negative, Codes("0") + Codes(Zeros(-point) + digits), 1) == Finite(negative, digits, point)
    {
      SmallValue(negative, digits, point);
    }
  }

  lemma SmallUnits(digits: string, point: int)
    requires Significant(digits) && -6 < point <= 0
    ensures AllDigits("0") && AllDigits(Zeros(-point) + digits) && AllNumeric(Unsigned(digits, point))
    ensures Units(Unsigned(digits, point)) ==
            Codes("0") + (FractionText(Zeros(-point) + digits) + ExponentText(None))
  {
    hide Codes;
    var zeros := Zeros(-point);
    assert AllDigits("0") by { assert "0" == Zeros(1); }
    UnitsOfDigits("0");
    UnitsOf("0.");
    DigitsJoin(zeros, digits);
    UnitsOfDigits(zeros + digits);
    assert Codes("0") == [0x30];
    hide Units;
    UnitsJoin("0.", zeros + digits);
    assert "0." + zeros + digits == "0." + (zeros + digits);
    var codes := Codes(zeros + digits);
    assert [0x30] + ([0x2E] + codes + []) == [0x30, 0x2E] + codes;
  }

  lemma SmallValue(negative: bool, digits: string, point: int)
    requires Significant(digits) && point <= 0
    ensures AllDigits("0") && AllDigits(Zeros(-point) + digits)
    ensures Value(negative, Codes("0") + Codes(Zeros(-point) + digits), 1) == Finite(negative, digits, point)
  {
    hide Value;
    assert AllDigits("0") by { assert "0" == Zeros(1); }
    DigitsJoin(Zeros(-point), digits);
    ValueTrimsLeft(negative, 1 - point, Codes(digits), 1);
    ValueOfSignificant(negative, digits, point);
    assert Codes("0") + Codes(Zeros(-point) + digits) == Codes(Zeros(1 - point)) + Codes(digits);
  }

  lemma ScientificParts(digits: string, point: int)
    requires Significant(digits) && !(-6 < point <= 21)
    ensures PartsOf(digits, point, digits[..1], digits[1..], Some(point - 1))
  {
    hide Value, Unsigned, Codes, Units, FractionText, ExponentText;
    ScientificUnits(digits, point);
    assert digits[..1] != "" && |digits[..1]| == 1;
    forall negative
      ensures Value(negative, Codes(digits[..1]) + Codes(digits[1..]), point) == Finite(negative, digits, point)
    {
      ValueOfHalves(negative, digits, 1, point);
    }
  }

  lemma ValueOfHalves(negative: bool, digits: string, k: nat, point: int)
    requires Significant(digits) && k <= |digits|
    ensures AllDigits(digits[..k]) && AllDigits(digits[k..])
    ensures Value(negative, Codes(digits[..k]) + Codes(digits[k..]), point) == Finite(negative, digits, point)
  {
    hide Value;
    assert Codes(digits[..k]) + Codes(digits[k..]) == Codes(digits);
    ValueOfSignificant(negative, digits, point);
  }

  lemma MantissaUnits(digits: string)
    requires Significant(digits)
    ensures AllNumeric(Mantissa(digits)) && AllDigits(digits[..1]) && AllDigits(digits[1..])
    ensures Units(Mantissa(digits)) == Codes(digits[..1]) + FractionText(digits[1..])
  {
    hide Units, Codes;
    var a, b := digits[..1], digits[1..];
    UnitsOfDigits(a);
    UnitsOfDigits(b);
    UnitsOf(".");
    if |digits| == 1 {
      assert a == digits && b == "";
      assert Codes(a) + [] == Codes(a);
    } else {
      UnitsJoin(a, ".");
      UnitsJoin(a + ".", b);
      assert Codes(a) + [0x2E] + Codes(b) == Codes(a) + ([0x2E] + Codes(b));
    }
  }

  lemma ExponentUnits(e: int)
    ensures AllNumeric("e" + Exponent(e)) && Units("e" + Exponent(e)) == ExponentText(Some(e))
  {
    hide Units, Codes, Digits;
    if e < 0 {
      SignedUnits("e-", Digits(-e));
      assert "e" + ("-" + Digits(-e)) == "e-" + Digits(-e);
    } else {
      SignedUnits("e+", Digits(e));
      assert "e" + ("+" + Digits(e)) == "e+" + Digits(e);
    }
  }

  lemma SignedUnits(sign: string, digits: string)
    requires AllDigits(digits) && (sign == "e-" || sign == "e+")
    ensures AllNumeric(sign + digits)
    ensures Units(sign + digits) == (if sign == "e-" then [0x65, 0x2D] else [0x65, 0x2B]) + Codes(digits)
  {
    hide Units, Codes;
    UnitsOfDigits(digits);
    UnitsOf(sign);
    UnitsJoin(sign, digits);
  }

  lemma ScientificText(digits: string, point: int)
    requires Significant(digits) && !(-6 < point <= 21)
    ensures Unsigned(digits, point) == Mantissa(digits) + ("e" + Exponent(point - 1))
  {
    hide Mantissa, Exponent;
    var m, e := Mantissa(digits), Exponent(point - 1);
    assert m + "e" + e == m + ("e" + e);
  }

  lemma ScientificUnits(digits: string, point: int)
    requires Significant(digits) && !(-6 < point <= 21)
    ensures AllDigits(digits[..1]) && AllDigits(digits[1..]) && AllNumeric(Unsigned(digits, point))
    ensures Units(Unsigned(digits, point)) ==
            Codes(digits[..1]) + (FractionText(digits[1..]) + ExponentText(Some(point - 1)))
  {
    MantissaUnits(digits);
    ExponentUnits(point - 1);
    ScientificText(digits, point);
    assert digits != "";
    hide *;
    UnitsJoin(Mantissa(digits), "e" + Exponent(point - 1));
    Regroup(Codes(digits[..1]), FractionText(digits[1..]), ExponentText(Some(point - 1)));
  }

  lemma Regroup(a: Text, b: Text, c: Text)
    ensures (a + b) + c == a + (b + c)
  {
  }

  lemma PartsExist(digits: string, point: int) returns (whole: string, fraction: string, e: Option<int>)
    requires Significant(digits)
    ensures PartsOf(digits, point, whole, fraction, e)
  {
    hide PartsOf;
    if !(-6 < point <= 21) {
      whole, fraction, e := digits[..1], digits[1..], Some(point - 1);
      ScientificParts(digits, point);
    } else if point <= 0 {
      whole, fraction, e := "0", Zeros(-point) + digits, None;
      SmallParts(digits, point);
    } else if point < |digits| {
      whole, fraction, e := digits[..point], digits[point..], None;
      DecimalParts(digits, point);
    } else {
      whole, fraction, e := digits + Zeros(point - |digits|), "", None;
      IntegerParts(digits, point);
    }
  }

  /** Every printed number is read back. */
  lemma PrintedNumberBack(x: JsNumbers.Num, r: Text)
    requires Ends(r)
    ensures ReadNumber(NumberText(x) + r) == Some((x, r))
  {
    if x.Zero? {
      ZeroBack(r);
    } else {
      hide Unsigned, Value, ReadNumber, ReadUnsigned, Codes, FractionText, ExponentText, NumberText, AllDigits, Units,
        Significant, AllNumeric;
      var whole, fraction, e := PartsExist(x.digits, x.point);
      var text := Codes(whole) + (FractionText(fraction) + ExponentText(e));
      var sign: Text := if x.negative then [0x2D] else [];
      NumberUnitsAre(x, sign, text);
      UnsignedBack(x.negative, whole, fraction, e, r);
      Associate(Codes(whole), FractionText(fraction), ExponentText(e), r);
      CodesFirst(whole, FractionText(fraction) + ExponentText(e));
      SignedBack(x.negative, text, r);
    }
  }

  lemma CodesFirst(whole: string, r: Text)
    requires AllDigits(whole) && whole != ""
    ensures (Codes(whole) + r)[0] != 0x2D
  {
    assert IsDigitCode(Codes(whole)[0]);
  }

  lemma SignedBack(negative: bool, text: Text, r: Text)
    requires text != [] && text[0] != 0x2D
    ensures ReadNumber((if negative then [0x2D] else []) + text + r) == ReadUnsigned(text + r, negative)
  {
    hide ReadUnsigned;
    if negative {
      assert ([0x2D] + text + r)[1..] == text + r;
    } else {
      assert [] + text + r == text + r;
    }
  }

  lemma Associate(a: Text, b: Text, c: Text, r: Text)
    ensures a + (b + c) + r == a + (b + (c + r))
  {
  }

  lemma ZeroBack(r: Text)
    requires Ends(r)
    ensures ReadNumber(NumberText(Zero) + r) == Some((Zero, r))
  {
    hide Value, ReadUnsigned;
    assert AllDigits("0") by { assert "0" == Zeros(1); }
    UnitsOfDigits("0");
    UnsignedBack(false, "0", "", None, r);
    ValueOfZero();
    assert Codes("0") + ([] + ([] + r)) == Codes("0") + r;
    assert NumberText(Zero) == Codes("0") && (Codes("0") + r)[0] == 0x30;
  }

  lemma NumberUnitsAre(x: JsNumbers.Num, sign: Text, text: Text)
    requires x.Finite? && AllNumeric(Unsigned(x.digits, x.point)) && text == Units(Unsigned(x.digits, x.point))
    requires sign == if x.negative then [0x2D] else []
    ensures NumberText(x) == sign + text
  {
    hide Unsigned;
    PrintShape(x);
    var u := Unsigned(x.digits, x.point);
    if x.negative {
      UnitsOf("-");
      UnitsJoin("-", u);
    } else {
      assert "" + u == u && [] + text == text;
    }
  }

  lemma ValueOfZero()
    ensures AllDigits("0") && AllDigits("") && Value(false, Codes("0") + Codes(""), 1) == Zero
  {
    var t := Codes("0") + Codes("");
    assert t[1..] == [];
  }

  // ---------------------------------------------------------------------------
  // Printed strings are read back
  // ---------------------------------------------------------------------------

  lemma HexBack(u: CodeUnit, r: Text)
    ensures ReadHex([HexDigit(u / 4096), HexDigit(u / 256 % 16), HexDigit(u / 16 % 16), HexDigit(u % 16)] + r) ==
            Some(u)
  {
    var a, b, c, d := u / 4096, u / 256 % 16, u / 16 % 16, u % 16;
    Nibbles(u);
    DigitBack(a);
    DigitBack(b);
    DigitBack(c);
    DigitBack(d);
    hide HexValue, HexDigit;
    var t: Text := [HexDigit(a), HexDigit(b), HexDigit(c), HexDigit(d)] + r;
    assert t[0] == HexDigit(a) && t[1] == HexDigit(b) && t[2] == HexDigit(c) && t[3] == HexDigit(d);
  }

  lemma DigitBack(d: nat)
    requires d < 16
    ensures HexValue(HexDigit(d)) == d
  {
  }

  lemma Nibbles(u: CodeUnit)
    ensures u == 4096 * (u / 4096) + 256 * (u / 256 % 16) + 16 * (u / 16 % 16) + u % 16 && u / 4096 < 16
  {
    assert u / 16 / 16 == u / 256 && u / 256 / 16 == u / 4096;
  }

  /** An escaped unit is read back, and a strict reader accepts it because it had to be escaped. */
  lemma EscapedBack(u: CodeUnit, r: Text, strict: bool)
    requires MustEscape(u)
    ensures ReadChars(Escaped(u) + r, strict) == Then(u, ReadChars(r, strict))
  {
    hide ReadHex;
    var t := Escaped(u) + r;
    if ShortEscape(u) >= 0 {
      assert t[2..] == r;
    } else {
      var hex: Text := [HexDigit(u / 4096), HexDigit(u / 256 % 16), HexDigit(u / 16 % 16), HexDigit(u % 16)];
      HexBack(u, r);
      assert t[2..] == hex + r && t[6..] == r;
    }
  }

  lemma HeadBack(s: Text, paired: bool, r: Text, strict: bool)
    requires s != []
    ensures ReadChars(Head(s, paired) + r, strict) == Then(s[0], ReadChars(r, strict))
  {
    if NeedsEscape(s[0], paired || (!paired && StartsPair(s))) {
      EscapedBack(s[0], r, strict);
    } else {
      assert ([s[0]] + r)[1..] == r;
    }
  }

  /** The inside of a string literal is read back up to its closing quotation mark. */
  lemma {:induction false} CharsBack(s: Text, paired: bool, r: Text, strict: bool)
    ensures ReadChars(Body(s, paired) + ([0x22] + r), strict) == Some((s, r))
    decreases |s|
  {
    hide Head, ReadChars;
    if s == [] {
      QuoteEnds(r, strict);
      assert [] + ([0x22] + r) == [0x22] + r;
    } else {
      var pair := !paired && StartsPair(s);
      var rest := Body(s[1..], pair) + ([0x22] + r);
      BodyCons(s, paired, r);
      HeadBack(s, paired, rest, strict);
      CharsBack(s[1..], pair, r, strict);
      assert s == [s[0]] + s[1..];
    }
  }

  lemma QuoteEnds(r: Text, strict: bool)
    ensures ReadChars([0x22] + r, strict) == Some(([], r))
  {
  }

  /** Nothing in the text has to be escaped, and surrogates come in pairs; the first unit may complete one. */
  predicate Plain(s: Text, paired: bool) {
    forall i :: 0 <= i < |s| ==> PlainAt(s, paired, i)
  }

  predicate PlainAt(s: Text, paired: bool, i: int)
    requires 0 <= i < |s|
  {
    && s[i] >= 0x20 && s[i] != 0x22 && s[i] != 0x5C
    && (0xD800 <= s[i] <= 0xDBFF ==> i + 1 < |s| && 0xDC00 <= s[i + 1] <= 0xDFFF)
    && (0xDC00 <= s[i] <= 0xDFFF ==> if i == 0 then paired else 0xD800 <= s[i - 1] <= 0xDBFF)
  }

  lemma PlainRest(s: Text, paired: bool)
    requires s != [] && Plain(s, paired) && (paired ==> 0xDC00 <= s[0] <= 0xDFFF)
    ensures var pair := !paired && StartsPair(s);
            && Plain(s[1..], pair) && (pair ==> 0xDC00 <= s[1..][0] <= 0xDFFF)
            && !NeedsEscape(s[0], paired || pair)
  {
    var t, pair := s[1..], !paired && StartsPair(s);
    assert PlainAt(s, paired, 0) && ShortEscape(s[0]) < 0;
    forall i | 0 <= i < |t| ensures PlainAt(t, pair, i) {
      assert PlainAt(s, paired, i + 1) && t[i] == s[i + 1];
    }
  }

  /** A string that has nothing to escape is printed as it is, between quotation marks. */
  lemma {:induction false} PlainTextsStay(s: Text, paired: bool)
    requires Plain(s, paired) && (paired ==> s != [] && 0xDC00 <= s[0] <= 0xDFFF)
    ensures Body(s, paired) == s
    decreases |s|
  {
    if s != [] {
      var pair := !paired && StartsPair(s);
      PlainRest(s, paired);
      PlainTextsStay(s[1..], pair);
      assert s == [s[0]] + s[1..];
    }
  }

  // ---------------------------------------------------------------------------
  // Printed values are read back
  // ---------------------------------------------------------------------------

  lemma QuotedBack(s: Text, r: Text, strict: bool)
    ensures Quoted(s) + r != [] && (Quoted(s) + r)[0] == 0x22
    ensures ReadChars((Quoted(s) + r)[1..], strict) == Some((s, r))
  {
    CharsBack(s, false, r, strict);
    assert (Quoted(s) + r)[1..] == Body(s, false) + ([0x22] + r);
  }

  predicate Solid(t: Text) {
    t != [] && t[0] !in {0x20, 0x09, 0x0A, 0x0D}
  }

  /** Printed values begin with a character that is no white space and closes nothing. */
  lemma Begin(j: Json, r: Text)
    ensures Solid(Stringify(j) + r) && (Stringify(j) + r)[0] != 0x5D
  {
    if j.Num? {
      NumberFirst(j.n);
    }
  }

  lemma NumberFirst(n: JsNumbers.Num)
    ensures NumberText(n) != [] && (IsDigitCode(NumberText(n)[0]) || NumberText(n)[0] == 0x2D)
  {
    hide Print;
    PrintShape(n);
  }

  lemma {:induction false} ValueBack(j: Json, r: Text, strict: bool)
    requires Ends(r)
    ensures ReadValue(Stringify(j) + r, strict) == Some((j, r))
    decreases j
  {
    hide ReadNumber, ReadChars, ReadItems, ReadMembers, ItemsText, MembersText, Quoted, NumberText;
    var t := Stringify(j) + r;
    match j
    case Null => assert t[..4] == NULL_WORD && t[4..] == r;
    case Bool(b) => WordBack(b, r, strict);
    case Num(n) =>
      NumberFirst(n);
      assert t == NumberText(n) + r && t[0] == NumberText(n)[0];
      PrintedNumberBack(n, r);
      NotAWord(t);
    case Str(s) =>
      QuotedBack(s, r, strict);
      assert t == Quoted(s) + r;
      NotAWord(t);
    case Arr(items) =>
      assert t[1..] == ItemsText(items) + r;
      NotAWord(t);
      ItemsBack(items, r, strict);
    case Obj(ms) =>
      assert t[1..] == MembersText(ms) + r;
      NotAWord(t);
      MembersBack(ms, r, strict);
  }

  lemma WordBack(b: bool, r: Text, strict: bool)
    ensures ReadValue(Stringify(Bool(b)) + r, strict) == Some((Bool(b), r))
  {
    hide ReadNumber, ReadChars, ReadItems, ReadMembers;
    var t := Stringify(Bool(b)) + r;
    if b {
      assert t[..4] == TRUE_WORD && t[4..] == r && t[..4][0] == 0x74;
    } else {
      assert t[..5] == FALSE_WORD && t[5..] == r && t[..4][0] == 0x66;
    }
  }

  lemma NotAWord(t: Text)
    requires t != [] && t[0] !in {0x6E, 0x74, 0x66}
    ensures !Begins(t, NULL_WORD) && !Begins(t, TRUE_WORD) && !Begins(t, FALSE_WORD)
  {
    assert |t| >= 4 ==> t[..4][0] == t[0];
    assert |t| >= 5 ==> t[..5][0] == t[0];
  }

  /** What an opening bracket is followed by. */
  lemma {:induction false} ItemsBack(items: Items, r: Text, strict: bool)
    ensures var t := ItemsText(items) + r;
            && Solid(t) && (items.INil? ==> t == [0x5D] + r)
            && (items.ICons? ==> t[0] != 0x5D && ReadItems(t, strict) == Some((items, r)))
    decreases items
  {
    hide Stringify, ReadValue;
    if items.ICons? {
      var t := ItemsText(items) + r;
      var rest := (if items.tail.INil? then [0x5D] else [0x2C] + ItemsText(items.tail)) + r;
      assert t == Stringify(items.head) + rest;
      Begin(items.head, rest);
      ValueBack(items.head, rest, strict);
      if items.tail.INil? {
        assert rest[1..] == r;
      } else {
        assert rest[1..] == ItemsText(items.tail) + r;
        ItemsBack(items.tail, r, strict);
      }
    }
  }

  lemma NothingToSkip(t: Text, strict: bool)
    requires Solid(t)
    ensures Skip(t, strict) == t
  {
  }

  lemma Behind(u: CodeUnit, t: Text)
    ensures ([u] + t)[0] == u && ([u] + t)[1..] == t
  {
  }

  lemma {:induction false} MembersBack(ms: Members, r: Text, strict: bool)
    ensures var t := MembersText(ms) + r;
            && Solid(t) && (ms.MNil? ==> t == [0x7D] + r)
            && (ms.MCons? ==> t[0] == 0x22 && ReadMembers(t, strict) == Some((ms, r)))
    decreases ms
  {
    if ms.MCons? {
      hide Stringify, ReadValue, ReadChars, Quoted, MembersText, AfterValue, Skip;
      var t := MembersText(ms) + r;
      var after := AfterValue(ms) + r;
      var colon := [0x3A] + (Stringify(ms.value) + after);
      MembersShape(ms, r);
      QuotedBack(ms.key, colon, strict);
      Behind(0x3A, Stringify(ms.value) + after);
      Begin(ms.value, after);
      AfterShape(ms, r);
      NothingToSkip(colon, strict);
      NothingToSkip(Stringify(ms.value) + after, strict);
      NothingToSkip(after, strict);
      ValueBack(ms.value, after, strict);
      if ms.rest.MCons? {
        MembersBack(ms.rest, r, strict);
        NothingToSkip(MembersText(ms.rest) + r, strict);
      }
    }
  }

  /** Every printed text is JSON, and is read as the value it was printed from; also by a reader that neither skips
      white space nor accepts a needless escape. */
  lemma PrintedTextsAreRead(j: Json, strict: bool)
    ensures Read(Stringify(j), strict) == Some(j)
  {
    hide ReadValue, Stringify;
    ValueBack(j, [], strict);
    Begin(j, []);
    assert Stringify(j) + [] == Stringify(j);
  }

  // ---------------------------------------------------------------------------
  // Printed texts are Unicode
  // ---------------------------------------------------------------------------

  /** Every surrogate is half of a pair, so that the text has an encoding in UTF-8. */
  predicate Unicode(t: Text) {
    if t == [] then true
    else if 0xD800 <= t[0] <= 0xDBFF then |t| >= 2 && 0xDC00 <= t[1] <= 0xDFFF && Unicode(t[2..])
    else !(0xDC00 <= t[0] <= 0xDFFF) && Unicode(t[1..])
  }

  lemma {:induction false} UnicodeJoin(a: Text, b: Text)
    requires Unicode(a) && Unicode(b)
    ensures Unicode(a + b)
    decreases |a|
  {
    if a == [] {
      assert a + b == b;
    } else {
      var n := if 0xD800 <= a[0] <= 0xDBFF then 2 else 1;
      assert (a + b)[n..] == a[n..] + b;
      UnicodeJoin(a[n..], b);
    }
  }

  lemma {:induction false} PlainUnicode(t: Text)
    requires forall i :: 0 <= i < |t| ==> t[i] < 0xD800
    ensures Unicode(t)
  {
    if t != [] {
      PlainUnicode(t[1..]);
    }
  }

  lemma {:induction false} BodyUnicode(s: Text)
    ensures Unicode(Body(s, false))
    decreases |s|
  {
    if s != [] {
      if StartsPair(s) {
        var pair: Text := [s[0], s[1]];
        assert s[1..][1..] == s[2..] && pair[2..] == [];
        assert Body(s, false) == pair + Body(s[2..], false);
        BodyUnicode(s[2..]);
        UnicodeJoin(pair, Body(s[2..], false));
      } else {
        assert Body(s, false) == Head(s, false) + Body(s[1..], false);
        HeadUnicode(s);
        BodyUnicode(s[1..]);
        UnicodeJoin(Head(s, false), Body(s[1..], false));
      }
    }
  }

  lemma HeadUnicode(s: Text)
    requires s != [] && !StartsPair(s)
    ensures Unicode(Head(s, false))
  {
    if NeedsEscape(s[0], false) {
      PlainUnicode(Escaped(s[0]));
    } else {
      assert [s[0]][1..] == [];
    }
  }

  lemma QuotedUnicode(s: Text)
    ensures Unicode(Quoted(s))
  {
    BodyUnicode(s);
    PlainUnicode([QUOTE]);
    UnicodeJoin([QUOTE], Body(s, false));
    UnicodeJoin([QUOTE] + Body(s, false), [QUOTE]);
  }

  /** Lone surrogates are escaped: what is printed is Unicode, whatever the strings. */
  lemma {:induction false} PrintedTextsAreUnicode(j: Json)
    ensures Unicode(Stringify(j))
    decreases j
  {
    hide Unicode, ItemsText, MembersText, Quoted, NumberText;
    match j
    case Null => PlainUnicode(Stringify(j));
    case Bool(_) => PlainUnicode(Stringify(j));
    case Num(n) => NumberUnicode(n);
    case Str(s) => QuotedUnicode(s);
    case Arr(items) =>
      PlainUnicode([LBRACKET]);
      ItemsUnicode(items);
      UnicodeJoin([LBRACKET], ItemsText(items));
    case Obj(ms) =>
      PlainUnicode([LBRACE]);
      MembersUnicode(ms);
      UnicodeJoin([LBRACE], MembersText(ms));
  }

  lemma NumberUnicode(n: JsNumbers.Num)
    ensures Unicode(NumberText(n))
  {
    hide Print, Unicode;
    PrintShape(n);
    PlainUnicode(NumberText(n));
  }

  lemma {:induction false} ItemsUnicode(items: Items)
    ensures Unicode(ItemsText(items))
    decreases items
  {
    hide Unicode, Stringify;
    PlainUnicode([RBRACKET]);
    PlainUnicode([COMMA]);
    if items.ICons? {
      PrintedTextsAreUnicode(items.head);
      ItemsUnicode(items.tail);
      UnicodeJoin([COMMA], ItemsText(items.tail));
      UnicodeJoin(Stringify(items.head), if items.tail.INil? then [RBRACKET] else [COMMA] + ItemsText(items.tail));
    }
  }

  lemma {:induction false} MembersUnicode(ms: Members)
    ensures Unicode(MembersText(ms))
    decreases ms
  {
    hide Unicode, Stringify, Quoted;
    PlainUnicode([RBRACE]);
    PlainUnicode([COMMA]);
    PlainUnicode([COLON]);
    if ms.MCons? {
      var after := if ms.rest.MNil? then [RBRACE] else [COMMA] + MembersText(ms.rest);
      PrintedTextsAreUnicode(ms.value);
      MembersUnicode(ms.rest);
      UnicodeJoin([COMMA], MembersText(ms.rest));
      UnicodeJoin(Stringify(ms.value), after);
      UnicodeJoin([COLON], Stringify(ms.value) + after);
      QuotedUnicode(ms.key);
      UnicodeJoin(Quoted(ms.key), [COLON] + (Stringify(ms.value) + after));
    }
  }

  // ---------------------------------------------------------------------------
  // What can be read back determines what was printed
  // ---------------------------------------------------------------------------

  /** The text of a number determines the number. */
  lemma PrintInjective(x: JsNumbers.Num, y: JsNumbers.Num)
    requires Print(x) == Print(y)
    ensures x == y
  {
    hide Print, ReadNumber;
    PrintedNumberBack(x, []);
    PrintedNumberBack(y, []);
  }

  /** A string literal ends at its first unescaped quotation mark, and its units can be read back. */
  lemma BodyUnambiguous(a: Text, p: bool, b: Text, q: bool, r: Text, s: Text)
    requires Body(a, p) + ([QUOTE] + r) == Body(b, q) + ([QUOTE] + s)
    ensures a == b && r == s
  {
    CharsBack(a, p, r, true);
    CharsBack(b, q, s, true);
  }

  /** JSON.stringify is injective, member order included. */
  lemma StringifyInjective(a: Json, b: Json)
    requires Stringify(a) == Stringify(b)
    ensures a == b
  {
    hide Stringify, Read;
    PrintedTextsAreRead(a, true);
    PrintedTextsAreRead(b, true);
  }
}
