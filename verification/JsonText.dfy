/** JSON values and the text JSON.stringify prints for them, over UTF-16 code units, with its escapes and
    its treatment of lone surrogates. */
module JsonText {
  import opened JsNumbers

  type CodeUnit = c: int | 0 <= c < 0x1_0000

  type Text = seq<CodeUnit>

  /** A JSON value; objects list their members in property order. */
  datatype Json =
    | Null
    | Bool(b: bool)
    | Num(n: JsNumbers.Num)
    | Str(s: Text)
    | Arr(items: Items)
    | Obj(members: Members)

  datatype Items = INil | ICons(head: Json, tail: Items)

  datatype Members = MNil | MCons(key: Text, value: Json, rest: Members)

  const QUOTE: CodeUnit := 34
  const COMMA: CodeUnit := 44
  const COLON: CodeUnit := 58
  const BACKSLASH: CodeUnit := 92
  const LBRACKET: CodeUnit := 91
  const RBRACKET: CodeUnit := 93
  const LBRACE: CodeUnit := 123
  const RBRACE: CodeUnit := 125

  // ---------------------------------------------------------------------------
  // Strings
  // ---------------------------------------------------------------------------

  predicate IsLead(u: CodeUnit) { 0xD800 <= u < 0xDC00 }

  predicate IsTrail(u: CodeUnit) { 0xDC00 <= u < 0xE000 }

  function HexDigit(d: int): CodeUnit
    requires 0 <= d < 16
  {
    if d < 10 then 48 + d else 87 + d
  }

  /** The letter after the backslash of a two-character escape, or -1. */
  function ShortEscape(u: CodeUnit): int {
    match u
    case 8 => 98
    case 9 => 116
    case 10 => 110
    case 12 => 102
    case 13 => 114
    case 34 => 34
    case 92 => 92
    case _ => -1
  }

  /** One code unit, escaped. */
  function Escaped(u: CodeUnit): Text {
    if ShortEscape(u) >= 0 then [BACKSLASH, ShortEscape(u)]
    else [BACKSLASH, 117, HexDigit(u / 4096), HexDigit(u / 256 % 16), HexDigit(u / 16 % 16), HexDigit(u % 16)]
  }

  /** Control characters, the quote, the backslash and lone surrogates are escaped. */
  predicate NeedsEscape(u: CodeUnit, paired: bool) {
    ShortEscape(u) >= 0 || u < 32 || (!paired && (IsLead(u) || IsTrail(u)))
  }

  predicate StartsPair(s: Text) {
    |s| >= 2 && IsLead(s[0]) && IsTrail(s[1])
  }

  /** The inside of a string literal; `paired` says that the first unit completes a surrogate pair. */
  function Body(s: Text, paired: bool): Text {
    if s == [] then []
    else
      var pair := !paired && StartsPair(s);
      (if NeedsEscape(s[0], paired || pair) then Escaped(s[0]) else [s[0]]) + Body(s[1..], pair)
  }

  function Quoted(s: Text): Text {
    [QUOTE] + Body(s, false) + [QUOTE]
  }

  // ---------------------------------------------------------------------------
  // Values
  // ---------------------------------------------------------------------------

  /** The code units of a text of numbers. */
  function Units(s: string): Text
    requires AllNumeric(s)
  {
    seq(|s|, i requires 0 <= i < |s| => assert Numeric(s[i]); UnitOf(s[i]))
  }

  function UnitOf(c: char): (u: CodeUnit)
    requires Numeric(c)
    ensures u == c as int
  {
    c as int
  }

  function NumberText(n: JsNumbers.Num): Text {
    PrintShape(n);
    Units(Print(n))
  }

  function Stringify(j: Json): Text {
    match j
    case Null => [110, 117, 108, 108]
    case Bool(b) => if b then [116, 114, 117, 101] else [102, 97, 108, 115, 101]
    case Num(n) => NumberText(n)
    case Str(s) => Quoted(s)
    case Arr(items) => [LBRACKET] + ItemsText(items)
    case Obj(members) => [LBRACE] + MembersText(members)
  }

  /** The elements and the closing bracket. */
  function ItemsText(items: Items): Text {
    match items
    case INil => [RBRACKET]
    case ICons(h, t) => Stringify(h) + if t.INil? then [RBRACKET] else [COMMA] + ItemsText(t)
  }

  function MembersText(ms: Members): Text {
    match ms
    case MNil => [RBRACE]
    case MCons(k, v, t) =>
      Quoted(k) + ([COLON] + (Stringify(v) + if t.MNil? then [RBRACE] else [COMMA] + MembersText(t)))
  }

  // ---------------------------------------------------------------------------
  // How the text is put together
  // ---------------------------------------------------------------------------

  /** What the first unit of a string prints as. */
  function Head(s: Text, paired: bool): Text
    requires s != []
  {
    if NeedsEscape(s[0], paired || (!paired && StartsPair(s))) then Escaped(s[0]) else [s[0]]
  }

  lemma BodyCons(s: Text, paired: bool, r: Text)
    requires s != []
    ensures Body(s, paired) + ([QUOTE] + r) ==
            Head(s, paired) + (Body(s[1..], !paired && StartsPair(s)) + ([QUOTE] + r))
  {
  }

  /** What follows the first member. */
  function AfterValue(ms: Members): Text
    requires ms.MCons?
  {
    if ms.rest.MNil? then [RBRACE] else [COMMA] + MembersText(ms.rest)
  }

  lemma AfterShape(ms: Members, r: Text)
    requires ms.MCons?
    ensures var x := AfterValue(ms) + r;
            && x != [] && x[0] == (if ms.rest.MNil? then RBRACE else COMMA)
            && x[1..] == if ms.rest.MNil? then r else MembersText(ms.rest) + r
  {
    hide MembersText;
  }

  lemma MembersShape(ms: Members, r: Text)
    requires ms.MCons?
    ensures MembersText(ms) + r == Quoted(ms.key) + ([COLON] + (Stringify(ms.value) + (AfterValue(ms) + r)))
  {
    var v, after := Stringify(ms.value), AfterValue(ms);
    var q := Quoted(ms.key);
    assert MembersText(ms) == q + ([COLON] + (v + after));
    hide Stringify, MembersText, Quoted, AfterValue;
    assert (q + ([COLON] + (v + after))) + r == q + ([COLON] + (v + (after + r)));
  }
}
