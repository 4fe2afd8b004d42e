/** One text for each JSON value, whatever the order of object members. */
module CanonicalJson {
  import opened Decimals
  import JsNumbers
  import JsonReader
  import opened JsonText
  import opened Options

  // ---------------------------------------------------------------------------
  // The order of object keys
  // ---------------------------------------------------------------------------

  /** Lexicographic order of UTF-16 code units, the order of `Array.prototype.sort`. */
  predicate LexLess(a: Text, b: Text) {
    b != [] && (a == [] || a[0] < b[0] || (a[0] == b[0] && LexLess(a[1..], b[1..])))
  }

  predicate DigitUnit(u: CodeUnit) { 48 <= u <= 57 }

  predicate AllDigits(k: Text) {
    forall i :: 0 <= i < |k| ==> DigitUnit(k[i])
  }

  function Chars(k: Text): (s: string)
    requires AllDigits(k)
    ensures forall i :: 0 <= i < |s| ==> IsDigit(s[i])
  {
    seq(|k|, i requires 0 <= i < |k| => CharOf(k[i]))
  }

  function CharOf(u: CodeUnit): (c: char)
    requires DigitUnit(u)
    ensures IsDigit(c) && c as int == u
  {
    u as char
  }

  /** Keys that JavaScript objects list first, in numeric order, wherever they are inserted. */
  predicate ArrayIndex(k: Text) {
    k != [] && AllDigits(k) && (|k| > 1 ==> k[0] != 48) && Number(Chars(k)) < 0xFFFF_FFFF
  }

  /** The property order of an object whose keys were inserted in sorted order. */
  predicate KeyLess(a: Text, b: Text) {
    if ArrayIndex(a) then !ArrayIndex(b) || Number(Chars(a)) < Number(Chars(b))
    else !ArrayIndex(b) && LexLess(a, b)
  }

  lemma {:induction false} LexIrreflexive(a: Text)
    ensures !LexLess(a, a)
  {
    if a != [] {
      LexIrreflexive(a[1..]);
    }
  }

  lemma {:induction false} LexTotal(a: Text, b: Text)
    ensures a == b || LexLess(a, b) || LexLess(b, a)
    ensures !(LexLess(a, b) && LexLess(b, a))
  {
    if a != [] && b != [] {
      LexTotal(a[1..], b[1..]);
      assert a == [a[0]] + a[1..] && b == [b[0]] + b[1..];
    }
  }

  lemma {:induction false} LexTransitive(a: Text, b: Text, c: Text)
    requires LexLess(a, b) && LexLess(b, c)
    ensures LexLess(a, c)
    decreases |a|
  {
    if a != [] && a[0] == b[0] == c[0] {
      LexTransitive(a[1..], b[1..], c[1..]);
    }
  }

  lemma IndexInjective(a: Text, b: Text)
    requires ArrayIndex(a) && ArrayIndex(b) && Number(Chars(a)) == Number(Chars(b))
    ensures a == b
  {
    assert Chars(a)[0] as int == a[0] && Chars(b)[0] as int == b[0];
    DigitsOfNumber(Chars(a));
    DigitsOfNumber(Chars(b));
    assert |a| == |Chars(a)| == |Chars(b)| == |b|;
    forall i | 0 <= i < |a| ensures a[i] == b[i] {
      assert Chars(a)[i] as int == a[i] && Chars(b)[i] as int == b[i];
    }
  }

  lemma KeyOrder(a: Text, b: Text)
    ensures a == b || KeyLess(a, b) || KeyLess(b, a)
    ensures !(KeyLess(a, b) && KeyLess(b, a)) && !KeyLess(a, a)
  {
    LexTotal(a, b);
    LexIrreflexive(a);
    if ArrayIndex(a) && ArrayIndex(b) && Number(Chars(a)) == Number(Chars(b)) {
      IndexInjective(a, b);
    }
  }

  lemma KeyTransitive(a: Text, b: Text, c: Text)
    requires KeyLess(a, b) && KeyLess(b, c)
    ensures KeyLess(a, c)
  {
    if !ArrayIndex(a) {
      LexTransitive(a, b, c);
    }
  }

  // ---------------------------------------------------------------------------
  // Members
  // ---------------------------------------------------------------------------

  /** `__proto__`: assigning to it sets the prototype and makes no property. */
  const PROTO: Text := [95, 95, 112, 114, 111, 116, 111, 95, 95]

  function Keys(ms: Members): set<Text> {
    if ms.MNil? then {} else {ms.key} + Keys(ms.rest)
  }

  function Lookup(ms: Members, k: Text): (v: Json)
    requires k in Keys(ms)
    ensures v < ms
  {
    if ms.key == k then ms.value else Lookup(ms.rest, k)
  }

  /** JavaScript objects have no two properties of one name. */
  predicate WellFormed(j: Json) {
    match j
    case Arr(items) => WellFormedItems(items)
    case Obj(ms) => WellFormedMembers(ms)
    case _ => true
  }

  predicate WellFormedItems(items: Items) {
    items.INil? || (WellFormed(items.head) && WellFormedItems(items.tail))
  }

  predicate WellFormedMembers(ms: Members) {
    ms.MNil? || (ms.key !in Keys(ms.rest) && WellFormed(ms.value) && WellFormedMembers(ms.rest))
  }

  // ---------------------------------------------------------------------------
  // canonicalJson
  // ---------------------------------------------------------------------------

  function Insert(k: Text, v: Json, ms: Members): Members {
    if ms.MNil? || KeyLess(k, ms.key) then MCons(k, v, ms) else MCons(ms.key, ms.value, Insert(k, v, ms.rest))
  }

  /** What the replacer makes of a value: every object rebuilt with its keys in order. */
  function Canon(j: Json): Json {
    match j
    case Arr(items) => Arr(CanonItems(items))
    case Obj(ms) => Obj(CanonMembers(ms))
    case _ => j
  }

  function CanonItems(items: Items): Items {
    if items.INil? then INil else ICons(Canon(items.head), CanonItems(items.tail))
  }

  function CanonMembers(ms: Members): Members {
    if ms.MNil? then MNil
    else if ms.key == PROTO then CanonMembers(ms.rest)
    else Insert(ms.key, Canon(ms.value), CanonMembers(ms.rest))
  }

  function CanonicalText(j: Json): Text {
    Stringify(Canon(j))
  }

  // ---------------------------------------------------------------------------
  // What a JSON value means: objects are maps
  // ---------------------------------------------------------------------------

  datatype Value =
    | VNull
    | VBool(b: bool)
    | VNum(n: JsNumbers.Num)
    | VStr(s: Text)
    | VArr(vs: seq<Value>)
    | VObj(fields: map<Text, Value>)

  function Meaning(j: Json): Value {
    match j
    case Null => VNull
    case Bool(b) => VBool(b)
    case Num(n) => VNum(n)
    case Str(s) => VStr(s)
    case Arr(items) => VArr(ItemsMeaning(items))
    case Obj(ms) => VObj(MembersMeaning(ms))
  }

  function ItemsMeaning(items: Items): seq<Value> {
    if items.INil? then [] else [Meaning(items.head)] + ItemsMeaning(items.tail)
  }

  /** Members called `__proto__` do not count. */
  function MembersMeaning(ms: Members): map<Text, Value> {
    if ms.MNil? then map[]
    else if ms.key == PROTO then MembersMeaning(ms.rest)
    else MembersMeaning(ms.rest)[ms.key := Meaning(ms.value)]
  }

  lemma {:induction false} MembersMeaningAt(ms: Members, k: Text)
    requires WellFormedMembers(ms)
    ensures k in MembersMeaning(ms) <==> k in Keys(ms) && k != PROTO
    ensures k in MembersMeaning(ms) ==> MembersMeaning(ms)[k] == Meaning(Lookup(ms, k))
    decreases ms
  {
    if ms.MCons? {
      MembersMeaningAt(ms.rest, k);
    }
  }

  lemma {:induction false} LookupWellFormed(ms: Members, k: Text)
    requires WellFormedMembers(ms) && k in Keys(ms)
    ensures WellFormed(Lookup(ms, k))
    decreases ms
  {
    if ms.key != k {
      LookupWellFormed(ms.rest, k);
    }
  }

  // ---------------------------------------------------------------------------
  // Sorted members
  // ---------------------------------------------------------------------------

  predicate Sorted(ms: Members) {
    ms.MNil? || ((forall k :: k in Keys(ms.rest) ==> KeyLess(ms.key, k)) && Sorted(ms.rest))
  }

  lemma {:induction false} InsertSorted(k: Text, v: Json, ms: Members)
    requires Sorted(ms) && k !in Keys(ms)
    ensures Sorted(Insert(k, v, ms)) && Keys(Insert(k, v, ms)) == Keys(ms) + {k}
    ensures forall x :: x in Keys(ms) + {k} ==> Lookup(Insert(k, v, ms), x) == if x == k then v else Lookup(ms, x)
    decreases ms
  {
    if ms.MCons? {
      KeyOrder(k, ms.key);
      if KeyLess(k, ms.key) {
        forall x | x in Keys(ms.rest) ensures KeyLess(k, x) {
          KeyTransitive(k, ms.key, x);
        }
      } else {
        InsertSorted(k, v, ms.rest);
      }
    }
  }

  /** Two sorted member lists that agree as maps are the same list. */
  lemma {:induction false} SortedUnique(a: Members, b: Members)
    requires Sorted(a) && Sorted(b) && Keys(a) == Keys(b)
    requires forall k :: k in Keys(a) ==> Lookup(a, k) == Lookup(b, k)
    ensures a == b
    decreases a
  {
    assert a.MCons? ==> a.key in Keys(a);
    assert b.MCons? ==> b.key in Keys(b);
    if a.MCons? {
      assert b.key in Keys(a);
      KeyOrder(a.key, b.key);
      assert a.key == b.key;
      HeadNotInRest(a);
      HeadNotInRest(b);
      assert Keys(a.rest) == Keys(a) - {a.key} && Keys(b.rest) == Keys(b) - {b.key};
      forall k | k in Keys(a.rest) ensures Lookup(a.rest, k) == Lookup(b.rest, k) {
        assert Lookup(a, k) == Lookup(b, k);
      }
      assert Lookup(a, a.key) == Lookup(b, a.key);
      SortedUnique(a.rest, b.rest);
    }
  }

  lemma HeadNotInRest(ms: Members)
    requires Sorted(ms) && ms.MCons?
    ensures ms.key !in Keys(ms.rest)
  {
    KeyOrder(ms.key, ms.key);
  }

  lemma {:induction false} CanonMembersAt(ms: Members)
    requires WellFormedMembers(ms)
    ensures Sorted(CanonMembers(ms)) && Keys(CanonMembers(ms)) == Keys(ms) - {PROTO}
    ensures forall k :: k in Keys(ms) && k != PROTO ==> Lookup(CanonMembers(ms), k) == Canon(Lookup(ms, k))
    decreases ms
  {
    if ms.MCons? {
      CanonMembersAt(ms.rest);
      if ms.key != PROTO {
        InsertSorted(ms.key, Canon(ms.value), CanonMembers(ms.rest));
      }
    }
  }

  // ---------------------------------------------------------------------------
  // Equal text exactly when equal meaning
  // ---------------------------------------------------------------------------

  lemma {:induction false} CanonKeepsMeaning(j: Json)
    requires WellFormed(j)
    ensures WellFormed(Canon(j)) && Meaning(Canon(j)) == Meaning(j)
    decreases j, 1
  {
    match j
    case Arr(items) => CanonItemsKeepMeaning(items);
    case Obj(ms) =>
      CanonMembersAt(ms);
      var cs := CanonMembers(ms);
      forall k | k in Keys(cs) ensures WellFormed(Lookup(cs, k)) && Meaning(Lookup(cs, k)) == Meaning(Lookup(ms, k)) {
        LookupWellFormed(ms, k);
        CanonKeepsMeaning(Lookup(ms, k));
      }
      SortedWellFormed(cs);
      forall k ensures k in MembersMeaning(cs) <==> k in MembersMeaning(ms) {
        MembersMeaningAt(cs, k);
        MembersMeaningAt(ms, k);
      }
      forall k | k in MembersMeaning(cs) ensures MembersMeaning(cs)[k] == MembersMeaning(ms)[k] {
        MembersMeaningAt(cs, k);
        MembersMeaningAt(ms, k);
      }
      assert MembersMeaning(cs) == MembersMeaning(ms);
    case _ =>
  }

  lemma {:induction false} SortedWellFormed(ms: Members)
    requires Sorted(ms) && forall k :: k in Keys(ms) ==> WellFormed(Lookup(ms, k))
    ensures WellFormedMembers(ms)
    decreases ms
  {
    if ms.MCons? {
      HeadNotInRest(ms);
      assert WellFormed(Lookup(ms, ms.key));
      forall k | k in Keys(ms.rest) ensures WellFormed(Lookup(ms.rest, k)) {
        assert Lookup(ms, k) == Lookup(ms.rest, k);
      }
      SortedWellFormed(ms.rest);
    }
  }

  lemma {:induction false} CanonItemsKeepMeaning(items: Items)
    requires WellFormedItems(items)
    ensures WellFormedItems(CanonItems(items)) && ItemsMeaning(CanonItems(items)) == ItemsMeaning(items)
    decreases items, 0
  {
    if items.ICons? {
      CanonKeepsMeaning(items.head);
      CanonItemsKeepMeaning(items.tail);
    }
  }

  lemma {:induction false} SameMeaningSameCanon(a: Json, b: Json)
    requires WellFormed(a) && WellFormed(b) && Meaning(a) == Meaning(b)
    ensures Canon(a) == Canon(b)
    decreases a, 1
  {
    match a
    case Arr(items) => SameMeaningSameItems(items, b.items);
    case Obj(ms) =>
      var ns := b.members;
      CanonMembersAt(ms);
      CanonMembersAt(ns);
      forall k ensures k in Keys(CanonMembers(ms)) <==> k in Keys(CanonMembers(ns)) {
        MembersMeaningAt(ms, k);
        MembersMeaningAt(ns, k);
      }
      forall k | k in Keys(CanonMembers(ms)) ensures Lookup(CanonMembers(ms), k) == Lookup(CanonMembers(ns), k) {
        MembersMeaningAt(ms, k);
        MembersMeaningAt(ns, k);
        LookupWellFormed(ms, k);
        LookupWellFormed(ns, k);
        SameMeaningSameCanon(Lookup(ms, k), Lookup(ns, k));
      }
      assert Keys(CanonMembers(ms)) == Keys(CanonMembers(ns));
      SortedUnique(CanonMembers(ms), CanonMembers(ns));
    case _ =>
  }

  lemma {:induction false} SameMeaningSameItems(a: Items, b: Items)
    requires WellFormedItems(a) && WellFormedItems(b) && ItemsMeaning(a) == ItemsMeaning(b)
    ensures CanonItems(a) == CanonItems(b)
    decreases a, 0
  {
    if a.ICons? {
      assert b.ICons?;
      assert ItemsMeaning(a)[0] == Meaning(a.head) && ItemsMeaning(b)[0] == Meaning(b.head);
      assert ItemsMeaning(a)[1..] == ItemsMeaning(a.tail) && ItemsMeaning(b)[1..] == ItemsMeaning(b.tail);
      SameMeaningSameCanon(a.head, b.head);
      SameMeaningSameItems(a.tail, b.tail);
    }
  }

  /** The canonical text is JSON, and denotes the rebuilt value. A strict reader accepts it too, so that it has no
      insignificant white space and no needless escape; and it has no lone surrogate. */
  lemma CanonicalTextIsJson(j: Json, strict: bool)
    ensures JsonReader.Read(CanonicalText(j), strict) == Some(Canon(j)) && JsonReader.Unicode(CanonicalText(j))
    ensures WellFormed(j) ==> WellFormed(Canon(j)) && Meaning(Canon(j)) == Meaning(j)
  {
    JsonReader.PrintedTextsAreRead(Canon(j), strict);
    JsonReader.PrintedTextsAreUnicode(Canon(j));
    if WellFormed(j) {
      CanonKeepsMeaning(j);
    }
  }

  /** Two values have the same canonical text exactly when they are equal up to member order at
      every depth, `__proto__` members aside. */
  lemma CanonicalTextIdentifiesValues(a: Json, b: Json)
    requires WellFormed(a) && WellFormed(b)
    ensures CanonicalText(a) == CanonicalText(b) <==> Meaning(a) == Meaning(b)
  {
    if Meaning(a) == Meaning(b) {
      SameMeaningSameCanon(a, b);
    }
    if CanonicalText(a) == CanonicalText(b) {
      JsonReader.StringifyInjective(Canon(a), Canon(b));
      CanonKeepsMeaning(a);
      CanonKeepsMeaning(b);
    }
  }

  /** A member called `__proto__` is lost: the text is that of the object without it. */
  lemma ProtoMemberIsLost(v: Json, ms: Members)
    requires WellFormedMembers(MCons([0x5F, 0x5F, 0x70, 0x72, 0x6F, 0x74, 0x6F, 0x5F, 0x5F], v, ms))
    ensures var proto: Text := [0x5F, 0x5F, 0x70, 0x72, 0x6F, 0x74, 0x6F, 0x5F, 0x5F];
            CanonicalText(Obj(MCons(proto, v, ms))) == CanonicalText(Obj(ms)) && MCons(proto, v, ms) != ms
  {
    CanonicalTextIdentifiesValues(Obj(MCons(PROTO, v, ms)), Obj(ms));
  }

  /** It is the only one: every other member is in the rebuilt object, with its value rebuilt. */
  lemma OtherMembersStay(ms: Members, k: Text)
    requires WellFormedMembers(ms) && k in Keys(ms) && k != [0x5F, 0x5F, 0x70, 0x72, 0x6F, 0x74, 0x6F, 0x5F, 0x5F]
    ensures k in Keys(CanonMembers(ms)) && Lookup(CanonMembers(ms), k) == Canon(Lookup(ms, k))
  {
    CanonMembersAt(ms);
  }

  /** Every object of the canonical value lists its keys in order, and among keys that are not array
      indices that is the order of code units. */
  lemma CanonicalKeysAscend(ms: Members)
    requires WellFormedMembers(ms)
    ensures Sorted(CanonMembers(ms))
    ensures forall a, b :: !ArrayIndex(a) && !ArrayIndex(b) ==> (KeyLess(a, b) <==> LexLess(a, b))
  {
    CanonMembersAt(ms);
  }

  /** The key is the numeral of an integer below the greatest array length. */
  predicate Index(k: Text, n: nat) {
    n < 4294967295 && k == JsonReader.Codes(Digits(n))
  }

  lemma IndexExactly(k: Text, n: nat)
    ensures Index(k, n) <==> ArrayIndex(k) && Number(Chars(k)) == n
  {
    if Index(k, n) {
      assert forall i :: 0 <= i < |k| ==> IsDigit(Digits(n)[i]) && k[i] == Digits(n)[i] as int;
      assert Chars(k) == Digits(n);
      NumberOfDigits(n);
    }
    if ArrayIndex(k) && Number(Chars(k)) == n {
      assert Chars(k)[0] as int == k[0];
      DigitsOfNumber(Chars(k));
      assert forall i :: 0 <= i < |k| ==> Chars(k)[i] as int == k[i];
    }
  }

  /** The property order: array indices by their number, then all other keys by code unit. */
  lemma PropertyOrder(a: Text, b: Text)
    ensures forall m: nat, n: nat :: Index(a, m) && Index(b, n) ==> (KeyLess(a, b) <==> m < n)
    ensures forall m: nat :: Index(a, m) && (forall n: nat :: !Index(b, n)) ==> KeyLess(a, b)
    ensures (forall n: nat :: !Index(a, n) && !Index(b, n)) ==> (KeyLess(a, b) <==> LexLess(a, b))
  {
    hide LexLess;
    forall k, n: nat ensures Index(k, n) <==> ArrayIndex(k) && Number(Chars(k)) == n {
      IndexExactly(k, n);
    }
    if ArrayIndex(a) {
      assert Index(a, Number(Chars(a)));
    }
    if ArrayIndex(b) {
      assert Index(b, Number(Chars(b)));
    }
  }

  // ---------------------------------------------------------------------------
  // Code units and code points
  // ---------------------------------------------------------------------------

  function CodePoints(t: Text): seq<int>
    requires JsonReader.Unicode(t)
  {
    if t == [] then []
    else if IsLead(t[0]) then [0x1_0000 + 0x400 * (t[0] - 0xD800) + (t[1] - 0xDC00)] + CodePoints(t[2..])
    else [t[0]] + CodePoints(t[1..])
  }

  predicate PointLess(a: seq<int>, b: seq<int>) {
    if a == [] || b == [] then a == [] && b != []
    else a[0] < b[0] || (a[0] == b[0] && PointLess(a[1..], b[1..]))
  }

  /** Where the texts first differ, one begins a pair and the other has a unit above the surrogates. */
  predicate PairMeetsHighUnit(a: Text, b: Text) {
    if a == [] || b == [] then false
    else if a[0] == b[0] then PairMeetsHighUnit(a[1..], b[1..])
    else (IsLead(a[0]) && b[0] >= 0xE000) || (IsLead(b[0]) && a[0] >= 0xE000)
  }

  /** The order of code units, which the code sorts by, is that of code points, which canonical JSON asks for, if and
      only if the keys do not first differ in a pair and a unit above the surrogates. */
  lemma {:induction false} OrdersAgreeExactly(a: Text, b: Text)
    requires JsonReader.Unicode(a) && JsonReader.Unicode(b)
    ensures (LexLess(a, b) <==> PointLess(CodePoints(a), CodePoints(b))) <==> !PairMeetsHighUnit(a, b)
    decreases |a|
  {
    if a != [] && b != [] {
      var p, q := CodePoints(a), CodePoints(b);
      if a[0] == b[0] && !IsLead(a[0]) {
        assert p[1..] == CodePoints(a[1..]) && q[1..] == CodePoints(b[1..]);
        OrdersAgreeExactly(a[1..], b[1..]);
      } else if a[0] == b[0] {
        assert a[1..][0] == a[1] && b[1..][0] == b[1];
        assert a[1..][1..] == a[2..] && b[1..][1..] == b[2..];
        assert p[1..] == CodePoints(a[2..]) && q[1..] == CodePoints(b[2..]);
        OrdersAgreeExactly(a[2..], b[2..]);
      }
    }
  }

  /** Two inputs on which the orders differ: a key above the surrogates against one with a pair, and two keys that
      are array indices. */
  lemma OrdersDiffer()
    ensures var high, pair: Text := [0xE000], [0xD800, 0xDC00];
            && JsonReader.Unicode(high) && JsonReader.Unicode(pair)
            && KeyLess(pair, high) && PointLess(CodePoints(high), CodePoints(pair))
    ensures var nine, ten: Text := [57], [49, 48];
            && JsonReader.Unicode(nine) && JsonReader.Unicode(ten)
            && KeyLess(nine, ten) && PointLess(CodePoints(ten), CodePoints(nine))
  {
    var pair: Text := [0xD800, 0xDC00];
    assert pair[2..] == [];
    var nine, ten: Text := [57], [49, 48];
    assert Chars(nine) == "9" && Chars(ten) == "10";
    assert Number("9") == 9 && Number("10") == 10 by {
      assert "9"[..0] == "" && "10"[..1] == "1" && "1"[..0] == "";
    }
    assert ten[1..] == [48] && ten[1..][1..] == [];
  }
}
