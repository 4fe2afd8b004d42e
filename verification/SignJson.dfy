/** Signatures over the canonical text of an object. */
module SignJson {
  import opened Options
  import opened JsonText
  import opened CanonicalJson

  /** Signatures of one object, by signing name and then key id. */
  type Signatures = map<Text, map<Text, Text>>

  /** The object handed to signJson: `body` holds every property but `signatures` and `unsigned`. */
  datatype Doc = Doc(body: Members, signatures: Option<Signatures>, unsigned: Option<Json>)

  /** One signing request: the decoded key, the signing name and the key id. */
  datatype Signer = Signer(secret: string, name: Text, keyId: Text)

  /** The signature scheme, message first; None is a key that it refuses by throwing. */
  type Scheme = (Text, string) -> Option<Text>

  /** JavaScript's truth of a JSON value. */
  predicate Truthy(j: Json) {
    match j
    case Null => false
    case Bool(b) => b
    case Num(n) => n.Finite?
    case Str(s) => s != []
    case _ => true
  }

  function Content(d: Doc): Text {
    CanonicalText(Obj(d.body))
  }

  function Held(d: Doc): Signatures {
    if d.signatures.Some? then d.signatures.value else map[]
  }

  function Under(sigs: Signatures, name: Text): map<Text, Text> {
    if name in sigs then sigs[name] else map[]
  }

  /** `{ ...signatures[name], [keyId]: signature }` stored back under the name. */
  function With(sigs: Signatures, name: Text, keyId: Text, signature: Text): Signatures {
    sigs[name := Under(sigs, name)[keyId := signature]]
  }

  function KeptUnsigned(u: Option<Json>): Option<Json> {
    if u.Some? && Truthy(u.value) then u else None
  }

  /** The object after one signJson; when the key is refused both deleted properties stay deleted. */
  function After(d: Doc, k: Signer, sign: Scheme): Doc {
    match sign(Content(d), k.secret)
    case None => Doc(d.body, None, None)
    case Some(signature) => Doc(d.body, Some(With(Held(d), k.name, k.keyId, signature)), KeptUnsigned(d.unsigned))
  }

  predicate Accepted(d: Doc, k: Signer, sign: Scheme) {
    sign(Content(d), k.secret).Some?
  }

  /** The object's properties, updated in place. */
  class JsonObject {
    var body: Members
    var signatures: Option<Signatures>
    var unsigned: Option<Json>

    constructor (d: Doc)
      ensures Value() == d
    {
      body, signatures, unsigned := d.body, d.signatures, d.unsigned;
    }

    function Value(): Doc
      reads this
    {
      Doc(body, signatures, unsigned)
    }

    /** signJson; false is an exception out of the signature scheme. */
    method Sign(k: Signer, sign: Scheme) returns (ok: bool)
      modifies this
      ensures Value() == After(old(Value()), k, sign) && ok == Accepted(old(Value()), k, sign)
    {
      var sigs := if signatures.Some? then signatures.value else map[];
      var saved := unsigned;
      signatures := None;
      unsigned := None;
      var signed := sign(CanonicalText(Obj(body)), k.secret);
      if signed.None? {
        return false;
      }
      var mine := if k.name in sigs then sigs[k.name] else map[];
      signatures := Some(sigs[k.name := mine[k.keyId := signed.value]]);
      if saved.Some? && Truthy(saved.value) {
        unsigned := saved;
      }
      return true;
    }
  }

  // ---------------------------------------------------------------------------
  // What is signed
  // ---------------------------------------------------------------------------

  function SignatureAt(d: Doc, name: Text, keyId: Text): Option<Text> {
    if name in Held(d) && keyId in Held(d)[name] then Some(Held(d)[name][keyId]) else None
  }

  predicate InjectiveFor(sign: Scheme, secret: string, m: Text, n: Text) {
    sign(m, secret) == sign(n, secret) ==> m == n
  }

  /** The new signature is over the content alone: two objects get the same one exactly when they
      agree, member order aside, in everything but `signatures` and `unsigned`. */
  lemma SignatureIsForContent(d: Doc, e: Doc, k: Signer, sign: Scheme)
    requires WellFormed(Obj(d.body)) && WellFormed(Obj(e.body))
    requires Accepted(d, k, sign) && Accepted(e, k, sign)
    requires InjectiveFor(sign, k.secret, Content(d), Content(e))
    ensures SignatureAt(After(d, k, sign), k.name, k.keyId) == SignatureAt(After(e, k, sign), k.name, k.keyId)
       <==> Meaning(Obj(d.body)) == Meaning(Obj(e.body))
  {
    CanonicalTextIdentifiesValues(Obj(d.body), Obj(e.body));
  }

  /** Every other signature stays, and the new one verifies against the object that carries it. */
  lemma EarlierSignaturesSurvive(d: Doc, k: Signer, sign: Scheme, name: Text, keyId: Text)
    requires Accepted(d, k, sign)
    ensures SignatureAt(After(d, k, sign), name, keyId)
         == if name == k.name && keyId == k.keyId then sign(Content(After(d, k, sign)), k.secret)
            else SignatureAt(d, name, keyId)
  {
  }

  // ---------------------------------------------------------------------------
  // Runs of signings
  // ---------------------------------------------------------------------------

  function AfterAll(d: Doc, ks: seq<Signer>, sign: Scheme): Doc
    decreases |ks|
  {
    if ks == [] then d else AfterAll(After(d, ks[0], sign), ks[1..], sign)
  }

  predicate Distinct(ks: seq<Signer>) {
    forall i, j :: 0 <= i < j < |ks| ==> ks[i].name != ks[j].name || ks[i].keyId != ks[j].keyId
  }

  /** Two signings commute exactly when both keys are refused, or both are accepted and the slots
      differ or receive the same signature. */
  lemma SigningCommutes(d: Doc, a: Signer, b: Signer, sign: Scheme)
    ensures After(After(d, a, sign), b, sign) == After(After(d, b, sign), a, sign)
       <==> (Accepted(d, a, sign) == Accepted(d, b, sign)
             && (Accepted(d, a, sign) ==>
                   a.name != b.name || a.keyId != b.keyId || sign(Content(d), a.secret) == sign(Content(d), b.secret)))
  {
    if Accepted(d, a, sign) && Accepted(d, b, sign) {
      var sa, sb := sign(Content(d), a.secret).value, sign(Content(d), b.secret).value;
      WithCommutes(Held(d), a.name, a.keyId, sa, b.name, b.keyId, sb);
    }
  }

  lemma WithTwice(sigs: Signatures, n: Text, k: Text, s: Text, k': Text, s': Text)
    ensures With(With(sigs, n, k, s), n, k', s') == sigs[n := Under(sigs, n)[k := s][k' := s']]
  {
    var once := With(sigs, n, k, s);
    assert once[n] == Under(sigs, n)[k := s];
  }

  lemma UpdatesCommute<K, V>(m: map<K, V>, k: K, v: V, k': K, v': V)
    ensures m[k := v][k' := v'] == m[k' := v'][k := v] <==> k != k' || v == v'
  {
    assert m[k := v][k' := v'][k] == if k == k' then v' else v;
    assert m[k' := v'][k := v][k] == v;
  }

  lemma WithCommutes(sigs: Signatures, n: Text, k: Text, s: Text, n': Text, k': Text, s': Text)
    ensures With(With(sigs, n, k, s), n', k', s') == With(With(sigs, n', k', s'), n, k, s)
       <==> n != n' || k != k' || s == s'
  {
    if n == n' {
      var mine := Under(sigs, n);
      WithTwice(sigs, n, k, s, k', s');
      WithTwice(sigs, n, k', s', k, s);
      UpdatesCommute(mine, k, s, k', s');
      assert sigs[n := mine[k := s][k' := s']][n] == mine[k := s][k' := s'];
      assert sigs[n := mine[k' := s'][k := s]][n] == mine[k' := s'][k := s];
    } else {
      UpdatesCommute(sigs, n, Under(sigs, n)[k := s], n', Under(sigs, n')[k' := s']);
    }
  }

  /** A run of accepted signings leaves under each slot the last signature asked for there, over the
      unchanged content, and otherwise what was there before. */
  lemma {:induction false} RunOfSignings(d: Doc, ks: seq<Signer>, sign: Scheme, name: Text, keyId: Text)
    requires forall i :: 0 <= i < |ks| ==> Accepted(d, ks[i], sign)
    ensures var e := AfterAll(d, ks, sign);
      && e.body == d.body
      && e.unsigned == (if ks == [] then d.unsigned else KeptUnsigned(d.unsigned))
      && SignatureAt(e, name, keyId) == Last(ks, name, keyId, sign, Content(d), SignatureAt(d, name, keyId))
    decreases |ks|
  {
    if ks != [] {
      var d' := After(d, ks[0], sign);
      assert Accepted(d, ks[0], sign);
      assert forall i :: 0 <= i < |ks[1..]| ==> ks[1..][i] == ks[i + 1] && Accepted(d, ks[i + 1], sign);
      RunOfSignings(d', ks[1..], sign, name, keyId);
    }
  }

  /** The signature the last request for a slot gets. */
  function Last(ks: seq<Signer>, name: Text, keyId: Text, sign: Scheme, content: Text,
      before: Option<Text>): Option<Text>
  {
    if ks == [] then before
    else
      Last(ks[1..], name, keyId, sign, content,
        if ks[0].name == name && ks[0].keyId == keyId then sign(content, ks[0].secret) else before)
  }

  /** Names carry a signature map afterwards exactly when they did before or were signed with. */
  lemma {:induction false} NamesSigned(d: Doc, ks: seq<Signer>, sign: Scheme)
    requires forall i :: 0 <= i < |ks| ==> Accepted(d, ks[i], sign)
    ensures Held(AfterAll(d, ks, sign)).Keys == Held(d).Keys + set k | k in ks :: k.name
    ensures ks != [] ==> AfterAll(d, ks, sign).signatures.Some?
    decreases |ks|
  {
    if ks != [] {
      var d' := After(d, ks[0], sign);
      assert Accepted(d, ks[0], sign);
      assert forall i :: 0 <= i < |ks[1..]| ==> ks[1..][i] == ks[i + 1] && Accepted(d, ks[i + 1], sign);
      NamesSigned(d', ks[1..], sign);
      assert ks == [ks[0]] + ks[1..];
      if ks[1..] == [] {
        assert AfterAll(d, ks, sign) == d';
      }
    }
  }

  lemma {:induction false} LastOfDistinct(ks: seq<Signer>, k: Signer, sign: Scheme, content: Text, before: Option<Text>)
    requires Distinct(ks)
    ensures k in ks ==> Last(ks, k.name, k.keyId, sign, content, before) == sign(content, k.secret)
    ensures (forall i :: 0 <= i < |ks| ==> ks[i].name != k.name || ks[i].keyId != k.keyId) ==>
      Last(ks, k.name, k.keyId, sign, content, before) == before
    decreases |ks|
  {
    if ks != [] {
      var next := if ks[0].name == k.name && ks[0].keyId == k.keyId then sign(content, ks[0].secret) else before;
      assert forall i :: 0 <= i < |ks[1..]| ==> ks[1..][i] == ks[i + 1];
      LastOfDistinct(ks[1..], k, sign, content, next);
      assert ks == [ks[0]] + ks[1..];
    }
  }

  /** Whatever the order, accepted signings of distinct slots end in the same object. */
  lemma {:induction false} OrderOfSigningsIsIrrelevant(d: Doc, ks: seq<Signer>, ls: seq<Signer>, sign: Scheme)
    requires multiset(ks) == multiset(ls) && Distinct(ks) && Distinct(ls)
    requires forall i :: 0 <= i < |ks| ==> Accepted(d, ks[i], sign)
    ensures AfterAll(d, ks, sign) == AfterAll(d, ls, sign)
  {
    assert forall k :: k in ks <==> k in multiset(ks);
    assert forall k :: k in ls <==> k in multiset(ls);
    assert forall i :: 0 <= i < |ls| ==> ls[i] in ls && ls[i] in ks;
    assert |ks| == |multiset(ks)| == |ls|;
    if ks != [] {
      NamesSigned(d, ks, sign);
      NamesSigned(d, ls, sign);
      RunOfSignings(d, ks, sign, [], []);
      RunOfSignings(d, ls, sign, [], []);
      var a, b := AfterAll(d, ks, sign), AfterAll(d, ls, sign);
      forall name, keyId ensures SignatureAt(a, name, keyId) == SignatureAt(b, name, keyId) {
        SameSlot(d, ks, ls, sign, name, keyId);
      }
      SameSignatures(a, b);
    }
  }

  lemma SameSlot(d: Doc, ks: seq<Signer>, ls: seq<Signer>, sign: Scheme, name: Text, keyId: Text)
    requires (forall k :: k in ks <==> k in ls) && Distinct(ks) && Distinct(ls)
    requires forall i :: 0 <= i < |ks| ==> Accepted(d, ks[i], sign)
    requires forall i :: 0 <= i < |ls| ==> Accepted(d, ls[i], sign)
    ensures SignatureAt(AfterAll(d, ks, sign), name, keyId) == SignatureAt(AfterAll(d, ls, sign), name, keyId)
  {
    RunOfSignings(d, ks, sign, name, keyId);
    RunOfSignings(d, ls, sign, name, keyId);
    var before := SignatureAt(d, name, keyId);
    if k :| k in ks && k.name == name && k.keyId == keyId {
      LastOfDistinct(ks, k, sign, Content(d), before);
      LastOfDistinct(ls, k, sign, Content(d), before);
    } else {
      assert forall i :: 0 <= i < |ks| ==> ks[i] in ks;
      assert forall i :: 0 <= i < |ls| ==> ls[i] in ls;
      LastOfDistinct(ks, Signer("", name, keyId), sign, Content(d), before);
      LastOfDistinct(ls, Signer("", name, keyId), sign, Content(d), before);
    }
  }

  lemma SameSignatures(a: Doc, b: Doc)
    requires a.signatures.Some? && b.signatures.Some? && Held(a).Keys == Held(b).Keys
    requires forall name, keyId :: SignatureAt(a, name, keyId) == SignatureAt(b, name, keyId)
    ensures a.signatures == b.signatures
  {
    forall name | name in Held(a) ensures Held(a)[name] == Held(b)[name] {
      forall keyId
        ensures keyId in Held(a)[name] <==> keyId in Held(b)[name]
        ensures keyId in Held(a)[name] ==> Held(a)[name][keyId] == Held(b)[name][keyId]
      {
        assert SignatureAt(a, name, keyId) == SignatureAt(b, name, keyId);
      }
      assert Held(a)[name] == Held(b)[name];
    }
    assert Held(a) == Held(b);
  }

  /** A refused key costs the object its earlier signatures and its unsigned part; an accepted one
      keeps `unsigned` exactly when it is absent or truthy. */
  lemma WhatSigningLoses(d: Doc, k: Signer, sign: Scheme)
    ensures After(d, k, sign).unsigned == d.unsigned
       <==> d.unsigned.None? || (Accepted(d, k, sign) && d.unsigned.value != Null && d.unsigned.value != Bool(false) &&
                                 d.unsigned.value != Num(JsNumbers.Zero) && d.unsigned.value != Str([]))
    ensures (forall name, keyId :: SignatureAt(d, name, keyId).Some? ==>
        SignatureAt(After(d, k, sign), name, keyId).Some?)
       <==> Accepted(d, k, sign) || forall name, keyId :: SignatureAt(d, name, keyId).None?
  {
    if !Accepted(d, k, sign) {
      assert forall name, keyId :: SignatureAt(After(d, k, sign), name, keyId).None?;
    } else {
      forall name, keyId | SignatureAt(d, name, keyId).Some? ensures SignatureAt(After(d, k, sign), name, keyId).Some? {
        EarlierSignaturesSurvive(d, k, sign, name, keyId);
      }
    }
  }
}
