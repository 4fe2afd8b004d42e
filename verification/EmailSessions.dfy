/** Email validation sessions, one database statement a step. */
module EmailSessions {
  import opened ListFilters
  import opened Options
  import PepperRotation
  import UpdateHash

  /** The data stored in a token that requestToken creates. */
  datatype Session = Session(sid: string, secret: string, email: string)

  /** Other parts of the server store other data in the same table (`session` is then None). */
  datatype Token = Token(expires: int, session: Option<Session>)

  /** A row of `mappings`; its client secret is the primary key. */
  datatype Mapping = Mapping(sid: string, valid: int, address: string, submitTime: int, attempt: int)

  /** A hash row added by bind, with the parts of the text its hash was computed from. */
  datatype Bound = Bound(address: string, kind: string, pepper: string, mxid: string)

  /** The word that bind writes between address and pepper. */
  const MAIL := "mail"

  /** An element of a submitted list: null, or anything else by the text it prints as. */
  datatype Element = Null | Shown(text: string)

  /** The token of a submission: a text, or a list, since only its `length` is looked at. */
  datatype Submitted = Text(text: string) | List(elements: seq<Element>)

  /** What the elements print as within their list. */
  function Texts(x: Submitted): seq<string> {
    match x
    case Text(s) => [s]
    case List(es) => seq(|es|, i requires 0 <= i < |es| => if es[i].Null? then "" else es[i].text)
  }

  /** A null in a list that is filtered by has no `toString`. */
  predicate Throws(x: Submitted) {
    x.List? && Null in x.elements && !Unfiltered(Texts(x))
  }

  /** A request between two of its database statements. */
  datatype Task =
    | Searching(secret: string, email: string, attempt: int)
    | Replacing(secret: string, oldSid: string, email: string, attempt: int)
    | Issuing(token: string, session: Session, expires: int, attempt: int)
    | Opening(session: Session, attempt: int)
    | Verifying(submitted: Submitted, sid: string, secret: string)
    | Consuming(submitted: Submitted, session: Session)
    | Marking(session: Session)
    | Binding(secret: string, sid: string, mxid: string)
    | Hashing(address: string, mxid: string)

  /** History: what was issued under a session id, and what was accepted. */
  datatype Issue = Issue(token: string, secret: string, email: string, expires: int)

  datatype Accept = Accept(session: Session, token: string, submitted: Submitted, at: int)

  datatype State = State(
    tokens: map<string, Token>, mappings: map<string, Mapping>, hashes: set<Bound>, tasks: seq<Task>,
    usedTokens: set<string>, issued: map<string, Issue>, accepted: set<Accept>)

  /** What a step reads from outside the tables: the clock, two fresh random texts, the pepper, the row that a
      query with several rows happens to return first, and the text a driver makes of a list that it deletes by. */
  datatype World = World(
    now: int, sid: string, token: string, pepper: string, first: string, bound: string, delay: Option<int>)

  datatype Event =
    | RequestToken(secret: string, email: string, attempt: int)
    | SubmitToken(token: Submitted, sid: string, secret: string)
    | Bind(secret: string, sid: string, mxid: string)
    | Step(i: nat, w: World)
    | DeleteToken(id: string)
    | StoreToken(id: string, expires: int)

  function Init(): State {
    State(map[], map[], {}, [], {""}, map[], {})
  }

  function EndTask(ts: seq<Task>, i: nat): seq<Task>
    requires i < |ts|
  {
    ts[..i] + ts[i + 1..]
  }

  /** createOneTimeToken: ten minutes unless the configuration gives a positive delay. */
  function Expiry(w: World): int {
    w.now + 1000 * (if w.delay.Some? && w.delay.value > 0 then w.delay.value else 600)
  }

  /** The random texts of a step are new. */
  predicate Fresh(s: State, w: World) {
    w.sid !in s.issued && w.token !in s.usedTokens
  }

  /** fillTable: draw a session id and a token; the insert of the token comes next. */
  function BeginFill(s: State, i: nat, w: World, secret: string, email: string, attempt: int): (t: State)
    requires i < |s.tasks|
    ensures t.tokens == s.tokens && t.mappings == s.mappings && t.hashes == s.hashes && t.accepted == s.accepted
    ensures Extends(s, t)
  {
    if !Fresh(s, w) then s else
    s.(tasks := s.tasks[i := Issuing(w.token, Session(w.sid, secret, email), Expiry(w), attempt)],
       usedTokens := s.usedTokens + {w.token},
       issued := s.issued[w.sid := Issue(w.token, secret, email, Expiry(w))])
  }

  function FirstOf(tokens: map<string, Token>, ids: seq<string>): (r: Option<string>)
    ensures r.Some? ==> r.value in ids && r.value in tokens
    ensures r.None? ==> forall id :: id in ids ==> id !in tokens
  {
    if ids == [] then None
    else if ids[0] in tokens then Some(ids[0])
    else FirstOf(tokens, ids[1..])
  }

  /** The row `get('oneTimeTokens', ..., { id })` returns first: one of those named, in any order, or any row when
      the submission prints as nothing. */
  function TokenRow(tokens: map<string, Token>, x: Submitted, first: string): (r: Option<string>)
    ensures r.Some? ==> r.value in tokens && Queried(r.value, Texts(x))
  {
    if Throws(x) then None
    else if first in tokens && Queried(first, Texts(x)) then Some(first)
    else if Unfiltered(Texts(x)) then None
    else FirstOf(tokens, Texts(x))
  }

  /** The id that `deleteToken` deletes. */
  function Deleted(x: Submitted, w: World): string {
    if x.Text? then x.text else w.bound
  }

  /** The row with this session id and client secret. */
  predicate HasSession(s: State, secret: string, sid: string) {
    secret in s.mappings && s.mappings[secret].sid == sid
  }

  function Advance(s: State, i: nat, w: World): State
    requires i < |s.tasks|
  {
    var done := s.(tasks := EndTask(s.tasks, i));
    match s.tasks[i]
    case Searching(secret, email, attempt) =>
      if secret in s.mappings && s.mappings[secret].address == email then
        if attempt == s.mappings[secret].attempt then done
        else s.(tasks := s.tasks[i := Replacing(secret, s.mappings[secret].sid, email, attempt)])
      else BeginFill(s, i, w, secret, email, attempt)
    case Replacing(secret, oldSid, email, attempt) =>
      BeginFill(if HasSession(s, secret, oldSid) then s.(mappings := s.mappings - {secret}) else s,
                i, w, secret, email, attempt)
    case Issuing(token, session, expires, attempt) =>
      if token in s.tokens then done
      else s.(tokens := s.tokens[token := Token(expires, Some(session))],
              tasks := s.tasks[i := Opening(session, attempt)])
    case Opening(session, attempt) =>
      if session.secret in s.mappings then done
      else done.(mappings := s.mappings[session.secret := Mapping(session.sid, 0, session.email, 0, attempt)])
    case Verifying(token, sid, secret) =>
      var row := TokenRow(s.tokens, token, w.first);
      if row.None? || s.tokens[row.value].expires < w.now || s.tokens[row.value].session.None? then done else
      var session := s.tokens[row.value].session.value;
      if session.sid != sid || session.secret != secret then done
      else s.(tasks := s.tasks[i := Consuming(token, session)],
              accepted := s.accepted + {Accept(session, row.value, token, w.now)})
    case Consuming(token, session) =>
      s.(tokens := s.tokens - {Deleted(token, w)}, tasks := s.tasks[i := Marking(session)])
    case Marking(session) =>
      if HasSession(s, session.secret, session.sid) then
        done.(mappings := s.mappings[session.secret := s.mappings[session.secret].(valid := 1, submitTime := w.now)])
      else done
    case Binding(secret, sid, mxid) =>
      if !HasSession(s, secret, sid) || s.mappings[secret].valid == 0 then done
      else s.(tasks := s.tasks[i := Hashing(s.mappings[secret].address, mxid)])
    case Hashing(address, mxid) =>
      done.(hashes := s.hashes + {Bound(address, MAIL, w.pepper, mxid)})
  }

  function Next(s: State, e: Event): State {
    match e
    case RequestToken(secret, email, attempt) => s.(tasks := s.tasks + [Searching(secret, email, attempt)])
    case SubmitToken(token, sid, secret) => s.(tasks := s.tasks + [Verifying(token, sid, secret)])
    case Bind(secret, sid, mxid) => s.(tasks := s.tasks + [Binding(secret, sid, mxid)])
    case Step(i, w) => if i < |s.tasks| then Advance(s, i, w) else s
    case DeleteToken(id) => s.(tokens := s.tokens - {id})
    case StoreToken(id, expires) =>
      if id in s.usedTokens then s
      else s.(tokens := s.tokens[id := Token(expires, None)], usedTokens := s.usedTokens + {id})
  }

  function Run(s: State, es: seq<Event>): State
    decreases |es|
  {
    if es == [] then s else Run(Next(s, es[0]), es[1..])
  }

  // ---------------------------------------------------------------------------
  // Whole-run safety
  // ---------------------------------------------------------------------------

  predicate IssuedAs(s: State, x: Session) {
    x.sid in s.issued && s.issued[x.sid].secret == x.secret && s.issued[x.sid].email == x.email
  }

  /** A token of this session, secret and address was read while it was in time. */
  predicate Accepted(s: State, x: Session) {
    exists a :: a in s.accepted && a.session == x
  }

  predicate ValidatedAddress(s: State, address: string) {
    exists a :: a in s.accepted && a.session.email == address
  }

  predicate TaskSound(s: State, t: Task) {
    match t
    case Issuing(token, session, expires, _) =>
      IssuedAs(s, session) && s.issued[session.sid].token == token && s.issued[session.sid].expires == expires
    case Opening(session, _) => IssuedAs(s, session)
    case Consuming(_, session) => Accepted(s, session)
    case Marking(session) => Accepted(s, session)
    case Hashing(address, _) => ValidatedAddress(s, address)
    case _ => true
  }

  predicate TokenSound(s: State, id: string)
    requires id in s.tokens
  {
    var t := s.tokens[id];
    t.session.Some? ==>
      IssuedAs(s, t.session.value) && s.issued[t.session.value.sid].token == id &&
      s.issued[t.session.value.sid].expires == t.expires
  }

  predicate MappingSound(s: State, secret: string)
    requires secret in s.mappings
  {
    var m := s.mappings[secret];
    IssuedAs(s, Session(m.sid, secret, m.address)) && m.valid in {0, 1} &&
    (m.valid == 1 ==> Accepted(s, Session(m.sid, secret, m.address)))
  }

  predicate AcceptSound(s: State, a: Accept) {
    && IssuedAs(s, a.session)
    && s.issued[a.session.sid].token == a.token && a.at <= s.issued[a.session.sid].expires
    && (a.token in Texts(a.submitted) <==> !Unfiltered(Texts(a.submitted)))
  }

  predicate Inv(s: State) {
    && "" in s.usedTokens
    && (forall id :: id in s.tokens ==> id in s.usedTokens && TokenSound(s, id))
    && (forall sid :: sid in s.issued ==> s.issued[sid].token in s.usedTokens && s.issued[sid].token != "")
    && (forall secret :: secret in s.mappings ==> MappingSound(s, secret))
    && (forall a :: a in s.accepted ==> AcceptSound(s, a))
    && (forall b :: b in s.hashes ==> b.kind == MAIL && ValidatedAddress(s, b.address))
    && (forall t :: t in s.tasks ==> TaskSound(s, t))
  }

  /** History only grows. */
  predicate Extends(s: State, t: State) {
    && s.accepted <= t.accepted && s.usedTokens <= t.usedTokens
    && forall sid :: sid in s.issued ==> sid in t.issued && t.issued[sid] == s.issued[sid]
  }

  lemma TaskSoundExtends(s: State, t: State, x: Task)
    requires Extends(s, t) && TaskSound(s, x)
    ensures TaskSound(t, x)
  {
  }

  lemma NextExtends(s: State, e: Event)
    ensures Extends(s, Next(s, e))
  {
  }

  /** After a step every suspended request is one that waited before, or the next stage of one. */
  lemma TaskOrigin(s: State, i: nat, w: World, x: Task)
    requires i < |s.tasks| && x in Advance(s, i, w).tasks
    ensures x in s.tasks || (|Advance(s, i, w).tasks| == |s.tasks| && x == Advance(s, i, w).tasks[i])
  {
  }

  lemma AdvanceTasksSound(s: State, i: nat, w: World)
    requires Inv(s) && i < |s.tasks|
    ensures forall x :: x in Advance(s, i, w).tasks ==> TaskSound(Advance(s, i, w), x)
  {
    hide Advance, TaskSound, TokenSound, MappingSound, AcceptSound, EndTask;
    var t := Advance(s, i, w);
    NextExtends(s, Step(i, w));
    assert TaskSound(s, s.tasks[i]) by {
      assert s.tasks[i] in s.tasks;
    }
    forall x | x in t.tasks ensures TaskSound(t, x) {
      TaskOrigin(s, i, w, x);
      if x in s.tasks {
        TaskSoundExtends(s, t, x);
      } else {
        StageSound(s, i, w);
      }
    }
  }

  /** The stage a request moves on to is backed by the history. */
  lemma StageSound(s: State, i: nat, w: World)
    requires Inv(s) && i < |s.tasks| && |Advance(s, i, w).tasks| == |s.tasks|
    ensures TaskSound(Advance(s, i, w), Advance(s, i, w).tasks[i])
  {
    hide Advance, Inv, TaskSound;
    if s.tasks[i].Verifying? {
      VerifiedStage(s, i, w);
    } else if s.tasks[i].Binding? {
      BoundStage(s, i, w);
    } else {
      PlainStage(s, i, w);
    }
  }

  lemma VerifiedStage(s: State, i: nat, w: World)
    requires i < |s.tasks| && s.tasks[i].Verifying? && |Advance(s, i, w).tasks| == |s.tasks|
    ensures TaskSound(Advance(s, i, w), Advance(s, i, w).tasks[i])
  {
    hide TokenRow;
    var t := Advance(s, i, w);
    var row := TokenRow(s.tokens, s.tasks[i].submitted, w.first).value;
    assert Accept(s.tokens[row].session.value, row, s.tasks[i].submitted, w.now) in t.accepted;
  }

  lemma BoundStage(s: State, i: nat, w: World)
    requires Inv(s) && i < |s.tasks| && s.tasks[i].Binding? && |Advance(s, i, w).tasks| == |s.tasks|
    ensures TaskSound(Advance(s, i, w), Advance(s, i, w).tasks[i])
  {
    hide TokenSound, AcceptSound;
    var x := s.tasks[i];
    assert MappingSound(s, x.secret);
    var m := s.mappings[x.secret];
    var a :| a in s.accepted && a.session == Session(m.sid, x.secret, m.address);
    assert a in Advance(s, i, w).accepted && a.session.email == m.address;
  }

  lemma PlainStage(s: State, i: nat, w: World)
    requires Inv(s) && i < |s.tasks| && !s.tasks[i].Verifying? && !s.tasks[i].Binding?
    requires |Advance(s, i, w).tasks| == |s.tasks|
    ensures TaskSound(Advance(s, i, w), Advance(s, i, w).tasks[i])
  {
    hide Advance, AcceptSound, TokenSound, MappingSound, TaskSound;
    assert TaskSound(s, s.tasks[i]) by {
      assert s.tasks[i] in s.tasks;
    }
    if s.tasks[i].Searching? || s.tasks[i].Replacing? {
      FilledStage(s, i, w);
    } else {
      LaterStage(s, i, w);
    }
  }

  lemma FilledStage(s: State, i: nat, w: World)
    requires i < |s.tasks| && (s.tasks[i].Searching? || s.tasks[i].Replacing?)
    requires |Advance(s, i, w).tasks| == |s.tasks|
    ensures TaskSound(Advance(s, i, w), Advance(s, i, w).tasks[i])
  {
    hide HasSession;
  }

  lemma LaterStage(s: State, i: nat, w: World)
    requires i < |s.tasks| && TaskSound(s, s.tasks[i]) && |Advance(s, i, w).tasks| == |s.tasks|
    requires s.tasks[i].Issuing? || s.tasks[i].Consuming? || s.tasks[i].Opening? || s.tasks[i].Marking? ||
             s.tasks[i].Hashing?
    ensures TaskSound(Advance(s, i, w), Advance(s, i, w).tasks[i])
  {
    hide BeginFill, TokenRow;
  }

  lemma AdvanceTokensSound(s: State, i: nat, w: World)
    requires Inv(s) && i < |s.tasks|
    ensures forall id :: id in Advance(s, i, w).tokens ==>
              id in Advance(s, i, w).usedTokens && TokenSound(Advance(s, i, w), id)
  {
    hide MappingSound, AcceptSound, ValidatedAddress, Accepted, EndTask, HasSession, TokenRow;
    var t := Advance(s, i, w);
    NextExtends(s, Step(i, w));
    assert TaskSound(s, s.tasks[i]) by {
      assert s.tasks[i] in s.tasks;
    }
    forall id | id in t.tokens ensures id in t.usedTokens && TokenSound(t, id) {
      assert id in s.tokens ==> t.tokens[id] == s.tokens[id] && TokenSound(s, id);
    }
  }

  lemma AdvanceMappingsSound(s: State, i: nat, w: World)
    requires Inv(s) && i < |s.tasks|
    ensures forall secret :: secret in Advance(s, i, w).mappings ==> MappingSound(Advance(s, i, w), secret)
  {
    hide TokenSound, AcceptSound, ValidatedAddress, EndTask, TokenRow, BeginFill;
    var t := Advance(s, i, w);
    NextExtends(s, Step(i, w));
    assert TaskSound(s, s.tasks[i]) by {
      assert s.tasks[i] in s.tasks;
    }
    forall secret | secret in t.mappings ensures MappingSound(t, secret) {
      var m := t.mappings[secret];
      if secret in s.mappings {
        assert MappingSound(s, secret);
        if m != s.mappings[secret] {
          MarkedRow(s, s.tasks[i].session);
        }
        if Accepted(s, Session(m.sid, secret, m.address)) {
          var a :| a in s.accepted && a.session == Session(m.sid, secret, m.address);
          assert a in t.accepted;
        }
      }
    }
  }

  /** The row that submitting marks has the address the token was issued for. */
  lemma MarkedRow(s: State, x: Session)
    requires Inv(s) && Accepted(s, x) && HasSession(s, x.secret, x.sid)
    ensures Session(s.mappings[x.secret].sid, x.secret, s.mappings[x.secret].address) == x
  {
    var a :| a in s.accepted && a.session == x;
    assert AcceptSound(s, a);
    assert MappingSound(s, x.secret);
  }

  lemma AdvanceAcceptsSound(s: State, i: nat, w: World)
    requires Inv(s) && i < |s.tasks|
    ensures forall a :: a in Advance(s, i, w).accepted ==> AcceptSound(Advance(s, i, w), a)
  {
    hide MappingSound, TaskSound, ValidatedAddress, EndTask, HasSession;
    var t := Advance(s, i, w);
    NextExtends(s, Step(i, w));
    forall a | a in t.accepted ensures AcceptSound(t, a) {
      if a in s.accepted {
        assert AcceptSound(s, a);
      } else {
        assert TokenSound(s, a.token);
      }
    }
  }

  lemma StepKeepsInv(s: State, e: Event)
    requires Inv(s)
    ensures Inv(Next(s, e))
  {
    hide Advance, TaskSound, TokenSound, MappingSound, AcceptSound, ValidatedAddress;
    var t := Next(s, e);
    if e.Step? && e.i < |s.tasks| {
      AdvanceTasksSound(s, e.i, e.w);
      AdvanceTokensSound(s, e.i, e.w);
      AdvanceMappingsSound(s, e.i, e.w);
      AdvanceAcceptsSound(s, e.i, e.w);
      AdvanceRestSound(s, e.i, e.w);
    } else {
      KeptSound(s, t);
    }
  }

  lemma AdvanceRestSound(s: State, i: nat, w: World)
    requires Inv(s) && i < |s.tasks|
    ensures var t := Advance(s, i, w);
            && "" in t.usedTokens
            && (forall sid :: sid in t.issued ==> t.issued[sid].token in t.usedTokens && t.issued[sid].token != "")
            && (forall b :: b in t.hashes ==> b.kind == MAIL && ValidatedAddress(t, b.address))
  {
    hide Advance, TaskSound, TokenSound, MappingSound, AcceptSound, ValidatedAddress;
    AdvanceIssuesSound(s, i, w);
    AdvanceHashesSound(s, i, w);
  }

  lemma AdvanceIssuesSound(s: State, i: nat, w: World)
    requires i < |s.tasks| && "" in s.usedTokens
    requires forall sid :: sid in s.issued ==> s.issued[sid].token in s.usedTokens && s.issued[sid].token != ""
    ensures var t := Advance(s, i, w);
            && "" in t.usedTokens
            && (forall sid :: sid in t.issued ==> t.issued[sid].token in t.usedTokens && t.issued[sid].token != "")
  {
    hide EndTask, HasSession, TokenRow, Deleted;
    if !s.tasks[i].Searching? && !s.tasks[i].Replacing? {
      NothingIssued(s, i, w);
      hide Advance;
    }
  }

  lemma NothingIssued(s: State, i: nat, w: World)
    requires i < |s.tasks| && !s.tasks[i].Searching? && !s.tasks[i].Replacing?
    ensures Advance(s, i, w).issued == s.issued && Advance(s, i, w).usedTokens == s.usedTokens
  {
    hide BeginFill, EndTask, HasSession, TokenRow, Deleted;
  }

  lemma AdvanceHashesSound(s: State, i: nat, w: World)
    requires Inv(s) && i < |s.tasks|
    ensures var t := Advance(s, i, w); forall b :: b in t.hashes ==> b.kind == MAIL && ValidatedAddress(t, b.address)
  {
    hide TokenSound, MappingSound, AcceptSound, EndTask, HasSession, TokenRow;
    var t := Advance(s, i, w);
    NextExtends(s, Step(i, w));
    assert TaskSound(s, s.tasks[i]) by {
      assert s.tasks[i] in s.tasks;
    }
    forall b | b in t.hashes ensures b.kind == MAIL && ValidatedAddress(t, b.address) {
      assert b in s.hashes ==> ValidatedAddress(s, b.address);
    }
  }

  /** Events that start a request, or store and delete other tokens. */
  lemma KeptSound(s: State, t: State)
    requires Inv(s)
    requires t.mappings == s.mappings && t.hashes == s.hashes && t.issued == s.issued && t.accepted == s.accepted
    requires s.usedTokens <= t.usedTokens
    requires forall id :: id in t.tokens ==> (id in s.tokens && t.tokens[id] == s.tokens[id]) ||
                                             (id in t.usedTokens && t.tokens[id].session.None?)
    requires forall x :: x in t.tasks ==> x in s.tasks || x.Searching? || x.Verifying? || x.Binding?
    ensures Inv(t)
  {
    forall id | id in t.tokens ensures id in t.usedTokens && TokenSound(t, id) {
      assert id in s.tokens && t.tokens[id] == s.tokens[id] ==> TokenSound(s, id);
    }
    forall secret | secret in t.mappings ensures MappingSound(t, secret) {
      assert MappingSound(s, secret);
    }
    forall a | a in t.accepted ensures AcceptSound(t, a) {
      assert AcceptSound(s, a);
    }
    forall b | b in t.hashes ensures ValidatedAddress(t, b.address) {
      assert ValidatedAddress(s, b.address);
    }
    forall x | x in t.tasks ensures TaskSound(t, x) {
      if x in s.tasks {
        TaskSoundExtends(s, t, x);
      }
    }
  }

  lemma {:induction false} RunKeepsInv(s: State, es: seq<Event>)
    requires Inv(s)
    ensures Inv(Run(s, es))
    decreases |es|
  {
    if es != [] {
      StepKeepsInv(s, es[0]);
      RunKeepsInv(Next(s, es[0]), es[1..]);
    }
  }

  /** In every interleaving of requests, a validated row has its session id, secret and address from
      one issued token that was read in time; that token is among those submitted if and only if the
      submission does not print as the empty text. */
  lemma ValidRowsWereProven(es: seq<Event>, secret: string)
    requires secret in Run(Init(), es).mappings && Run(Init(), es).mappings[secret].valid == 1
    ensures var s := Run(Init(), es);
            var m := s.mappings[secret];
            exists a :: a in s.accepted && a.session == Session(m.sid, secret, m.address) &&
                        m.sid in s.issued &&
                        s.issued[m.sid] == Issue(a.token, secret, m.address, s.issued[m.sid].expires) &&
                        a.at <= s.issued[m.sid].expires &&
                        (a.token in Texts(a.submitted) <==> !Unfiltered(Texts(a.submitted)))
  {
    RunKeepsInv(Init(), es);
    var s := Run(Init(), es);
    var m := s.mappings[secret];
    assert MappingSound(s, secret);
    var a :| a in s.accepted && a.session == Session(m.sid, secret, m.address);
    assert AcceptSound(s, a);
  }

  /** Every hash row that bind ever adds is for an address whose token was read in time. */
  lemma BoundAddressesWereProven(es: seq<Event>, b: Bound)
    requires b in Run(Init(), es).hashes
    ensures var s := Run(Init(), es);
            exists a :: a in s.accepted && a.session.email == b.address &&
                        a.session.sid in s.issued && s.issued[a.session.sid].email == b.address &&
                        s.issued[a.session.sid].token == a.token && a.at <= s.issued[a.session.sid].expires
  {
    RunKeepsInv(Init(), es);
    var s := Run(Init(), es);
    assert ValidatedAddress(s, b.address);
    var a :| a in s.accepted && a.session.email == b.address;
    assert AcceptSound(s, a);
  }

  // ---------------------------------------------------------------------------
  // One request after the other
  // ---------------------------------------------------------------------------

  lemma {:induction false} RunAppend(s: State, a: seq<Event>, b: seq<Event>)
    ensures Run(s, a + b) == Run(Run(s, a), b)
    decreases |a|
  {
    if a == [] {
      assert a + b == b;
    } else {
      assert (a + b)[1..] == a[1..] + b;
      RunAppend(Next(s, a[0]), a[1..], b);
    }
  }

  lemma RunFour(s: State, a: Event, b: Event, c: Event, d: Event)
    ensures Run(s, [a, b, c, d]) == Next(Next(Next(Next(s, a), b), c), d)
  {
    assert [a, b, c, d][1..] == [b, c, d] && [b, c, d][1..] == [c, d] && [c, d][1..] == [d] && [d][1..] == [];
    var s1 := Next(s, a);
    var s2 := Next(s1, b);
    var s3 := Next(s2, c);
    hide Next;
    assert Run(s3, [d]) == Next(s3, d);
    assert Run(s2, [c, d]) == Run(s3, [d]);
    assert Run(s1, [b, c, d]) == Run(s2, [c, d]);
    assert Run(s, [a, b, c, d]) == Run(s1, [b, c, d]);
  }

  lemma TokensAreUsed(s: State)
    requires Inv(s)
    ensures forall id :: id in s.tokens ==> id in s.usedTokens
  {
  }

  lemma RunOne(s: State, e: Event)
    ensures Run(s, [e]) == Next(s, e)
  {
    assert [e][1..] == [];
    assert Run(Next(s, e), []) == Next(s, e);
  }

  lemma RequestRuns(s: State, secret: string, email: string, attempt: int, w: World)
    requires s.tasks == []
    ensures var go := Step(0, w);
            var t := Next(Next(Next(s.(tasks := [Searching(secret, email, attempt)]), go), go), go);
            && Run(s, Request(secret, email, attempt, w)) == t
            && Run(s, Request(secret, email, attempt, w) + [go]) == Next(t, go)
  {
    hide Run, Advance;
    var go, start := Step(0, w), RequestToken(secret, email, attempt);
    assert Next(s, start) == s.(tasks := [Searching(secret, email, attempt)]);
    hide Next;
    RunFour(s, start, go, go, go);
    RunAppend(s, Request(secret, email, attempt, w), [go]);
    RunOne(Run(s, Request(secret, email, attempt, w)), go);
  }

  /** From the draw of the session id on, the token is inserted and then the session, if its secret is free. */
  lemma Stored(s: State, secret: string, email: string, attempt: int, w: World)
    requires |s.tasks| == 1 && Fresh(s, w) && w.token !in s.tokens
    requires s.tasks[0] == Searching(secret, email, attempt) ||
             (secret in s.mappings && s.tasks[0] == Replacing(secret, s.mappings[secret].sid, email, attempt))
    requires s.tasks[0].Searching? && secret in s.mappings ==> s.mappings[secret].address != email
    ensures var go := Step(0, w);
            var t := Next(Next(Next(s, go), go), go);
            && t.tasks == [] && t.hashes == s.hashes && Next(t, go) == t
            && t.tokens == s.tokens[w.token := Token(Expiry(w), Some(Session(w.sid, secret, email)))]
            && t.mappings == if s.tasks[0].Searching? && secret in s.mappings then s.mappings
                             else (s.mappings - {secret})[secret := Mapping(w.sid, 0, email, 0, attempt)]
  {
    var go, x := Step(0, w), Session(w.sid, secret, email);
    var s1 := Next(s, go);
    assert s1.tasks == [Issuing(w.token, x, Expiry(w), attempt)];
    var s2 := Next(s1, go);
    assert s2.tasks == [Opening(x, attempt)];
    assert Next(s2, go).tasks == [];
  }

  /** requestToken for a secret that is not in use opens a session that is not yet valid. */
  function Request(secret: string, email: string, attempt: int, w: World): seq<Event> {
    [RequestToken(secret, email, attempt), Step(0, w), Step(0, w), Step(0, w)]
  }

  lemma RequestOpens(s: State, secret: string, email: string, attempt: int, w: World)
    requires Inv(s) && s.tasks == [] && Fresh(s, w) && secret !in s.mappings
    ensures var t := Run(s, Request(secret, email, attempt, w));
            && t.tasks == [] && t.hashes == s.hashes
            && t.tokens == s.tokens[w.token := Token(Expiry(w), Some(Session(w.sid, secret, email)))]
            && t.mappings == s.mappings[secret := Mapping(w.sid, 0, email, 0, attempt)]
  {
    TokensAreUsed(s);
    RequestRuns(s, secret, email, attempt, w);
    hide Run, Inv, Next, Request;
    var s1 := s.(tasks := [Searching(secret, email, attempt)]);
    Stored(s1, secret, email, attempt, w);
    assert s1.mappings - {secret} == s.mappings;
  }

  /** A request for a secret in use, with one step more. The same address with the same attempt changes nothing; with
      another attempt a new session takes the place of the old one and its token is stored; for another address the
      session stays and only the token is added. */
  lemma RequestAgain(s: State, secret: string, email: string, attempt: int, w: World)
    requires Inv(s) && s.tasks == [] && Fresh(s, w) && secret in s.mappings
    ensures var t := Run(s, Request(secret, email, attempt, w) + [Step(0, w)]);
            var same := s.mappings[secret].address == email;
            && t.tasks == [] && t.hashes == s.hashes
            && t.mappings == (if same && s.mappings[secret].attempt != attempt
                              then s.mappings[secret := Mapping(w.sid, 0, email, 0, attempt)] else s.mappings)
            && t.tokens == (if same && s.mappings[secret].attempt == attempt then s.tokens
                            else s.tokens[w.token := Token(Expiry(w), Some(Session(w.sid, secret, email)))])
  {
    TokensAreUsed(s);
    RequestRuns(s, secret, email, attempt, w);
    var go, same := Step(0, w), s.mappings[secret].address == email;
    var s1 := s.(tasks := [Searching(secret, email, attempt)]);
    if same {
      Searched(s1, secret, email, attempt, w);
    }
    hide *;
    if !same {
      Stored(s1, secret, email, attempt, w);
    } else if s.mappings[secret].attempt != attempt {
      Stored(Next(s1, go), secret, email, attempt, w);
      RowReplaced(s.mappings, secret, Mapping(w.sid, 0, email, 0, attempt));
    }
  }

  lemma RowReplaced(rows: map<string, Mapping>, secret: string, row: Mapping)
    ensures (rows - {secret})[secret := row] == rows[secret := row]
  {
  }

  /** An earlier session for the same address is found. */
  lemma Searched(s: State, secret: string, email: string, attempt: int, w: World)
    requires s.tasks == [Searching(secret, email, attempt)]
    requires secret in s.mappings && s.mappings[secret].address == email
    ensures var t := Next(s, Step(0, w));
            if s.mappings[secret].attempt == attempt then t == s.(tasks := []) && Next(t, Step(0, w)) == t
            else t == s.(tasks := [Replacing(secret, s.mappings[secret].sid, email, attempt)])
  {
    hide BeginFill;
  }

  /** A new request joins those that are under way; a step of one of them leaves the others where they are. */
  lemma OthersKeepGoing(s: State, e: Event)
    ensures var t := Next(s, e);
            match e
            case Step(i, _) =>
              if i < |s.tasks| then
                t.tasks == s.tasks[..i] + s.tasks[i + 1..] ||
                (|t.tasks| == |s.tasks| && t.tasks == s.tasks[i := t.tasks[i]])
              else t == s
            case DeleteToken(_) => t.tasks == s.tasks
            case StoreToken(_, _) => t.tasks == s.tasks
            case _ => |t.tasks| == |s.tasks| + 1 && t.tasks[..|s.tasks|] == s.tasks && t == s.(tasks := t.tasks)
  {
    hide TokenRow, HasSession, Deleted, Expiry;
  }

  /** Tokens of other parts of the server: a new one is stored without a session, and any may be deleted. */
  lemma OtherTokens(s: State, id: string, expires: int)
    ensures id !in s.usedTokens ==>
              Next(s, StoreToken(id, expires)).tokens == s.tokens[id := Token(expires, None)]
    ensures Next(s, DeleteToken(id)).tokens == s.tokens - {id}
  {
  }

  /** The token lasts ten minutes, or as many seconds as a positive delay says. */
  lemma TokenLasts(w: World)
    ensures w.delay.None? || w.delay.value <= 0 ==> Expiry(w) - w.now == 600_000
    ensures w.delay.Some? && w.delay.value > 0 ==> Expiry(w) - w.now == 1000 * w.delay.value
  {
  }

  function Submit(token: Submitted, sid: string, secret: string, w: World): seq<Event> {
    [SubmitToken(token, sid, secret), Step(0, w), Step(0, w), Step(0, w)]
  }

  /** submitToken marks an open session as valid exactly when the token row it reads is in time and holds this
      session; the token is then deleted, and nothing changes otherwise. A text names its own row. */
  lemma SubmitMarksExactly(s: State, token: Submitted, x: Session, w: World)
    requires s.tasks == [] && HasSession(s, x.secret, x.sid) && s.mappings[x.secret].valid == 0
    ensures var row := TokenRow(s.tokens, token, w.first);
            var t := Run(s, Submit(token, x.sid, x.secret, w));
            var accepted := row.Some? && s.tokens[row.value].expires >= w.now && s.tokens[row.value].session.Some? &&
                            s.tokens[row.value].session.value.sid == x.sid &&
                            s.tokens[row.value].session.value.secret == x.secret;
            && t.tasks == [] && t.hashes == s.hashes
            && t.mappings == (if !accepted then s.mappings
                              else s.mappings[x.secret := s.mappings[x.secret].(valid := 1, submitTime := w.now)])
            && t.tokens == (if accepted then s.tokens - {if token.Text? then token.text else w.bound} else s.tokens)
    ensures token.Text? && token.text != "" ==>
              TokenRow(s.tokens, token, w.first) == if token.text in s.tokens then Some(token.text) else None
  {
    hide Run, BeginFill;
    var go := Step(0, w);
    var s1 := Next(s, SubmitToken(token, x.sid, x.secret));
    assert s1.tasks == [Verifying(token, x.sid, x.secret)];
    var s2 := Next(s1, go);
    RunFour(s, SubmitToken(token, x.sid, x.secret), go, go, go);
    if s2.tasks == [] {
      assert Next(s2, go) == s2;
    } else {
      assert s2.tasks[0].Consuming?;
      var y := s2.tasks[0].session;
      assert s2.tasks == [Consuming(token, y)];
      var s3 := Next(s2, go);
      assert s3.tasks == [Marking(y)];
    }
  }

  /** The whole way: a session requested, its token submitted in time, and bound, ends with a hash
      row for its address. */
  lemma RequestSubmitBind(s: State, secret: string, email: string, attempt: int, mxid: string,
                          w1: World, w2: World, w3: World)
    requires Inv(s) && s.tasks == [] && Fresh(s, w1) && secret !in s.mappings && w2.now <= Expiry(w1)
    ensures var es := Request(secret, email, attempt, w1) + Submit(Text(w1.token), w1.sid, secret, w2) +
                      [Bind(secret, w1.sid, mxid), Step(0, w3), Step(0, w3), Step(0, w3)];
            Bound(email, "mail", w3.pepper, mxid) in Run(s, es).hashes
  {
    var a, b := Request(secret, email, attempt, w1), Submit(Text(w1.token), w1.sid, secret, w2);
    var c := [Bind(secret, w1.sid, mxid), Step(0, w3), Step(0, w3), Step(0, w3)];
    RequestOpens(s, secret, email, attempt, w1);
    var t := Run(s, a);
    SubmitMarksExactly(t, Text(w1.token), Session(w1.sid, secret, email), w2);
    var u := Run(t, b);
    BindAdds(u, secret, w1.sid, mxid, w3);
    hide Run, Next;
    RunAppend(s, a, b);
    RunAppend(s, a + b, c);
  }

  /** bind adds the hash of the session's address exactly when the session is valid. */
  lemma BindAdds(s: State, secret: string, sid: string, mxid: string, w: World)
    requires s.tasks == [] && HasSession(s, secret, sid)
    ensures Run(s, [Bind(secret, sid, mxid), Step(0, w), Step(0, w), Step(0, w)]).hashes ==
            if s.mappings[secret].valid == 0 then s.hashes
            else s.hashes + {Bound(s.mappings[secret].address, "mail", w.pepper, mxid)}
  {
    var go := Step(0, w);
    RunFour(s, Bind(secret, sid, mxid), go, go, go);
    var s1 := Next(s, Bind(secret, sid, mxid));
    assert s1.tasks == [Binding(secret, sid, mxid)];
    var s2 := Next(s1, go);
    var s3 := Next(s2, go);
    assert s3.tasks == [];
    if s.mappings[secret].valid != 0 {
      assert s2.tasks == [Hashing(s.mappings[secret].address, mxid)];
    } else {
      assert s2.tasks == [];
    }
  }

  // ---------------------------------------------------------------------------
  // Where a bound row can be found
  // ---------------------------------------------------------------------------

  const SHA256 := "sha256"

  /** What bind hashes, and how. */
  lemma BoundKeyIs(h: UpdateHash.Hasher, address: string, pepper: string, mxid: string)
    ensures BoundKey(h, Bound(address, "mail", pepper, mxid)) == h("sha256", address + " mail " + pepper)
  {
    assert PepperRotation.Preimage(address, "mail", pepper) == address + " mail " + pepper;
  }

  function BoundKey(h: UpdateHash.Hasher, b: Bound): string {
    h(SHA256, PepperRotation.Preimage(b.address, b.kind, b.pepper))
  }

  /** A hash finds a bound row if and only if it is made from the same address and pepper and the row's own type. */
  lemma FoundExactly(h: UpdateHash.Hasher, b: Bound, method_: string, address: string, kind: string, pepper: string)
    requires UpdateHash.Injective(h)
    requires PepperRotation.NoBlank(b.pepper) && PepperRotation.NoBlank(b.kind)
    requires PepperRotation.NoBlank(pepper) && PepperRotation.NoBlank(kind)
    ensures h(method_, PepperRotation.Preimage(address, kind, pepper)) == BoundKey(h, b) <==>
            method_ == "sha256" && address == b.address && kind == b.kind && pepper == b.pepper
  {
    hide PepperRotation.Preimage;
    var text, own := PepperRotation.Preimage(address, kind, pepper),
        PepperRotation.Preimage(b.address, b.kind, b.pepper);
    assert UpdateHash.CollisionFree(h, method_, SHA256, text, own);
    if text == own {
      PepperRotation.PreimageInjective(address, kind, pepper, b.address, b.kind, b.pepper);
    }
  }

  /** In every run: no hash that is made for a user's address or phone, whatever the method and the pepper, finds a
      row that bind added, because those are made with another type. */
  lemma BoundRowsAreNeverFound(es: seq<Event>, b: Bound, h: UpdateHash.Hasher, p: UpdateHash.Param, pepper: string)
    requires b in Run(Init(), es).hashes
    requires UpdateHash.Injective(h) && PepperRotation.NoBlank(b.pepper) && PepperRotation.NoBlank(pepper)
    ensures UpdateHash.KeyOf(h, p, pepper) != BoundKey(h, b)
  {
    RunKeepsInv(Init(), es);
    assert b.kind == MAIL;
    assert MAIL[1] == 'a' && UpdateHash.Kind(UpdateHash.Phone)[1] == 's' && UpdateHash.Kind(UpdateHash.Email)[0] == 'e';
    FoundExactly(h, b, p.method_, UpdateHash.Contact(p.field, p.value), UpdateHash.Kind(p.field), pepper);
  }

  // ---------------------------------------------------------------------------
  // Submissions that print as nothing
  // ---------------------------------------------------------------------------

  /** They are the empty text, the empty list, and the lists of one null or one element that prints as nothing. */
  lemma BlankSubmissions(x: Submitted)
    ensures Unfiltered(Texts(x)) <==> x in {Text(""), List([]), List([Null]), List([Shown("")])}
    ensures Unfiltered(Texts(x)) ==> !Throws(x)
  {
    UnfilteredWhen(Texts(x));
    if x.List? && |x.elements| == 1 {
      assert x.elements == [x.elements[0]];
    }
    if Texts(x) == [""] {
      assert Texts(x)[0] == "";
    }
  }

  /** A list with a null among other elements makes the query throw: nothing changes. */
  lemma NullAmongOthersThrows(s: State, elements: seq<Element>, i: nat, x: Session, w: World)
    requires |elements| > 1 && i < |elements| && elements[i] == Null
    requires s.tasks == [] && HasSession(s, x.secret, x.sid) && s.mappings[x.secret].valid == 0
    ensures var t := Run(s, Submit(List(elements), x.sid, x.secret, w));
            t.tokens == s.tokens && t.mappings == s.mappings && t.hashes == s.hashes && t.tasks == []
  {
    hide Run, Next, Submit;
    BlankSubmissions(List(elements));
    SubmitMarksExactly(s, List(elements), x, w);
  }

  /** The query for such a submission has no condition, so that it is judged by whichever token row comes first and
      need not name the token of its session. */
  lemma BlankSubmissionReadsFirstRow(
    s: State, x: Submitted, secret: string, email: string, attempt: int, w1: World, w2: World)
    requires Inv(s) && s.tasks == [] && Fresh(s, w1) && secret !in s.mappings && Unfiltered(Texts(x))
    requires w2.now <= Expiry(w1) && w2.first == w1.token
    ensures var t := Run(s, Request(secret, email, attempt, w1) + Submit(x, w1.sid, secret, w2));
            secret in t.mappings && t.mappings[secret].valid == 1 && w1.token !in Texts(x)
  {
    var a, b := Request(secret, email, attempt, w1), Submit(x, w1.sid, secret, w2);
    RequestOpens(s, secret, email, attempt, w1);
    SubmitMarksExactly(Run(s, a), x, Session(w1.sid, secret, email), w2);
    RunAppend(s, a, b);
    BlankSubmissions(x);
    UnfilteredWhen(Texts(x));
    assert w1.token != "" by { assert "" in s.usedTokens; }
  }
}
