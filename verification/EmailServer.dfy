/** The handlers of the email validation API over the tables they change, statement by statement, proved
    to make the steps of the protocol of validation sessions. */
module EmailServer {
  import opened EmailSessions
  import opened Options

  class IdentityServer {
    var tokens: map<string, Token>
    var mappings: map<string, Mapping>
    var hashes: set<Bound>
    /** Requests that wait for a statement to complete. */
    var tasks: seq<Task>
    ghost var usedTokens: set<string>
    ghost var issued: map<string, Issue>
    ghost var accepted: set<Accept>

    ghost function View(): State
      reads this
    {
      State(tokens, mappings, hashes, tasks, usedTokens, issued, accepted)
    }

    constructor ()
      ensures View() == Init() && Inv(View())
    {
      tokens, mappings, hashes, tasks := map[], map[], {}, [];
      usedTokens, issued, accepted := {""}, map[], {};
    }

    method Finish(i: nat)
      requires i < |tasks|
      modifies this`tasks
      ensures View() == old(View()).(tasks := EndTask(old(tasks), i))
    {
      tasks := tasks[..i] + tasks[i + 1..];
    }

    /** `fillTable` up to the insert of the token. */
    method FillTable(i: nat, w: World, secret: string, email: string, attempt: int)
      requires i < |tasks| && Fresh(View(), w)
      modifies this
      ensures View() == BeginFill(old(View()), i, w, secret, email, attempt)
    {
      var expires := w.now + 1000 * (if w.delay.Some? && w.delay.value > 0 then w.delay.value else 600);
      tasks := tasks[i := Issuing(w.token, Session(w.sid, secret, email), expires, attempt)];
      usedTokens := usedTokens + {w.token};
      issued := issued[w.sid := Issue(w.token, secret, email, expires)];
    }

    /** `RequestToken` once the search for an earlier session is answered. */
    method OnSearched(i: nat, w: World)
      requires i < |tasks| && tasks[i].Searching? && Fresh(View(), w)
      modifies this
      ensures View() == Advance(old(View()), i, w)
    {
      var Searching(secret, email, attempt) := tasks[i];
      if secret in mappings && mappings[secret].address == email {
        if attempt == mappings[secret].attempt {
          Finish(i);
        } else {
          tasks := tasks[i := Replacing(secret, mappings[secret].sid, email, attempt)];
        }
      } else {
        FillTable(i, w, secret, email, attempt);
      }
    }

    /** The delete of the earlier session, then `fillTable`. */
    method OnReplace(i: nat, w: World)
      requires i < |tasks| && tasks[i].Replacing? && Fresh(View(), w)
      modifies this
      ensures View() == Advance(old(View()), i, w)
    {
      var Replacing(secret, oldSid, email, attempt) := tasks[i];
      if secret in mappings && mappings[secret].sid == oldSid {
        mappings := mappings - {secret};
      }
      FillTable(i, w, secret, email, attempt);
    }

    /** The two inserts of `fillTable`; a primary key that is taken ends the request. */
    method OnInsert(i: nat, w: World)
      requires i < |tasks| && (tasks[i].Issuing? || tasks[i].Opening?)
      modifies this
      ensures View() == Advance(old(View()), i, w)
    {
      match tasks[i] {
        case Issuing(token, session, expires, attempt) =>
          if token in tokens {
            Finish(i);
          } else {
            tokens := tokens[token := Token(expires, Some(session))];
            tasks := tasks[i := Opening(session, attempt)];
          }
        case Opening(session, attempt) =>
          if session.secret !in mappings {
            mappings := mappings[session.secret := Mapping(session.sid, 0, session.email, 0, attempt)];
          }
          Finish(i);
      }
    }

    /** `verifyToken`, and the comparison with the submitted session. */
    method OnVerify(i: nat, w: World)
      requires i < |tasks| && tasks[i].Verifying?
      modifies this
      ensures View() == Advance(old(View()), i, w)
    {
      var Verifying(token, sid, secret) := tasks[i];
      var row := TokenRow(tokens, token, w.first);
      if row.None? || tokens[row.value].expires < w.now || tokens[row.value].session.None? {
        Finish(i);
        return;
      }
      var session := tokens[row.value].session.value;
      if session.sid == sid && session.secret == secret {
        tasks := tasks[i := Consuming(token, session)];
        accepted := accepted + {Accept(session, row.value, token, w.now)};
      } else {
        Finish(i);
      }
    }

    /** `deleteToken`, then the update that marks the session. */
    method OnAccepted(i: nat, w: World)
      requires i < |tasks| && (tasks[i].Consuming? || tasks[i].Marking?)
      modifies this
      ensures View() == Advance(old(View()), i, w)
    {
      match tasks[i] {
        case Consuming(token, session) =>
          tokens := tokens - {if token.Text? then token.text else w.bound};
          tasks := tasks[i := Marking(session)];
        case Marking(session) =>
          var secret := session.secret;
          if secret in mappings && mappings[secret].sid == session.sid {
            mappings := mappings[secret := mappings[secret].(valid := 1, submitTime := w.now)];
          }
          Finish(i);
      }
    }

    /** `bind`: the session must exist and be valid; then the hash of its address is inserted. */
    method OnBind(i: nat, w: World)
      requires i < |tasks| && (tasks[i].Binding? || tasks[i].Hashing?)
      modifies this
      ensures View() == Advance(old(View()), i, w)
    {
      match tasks[i] {
        case Binding(secret, sid, mxid) =>
          if secret !in mappings || mappings[secret].sid != sid || mappings[secret].valid == 0 {
            Finish(i);
          } else {
            tasks := tasks[i := Hashing(mappings[secret].address, mxid)];
          }
        case Hashing(address, mxid) =>
          hashes := hashes + {Bound(address, MAIL, w.pepper, mxid)};
          Finish(i);
      }
    }

    /** Whichever request's statement completes next, the safety of the tables is kept. */
    method Resume(i: nat, w: World)
      requires i < |tasks| && Fresh(View(), w) && Inv(View())
      modifies this
      ensures View() == Next(old(View()), Step(i, w)) && Inv(View())
    {
      StepKeepsInv(View(), Step(i, w));
      match tasks[i] {
        case Searching(_, _, _) => OnSearched(i, w);
        case Replacing(_, _, _, _) => OnReplace(i, w);
        case Issuing(_, _, _, _) => OnInsert(i, w);
        case Opening(_, _) => OnInsert(i, w);
        case Verifying(_, _, _) => OnVerify(i, w);
        case Consuming(_, _) => OnAccepted(i, w);
        case Marking(_) => OnAccepted(i, w);
        case Binding(_, _, _) => OnBind(i, w);
        case Hashing(_, _) => OnBind(i, w);
      }
    }
  }
}
