/** Pushing hashes to federated services: two rounds of failures on parallel lists. */
module FederatedPush {
  import opened Options
  import UpdateHash

  type Hasher = UpdateHash.Hasher

  type User = UpdateHash.User

  /** A parsed response body: unreadable, an error object, or the details it has. */
  datatype Parsed =
    | Rejected
    | ErrorBody
    | Details(algorithms: Option<seq<string>>, lookupPepper: Option<string>, altPeppers: Alternatives)

  /** The alternative peppers: a list, nothing, or a value that cannot be spread. */
  datatype Alternatives = Missing | Listed(peppers: seq<string>) | NotIterable

  /** What came back from one server. */
  datatype Answer = Unreachable | Answered(body: Parsed)

  /** Details that have what is needed. */
  datatype HashDetails = HashDetails(algorithms: seq<string>, lookupPepper: string, altPeppers: Alternatives)

  datatype Push = Push(address: string, algorithm: string, pepper: string, hashes: seq<string>)

  predicate Usable(p: Parsed) {
    p.Details? && p.algorithms.Some? && |p.algorithms.value| >= 1 && p.lookupPepper.Some?
  }

  function DetailsOf(p: Parsed): (d: HashDetails)
    requires Usable(p)
    ensures d.algorithms != []
  {
    HashDetails(p.algorithms.value, p.lookupPepper.value, p.altPeppers)
  }

  // ---------------------------------------------------------------------------
  // Two rounds of dropping failed servers
  // ---------------------------------------------------------------------------

  function Filtered<T>(xs: seq<T>, failed: seq<nat>): seq<T> {
    if xs == [] then []
    else
      var n := |xs| - 1;
      Filtered(xs[..n], failed) + if n in failed then [] else [xs[n]]
  }

  /** The list without the failed positions. */
  method DropFailed(addresses: seq<string>, serversIndexFail: seq<nat>) returns (kept: seq<string>)
    ensures kept == Filtered(addresses, serversIndexFail)
  {
    kept := [];
    for i := 0 to |addresses|
      invariant kept == Filtered(addresses[..i], serversIndexFail)
    {
      assert addresses[..i + 1][..i] == addresses[..i];
      if i !in serversIndexFail {
        kept := kept + [addresses[i]];
      }
    }
    assert addresses[..|addresses|] == addresses;
  }

  /** The servers that answered at all, with their bodies, in order. */
  function Reached(addresses: seq<string>, answers: seq<Answer>): seq<(string, Parsed)>
    requires |addresses| == |answers|
  {
    if addresses == [] then []
    else
      var n := |addresses| - 1;
      Reached(addresses[..n], answers[..n]) + if answers[n].Answered? then [(addresses[n], answers[n].body)] else []
  }

  /** The pairs whose body is usable. */
  function Survivors(pairs: seq<(string, Parsed)>): seq<(string, HashDetails)> {
    if pairs == [] then []
    else
      var n := |pairs| - 1;
      Survivors(pairs[..n]) + if Usable(pairs[n].1) then [(pairs[n].0, DetailsOf(pairs[n].1))] else []
  }

  function Firsts<A, B>(pairs: seq<(A, B)>): (r: seq<A>)
    ensures |r| == |pairs|
  {
    seq(|pairs|, i requires 0 <= i < |pairs| => pairs[i].0)
  }

  function Seconds<A, B>(pairs: seq<(A, B)>): (r: seq<B>)
    ensures |r| == |pairs|
  {
    seq(|pairs|, i requires 0 <= i < |pairs| => pairs[i].1)
  }

  lemma FirstsSnoc<A, B>(pairs: seq<(A, B)>, p: (A, B))
    ensures Firsts(pairs + [p]) == Firsts(pairs) + [p.0] && Seconds(pairs + [p]) == Seconds(pairs) + [p.1]
  {
  }

  lemma {:induction false} KeptReached(addresses: seq<string>, answers: seq<Answer>, failed: seq<nat>)
    requires |addresses| == |answers|
    requires forall i :: 0 <= i < |answers| ==> (i in failed <==> answers[i].Unreachable?)
    ensures Filtered(addresses, failed) == Firsts(Reached(addresses, answers))
  {
    if addresses != [] {
      var n := |addresses| - 1;
      KeptReached(addresses[..n], answers[..n], failed);
    }
  }

  lemma {:induction false} KeptSurvivors(pairs: seq<(string, Parsed)>, failed: seq<nat>)
    requires forall i :: 0 <= i < |pairs| ==> (i in failed <==> !Usable(pairs[i].1))
    ensures Filtered(Firsts(pairs), failed) == Firsts(Survivors(pairs))
  {
    if pairs != [] {
      var n := |pairs| - 1;
      KeptSurvivors(pairs[..n], failed);
      assert Firsts(pairs)[..n] == Firsts(pairs[..n]);
    }
  }

  /** The first round: positions of failures are collected in one pass over the answers and dropped from the
      addresses in another. */
  method FirstRound(addresses: seq<string>, answers: seq<Answer>) returns (kept: seq<string>, responses: seq<Parsed>)
    requires |addresses| == |answers|
    ensures kept == Firsts(Reached(addresses, answers)) && responses == Seconds(Reached(addresses, answers))
  {
    hide Reached, Firsts, Seconds;
    var serversIndexFail: seq<nat> := [];
    responses := [];
    NoneAnswered(addresses, answers);
    for index := 0 to |answers|
      invariant responses == Seconds(Reached(addresses[..index], answers[..index]))
      invariant forall i :: i in serversIndexFail <==> 0 <= i < index && answers[i].Unreachable?
    {
      Step(addresses, answers, index);
      if answers[index].Unreachable? {
        serversIndexFail := serversIndexFail + [index];
        assert Reached(addresses[..index], answers[..index]) + [] == Reached(addresses[..index], answers[..index]);
      } else {
        FirstsSnoc(Reached(addresses[..index], answers[..index]), (addresses[index], answers[index].body));
        responses := responses + [answers[index].body];
      }
    }
    assert addresses[..|addresses|] == addresses && answers[..|answers|] == answers;
    kept := DropFailed(addresses, serversIndexFail);
    KeptReached(addresses, answers, serversIndexFail);
  }

  lemma NoneAnswered(addresses: seq<string>, answers: seq<Answer>)
    requires |addresses| == |answers|
    ensures Seconds(Reached(addresses[..0], answers[..0])) == []
  {
  }

  /** The second round, over the bodies of those that answered. */
  method SecondRound(addresses: seq<string>, responses: seq<Parsed>, ghost reached: seq<(string, Parsed)>)
    returns (kept: seq<string>, bodies: seq<HashDetails>)
    requires addresses == Firsts(reached) && responses == Seconds(reached)
    ensures kept == Firsts(Survivors(reached)) && bodies == Seconds(Survivors(reached))
  {
    var serversIndexFail: seq<nat> := [];
    bodies := [];
    for index := 0 to |responses|
      invariant bodies == Seconds(Survivors(reached[..index]))
      invariant forall i :: i in serversIndexFail <==> 0 <= i < index && !Usable(responses[i])
    {
      assert reached[..index + 1][..index] == reached[..index];
      if Usable(responses[index]) {
        FirstsSnoc(Survivors(reached[..index]), (reached[index].0, DetailsOf(reached[index].1)));
        bodies := bodies + [DetailsOf(responses[index])];
      } else {
        serversIndexFail := serversIndexFail + [index];
      }
    }
    assert reached[..|reached|] == reached;
    kept := DropFailed(addresses, serversIndexFail);
    KeptSurvivors(reached, serversIndexFail);
  }

  /** Both rounds: the two lists that come out are the two halves of the surviving pairs. */
  method AskPeers(addresses: seq<string>, answers: seq<Answer>) returns (kept: seq<string>, bodies: seq<HashDetails>)
    requires |addresses| == |answers|
    ensures var pairs := Survivors(Reached(addresses, answers)); kept == Firsts(pairs) && bodies == Seconds(pairs)
  {
    var responses;
    kept, responses := FirstRound(addresses, answers);
    kept, bodies := SecondRound(kept, responses, Reached(addresses, answers));
  }

  lemma Step(addresses: seq<string>, answers: seq<Answer>, index: nat)
    requires |addresses| == |answers| && index < |answers|
    ensures Reached(addresses[..index + 1], answers[..index + 1])
         == Reached(addresses[..index], answers[..index])
            + if answers[index].Answered? then [(addresses[index], answers[index].body)] else []
  {
    assert addresses[..index + 1][..index] == addresses[..index];
    assert answers[..index + 1][..index] == answers[..index];
  }

  lemma SurvivorsSnoc(addresses: seq<string>, answers: seq<Answer>)
    requires |addresses| == |answers| > 0
    ensures var n := |addresses| - 1;
      Survivors(Reached(addresses, answers))
      == Survivors(Reached(addresses[..n], answers[..n]))
         + if answers[n].Answered? && Usable(answers[n].body) then [(addresses[n], DetailsOf(answers[n].body))] else []
  {
    var n := |addresses| - 1;
    var before := Reached(addresses[..n], answers[..n]);
    if answers[n].Answered? {
      var p := (addresses[n], answers[n].body);
      assert (before + [p])[..|before|] == before;
    } else {
      assert Reached(addresses, answers) == before;
    }
  }

  // ---------------------------------------------------------------------------
  // The requests
  // ---------------------------------------------------------------------------

  function Peppers(d: HashDetails): seq<string> {
    [d.lookupPepper] + if d.altPeppers.Listed? then d.altPeppers.peppers else []
  }

  /** The record of details by address: of two bodies under one address the later one stays. */
  function DetailsByAddress(pairs: seq<(string, HashDetails)>): map<string, HashDetails> {
    if pairs == [] then map[]
    else
      var n := |pairs| - 1;
      DetailsByAddress(pairs[..n])[pairs[n].0 := pairs[n].1]
  }

  predicate WithAlgorithms(pairs: seq<(string, HashDetails)>) {
    forall p :: p in pairs ==> p.1.algorithms != []
  }

  /** What getUsersHashes returns, or nothing when it throws. */
  function Hashes(h: Hasher, data: seq<User>, algorithm: string, pepper: string): Option<seq<string>> {
    if UpdateHash.SomethingToHash(data) && !UpdateHash.Callable(algorithm) then None
    else Some(UpdateHash.UsersHashes(h, data, algorithm, pepper))
  }

  /** The requests to one server, or nothing when one of the calls throws. */
  function TryPushes(h: Hasher, data: seq<User>, address: string, algorithm: string, peppers: seq<string>)
    : Option<seq<Push>>
  {
    if peppers == [] then Some([])
    else
      var hashes := Hashes(h, data, algorithm, peppers[0]);
      var rest := TryPushes(h, data, address, algorithm, peppers[1..]);
      if hashes.None? || rest.None? then None
      else Some([Push(address, algorithm, peppers[0], hashes.value)] + rest.value)
  }

  function TryRequests(h: Hasher, data: seq<User>, addresses: seq<string>, details: map<string, HashDetails>)
    : Option<seq<Push>>
    requires forall a :: a in addresses ==> a in details && details[a].algorithms != []
  {
    if addresses == [] then Some([])
    else
      var d := details[addresses[0]];
      var first := TryPushes(h, data, addresses[0], d.algorithms[0], Peppers(d));
      var rest := TryRequests(h, data, addresses[1..], details);
      if first.None? || rest.None? then None else Some(first.value + rest.value)
  }

  predicate Spreadable(pairs: seq<(string, HashDetails)>) {
    forall p :: p in pairs ==> !p.1.altPeppers.NotIterable?
  }

  /** Everything one run sends; nothing at all when the job throws before its first request. */
  function Sent(h: Hasher, data: seq<User>, addresses: seq<string>, answers: seq<Answer>): Option<seq<Push>>
    requires |addresses| == |answers|
  {
    var pairs := Survivors(Reached(addresses, answers));
    SurvivorsHaveAlgorithms(Reached(addresses, answers));
    DetailsAre(pairs);
    if Spreadable(pairs) then TryRequests(h, data, Firsts(pairs), DetailsByAddress(pairs)) else None
  }

  lemma {:induction false} DetailsAre(pairs: seq<(string, HashDetails)>)
    ensures forall a :: a in DetailsByAddress(pairs) <==> a in Firsts(pairs)
    ensures forall a :: a in DetailsByAddress(pairs) ==> (a, DetailsByAddress(pairs)[a]) in pairs
  {
    if pairs != [] {
      var n := |pairs| - 1;
      DetailsAre(pairs[..n]);
      assert pairs == pairs[..n] + [pairs[n]];
      FirstsSnoc(pairs[..n], pairs[n]);
    }
  }

  lemma {:induction false} SurvivorsHaveAlgorithms(pairs: seq<(string, Parsed)>)
    ensures WithAlgorithms(Survivors(pairs))
  {
    if pairs != [] {
      SurvivorsHaveAlgorithms(pairs[..|pairs| - 1]);
    }
  }

  // ---------------------------------------------------------------------------
  // When the job throws, and what it sends otherwise
  // ---------------------------------------------------------------------------

  /** The requests to one server when nothing throws. */
  function PushesTo(h: Hasher, data: seq<User>, address: string, d: HashDetails): seq<Push>
    requires d.algorithms != []
  {
    seq(|Peppers(d)|, i requires 0 <= i < |Peppers(d)| =>
      Push(address, d.algorithms[0], Peppers(d)[i], UpdateHash.UsersHashes(h, data, d.algorithms[0], Peppers(d)[i])))
  }

  function PairPushes(h: Hasher, data: seq<User>, pairs: seq<(string, HashDetails)>): seq<Push>
    requires WithAlgorithms(pairs)
  {
    if pairs == [] then [] else PushesTo(h, data, pairs[0].0, pairs[0].1) + PairPushes(h, data, pairs[1..])
  }

  /** Hashes can be made for this server. */
  predicate Served(data: seq<User>, d: HashDetails)
    requires d.algorithms != []
  {
    UpdateHash.SomethingToHash(data) ==> UpdateHash.Callable(d.algorithms[0])
  }

  lemma {:induction false} TryPushesAre(
    h: Hasher, data: seq<User>, address: string, algorithm: string, peppers: seq<string>)
    requires peppers != []
    ensures var fits := UpdateHash.SomethingToHash(data) ==> UpdateHash.Callable(algorithm);
            var pushes := TryPushes(h, data, address, algorithm, peppers);
            && (pushes.Some? <==> fits)
            && (fits ==> |pushes.value| == |peppers| && forall i :: 0 <= i < |peppers| ==>
                  pushes.value[i] == Push(address, algorithm, peppers[i],
                                          UpdateHash.UsersHashes(h, data, algorithm, peppers[i])))
  {
    hide UpdateHash.SomethingToHash, UpdateHash.Callable, UpdateHash.UsersHashes;
    if |peppers| > 1 {
      TryPushesAre(h, data, address, algorithm, peppers[1..]);
    }
  }

  lemma TryServer(h: Hasher, data: seq<User>, address: string, d: HashDetails)
    requires d.algorithms != []
    ensures TryPushes(h, data, address, d.algorithms[0], Peppers(d))
         == if Served(data, d) then Some(PushesTo(h, data, address, d)) else None
  {
    hide UpdateHash.SomethingToHash, UpdateHash.Callable, UpdateHash.UsersHashes, TryPushes;
    TryPushesAre(h, data, address, d.algorithms[0], Peppers(d));
    var pushes := TryPushes(h, data, address, d.algorithms[0], Peppers(d));
    if Served(data, d) {
      assert pushes.value == PushesTo(h, data, address, d);
    }
  }

  /** Every address with the details given last under it. */
  function Overwritten(pairs: seq<(string, HashDetails)>, details: map<string, HashDetails>)
    : seq<(string, HashDetails)>
    requires forall p :: p in pairs ==> p.0 in details
  {
    seq(|pairs|, i requires 0 <= i < |pairs| => assert pairs[i] in pairs; (pairs[i].0, details[pairs[i].0]))
  }

  lemma {:induction false} RequestsAsPairs(
    h: Hasher, data: seq<User>, pairs: seq<(string, HashDetails)>, details: map<string, HashDetails>)
    requires forall p :: p in pairs ==> p.0 in details && details[p.0].algorithms != []
    ensures forall a :: a in Firsts(pairs) ==> a in details && details[a].algorithms != []
    ensures var sent := Overwritten(pairs, details);
            && WithAlgorithms(sent)
            && TryRequests(h, data, Firsts(pairs), details)
               == if forall p :: p in sent ==> Served(data, p.1) then Some(PairPushes(h, data, sent)) else None
  {
    hide PushesTo, TryPushes, Served, Peppers;
    if pairs != [] {
      assert pairs[0] in pairs && pairs == [pairs[0]] + pairs[1..];
      RequestsAsPairs(h, data, pairs[1..], details);
      TryServer(h, data, pairs[0].0, details[pairs[0].0]);
      assert Firsts(pairs)[1..] == Firsts(pairs[1..]);
      var sent := Overwritten(pairs, details);
      assert sent[1..] == Overwritten(pairs[1..], details);
      assert sent == [sent[0]] + sent[1..];
    }
  }

  /** The details given last under this address. */
  predicate GivenLast(pairs: seq<(string, HashDetails)>, address: string, d: HashDetails) {
    exists i :: 0 <= i < |pairs| && pairs[i] == (address, d) && forall j :: i < j < |pairs| ==> pairs[j].0 != address
  }

  lemma {:induction false} DetailsAreLast(pairs: seq<(string, HashDetails)>, address: string)
    requires address in DetailsByAddress(pairs)
    ensures GivenLast(pairs, address, DetailsByAddress(pairs)[address])
  {
    var n := |pairs| - 1;
    var d := DetailsByAddress(pairs)[address];
    if pairs[n].0 == address {
      assert pairs[n] == (address, d);
    } else {
      DetailsAreLast(pairs[..n], address);
      var i :| 0 <= i < n && pairs[..n][i] == (address, d) && forall j :: i < j < n ==> pairs[..n][j].0 != address;
      assert pairs[i] == (address, d) && forall j :: i < j < n ==> pairs[j] == pairs[..n][j];
    }
  }

  lemma LastDetails(pairs: seq<(string, HashDetails)>) returns (last: seq<(string, HashDetails)>)
    requires WithAlgorithms(pairs)
    ensures forall a :: a in Firsts(pairs) ==> a in DetailsByAddress(pairs)
    ensures forall p :: p in pairs ==> p.0 in DetailsByAddress(pairs)
    ensures last == Overwritten(pairs, DetailsByAddress(pairs)) && WithAlgorithms(last) && Firsts(last) == Firsts(pairs)
    ensures forall p :: p in last ==> GivenLast(pairs, p.0, p.1)
  {
    var details := DetailsByAddress(pairs);
    DetailsAre(pairs);
    forall p | p in pairs ensures p.0 in details && details[p.0].algorithms != [] {
      var i :| 0 <= i < |pairs| && pairs[i] == p;
      assert Firsts(pairs)[i] == p.0;
    }
    last := Overwritten(pairs, details);
    forall p | p in last ensures GivenLast(pairs, p.0, p.1) {
      DetailsAreLast(pairs, p.0);
    }
  }

  /** Whatever the addresses: the job sends nothing at all if some usable server's alternative peppers cannot be
      spread, or if the first algorithm that some server gave last cannot be called while there is something to
      hash. Otherwise it pushes to an address once for each time it answered usably, and every time with the
      algorithm and the peppers it gave last. */
  lemma LastAnswerWins(h: Hasher, data: seq<User>, addresses: seq<string>, answers: seq<Answer>)
    returns (last: seq<(string, HashDetails)>)
    requires |addresses| == |answers|
    ensures var pairs := Survivors(Reached(addresses, answers));
            && WithAlgorithms(last) && Firsts(last) == Firsts(pairs)
            && (forall p :: p in last ==> GivenLast(pairs, p.0, p.1))
            && Sent(h, data, addresses, answers)
               == if Spreadable(pairs) && forall p :: p in last ==> Served(data, p.1)
                  then Some(PairPushes(h, data, last)) else None
  {
    hide Served, TryRequests, PairPushes, Reached, Survivors, GivenLast;
    var pairs := Survivors(Reached(addresses, answers));
    SurvivorsHaveAlgorithms(Reached(addresses, answers));
    last := LastDetails(pairs);
    DetailsAre(pairs);
    RequestsAsPairs(h, data, pairs, DetailsByAddress(pairs)) by {
      forall p | p in pairs ensures DetailsByAddress(pairs)[p.0].algorithms != [] {
        assert (p.0, DetailsByAddress(pairs)[p.0]) in pairs;
      }
    }
  }

  // ---------------------------------------------------------------------------
  // What is sent to whom
  // ---------------------------------------------------------------------------

  lemma {:induction false} ReachedAre(addresses: seq<string>, answers: seq<Answer>, p: (string, Parsed))
    requires |addresses| == |answers|
    ensures p in Reached(addresses, answers) ==>
      exists i :: 0 <= i < |addresses| && addresses[i] == p.0 && answers[i] == Answered(p.1)
  {
    if addresses != [] {
      var n := |addresses| - 1;
      ReachedAre(addresses[..n], answers[..n], p);
      if i :| 0 <= i < n && addresses[..n][i] == p.0 && answers[..n][i] == Answered(p.1) {
        assert addresses[i] == p.0 && answers[i] == Answered(p.1);
      }
      assert p in Reached(addresses, answers) && p !in Reached(addresses[..n], answers[..n]) ==>
          addresses[n] == p.0 && answers[n] == Answered(p.1);
    }
  }

  lemma {:induction false} SurvivorsAre(pairs: seq<(string, Parsed)>, p: (string, HashDetails))
    requires p in Survivors(pairs)
    ensures exists q :: q in pairs && q.0 == p.0 && Usable(q.1) && DetailsOf(q.1) == p.1
  {
    var n := |pairs| - 1;
    assert pairs == pairs[..n] + [pairs[n]];
    if p in Survivors(pairs[..n]) {
      SurvivorsAre(pairs[..n], p);
    } else {
      assert pairs[n] in pairs;
    }
  }

  /** The server at this address advertised this algorithm first, and this pepper. */
  predicate Advertised(addresses: seq<string>, answers: seq<Answer>, p: Push)
    requires |addresses| == |answers|
  {
    exists i :: 0 <= i < |addresses| && addresses[i] == p.address && answers[i].Answered? && Usable(answers[i].body)
      && DetailsOf(answers[i].body).algorithms[0] == p.algorithm && p.pepper in Peppers(DetailsOf(answers[i].body))
  }

  lemma {:induction false} PairPushesAre(h: Hasher, data: seq<User>, pairs: seq<(string, HashDetails)>, p: Push)
    requires WithAlgorithms(pairs)
    ensures p in PairPushes(h, data, pairs) ==>
              exists q :: q in pairs && p.address == q.0 && p.algorithm == q.1.algorithms[0] &&
                          p.pepper in Peppers(q.1) &&
                          p.hashes == UpdateHash.UsersHashes(h, data, p.algorithm, p.pepper)
  {
    hide UpdateHash.UsersHashes;
    if pairs != [] {
      PairPushesAre(h, data, pairs[1..], p);
      if p in PushesTo(h, data, pairs[0].0, pairs[0].1) {
        var i :| 0 <= i < |Peppers(pairs[0].1)| && p.pepper == Peppers(pairs[0].1)[i];
        assert pairs[0] in pairs;
      } else if p in PairPushes(h, data, pairs[1..]) {
        var q :| q in pairs[1..] && p.address == q.0 && p.algorithm == q.1.algorithms[0] && p.pepper in Peppers(q.1);
        assert q in pairs;
      }
    }
  }

  lemma PairAnswered(addresses: seq<string>, answers: seq<Answer>, p: (string, HashDetails)) returns (i: nat)
    requires |addresses| == |answers| && p in Survivors(Reached(addresses, answers))
    ensures i < |addresses| && addresses[i] == p.0 && answers[i].Answered? && Usable(answers[i].body)
    ensures DetailsOf(answers[i].body) == p.1
  {
    var reached := Reached(addresses, answers);
    SurvivorsAre(reached, p);
    var q :| q in reached && q.0 == p.0 && Usable(q.1) && DetailsOf(q.1) == p.1;
    ReachedAre(addresses, answers, q);
    i :| 0 <= i < |addresses| && addresses[i] == q.0 && answers[i] == Answered(q.1);
  }

  /** Every push carries an algorithm and a pepper that the very server it goes to advertised, and the hashes
      made with them; this needs no assumption on the configured addresses. */
  lemma PushesAreAdvertised(h: Hasher, data: seq<User>, addresses: seq<string>, answers: seq<Answer>, p: Push)
    requires |addresses| == |answers|
    requires Sent(h, data, addresses, answers).Some? && p in Sent(h, data, addresses, answers).value
    ensures Advertised(addresses, answers, p)
    ensures p.hashes == UpdateHash.UsersHashes(h, data, p.algorithm, p.pepper)
  {
    hide Sent, PairPushes, Survivors, Reached, UpdateHash.UsersHashes, Served, Spreadable;
    var last := LastAnswerWins(h, data, addresses, answers);
    PairPushesAre(h, data, last, p);
    var q :| q in last && p.address == q.0 && p.algorithm == q.1.algorithms[0] && p.pepper in Peppers(q.1);
    assert q in Survivors(Reached(addresses, answers));
    var i := PairAnswered(addresses, answers, q);
  }

  /** What the configured servers ask for: for each that answers usably, a push for each pepper. */
  function Wanted(h: Hasher, data: seq<User>, addresses: seq<string>, answers: seq<Answer>): seq<Push>
    requires |addresses| == |answers|
  {
    if addresses == [] then []
    else
      var n := |addresses| - 1;
      Wanted(h, data, addresses[..n], answers[..n]) +
      if answers[n].Answered? && Usable(answers[n].body) then
        PushesTo(h, data, addresses[n], DetailsOf(answers[n].body))
      else []
  }

  lemma {:induction false} PairPushesSnoc(
    h: Hasher, data: seq<User>, pairs: seq<(string, HashDetails)>, p: (string, HashDetails))
    requires WithAlgorithms(pairs) && p.1.algorithms != []
    ensures WithAlgorithms(pairs + [p])
    ensures PairPushes(h, data, pairs + [p]) == PairPushes(h, data, pairs) + PushesTo(h, data, p.0, p.1)
  {
    hide PushesTo;
    if pairs == [] {
      assert [] + [p] == [p] && [p][1..] == [];
    } else {
      PairPushesSnoc(h, data, pairs[1..], p);
      assert (pairs + [p])[1..] == pairs[1..] + [p];
    }
  }

  lemma {:induction false} WantedArePairs(h: Hasher, data: seq<User>, addresses: seq<string>, answers: seq<Answer>)
    requires |addresses| == |answers|
    ensures WithAlgorithms(Survivors(Reached(addresses, answers)))
    ensures Wanted(h, data, addresses, answers) == PairPushes(h, data, Survivors(Reached(addresses, answers)))
  {
    hide PushesTo, Reached;
    SurvivorsHaveAlgorithms(Reached(addresses, answers));
    if addresses == [] {
      NoneReached();
    } else {
      var n := |addresses| - 1;
      WantedArePairs(h, data, addresses[..n], answers[..n]);
      SurvivorsSnoc(addresses, answers);
      var kept := Survivors(Reached(addresses[..n], answers[..n]));
      if answers[n].Answered? && Usable(answers[n].body) {
        PairPushesSnoc(h, data, kept, (addresses[n], DetailsOf(answers[n].body)));
      } else {
        assert kept + [] == kept;
      }
    }
  }

  lemma NoneReached()
    ensures Reached([], []) == []
  {
  }

  predicate Alike(d: HashDetails, e: HashDetails)
    requires d.algorithms != [] && e.algorithms != []
  {
    d.algorithms[0] == e.algorithms[0] && Peppers(d) == Peppers(e)
  }

  /** Usable answers under equal addresses name the same first algorithm and the same peppers; distinct addresses
      are always consistent. */
  predicate Consistent(addresses: seq<string>, answers: seq<Answer>)
    requires |addresses| == |answers|
  {
    forall i, j :: 0 <= i < j < |addresses| && addresses[i] == addresses[j] && UsableAt(answers, i) &&
                   UsableAt(answers, j)
                   ==> Alike(DetailsOf(answers[i].body), DetailsOf(answers[j].body))
  }

  predicate UsableAt(answers: seq<Answer>, i: nat)
    requires i < |answers|
  {
    answers[i].Answered? && Usable(answers[i].body)
  }

  /** Some usable server makes the job throw. */
  predicate Throws(data: seq<User>, answers: seq<Answer>) {
    exists i :: 0 <= i < |answers| && UsableAt(answers, i) &&
                (DetailsOf(answers[i].body).altPeppers.NotIterable? || !Served(data, DetailsOf(answers[i].body)))
  }

  lemma {:induction false} AnsweredPair(addresses: seq<string>, answers: seq<Answer>, i: nat)
    requires |addresses| == |answers| && i < |answers| && UsableAt(answers, i)
    ensures (addresses[i], DetailsOf(answers[i].body)) in Survivors(Reached(addresses, answers))
  {
    hide Reached, Survivors;
    var n := |addresses| - 1;
    SurvivorsSnoc(addresses, answers);
    if i < n {
      AnsweredPair(addresses[..n], answers[..n], i);
    }
  }

  lemma {:induction false} AlikePushes(
    h: Hasher, data: seq<User>, a: seq<(string, HashDetails)>, b: seq<(string, HashDetails)>)
    requires WithAlgorithms(a) && WithAlgorithms(b) && |a| == |b|
    requires forall i :: 0 <= i < |a| ==> a[i].0 == b[i].0 && a[i] in a && b[i] in b && Alike(a[i].1, b[i].1)
    ensures PairPushes(h, data, a) == PairPushes(h, data, b)
  {
    hide UpdateHash.UsersHashes;
    if a != [] {
      assert forall i :: 0 <= i < |a[1..]| ==> a[1..][i] == a[i + 1] && b[1..][i] == b[i + 1];
      AlikePushes(h, data, a[1..], b[1..]);
      assert PushesTo(h, data, a[0].0, a[0].1) == PushesTo(h, data, b[0].0, b[0].1);
    }
  }

  /** Under consistent answers each pair is like the one given last under its address. */
  lemma PairsAlike(addresses: seq<string>, answers: seq<Answer>, p: (string, HashDetails), q: (string, HashDetails))
    requires |addresses| == |answers| && Consistent(addresses, answers) && p.0 == q.0
    requires p in Survivors(Reached(addresses, answers)) && q in Survivors(Reached(addresses, answers))
    ensures p.1.algorithms != [] && q.1.algorithms != [] && Alike(p.1, q.1)
  {
    var i := PairAnswered(addresses, answers, p);
    var j := PairAnswered(addresses, answers, q);
    assert UsableAt(answers, i) && UsableAt(answers, j);
  }

  /** When no address is configured with different answers, the job sends, in order, one push for each pepper that
      each usable server advertised, with the first algorithm it named, if and only if no usable server makes it
      throw; one such server stops every push to every server. */
  lemma OnePushPerAdvertisedPepper(h: Hasher, data: seq<User>, addresses: seq<string>, answers: seq<Answer>)
    requires |addresses| == |answers| && Consistent(addresses, answers)
    ensures Sent(h, data, addresses, answers) == Some(Wanted(h, data, addresses, answers)) <==> !Throws(data, answers)
    ensures Throws(data, answers) ==> Sent(h, data, addresses, answers) == None
  {
    hide Sent, Survivors, Reached, PairPushes, Consistent, Wanted;
    var pairs := Survivors(Reached(addresses, answers));
    var last := LastAnswerWins(h, data, addresses, answers);
    WantedArePairs(h, data, addresses, answers);
    assert |last| == |Firsts(last)| == |pairs|;
    forall i | 0 <= i < |pairs| ensures last[i].0 == pairs[i].0 && Alike(last[i].1, pairs[i].1) {
      assert Firsts(last)[i] == last[i].0 && Firsts(pairs)[i] == pairs[i].0;
      assert last[i] in last && pairs[i] in pairs;
      PairsAlike(addresses, answers, last[i], pairs[i]);
    }
    AlikePushes(h, data, last, pairs);
    ThrowsByPairs(data, addresses, answers, last);
  }

  lemma ThrowsByPairs(
    data: seq<User>, addresses: seq<string>, answers: seq<Answer>, last: seq<(string, HashDetails)>)
    requires |addresses| == |answers|
    requires var pairs := Survivors(Reached(addresses, answers));
             && |last| == |pairs| && WithAlgorithms(last) && WithAlgorithms(pairs)
             && forall i :: 0 <= i < |pairs| ==> last[i] in last && pairs[i] in pairs && Alike(last[i].1, pairs[i].1)
    ensures var pairs := Survivors(Reached(addresses, answers));
            Throws(data, answers) <==> !(Spreadable(pairs) && forall p :: p in last ==> Served(data, p.1))
  {
    hide Survivors, Reached, UpdateHash.SomethingToHash, UpdateHash.Callable;
    var pairs := Survivors(Reached(addresses, answers));
    if i :| 0 <= i < |answers| && UsableAt(answers, i) &&
            (DetailsOf(answers[i].body).altPeppers.NotIterable? || !Served(data, DetailsOf(answers[i].body))) {
      AnsweredPair(addresses, answers, i);
      var k :| 0 <= k < |pairs| && pairs[k] == (addresses[i], DetailsOf(answers[i].body));
      assert Served(data, last[k].1) == Served(data, pairs[k].1);
    }
    if p :| p in pairs && p.1.altPeppers.NotIterable? {
      var i := PairAnswered(addresses, answers, p);
      assert UsableAt(answers, i);
    }
    if q :| q in last && !Served(data, q.1) {
      var k :| 0 <= k < |last| && last[k] == q;
      var i := PairAnswered(addresses, answers, pairs[k]);
      assert UsableAt(answers, i) && !Served(data, DetailsOf(answers[i].body));
    }
  }

  // ---------------------------------------------------------------------------
  // Concrete answers
  // ---------------------------------------------------------------------------

  /** A server that lists an algorithm the code does not have in front of `sha256` stops the pushes to the other. */
  lemma UnsupportedAlgorithmStopsAll(h: Hasher, u: User, a: string, b: string, p: string, q: string)
    requires UpdateHash.Hashed(u, UpdateHash.Email) && a != b
    ensures var first := Details(Some(["none", "sha256"]), Some(p), Missing);
            var second := Details(Some(["sha256"]), Some(q), Missing);
            && Sent(h, [u], [a, b], [Answered(first), Answered(second)]) == None
            && Sent(h, [u], [b], [Answered(second)])
               == Some([Push(b, "sha256", q, UpdateHash.UsersHashes(h, [u], "sha256", q))])
  {
    hide Sent, UpdateHash.UsersHashes;
    var first := Details(Some(["none", "sha256"]), Some(p), Missing);
    var second := Details(Some(["sha256"]), Some(q), Missing);
    var both := [Answered(first), Answered(second)];
    assert UpdateHash.Hashed([u][0], UpdateHash.Email);
    assert !UpdateHash.Callable("none") by { NoneIsNoMethod(); }
    assert UsableAt(both, 0) && !Served([u], DetailsOf(both[0].body));
    OnePushPerAdvertisedPepper(h, [u], [a, b], both);
    OneServer(h, [u], b, q);
  }

  lemma OneServer(h: Hasher, data: seq<User>, b: string, q: string)
    ensures Sent(h, data, [b], [Answered(Details(Some(["sha256"]), Some(q), Missing))])
         == Some([Push(b, "sha256", q, UpdateHash.UsersHashes(h, data, "sha256", q))])
  {
    hide Sent, UpdateHash.UsersHashes, UpdateHash.SomethingToHash;
    var body := Details(Some(["sha256"]), Some(q), Missing);
    var alone := [Answered(body)];
    assert UpdateHash.Callable("sha256") by {
      assert UpdateHash.HASH_METHODS[0] == "sha256";
    }
    hide UpdateHash.Callable;
    OnePushPerAdvertisedPepper(h, data, [b], alone);
    assert [b][..0] == [] && alone[..0] == [];
    var d := DetailsOf(body);
    assert d.algorithms[0] == "sha256" && Peppers(d) == [q];
    assert PushesTo(h, data, b, d) == [Push(b, "sha256", q, UpdateHash.UsersHashes(h, data, "sha256", q))];
    assert Wanted(h, data, [b], alone) == [] + PushesTo(h, data, b, d) == PushesTo(h, data, b, d);
    assert Served(data, d) && alone[0].body == body;
    assert !Throws(data, alone);
  }

  /** The algorithm exists, or there is nothing to hash. */
  predicate CanHash(data: seq<User>, algorithm: string) {
    UpdateHash.SomethingToHash(data) ==> UpdateHash.Callable(algorithm)
  }

  /** One configured server: what it is sent, for every answer. It needs at least one algorithm and a pepper to be
      sent anything; then the push with that pepper comes first and those with its alternative peppers follow. */
  lemma WhatOneServerIsSent(h: Hasher, data: seq<User>, a: string, algorithms: Option<seq<string>>,
                            pepper: Option<string>, others: Alternatives)
    ensures Sent(h, data, [a], [Unreachable]) == Sent(h, data, [a], [Answered(Rejected)]) ==
            Sent(h, data, [a], [Answered(ErrorBody)]) == Some([])
    ensures var sent := Sent(h, data, [a], [Answered(Details(algorithms, pepper, others))]);
            if algorithms.None? || algorithms.value == [] || pepper.None? then sent == Some([])
            else if others.NotIterable? || !CanHash(data, algorithms.value[0]) then sent == None
            else
              var peppers := if others.Missing? then [pepper.value] else [pepper.value] + others.peppers;
              && sent.Some? && |sent.value| == |peppers|
              && forall i :: 0 <= i < |peppers| ==>
                   sent.value[i] == Push(a, algorithms.value[0], peppers[i],
                                         UpdateHash.UsersHashes(h, data, algorithms.value[0], peppers[i]))
  {
    hide Sent, UpdateHash.UsersHashes, UpdateHash.SomethingToHash, UpdateHash.Callable;
    NothingWanted(h, data, a, Unreachable);
    NothingWanted(h, data, a, Answered(Rejected));
    NothingWanted(h, data, a, Answered(ErrorBody));
    var body := Details(algorithms, pepper, others);
    var answer := Answered(body);
    if !Usable(body) {
      NothingWanted(h, data, a, answer);
    } else {
      var d := DetailsOf(body);
      OnePushPerAdvertisedPepper(h, data, [a], [answer]);
      assert [answer][0] == answer && [a][..0] == [] && [answer][..0] == [];
      assert Wanted(h, data, [a], [answer]) == [] + PushesTo(h, data, a, d) == PushesTo(h, data, a, d);
      assert UsableAt([answer], 0);
    }
  }

  lemma NothingWanted(h: Hasher, data: seq<User>, a: string, answer: Answer)
    requires !UsableAt([answer], 0)
    ensures Sent(h, data, [a], [answer]) == Some([])
  {
    hide Sent, PushesTo, Served;
    OnePushPerAdvertisedPepper(h, data, [a], [answer]);
    assert [a][..0] == [] && [answer][..0] == [];
    var none: seq<Push> := [];
    assert Wanted(h, data, [a], [answer]) == none + none == none;
    assert !Throws(data, [answer]);
  }

  lemma NoneIsNoMethod()
    ensures "none" !in UpdateHash.HASH_METHODS && "none" !in UpdateHash.INHERITED_METHODS
  {
    var none := "none";
    assert forall m :: m in UpdateHash.HASH_METHODS ==> m[0] == 's';
    assert forall m :: m in UpdateHash.INHERITED_METHODS ==> m[0] != 'n';
  }

  lemma TwoSurvivors(a: string, first: Parsed, second: Parsed)
    requires Usable(first) && Usable(second)
    ensures Survivors(Reached([a, a], [Answered(first), Answered(second)]))
         == [(a, DetailsOf(first)), (a, DetailsOf(second))]
  {
    hide Reached;
    NoneReached();
    var addresses, answers := [a, a], [Answered(first), Answered(second)];
    assert addresses[..1] == [a] && answers[..1] == [Answered(first)];
    assert [a][..0] == [] && [Answered(first)][..0] == [];
    SurvivorsSnoc([a], [Answered(first)]);
    SurvivorsSnoc(addresses, answers);
  }

  /** Pushes to one address differ as soon as the algorithm or the peppers do. */
  lemma PushesDiffer(h: Hasher, data: seq<User>, a: string, d: HashDetails, e: HashDetails)
    requires d.algorithms != [] && e.algorithms != []
    ensures PushesTo(h, data, a, d) == PushesTo(h, data, a, e) <==> Alike(d, e)
  {
    hide UpdateHash.UsersHashes;
    var asked, again := PushesTo(h, data, a, d), PushesTo(h, data, a, e);
    if asked == again {
      assert asked[0].algorithm == again[0].algorithm;
      forall i | 0 <= i < |Peppers(d)| ensures Peppers(d)[i] == Peppers(e)[i] {
        assert asked[i].pepper == again[i].pepper;
      }
    }
  }

  lemma TwoPairs(h: Hasher, data: seq<User>, a: string, d: HashDetails, e: HashDetails)
    requires d.algorithms != [] && e.algorithms != []
    ensures PairPushes(h, data, [(a, d), (a, e)]) == PushesTo(h, data, a, d) + PushesTo(h, data, a, e)
  {
    hide PushesTo;
    assert [(a, d), (a, e)][1..] == [(a, e)] && [(a, e)][1..] == [];
    assert PairPushes(h, data, [(a, e)]) == PushesTo(h, data, a, e);
  }

  lemma CancelRight<T>(x: seq<T>, y: seq<T>, z: seq<T>)
    requires x + z == y + z
    ensures x == y
  {
    assert |x| == |y|;
    assert x == (x + z)[..|x|] && y == (y + z)[..|y|];
  }

  lemma SecondGivenLast(a: string, d: HashDetails, e: HashDetails, last: seq<(string, HashDetails)>)
    requires Firsts(last) == [a, a] && forall p :: p in last ==> GivenLast([(a, d), (a, e)], p.0, p.1)
    ensures last == [(a, e), (a, e)]
  {
    forall i | 0 <= i < 2 ensures last[i] == (a, e) {
      assert Firsts(last)[i] == last[i].0 && last[i] in last;
      var k :| 0 <= k < 2 && [(a, d), (a, e)][k] == (a, last[i].1) &&
               forall j :: k < j < 2 ==> [(a, d), (a, e)][j].0 != a;
      assert [(a, d), (a, e)][1].0 == a;
    }
    assert |last| == |Firsts(last)|;
  }

  /** An address configured twice that answers twice, where neither answer makes the job throw: it receives the
      pushes of its second answer twice, and that is what it asked for if and only if both answers name the same
      first algorithm and the same peppers. The first answer's algorithm is never looked at. */
  lemma ConfiguredTwice(h: Hasher, data: seq<User>, a: string, first: Parsed, second: Parsed)
    requires Usable(first) && Usable(second)
    ensures var addresses, answers := [a, a], [Answered(first), Answered(second)];
            var d, e := DetailsOf(first), DetailsOf(second);
            var sent := Sent(h, data, addresses, answers);
            if d.altPeppers.NotIterable? || e.altPeppers.NotIterable? || !Served(data, e) then sent == None
            else
              && sent == Some(PushesTo(h, data, a, e) + PushesTo(h, data, a, e))
              && (sent.value == Wanted(h, data, addresses, answers) <==> Alike(d, e))
  {
    hide PushesTo, Reached, PairPushes, Peppers, Sent, Served, GivenLast;
    var addresses, answers := [a, a], [Answered(first), Answered(second)];
    var d, e := DetailsOf(first), DetailsOf(second);
    TwoSurvivors(a, first, second);
    var last := LastAnswerWins(h, data, addresses, answers);
    assert Firsts([(a, d), (a, e)]) == [a, a];
    SecondGivenLast(a, d, e, last);
    assert [(a, d), (a, e)][0].1 == d && [(a, d), (a, e)][1].1 == e;
    assert Spreadable([(a, d), (a, e)]) <==> !d.altPeppers.NotIterable? && !e.altPeppers.NotIterable?;
    assert (forall p :: p in last ==> Served(data, p.1)) <==> Served(data, e) by { assert last[0] in last; }
    WantedArePairs(h, data, addresses, answers);
    TwoPairs(h, data, a, d, e);
    TwoPairs(h, data, a, e, e);
    PushesDiffer(h, data, a, d, e);
    if PushesTo(h, data, a, d) + PushesTo(h, data, a, e) == PushesTo(h, data, a, e) + PushesTo(h, data, a, e) {
      CancelRight(PushesTo(h, data, a, d), PushesTo(h, data, a, e), PushesTo(h, data, a, e));
    }
  }
}
