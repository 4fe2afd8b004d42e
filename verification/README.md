# Verified model of the Twake chat server's protocols

This project models the parts of the Matrix/Twake chat server (`chat_app/packages`) whose correctness spans several
functions or several database statements, and proves what they keep. It is written for Dafny 4.11;
`dafny verify dfyconfig.toml` checks all of it.

| files | what they model |
|---|---|
| `SqlConditions`, `SqlQueries`, `SqlMeaning` | the SELECT builder: filter records become WHERE text and a parameter vector; the text is parsed with SQL precedence (section 8.12 of ISO/IEC 9075:1992) and evaluated over rows in three-valued logic |
| `SqlWrites` | INSERT, UPDATE and DELETE with Pg's numbered placeholders and SQLite's question marks |
| `PepperRotation`, `HashGenerations`, `RotationStore` | pepper rotation on the `keys` and `hashes` tables, one statement a step, with updates, binds and unbinds in between; which rows outlive their two generations |
| `ListFilters`, `FederatedStore` | queries by a list of values; the federated service: pushes, garbage collection by its own two peppers, lookup |
| `UpdateHash`, `UpdateUsers`, `FederatedPush` | the worker pool that inserts hash rows, the reconciliation cron job, and the cron job that pushes hashes to peers |
| `AmqpProtocol`, `AmqpReconnect`, `AmqpShutdown`, `AmqpConnector` | the AMQP connector: every stretch of code between two awaits is one step; timers, close events and suspended calls resume in any order; when it becomes connected and how it comes back after a loss; where a closed connector comes to rest |
| `EmailSessions`, `EmailServer` | email validation: tokens, sessions and the hashes that bind adds |
| `JsNumbers`, `JsonText`, `JsonReader`, `CanonicalJson`, `SignJson`, `Base64Url` | canonical JSON and signing (Matrix Specification Appendices, sections "Canonical JSON" and "Signing JSON"), with the text of numbers (section 6.1.6.1.20 of ECMA-262); the text is read back by a reader after the grammar of RFC 8259 |
| `Regex`, `HostNames`, `DnsNames`, `Ipv6`, `MatrixId` | Matrix user ids and server names, with the regular expressions of the code proved equal to independent grammars (Matrix Specification Appendices, section "User Identifiers"; section 2.2 of RFC 4291) |
| `AddressBook`, `Search` | the address book listing and the paginated directory search |
| `Options`, `Sequences`, `Decimals` | optional values, searching a list, decimal numerals |

Where the code changes things step by step the model has a class or a method with the same loop or the same
statements, proved equal to a function; the results are then proved about the function. Concurrent code is a state
machine: a run is any sequence of events, and a result about runs holds for every interleaving.

Inputs from outside are parameters: the hash function (injective where a result needs it), the signature scheme,
random texts and peppers (fresh), the clock, `localeCompare` (any total preorder), the answers of other servers, and
the order in which a table lists its rows.

## What the proofs found

Each of these is a lemma about the code as it is:

- An OR link together with a join restricts only the last group (`SqlMeaning.JoinAppliesExactlyWithoutOr`); no public
  method combines the two (`SqlMeaning.PublicMethodsNeverMix`). A join record without a kept key, an INSERT without columns
  and a `deleteWhere` without conditions are not SQL (`SqlMeaning.ParsesExactlyWhenJoinHasKey`, `SqlWrites.InsertDenotes`,
  `SqlWrites.DeleteWhereDenotes`).
- Keys whose value prints as the empty text are dropped from a filter. So `verifyToken` of the empty text, of an empty list
  or of a list with one empty element reads whichever token row comes first
  (`EmailSessions.BlankSubmissions`, `EmailSessions.BlankSubmissionReadsFirstRow`), and validation of a session needs its
  token to be unexpired but, for these submissions, not to be named (`EmailSessions.ValidRowsWereProven`).
- A rotation that fails after `previousPepper` was overwritten leaves both keys equal, and the next one drops the
  published generation (`PepperRotation.FailedRotationLosesGeneration`); that happens exactly when the keys agree
  (`PepperRotation.DropTakesLiveRowsExactlyWhenKeysAgree`).
- Hash rows are not always of the two stored generations. A writer that read its pepper two rotations ago leaves a row that
  no rotation drops (`HashGenerations.SlowWriterLeavesStaleRow`); so does a row written under the initial empty pepper, because
  the delete is issued only for a stored text of 32 characters (`HashGenerations.EmptyPepperLeavesStaleRow`). An insert is lost
  in that way exactly when its pepper is past and no key names it (`HashGenerations.InsertIsStrandedExactly`), and the table holds
  two generations exactly when no write came that late and none under the empty pepper outlived it
  (`HashGenerations.TwoGenerations`).
- `bind` hashes an address with the type `mail`, `updateHash` with `email`: no hash of a user's address or phone ever finds a row
  that `bind` added (`EmailSessions.BoundRowsAreNeverFound`).
- A push that began before a pepper was published and deletes late takes away newer rows of its server
  (`FederatedStore.OverlappingPushRemovesRow`); a row is safe while its pepper is a key exactly when no such push is under way
  (`FederatedStore.SurvivesExactly`).
- A lookup whose address list is empty, or holds only the empty text, returns every row
  (`ListFilters.EmptyListsFilterNothing`).
- After a close that races with a failing reconnection attempt the connector's state may read Reconnecting for good
  (`AmqpShutdown.LostConnectionMayReconnect`); that is possible exactly when a suspended attempt can still be rejected while the
  retries last (`AmqpShutdown.DisconnectedExactly`).
- After a lost connection a connector that was not closed comes back with the first attempt that succeeds, or gives up after
  exactly `maxRetries` failures (`AmqpReconnect.Reconnects`, `AmqpReconnect.GivesUp`).
- `canonicalJson` loses members called `__proto__` and lists keys that are array indices first
  (`CanonicalJson.ProtoMemberIsLost`, `CanonicalJson.CanonicalKeysAscend`). `signJson` drops a falsy `unsigned`, and a refused key
  costs the object its earlier signatures (`SignJson.WhatSigningLoses`).
- The text of `canonicalJson` is JSON without white space, needless escapes and lone surrogates (`CanonicalJson.CanonicalTextIsJson`).
- Keys are sorted by UTF-16 code unit where canonical JSON asks for code points; the orders agree exactly on keys that do not
  first differ in a surrogate pair and a unit above the surrogates (`CanonicalJson.OrdersAgreeExactly`,
  `CanonicalJson.OrdersDiffer`).
- The three lookaheads of the DNS expression never reject anything (`DnsNames.DnsExactly`).
- A refused insert of `updateHash` never gives its worker back; five of them stop the pool (`UpdateHash.WhenThePoolRests`).
- A federated service whose first algorithm is not a method of the hash object makes the push job throw before its first
  request, so that no service receives anything (`FederatedPush.UnsupportedAlgorithmStopsAll`); with consistent answers
  everything wanted is sent exactly when there is no such service (`FederatedPush.OnePushPerAdvertisedPepper`).
- The record of uids already seen inherits the names `constructor` and `__proto__`: users with these uids who left the user
  database are never made inactive (`UpdateUsers.ConstructorStaysActive`, `UpdateUsers.PrintableInheritedNames`), all
  others are (`UpdateUsers.MissingUsersEndInactive`).
- An address configured twice as a federated service is sent the pushes of its later answer twice, and none of its earlier one
  (`FederatedPush.ConfiguredTwice`, `FederatedPush.LastAnswerWins`).

## Model

| member | source | states |
|---|---|---|
| SqlConditions.ParseDnf | chat_app/packages/matrix-identity-server/src/db/sql/pg.ts:351-384 | Text printed without parentheses around AND parses back, with AND above OR, to the disjunction of conjunctions it was printed from |
| SqlQueries.QueryBuilder.BuildCondition | chat_app/packages/matrix-identity-server/src/db/sql/pg.ts:319-350 | One record: the shared counter stays equal to the number of values, the record's values are appended in order, a number as its decimal numeral with a sign if it is negative, and each placeholder names the position of its own value |
| SqlQueries.TextDenotes | chat_app/packages/matrix-identity-server/src/db/sql/pg.ts:335-345 | What is bound for a value is the text itself or the numeral of the number, a minus sign in front of the digits of a negative one, and no other text is |
| SqlQueries.QueryBuilder.BuildWhere | chat_app/packages/matrix-identity-server/src/db/sql/pg.ts:316-399 | All groups and the join: counter and vector run on from one group to the next, groups without kept key print nothing, and the text is the specified token list |
| SqlQueries.QueryBuilder.AddJoin | chat_app/packages/db/src/sql/pg.ts:389-403 | The join equalities are added with AND, or after WHERE when nothing was printed; a record without kept key leaves a dangling AND or WHERE |
| SqlQueries.QueryBuilder.AddGroup | chat_app/packages/db/src/sql/sqlite.ts:374-385 | A printed group follows the link operator, or WHERE when it is the first |
| SqlMeaning.GroupMeaning | chat_app/packages/matrix-identity-server/src/db/sql/sqlite.ts:316-347 | Wherever a record's values lie in the shared vector, its text holds of a row exactly when every key that filters compares with one of the numbers and texts the caller gave, in any database that takes their numerals for them; a key filters unless its value is null, the empty text, or a list of nothing or of one empty text |
| SqlMeaning.GroupsMeaning | chat_app/packages/matrix-identity-server/src/db/sql/sqlite.ts:349-368 | Each of three groups reads exactly its own slice of the values |
| SqlMeaning.ParsesExactlyWhenJoinHasKey | chat_app/packages/matrix-identity-server/src/db/sql/pg.ts:373-400 | The text is an SQL condition if and only if a join record that is passed has a kept key |
| SqlMeaning.TwoGroupsMeaning | chat_app/packages/matrix-identity-server/src/db/sql/sqlite.ts:349-400 | A row is selected if and only if the groups, linked by the operator, and the join equalities hold of it |
| SqlMeaning.PublicGetMeaning | chat_app/packages/matrix-identity-server/src/db/sql/pg.ts:434-545 | For every public get, min and max method, all records, every database and row: the parsed text with `$n` bound to the n-th value selects the row if and only if the records, read with the numbers and texts that the caller gave, ask for it |
| SqlMeaning.FirstAlternativeEscapesJoin | chat_app/packages/db/src/sql/pg.ts:377-403 | With an OR between two printed groups some row is selected that does not satisfy the join |
| SqlMeaning.JoinAppliesExactlyWithoutOr | chat_app/packages/matrix-identity-server/src/db/sql/sqlite.ts:370-396 | The join restricts every selected row, in every database, if and only if no OR is printed between groups |
| SqlMeaning.PublicMethodsNeverMix | chat_app/packages/matrix-identity-server/src/db/sql/pg.ts:690-780 | No public method passes an OR link together with a join |
| SqlWrites.CollectColumns | chat_app/packages/matrix-identity-server/src/db/sql/pg.ts:136-141 | The loop over the record keeps each name beside its own value, in order |
| SqlWrites.InsertDenotes | chat_app/packages/matrix-identity-server/src/db/sql/sqlite.ts:103-111 | Both drivers' INSERT texts, with their values bound, parse to the same statement pairing each column with its own value; with no column neither is SQL |
| SqlWrites.UpdateDenotes | chat_app/packages/matrix-identity-server/src/db/sql/sqlite.ts:168-173 | Both drivers' UPDATE texts denote the same assignments and the same condition; without a column neither is SQL |
| SqlWrites.UpdateAndDenotes | chat_app/packages/matrix-identity-server/src/db/sql/pg.ts:246-255 | The same for an update under two conditions |
| SqlWrites.DeleteWhereDenotes | chat_app/packages/matrix-identity-server/src/db/sql/pg.ts:1041-1057 | The same for a delete under a list of conditions; an empty list is no statement |
| SqlWrites.AssignOwnColumns | chat_app/packages/matrix-identity-server/src/db/sql/pg.ts:190-197 | Each named column receives its own value and no other column changes |
| SqlWrites.UpdateChange | chat_app/packages/db/src/sql/sqlite.ts:172-177 | In every row that matches, `update` through either driver gives each named column its own value and leaves every other column as it was; the other rows stay |
| PepperRotation.PreimageInjective | chat_app/packages/matrix-identity-server/src/lookup/updateHash.ts:62-70 | The hashed text determines contact, type and pepper when type and pepper have no blank |
| PepperRotation.StepKeepsInv | chat_app/packages/matrix-identity-server/src/cron/changePepper.ts:88-166 | Every statement of rotations, updates, binds and unbinds keeps the served generation complete, except a failure after `previousPepper` was overwritten |
| PepperRotation.PublishedGenerationComplete | chat_app/packages/matrix-identity-server/src/cron/changePepper.ts:93-162 | From initialised tables, in every run whose rotations complete, at every statement, each user of the published generation who has not unbound has his row under the stored pepper |
| PepperRotation.RotationServesItsEntries | chat_app/packages/matrix-identity-server/src/cron/changePepper.ts:130-157 | A rotation publishes only when all its inserts are done, and then serves exactly the users it began with |
| PepperRotation.DropTakesLiveRowsExactlyWhenKeysAgree | chat_app/packages/matrix-identity-server/src/cron/changePepper.ts:93-108 | The delete of a rotation takes rows of the published generation if and only if both keys hold the same 32-character pepper |
| PepperRotation.FailedRotationLosesGeneration | chat_app/packages/matrix-identity-server/src/cron/changePepper.ts:121-164 | A concrete run in which a failed rotation makes the next one drop the published generation |
| HashGenerations.StaleRowsStay | chat_app/packages/matrix-identity-server/src/cron/changePepper.ts:93-108 | A row under a past pepper that no key names, that is not being built and that no delete waits for stays in every later run that does not unbind its user |
| HashGenerations.InsertIsStrandedExactly | chat_app/packages/matrix-identity-server/src/lookup/updateHash.ts:54-74 | Between rotations, an accepted insert leaves a row outside the two stored generations at the end of every later run without unbinds if and only if its pepper is of that kind |
| HashGenerations.OutsideExactlyWhenStranded | chat_app/packages/matrix-identity-server/src/cron/changePepper.ts:88-166 | From empty tables, failed rotations included: a run without unbinds ends with a row outside the two stored generations if and only if it has a step that strands one |
| HashGenerations.TwoGenerations | chat_app/packages/matrix-identity-server/src/cron/changePepper.ts:93-128 | When rotations complete, every hash row belongs to the stored `pepper` or `previousPepper` if and only if no write came under a past pepper that no key will name again, and none under the empty one unless it is still stored |
| HashGenerations.PromptWritersLoseNothing | chat_app/packages/matrix-identity-server/src/lookup/updateHash.ts:54-74 | No write comes under such a pepper when every writer that is running at the start of a rotation has read the pepper then stored |
| HashGenerations.RotationLeavesCurrentRows | chat_app/packages/matrix-identity-server/src/cron/changePepper.ts:93-157 | A whole rotation, from its beginning to its publication, ends with the pepper it found as `previousPepper`, and with the rows under it as they were |
| HashGenerations.EmptyPepperLeavesStaleRow | chat_app/packages/matrix-identity-server/src/cron/changePepper.ts:93-102 | A concrete run in which a row written under the initial empty pepper outlasts two rotations |
| HashGenerations.SlowWriterLeavesStaleRow | chat_app/packages/matrix-identity-server/src/lookup/updateHash.ts:54-74 | A concrete run in which a writer outlasts two rotations and leaves a row under neither pepper |
| RotationStore.NoCollision | chat_app/packages/matrix-identity-server/src/lookup/updateHash.ts:68-74 | With an injective hash and distinct contacts no insert of a rotation meets an existing key |
| RotationStore.IdentityDb.UpdateHashes | chat_app/packages/matrix-identity-server/src/cron/changePepper.ts:88-166 | The job's statements in order make exactly the steps of one rotation; it publishes exactly when every insert went through, then every entry has its row under the new pepper; the stored pepper becomes the previous one, and rows stay unless they are under a `previousPepper` of 32 characters |
| FederatedStore.PushSurvives | chat_app/packages/federated-identity-service/src/controllers/controllers.ts:83-108 | A row pushed under the then-current pepper survives every later statement of every server until the second following rotation overwrites `previousPepper`, unless a push with older keys is under way; `SurvivesExactly` has the converse |
| FederatedStore.SurvivesExactly | chat_app/packages/federated-identity-service/src/controllers/controllers.ts:83-108 | A stored row of one of the two generations survives every run for as long as its pepper is one of the two keys, if and only if no push under way read the keys before that pepper and has still to delete |
| FederatedStore.StoredByPush | chat_app/packages/federated-identity-service/src/controllers/controllers.ts:97-108 | A push leaves its rows safe in that sense unless an older push of the same server has still to delete |
| FederatedStore.OverlappingPushRemovesRow | chat_app/packages/federated-identity-service/src/controllers/controllers.ts:83-95 | A concrete interleaving in which such an older push takes a row away |
| FederatedStore.OtherServersUntouched | chat_app/packages/federated-identity-service/src/controllers/controllers.ts:87-94 | A push changes no row of another server |
| FederatedStore.PushCollects | chat_app/packages/federated-identity-service/src/controllers/controllers.ts:83-95 | The delete of a push keeps exactly the other servers' rows and the rows under the two stored peppers |
| FederatedStore.HashByServer.Lookups | chat_app/packages/federated-identity-service/src/controllers/controllers.ts:76-121 | The table after an undisturbed push: what its delete keeps, and one row for each pushed hash |
| FederatedStore.Lookup | chat_app/packages/federated-identity-service/src/controllers/controllers.ts:15-64 | Mappings and inactives are exactly the queried local rows of either kind; third-party answers are, for each server and in row order, exactly the queried rows of the addresses without an active local row, and none when there is no such address |
| FederatedStore.LookupOfAddresses | chat_app/packages/federated-identity-service/src/controllers/controllers.ts:37-51 | Another server's hash is returned if and only if it is offered, and was asked for and has no active local row, or the empty text is the only address without one |
| FederatedStore.StoredRowsAreReturned | chat_app/packages/federated-identity-service/src/controllers/controllers.ts:15-108 | A safe row is returned under its server for as long as its pepper is one of the two keys, whatever the servers do meanwhile, if and only if its hash was asked for and has no active local row, or the empty text is the only address without one |
| ListFilters.EmptyListsFilterNothing | chat_app/packages/matrix-identity-server/src/db/sql/pg.ts:319-350 | The lists of values that select every row are exactly the empty one and the one of the empty text |
| FederatedStore.Split | chat_app/packages/matrix-identity-server/src/lookup/index.ts:45-55 | The loop sorts each queried row into `mappings` or `inactives` by its activity |
| UpdateHash.CollectParams | chat_app/packages/matrix-identity-server/src/lookup/updateHash.ts:85-101 | The nested loops push the parameters in the specified order |
| UpdateHash.ParamsAre | chat_app/packages/matrix-identity-server/src/lookup/updateHash.ts:85-101 | There is a parameter exactly for every user, non-empty field and supported method |
| UpdateHash.RowsOfUser | chat_app/packages/matrix-identity-server/src/lookup/updateHash.ts:62-74 | The rows of a user: the sha256 of `<address> email <pepper>` with type `email` and of `<number> msisdn <pepper>` with type `msisdn`, under his id and activity |
| UpdateHash.RowsComeFrom | chat_app/packages/matrix-identity-server/src/lookup/updateHash.ts:62-101 | Every row is one of these |
| UpdateHash.SpellingsOfOneNumber | chat_app/packages/matrix-identity-server/src/lookup/updateHash.ts:62-67 | A blank anywhere in a phone number makes no difference, and a leading plus makes none if and only if no second one follows |
| UpdateHash.EveryOrderAddsOneRowEach | chat_app/packages/matrix-identity-server/src/lookup/updateHash.ts:47-131 | In whatever order the workers proceed, a run that finishes has added one row for each parameter and no other, each under a pepper that was given or stored meanwhile |
| UpdateHash.OrdersAgree | chat_app/packages/matrix-identity-server/src/lookup/updateHash.ts:54-74 | Without a rotation meanwhile all orders end in the same table |
| UpdateHash.UpdatesComplete | chat_app/packages/matrix-identity-server/src/lookup/updateHash.ts:103-131 | For distinct contacts without rows under the pepper, every run that can go no further has finished, with the rows of all parameters |
| UpdateHash.StepsRunOut | chat_app/packages/matrix-identity-server/src/lookup/updateHash.ts:110-123 | Every step of a worker uses up a bounded measure |
| UpdateHash.WhenThePoolRests | chat_app/packages/matrix-identity-server/src/lookup/updateHash.ts:103-123 | Nothing can go on if and only if nothing is under way and either nothing waits or five refused inserts hold all slots |
| UpdateHash.PepperIsShared | chat_app/packages/matrix-identity-server/src/lookup/updateHash.ts:54-61 | The pepper that one worker has read serves all workers acquired later, also when another is stored meanwhile |
| UpdateHash.ContactsGiveDistinctKeys | chat_app/packages/matrix-identity-server/src/lookup/updateHash.ts:62-70 | Users that share no phone number or address have distinct hash keys, phone numbers being compared without blanks and leading plus |
| UpdateHash.GetUsersHashes | chat_app/packages/matrix-identity-server/src/cron/update-federated-identity-hashes.ts:148-179 | The loops push the hashes of the active users' fields in order, and throw exactly when the named method cannot be called and some active user has a field that is not empty |
| UpdateHash.PushedHashesAreTheActiveRows | chat_app/packages/matrix-identity-server/src/cron/update-federated-identity-hashes.ts:155-179 | With the same data, algorithm and pepper, what is pushed is exactly the keys of the rows updateHash added with active = 1 |
| UpdateUsers.Tables.Update | chat_app/packages/matrix-identity-server/src/cron/updateUsers.ts:86-165 | One run of the job makes exactly the writes of the plan, about which `RowsOfNewUser`, `HistoryOfUser`, `OldRows` and `MissingUsersEndInactive` say what they leave in the tables |
| UpdateUsers.Tables.FindUpdates | chat_app/packages/matrix-identity-server/src/cron/updateUsers.ts:89-129 | The loop over the users issues their history writes and activations and collects the users to hash, which are those of `RowsOfNewUser` |
| UpdateUsers.RowsOfNewUser | chat_app/packages/matrix-identity-server/src/cron/updateUsers.ts:89-114 | A user of the user database without row has one row afterwards for each address and number it gives, and no other, if and only if no federated service is set or the Matrix database knows him; it is active if and only if no Matrix database is configured or it knows him |
| UpdateUsers.HistoryOfUser | chat_app/packages/matrix-identity-server/src/cron/updateUsers.ts:89-127 | A user of the user database gets an active history row of this run if he has no rows and no Matrix database is configured or it knows him, or if it knows him and the first of his rows is inactive; otherwise his history stays |
| UpdateUsers.OldRows | chat_app/packages/matrix-identity-server/src/cron/updateUsers.ts:119-127 | A row of the table stays, and is made active if and only if it is for a user of the user database whom the Matrix database knows and the first of whose rows is inactive |
| UpdateUsers.Tables.RetireMissing | chat_app/packages/matrix-identity-server/src/cron/updateUsers.ts:149-157 | The loop over the known uids makes each missing one inactive once although uids repeat, except the names that its record inherits |
| UpdateUsers.OneHistoryWrite | chat_app/packages/matrix-identity-server/src/cron/updateUsers.ts:89-157 | A run writes the history of an address at most once; when its uid is known and left the user database it does so exactly once, as inactive, if and only if the uid is not an inherited name |
| UpdateUsers.WritesMayCompleteInAnyOrder | chat_app/packages/matrix-identity-server/src/cron/updateUsers.ts:99-165 | Whatever the order in which the writes of a run complete, the tables end up the same |
| UpdateUsers.MissingUsersEndInactive | chat_app/packages/matrix-identity-server/src/cron/updateUsers.ts:136-157 | A known uid that left the user database ends with history active = 0 if and only if it had it before or is neither `constructor` nor `__proto__` |
| UpdateUsers.PrintableInheritedNames | chat_app/packages/matrix-identity-server/src/cron/updateUsers.ts:149-155 | Of the names every record inherits, exactly `constructor` and `__proto__` are localparts |
| UpdateUsers.ConstructorStaysActive | chat_app/packages/matrix-identity-server/src/cron/updateUsers.ts:149-155 | A user `constructor` with a hash row and an active history, gone from the user database, stays active |
| UpdateUsers.HistoryWritesAreAccepted | chat_app/packages/matrix-identity-server/src/cron/updateUsers.ts:99-127 | Every history insert is for an address without a row and every update for one with a row: no address gets a second row |
| UpdateUsers.SecondRunInsertsNothing | chat_app/packages/matrix-identity-server/src/cron/updateUsers.ts:89-132 | A second run on unchanged sources, reading the table in any order, inserts no hash row |
| UpdateUsers.SecondRunLeavesHashes | chat_app/packages/matrix-identity-server/src/cron/updateUsers.ts:89-132 | When the rows of each localpart agree on its activity, it leaves the hash table as it is |
| FederatedPush.FirstRound | chat_app/packages/matrix-identity-server/src/cron/update-federated-identity-hashes.ts:45-71 | After the round of requests the lists of addresses and responses are the two halves of the servers that answered |
| FederatedPush.AskPeers | chat_app/packages/matrix-identity-server/src/cron/update-federated-identity-hashes.ts:45-115 | After the two rounds of dropping failed positions the lists of addresses and bodies are the two halves of the surviving pairs |
| FederatedPush.PushesAreAdvertised | chat_app/packages/matrix-identity-server/src/cron/update-federated-identity-hashes.ts:117-197 | Every push carries an algorithm and a pepper that the server it goes to advertised, and the hashes made with them, whatever addresses are configured |
| FederatedPush.OnePushPerAdvertisedPepper | chat_app/packages/matrix-identity-server/src/cron/update-federated-identity-hashes.ts:117-197 | When answers under one address agree, the job sends one push for each pepper each usable server advertised, with its first algorithm, if and only if no usable server makes it throw; otherwise it sends nothing to anyone |
| FederatedPush.WhatOneServerIsSent | chat_app/packages/matrix-identity-server/src/cron/update-federated-identity-hashes.ts:45-197 | For every answer of a single server: nothing unless it names an algorithm and a pepper; otherwise one push for that pepper and then one for each alternative, with its first algorithm, or a throw |
| FederatedPush.UnsupportedAlgorithmStopsAll | chat_app/packages/matrix-identity-server/src/cron/update-federated-identity-hashes.ts:148-197 | A server that lists an unknown algorithm first stops the push to another server, which alone would receive it |
| FederatedPush.LastAnswerWins | chat_app/packages/matrix-identity-server/src/cron/update-federated-identity-hashes.ts:117-197 | Whatever the addresses, exactly when the job throws and sends nothing; otherwise an address is pushed to once for each time it answered usably, and every time with the algorithm and the peppers it gave last |
| FederatedPush.ConfiguredTwice | chat_app/packages/matrix-identity-server/src/cron/update-federated-identity-hashes.ts:117-197 | An address configured twice receives the pushes of its second answer twice, or nothing when the job throws; the pushes are what it asked for if and only if both answers name the same first algorithm and the same peppers |
| AmqpProtocol.StepUsesMeasure | chat_app/packages/amqp-connector/src/index.ts:205-247 | After close every timer, close event and resumed call uses up some of a finite measure |
| AmqpProtocol.RunsAreBounded | chat_app/packages/amqp-connector/src/index.ts:391-476 | After close every run without a new call is no longer than that measure |
| AmqpProtocol.StepAfterClose | chat_app/packages/amqp-connector/src/index.ts:226-247 | After close no step enters Connected, and a stored connection always has a suspended call that will clear it |
| AmqpProtocol.CloseIsFinal | chat_app/packages/amqp-connector/src/index.ts:144-247 | After any history, once close is called and build is not: in every interleaving the connector never enters Connected, the run ends, and then the connection field is undefined |
| AmqpReconnect.ConnectsExactly | chat_app/packages/amqp-connector/src/index.ts:144-199 | In every reachable state a step enters Connected if and only if a build or an attempt goes on after a fulfilled setupChannel while close was not called; the call ends, the stored connection has one more close listener, and an attempt resets the counter |
| AmqpReconnect.ArmsExactly | chat_app/packages/amqp-connector/src/index.ts:288-424 | A step counts an attempt and sets a timer if and only if, while retries last, it is the loss of a connection or the failed recreation of a channel of an enabled connector that is not closing, or the callback of a rejected attempt |
| AmqpReconnect.BuildConnects | chat_app/packages/amqp-connector/src/index.ts:144-199 | From every state without suspended calls, also after close, a build whose awaits are fulfilled ends Connected with the counter at 0 and the pending reconnection cancelled |
| AmqpReconnect.CloseEnds | chat_app/packages/amqp-connector/src/index.ts:205-247 | From every such state a close whose awaits are fulfilled ends Disconnected, connection and channel undefined and the pending reconnection cancelled |
| AmqpReconnect.ChannelComesBack | chat_app/packages/amqp-connector/src/index.ts:283-310 | A lost channel is recreated on the same connection, with a listener and a consumer, and the state stays |
| AmqpReconnect.Reconnects | chat_app/packages/amqp-connector/src/index.ts:391-476 | From the start: after a lost connection and any number of failed attempts that the retries allow, an attempt whose awaits are fulfilled ends Connected on a new connection and channel, with the counter at 0 and nothing suspended |
| AmqpReconnect.GivesUp | chat_app/packages/amqp-connector/src/index.ts:391-424 | After exactly `maxRetries` failed attempts the connector is Disconnected with no timer set and nothing suspended |
| AmqpShutdown.DisconnectedExactly | chat_app/packages/amqp-connector/src/index.ts:205-247 | After any history, a run after close can come to rest with the state reading Reconnecting if and only if a suspended attempt can still be rejected and the retries last for all attempts that must be; otherwise every run without a further build in which all calls have ended leaves the state Disconnected |
| AmqpShutdown.LostConnectionMayReconnect | chat_app/packages/amqp-connector/src/index.ts:391-476 | The run build, lost connection, timer, close is one of them, unless only one retry is allowed |
| AmqpShutdown.ReconnectingPossible | chat_app/packages/amqp-connector/src/index.ts:413-424 | The run that rests in Reconnecting, step by step from any state in which an attempt can be rejected in time |
| AmqpProtocol.RetriesBounded | chat_app/packages/amqp-connector/src/index.ts:391-424 | In every run the timers set since the last reset are counted by `reconnectAttempts`, which never exceeds a positive `maxRetries` |
| AmqpConnector.AMQPConnector.Build | chat_app/packages/amqp-connector/src/index.ts:144-168 | build up to its first await is the corresponding step |
| AmqpConnector.AMQPConnector.Close | chat_app/packages/amqp-connector/src/index.ts:205-212 | close up to its first await is the corresponding step |
| AmqpConnector.AMQPConnector.ScheduleReconnection | chat_app/packages/amqp-connector/src/index.ts:391-424 | Setting a timer, or giving up at the limit, is the corresponding step |
| AmqpConnector.AMQPConnector.OnTimer | chat_app/packages/amqp-connector/src/index.ts:413-443 | The timer callback up to its first await is the corresponding step |
| AmqpConnector.AMQPConnector.OnSettled | chat_app/packages/amqp-connector/src/index.ts:168-199 | Every continuation after an await, fulfilled or rejected, is the corresponding step; which of them connect says `AmqpReconnect.ConnectsExactly` |
| AmqpConnector.AMQPConnector.OnConnectionClose | chat_app/packages/amqp-connector/src/index.ts:358-369 | One listener of the connection's close event is the corresponding piece of code |
| AmqpConnector.AMQPConnector.OnChannelClose | chat_app/packages/amqp-connector/src/index.ts:288-310 | One listener of the channel's close event, up to its first await, is the corresponding piece of code |
| AmqpConnector.AMQPConnector.EmitConnectionClose | chat_app/packages/amqp-connector/src/index.ts:350-369 | A close event runs the listener as many times as overlapping calls registered it on this connection, which is the corresponding step |
| AmqpConnector.AMQPConnector.EmitChannelClose | chat_app/packages/amqp-connector/src/index.ts:283-310 | The same for a channel |
| AmqpConnector.DelayBounded | chat_app/packages/amqp-connector/src/index.ts:376-385 | Every delay is at most floor(1.1 * maxDelayMs) |
| AmqpConnector.DelayMonotone | chat_app/packages/amqp-connector/src/index.ts:376-385 | The delay before jitter never decreases with the attempts when the multiplier is at least 1 |
| AmqpConnector.DelayGrows | chat_app/packages/amqp-connector/src/index.ts:376-385 | It is the initial delay for the first attempt and multiplied for each further one until it reaches the maximum |
| EmailSessions.StepKeepsInv | chat_app/packages/matrix-identity-server/src/validate/email/requestToken.ts:83-135 | Every statement of every request keeps rows, tokens and suspended requests backed by what was issued and accepted |
| EmailSessions.ValidRowsWereProven | chat_app/packages/matrix-identity-server/src/validate/email/submitToken.ts:24-53 | In every interleaving a row with valid = 1 has its session id, secret and address from one issued token read unexpired, which is among those submitted if and only if the submission, a text or a list, does not print as the empty text |
| EmailSessions.BoundAddressesWereProven | chat_app/packages/matrix-identity-server/src/3pid/bind.ts:61-112 | Every hash row that bind adds is for an address whose token was read unexpired |
| EmailSessions.RequestOpens | chat_app/packages/matrix-identity-server/src/validate/email/requestToken.ts:165-214 | A request for an unused secret stores one token and one session that is not valid |
| EmailSessions.RequestAgain | chat_app/packages/matrix-identity-server/src/validate/email/requestToken.ts:165-214 | A request for a secret in use: with the same address and attempt no table changes; with another attempt a new session that is not valid takes the place of the old one and its token is stored; for another address the session stays and only the token is added |
| EmailSessions.SubmitMarksExactly | chat_app/packages/matrix-identity-server/src/validate/email/submitToken.ts:24-53 | For a submitted text or list, an open session becomes valid if and only if the token row read is unexpired and holds this session id and secret; the submitted token is then deleted, and otherwise no table changes; a text that is not empty reads its own row |
| EmailSessions.BindAdds | chat_app/packages/matrix-identity-server/src/3pid/bind.ts:61-112 | bind adds the hash of the session's address, the word `mail` and the pepper if and only if the session is valid |
| EmailSessions.FoundExactly | chat_app/packages/matrix-identity-server/src/3pid/bind.ts:96-112 | With an injective hash, a hash finds a bound row if and only if it is made with sha256 from the row's own address, type and pepper |
| EmailSessions.BoundRowsAreNeverFound | chat_app/packages/matrix-identity-server/src/lookup/updateHash.ts:62-74 | In every run no hash of a user's address or phone, as updateHash makes them, finds a row that bind added |
| EmailSessions.RequestSubmitBind | chat_app/packages/matrix-identity-server/src/validate/email/requestToken.ts:137-214 | Request, submission in time and bind end with a hash row for the address |
| EmailSessions.BlankSubmissions | chat_app/packages/matrix-identity-server/src/validate/email/submitToken.ts:24-31 | The submissions that print as the empty text are the empty text, the empty list and the lists of one null or empty element |
| EmailSessions.NullAmongOthersThrows | chat_app/packages/matrix-identity-server/src/validate/email/submitToken.ts:24-31 | A list with a null among other elements changes nothing |
| EmailSessions.BlankSubmissionReadsFirstRow | chat_app/packages/matrix-identity-server/src/db/index.ts:636-660 | Each of them can validate a session without naming its token, because its query has no condition |
| EmailServer.IdentityServer.Resume | chat_app/packages/matrix-identity-server/src/db/index.ts:515-545 | Whichever request's statement completes next, the handlers make the corresponding step and keep the invariant; what whole requests leave in the tables say `RequestOpens`, `RequestAgain`, `SubmitMarksExactly` and `BindAdds` |
| JsonReader.PrintedNumberBack | chat_app/packages/crypto/src/index.ts:137-150 | A reader of numbers after section 6 of RFC 8259 gives back every printed number and what follows it |
| JsNumbers.ExponentExactly | chat_app/packages/crypto/src/index.ts:137-150 | A number is printed with an exponent if and only if it is not below 10^21 or is below 10^-6 |
| JsonReader.PrintedTextsAreRead | chat_app/packages/crypto/src/index.ts:137-150 | A reader of JSON after RFC 8259 gives back every value from the text that JSON.stringify prints; so does one that neither skips white space nor accepts an escape that is not needed |
| JsonReader.PrintedTextsAreUnicode | chat_app/packages/crypto/src/index.ts:137-150 | Whatever the strings, every surrogate in the printed text is half of a pair |
| JsonReader.PlainTextsStay | chat_app/packages/crypto/src/index.ts:137-150 | A string without control characters, quotation marks, backslashes and lone surrogates is printed as it is |
| JsonReader.PrintInjective | chat_app/packages/crypto/src/index.ts:137-150 | The text of a finite number, fixed or with an exponent, determines its sign, its digits and the place of its point |
| JsonReader.BodyUnambiguous | chat_app/packages/crypto/src/index.ts:137-150 | The inside of a string literal can be read back, surrogates and escapes included |
| JsonReader.StringifyInjective | chat_app/packages/crypto/src/index.ts:137-150 | JSON text determines the value, member order included |
| CanonicalJson.SortedUnique | chat_app/packages/crypto/src/index.ts:140-146 | Two sorted member lists that agree as maps are the same list |
| CanonicalJson.CanonKeepsMeaning | chat_app/packages/crypto/src/index.ts:137-146 | Rebuilding objects keeps their meaning at every depth |
| CanonicalJson.CanonicalTextIsJson | chat_app/packages/crypto/src/index.ts:137-150 | Canonical text is JSON without insignificant white space, needless escapes and lone surrogates, and the reader makes of it the rebuilt value, which means what the given one does |
| CanonicalJson.CanonicalTextIdentifiesValues | chat_app/packages/crypto/src/index.ts:137-150 | Two values have the same canonical text if and only if they are equal up to member order at every depth, `__proto__` members aside |
| CanonicalJson.ProtoMemberIsLost | chat_app/packages/crypto/src/index.ts:142-145 | A `__proto__` member does not reach the text |
| CanonicalJson.OtherMembersStay | chat_app/packages/crypto/src/index.ts:140-146 | Every other member is in the rebuilt object with its rebuilt value |
| CanonicalJson.CanonicalKeysAscend | chat_app/packages/crypto/src/index.ts:140-146 | Keys of the rebuilt object ascend, array indices first and otherwise by code unit |
| CanonicalJson.PropertyOrder | chat_app/packages/crypto/src/index.ts:140-146 | In that order numerals below 2^32 - 1 come first and by their number, all other keys after them and by code unit |
| CanonicalJson.OrdersAgreeExactly | chat_app/packages/crypto/src/index.ts:140-141 | Two keys are ordered alike by code unit and by code point if and only if they do not first differ in a surrogate pair and a unit above the surrogates |
| CanonicalJson.OrdersDiffer | chat_app/packages/crypto/src/index.ts:140-146 | Two keys ordered differently because of a surrogate pair, and two because they are array indices |
| SignJson.JsonObject.Sign | chat_app/packages/crypto/src/index.ts:158-186 | The in-place deletions and assignments of signJson, also when the key is refused |
| SignJson.SignatureIsForContent | chat_app/packages/crypto/src/index.ts:164-172 | Two objects receive the same signature if and only if they agree, member order aside, in everything but `signatures` and `unsigned` |
| SignJson.EarlierSignaturesSurvive | chat_app/packages/crypto/src/index.ts:174-179 | Every other signature stays and the new one is over the content of the object that carries it |
| SignJson.SigningCommutes | chat_app/packages/crypto/src/index.ts:158-186 | Two signings commute if and only if both keys are refused, or both accepted with different slots or equal signatures |
| SignJson.RunOfSignings | chat_app/packages/crypto/src/index.ts:158-186 | After a run of signings each slot holds the last signature asked for there, over the unchanged content |
| SignJson.OrderOfSigningsIsIrrelevant | chat_app/packages/crypto/src/index.ts:158-186 | Accepted signings of distinct slots end in the same object in every order |
| SignJson.WhatSigningLoses | chat_app/packages/crypto/src/index.ts:164-185 | Exactly when `unsigned` is kept, and exactly when an earlier signature is lost |
| Base64Url.PadBase64 | chat_app/packages/crypto/src/index.ts:67-73 | The padding loop stops at the next multiple of four |
| Base64Url.StandardRoundTrip | chat_app/packages/crypto/src/index.ts:62-73 | Standard to base64url and back is the identity on exactly the padded strings |
| Base64Url.UrlRoundTrip | chat_app/packages/crypto/src/index.ts:62-73 | Base64url to standard and back is the identity on exactly the unpadded strings |
| HostNames.PortExactly | chat_app/packages/utils/src/utils.ts:186-187 | The port expression accepts exactly the decimal forms of 1 to 65535 without leading zeros |
| HostNames.Ipv4Exactly | chat_app/packages/utils/src/utils.ts:161-162 | The IPv4 expression accepts exactly four dotted numbers of one to three digits up to 255 |
| DnsNames.DnsExactly | chat_app/packages/utils/src/utils.ts:179-180 | The DNS expression accepts exactly dotted labels of 1 to 63 letters, digits and inner hyphens; its lookaheads add nothing |
| Ipv6.Ipv6Exactly | chat_app/packages/utils/src/utils.ts:168-169 | The IPv6 expression accepts exactly, in brackets, eight groups, at most seven groups around one `::`, or an IPv4 address behind `::`, `::ffff:` or `::ffff:` and zeros |
| MatrixId.ServerNameExactly | chat_app/packages/utils/src/utils.ts:206-254 | Server names are exactly a host of one of the three kinds and an optional port |
| MatrixId.ServerSplitUnique | chat_app/packages/utils/src/utils.ts:214-234 | A server name splits into a host and a port in only one way |
| MatrixId.PrintedIds | chat_app/packages/utils/src/utils.ts:277-308 | A printed id is recognised, and its localpart and server name are read back |
| MatrixId.IsMatrixIdExactly | chat_app/packages/utils/src/utils.ts:332-358 | isMatrixId holds if and only if some localpart and server name make toMatrixId return the id |
| MatrixId.PrintedOnce | chat_app/packages/utils/src/utils.ts:382-387 | That localpart and server name are unique, and getLocalPart returns the localpart |
| MatrixId.UserIdGrammar | chat_app/packages/utils/src/utils.ts:277-358 | Ids are exactly `@localpart:host` with an optional port, of at most 255 characters |
| AddressBook.Deduplicate | chat_app/packages/tom-server/src/addressbook-api/services/index.ts:702-710 | The filter with its set of seen mxids keeps the first contact of each mxid |
| AddressBook.SortIsStable | chat_app/packages/tom-server/src/addressbook-api/services/index.ts:674-693 | Sorting by name keeps the order by id among equal names |
| AddressBook.ValidContactsAre | chat_app/packages/tom-server/src/addressbook-api/services/index.ts:573-617 | The contacts listed are the rows with an id and an mxid that are not empty, with their name, activity and book |
| AddressBook.ListingHoldsOldest | chat_app/packages/tom-server/src/addressbook-api/services/index.ts:573-617 | The listing holds one contact for each mxid of the valid rows, the one with the least id, ordered by name with empty names last and oldest first within a name |
| AddressBook.CollectUserContacts | chat_app/packages/tom-server/src/addressbook-api/services/index.ts:1062-1089 | The loop keeps the entries whose uid makes a Matrix id |
| AddressBook.UserContactsAre | chat_app/packages/tom-server/src/addressbook-api/services/index.ts:1062-1089 | There is a contact for exactly the entries whose uid makes a Matrix id, named by common name, display name or uid in that order |
| AddressBook.UserContactsUnique | chat_app/packages/tom-server/src/addressbook-api/services/index.ts:1062-1089 | Distinct uids become contacts of distinct mxids, all with a name |
| AddressBook.MergeLetsBookWin | chat_app/packages/tom-server/src/addressbook-api/services/index.ts:77-98 | Merging loses no mxid, invents none, lets the address book win and orders by name; mxids stay unique if and only if those taken over are |
| AddressBook.ListIsComplete | chat_app/packages/tom-server/src/addressbook-api/services/index.ts:55-98 | For distinct uids every mxid of a valid row or a user is listed once, with its oldest row where the table has one |
| AddressBook.ContactTable.AddContacts | chat_app/packages/tom-server/src/addressbook-api/services/index.ts:284-320 | The loop appends a row for each contact the existence check does not find |
| AddressBook.AdditionsExactly | chat_app/packages/tom-server/src/addressbook-api/services/index.ts:284-320 | Afterwards every contact with an mxid is in the table; a row is added only for a contact that was not, active, with its mxid and name, in the book, under a fresh id |
| AddressBook.AddingTwiceAddsNothing | chat_app/packages/tom-server/src/addressbook-api/services/index.ts:284-320 | Adding the same contacts again adds nothing |
| AddressBook.AddingKeepsListed | chat_app/packages/tom-server/src/addressbook-api/services/index.ts:484-505 | Rows with later ids never replace a listed contact |
| Search.Collect | chat_app/packages/tom-server/src/identity-server/lookup/_search.ts:391-453 | The loops fill the two sets in order of first insertion, leaving active ids out of the inactive ones |
| Search.Respond | chat_app/packages/tom-server/src/identity-server/lookup/_search.ts:359-513 | One request: limit and offset defaults, the empty search, the slice and its two halves |
| Search.ResponseExactly | chat_app/packages/tom-server/src/identity-server/lookup/_search.ts:391-513 | The matches are the known ids of the page that the Matrix database or the address book found, the inactive ones its other known ids |
| Search.LessExactly | chat_app/packages/tom-server/src/identity-server/lookup/_search.ts:455-465 | Ids are ordered by code unit |
| Search.CombinedIsComplete | chat_app/packages/tom-server/src/identity-server/lookup/_search.ts:455-465 | The full result lists every id found once, active ones first, each part in order; the parts are disjoint |
| Search.PageComesApart | chat_app/packages/tom-server/src/identity-server/lookup/_search.ts:466-472 | A page filtered into its active and inactive ids and put together again is the page, for any limit and offset |
| Search.PagesPartition | chat_app/packages/tom-server/src/identity-server/lookup/_search.ts:464-466 | Pages stepped by a positive limit are, one after the other, the full result from the offset on |
| Search.WalkSeesEverythingOnce | chat_app/packages/tom-server/src/identity-server/lookup/_search.ts:391-513 | A client that steps through enough pages receives every known active and inactive id exactly once, in order |
| Search.CandidatesAreIds | chat_app/packages/tom-server/src/identity-server/lookup/_search.ts:267-291 | Only Matrix ids are ever found |

## Left out

- HTTP routes, authentication, mail and SMS sending, templates, rate limits, caches, quotas, metrics, QR codes, the
  widget: plumbing around the state steps.
- Drivers, pools, LDAP, column size limits, table creation, `ORDER BY` and `LIKE` text, `match`, `_getMinMax` with an order
  argument: no claim beyond the WHERE text.
- sha256, ed25519 and random generators: an injective function, an arbitrary function and fresh values.
- Negative zero and infinite numbers in JSON values, which print as `0` and `null`; a number is its shortest decimal digits and the place of its point, without the limits of double precision.
- The signing name `__proto__`, which assignment treats as the prototype: names are ordinary keys.
- The `filter` of `changePepper.ts` and the reading of the Matrix database: the users of a rotation or a push are given.
- `createKeypair`, `getKeys`, `deleteKey`, `hashDetails`: a few statements each without a property that spans them.
- Failure recovery of a half-finished rotation: only what such a failure leads to is proved.
- Localparts read from addresses with line terminators: addresses are printed Matrix ids.
- Concurrent calls of `addContacts`: its check and its insert are one step of the loop.
- UpdateUsers.WritesMayCompleteInAnyOrder: takes users and hash rows whose localparts make Matrix ids of this server, as do the other results about the history; for others `toMatrixId` throws in the middle of the job.
- AmqpShutdown.DisconnectedExactly: suspended calls resume in any order, some of which the microtask queue excludes (a rejected attempt's callback, for one, runs before another call's cleanup ends), so not every run that it finds occurs.
- Request bodies and answers with values of other types than declared, except submitted tokens that are lists and
  alternative peppers that cannot be spread.
- UpdateUsers.Tables.Update: takes the rows of `updateHash` as one write; that the pool adds exactly them in every order is `UpdateHash.UpdatesComplete`.
- EmailSessions.ValidRowsWereProven: the clean-up job only deletes expired tokens, so token deletions are modelled as arbitrary.
- HashGenerations.TwoGenerations: its only-if half is for runs without unbinds, because an unbind can take a lost row away again; runs with failed rotations are in `HashGenerations.OutsideExactlyWhenStranded`.
