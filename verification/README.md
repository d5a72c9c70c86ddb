# Projects service: a verified model

The service keeps customer projects in one DynamoDB table with two writers. The API creates a
project and a reservation of its name in one conditional transaction, and deletes both by a
consistent read followed by a second conditional transaction. The provisioner receives the
table's stream at least once and moves each project `CREATED -> PROVISIONING -> READY | FAILED`
with conditional updates. Owners page through their projects with opaque tokens.

This project models that behaviour and proves what the two writers, the paging loop and the
codecs keep, for every interleaving, fault, delivery schedule and input.

## How it is built

| layer | modules | what it holds |
|---|---|---|
| text | `Text`, `Regex`, `Names`, `Clock`, `Json`, `Base64` | code-point order, joining and splitting, pattern matching, name rules, timestamps, the two codecs |
| values | `Domain`, `Dynamo`, `Store`, `Outcomes` | projects; the table client's contract (conditions, transactions, faults); the table by meaning: records by id and reservations by name key; what each call answers and stores, written out |
| rows | `Layout`, `OwnerIndex`, `UpdateExpression`, `Client`, `Repository`, `Provisioner`, `Routes` | items and attributes as stored, the index, the SET expression language, and the classes whose methods change the table, each proved equal to its step on records and reservations |
| runs | `Protocol`, `Invariant`, `Linearizability`, `Lifecycle`, `Races`, `Scenarios` | the transition system of both writers, theorems over its runs, and concrete runs that end badly |
| both | `Refinement` | the methods' call sequences are runs of the transition system |
| listing | `Cursor`, `Listing`, `Paging` | tokens and listing sessions, on a changing and on a fixed table |

`Store.CreateCall`, `DeleteCall`, `BeginCall` and `FinishCall` are the joints. Each method of
`Repository`, `Provisioner` and `Routes` is proved to do these to the rows, through the encoding
`Layout.Encode`; `Protocol` interleaves the same functions as steps. `Refinement` proves that the
two operations of several calls, delete and the record handler, do in sequence what a run does
that has their steps with anyone else's in between, and end the same way.

One client call is one atomic step. What the environment decides is a parameter: a
`Dynamo.Fault` (no fault; a cancellation whose condition-failure reasons are honest; another
error raised, with the write applied or not; an answer lost and the call resent by the client
library, which makes an update that was applied come back as refused), the index's `QueryReply`
(any page cut the key order permits, with or without a trailing key), the provisioner's outcome,
the clock, uuid4's digits, and the table other clients leave between two calls of one operation.

## Results about the code worth knowing

* The bijection of records and reservations, the status path and single delivery of `provision`
  hold with every fault above. So does linearizability, of all answers that are true: a status
  update that was applied and then answered as refused is a false answer, and with it counted no
  order explains the history (`Scenarios.MisreportNotLinearizable`). Runs without such a resent
  update have no false answers.
* A project is left PROVISIONING exactly when its `begin` took effect, no finishing write did,
  and the invocation crashed, had a write raise, or was told that `begin` was refused. The
  handler's docstring (src/projects_provisioner/handler.py:20-22) names one such case, the failing
  FAILED write. The others are a failing READY write, a crash, and a `begin` that was applied but
  raised or, resent by the client the handler configures (src/projects_provisioner/handler.py:135-140),
  came back as refused. In that last case nothing crashes or raises and the record counts as
  processed (`Scenarios.StrandedProject`). No later delivery frees such a project, and after a
  lost `begin` `provision` is never called for it (`Lifecycle.StuckForever`, `LostBeginIsStuck`).
* The reservation-mismatch branch of `delete` cannot be taken when calls are cancelled only by
  their conditions. Under stranger cancellations it can be taken only when the record is already
  gone, so it never reports a real mismatch.
* A page token works for its owner exactly when the owner id takes at most 579 characters of
  JSON. Beyond that the service mints tokens it then refuses, and the owner never gets past the
  first page (`Cursor.MintedRoundTrip`, `Paging.LongOwnersStop`, `Scenarios.ListingBreaksOff`).
  A plain id of 580 characters or 97 accented letters is too long. Key ids from API Gateway are
  short; the service itself sets no bound.

## Model

| member | source | states |
|---|---|---|
| Linearizability.ReachableLinearizable | src/projects_api/repositories/projects.py:60-184 | in every reachable state the true answers given so far are those of one sequential, real-time-respecting history of an atomic store unique by name key, which ends in the stored records |
| Linearizability.StepExplained | src/projects_api/repositories/projects.py:89-171 | every step of either writer extends the linearization it found |
| Scenarios.AllAnswersLinearizable | src/projects_api/repositories/projects.py:60-184 | in a run without resent status updates every answer is true, hence in the linearized history |
| Scenarios.MisreportNotLinearizable | src/projects_provisioner/handler.py:120-124 | a run from the empty table whose begin write, resent by the client, is answered as refused: with that answer no order explains the history |
| Linearizability.CreateAgrees | src/projects_api/repositories/projects.py:89-118 | one create transaction, under any fault, is the store's create or reports nothing |
| Linearizability.DeleteAgrees | src/projects_api/repositories/projects.py:133-171 | the second step of a delete, with a possibly stale name, is the store's delete or reports nothing |
| Linearizability.TransitionAgrees | src/projects_provisioner/handler.py:111-124 | a conditional status update, under any fault, is the store's conditional move, or gives no true answer and did the move or nothing |
| Invariant.StepKeepsInv | src/projects_api/repositories/projects.py:60-171 | every step of either writer keeps the whole invariant: bijection, record shape, pending operations, invocations and statuses |
| Invariant.RunKeepsInv | src/projects_provisioner/handler.py:145-201 | every run keeps the invariant, and guarantees all other clients that ids are never reused and records keep their identity fields |
| Races.NamesAreUnique | src/projects_api/repositories/projects.py:65-107 | in every reachable state the name key is a bijection from records onto reservations, which agree on id, owner and creation time |
| Races.RowsPairUp | src/projects_api/repositories/projects.py:65-88 | the same of the stored rows: no record row without its reservation row at its own name key, no reservation row without its record row |
| Races.OneWinner | src/projects_api/repositories/projects.py:89-118 | of n creates competing for a free key exactly one wins and the n - 1 others are told it is taken, none unanswered, in every interleaving in which nobody deletes under that key and its creates meet no fault, whatever happens to other names |
| Races.AtMostOneWinner | src/projects_api/repositories/projects.py:89-118 | under any faults at most one wins, and none while the key is taken |
| Races.PlainCallsAnswer | src/projects_api/repositories/projects.py:60-184 | in every reachable state a call that meets no fault gives its caller an answer, except the read of a delete that goes on |
| Races.LosersChangeNothing | src/projects_api/repositories/projects.py:108-117 | a create that reports the name taken left the table unchanged, and the name was taken |
| Races.MismatchUnreachable | src/projects_api/repositories/projects.py:156-171 | the mismatch branch needs a cancellation not due to conditions and a record already gone |
| Races.FreedNameCanBeWon | src/projects_api/repositories/projects.py:133-155 | after a committed delete the next create of that key succeeds |
| Lifecycle.StatusPath | src/projects_provisioner/handler.py:69-124 | for every delivery schedule the statuses seen are a prefix of CREATED, PROVISIONING, then READY or FAILED, each edge once |
| Lifecycle.ProvisionedOnce | src/projects_provisioner/handler.py:160-201 | provision is called at most once per id; endpoint only when READY; a reason of 1 to 500 characters exactly when FAILED |
| Lifecycle.StuckExactly | src/projects_provisioner/handler.py:13-22 | with nothing running, PROVISIONING holds exactly of projects whose begin took effect, with no finishing write applied, in an invocation that crashed, raised or was told its begin was refused |
| Lifecycle.DeliveredProjectsFinish | src/projects_provisioner/handler.py:164-201 | once handling came back and nothing runs, a project is READY or FAILED exactly when not abandoned in this sense, or deleted; where no invocation crashed, raised or was misled none is abandoned |
| Lifecycle.StuckForever | src/projects_provisioner/handler.py:20-22 | in every run an abandoned project stays PROVISIONING until deleted, whatever is redelivered, and if not yet provisioned never is |
| Lifecycle.LostBeginIsStuck | src/projects_provisioner/handler.py:167-169 | a begin write applied but raised, or answered as refused, leaves the project PROVISIONING and never provisioned in every run that follows |
| Scenarios.StrandedProject | src/projects_provisioner/handler.py:120-124 | for every new project a run from the empty table in which that happens; with the resent update nothing crashed or raised |
| Lifecycle.NoResurrection | src/projects_provisioner/handler.py:111-124 | after a delete took effect no run brings the id back |
| Lifecycle.ProvisionerTouchesOwnRecord | src/projects_provisioner/handler.py:111-124 | a provisioner step adds and removes no key and changes no record but its own |
| Lifecycle.NeverCreatedAgain | src/projects_provisioner/handler.py:160-169 | once handling of an id came back, no run of both writers makes it CREATED again |
| Lifecycle.RedeliveryIsIdle | src/projects_provisioner/handler.py:145-169 | hence a later begin write for it, whoever wrote in between, changes neither table nor stream, provisions nothing and ends its invocation |
| Lifecycle.ReplaysAreIdle | src/projects_provisioner/handler.py:145-201 | a run of only such redeliveries, in any order and number and with any faults, leaves table, stream and provision calls as they were |
| Repository.ProjectRepository.Create | src/projects_api/repositories/projects.py:60-118 | without faults a taken name is told so, a free one with a fresh id is created and any other call raises; on success the rows gain exactly the two items, attribute by attribute; a taken name changes nothing |
| Outcomes.CreateAnswers | src/projects_api/repositories/projects.py:108-118 | what create answers under every fault: by the first cancellation reason, or by the message when there are none, and all else is raised |
| Outcomes.DeleteAnswers | src/projects_api/repositories/projects.py:156-171 | what delete's write answers under every fault: by the record's reason first, then by the reservation's |
| Repository.ProjectRepository.Get | src/projects_api/repositories/projects.py:175-184 | returns the stored project read back from its attributes, or that there is none |
| Repository.ProjectRepository.Delete | src/projects_api/repositories/projects.py:120-171 | read, then two conditional deletes on the table others left; without faults it succeeds exactly when the caller owned the project both times, and removes exactly the record's row and the row of its name |
| Repository.ProjectRepository.ListByOwner | src/projects_api/repositories/projects.py:186-223 | sends one query, descending, for the owner's partition, the project prefix, the limit and the cursor; a permitted reply is a page of the owner's projects; a ValidationException is InvalidCursor exactly if a cursor was sent |
| Repository.CleanDelete | src/projects_api/repositories/projects.py:130-155 | the conditional delete with a name read earlier still deletes exactly the owner's project |
| Layout.ToProjectRoundTrip | src/projects_api/repositories/projects.py:226-237 | reading back a stored record gives the project stored |
| Layout.RowsInBijection | src/projects_api/repositories/projects.py:66-88 | in the rows of a consistent table records and reservations lead to each other |
| Layout.CreateConditionsOnRows | src/projects_api/repositories/projects.py:91-106 | the two attribute conditions of create mean name free and id free |
| Layout.CreateOnRows | src/projects_api/repositories/projects.py:66-105 | the two puts store exactly the new record and reservation |
| Layout.DeleteConditionsOnRows | src/projects_api/repositories/projects.py:137-155 | the two conditions of delete mean owned by the caller and reserved for this id |
| Layout.DeleteOnRows | src/projects_api/repositories/projects.py:133-155 | the two deletes remove exactly the record and its reservation |
| Layout.TransitionOnRows | src/projects_provisioner/handler.py:112-119 | an attribute update of a stored item is the typed status change |
| UpdateExpression.CompilationCorrect | src/projects_provisioner/handler.py:100-119 | evaluating the built SET text with its names and values is the direct map update; it is rejected exactly when the map names a key, status or updatedAt |
| UpdateExpression.PlaceholdersDistinct | src/projects_provisioner/handler.py:107-110 | generated placeholders never collide, with each other or the fixed ones |
| Provisioner.SortedItems | src/projects_provisioner/handler.py:107 | the sorted entries enumerate the map, keys strictly increasing |
| Provisioner.ProjectStatusStore.Transition | src/projects_provisioner/handler.py:92-124 | the loop builds an expression that moves the item to the target with exactly the extra attributes if its status is the expected one |
| Provisioner.ProjectStatusStore.Begin | src/projects_provisioner/handler.py:69-73 | an item whose status is CREATED becomes PROVISIONING with the time and nothing else changed; the answer under every fault |
| Provisioner.ProjectStatusStore.Complete | src/projects_provisioner/handler.py:75-80 | an item whose status is PROVISIONING becomes READY with the time and the result's endpoint when non-empty, its other attributes as they were |
| Provisioner.ProjectStatusStore.Fail | src/projects_provisioner/handler.py:82-90 | the same to FAILED with the reason cut to 500 characters, or "unknown error" for an empty one |
| Provisioner.RecordHandler | src/projects_provisioner/handler.py:145-201 | filtered records change nothing; others are a begin write and, if it moved the record, one call of provision and a finishing write that stores its outcome; without faults a CREATED project ends as provisioning came out, or was deleted and nothing is written |
| Provisioner.PassesExactly | src/projects_provisioner/handler.py:147-162 | the filters by attribute, each of them needed |
| Provisioner.ReadableExactly | src/projects_provisioner/handler.py:164-176 | what must be in an image before the begin write, and what after it |
| Outcomes.BeginStores | src/projects_provisioner/handler.py:69-73 | what begin leaves in the record, and its answer |
| Outcomes.FinishStores | src/projects_provisioner/handler.py:75-90 | what each outcome of provisioning leaves in the record: status, time, endpoint, reason |
| Refinement.HandlerGoesOn | src/projects_provisioner/handler.py:164-201 | in every run with this handling's steps and any others between them, table and ending are those of the handler's method, the project is PROVISIONING or gone when the finishing write comes, and provision was first called here |
| Refinement.HandlerStops | src/projects_provisioner/handler.py:164-169 | the same of handling that ends with its begin write |
| Refinement.FiltersAreAdmission | src/projects_provisioner/handler.py:147-164 | the transition system starts handling exactly what the handler's filters pass |
| Refinement.DeleteGoesOn | src/projects_api/repositories/projects.py:130-171 | in every run, a delete's read and write with any steps between them leave the table and give the answer of the method, on a table the method may rely on |
| Refinement.DeleteStops | src/projects_api/repositories/projects.py:130-132 | the same of a delete that ends with its read |
| Provisioner.FiltersMeaning | src/projects_provisioner/handler.py:147-176 | of the images the writers store, the filters pass exactly inserted CREATED projects and never reservations, and a passed image has all the handler reads |
| Provisioner.TransitionIsCall | src/projects_provisioner/handler.py:111-124 | the attribute-level conditional update of encoded rows is the typed transition |
| Store.BoundedReason | src/projects_provisioner/handler.py:84 | a stored failure reason has 1 to 500 characters, and is the message itself or its first 500 characters unless the message is empty |
| Listing.ConcurrentListing | src/projects_api/api/routes/projects.py:59-89 | during any run, following tokens returns no project twice, none of another owner, newest first, and after a null token exactly once every project of the owner that stayed |
| Listing.NeverTwice | src/projects_api/repositories/projects.py:199-223 | pages met on changing tables never repeat a project |
| Listing.NeverMissed | src/projects_api/repositories/projects.py:199-223 | a finished session lists every project that stayed exactly once |
| Listing.SortKeyOrder | src/projects_api/repositories/projects.py:78-79 | order of sort keys is order by instant, then id |
| Paging.FixedTableListing | src/projects_api/api/routes/projects.py:83-89 | on a fixed table at most one request more than there are projects, and a finished session is exactly the owner's projects, strictly newest first, for any limits and page cuts |
| Paging.SessionContinues | src/projects_api/api/routes/projects.py:83-89 | an unfinished session can go on, whatever the table has become, for owner ids within the bound |
| Paging.TokenAccepted | src/projects_api/api/routes/projects.py:83-88 | a returned token is accepted exactly when the owner id takes at most 579 characters of JSON |
| Paging.LongOwnersStop | src/projects_api/api/pagination.py:17-28 | a longer owner id never gets past the first page |
| Paging.LongOwnerMissesProjects | src/projects_api/api/routes/projects.py:83-88 | with two projects such an owner does get a token that is then refused, one project unseen |
| Scenarios.ListingBreaksOff | src/projects_api/api/routes/projects.py:83-88 | a run from the empty table to such a listing, for any two new projects of such an owner |
| OwnerIndex.ReplyIsPage | src/projects_api/repositories/projects.py:199-223 | a permitted reply to the issued query is a gapless page of the owner's stored projects, its last key the key of its last project |
| OwnerIndex.SelectsProjects | src/projects_api/repositories/projects.py:199-211 | the key condition selects exactly the owner's project rows behind the start key, and no reservation |
| OwnerIndex.OwnerQuerySelects | src/projects_api/repositories/projects.py:196-211 | of any rows, also of other kinds in the owner's partition, the query selects exactly the owner's with a project's sort key behind the cursor |
| Cursor.CursorRoundTrip | src/projects_api/api/pagination.py:20-41 | a key survives encode and decode exactly when it is the caller's and its JSON is at most 768 bytes |
| Cursor.RoundTripWith | src/projects_api/api/pagination.py:20-41 | the same with any JSON parser that reads back what was printed |
| Cursor.MintedRoundTrip | src/projects_api/api/pagination.py:20-41 | for the cursor of a stored project the bound is exactly 579 characters of escaped owner id |
| Cursor.PlainOwnerRoundTrip | src/projects_api/api/pagination.py:17-28 | hence every owner id of at most 579 unescaped ASCII characters, and no longer one |
| Cursor.EscapedOwnerFails | src/projects_api/api/pagination.py:17-28 | an owner id of n characters that JSON escapes to six, such as accented letters, works exactly for n at most 96 |
| Cursor.CursorStaysHome | src/projects_api/api/pagination.py:26-41 | with any JSON parser, however lenient, an accepted token lies in the caller's own partition and no other owner's |
| Cursor.AcceptedExactly | src/projects_api/api/pagination.py:26-41 | with any JSON parser, exactly which tokens are accepted and as which key |
| Cursor.KeyTextIs | src/projects_api/api/pagination.py:21 | the printed JSON, character by character up to string escapes |
| Cursor.KeysAreSorted | src/projects_api/api/pagination.py:21 | of all listings of the key's attributes the printed one, and no other, has its names in increasing order |
| Base64.DecodeEncode | src/projects_api/api/pagination.py:20-31 | every byte string survives encoding, stripping, re-padding and decoding |
| Base64.RepadEncode | src/projects_api/api/pagination.py:22-29 | re-adding `-len % 4` equals signs gives back the padded form |
| Base64.EncodeShape | src/projects_api/api/pagination.py:22 | stripping removes exactly the padding; the token has the URL-safe alphabet and length ceil(4n/3) |
| Base64.GroupSpells | src/projects_api/api/pagination.py:22 | a group's letters spell the 24-bit number of its bytes, in base 64 (section 4 of RFC 4648) |
| Base64.EncodeInjective | src/projects_api/api/pagination.py:20-22 | different byte strings have different tokens |
| Base64.DecodableTokens | src/projects_api/api/pagination.py:29-31 | a token of URL-safe letters decodes exactly when its length is not 1 modulo 4 |
| Json.LoadsPrint | src/projects_api/api/pagination.py:21-31 | parsing undoes compact printing for every nesting and every string |
| Json.StringRoundTrip | src/projects_api/api/pagination.py:21 | every string, with escapes and surrogate pairs, reads back up to its closing quote |
| Json.ShortEscapes | src/projects_api/api/pagination.py:21 | printable ASCII stands for itself and seven characters have a short escape |
| Json.LongEscapes | src/projects_api/api/pagination.py:21 | all others are one hexadecimal escape or a surrogate pair |
| Json.PrintIsAscii | src/projects_api/api/pagination.py:21 | printed JSON is printable ASCII, so a byte is a character |
| Routes.ProjectsApi.CreateProject | src/projects_api/api/routes/projects.py:33-45 | an invalid name changes nothing; with a fresh id and no fault a taken name is a conflict and a free one succeeds, storing and returning the project with the id, words, type, owner and time given, and its location |
| Routes.ProjectsApi.ListProjects | src/projects_api/api/routes/projects.py:47-89 | refuses, without a query, exactly a limit outside 1 to 100 or a token not accepted; asks for 20 by default; otherwise one answer of a listing session |
| Routes.ProjectsApi.GetProject | src/projects_api/api/routes/projects.py:101-112 | malformed, unknown and foreign ids give the same 404; success exactly for the owner |
| Routes.ProjectsApi.DeleteProject | src/projects_api/api/routes/projects.py:124-136 | the same 404, which under any fault removes nothing; success exactly when the caller owned the project at read and at write |
| Names.ValidateNameMeaning | src/projects_api/domain/validation.py:24-36 | accepts exactly what has length 3 to 63 and matches the pattern once normalised; the result is a fixed point with the same key |
| Names.NamePatternLanguage | src/projects_api/domain/validation.py:12-14 | the pattern, with its character classes by code point, has as its language: allowed characters only, alphanumeric at both ends |
| Names.NormaliseJoinsWords | src/projects_api/domain/validation.py:19-21 | strip and collapse is split and join |
| Names.WordsAreRuns | src/projects_api/domain/validation.py:16-21 | words are the runs of characters between white space |
| Names.SpacesAreWhiteSpace | src/projects_api/domain/validation.py:16-21 | white space is exactly the code points of `\s` |
| Names.LowerMeaning | src/projects_api/domain/validation.py:39-41 | the key has no upper-case letter and differs only in case |
| Names.NormaliseIdempotent | src/projects_api/domain/validation.py:19-21 | normalising twice is normalising once |
| Names.AcceptedNamesCollide | src/projects_api/domain/validation.py:24-41 | two accepted raw names share a key exactly when their lists of words agree ignoring case, for any lower-casing that is right on ASCII |
| Names.SameKeySameWords | src/projects_api/domain/validation.py:39-41 | the same of all raw names, with letters outside ASCII compared as they are |
| Domain.ProjectIdPatternLanguage | src/projects_api/domain/models.py:48-55 | the id pattern, its classes written out, has the checked shape as its language |
| Domain.NewProject | src/projects_api/domain/models.py:71-82 | the project has the id made of uuid4's digits, the name's words, status CREATED and both timestamps now; its name is a fixed point with the same key |
| Domain.FreshIdsDiffer | src/projects_api/domain/models.py:48-55 | different digits give different ids |
| Domain.EnumTexts | src/projects_api/domain/models.py:14-26 | the texts of types and statuses, and that no others are read |
| Clock.IsoOrder | src/projects_api/domain/models.py:72-82 | order of timestamp texts is order in time, and equal texts are equal times |
| Clock.IsoRoundTrip | src/projects_api/repositories/projects.py:65 | timestamps have 25 characters and read back |
| Clock.IsoText | src/projects_api/domain/models.py:72-82 | the timestamp's text position by position, in UTC |

## Left out

- Names.SameKeySameWords: lower-casing is ASCII only; for raw names that are not accepted Python's
  `lower` may identify more. `Names.AcceptedNamesCollide` has no such limit.
- Cursor.DecodeCursor: its JSON parser is for ASCII bytes, strings and objects, which is all the
  encoder prints. `Cursor.CursorStaysHome` and `Cursor.RoundTripWith` hold for any parser.
  Strings with lone surrogates are not modelled. No claim is made that a key has only one token.
- OwnerIndex.IsReply: the index is a view of the table. Replication lag, and the tie-break among
  equal sort keys (projects of one owner never have equal ones), are not modelled. Listing is
  not part of the linearizability claim.
- Client.Table.UpdateItem: DynamoDB's check that every placeholder defined is also used is not
  modelled; the builder uses all of them.
- Layout.ToProject: timestamps are read only in the whole-second UTC form the service writes.
- Routes.ProjectsApi.ListProjects: type conversion of query parameters is left to the framework.
- Repository.ProjectRepository.Delete: other clients run at one point, between the read and the
  write, as any table that respects what they guarantee.
- Dynamo.RespondUpdate: of the client library's retries only the two effects a caller can notice
  are modelled: a call that raises after having been applied, and an update that was applied and
  comes back as refused.
- The provisioner implementations are stubs; `provision` is an arbitrary outcome.
- The global `_store`, batch responses, stream filter and retry settings: any record may be
  delivered any number of times, in any order, to any number of concurrent invocations.
- Web framework, identity lookup, error bodies, logging, metrics and infrastructure.
