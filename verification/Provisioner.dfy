/** The provisioner's conditional writes and record handler
    (src/projects_provisioner/handler.py). */
module Provisioner {
  import opened Text
  import opened Clock
  import opened Domain
  import opened Dynamo
  import opened UpdateExpression
  import opened Store
  import opened Layout
  import opened Client

  /** `sorted(m.items())`: by key, keys being distinct. */
  method SortedItems(m: map<string, Value>) returns (entries: Entries)
    ensures Enumerates(entries, m)
    ensures Sorted(entries)
  {
    hide Less, Enumerates;
    EmptyEnumeration(m);
    entries := [];
    var left := m.Keys;
    while left != {}
      invariant left <= m.Keys && Enumerates(entries, Without(m, left)) && Sorted(entries)
      invariant forall i, k :: 0 <= i < |entries| && k in left ==> Less(entries[i].0, k)
      decreases |left|
    {
      LeastExists(left);
      var key :| key in left && forall k :: k in left ==> k == key || Less(key, k);
      TakeLeast(m, left, entries, key);
      entries := entries + [(key, m[key])];
      left := left - {key};
    }
    assert Without(m, {}) == m;
  }

  ghost function Without(m: map<string, Value>, left: set<string>): map<string, Value> {
    map k | k in m && k !in left :: m[k]
  }

  lemma {:induction false} EmptyEnumeration(m: map<string, Value>)
    ensures Enumerates([], Without(m, m.Keys))
  {
  }

  ghost predicate Sorted(entries: Entries) {
    forall i, j :: 0 <= i < j < |entries| ==> Less(entries[i].0, entries[j].0)
  }

  /** One pass of `sorted`: the least key left goes to the end. */
  lemma {:induction false} TakeLeast(m: map<string, Value>, left: set<string>, entries: Entries, key: string)
    requires key in left && left <= m.Keys && Enumerates(entries, Without(m, left))
    ensures Enumerates(entries + [(key, m[key])], Without(m, left - {key}))
  {
    var (next, rest) := (entries + [(key, m[key])], Without(m, left - {key}));
    assert next[|entries|].0 == key;
    forall k | k in rest ensures exists i :: 0 <= i < |next| && next[i].0 == k {
      if k != key {
        assert k in Without(m, left);
        var i :| 0 <= i < |entries| && entries[i].0 == k;
        assert next[i].0 == k;
      }
    }
  }

  /** What a transition does to one item. */
  function UpdatedItem(item: Item, target: Status, now: Instant, extra: Item): Item {
    item["status" := S(StatusValue(target))]["updatedAt" := S(Iso(now))] + extra
  }

  predicate HasStatusValue(item: Item, status: Status) {
    Holds(Equals("status", S(StatusValue(status))), item)
  }

  /** A status write on the rows: the item of `id`, if its status is `from`, gets the status
      `to`, the time and exactly the extra attributes, and keeps all others; no other row
      changes. The answer says whether it did, as far as the fault lets it. */
  ghost predicate IsMove(before: Rows, after: Rows, r: TransitionResult, fault: Fault, id: string, from: string,
                         to: string, now: Instant, extra: Item)
  {
    var key := Key("PROJECT#" + id, "META");
    var judged := key in before && "status" in before[key] && before[key]["status"] == S(from);
    && after == (if judged && !(fault.Break? && !fault.applied)
                 then before[key := before[key]["status" := S(to)]["updatedAt" := S(Iso(now))] + extra]
                 else before)
    && r == if fault.Break? then TransitionRaised else Done(judged && !fault.Resent?)
  }

  class ProjectStatusStore {
    const client: Table

    constructor (client: Table)
      ensures this.client == client
    {
      this.client := client;
    }

    /** Builds the update expression and issues it. When `extra` names neither a key, nor
        `status`, nor `updatedAt`, the item moves to `target` and gains exactly `extra`, if
        its status is `expected`; otherwise the table rejects the call and it raises. */
    method Transition(id: string, expected: Status, target: Status, extra: Item, now: Instant, fault: Fault)
      returns (r: TransitionResult)
      modifies client`rows
      ensures Clashes(extra) ==> r == TransitionRaised && client.rows == old(client.rows)
      ensures !Clashes(extra) ==>
                var item := ItemAt(old(client.rows), RecordKey(id));
                && r == TransitionOutcome(RespondUpdate(HasStatusValue(item, expected), fault))
                && client.rows == if UpdateTakesEffect(HasStatusValue(item, expected), fault)
                                  then old(client.rows)[RecordKey(id) := UpdatedItem(item, target, now, extra)]
                                  else old(client.rows)
    {
      hide EvalUpdate, EvalCondition, Join, Iso, StatusValue, Enumerates, RecordKey, ClauseAt, NameAt, ValueAt;
      var names: NameMap := map["#s" := "status", "#u" := "updatedAt"];
      var values: ValueMap := map[":expected" := S(StatusValue(expected)), ":target" := S(StatusValue(target)),
                                  ":now" := S(Iso(now))];
      var assignments := FIXED_CLAUSES;
      var entries := SortedItems(extra);
      InitialPlaceholders(names, values, entries, expected, target, now);
      assert assignments == ClausesUpTo(0);
      for index := 0 to |entries|
        invariant Defines(names, values, entries, index, S(StatusValue(target)), S(Iso(now)))
        invariant ":expected" in values && values[":expected"] == S(StatusValue(expected))
        invariant assignments == ClausesUpTo(index)
        invariant client.rows == old(client.rows)
      {
        PlaceholdersStayDefined(names, values, entries, index, S(StatusValue(target)), S(Iso(now)),
                                S(StatusValue(expected)));
        names := names[NameAt(index) := entries[index].0];
        values := values[ValueAt(index) := entries[index].1];
        assignments := assignments + [ClauseAt(index)];
      }
      ghost var item := ItemAt(client.rows, RecordKey(id));
      CompilationCorrect(names, values, entries, extra, S(StatusValue(target)), S(Iso(now)), item);
      ConditionMeaning(names, values, expected, item);
      var response := client.UpdateItem(RecordKey(id), "SET " + Join(assignments, ", "), "#s = :expected", names,
                                        values, fault);
      match response
      case Updated => r := Done(true);
      case ConditionFailed => r := Done(false);
      case UpdateFailed(_) => r := TransitionRaised;
    }

    method Begin(id: string, now: Instant, fault: Fault, ghost db: Db) returns (r: TransitionResult)
      requires client.rows == Encode(db)
      modifies client`rows
      ensures IsMove(old(client.rows), client.rows, r, fault, id, "CREATED", "PROVISIONING", now, map[])
      ensures r == BeginCall(db, id, now, fault).1 && client.rows == Encode(BeginCall(db, id, now, fault).0)
    {
      hide Encode, RecordItem, StatusValue, Iso, TransitionCall;
      EnumTexts("");
      ExtraDoesNotClash(NoExtra);
      TransitionIsCall(db, id, CREATED, PROVISIONING, now, NoExtra, fault);
      r := Transition(id, CREATED, PROVISIONING, map[], now, fault);
    }

    /** Stores the endpoint when the result has a non-empty one. */
    method Complete(id: string, endpoint: Option<string>, now: Instant, fault: Fault, ghost db: Db)
      returns (r: TransitionResult)
      requires client.rows == Encode(db)
      modifies client`rows
      ensures IsMove(old(client.rows), client.rows, r, fault, id, "PROVISIONING", "READY", now,
                     if endpoint.Some? && endpoint.value != "" then map["endpoint" := S(endpoint.value)] else map[])
      ensures r == FinishCall(db, id, Success(endpoint), now, fault).1
      ensures client.rows == Encode(FinishCall(db, id, Success(endpoint), now, fault).0)
    {
      hide Encode, RecordItem, StatusValue, Iso, TransitionCall;
      var extra: Item := if endpoint.Some? && endpoint.value != "" then map["endpoint" := S(endpoint.value)] else map[];
      EnumTexts("");
      ExtraDoesNotClash(FinishExtra(Success(endpoint)));
      TransitionIsCall(db, id, PROVISIONING, READY, now, FinishExtra(Success(endpoint)), fault);
      r := Transition(id, PROVISIONING, READY, extra, now, fault);
    }

    /** Stores the reason cut to 500 characters, never empty. */
    method Fail(id: string, reason: string, now: Instant, fault: Fault, ghost db: Db) returns (r: TransitionResult)
      requires client.rows == Encode(db)
      modifies client`rows
      ensures IsMove(old(client.rows), client.rows, r, fault, id, "PROVISIONING", "FAILED", now,
                     map["failureReason" := S(if reason == "" then "unknown error"
                                              else if |reason| <= 500 then reason else reason[..500])])
      ensures r == FinishCall(db, id, Failure(reason), now, fault).1
      ensures client.rows == Encode(FinishCall(db, id, Failure(reason), now, fault).0)
    {
      hide Encode, RecordItem, StatusValue, Iso, TransitionCall;
      var cut := if |reason| > MAX_FAILURE_REASON_LENGTH then reason[..MAX_FAILURE_REASON_LENGTH] else reason;
      var extra: Item := map["failureReason" := S(if cut == "" then "unknown error" else cut)];
      EnumTexts("");
      ExtraDoesNotClash(FinishExtra(Failure(reason)));
      TransitionIsCall(db, id, PROVISIONING, FAILED, now, FinishExtra(Failure(reason)), fault);
      r := Transition(id, PROVISIONING, FAILED, extra, now, fault);
    }
  }

  // ---- proofs for the builder ----------------------------------------------------------------

  lemma {:induction false} InitialPlaceholders(names: NameMap, values: ValueMap, entries: Entries, expected: Status,
                                               target: Status, now: Instant)
    requires names == map["#s" := "status", "#u" := "updatedAt"]
    requires values == map[":expected" := S(StatusValue(expected)), ":target" := S(StatusValue(target)),
                           ":now" := S(Iso(now))]
    ensures Defines(names, values, entries, 0, S(StatusValue(target)), S(Iso(now)))
    ensures ":expected" in values && values[":expected"] == S(StatusValue(expected))
  {
    hide Iso, StatusValue;
    assert "#s"[1] != "#u"[1];
    assert |":expected"| == 9 && |":target"| == 7 && |":now"| == 4;
  }

  /** One more entry's placeholders disturb none of the earlier ones. */
  lemma {:induction false} PlaceholdersStayDefined(names: NameMap, values: ValueMap, entries: Entries, index: nat,
                                                   target: Value, now: Value, expected: Value)
    requires index < |entries| && Defines(names, values, entries, index, target, now)
    requires ":expected" in values && values[":expected"] == expected
    ensures var (names', values') := (names[NameAt(index) := entries[index].0],
                                      values[ValueAt(index) := entries[index].1]);
            && Defines(names', values', entries, index + 1, target, now)
            && ":expected" in values' && values'[":expected"] == expected
    ensures ClausesUpTo(index) + [ClauseAt(index)] == ClausesUpTo(index + 1)
  {
    hide NameAt, ValueAt, ClauseAt;
    forall i: nat | i <= index
      ensures i != index ==> NameAt(i) != NameAt(index) && ValueAt(i) != ValueAt(index)
      ensures NameAt(index) != "#s" && NameAt(index) != "#u"
      ensures ValueAt(index) != ":expected" && ValueAt(index) != ":target" && ValueAt(index) != ":now"
    {
      PlaceholdersDistinct(index, if i == index then index + 1 else i);
    }
  }

  lemma {:induction false} ConditionMeaning(names: NameMap, values: ValueMap, expected: Status, item: Item)
    requires "#s" in names && names["#s"] == "status"
    requires ":expected" in values && values[":expected"] == S(StatusValue(expected))
    ensures EvalCondition("#s = :expected", names, values, item) == Some(HasStatusValue(item, expected))
  {
    hide ParseClause, StatusValue;
    FixedClauseShapes();
  }

  lemma {:induction false} ExtraDoesNotClash(extra: Extra)
    ensures !Clashes(ExtraItem(extra))
  {
    assert |"endpoint"| == 8 && |"failureReason"| == 13 && |"status"| == 6 && |"updatedAt"| == 9 && |"PK"| == 2
           && |"SK"| == 2;
  }

  /** The attribute-level write on the encoded rows is the typed one. */
  lemma {:induction false} TransitionIsCall(db: Db, id: string, expected: Status, target: Status, now: Instant,
                                            extra: Extra, fault: Fault)
    ensures var item := ItemAt(Encode(db), RecordKey(id));
            var (db', r) := TransitionCall(db, id, expected, target, now, extra, fault);
            && r == TransitionOutcome(RespondUpdate(HasStatusValue(item, expected), fault))
            && Encode(db') == if UpdateTakesEffect(HasStatusValue(item, expected), fault)
                              then Encode(db)[RecordKey(id) := UpdatedItem(item, target, now, ExtraItem(extra))]
                              else Encode(db)
  {
    hide Encode, RecordItem, ExtraItem, StatusValue, Iso, RecordKey, WithStatus;
    StatusOnRows(db, id, expected);
    if HasStatus(db, id, expected) { TransitionOnRows(db, id, target, now, extra); }
  }

  // ---- the record handler -----------------------------------------------------------------------

  /** A raw stream record. */
  datatype RawRecord = RawRecord(eventName: string, newImage: Option<Item>)

  /** The handler's four filters. */
  predicate Passes(record: RawRecord) {
    && record.eventName == "INSERT"
    && record.newImage.Some? && record.newImage.value != map[]
    && TextOf(record.newImage.value, "entity") == Some("PROJECT")
    && TextOf(record.newImage.value, "status") == Some("CREATED")
  }

  /** What handling came to. Raising marks the record failed for the batch. */
  datatype Handled = Ignored | AlreadyHandled | Finished(recorded: bool) | HandlerRaised

  /** Python's `str` of an attribute, whatever its type; None where it is missing. */
  function Shown(image: Item, attribute: string): Option<string> {
    if attribute !in image then None
    else match image[attribute] case S(s) => Some(s) case Other(_, text) => Some(text)
  }

  /** The image has an id and a known type. */
  predicate IsReadable(image: Item) {
    Shown(image, "projectId").Some? && Shown(image, "type").Some? && ParseType(Shown(image, "type").value).Some?
  }

  /** What the provision request needs besides, read after the begin write. */
  predicate HasRequest(image: Item) {
    Shown(image, "name").Some? && Shown(image, "ownerId").Some?
  }

  datatype Request = Request(projectId: string, name: string, kind: ProjectType, ownerId: string)

  function RequestOf(image: Item): Request
    requires IsReadable(image) && HasRequest(image)
  {
    Request(Shown(image, "projectId").value, Shown(image, "name").value,
            ParseType(Shown(image, "type").value).value, Shown(image, "ownerId").value)
  }

  /** The registered implementations, with the requests they have been called with. */
  class Provisioners {
    var calls: seq<Request>

    constructor ()
      ensures calls == []
    {
      calls := [];
    }

    /** `outcome` is what the implementation comes to. */
    method Provision(request: Request, outcome: Provisioned) returns (r: Provisioned)
      modifies this
      ensures calls == old(calls) + [request] && r == outcome
    {
      calls := calls + [request];
      r := outcome;
    }
  }

  /** What is stored of an outcome besides status and time. */
  function Outcome(outcome: Provisioned): Item {
    match outcome
    case Success(Some(endpoint)) => if endpoint != "" then map["endpoint" := S(endpoint)] else map[]
    case Success(None) => map[]
    case Failure("") => map["failureReason" := S("unknown error")]
    case Failure(message) => map["failureReason" := S(if |message| > 500 then message[..500] else message)]
  }

  /** The handler on the abstract table: a begin write on `db`, then, when it moved the
      record, a finishing write on the table other clients left. */
  function HandleSteps(db: Db, meanwhile: Db, id: string, hasRequest: bool, outcome: Provisioned,
                       begun: Instant, ended: Instant, beginFault: Fault, finishFault: Fault)
    : (Db, Handled)
  {
    var (db', r) := BeginCall(db, id, begun, beginFault);
    match r
    case TransitionRaised => (db', HandlerRaised)
    case Done(moved) =>
      if !moved then (db', AlreadyHandled)
      else if !hasRequest then (db', HandlerRaised)
      else
        var (db'', r') := FinishCall(meanwhile, id, outcome, ended, finishFault);
        (db'', match r' case TransitionRaised => HandlerRaised case Done(recorded) => Finished(recorded))
  }

  /** Processes one stream record; other clients leave `meanwhile` while it runs. It calls
      `provision` once if its own begin write moved the record, and not otherwise. Without
      faults, a CREATED project nobody else can settle ends READY or FAILED as provisioning
      came out, or was deleted in between and nothing is written. */
  method RecordHandler(store: ProjectStatusStore, provisioners: Provisioners, record: RawRecord, outcome: Provisioned,
                       begun: Instant, ended: Instant, beginFault: Fault, meanwhile: Db, finishFault: Fault,
                       ghost db: Db)
    returns (handled: Handled)
    requires store.client.rows == Encode(db)
    modifies store.client`rows, provisioners
    ensures !Passes(record) ==> handled == Ignored && store.client.rows == Encode(db)
    ensures Passes(record) && !IsReadable(record.newImage.value) ==>
              handled == HandlerRaised && store.client.rows == Encode(db)
    ensures !Passes(record) || !IsReadable(record.newImage.value) ==> provisioners.calls == old(provisioners.calls)
    ensures Passes(record) && IsReadable(record.newImage.value) ==>
              var (image, id) := (record.newImage.value, Shown(record.newImage.value, "projectId").value);
              var (db', result) := HandleSteps(db, meanwhile, id, HasRequest(image), outcome, begun, ended, beginFault,
                                               finishFault);
              && handled == result && store.client.rows == Encode(db')
              && provisioners.calls == old(provisioners.calls)
                   + (if BeginCall(db, id, begun, beginFault).1 == Done(true) && HasRequest(image)
                      then [RequestOf(image)] else [])
    ensures provisioners.calls != old(provisioners.calls) ==>
              var id := Shown(record.newImage.value, "projectId").value;
              var r := if handled.Finished? then Done(handled.recorded) else TransitionRaised;
              IsMove(Encode(meanwhile), store.client.rows, r, finishFault, id, "PROVISIONING",
                     if outcome.Success? then "READY" else "FAILED", ended, Outcome(outcome))
    ensures Passes(record) && IsReadable(record.newImage.value) && beginFault.NoFault? && finishFault.NoFault? ==>
              var id := Shown(record.newImage.value, "projectId").value;
              HandledCleanly(db, meanwhile, id, HasRequest(record.newImage.value), outcome, begun, ended, handled,
                             store.client.rows)
  {
    hide Encode, TransitionCall, ParseType, FinishExtra, WithStatus, IsMove, HandledCleanly;
    if record.eventName != "INSERT" {
      return Ignored;
    }
    if record.newImage.None? || record.newImage.value == map[] {
      return Ignored;
    }
    var image := record.newImage.value;
    if TextOf(image, "entity") != Some("PROJECT") {
      return Ignored;
    }
    if TextOf(image, "status") != Some("CREATED") {
      return Ignored;
    }
    if !IsReadable(image) {
      return HandlerRaised;
    }
    var id := Shown(image, "projectId").value;
    HandleStepsCleanly(db, meanwhile, id, HasRequest(image), outcome, begun, ended);
    var moved := store.Begin(id, begun, beginFault, db);
    if moved.TransitionRaised? {
      return HandlerRaised;
    }
    if !moved.moved {
      return AlreadyHandled;
    }
    if !HasRequest(image) {
      return HandlerRaised;
    }
    var result := provisioners.Provision(RequestOf(image), outcome);
    store.client.OthersRun(Encode(meanwhile));
    var r: TransitionResult;
    match result {
      case Failure(message) => r := store.Fail(id, message, ended, finishFault, meanwhile);
      case Success(endpoint) => r := store.Complete(id, endpoint, ended, finishFault, meanwhile);
    }
    if r.TransitionRaised? {
      return HandlerRaised;
    }
    return Finished(r.moved);
  }

  /** The filters by attribute: an INSERT whose image is of a project and CREATED, both as
      string attributes. Each of the conditions counts. */
  lemma {:induction false} PassesExactly(record: RawRecord)
    ensures Passes(record) <==>
              && record.eventName == "INSERT" && record.newImage.Some?
              && var image := record.newImage.value;
                 && "entity" in image && image["entity"] == S("PROJECT")
                 && "status" in image && image["status"] == S("CREATED")
  {
  }

  /** What the handler reads of an image: before the begin write, an id and one of the three
      types; after it, a name and an owner, of any attribute type. */
  lemma {:induction false} ReadableExactly(image: Item)
    ensures IsReadable(image) <==>
              && "projectId" in image && "type" in image
              && Shown(image, "type").value in ["agent", "mcp", "web"]
    ensures HasRequest(image) <==> "name" in image && "ownerId" in image
    ensures forall attribute :: attribute in image && image[attribute].S? ==>
              Shown(image, attribute) == Some(image[attribute].s)
  {
    hide ParseType;
    if "type" in image { EnumTexts(Shown(image, "type").value); }
  }

  /** Handling of a record without faults, where `meanwhile` still has the project as this
      handling left it, or not at all. */
  ghost predicate HandledCleanly(db: Db, meanwhile: Db, id: string, hasRequest: bool, outcome: Provisioned,
                                 begun: Instant, ended: Instant, handled: Handled, rows: Rows)
  {
    && (!HasStatus(db, id, CREATED) ==> handled == AlreadyHandled && rows == Encode(db))
    && (HasStatus(db, id, CREATED) && hasRequest && HasStatus(meanwhile, id, PROVISIONING) ==>
          && handled == Finished(true)
          && rows == Encode(WithStatus(meanwhile, id, FinishStatus(outcome), ended, FinishExtra(outcome))))
    && (HasStatus(db, id, CREATED) && hasRequest && id !in meanwhile.records ==>
          handled == Finished(false) && rows == Encode(meanwhile))
    && (HasStatus(db, id, CREATED) && !hasRequest ==>
          handled == HandlerRaised && rows == Encode(WithStatus(db, id, PROVISIONING, begun, NoExtra)))
  }

  lemma {:induction false} HandleStepsCleanly(db: Db, meanwhile: Db, id: string, hasRequest: bool, outcome: Provisioned,
                                              begun: Instant, ended: Instant)
    ensures var (db', handled) := HandleSteps(db, meanwhile, id, hasRequest, outcome, begun, ended, NoFault, NoFault);
            HandledCleanly(db, meanwhile, id, hasRequest, outcome, begun, ended, handled, Encode(db'))
  {
    hide Encode, WithStatus;
  }

  /** Of the images the stream carries, the filters pass exactly the freshly inserted
      projects, and read off all the request needs; reservations never pass. */
  lemma {:induction false} FiltersMeaning(eventName: string, r: Record, k: string, reservation: Reservation)
    ensures Passes(RawRecord(eventName, Some(RecordItem(r)))) <==> eventName == "INSERT" && r.project.status == CREATED
    ensures IsReadable(RecordItem(r)) && HasRequest(RecordItem(r))
    ensures var p := r.project; RequestOf(RecordItem(r)) == Request(p.projectId, p.name, p.kind, p.ownerId)
    ensures !Passes(RawRecord(eventName, Some(ReservationItem(k, reservation))))
  {
    hide RecordItem, Iso, TypeValue, StatusValue, ParseType;
    RecordAttributes(r);
    EnumsRoundTrip(r.project.kind, r.project.status);
    EnumsRoundTrip(Agent, CREATED);
    CreatedValue(r.project.status);
    ReservationEntity(k, reservation);
  }

  lemma {:induction false} CreatedValue(s: Status)
    ensures StatusValue(s) == "CREATED" <==> s == CREATED
  {
    EnumsRoundTrip(Agent, s);
    EnumsRoundTrip(Agent, CREATED);
  }

  lemma {:induction false} ReservationEntity(k: string, r: Reservation)
    ensures TextOf(ReservationItem(k, r), "entity") == Some("NAME_RESERVATION")
    ensures "NAME_RESERVATION" != "PROJECT"
  {
    hide Iso;
    assert |"NAME_RESERVATION"| == 16;
  }
}
