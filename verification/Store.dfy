/** The table by meaning: project records and name reservations, and what each
    repository or provisioner call does to them. */
module Store {
  import opened Text
  import opened Names
  import opened Clock
  import opened Domain
  import opened Dynamo

  /** A project item, with the attributes only the provisioner sets. */
  datatype Record = Record(project: Project, endpoint: Option<string>, failureReason: Option<string>)

  datatype Reservation = Reservation(projectId: string, ownerId: string, createdAt: Instant)

  /** `records` by project id, `names` by uniqueness key. `inserted` is a history
      variable: the ids whose create has ever taken effect. */
  datatype Db = Db(records: map<string, Record>, names: map<string, Reservation>, inserted: set<string>)

  const EMPTY_DB := Db(map[], map[], {})

  function OwnReservation(p: Project): Reservation {
    Reservation(p.projectId, p.ownerId, p.createdAt)
  }

  /** The record's reservation sits at its own name key and agrees with it. */
  ghost predicate Reserved(db: Db, id: string)
    requires id in db.records
  {
    var p := db.records[id].project;
    && p.projectId == id && id in db.inserted
    && NameKey(p.name) in db.names && db.names[NameKey(p.name)] == OwnReservation(p)
  }

  /** The reservation's project exists and has this name key. */
  ghost predicate Held(db: Db, key: string)
    requires key in db.names
  {
    db.names[key].projectId in db.records && NameKey(db.records[db.names[key].projectId].project.name) == key
  }

  /** Records and reservations are in bijection. */
  ghost predicate Consistent(db: Db) {
    (forall id :: id in db.records ==> Reserved(db, id)) && (forall key :: key in db.names ==> Held(db, key))
  }

  // ---- create ----------------------------------------------------------------------

  datatype CreateResult = Created | NameTaken | CreateRaised

  /** Position 0 is the reservation, position 1 the record. */
  function CreateConditions(db: Db, p: Project): seq<bool> {
    [NameKey(p.name) !in db.names, p.projectId !in db.records]
  }

  function WithProject(db: Db, p: Project): Db {
    Db(db.records[p.projectId := Record(p, None, None)],
       db.names[NameKey(p.name) := OwnReservation(p)],
       db.inserted + {p.projectId})
  }

  function CreateOutcome(response: WriteResponse): CreateResult {
    match response
    case Committed => Created
    case Canceled(reasons, message) =>
      if reasons != [] && reasons[0] == ConditionalCheckFailed then NameTaken
      else if reasons == [] && Contains(message, CHECK_FAILED) then NameTaken
      else CreateRaised
    case Failed(_) => CreateRaised
  }

  function CreateCall(db: Db, p: Project, fault: Fault): (Db, CreateResult) {
    var conditions := CreateConditions(db, p);
    (if TakesEffect(conditions, fault) then WithProject(db, p) else db,
     CreateOutcome(Respond(conditions, fault)))
  }

  // ---- get and delete ----------------------------------------------------------------

  datatype GetResult = Found(project: Project) | Missing | GetRaised

  function GetCall(db: Db, id: string, fault: Fault): GetResult {
    if fault.Break? then GetRaised
    else if id in db.records then Found(db.records[id].project) else Missing
  }

  predicate Owns(db: Db, id: string, owner: string) {
    id in db.records && db.records[id].project.ownerId == owner
  }

  /** `mismatch`: the "reservation does not point at the project" branch was taken. */
  datatype DeleteResult = Deleted | NotFound | DeleteRaised(mismatch: bool)

  /** Position 0 is the record, position 1 the reservation at the name read earlier. */
  function DeleteConditions(db: Db, id: string, owner: string, name: string): seq<bool> {
    [Owns(db, id, owner), NameKey(name) in db.names && db.names[NameKey(name)].projectId == id]
  }

  function WithoutProject(db: Db, id: string, name: string): Db {
    Db(db.records - {id}, db.names - {NameKey(name)}, db.inserted)
  }

  function DeleteOutcome(response: WriteResponse): DeleteResult {
    match response
    case Committed => Deleted
    case Canceled(reasons, _) =>
      if reasons != [] && reasons[0] == ConditionalCheckFailed then NotFound
      else DeleteRaised(|reasons| > 1 && reasons[1] == ConditionalCheckFailed)
    case Failed(_) => DeleteRaised(false)
  }

  function DeleteCall(db: Db, id: string, owner: string, name: string, fault: Fault): (Db, DeleteResult) {
    var conditions := DeleteConditions(db, id, owner, name);
    (if TakesEffect(conditions, fault) then WithoutProject(db, id, name) else db,
     DeleteOutcome(Respond(conditions, fault)))
  }

  // ---- status transitions --------------------------------------------------------------

  /** The attribute a transition stores besides status and updatedAt. */
  datatype Extra = NoExtra | Endpoint(endpoint: string) | FailureReason(reason: string)

  function Transitioned(r: Record, target: Status, now: Instant, extra: Extra): Record {
    Record(r.project.(status := target, updatedAt := now),
           if extra.Endpoint? then Some(extra.endpoint) else r.endpoint,
           if extra.FailureReason? then Some(extra.reason) else r.failureReason)
  }

  predicate HasStatus(db: Db, id: string, status: Status) {
    id in db.records && db.records[id].project.status == status
  }

  datatype TransitionResult = Done(moved: bool) | TransitionRaised

  function TransitionOutcome(response: UpdateResponse): TransitionResult {
    match response
    case Updated => Done(true)
    case ConditionFailed => Done(false)
    case UpdateFailed(_) => TransitionRaised
  }

  function WithStatus(db: Db, id: string, target: Status, now: Instant, extra: Extra): Db
    requires id in db.records
  {
    db.(records := db.records[id := Transitioned(db.records[id], target, now, extra)])
  }

  function TransitionCall(db: Db, id: string, expected: Status, target: Status, now: Instant, extra: Extra,
                          fault: Fault)
    : (Db, TransitionResult)
  {
    var condition := HasStatus(db, id, expected);
    (if UpdateTakesEffect(condition, fault) then WithStatus(db, id, target, now, extra) else db,
     TransitionOutcome(RespondUpdate(condition, fault)))
  }

  /** What a provisioner run came to: a result, or the text of the exception. */
  datatype Provisioned = Success(endpoint: Option<string>) | Failure(message: string)

  const MAX_FAILURE_REASON_LENGTH := 500

  function BoundedReason(message: string): (reason: string)
    ensures 1 <= |reason| <= MAX_FAILURE_REASON_LENGTH
    ensures message != "" ==> reason <= message && (reason == message || |reason| == MAX_FAILURE_REASON_LENGTH)
  {
    var cut := if |message| > MAX_FAILURE_REASON_LENGTH then message[..MAX_FAILURE_REASON_LENGTH] else message;
    if cut == "" then "unknown error" else cut
  }

  function FinishStatus(outcome: Provisioned): Status {
    if outcome.Success? then READY else FAILED
  }

  function FinishExtra(outcome: Provisioned): Extra {
    match outcome
    case Success(endpoint) => if endpoint.Some? && endpoint.value != "" then Endpoint(endpoint.value) else NoExtra
    case Failure(message) => FailureReason(BoundedReason(message))
  }

  function BeginCall(db: Db, id: string, now: Instant, fault: Fault): (Db, TransitionResult) {
    TransitionCall(db, id, CREATED, PROVISIONING, now, NoExtra, fault)
  }

  function FinishCall(db: Db, id: string, outcome: Provisioned, now: Instant, fault: Fault): (Db, TransitionResult) {
    TransitionCall(db, id, PROVISIONING, FinishStatus(outcome), now, FinishExtra(outcome), fault)
  }

  // ---- what other clients may do between two calls ----------------------------------------

  /** Everything a caller may rely on while others run: the bijection holds, ids are
      never reused, and a record keeps what `create` wrote apart from status and updatedAt. */
  ghost predicate Rely(before: Db, after: Db) {
    && Consistent(after)
    && before.inserted <= after.inserted
    && (forall id :: id in before.inserted && id !in before.records ==> id !in after.records)
    && (forall id :: id in before.records && id in after.records ==>
          SameIdentity(before.records[id].project, after.records[id].project))
  }

  predicate SameIdentity(a: Project, b: Project) {
    && a.projectId == b.projectId && a.name == b.name && a.kind == b.kind
    && a.ownerId == b.ownerId && a.createdAt == b.createdAt
  }
}
