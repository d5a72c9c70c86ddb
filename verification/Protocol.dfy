/** The two writers over one table as a transition system. Every client call is
    one atomic step; API operations and provisioner invocations interleave freely,
    fail, are duplicated and crash. */
module Protocol {
  import opened Text
  import opened Names
  import opened Clock
  import opened Domain
  import opened Dynamo
  import opened Store

  // ---- operations and results, as their callers see them ---------------------------

  /** An API call, a begin write or a finishing write. */
  datatype OpId = Api(n: nat) | Begin(n: nat) | Finish(n: nat)

  datatype Call =
    | CreateProject(project: Project)
    | GetProject(id: string, owner: string)
    | DeleteProject(id: string, owner: string)
    | Transition(id: string, expected: Status, target: Status, now: Instant, extra: Extra)

  datatype Result =
    | WasCreated | WasTaken | WasFound(project: Project) | WasNotFound | WasDeleted | WasMoved(moved: bool)

  /** A call that raises an unexpected error has no `Respond`: its caller cannot
      tell whether it took effect. */
  datatype Event = Invoke(op: OpId, call: Call) | Respond(op: OpId, call: Call, result: Result)

  // ---- state -----------------------------------------------------------------------

  datatype ApiOp =
    | Creating(project: Project)
    | Getting(id: string, owner: string)
    | Deleting(id: string, owner: string)
    | DeletingNamed(id: string, owner: string, name: string)  // has read, has not yet written
    | Answered

  /** `Misled`: returned because its own begin write, which had taken effect, was
      answered as refused. */
  datatype Ending = Returned | Raised | Crashed | Misled

  datatype Phase = Starting | Provisioning | Finishing(outcome: Provisioned, now: Instant) | Ended(how: Ending)

  datatype Invocation = Skipped | Handling(id: string, begunAt: Instant, phase: Phase)

  /** A stream record: the event's name and, on an INSERT of a project, its image. */
  datatype StreamRecord = StreamRecord(eventName: string, image: Option<Record>)

  /** The provisioner's invocations. The other fields are history: which invocation's
      begin write took effect on an id, the ids whose finishing write took effect, and
      the ids `provision` was called for, in order. */
  datatype Fleet = Fleet(
    invocations: map<nat, Invocation>,
    begunBy: map<string, nat>,
    settled: set<string>,
    provisioned: seq<string>)

  /** `issued`: the ids uuid4 has handed out. `history` has the invocations and the
      answers that were true; `misreports` the other answers: status writes answered
      as refused that had taken effect. */
  datatype State = State(
    db: Db,
    ops: map<nat, ApiOp>,
    issued: set<string>,
    stream: seq<StreamRecord>,
    fleet: Fleet,
    history: seq<Event>,
    misreports: seq<Event>)

  const INITIAL := State(EMPTY_DB, map[], {}, [], Fleet(map[], map[], {}, []), [], [])

  datatype Label =
    | InvokeCreate(op: nat, project: Project)
    | CreateWrite(op: nat, fault: Fault)
    | InvokeGet(op: nat, id: string, owner: string)
    | GetRead(op: nat, fault: Fault)
    | InvokeDelete(op: nat, id: string, owner: string)
    | DeleteRead(op: nat, fault: Fault)
    | DeleteWrite(op: nat, fault: Fault)
    | Deliver(inv: nat, index: nat, now: Instant)
    | BeginWrite(inv: nat, fault: Fault)
    | Provision(inv: nat, outcome: Provisioned, now: Instant)
    | FinishWrite(inv: nat, fault: Fault)
    | Crash(inv: nat)

  predicate IsStarting(f: Fleet, inv: nat) {
    inv in f.invocations && f.invocations[inv].Handling? && f.invocations[inv].phase.Starting?
  }

  predicate IsProvisioning(f: Fleet, inv: nat) {
    inv in f.invocations && f.invocations[inv].Handling? && f.invocations[inv].phase.Provisioning?
  }

  predicate IsFinishing(f: Fleet, inv: nat) {
    inv in f.invocations && f.invocations[inv].Handling? && f.invocations[inv].phase.Finishing?
  }

  predicate IsLive(f: Fleet, inv: nat) {
    inv in f.invocations && f.invocations[inv].Handling? && !f.invocations[inv].phase.Ended?
  }

  predicate Enabled(s: State, l: Label) {
    match l
    case InvokeCreate(op, p) => op !in s.ops && IsNew(p) && p.projectId !in s.issued
    case CreateWrite(op, _) => op in s.ops && s.ops[op].Creating?
    case InvokeGet(op, _, _) => op !in s.ops
    case GetRead(op, _) => op in s.ops && s.ops[op].Getting?
    case InvokeDelete(op, _, _) => op !in s.ops
    case DeleteRead(op, _) => op in s.ops && s.ops[op].Deleting?
    case DeleteWrite(op, _) => op in s.ops && s.ops[op].DeletingNamed?
    case Deliver(inv, index, now) => inv !in s.fleet.invocations && index < |s.stream| && IsInstant(now)
    case BeginWrite(inv, _) => IsStarting(s.fleet, inv)
    case Provision(inv, _, now) => IsProvisioning(s.fleet, inv) && IsInstant(now)
    case FinishWrite(inv, _) => IsFinishing(s.fleet, inv)
    case Crash(inv) => IsLive(s.fleet, inv)
  }

  // ---- API steps -------------------------------------------------------------------

  function DoInvoke(s: State, op: nat, pending: ApiOp, call: Call): State {
    s.(ops := s.ops[op := pending], history := s.history + [Invoke(Api(op), call)])
  }

  /** The operation ends; a definite result is reported to its caller. */
  function Answer(s: State, op: nat, call: Call, result: Option<Result>): State {
    s.(ops := s.ops[op := Answered],
       history := if result.None? then s.history else s.history + [Respond(Api(op), call, result.value)])
  }

  function CreateReport(r: CreateResult): Option<Result> {
    match r case Created => Some(WasCreated) case NameTaken => Some(WasTaken) case CreateRaised => None
  }

  /** The stream carries one record per changed item. */
  function DoCreateWrite(s: State, op: nat, fault: Fault): State
    requires op in s.ops && s.ops[op].Creating?
  {
    var p := s.ops[op].project;
    var (db, r) := CreateCall(s.db, p, fault);
    var inserts := [StreamRecord("INSERT", None), StreamRecord("INSERT", Some(Record(p, None, None)))];
    Answer(s.(db := db, stream := if db == s.db then s.stream else s.stream + inserts), op, CreateProject(p),
           CreateReport(r))
  }

  /** The route's answer: a malformed id never reaches the table, and another
      owner's project looks like a missing one. */
  function GetReport(db: Db, id: string, owner: string, fault: Fault): Option<Result> {
    if !IsValidProjectId(id) then Some(WasNotFound)
    else match GetCall(db, id, fault)
      case Found(p) => Some(if p.ownerId == owner then WasFound(p) else WasNotFound)
      case Missing => Some(WasNotFound)
      case GetRaised => None
  }

  function DoGetRead(s: State, op: nat, fault: Fault): State
    requires op in s.ops && s.ops[op].Getting?
  {
    var g := s.ops[op];
    Answer(s, op, GetProject(g.id, g.owner), GetReport(s.db, g.id, g.owner, fault))
  }

  function DoDeleteRead(s: State, op: nat, fault: Fault): State
    requires op in s.ops && s.ops[op].Deleting?
  {
    var d := s.ops[op];
    match GetReport(s.db, d.id, d.owner, fault)
    case Some(WasFound(p)) => s.(ops := s.ops[op := DeletingNamed(d.id, d.owner, p.name)])
    case other => Answer(s, op, DeleteProject(d.id, d.owner), other)
  }

  function DeleteReport(r: DeleteResult): Option<Result> {
    match r case Deleted => Some(WasDeleted) case NotFound => Some(WasNotFound) case DeleteRaised(_) => None
  }

  function DoDeleteWrite(s: State, op: nat, fault: Fault): State
    requires op in s.ops && s.ops[op].DeletingNamed?
  {
    var d := s.ops[op];
    var (db, r) := DeleteCall(s.db, d.id, d.owner, d.name, fault);
    var removes := [StreamRecord("REMOVE", None), StreamRecord("REMOVE", None)];
    Answer(s.(db := db, stream := if db == s.db then s.stream else s.stream + removes),
           op, DeleteProject(d.id, d.owner), DeleteReport(r))
  }

  // ---- provisioner steps ---------------------------------------------------------------

  /** The handler's filters: only an INSERT whose image is a CREATED project. */
  predicate Admits(record: StreamRecord) {
    record.eventName == "INSERT" && record.image.Some? && record.image.value.project.status == CREATED
  }

  function BeginOf(h: Invocation): Call
    requires h.Handling?
  {
    Transition(h.id, CREATED, PROVISIONING, h.begunAt, NoExtra)
  }

  function FinishOf(id: string, outcome: Provisioned, now: Instant): Call {
    Transition(id, PROVISIONING, FinishStatus(outcome), now, FinishExtra(outcome))
  }

  /** The invocation moves to another phase. */
  function Enter(f: Fleet, inv: nat, phase: Phase): Fleet
    requires inv in f.invocations && f.invocations[inv].Handling?
  {
    f.(invocations := f.invocations[inv := f.invocations[inv].(phase := phase)])
  }

  function BeginFleet(f: Fleet, inv: nat, took: bool, r: TransitionResult): Fleet
    requires IsStarting(f, inv)
  {
    var next := match r
      case Done(moved) => if moved then Provisioning else Ended(if took then Misled else Returned)
      case TransitionRaised => Ended(Raised);
    Enter(if took then f.(begunBy := f.begunBy[f.invocations[inv].id := inv]) else f, inv, next)
  }

  function ProvisionFleet(f: Fleet, inv: nat, outcome: Provisioned, now: Instant): Fleet
    requires IsProvisioning(f, inv)
  {
    Enter(f.(provisioned := f.provisioned + [f.invocations[inv].id]), inv, Finishing(outcome, now))
  }

  function FinishFleet(f: Fleet, inv: nat, took: bool, r: TransitionResult): Fleet
    requires IsFinishing(f, inv)
  {
    Enter(if took then f.(settled := f.settled + {f.invocations[inv].id}) else f,
          inv, Ended(if r.TransitionRaised? then Raised else Returned))
  }

  function DoDeliver(s: State, inv: nat, index: nat, now: Instant): State
    requires index < |s.stream|
  {
    var record := s.stream[index];
    if Admits(record) then
      var h := Handling(record.image.value.project.projectId, now, Starting);
      s.(fleet := s.fleet.(invocations := s.fleet.invocations[inv := h]),
         history := s.history + [Invoke(Begin(inv), BeginOf(h))])
    else
      s.(fleet := s.fleet.(invocations := s.fleet.invocations[inv := Skipped]))
  }

  function WriteEvents(op: OpId, call: Call, r: TransitionResult): seq<Event> {
    match r case Done(moved) => [Respond(op, call, WasMoved(moved))] case TransitionRaised => []
  }

  /** The answer to a status write is recorded as true or as a misreport. */
  function Logged(s: State, op: OpId, call: Call, took: bool, r: TransitionResult): (s': State)
    ensures s' == s.(history := s'.history, misreports := s'.misreports)
  {
    if took && r == Done(false) then s.(misreports := s.misreports + WriteEvents(op, call, r))
    else s.(history := s.history + WriteEvents(op, call, r))
  }

  function ModifyRecords(changed: bool): seq<StreamRecord> {
    if changed then [StreamRecord("MODIFY", None)] else []
  }

  function DoBeginWrite(s: State, inv: nat, fault: Fault): State
    requires IsStarting(s.fleet, inv)
  {
    var h := s.fleet.invocations[inv];
    var (db, r) := BeginCall(s.db, h.id, h.begunAt, fault);
    var took := UpdateTakesEffect(HasStatus(s.db, h.id, CREATED), fault);
    var s' := s.(db := db, stream := s.stream + ModifyRecords(db != s.db), fleet := BeginFleet(s.fleet, inv, took, r));
    Logged(s', Begin(inv), BeginOf(h), took, r)
  }

  function DoProvision(s: State, inv: nat, outcome: Provisioned, now: Instant): State
    requires IsProvisioning(s.fleet, inv)
  {
    s.(fleet := ProvisionFleet(s.fleet, inv, outcome, now),
       history := s.history + [Invoke(Finish(inv), FinishOf(s.fleet.invocations[inv].id, outcome, now))])
  }

  function DoFinishWrite(s: State, inv: nat, fault: Fault): State
    requires IsFinishing(s.fleet, inv)
  {
    var h := s.fleet.invocations[inv];
    var (db, r) := FinishCall(s.db, h.id, h.phase.outcome, h.phase.now, fault);
    var took := UpdateTakesEffect(HasStatus(s.db, h.id, PROVISIONING), fault);
    var s' := s.(db := db, stream := s.stream + ModifyRecords(db != s.db), fleet := FinishFleet(s.fleet, inv, took, r));
    Logged(s', Finish(inv), FinishOf(h.id, h.phase.outcome, h.phase.now), took, r)
  }

  function Step(s: State, l: Label): State
    requires Enabled(s, l)
  {
    match l
    case InvokeCreate(op, p) => DoInvoke(s.(issued := s.issued + {p.projectId}), op, Creating(p), CreateProject(p))
    case CreateWrite(op, fault) => DoCreateWrite(s, op, fault)
    case InvokeGet(op, id, owner) => DoInvoke(s, op, Getting(id, owner), GetProject(id, owner))
    case GetRead(op, fault) => DoGetRead(s, op, fault)
    case InvokeDelete(op, id, owner) => DoInvoke(s, op, Deleting(id, owner), DeleteProject(id, owner))
    case DeleteRead(op, fault) => DoDeleteRead(s, op, fault)
    case DeleteWrite(op, fault) => DoDeleteWrite(s, op, fault)
    case Deliver(inv, index, now) => DoDeliver(s, inv, index, now)
    case BeginWrite(inv, fault) => DoBeginWrite(s, inv, fault)
    case Provision(inv, outcome, now) => DoProvision(s, inv, outcome, now)
    case FinishWrite(inv, fault) => DoFinishWrite(s, inv, fault)
    case Crash(inv) => s.(fleet := Enter(s.fleet, inv, Ended(Crashed)))
  }

  // ---- runs ------------------------------------------------------------------------

  ghost predicate Run(s: State, ls: seq<Label>)
    decreases |ls|
  {
    ls == [] || (Enabled(s, ls[0]) && Run(Step(s, ls[0]), ls[1..]))
  }

  ghost function After(s: State, ls: seq<Label>): State
    requires Run(s, ls)
    decreases |ls|
  {
    if ls == [] then s else After(Step(s, ls[0]), ls[1..])
  }

  ghost predicate Reachable(s: State) {
    exists ls :: Run(INITIAL, ls) && After(INITIAL, ls) == s
  }

  // ---- the invariant -----------------------------------------------------------------

  /** A record is as its status says it should be. */
  ghost predicate WellFormed(r: Record) {
    && IsValidProjectId(r.project.projectId)
    && ValidateName(r.project.name) == Accepted(r.project.name)
    && IsInstant(r.project.createdAt) && IsInstant(r.project.updatedAt)
    && (r.endpoint.Some? ==> r.project.status == READY && r.endpoint.value != "")
    && (r.failureReason.Some? <==> r.project.status == FAILED)
    && (r.failureReason.Some? ==> 1 <= |r.failureReason.value| <= MAX_FAILURE_REASON_LENGTH)
  }

  ghost predicate DbInv(db: Db) {
    Consistent(db) && forall id :: id in db.records ==> WellFormed(db.records[id])
  }

  /** Whatever the stream can start handling was inserted. */
  ghost predicate StreamInv(stream: seq<StreamRecord>, db: Db) {
    forall i :: 0 <= i < |stream| && Admits(stream[i]) ==> stream[i].image.value.project.projectId in db.inserted
  }

  ghost predicate OpInv(op: ApiOp, issued: set<string>, db: Db) {
    && (op.Creating? ==> IsNew(op.project) && op.project.projectId in issued - db.inserted)
    && (op.DeletingNamed? ==>
          && op.id in db.inserted
          && (op.id in db.records ==>
                db.records[op.id].project.name == op.name && db.records[op.id].project.ownerId == op.owner))
  }

  ghost predicate OpsInv(ops: map<nat, ApiOp>, issued: set<string>, db: Db) {
    && db.inserted <= issued
    && (forall o :: o in ops ==> OpInv(ops[o], issued, db))
    && (forall o, o' :: o in ops && o' in ops && o != o' && ops[o].Creating? && ops[o'].Creating? ==>
          ops[o].project.projectId != ops[o'].project.projectId)
  }

  /** The invocation whose begin write took effect on `id` is known and past it. */
  ghost predicate Begun(f: Fleet, id: string) {
    && id in f.begunBy && f.begunBy[id] in f.invocations
    && f.invocations[f.begunBy[id]].Handling? && f.invocations[f.begunBy[id]].id == id
    && !f.invocations[f.begunBy[id]].phase.Starting?
  }

  ghost predicate Settled(f: Fleet, id: string) {
    Begun(f, id) && f.invocations[f.begunBy[id]].phase.Ended?
  }

  ghost predicate CalledFor(f: Fleet, id: string) {
    Begun(f, id) && !f.invocations[f.begunBy[id]].phase.Provisioning?
  }

  ghost predicate InvocationInv(f: Fleet, n: nat, db: Db)
    requires n in f.invocations
  {
    f.invocations[n].Handling? ==>
      var h := f.invocations[n];
      && h.id in db.inserted && IsInstant(h.begunAt)
      && (h.phase.Finishing? ==> IsInstant(h.phase.now))
      && (h.phase.Provisioning? || h.phase.Finishing? ==>
            h.id in f.begunBy && f.begunBy[h.id] == n && h.id !in f.settled)
      && (h.phase == Ended(Returned) ==>
            || h.id !in db.records
            || (h.id in f.begunBy && (f.begunBy[h.id] == n ==> h.id in f.settled)))
      && (h.phase == Ended(Misled) ==> h.id in f.begunBy)
  }

  /** A record's status tells how far its provisioning got. */
  ghost predicate StatusInv(f: Fleet, id: string, db: Db)
    requires id in db.records
  {
    && (db.records[id].project.status == CREATED <==> id !in f.begunBy)
    && (db.records[id].project.status == PROVISIONING <==> id in f.begunBy && id !in f.settled)
  }

  ghost predicate FleetInv(f: Fleet, db: Db) {
    && (forall n :: n in f.invocations ==> InvocationInv(f, n, db))
    && (forall id :: id in f.begunBy ==> id in db.inserted && Begun(f, id))
    && (forall id :: id in f.settled ==> Settled(f, id))
    && (forall id :: id in db.records ==> StatusInv(f, id, db))
    && (forall id :: id in f.provisioned ==> CalledFor(f, id))
    && (forall i, j :: 0 <= i < j < |f.provisioned| ==> f.provisioned[i] != f.provisioned[j])
  }

  ghost predicate Inv(s: State) {
    DbInv(s.db) && StreamInv(s.stream, s.db) && OpsInv(s.ops, s.issued, s.db) && FleetInv(s.fleet, s.db)
  }

  lemma {:induction false} InitialInv()
    ensures Inv(INITIAL)
  {
  }

  // ---- each call keeps the table's own invariant ------------------------------------------

  lemma {:induction false} WithProjectKeeps(db: Db, p: Project)
    requires Consistent(db) && p.projectId !in db.inserted && NameKey(p.name) !in db.names
    ensures Consistent(WithProject(db, p)) && Rely(db, WithProject(db, p))
  {
    hide NameKey;
    var db' := WithProject(db, p);
    forall id | id in db'.records ensures Reserved(db', id) {
      if id != p.projectId { assert Reserved(db, id); }
    }
    forall key | key in db'.names ensures Held(db', key) {
      if key != NameKey(p.name) { assert Held(db, key) && Reserved(db, db.names[key].projectId); }
    }
    forall id | id in db.records && id in db'.records
      ensures SameIdentity(db.records[id].project, db'.records[id].project)
    {
      assert Reserved(db, id);
    }
  }

  lemma {:induction false} CreateKeeps(db: Db, p: Project, fault: Fault)
    requires Consistent(db) && p.projectId !in db.inserted
    ensures Consistent(CreateCall(db, p, fault).0) && Rely(db, CreateCall(db, p, fault).0)
  {
    var conditions := CreateConditions(db, p);
    if TakesEffect(conditions, fault) {
      assert conditions[0];
      WithProjectKeeps(db, p);
    }
  }

  lemma {:induction false} WithoutProjectKeeps(db: Db, id: string)
    requires Consistent(db) && id in db.records
    ensures var db' := WithoutProject(db, id, db.records[id].project.name); Consistent(db') && Rely(db, db')
  {
    hide NameKey;
    var key := NameKey(db.records[id].project.name);
    var db' := WithoutProject(db, id, db.records[id].project.name);
    assert Reserved(db, id);
    forall other | other in db'.records ensures Reserved(db', other) {
      assert Reserved(db, other);
    }
    forall k | k in db'.names ensures Held(db', k) {
      assert Held(db, k);
    }
  }

  lemma {:induction false} DeleteKeeps(db: Db, id: string, owner: string, name: string, fault: Fault)
    requires Consistent(db)
    requires id in db.records ==> db.records[id].project.name == name
    ensures Consistent(DeleteCall(db, id, owner, name, fault).0) && Rely(db, DeleteCall(db, id, owner, name, fault).0)
  {
    var conditions := DeleteConditions(db, id, owner, name);
    if TakesEffect(conditions, fault) {
      assert conditions[0];
      WithoutProjectKeeps(db, id);
    }
  }

  /** At most the record of `id` differs, and not in what `create` wrote. */
  ghost predicate Touches(db: Db, db': Db, id: string) {
    && db'.names == db.names && db'.inserted == db.inserted && db'.records.Keys == db.records.Keys
    && (forall other :: other in db.records && other != id ==> db'.records[other] == db.records[other])
  }

  lemma {:induction false} TouchesReflexive(db: Db, id: string)
    ensures Touches(db, db, id)
  {
  }

  lemma {:induction false} WithStatusKeeps(db: Db, id: string, target: Status, now: Instant, extra: Extra)
    requires Consistent(db) && id in db.records
    ensures var db' := WithStatus(db, id, target, now, extra);
            Consistent(db') && Rely(db, db') && Touches(db, db', id) && HasStatus(db', id, target)
  {
    hide NameKey;
    var db' := WithStatus(db, id, target, now, extra);
    forall other | other in db'.records ensures Reserved(db', other) {
      assert Reserved(db, other);
    }
    forall k | k in db'.names ensures Held(db', k) {
      assert Held(db, k);
    }
  }

  /** A provisioner write touches at most its own record, and never the key set. */
  lemma {:induction false} TransitionKeeps(db: Db, id: string, expected: Status, target: Status, now: Instant,
                                           extra: Extra, fault: Fault)
    requires Consistent(db)
    ensures var db' := TransitionCall(db, id, expected, target, now, extra, fault).0;
            Consistent(db') && Rely(db, db') && Touches(db, db', id)
  {
    hide Consistent, Rely, Touches, WithStatus;
    RelyReflexive(db);
    TouchesReflexive(db, id);
    if HasStatus(db, id, expected) { WithStatusKeeps(db, id, target, now, extra); }
  }

  /** What one provisioner write does to its record, and when. */
  ghost predicate Wrote(db: Db, db': Db, id: string, expected: Status, target: Status, took: bool,
                        r: TransitionResult) {
    && Touches(db, db', id)
    && (took ==> HasStatus(db, id, expected) && HasStatus(db', id, target))
    && (!took ==> db' == db)
    && (r == Done(true) ==> took)
    && (r == Done(false) && !took ==> !HasStatus(db, id, expected))
  }

  lemma {:induction false} TransitionWrote(db: Db, id: string, expected: Status, target: Status, now: Instant,
                                           extra: Extra, fault: Fault)
    requires Consistent(db)
    ensures var (db', r) := TransitionCall(db, id, expected, target, now, extra, fault);
            Wrote(db, db', id, expected, target, UpdateTakesEffect(HasStatus(db, id, expected), fault), r)
  {
    hide Consistent, Rely, Touches, WithStatus;
    TouchesReflexive(db, id);
    if HasStatus(db, id, expected) { WithStatusKeeps(db, id, target, now, extra); }
  }

  lemma {:induction false} RelyReflexive(db: Db)
    requires Consistent(db)
    ensures Rely(db, db)
  {
  }

  lemma {:induction false} RelyTransitive(a: Db, b: Db, c: Db)
    requires Consistent(a) && Rely(a, b) && Rely(b, c)
    ensures Rely(a, c)
  {
  }
}
