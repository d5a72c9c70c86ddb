/** Every step keeps the protocol's invariant, so every reachable state has it. */
module Invariant {
  import opened Names
  import opened Clock
  import opened Domain
  import opened Dynamo
  import opened Store
  import opened Protocol

  // ---- reading one fact off the invariant ---------------------------------------------

  lemma {:induction false} OpFacts(s: State, op: nat)
    requires Inv(s) && op in s.ops
    ensures OpInv(s.ops[op], s.issued, s.db) && Consistent(s.db)
  {
  }

  lemma {:induction false} InvocationFacts(s: State, inv: nat)
    requires Inv(s) && inv in s.fleet.invocations
    ensures InvocationInv(s.fleet, inv, s.db) && Consistent(s.db)
  {
  }

  // ---- what a step leaves alone ----------------------------------------------------

  lemma {:induction false} StreamKept(stream: seq<StreamRecord>, more: seq<StreamRecord>, db: Db, db': Db)
    requires StreamInv(stream, db) && db.inserted <= db'.inserted && StreamInv(more, db')
    ensures StreamInv(stream + more, db')
  {
  }

  lemma {:induction false} OpsKept(ops: map<nat, ApiOp>, ops': map<nat, ApiOp>, issued: set<string>, db: Db, db': Db)
    requires OpsInv(ops, issued, db) && Rely(db, db') && db'.inserted <= issued
    requires forall o :: o in ops' ==> ops'[o].Answered? || (o in ops && ops[o] == ops'[o])
    requires forall o :: o in ops' && ops'[o].Creating? ==> ops'[o].project.projectId !in db'.inserted
    ensures OpsInv(ops', issued, db')
  {
    forall o | o in ops' ensures OpInv(ops'[o], issued, db') {
      if !ops'[o].Answered? { assert OpInv(ops[o], issued, db); }
    }
  }

  lemma {:induction false} FleetKept(f: Fleet, db: Db, db': Db)
    requires FleetInv(f, db) && Rely(db, db')
    requires forall id :: id in db'.records ==>
               || (id in db.records && db'.records[id] == db.records[id])
               || (id !in db.inserted && db'.records[id].project.status == CREATED)
    ensures FleetInv(f, db')
  {
    forall n | n in f.invocations ensures InvocationInv(f, n, db') {
      assert InvocationInv(f, n, db);
    }
    forall id | id in db'.records ensures StatusInv(f, id, db') {
      if id in db.records { assert StatusInv(f, id, db); }
    }
  }

  // ---- API steps -------------------------------------------------------------------

  lemma {:induction false} InvokeKeeps(s: State, op: nat, pending: ApiOp, call: Call)
    requires Inv(s) && op !in s.ops && (pending.Getting? || pending.Deleting?)
    ensures Inv(DoInvoke(s, op, pending, call))
  {
    hide IsNew, NameKey;
  }

  lemma {:induction false} InvokeCreateKeeps(s: State, op: nat, p: Project)
    requires Inv(s) && op !in s.ops && IsNew(p) && p.projectId !in s.issued
    ensures Inv(DoInvoke(s.(issued := s.issued + {p.projectId}), op, Creating(p), CreateProject(p)))
  {
    var s' := DoInvoke(s.(issued := s.issued + {p.projectId}), op, Creating(p), CreateProject(p));
    forall o | o in s'.ops ensures OpInv(s'.ops[o], s'.issued, s'.db) {
      if o != op { assert OpInv(s.ops[o], s.issued, s.db); }
    }
  }

  lemma {:induction false} CreateCallKeeps(db: Db, p: Project, fault: Fault)
    requires DbInv(db) && IsNew(p) && p.projectId !in db.inserted
    ensures DbInv(CreateCall(db, p, fault).0)
  {
    hide NameKey, ValidateName, IsValidProjectId, IsInstant, Consistent, HonestCancel;
    CreateKeeps(db, p, fault);
    forall id | id in CreateCall(db, p, fault).0.records ensures WellFormed(CreateCall(db, p, fault).0.records[id]) {
      if id != p.projectId { assert WellFormed(db.records[id]); }
    }
  }

  lemma {:induction false} CreateWriteOps(ops: map<nat, ApiOp>, op: nat, issued: set<string>, db: Db, fault: Fault)
    requires OpsInv(ops, issued, db) && op in ops && ops[op].Creating? && Consistent(db)
    ensures OpsInv(ops[op := Answered], issued, CreateCall(db, ops[op].project, fault).0)
  {
    hide IsNew, NameKey, Consistent, TakesEffect;
    assert OpInv(ops[op], issued, db);
    CreateKeeps(db, ops[op].project, fault);
    OpsKept(ops, ops[op := Answered], issued, db, CreateCall(db, ops[op].project, fault).0);
  }

  lemma {:induction false} CreateCallFleet(f: Fleet, db: Db, p: Project, fault: Fault)
    requires FleetInv(f, db) && Consistent(db) && p.projectId !in db.inserted && p.status == CREATED
    ensures FleetInv(f, CreateCall(db, p, fault).0)
  {
    hide NameKey, Consistent, TakesEffect;
    CreateKeeps(db, p, fault);
    FleetKept(f, db, CreateCall(db, p, fault).0);
  }

  lemma {:induction false} CreateWriteStream(s: State, op: nat, fault: Fault)
    requires StreamInv(s.stream, s.db) && op in s.ops && s.ops[op].Creating?
    requires Consistent(s.db) && s.ops[op].project.projectId !in s.db.inserted
    ensures StreamInv(DoCreateWrite(s, op, fault).stream, DoCreateWrite(s, op, fault).db)
  {
    hide NameKey, Consistent, TakesEffect, CreateReport, CreateOutcome;
    var s' := DoCreateWrite(s, op, fault);
    StreamKept(s.stream, s'.stream[|s.stream|..], s.db, s'.db);
  }

  lemma {:induction false} CreateWriteKeeps(s: State, op: nat, fault: Fault)
    requires Inv(s) && op in s.ops && s.ops[op].Creating?
    ensures Inv(DoCreateWrite(s, op, fault))
  {
    hide CreateCall, DbInv, OpsInv, FleetInv, StreamInv;
    var p := s.ops[op].project;
    OpFacts(s, op);
    CreateCallKeeps(s.db, p, fault);
    CreateCallFleet(s.fleet, s.db, p, fault);
    CreateWriteOps(s.ops, op, s.issued, s.db, fault);
    CreateWriteStream(s, op, fault);
  }

  lemma {:induction false} GetReadKeeps(s: State, op: nat, fault: Fault)
    requires Inv(s) && op in s.ops && s.ops[op].Getting?
    ensures Inv(DoGetRead(s, op, fault))
  {
    RelyReflexive(s.db);
    OpsKept(s.ops, DoGetRead(s, op, fault).ops, s.issued, s.db, s.db);
  }

  lemma {:induction false} DeleteReadKeeps(s: State, op: nat, fault: Fault)
    requires Inv(s) && op in s.ops && s.ops[op].Deleting?
    ensures Inv(DoDeleteRead(s, op, fault))
  {
    hide IsNew, NameKey, WellFormed, IsValidProjectId;
    var s' := DoDeleteRead(s, op, fault);
    var d := s.ops[op];
    assert d.id in s.db.records ==> Reserved(s.db, d.id);
    forall o | o in s'.ops ensures OpInv(s'.ops[o], s.issued, s.db) {
      if o != op { assert OpInv(s.ops[o], s.issued, s.db); }
    }
  }

  lemma {:induction false} DeleteCallFleet(f: Fleet, db: Db, id: string, owner: string, name: string, fault: Fault)
    requires FleetInv(f, db) && Consistent(db) && (id in db.records ==> db.records[id].project.name == name)
    ensures FleetInv(f, DeleteCall(db, id, owner, name, fault).0)
  {
    hide NameKey, Consistent, TakesEffect;
    DeleteKeeps(db, id, owner, name, fault);
    FleetKept(f, db, DeleteCall(db, id, owner, name, fault).0);
  }

  lemma {:induction false} DeleteCallKeeps(db: Db, id: string, owner: string, name: string, fault: Fault)
    requires DbInv(db) && (id in db.records ==> db.records[id].project.name == name)
    ensures DbInv(DeleteCall(db, id, owner, name, fault).0)
  {
    hide NameKey, Consistent, TakesEffect, WellFormed;
    DeleteKeeps(db, id, owner, name, fault);
  }

  lemma {:induction false} DeleteWriteOps(ops: map<nat, ApiOp>, op: nat, issued: set<string>, db: Db, fault: Fault)
    requires OpsInv(ops, issued, db) && op in ops && ops[op].DeletingNamed? && Consistent(db)
    ensures OpsInv(ops[op := Answered], issued, DeleteCall(db, ops[op].id, ops[op].owner, ops[op].name, fault).0)
  {
    hide IsNew, NameKey, Consistent, TakesEffect;
    var d := ops[op];
    assert OpInv(d, issued, db);
    DeleteKeeps(db, d.id, d.owner, d.name, fault);
    OpsKept(ops, ops[op := Answered], issued, db, DeleteCall(db, d.id, d.owner, d.name, fault).0);
  }

  lemma {:induction false} DeleteWriteStream(s: State, op: nat, fault: Fault)
    requires StreamInv(s.stream, s.db) && op in s.ops && s.ops[op].DeletingNamed?
    ensures StreamInv(DoDeleteWrite(s, op, fault).stream, DoDeleteWrite(s, op, fault).db)
  {
    hide NameKey, TakesEffect, DeleteReport, DeleteOutcome;
    var s' := DoDeleteWrite(s, op, fault);
    StreamKept(s.stream, s'.stream[|s.stream|..], s.db, s'.db);
  }

  lemma {:induction false} DeleteWriteKeeps(s: State, op: nat, fault: Fault)
    requires Inv(s) && op in s.ops && s.ops[op].DeletingNamed?
    ensures Inv(DoDeleteWrite(s, op, fault))
  {
    hide DeleteCall, DbInv, OpsInv, FleetInv, StreamInv;
    var d := s.ops[op];
    OpFacts(s, op);
    DeleteCallKeeps(s.db, d.id, d.owner, d.name, fault);
    DeleteCallFleet(s.fleet, s.db, d.id, d.owner, d.name, fault);
    DeleteWriteOps(s.ops, op, s.issued, s.db, fault);
    DeleteWriteStream(s, op, fault);
  }

  // ---- provisioner steps ---------------------------------------------------------------

  lemma {:induction false} TransitionCallKeeps(db: Db, id: string, expected: Status, target: Status, now: Instant,
                                               extra: Extra, fault: Fault)
    requires DbInv(db) && IsInstant(now)
    requires || (expected == CREATED && target == PROVISIONING && extra == NoExtra)
             || (expected == PROVISIONING && target == READY
                 && (extra == NoExtra || (extra.Endpoint? && extra.endpoint != "")))
             || (expected == PROVISIONING && target == FAILED && extra.FailureReason?
                 && 1 <= |extra.reason| <= MAX_FAILURE_REASON_LENGTH)
    ensures DbInv(TransitionCall(db, id, expected, target, now, extra, fault).0)
  {
    hide NameKey, ValidateName, IsValidProjectId, IsInstant, Consistent, Rely;
    TransitionKeeps(db, id, expected, target, now, extra, fault);
    var db' := TransitionCall(db, id, expected, target, now, extra, fault).0;
    forall other | other in db'.records ensures WellFormed(db'.records[other]) {
      assert WellFormed(db.records[other]);
    }
  }

  lemma {:induction false} WriteKeeps(s: State, db': Db, id: string)
    requires Inv(s) && DbInv(db') && Rely(s.db, db') && Touches(s.db, db', id)
    ensures OpsInv(s.ops, s.issued, db') && StreamInv(s.stream + ModifyRecords(db' != s.db), db')
  {
    hide FleetInv, DbInv, Consistent, SameIdentity;
    OpsKept(s.ops, s.ops, s.issued, s.db, db');
    StreamKept(s.stream, ModifyRecords(db' != s.db), s.db, db');
  }

  /** `inv` is new or moves on, and takes credit for whatever begins or settles. */
  ghost predicate Moves(f: Fleet, f': Fleet, inv: nat, db: Db) {
    && inv in f'.invocations && f'.invocations.Keys == f.invocations.Keys + {inv}
    && (forall n :: n in f.invocations && n != inv ==> f'.invocations[n] == f.invocations[n])
    && (inv in f.invocations ==>
          && f.invocations[inv].Handling? && !f.invocations[inv].phase.Ended?
          && f'.invocations[inv].Handling? && f'.invocations[inv].id == f.invocations[inv].id
          && !f'.invocations[inv].phase.Starting?)
    && (forall id :: id in f.begunBy ==> id in f'.begunBy && f'.begunBy[id] == f.begunBy[id])
    && (forall id :: id in f'.begunBy && id !in f.begunBy ==>
          f'.begunBy[id] == inv && Begun(f', id) && id in db.inserted)
    && (forall id :: id in f'.settled && id !in f.settled ==>
          id in f.begunBy && f.begunBy[id] == inv && f'.invocations[inv].Handling? && f'.invocations[inv].phase.Ended?)
    && (forall id :: id in f'.provisioned && id !in f.provisioned ==>
          id in f.begunBy && f.begunBy[id] == inv && f'.invocations[inv].Handling?
            && f'.invocations[inv].phase.Finishing?)
    && f.settled <= f'.settled
  }

  /** A move keeps everything but the mover's own facts, the statuses and the order of calls. */
  lemma {:induction false} OthersKept(f: Fleet, f': Fleet, inv: nat, db: Db, db': Db)
    requires FleetInv(f, db) && Rely(db, db') && Moves(f, f', inv, db)
    requires InvocationInv(f', inv, db')
    requires forall id :: id in db'.records ==> StatusInv(f', id, db')
    requires forall i, j :: 0 <= i < j < |f'.provisioned| ==> f'.provisioned[i] != f'.provisioned[j]
    requires inv in f.invocations && f'.invocations[inv].phase.Provisioning? ==> f.invocations[inv].phase.Starting?
    ensures FleetInv(f', db')
  {
    forall n | n in f'.invocations ensures InvocationInv(f', n, db') {
      if n != inv { assert InvocationInv(f, n, db); }
    }
    forall id | id in f'.begunBy ensures id in db'.inserted && Begun(f', id) {
      if id in f.begunBy { assert Begun(f, id); }
    }
    forall id | id in f'.settled ensures Settled(f', id) {
      if id in f.settled { assert Settled(f, id); } else { assert Begun(f, id); }
    }
    forall id | id in f'.provisioned ensures CalledFor(f', id) {
      if id in f.provisioned { assert CalledFor(f, id); } else { assert Begun(f, id); }
    }
  }

  lemma {:induction false} DeliverKeeps(s: State, inv: nat, index: nat, now: Instant)
    requires Inv(s) && inv !in s.fleet.invocations && index < |s.stream| && IsInstant(now)
    ensures Inv(DoDeliver(s, inv, index, now))
  {
    hide IsInstant, Consistent, WellFormed, OpInv;
    var s' := DoDeliver(s, inv, index, now);
    RelyReflexive(s.db);
    forall id | id in s.db.records ensures StatusInv(s'.fleet, id, s.db) { assert StatusInv(s.fleet, id, s.db); }
    OthersKept(s.fleet, s'.fleet, inv, s.db, s.db);
  }

  lemma {:induction false} BeginOwn(f: Fleet, inv: nat, db: Db, db': Db, took: bool, r: TransitionResult)
    requires FleetInv(f, db) && IsStarting(f, inv)
    requires Wrote(db, db', f.invocations[inv].id, CREATED, PROVISIONING, took, r)
    ensures InvocationInv(BeginFleet(f, inv, took, r), inv, db')
  {
    hide IsInstant, CalledFor;
    assert InvocationInv(f, inv, db);
    if f.invocations[inv].id in db.records { assert StatusInv(f, f.invocations[inv].id, db); }
  }

  lemma {:induction false} BeginMoves(f: Fleet, inv: nat, db: Db, db': Db, took: bool, r: TransitionResult)
    requires FleetInv(f, db) && IsStarting(f, inv)
    requires Wrote(db, db', f.invocations[inv].id, CREATED, PROVISIONING, took, r)
    ensures Moves(f, BeginFleet(f, inv, took, r), inv, db)
  {
    hide IsInstant, CalledFor, Settled, Touches;
    assert InvocationInv(f, inv, db);
    if f.invocations[inv].id in db.records { assert StatusInv(f, f.invocations[inv].id, db); }
  }

  lemma {:induction false} BeginFleetKeeps(f: Fleet, inv: nat, db: Db, db': Db, took: bool, r: TransitionResult)
    requires FleetInv(f, db) && Rely(db, db') && IsStarting(f, inv)
    requires Wrote(db, db', f.invocations[inv].id, CREATED, PROVISIONING, took, r)
    ensures FleetInv(BeginFleet(f, inv, took, r), db')
  {
    hide Rely, InvocationInv, Moves;
    BeginMoves(f, inv, db, db', took, r);
    BeginOwn(f, inv, db, db', took, r);
    var f' := BeginFleet(f, inv, took, r);
    forall other | other in db'.records ensures StatusInv(f', other, db') { assert StatusInv(f, other, db); }
    OthersKept(f, f', inv, db, db');
  }

  lemma {:induction false} BeginWriteKeeps(s: State, inv: nat, fault: Fault)
    requires Inv(s) && IsStarting(s.fleet, inv)
    ensures Inv(DoBeginWrite(s, inv, fault))
  {
    hide TransitionCall, DbInv, OpsInv, FleetInv, StreamInv, BeginFleet, ModifyRecords, Rely, Touches, Wrote;
    var h := s.fleet.invocations[inv];
    InvocationFacts(s, inv);
    TransitionKeeps(s.db, h.id, CREATED, PROVISIONING, h.begunAt, NoExtra, fault);
    TransitionCallKeeps(s.db, h.id, CREATED, PROVISIONING, h.begunAt, NoExtra, fault);
    TransitionWrote(s.db, h.id, CREATED, PROVISIONING, h.begunAt, NoExtra, fault);
    var (db', r) := BeginCall(s.db, h.id, h.begunAt, fault);
    WriteKeeps(s, db', h.id);
    BeginFleetKeeps(s.fleet, inv, s.db, db', UpdateTakesEffect(HasStatus(s.db, h.id, CREATED), fault), r);
  }

  lemma {:induction false} ProvisionKeeps(s: State, inv: nat, outcome: Provisioned, now: Instant)
    requires Inv(s) && IsProvisioning(s.fleet, inv) && IsInstant(now)
    ensures Inv(DoProvision(s, inv, outcome, now))
  {
    hide Consistent, WellFormed, OpInv;
    var (f, f') := (s.fleet, ProvisionFleet(s.fleet, inv, outcome, now));
    assert InvocationInv(f, inv, s.db);
    RelyReflexive(s.db);
    forall id | id in s.db.records ensures StatusInv(f', id, s.db) { assert StatusInv(f, id, s.db); }
    forall i | 0 <= i < |f.provisioned| ensures f.provisioned[i] != f.invocations[inv].id {
      assert CalledFor(f, f.provisioned[i]);
    }
    OthersKept(f, f', inv, s.db, s.db);
  }

  lemma {:induction false} FinishMoves(f: Fleet, inv: nat, db: Db, db': Db, target: Status, took: bool,
                                       r: TransitionResult)
    requires FleetInv(f, db) && IsFinishing(f, inv)
    requires Wrote(db, db', f.invocations[inv].id, PROVISIONING, target, took, r)
    ensures Moves(f, FinishFleet(f, inv, took, r), inv, db) && InvocationInv(FinishFleet(f, inv, took, r), inv, db')
  {
    hide IsInstant;
    assert InvocationInv(f, inv, db);
    if f.invocations[inv].id in db.records { assert StatusInv(f, f.invocations[inv].id, db); }
  }

  lemma {:induction false} FinishFleetKeeps(f: Fleet, inv: nat, db: Db, db': Db, target: Status, took: bool,
                                            r: TransitionResult)
    requires FleetInv(f, db) && Rely(db, db') && IsFinishing(f, inv) && (target == READY || target == FAILED)
    requires Wrote(db, db', f.invocations[inv].id, PROVISIONING, target, took, r)
    ensures FleetInv(FinishFleet(f, inv, took, r), db')
  {
    hide Rely, Moves;
    assert InvocationInv(f, inv, db);
    FinishMoves(f, inv, db, db', target, took, r);
    var f' := FinishFleet(f, inv, took, r);
    forall other | other in db'.records ensures StatusInv(f', other, db') { assert StatusInv(f, other, db); }
    OthersKept(f, f', inv, db, db');
  }

  lemma {:induction false} FinishWriteKeeps(s: State, inv: nat, fault: Fault)
    requires Inv(s) && IsFinishing(s.fleet, inv)
    ensures Inv(DoFinishWrite(s, inv, fault))
  {
    hide TransitionCall, DbInv, OpsInv, FleetInv, StreamInv, FinishFleet, ModifyRecords, Rely, Touches, Wrote;
    var h := s.fleet.invocations[inv];
    var (outcome, now) := (h.phase.outcome, h.phase.now);
    InvocationFacts(s, inv);
    TransitionKeeps(s.db, h.id, PROVISIONING, FinishStatus(outcome), now, FinishExtra(outcome), fault);
    TransitionCallKeeps(s.db, h.id, PROVISIONING, FinishStatus(outcome), now, FinishExtra(outcome), fault);
    TransitionWrote(s.db, h.id, PROVISIONING, FinishStatus(outcome), now, FinishExtra(outcome), fault);
    var (db', r) := FinishCall(s.db, h.id, outcome, now, fault);
    WriteKeeps(s, db', h.id);
    FinishFleetKeeps(s.fleet, inv, s.db, db', FinishStatus(outcome),
                     UpdateTakesEffect(HasStatus(s.db, h.id, PROVISIONING), fault), r);
  }

  lemma {:induction false} CrashKeeps(s: State, inv: nat)
    requires Inv(s) && IsLive(s.fleet, inv)
    ensures Inv(s.(fleet := Enter(s.fleet, inv, Ended(Crashed))))
  {
    hide Consistent, WellFormed, OpInv;
    var (f, f') := (s.fleet, Enter(s.fleet, inv, Ended(Crashed)));
    assert InvocationInv(f, inv, s.db);
    RelyReflexive(s.db);
    forall id | id in s.db.records ensures StatusInv(f', id, s.db) { assert StatusInv(f, id, s.db); }
    OthersKept(f, f', inv, s.db, s.db);
  }

  lemma {:induction false} StepKeepsInv(s: State, l: Label)
    requires Inv(s) && Enabled(s, l)
    ensures Inv(Step(s, l))
  {
    match l
    case InvokeCreate(op, p) => InvokeCreateKeeps(s, op, p);
    case CreateWrite(op, fault) => CreateWriteKeeps(s, op, fault);
    case InvokeGet(op, id, owner) => InvokeKeeps(s, op, Getting(id, owner), GetProject(id, owner));
    case GetRead(op, fault) => GetReadKeeps(s, op, fault);
    case InvokeDelete(op, id, owner) => InvokeKeeps(s, op, Deleting(id, owner), DeleteProject(id, owner));
    case DeleteRead(op, fault) => DeleteReadKeeps(s, op, fault);
    case DeleteWrite(op, fault) => DeleteWriteKeeps(s, op, fault);
    case Deliver(inv, index, now) => DeliverKeeps(s, inv, index, now);
    case BeginWrite(inv, fault) => BeginWriteKeeps(s, inv, fault);
    case Provision(inv, outcome, now) => ProvisionKeeps(s, inv, outcome, now);
    case FinishWrite(inv, fault) => FinishWriteKeeps(s, inv, fault);
    case Crash(inv) => CrashKeeps(s, inv);
  }

  lemma {:induction false} InvIsConsistent(s: State)
    requires Inv(s)
    ensures Consistent(s.db)
  {
  }

  /** What one step guarantees to every other client. */
  lemma {:induction false} StepRely(s: State, l: Label)
    requires Inv(s) && Enabled(s, l)
    ensures Rely(s.db, Step(s, l).db)
  {
    hide Rely, Logged, TransitionCall, CreateCall, DeleteCall, BeginFleet, FinishFleet, ProvisionFleet, ModifyRecords,
         GetReport, IsNew;
    InvIsConsistent(s);
    RelyReflexive(s.db);
    match l
    case CreateWrite(op, fault) => CreateKeeps(s.db, s.ops[op].project, fault);
    case DeleteWrite(op, fault) => DeleteKeeps(s.db, s.ops[op].id, s.ops[op].owner, s.ops[op].name, fault);
    case BeginWrite(inv, fault) =>
      var h := s.fleet.invocations[inv];
      TransitionKeeps(s.db, h.id, CREATED, PROVISIONING, h.begunAt, NoExtra, fault);
    case FinishWrite(inv, fault) =>
      var h := s.fleet.invocations[inv];
      TransitionKeeps(s.db, h.id, PROVISIONING, FinishStatus(h.phase.outcome), h.phase.now,
                      FinishExtra(h.phase.outcome), fault);
    case _ =>
  }

  // ---- runs ------------------------------------------------------------------------

  lemma {:induction false} RunSplits(s: State, ls: seq<Label>, n: nat)
    requires Run(s, ls) && n <= |ls|
    ensures Run(s, ls[..n]) && Run(After(s, ls[..n]), ls[n..]) && After(After(s, ls[..n]), ls[n..]) == After(s, ls)
    decreases n
  {
    hide Enabled, Step;
    if n == 0 {
      assert ls[0..] == ls;
    } else {
      RunSplits(Step(s, ls[0]), ls[1..], n - 1);
      assert ls[..n][1..] == ls[1..][..n - 1] && ls[1..][n - 1..] == ls[n..] && ls[..n][0] == ls[0];
    }
  }

  lemma {:induction false} RunExtends(s: State, ls: seq<Label>, more: seq<Label>)
    requires Run(s, ls) && Run(After(s, ls), more)
    ensures Run(s, ls + more) && After(s, ls + more) == After(After(s, ls), more)
    decreases |ls|
  {
    hide Enabled, Step;
    if ls == [] {
      assert ls + more == more;
    } else {
      RunExtends(Step(s, ls[0]), ls[1..], more);
      assert (ls + more)[1..] == ls[1..] + more;
    }
  }

  lemma {:induction false} ReachableRun(s: State, ls: seq<Label>)
    requires Reachable(s) && Run(s, ls)
    ensures Reachable(After(s, ls))
  {
    hide Run, After;
    var before :| Run(INITIAL, before) && After(INITIAL, before) == s;
    RunExtends(INITIAL, before, ls);
  }

  lemma {:induction false} OneStep(s: State, l: Label)
    requires Enabled(s, l)
    ensures Run(s, [l]) && After(s, [l]) == Step(s, l)
  {
    hide Enabled, Step;
    assert [l][1..] == [];
  }

  lemma {:induction false} ReachableStep(s: State, l: Label)
    requires Reachable(s) && Enabled(s, l)
    ensures Reachable(Step(s, l)) && Run(s, [l]) && After(s, [l]) == Step(s, l)
  {
    hide Reachable, Enabled, Step;
    OneStep(s, l);
    ReachableRun(s, [l]);
  }

  /** Safety over whole runs, and the guarantee each run gives to the others. */
  lemma {:induction false} RunKeepsInv(s: State, ls: seq<Label>)
    requires Inv(s) && Run(s, ls)
    ensures Inv(After(s, ls)) && Rely(s.db, After(s, ls).db)
    decreases |ls|
  {
    if ls == [] {
      RelyReflexive(s.db);
    } else {
      var s' := Step(s, ls[0]);
      StepKeepsInv(s, ls[0]);
      StepRely(s, ls[0]);
      RunKeepsInv(s', ls[1..]);
      RelyTransitive(s.db, s'.db, After(s, ls).db);
    }
  }

  lemma {:induction false} ReachableInv(s: State)
    requires Reachable(s)
    ensures Inv(s)
  {
    InitialInv();
    var ls :| Run(INITIAL, ls) && After(INITIAL, ls) == s;
    RunKeepsInv(INITIAL, ls);
  }
}
