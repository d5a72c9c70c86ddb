/** Every run's history is linearizable with respect to one atomic store of
    projects whose names are unique by key. */
module Linearizability {
  import opened Text
  import opened Names
  import Clock
  import opened Domain
  import opened Dynamo
  import opened Store
  import opened Protocol
  import opened Invariant

  // ---- the abstract store ----------------------------------------------------------

  /** The store a caller imagines: project records by id, and nothing else. */
  type Objects = map<string, Record>

  predicate NameInUse(store: Objects, name: string) {
    exists id :: id in store && NameKey(store[id].project.name) == NameKey(name)
  }

  /** One atomic step of the abstract store. */
  function Spec(store: Objects, call: Call): (Objects, Result) {
    match call
    case CreateProject(p) =>
      if NameInUse(store, p.name) then (store, WasTaken)
      else (store[p.projectId := Record(p, None, None)], WasCreated)
    case GetProject(id, owner) =>
      (store, if id in store && store[id].project.ownerId == owner then WasFound(store[id].project) else WasNotFound)
    case DeleteProject(id, owner) =>
      if id in store && store[id].project.ownerId == owner then (store - {id}, WasDeleted) else (store, WasNotFound)
    case Transition(id, expected, target, now, extra) =>
      if id in store && store[id].project.status == expected
      then (store[id := Transitioned(store[id], target, now, extra)], WasMoved(true))
      else (store, WasMoved(false))
  }

  /** A completed operation in a sequential history. */
  datatype Completed = Completed(op: OpId, call: Call, result: Result)

  ghost function Replay(lin: seq<Completed>): Objects {
    if lin == [] then map[] else Spec(Replay(lin[..|lin| - 1]), lin[|lin| - 1].call).0
  }

  /** Each result is the one the abstract store gives at that point. */
  ghost predicate Legal(lin: seq<Completed>) {
    forall k :: 0 <= k < |lin| ==> Spec(Replay(lin[..k]), lin[k].call).1 == lin[k].result
  }

  ghost predicate DistinctOps(lin: seq<Completed>) {
    forall j, k :: 0 <= j < k < |lin| ==> lin[j].op != lin[k].op
  }

  ghost predicate OnlyInvoked(lin: seq<Completed>, h: seq<Event>) {
    forall k :: 0 <= k < |lin| ==> Invoke(lin[k].op, lin[k].call) in h
  }

  ghost predicate AllAnswered(lin: seq<Completed>, h: seq<Event>) {
    forall i :: 0 <= i < |h| && h[i].Respond? ==> Completed(h[i].op, h[i].call, h[i].result) in lin
  }

  /** `h[i]` answers one operation before `h[j]` invokes another. */
  predicate EndsBefore(h: seq<Event>, i: nat, j: nat) {
    i < j < |h| && h[i].Respond? && h[j].Invoke?
  }

  ghost predicate InRealTime(lin: seq<Completed>, h: seq<Event>) {
    forall i: nat, j: nat, a, b ::
      EndsBefore(h, i, j) && 0 <= a < |lin| && 0 <= b < |lin| && lin[a].op == h[i].op && lin[b].op == h[j].op
      ==> a < b
  }

  /** `lin` is a sequential history that explains `h`: it is legal, it completes only
      invoked operations and each at most once, it contains every answered operation
      with its answer, and it keeps the order of operations that did not overlap. */
  ghost predicate Linearizes(lin: seq<Completed>, h: seq<Event>) {
    Legal(lin) && DistinctOps(lin) && OnlyInvoked(lin, h) && AllAnswered(lin, h) && InRealTime(lin, h)
  }

  // ---- extending a linearization ---------------------------------------------------

  lemma {:induction false} InvokeKeepsOrder(lin: seq<Completed>, h: seq<Event>, op: OpId, call: Call)
    requires InRealTime(lin, h) && forall k :: 0 <= k < |lin| ==> lin[k].op != op
    ensures InRealTime(lin, h + [Invoke(op, call)])
  {
    var h' := h + [Invoke(op, call)];
    forall i: nat, j: nat, a, b | EndsBefore(h', i, j) && 0 <= a < |lin| && 0 <= b < |lin| && lin[a].op == h'[i].op
      && lin[b].op == h'[j].op
      ensures a < b
    {
      assert EndsBefore(h, i, j);
    }
  }

  lemma {:induction false} ExtendInvoke(lin: seq<Completed>, h: seq<Event>, op: OpId, call: Call)
    requires Linearizes(lin, h) && forall k :: 0 <= k < |lin| ==> lin[k].op != op
    ensures Linearizes(lin, h + [Invoke(op, call)])
  {
    hide Legal, DistinctOps, InRealTime;
    InvokeKeepsOrder(lin, h, op, call);
  }

  lemma {:induction false} ReplayExtend(lin: seq<Completed>, c: Completed)
    requires Legal(lin) && Spec(Replay(lin), c.call).1 == c.result
    ensures Legal(lin + [c]) && Replay(lin + [c]) == Spec(Replay(lin), c.call).0
  {
    hide Spec;
    var lin' := lin + [c];
    assert lin'[..|lin|] == lin;
    forall k | 0 <= k < |lin'| ensures Spec(Replay(lin'[..k]), lin'[k].call).1 == lin'[k].result {
      if k < |lin| { assert lin'[..k] == lin[..k]; }
    }
  }

  /** A new last operation comes after everything answered so far. */
  lemma {:induction false} CompleteKeepsOrder(lin: seq<Completed>, h: seq<Event>, h': seq<Event>, c: Completed)
    requires InRealTime(lin, h)
    requires forall i :: 0 <= i < |h| && h[i].Respond? ==> h[i].op != c.op
    requires h' == h || h' == h + [Respond(c.op, c.call, c.result)]
    ensures InRealTime(lin + [c], h')
  {
    var lin' := lin + [c];
    forall i: nat, j: nat, a, b | EndsBefore(h', i, j) && 0 <= a < |lin'| && 0 <= b < |lin'| && lin'[a].op == h'[i].op
      && lin'[b].op == h'[j].op
      ensures a < b
    {
      assert EndsBefore(h, i, j);
      assert h'[i] == h[i] && h'[j] == h[j];
      assert a < |lin|;
      if b < |lin| { assert lin[a].op == h[i].op && lin[b].op == h[j].op; }
    }
  }

  lemma {:induction false} CompleteKeepsAnswers(lin: seq<Completed>, h: seq<Event>, c: Completed)
    requires AllAnswered(lin, h)
    ensures AllAnswered(lin + [c], h) && AllAnswered(lin + [c], h + [Respond(c.op, c.call, c.result)])
  {
    forall i | 0 <= i < |h| && h[i].Respond? ensures Completed(h[i].op, h[i].call, h[i].result) in lin + [c] {
      assert Completed(h[i].op, h[i].call, h[i].result) in lin;
    }
  }

  lemma {:induction false} NotAnsweredYet(lin: seq<Completed>, h: seq<Event>, op: OpId)
    requires AllAnswered(lin, h) && forall k :: 0 <= k < |lin| ==> lin[k].op != op
    ensures forall i :: 0 <= i < |h| && h[i].Respond? ==> h[i].op != op
  {
    forall i | 0 <= i < |h| && h[i].Respond? ensures h[i].op != op {
      var k :| 0 <= k < |lin| && lin[k] == Completed(h[i].op, h[i].call, h[i].result);
    }
  }

  lemma {:induction false} ExtendCompleted(lin: seq<Completed>, h: seq<Event>, c: Completed)
    requires Linearizes(lin, h) && Invoke(c.op, c.call) in h
    requires forall k :: 0 <= k < |lin| ==> lin[k].op != c.op
    requires Spec(Replay(lin), c.call).1 == c.result
    ensures Linearizes(lin + [c], h) && Linearizes(lin + [c], h + [Respond(c.op, c.call, c.result)])
  {
    hide Legal, Spec, Replay, InRealTime, AllAnswered;
    ReplayExtend(lin, c);
    NotAnsweredYet(lin, h, c.op);
    CompleteKeepsAnswers(lin, h, c);
    CompleteKeepsOrder(lin, h, h, c);
    CompleteKeepsOrder(lin, h, h + [Respond(c.op, c.call, c.result)], c);
  }

  /** The concrete step from `store` to `store'` is what the abstract store does, if
      it reported a result; a call that raised did nothing or did its abstract step. */
  ghost predicate Agrees(store: Objects, store': Objects, call: Call, report: Option<Result>) {
    match report
    case Some(r) => Spec(store, call) == (store', r)
    case None => store' == store || store' == Spec(store, call).0
  }

  function Reported(op: OpId, call: Call, report: Option<Result>): seq<Event> {
    if report.None? then [] else [Respond(op, call, report.value)]
  }

  /** An operation's only externally visible step extends the linearization. */
  lemma {:induction false} ExtendAnswer(lin: seq<Completed>, h: seq<Event>, op: OpId, call: Call, store': Objects,
                                        report: Option<Result>)
    returns (lin': seq<Completed>)
    requires Linearizes(lin, h) && Invoke(op, call) in h
    requires forall k :: 0 <= k < |lin| ==> lin[k].op != op
    requires Agrees(Replay(lin), store', call, report)
    ensures Linearizes(lin', h + Reported(op, call, report)) && Replay(lin') == store'
    ensures lin <= lin' && forall k :: |lin| <= k < |lin'| ==> lin'[k].op == op
  {
    hide Linearizes, Spec, Replay, Legal;
    if report.None? && store' == Replay(lin) {
      lin' := lin;
      assert h + [] == h;
    } else {
      var c := Completed(op, call, Spec(Replay(lin), call).1);
      ExtendCompleted(lin, h, c);
      LinearizesIsLegal(lin, h);
      ReplayExtend(lin, c);
      lin' := lin + [c];
      assert h + [] == h;
    }
  }

  lemma {:induction false} LinearizesIsLegal(lin: seq<Completed>, h: seq<Event>)
    requires Linearizes(lin, h)
    ensures Legal(lin)
  {
  }

  // ---- each client call agrees with the abstract store ----------------------------------

  lemma {:induction false} RecordsWereInserted(db: Db)
    requires Consistent(db)
    ensures db.records.Keys <= db.inserted
  {
    hide NameKey;
    forall id | id in db.records ensures id in db.inserted { assert Reserved(db, id); }
  }

  lemma {:induction false} CreateAgrees(db: Db, p: Project, fault: Fault)
    requires Consistent(db) && p.projectId !in db.inserted
    ensures var (db', r) := CreateCall(db, p, fault);
            Agrees(db.records, db'.records, CreateProject(p), CreateReport(r))
  {
    hide NameKey, Contains;
    var conditions := CreateConditions(db, p);
    RecordsWereInserted(db);
    assert conditions[1];
    if conditions[0] {
      forall id | id in db.records ensures NameKey(db.records[id].project.name) != NameKey(p.name) {
        assert Reserved(db, id);
      }
    } else {
      assert Held(db, NameKey(p.name));
      assert NameInUse(db.records, p.name);
    }
  }

  lemma {:induction false} ReadAgrees(db: Db, id: string, owner: string, fault: Fault)
    requires DbInv(db)
    ensures Agrees(db.records, db.records, GetProject(id, owner), GetReport(db, id, owner, fault))
    ensures !GetReport(db, id, owner, fault).Some? || !GetReport(db, id, owner, fault).value.WasFound? ==>
            Agrees(db.records, db.records, DeleteProject(id, owner), GetReport(db, id, owner, fault))
  {
    hide NameKey, Consistent, IsValidProjectId, ValidateName;
    if id in db.records { RecordIds(db, id); }
  }

  lemma {:induction false} RecordIds(db: Db, id: string)
    requires DbInv(db) && id in db.records
    ensures IsValidProjectId(id) && db.records[id].project.projectId == id
  {
    assert Reserved(db, id) && WellFormed(db.records[id]);
  }

  lemma {:induction false} DeleteAgrees(db: Db, id: string, owner: string, name: string, fault: Fault)
    requires Consistent(db)
    ensures var (db', r) := DeleteCall(db, id, owner, name, fault);
            Agrees(db.records, db'.records, DeleteProject(id, owner), DeleteReport(r))
  {
    hide NameKey, Consistent, Contains;
    var conditions := DeleteConditions(db, id, owner, name);
    assert conditions[0] == Owns(db, id, owner);
  }

  /** The answer, when there is one and it is true. */
  function TransitionReport(took: bool, r: TransitionResult): Option<Result> {
    match r
    case Done(moved) => if took && !moved then None else Some(WasMoved(moved))
    case TransitionRaised => None
  }

  lemma {:induction false} TransitionAgrees(db: Db, id: string, expected: Status, target: Status, now: Clock.Instant,
                                            extra: Extra, fault: Fault)
    ensures var (db', r) := TransitionCall(db, id, expected, target, now, extra, fault);
            var took := UpdateTakesEffect(HasStatus(db, id, expected), fault);
            Agrees(db.records, db'.records, Transition(id, expected, target, now, extra), TransitionReport(took, r))
  {
  }

  /** Only true answers enter the history. */
  lemma {:induction false} LoggedHistory(s: State, op: OpId, call: Call, took: bool, r: TransitionResult)
    ensures Logged(s, op, call, took, r).history == s.history + Reported(op, call, TransitionReport(took, r))
  {
    assert s.history + [] == s.history;
  }

  // ---- runs ------------------------------------------------------------------------

  ghost predicate Known(s: State, op: OpId) {
    match op
    case Api(n) => n in s.ops
    case Begin(n) => n in s.fleet.invocations
    case Finish(n) =>
      && n in s.fleet.invocations && s.fleet.invocations[n].Handling?
      && (s.fleet.invocations[n].phase.Finishing? || s.fleet.invocations[n].phase.Ended?)
  }

  /** The operation can take no further step. */
  ghost predicate Closed(s: State, op: OpId) {
    match op
    case Api(n) => n in s.ops && s.ops[n].Answered?
    case Begin(n) =>
      && n in s.fleet.invocations
      && (s.fleet.invocations[n].Handling? ==> !s.fleet.invocations[n].phase.Starting?)
    case Finish(n) =>
      && n in s.fleet.invocations
      && (s.fleet.invocations[n].Handling? ==> s.fleet.invocations[n].phase.Ended?)
  }

  ghost predicate OpLogged(op: ApiOp, n: nat, h: seq<Event>) {
    match op
    case Creating(p) => Invoke(Api(n), CreateProject(p)) in h
    case Getting(id, owner) => Invoke(Api(n), GetProject(id, owner)) in h
    case Deleting(id, owner) => Invoke(Api(n), DeleteProject(id, owner)) in h
    case DeletingNamed(id, owner, _) => Invoke(Api(n), DeleteProject(id, owner)) in h
    case Answered => true
  }

  ghost predicate InvocationLogged(i: Invocation, n: nat, h: seq<Event>) {
    i.Handling? ==>
      match i.phase
      case Starting => Invoke(Begin(n), BeginOf(i)) in h
      case Finishing(outcome, now) => Invoke(Finish(n), FinishOf(i.id, outcome, now)) in h
      case _ => true
  }

  /** History, pending operations and linearization fit together. */
  ghost predicate Tracks(s: State, lin: seq<Completed>) {
    && (forall i :: 0 <= i < |s.history| ==> Known(s, s.history[i].op))
    && (forall k :: 0 <= k < |lin| ==> Closed(s, lin[k].op))
    && (forall n :: n in s.ops ==> OpLogged(s.ops[n], n, s.history))
    && (forall n :: n in s.fleet.invocations ==> InvocationLogged(s.fleet.invocations[n], n, s.history))
  }

  ghost predicate Explains(s: State, lin: seq<Completed>) {
    Linearizes(lin, s.history) && Replay(lin) == s.db.records && Tracks(s, lin)
  }

  /** The tracking survives a step that only adds events of `op` and closes or opens `op`. */
  lemma {:induction false} StillTracks(s: State, s': State, lin: seq<Completed>, lin': seq<Completed>, op: OpId)
    requires Tracks(s, lin) && s.history <= s'.history && lin <= lin'
    requires forall i :: |s.history| <= i < |s'.history| ==> s'.history[i].op == op
    requires forall k :: |lin| <= k < |lin'| ==> lin'[k].op == op
    requires |s'.history| > |s.history| ==> Known(s', op)
    requires |lin'| > |lin| ==> Closed(s', op)
    requires forall o :: Known(s, o) ==> Known(s', o)
    requires forall o :: Closed(s, o) ==> Closed(s', o)
    requires forall n :: n in s'.ops && (n !in s.ops || s'.ops[n] != s.ops[n]) ==> OpLogged(s'.ops[n], n, s'.history)
    requires forall n ::
               && n in s'.fleet.invocations
               && (n !in s.fleet.invocations || s'.fleet.invocations[n] != s.fleet.invocations[n]) ==>
               InvocationLogged(s'.fleet.invocations[n], n, s'.history)
    ensures Tracks(s', lin')
  {
    hide Known, Closed;
    forall i | 0 <= i < |s'.history| ensures Known(s', s'.history[i].op) {
      if i < |s.history| { assert s'.history[i] == s.history[i]; }
    }
    forall n | n in s'.ops ensures OpLogged(s'.ops[n], n, s'.history) {
      if n in s.ops { assert OpLogged(s.ops[n], n, s.history); }
    }
    forall n | n in s'.fleet.invocations ensures InvocationLogged(s'.fleet.invocations[n], n, s'.history) {
      if n in s.fleet.invocations { assert InvocationLogged(s.fleet.invocations[n], n, s.history); }
    }
  }

  lemma {:induction false} NotYet(s: State, lin: seq<Completed>, op: OpId)
    requires Tracks(s, lin) && !Closed(s, op)
    ensures forall k :: 0 <= k < |lin| ==> lin[k].op != op
  {
    hide Known, Closed;
  }

  lemma {:induction false} Invoked(s: State, s': State, lin: seq<Completed>, op: OpId, call: Call)
    requires Explains(s, lin) && s'.history == s.history + [Invoke(op, call)] && s'.db == s.db
    requires !Closed(s, op) && Tracks(s', lin)
    ensures Explains(s', lin)
  {
    hide Linearizes, Known, Closed;
    NotYet(s, lin, op);
    ExtendInvoke(lin, s.history, op, call);
  }

  lemma {:induction false} Answering(s: State, s': State, lin: seq<Completed>, op: OpId, call: Call,
                                     report: Option<Result>)
    returns (lin': seq<Completed>)
    requires Explains(s, lin) && !Closed(s, op) && Invoke(op, call) in s.history
    requires s'.history == s.history + Reported(op, call, report)
    requires Agrees(s.db.records, s'.db.records, call, report)
    ensures Linearizes(lin', s'.history) && Replay(lin') == s'.db.records
    ensures lin <= lin' && forall k :: |lin| <= k < |lin'| ==> lin'[k].op == op
  {
    hide Linearizes, Known, Closed, Agrees;
    NotYet(s, lin, op);
    lin' := ExtendAnswer(lin, s.history, op, call, s'.db.records, report);
  }

  lemma {:induction false} InvokeExplained(s: State, issued: set<string>, op: nat, pending: ApiOp, call: Call,
                                           lin: seq<Completed>)
    requires Explains(s, lin) && op !in s.ops
    requires OpLogged(pending, op, [Invoke(Api(op), call)]) && !pending.Answered?
    ensures Explains(DoInvoke(s.(issued := issued), op, pending, call), lin)
  {
    hide Linearizes;
    var s' := DoInvoke(s.(issued := issued), op, pending, call);
    assert s'.history[|s.history|] == Invoke(Api(op), call);
    StillTracks(s, s', lin, lin, Api(op));
    Invoked(s, s', lin, Api(op), call);
  }

  /** An API operation's last step, whatever it is. */
  lemma {:induction false} AnswerExplained(s: State, db: Db, stream: seq<StreamRecord>, op: nat, call: Call,
                                           report: Option<Result>, lin: seq<Completed>)
    returns (lin': seq<Completed>)
    requires Explains(s, lin) && op in s.ops && !s.ops[op].Answered? && Invoke(Api(op), call) in s.history
    requires Agrees(s.db.records, db.records, call, report)
    ensures Explains(Answer(s.(db := db, stream := stream), op, call, report), lin')
  {
    hide Linearizes, Agrees;
    var s' := Answer(s.(db := db, stream := stream), op, call, report);
    assert s.history + [] == s.history;
    lin' := Answering(s, s', lin, Api(op), call, report);
    StillTracks(s, s', lin, lin', Api(op));
  }

  lemma {:induction false} CreateExplained(s: State, op: nat, fault: Fault, lin: seq<Completed>)
    returns (lin': seq<Completed>)
    requires Inv(s) && Explains(s, lin) && op in s.ops && s.ops[op].Creating?
    ensures Explains(DoCreateWrite(s, op, fault), lin')
  {
    hide Linearizes, Agrees, Inv, IsNew, CreateCall;
    OpFacts(s, op);
    assert OpLogged(s.ops[op], op, s.history);
    var (p, s') := (s.ops[op].project, DoCreateWrite(s, op, fault));
    CreateAgrees(s.db, p, fault);
    lin' := AnswerExplained(s, s'.db, s'.stream, op, CreateProject(p), CreateReport(CreateCall(s.db, p, fault).1), lin);
  }

  lemma {:induction false} GetExplained(s: State, op: nat, fault: Fault, lin: seq<Completed>)
    returns (lin': seq<Completed>)
    requires DbInv(s.db) && Explains(s, lin) && op in s.ops && s.ops[op].Getting?
    ensures Explains(DoGetRead(s, op, fault), lin')
  {
    hide Linearizes, Agrees, DbInv, GetReport;
    assert OpLogged(s.ops[op], op, s.history);
    var g := s.ops[op];
    ReadAgrees(s.db, g.id, g.owner, fault);
    lin' := AnswerExplained(s, s.db, s.stream, op, GetProject(g.id, g.owner), GetReport(s.db, g.id, g.owner, fault),
                            lin);
  }

  lemma {:induction false} DeleteReadExplained(s: State, op: nat, fault: Fault, lin: seq<Completed>)
    returns (lin': seq<Completed>)
    requires DbInv(s.db) && Explains(s, lin) && op in s.ops && s.ops[op].Deleting?
    ensures Explains(DoDeleteRead(s, op, fault), lin')
  {
    hide Linearizes, Agrees, DbInv, GetReport;
    assert OpLogged(s.ops[op], op, s.history);
    var d := s.ops[op];
    ReadAgrees(s.db, d.id, d.owner, fault);
    var report := GetReport(s.db, d.id, d.owner, fault);
    if report.Some? && report.value.WasFound? {
      lin' := lin;
      StillTracks(s, DoDeleteRead(s, op, fault), lin, lin, Api(op));
    } else {
      lin' := AnswerExplained(s, s.db, s.stream, op, DeleteProject(d.id, d.owner), report, lin);
    }
  }

  lemma {:induction false} DeleteWriteExplained(s: State, op: nat, fault: Fault, lin: seq<Completed>)
    returns (lin': seq<Completed>)
    requires DbInv(s.db) && Explains(s, lin) && op in s.ops && s.ops[op].DeletingNamed?
    ensures Explains(DoDeleteWrite(s, op, fault), lin')
  {
    hide Linearizes, Agrees, DeleteCall;
    assert OpLogged(s.ops[op], op, s.history);
    var (d, s') := (s.ops[op], DoDeleteWrite(s, op, fault));
    DeleteAgrees(s.db, d.id, d.owner, d.name, fault);
    lin' := AnswerExplained(s, s'.db, s'.stream, op, DeleteProject(d.id, d.owner),
                            DeleteReport(DeleteCall(s.db, d.id, d.owner, d.name, fault).1), lin);
  }

  lemma {:induction false} DeliverExplained(s: State, inv: nat, index: nat, now: Clock.Instant, lin: seq<Completed>)
    requires Explains(s, lin) && inv !in s.fleet.invocations && index < |s.stream|
    ensures Explains(DoDeliver(s, inv, index, now), lin)
  {
    hide Linearizes, Admits;
    var s' := DoDeliver(s, inv, index, now);
    StillTracks(s, s', lin, lin, Begin(inv));
    if s'.fleet.invocations[inv].Handling? { Invoked(s, s', lin, Begin(inv), BeginOf(s'.fleet.invocations[inv])); }
  }

  lemma {:induction false} BeginExplained(s: State, inv: nat, fault: Fault, lin: seq<Completed>)
    returns (lin': seq<Completed>)
    requires Explains(s, lin) && IsStarting(s.fleet, inv)
    ensures Explains(DoBeginWrite(s, inv, fault), lin')
  {
    hide Linearizes, Agrees, TransitionCall, UpdateTakesEffect, Logged, TransitionReport;
    var (h, s') := (s.fleet.invocations[inv], DoBeginWrite(s, inv, fault));
    assert InvocationLogged(h, inv, s.history);
    TransitionAgrees(s.db, h.id, CREATED, PROVISIONING, h.begunAt, NoExtra, fault);
    var took := UpdateTakesEffect(HasStatus(s.db, h.id, CREATED), fault);
    var (db, r) := BeginCall(s.db, h.id, h.begunAt, fault);
    LoggedHistory(s'.(history := s.history, misreports := s.misreports), Begin(inv), BeginOf(h), took, r);
    lin' := Answering(s, s', lin, Begin(inv), BeginOf(h), TransitionReport(took, r));
    StillTracks(s, s', lin, lin', Begin(inv));
  }

  lemma {:induction false} ProvisionExplained(s: State, inv: nat, outcome: Provisioned, now: Clock.Instant,
                                              lin: seq<Completed>)
    requires Explains(s, lin) && IsProvisioning(s.fleet, inv)
    ensures Explains(DoProvision(s, inv, outcome, now), lin)
  {
    hide Linearizes, FinishStatus, FinishExtra;
    var s' := DoProvision(s, inv, outcome, now);
    StillTracks(s, s', lin, lin, Finish(inv));
    Invoked(s, s', lin, Finish(inv), FinishOf(s.fleet.invocations[inv].id, outcome, now));
  }

  lemma {:induction false} FinishExplained(s: State, inv: nat, fault: Fault, lin: seq<Completed>)
    returns (lin': seq<Completed>)
    requires Explains(s, lin) && IsFinishing(s.fleet, inv)
    ensures Explains(DoFinishWrite(s, inv, fault), lin')
  {
    hide Linearizes, Agrees, TransitionCall, UpdateTakesEffect, FinishStatus, FinishExtra, Logged, TransitionReport;
    var (h, s') := (s.fleet.invocations[inv], DoFinishWrite(s, inv, fault));
    var (outcome, now) := (h.phase.outcome, h.phase.now);
    assert InvocationLogged(h, inv, s.history);
    TransitionAgrees(s.db, h.id, PROVISIONING, FinishStatus(outcome), now, FinishExtra(outcome), fault);
    var took := UpdateTakesEffect(HasStatus(s.db, h.id, PROVISIONING), fault);
    var (db, r) := FinishCall(s.db, h.id, outcome, now, fault);
    LoggedHistory(s'.(history := s.history, misreports := s.misreports), Finish(inv), FinishOf(h.id, outcome, now),
                  took, r);
    lin' := Answering(s, s', lin, Finish(inv), FinishOf(h.id, outcome, now), TransitionReport(took, r));
    StillTracks(s, s', lin, lin', Finish(inv));
  }

  lemma {:induction false} CrashExplained(s: State, inv: nat, lin: seq<Completed>)
    requires Explains(s, lin) && IsLive(s.fleet, inv)
    ensures Explains(s.(fleet := Enter(s.fleet, inv, Ended(Crashed))), lin)
  {
    hide Linearizes;
    StillTracks(s, s.(fleet := Enter(s.fleet, inv, Ended(Crashed))), lin, lin, Begin(inv));
  }

  lemma {:induction false} DbFacts(s: State)
    requires Inv(s)
    ensures DbInv(s.db)
  {
  }

  lemma {:induction false} StepExplained(s: State, l: Label, lin: seq<Completed>)
    returns (lin': seq<Completed>)
    requires Inv(s) && Explains(s, lin) && Enabled(s, l)
    ensures Explains(Step(s, l), lin')
  {
    hide Explains, Inv;
    DbFacts(s);
    lin' := lin;
    match l
    case InvokeCreate(op, p) => InvokeExplained(s, s.issued + {p.projectId}, op, Creating(p), CreateProject(p), lin);
    case CreateWrite(op, fault) => lin' := CreateExplained(s, op, fault, lin);
    case InvokeGet(op, id, owner) => InvokeExplained(s, s.issued, op, Getting(id, owner), GetProject(id, owner), lin);
    case GetRead(op, fault) => lin' := GetExplained(s, op, fault, lin);
    case InvokeDelete(op, id, owner) => InvokeExplained(s, s.issued, op, Deleting(id, owner), DeleteProject(id, owner),
                                                        lin);
    case DeleteRead(op, fault) => lin' := DeleteReadExplained(s, op, fault, lin);
    case DeleteWrite(op, fault) => lin' := DeleteWriteExplained(s, op, fault, lin);
    case Deliver(inv, index, now) => DeliverExplained(s, inv, index, now, lin);
    case BeginWrite(inv, fault) => lin' := BeginExplained(s, inv, fault, lin);
    case Provision(inv, outcome, now) => ProvisionExplained(s, inv, outcome, now, lin);
    case FinishWrite(inv, fault) => lin' := FinishExplained(s, inv, fault, lin);
    case Crash(inv) => CrashExplained(s, inv, lin);
  }

  lemma {:induction false} RunExplained(s: State, ls: seq<Label>, lin: seq<Completed>)
    returns (lin': seq<Completed>)
    requires Inv(s) && Explains(s, lin) && Run(s, ls)
    ensures Explains(After(s, ls), lin')
    decreases |ls|
  {
    hide Explains, Inv, Step, Enabled;
    if ls == [] {
      lin' := lin;
    } else {
      lin' := StepExplained(s, ls[0], lin);
      StepKeepsInv(s, ls[0]);
      lin' := RunExplained(Step(s, ls[0]), ls[1..], lin');
    }
  }

  /** The whole service is linearizable: in every reachable state, whatever was lost,
      duplicated or raced, the answers so far are those of one sequential history of
      the abstract store that respects real time and ends in the stored records. */
  lemma {:induction false} ReachableLinearizable(s: State)
    requires Reachable(s)
    ensures exists lin :: Linearizes(lin, s.history) && Replay(lin) == s.db.records
  {
    InitialInv();
    var ls :| Run(INITIAL, ls) && After(INITIAL, ls) == s;
    var lin := RunExplained(INITIAL, ls, []);
  }
}
