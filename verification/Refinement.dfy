/** The methods are the runs: what `Repository` and `Provisioner` do call by call is
    what the transition system does step by step, with other clients in between. */
module Refinement {
  import opened Clock
  import opened Domain
  import opened Dynamo
  import opened Store
  import opened Layout
  import opened Protocol
  import opened Invariant
  import opened Lifecycle
  import opened Text
  import Linearizability
  import Provisioner
  import Repository

  // ---- steps of other clients ------------------------------------------------------------

  predicate MovesInvocation(l: Label, inv: nat) {
    (l.Deliver? || l.BeginWrite? || l.Provision? || l.FinishWrite? || l.Crash?) && l.inv == inv
  }

  predicate MovesOp(l: Label, op: nat) {
    !(l.Deliver? || l.BeginWrite? || l.Provision? || l.FinishWrite? || l.Crash?) && l.op == op
  }

  /** Steps of anyone else. */
  predicate Spares(ls: seq<Label>, inv: nat) {
    forall i :: 0 <= i < |ls| ==> !MovesInvocation(ls[i], inv)
  }

  predicate SparesOp(ls: seq<Label>, op: nat) {
    forall i :: 0 <= i < |ls| ==> !MovesOp(ls[i], op)
  }

  lemma {:induction false} InvocationSpared(s: State, ls: seq<Label>, inv: nat)
    requires Run(s, ls) && Spares(ls, inv) && inv in s.fleet.invocations
    ensures inv in After(s, ls).fleet.invocations && After(s, ls).fleet.invocations[inv] == s.fleet.invocations[inv]
    decreases |ls|
  {
    hide Step, Enabled, MovesInvocation;
    if ls != [] {
      InvocationSparedByStep(s, ls[0], inv);
      InvocationSpared(Step(s, ls[0]), ls[1..], inv);
    }
  }

  lemma {:induction false} InvocationSparedByStep(s: State, l: Label, inv: nat)
    requires Enabled(s, l) && !MovesInvocation(l, inv) && inv in s.fleet.invocations
    ensures inv in Step(s, l).fleet.invocations && Step(s, l).fleet.invocations[inv] == s.fleet.invocations[inv]
  {
    hide TransitionCall, CreateCall, DeleteCall, GetReport, IsNew, IsInstant, Logged, ModifyRecords;
  }

  lemma {:induction false} OpSpared(s: State, ls: seq<Label>, op: nat)
    requires Run(s, ls) && SparesOp(ls, op) && op in s.ops
    ensures op in After(s, ls).ops && After(s, ls).ops[op] == s.ops[op]
    decreases |ls|
  {
    hide Step, Enabled, MovesOp;
    if ls != [] {
      OpSparedByStep(s, ls[0], op);
      OpSpared(Step(s, ls[0]), ls[1..], op);
    }
  }

  lemma {:induction false} OpSparedByStep(s: State, l: Label, op: nat)
    requires Enabled(s, l) && !MovesOp(l, op) && op in s.ops
    ensures op in Step(s, l).ops && Step(s, l).ops[op] == s.ops[op]
  {
    hide TransitionCall, CreateCall, DeleteCall, GetReport, IsNew, IsInstant, Logged, ModifyRecords;
  }

  // ---- delete -----------------------------------------------------------------------------

  /** The delete found the project and goes on to its write. */
  predicate GoesOn(db: Db, id: string, owner: string, fault: Fault) {
    GetCall(db, id, fault).Found? && GetCall(db, id, fault).project.ownerId == owner
  }

  /** A delete that stops at its read. */
  lemma {:induction false} DeleteStops(s: State, op: nat, readFault: Fault, meanwhile: Db, writeFault: Fault)
    requires op in s.ops && s.ops[op].Deleting?
    requires var d := s.ops[op]; IsValidProjectId(d.id) && !GoesOn(s.db, d.id, d.owner, readFault)
    ensures var d := s.ops[op];
            var (s', (db', r)) := (Step(s, DeleteRead(op, readFault)),
                                   Repository.DeleteSteps(s.db, meanwhile, d.id, d.owner, readFault, writeFault));
            && s'.db == db' && s'.ops[op].Answered?
            && s'.history
            == s.history + Linearizability.Reported(Api(op), DeleteProject(d.id, d.owner), DeleteReport(r))
  {
    hide IsValidProjectId, DeleteCall;
    assert s.history + [] == s.history;
  }

  /** The write of a delete that read `s` and writes to `s2` is the method's, and the
      table it meets is one the method may rely on. */
  ghost predicate WritesAsMethod(s: State, s2: State, op: nat, readFault: Fault, writeFault: Fault)
    requires op in s.ops && s.ops[op].Deleting?
  {
    var d := s.ops[op];
    var (db', r) := Repository.DeleteSteps(s.db, s2.db, d.id, d.owner, readFault, writeFault);
    && Enabled(s2, DeleteWrite(op, writeFault)) && Consistent(s.db) && Rely(s.db, s2.db)
    && var s' := Step(s2, DeleteWrite(op, writeFault));
       && s'.db == db' && s'.ops[op].Answered?
       && s'.history == s2.history + Linearizability.Reported(Api(op), DeleteProject(d.id, d.owner), DeleteReport(r))
  }

  /** A delete that goes on, with other clients' steps before its write. */
  lemma {:induction false} DeleteGoesOn(s: State, s1: State, op: nat, readFault: Fault, others: seq<Label>,
                                        writeFault: Fault)
    requires Reachable(s) && op in s.ops && s.ops[op].Deleting? && SparesOp(others, op)
    requires IsValidProjectId(s.ops[op].id) && GoesOn(s.db, s.ops[op].id, s.ops[op].owner, readFault)
    requires s1 == Step(s, DeleteRead(op, readFault)) && Run(s1, others)
    ensures WritesAsMethod(s, After(s1, others), op, readFault, writeFault)
  {
    hide Reachable, Inv, Run, After, SparesOp, Rely, DeleteCall, IsValidProjectId, Consistent, Step;
    ReachableInv(s);
    InvIsConsistent(s);
    ReadGoesOn(s, op, readFault);
    StepKeepsInv(s, DeleteRead(op, readFault));
    RunKeepsInv(s1, others);
    OpSpared(s1, others, op);
    WriteFollows(s, After(s1, others), op, readFault, writeFault);
  }

  lemma {:induction false} ReadGoesOn(s: State, op: nat, readFault: Fault)
    requires op in s.ops && s.ops[op].Deleting?
    requires IsValidProjectId(s.ops[op].id) && GoesOn(s.db, s.ops[op].id, s.ops[op].owner, readFault)
    ensures var (d, s1) := (s.ops[op], Step(s, DeleteRead(op, readFault)));
            && s1.db == s.db && op in s1.ops
            && s1.ops[op] == DeletingNamed(d.id, d.owner, GetCall(s.db, d.id, readFault).project.name)
  {
    hide IsValidProjectId;
  }

  lemma {:induction false} WriteFollows(s: State, s2: State, op: nat, readFault: Fault, writeFault: Fault)
    requires op in s.ops && s.ops[op].Deleting? && op in s2.ops && Consistent(s.db) && Rely(s.db, s2.db)
    requires GoesOn(s.db, s.ops[op].id, s.ops[op].owner, readFault)
    requires s2.ops[op] == DeletingNamed(s.ops[op].id, s.ops[op].owner,
                                         GetCall(s.db, s.ops[op].id, readFault).project.name)
    ensures WritesAsMethod(s, s2, op, readFault, writeFault)
  {
    hide Consistent, Rely, DeleteCall;
    assert s2.history + [] == s2.history;
  }

  // ---- the record handler ---------------------------------------------------------------------

  /** The raw record the stream carries for a project's item. */
  function Raw(record: StreamRecord): Provisioner.RawRecord
    requires record.image.Some?
  {
    Provisioner.RawRecord(record.eventName, Some(RecordItem(record.image.value)))
  }

  /** The system delivers to handling exactly what the handler's filters pass. */
  lemma {:induction false} FiltersAreAdmission(record: StreamRecord, k: string, reservation: Reservation)
    requires record.image.Some?
    ensures Provisioner.Passes(Raw(record)) <==> Admits(record)
    ensures Provisioner.IsReadable(RecordItem(record.image.value))
            && Provisioner.HasRequest(RecordItem(record.image.value))
    ensures Provisioner.RequestOf(RecordItem(record.image.value)).projectId == record.image.value.project.projectId
  {
    hide Provisioner.Passes, Provisioner.IsReadable, Provisioner.HasRequest, Provisioner.RequestOf, RecordItem;
    Provisioner.FiltersMeaning(record.eventName, record.image.value, k, reservation);
  }

  /** Delivery, then the begin write. */
  function Opening(inv: nat, index: nat, begun: Instant, beginFault: Fault): seq<Label> {
    [Deliver(inv, index, begun), BeginWrite(inv, beginFault)]
  }

  predicate CanOpen(s: State, inv: nat, index: nat, begun: Instant) {
    inv !in s.fleet.invocations && index < |s.stream| && Admits(s.stream[index]) && IsInstant(begun)
  }

  function IdAt(s: State, index: nat): string
    requires index < |s.stream| && Admits(s.stream[index])
  {
    s.stream[index].image.value.project.projectId
  }

  lemma {:induction false} OpeningRuns(s: State, inv: nat, index: nat, begun: Instant, beginFault: Fault)
    requires CanOpen(s, inv, index, begun)
    ensures Run(s, Opening(inv, index, begun, beginFault))
    ensures var s' := After(s, Opening(inv, index, begun, beginFault));
            var (db', r) := BeginCall(s.db, IdAt(s, index), begun, beginFault);
            && s'.db == db' && s'.fleet.provisioned == s.fleet.provisioned
            && inv in s'.fleet.invocations && s'.fleet.invocations[inv].Handling?
            && s'.fleet.invocations[inv].id == IdAt(s, index)
            && (r == Done(true) ==> IsProvisioning(s'.fleet, inv))
            && (r == Done(false) ==> CameBack(s'.fleet, inv))
            && (r == TransitionRaised ==> EndedAs(s'.fleet, inv, Raised))
  {
    hide TransitionCall, IsInstant, Logged, ModifyRecords;
    var ls := Opening(inv, index, begun, beginFault);
    assert Enabled(s, Deliver(inv, index, begun));
    var s1 := Step(s, Deliver(inv, index, begun));
    assert Enabled(s1, BeginWrite(inv, beginFault));
    OneStep(s1, BeginWrite(inv, beginFault));
    assert ls[1..] == [BeginWrite(inv, beginFault)];
  }

  /** Handling that ends with its begin write is the method's. */
  lemma {:induction false} HandlerStops(s: State, inv: nat, index: nat, outcome: Provisioned, begun: Instant,
                                        ended: Instant, beginFault: Fault, meanwhile: Db, finishFault: Fault)
    requires CanOpen(s, inv, index, begun)
    requires BeginCall(s.db, IdAt(s, index), begun, beginFault).1 != Done(true)
    ensures var ls := Opening(inv, index, begun, beginFault);
            && Run(s, ls)
            && var (db', handled) :=
                 Provisioner.HandleSteps(s.db, meanwhile, IdAt(s, index), true, outcome, begun, ended, beginFault,
                                         finishFault);
               && After(s, ls).db == db' && After(s, ls).fleet.provisioned == s.fleet.provisioned
               && (EndedAs(After(s, ls).fleet, inv, Raised) <==> handled.HandlerRaised?)
               && (CameBack(After(s, ls).fleet, inv) <==> handled.AlreadyHandled?)
  {
    hide Run, After, BeginCall, Opening, CanOpen;
    OpeningRuns(s, inv, index, begun, beginFault);
  }

  /** All of a handling whose begin write moved the record, with the steps of others. */
  function Handling(inv: nat, index: nat, outcome: Provisioned, begun: Instant, ended: Instant, beginFault: Fault,
                    others: seq<Label>, more: seq<Label>): seq<Label>
  {
    Opening(inv, index, begun, beginFault) + others + [Provision(inv, outcome, ended)] + more
  }

  /** No one else can take over a project while an invocation is at work on it. */
  lemma {:induction false} HeldByHandler(s: State, inv: nat)
    requires Reachable(s) && (IsProvisioning(s.fleet, inv) || IsFinishing(s.fleet, inv))
    ensures var id := s.fleet.invocations[inv].id; id in s.db.records ==> HasStatus(s.db, id, PROVISIONING)
  {
    hide Reachable, Begun, Settled, CalledFor;
    FleetFacts(s);
    var id := s.fleet.invocations[inv].id;
    assert InvocationInv(s.fleet, inv, s.db);
    if id in s.db.records { assert StatusInv(s.fleet, id, s.db); }
  }

  lemma {:induction false} NotYetCalled(s: State, id: string, begun: Instant, fault: Fault)
    requires Reachable(s) && BeginCall(s.db, id, begun, fault).1 == Done(true)
    ensures id !in s.fleet.provisioned
  {
    hide Reachable;
    ProvisionedOnce(s);
  }

  lemma {:induction false} CallsAreKept(s: State, ls: seq<Label>)
    requires Run(s, ls)
    ensures s.fleet.provisioned <= After(s, ls).fleet.provisioned
    decreases |ls|
  {
    hide Step, Enabled;
    if ls != [] {
      CallsAreKeptByStep(s, ls[0]);
      CallsAreKept(Step(s, ls[0]), ls[1..]);
    }
  }

  lemma {:induction false} CallsAreKeptByStep(s: State, l: Label)
    requires Enabled(s, l)
    ensures s.fleet.provisioned <= Step(s, l).fleet.provisioned
  {
    hide TransitionCall, CreateCall, DeleteCall, GetReport, IsNew, IsInstant, Logged, ModifyRecords;
  }

  lemma {:induction false} ProvisionRuns(s: State, inv: nat, others: seq<Label>, outcome: Provisioned, ended: Instant)
    requires Reachable(s) && IsProvisioning(s.fleet, inv) && Run(s, others) && Spares(others, inv) && IsInstant(ended)
    ensures Run(s, others + [Provision(inv, outcome, ended)])
    ensures var (s', id) := (After(s, others + [Provision(inv, outcome, ended)]), s.fleet.invocations[inv].id);
            && Reachable(s') && IsFinishing(s'.fleet, inv) && s'.fleet.invocations[inv].id == id
            && s'.fleet.invocations[inv].phase == Finishing(outcome, ended)
            && s'.fleet.provisioned == After(s, others).fleet.provisioned + [id]
  {
    hide Reachable, Run, After, Spares, IsInstant;
    ReachableRun(s, others);
    InvocationSpared(s, others, inv);
    var s1 := After(s, others);
    assert Enabled(s1, Provision(inv, outcome, ended));
    ReachableStep(s1, Provision(inv, outcome, ended));
    RunExtends(s, others, [Provision(inv, outcome, ended)]);
  }

  lemma {:induction false} FinishRuns(s: State, inv: nat, more: seq<Label>, finishFault: Fault)
    requires Reachable(s) && IsFinishing(s.fleet, inv) && Run(s, more) && Spares(more, inv)
    ensures Run(s, more + [FinishWrite(inv, finishFault)])
    ensures var (s1, s') := (After(s, more), After(s, more + [FinishWrite(inv, finishFault)]));
            var (id, phase) := (s.fleet.invocations[inv].id, s.fleet.invocations[inv].phase);
            var (db', r) := FinishCall(s1.db, id, phase.outcome, phase.now, finishFault);
            && s'.db == db' && EndedAs(s'.fleet, inv, if r.TransitionRaised? then Raised else Returned)
            && (id in s1.db.records ==> HasStatus(s1.db, id, PROVISIONING))
  {
    hide Reachable, Run, After, Spares, TransitionCall, Logged, ModifyRecords, FinishStatus, FinishExtra;
    ReachableRun(s, more);
    InvocationSpared(s, more, inv);
    var s1 := After(s, more);
    HeldByHandler(s1, inv);
    assert Enabled(s1, FinishWrite(inv, finishFault));
    ReachableStep(s1, FinishWrite(inv, finishFault));
    RunExtends(s, more, [FinishWrite(inv, finishFault)]);
  }

  /** Handling whose begin write moved the record, whatever others do before and after its
      call of `provision`: the method's steps on the table they left, in which the project
      is still PROVISIONING or was deleted. `provision` is called once, for this id. */
  lemma {:induction false} HandlerGoesOn(s: State, inv: nat, index: nat, outcome: Provisioned, begun: Instant,
                                         ended: Instant, beginFault: Fault, others: seq<Label>, more: seq<Label>,
                                         finishFault: Fault)
    requires Reachable(s) && CanOpen(s, inv, index, begun) && IsInstant(ended)
    requires BeginCall(s.db, IdAt(s, index), begun, beginFault).1 == Done(true)
    requires Run(s, Handling(inv, index, outcome, begun, ended, beginFault, others, more))
    requires Spares(others, inv) && Spares(more, inv)
    ensures var (ls, id) := (Handling(inv, index, outcome, begun, ended, beginFault, others, more), IdAt(s, index));
            && Run(s, ls + [FinishWrite(inv, finishFault)])
            && var (meanwhile, s') := (After(s, ls).db, After(s, ls + [FinishWrite(inv, finishFault)]));
               var (db', handled) :=
                 Provisioner.HandleSteps(s.db, meanwhile, id, true, outcome, begun, ended, beginFault, finishFault);
               && s'.db == db'
               && (EndedAs(s'.fleet, inv, Raised) <==> handled.HandlerRaised?)
               && (EndedAs(s'.fleet, inv, Returned) <==> handled.Finished?)
               && (id in meanwhile.records ==> HasStatus(meanwhile, id, PROVISIONING))
               && id !in s.fleet.provisioned && id in s'.fleet.provisioned
  {
    hide Reachable, Run, After, Spares, BeginCall, FinishCall, Opening, IsInstant, Admits;
    var (opening, provision) := (Opening(inv, index, begun, beginFault), Provision(inv, outcome, ended));
    var ls := Handling(inv, index, outcome, begun, ended, beginFault, others, more);
    OpeningRuns(s, inv, index, begun, beginFault);
    NotYetCalled(s, IdAt(s, index), begun, beginFault);
    SplitAfter(s, opening, others + [provision] + more, ls);
    var s1 := After(s, opening);
    ReachableRun(s, opening);
    SplitAfter(s1, others, [provision] + more, others + [provision] + more);
    ProvisionRuns(s1, inv, others, outcome, ended);
    SplitAfter(s1, others + [provision], more, others + [provision] + more);
    var s2 := After(s1, others + [provision]);
    FinishRuns(s2, inv, more, finishFault);
    var (first, last) := (others + [provision], more + [FinishWrite(inv, finishFault)]);
    RunExtends(s1, first, last);
    RunExtends(s, opening, first + last);
    assert opening + (first + last) == ls + [FinishWrite(inv, finishFault)];
    assert opening + (first + more) == ls;
    RunExtends(s1, first, more);
    RunExtends(s, opening, first + more);
    CallsAreKept(s2, last);
    var s' := After(s, ls + [FinishWrite(inv, finishFault)]);
    assert s' == After(s2, last) && After(s, ls) == After(s2, more);
    var (db', r) := FinishCall(After(s2, more).db, IdAt(s, index), outcome, ended, finishFault);
    assert s'.db == db';
    assert EndedAs(s'.fleet, inv, if r.TransitionRaised? then Raised else Returned);
    var n := |s2.fleet.provisioned| - 1;
    assert s2.fleet.provisioned[n] == IdAt(s, index) && s'.fleet.provisioned[n] == s2.fleet.provisioned[n];
  }

  lemma {:induction false} SplitAfter(s: State, a: seq<Label>, b: seq<Label>, ls: seq<Label>)
    requires ls == a + b && Run(s, ls)
    ensures Run(s, a) && Run(After(s, a), b) && After(After(s, a), b) == After(s, ls)
  {
    hide Run, After;
    RunSplits(s, ls, |a|);
    assert ls[..|a|] == a && ls[|a|..] == b;
  }
}
