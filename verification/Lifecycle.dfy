/** What every run does to a project's status, and when provisioning gets stuck. */
module Lifecycle {
  import opened Clock
  import opened Domain
  import opened Dynamo
  import opened Store
  import opened Protocol
  import opened Invariant

  // ---- one step, one record ----------------------------------------------------------

  predicate IsEdge(a: Status, b: Status) {
    (a == CREATED && b == PROVISIONING) || (a == PROVISIONING && (b == READY || b == FAILED))
  }

  /** Records only appear CREATED under a new id, vanish, or move along one edge. */
  ghost predicate RecordsEvolve(db: Db, db': Db) {
    forall id :: id in db'.records ==>
      if id in db.records then
        db'.records[id] == db.records[id] || IsEdge(db.records[id].project.status, db'.records[id].project.status)
      else
        id !in db.inserted && db'.records[id].project.status == CREATED
  }

  lemma {:induction false} CreateEvolves(db: Db, p: Project, fault: Fault)
    requires p.projectId !in db.inserted && p.projectId !in db.records && p.status == CREATED
    ensures RecordsEvolve(db, CreateCall(db, p, fault).0)
  {
    hide TakesEffect, CreateConditions;
  }

  lemma {:induction false} DeleteEvolves(db: Db, id: string, owner: string, name: string, fault: Fault)
    ensures RecordsEvolve(db, DeleteCall(db, id, owner, name, fault).0)
  {
    hide TakesEffect, DeleteConditions;
  }

  lemma {:induction false} WriteEvolves(db: Db, id: string, expected: Status, target: Status, now: Instant,
                                        extra: Extra, fault: Fault)
    requires IsEdge(expected, target)
    ensures RecordsEvolve(db, TransitionCall(db, id, expected, target, now, extra, fault).0)
  {
  }

  lemma {:induction false} CreatingIsFresh(s: State, op: nat)
    requires Inv(s) && op in s.ops && s.ops[op].Creating?
    ensures var p := s.ops[op].project;
            p.projectId !in s.db.inserted && p.projectId !in s.db.records && p.status == CREATED
  {
    hide FleetInv, StreamInv, WellFormed, Held;
    OpFacts(s, op);
    var id := s.ops[op].project.projectId;
    assert id in s.db.records ==> Reserved(s.db, id);
  }

  lemma {:induction false} StepEvolves(s: State, l: Label)
    requires Inv(s) && Enabled(s, l)
    ensures RecordsEvolve(s.db, Step(s, l).db)
  {
    hide Inv, RecordsEvolve, CreateCall, DeleteCall, TransitionCall;
    SameEvolves(s.db);
    match l
    case CreateWrite(op, fault) =>
      CreatingIsFresh(s, op);
      CreateEvolves(s.db, s.ops[op].project, fault);
    case DeleteWrite(op, fault) => DeleteEvolves(s.db, s.ops[op].id, s.ops[op].owner, s.ops[op].name, fault);
    case BeginWrite(inv, fault) =>
      var h := s.fleet.invocations[inv];
      WriteEvolves(s.db, h.id, CREATED, PROVISIONING, h.begunAt, NoExtra, fault);
    case FinishWrite(inv, fault) =>
      var h := s.fleet.invocations[inv];
      WriteEvolves(s.db, h.id, PROVISIONING, FinishStatus(h.phase.outcome), h.phase.now, FinishExtra(h.phase.outcome),
                   fault);
    case _ =>
  }

  lemma {:induction false} SameEvolves(db: Db)
    ensures RecordsEvolve(db, db)
  {
  }

  // ---- the statuses a run shows ---------------------------------------------------------

  /** Adds the record's status to what was seen of it, when it is a new one. */
  function Look(seen: seq<Status>, db: Db, id: string): seq<Status> {
    if id in db.records && (seen == [] || seen[|seen| - 1] != db.records[id].project.status)
    then seen + [db.records[id].project.status] else seen
  }

  /** The successive distinct statuses of `id` over a run, looking at every state. */
  ghost function Seen(seen: seq<Status>, s: State, ls: seq<Label>, id: string): seq<Status>
    requires Run(s, ls)
    decreases |ls|
  {
    var now := Look(seen, s.db, id);
    if ls == [] then now else Seen(now, Step(s, ls[0]), ls[1..], id)
  }

  ghost predicate IsStatusPath(path: seq<Status>) {
    path in {[], [CREATED], [CREATED, PROVISIONING], [CREATED, PROVISIONING, READY], [CREATED, PROVISIONING, FAILED]}
  }

  /** What was seen is a path that fits the record as it is now. */
  ghost predicate Fits(seen: seq<Status>, db: Db, id: string) {
    && IsStatusPath(seen)
    && (id !in db.inserted && id !in db.records ==> seen == [])
    && (id in db.records ==>
          if seen == [] then db.records[id].project.status == CREATED
          else (
            || seen[|seen| - 1] == db.records[id].project.status
            || IsEdge(seen[|seen| - 1], db.records[id].project.status)))
  }

  lemma {:induction false} LookFits(seen: seq<Status>, db: Db, db': Db, id: string)
    requires Fits(seen, db, id) && RecordsEvolve(db, db') && db.inserted <= db'.inserted
    requires db.records.Keys <= db.inserted && db'.records.Keys <= db'.inserted
    ensures Fits(Look(seen, db, id), db', id) && IsStatusPath(Look(seen, db, id))
  {
    var next := Look(seen, db, id);
    if next != seen {
      var status := db.records[id].project.status;
      assert |seen| <= 2;
      assert next == if seen == [] then [status]
                     else if |seen| == 1 then [seen[0], status] else [seen[0], seen[1], status];
    }
  }

  lemma {:induction false} SeenIsPath(seen: seq<Status>, s: State, ls: seq<Label>, id: string)
    requires Inv(s) && Run(s, ls) && Fits(seen, s.db, id)
    ensures IsStatusPath(Seen(seen, s, ls, id))
    decreases |ls|
  {
    hide Inv, Step, Enabled, Fits, RecordsEvolve, IsStatusPath;
    InsertedCoversRecords(s);
    if ls == [] {
      SameEvolves(s.db);
      LookFits(seen, s.db, s.db, id);
    } else {
      var s' := Step(s, ls[0]);
      StepEvolves(s, ls[0]);
      StepKeepsInv(s, ls[0]);
      InsertedGrows(s, ls[0]);
      InsertedCoversRecords(s');
      LookFits(seen, s.db, s'.db, id);
      SeenIsPath(Look(seen, s.db, id), s', ls[1..], id);
    }
  }

  lemma {:induction false} InsertedCoversRecords(s: State)
    requires Inv(s)
    ensures s.db.records.Keys <= s.db.inserted
  {
    hide OpsInv, FleetInv, StreamInv, WellFormed, Held;
    forall id | id in s.db.records ensures id in s.db.inserted { assert Reserved(s.db, id); }
  }

  lemma {:induction false} InsertedGrows(s: State, l: Label)
    requires Inv(s) && Enabled(s, l)
    ensures s.db.inserted <= Step(s, l).db.inserted
  {
    hide Inv, Step, Enabled;
    StepRely(s, l);
  }

  /** For every delivery schedule, with duplicates, reordering, races, faults and crashes,
      a project's status runs through a prefix of CREATED, PROVISIONING, then READY or
      FAILED, and takes each edge at most once. */
  lemma {:induction false} StatusPath(ls: seq<Label>, id: string)
    requires Run(INITIAL, ls)
    ensures Seen([], INITIAL, ls, id) in
              {[], [CREATED], [CREATED, PROVISIONING], [CREATED, PROVISIONING, READY], [CREATED, PROVISIONING, FAILED]}
  {
    InitialInv();
    SeenIsPath([], INITIAL, ls, id);
  }

  /** `provision` is called at most once per id, only after its begin write took effect;
      `endpoint` occurs only when READY, `failureReason` exactly when FAILED. */
  lemma {:induction false} ProvisionedOnce(s: State)
    requires Reachable(s)
    ensures forall i, j :: 0 <= i < j < |s.fleet.provisioned| ==> s.fleet.provisioned[i] != s.fleet.provisioned[j]
    ensures forall id :: id in s.fleet.provisioned && id in s.db.records ==> s.db.records[id].project.status != CREATED
    ensures forall id :: id in s.db.records ==>
              var r := s.db.records[id];
              && (r.endpoint.Some? ==> r.project.status == READY && r.endpoint.value != "")
              && (r.failureReason.Some? <==> r.project.status == FAILED)
              && (r.failureReason.Some? ==> 1 <= |r.failureReason.value| <= 500)
  {
    hide OpsInv, StreamInv, Reachable;
    ReachableInv(s);
    forall id | id in s.fleet.provisioned && id in s.db.records ensures s.db.records[id].project.status != CREATED {
      assert CalledFor(s.fleet, id) && StatusInv(s.fleet, id, s.db);
    }
    forall id | id in s.db.records ensures WellFormed(s.db.records[id]) {}
  }

  // ---- stuck projects ---------------------------------------------------------------

  /** No invocation is still running. */
  ghost predicate Quiet(f: Fleet) {
    forall n :: n in f.invocations && f.invocations[n].Handling? ==> f.invocations[n].phase.Ended?
  }

  ghost predicate EndedAs(f: Fleet, n: nat, how: Ending) {
    n in f.invocations && f.invocations[n].Handling? && f.invocations[n].phase == Ended(how)
  }

  /** The invocation came to its end and its record counts as processed. */
  ghost predicate CameBack(f: Fleet, n: nat) {
    EndedAs(f, n, Returned) || EndedAs(f, n, Misled)
  }

  /** A begin write took effect, no finishing write did, and the invocation that began
      crashed, had a write raise, or was told its begin write was refused. */
  ghost predicate Abandoned(f: Fleet, id: string) {
    && id in f.begunBy && id !in f.settled && f.begunBy[id] in f.invocations
    && f.invocations[f.begunBy[id]].Handling?
    && f.invocations[f.begunBy[id]].phase in {Ended(Raised), Ended(Crashed), Ended(Misled)}
  }

  lemma {:induction false} FleetFacts(s: State)
    requires Reachable(s)
    ensures FleetInv(s.fleet, s.db)
  {
    hide FleetInv, DbInv, OpsInv, StreamInv, Reachable;
    ReachableInv(s);
  }

  /** Exactly which projects are left PROVISIONING when everything has ended. */
  lemma {:induction false} StuckExactly(s: State, id: string)
    requires Reachable(s) && Quiet(s.fleet) && id in s.db.records
    ensures s.db.records[id].project.status == PROVISIONING <==> Abandoned(s.fleet, id)
  {
    hide Reachable, CalledFor;
    FleetFacts(s);
    assert StatusInv(s.fleet, id, s.db);
    if id in s.fleet.begunBy {
      assert Begun(s.fleet, id);
      assert InvocationInv(s.fleet, s.fleet.begunBy[id], s.db);
      var how := s.fleet.invocations[s.fleet.begunBy[id]].phase.how;
      assert how == Returned || how == Raised || how == Crashed || how == Misled;
    }
  }

  /** Once some handling of a project came back and nothing runs any more, it is READY or
      FAILED exactly when it was not abandoned, or else deleted; and where no handling
      crashed, raised or was misled, none was abandoned. */
  lemma {:induction false} DeliveredProjectsFinish(s: State, n: nat)
    requires Reachable(s) && Quiet(s.fleet) && CameBack(s.fleet, n)
    ensures var id := s.fleet.invocations[n].id;
            id in s.db.records ==> (s.db.records[id].project.status in {READY, FAILED} <==> !Abandoned(s.fleet, id))
    ensures (forall m :: m in s.fleet.invocations && s.fleet.invocations[m].Handling? ==> EndedAs(s.fleet, m, Returned))
            ==> forall id :: !Abandoned(s.fleet, id)
  {
    hide Reachable, CalledFor;
    FleetFacts(s);
    var id := s.fleet.invocations[n].id;
    if id in s.db.records {
      assert StatusInv(s.fleet, id, s.db) && InvocationInv(s.fleet, n, s.db);
      StuckExactly(s, id);
      var status := s.db.records[id].project.status;
      assert status == CREATED || status == PROVISIONING || status == READY || status == FAILED;
    }
  }

  lemma {:induction false} StillAbandoned(s: State, l: Label, id: string)
    requires FleetInv(s.fleet, s.db) && Enabled(s, l) && Abandoned(s.fleet, id)
    ensures Abandoned(Step(s, l).fleet, id)
    ensures id !in s.fleet.provisioned ==> id !in Step(s, l).fleet.provisioned
  {
    hide TransitionCall, CreateCall, DeleteCall, GetReport, IsNew, IsInstant, WellFormed, Logged, ModifyRecords;
    match l
    case BeginWrite(inv, fault) =>
      var other := s.fleet.invocations[inv].id;
      if other == id && id in s.db.records { assert StatusInv(s.fleet, id, s.db); }
    case Provision(inv, outcome, now) => assert InvocationInv(s.fleet, inv, s.db);
    case FinishWrite(inv, fault) => assert InvocationInv(s.fleet, inv, s.db);
    case _ =>
  }

  lemma {:induction false} AbandonedAfter(s: State, ls: seq<Label>, id: string)
    requires Inv(s) && Run(s, ls) && Abandoned(s.fleet, id)
    ensures Inv(After(s, ls)) && Abandoned(After(s, ls).fleet, id)
    ensures id !in s.fleet.provisioned ==> id !in After(s, ls).fleet.provisioned
    decreases |ls|
  {
    hide Inv, Step, Enabled, Abandoned;
    if ls != [] {
      InvHasFleet(s);
      StillAbandoned(s, ls[0], id);
      StepKeepsInv(s, ls[0]);
      AbandonedAfter(Step(s, ls[0]), ls[1..], id);
    }
  }

  lemma {:induction false} InvHasFleet(s: State)
    requires Inv(s)
    ensures FleetInv(s.fleet, s.db)
  {
    hide FleetInv, DbInv, OpsInv, StreamInv;
  }

  /** An abandoned project stays so in every run, whatever is delivered again: it is
      PROVISIONING until it is deleted, and `provision` is not called for it any more. */
  lemma {:induction false} StuckForever(s: State, ls: seq<Label>, id: string)
    requires Reachable(s) && Run(s, ls) && Abandoned(s.fleet, id)
    ensures var s' := After(s, ls);
            && Abandoned(s'.fleet, id)
            && (id in s'.db.records ==> s'.db.records[id].project.status == PROVISIONING)
            && (id !in s.fleet.provisioned ==> id !in s'.fleet.provisioned)
  {
    hide Reachable, Inv, Run, After, Settled, CalledFor, Begun;
    ReachableInv(s);
    AbandonedAfter(s, ls, id);
    var s' := After(s, ls);
    InvHasFleet(s');
    if id in s'.db.records { assert StatusInv(s'.fleet, id, s'.db); }
  }

  /** The fault lets a write take effect without telling its caller so. */
  predicate IsUntold(fault: Fault) {
    fault.Resent? || (fault.Break? && fault.applied)
  }

  /** A gap beside the documented one: a begin write that took effect but raised, or was
      answered as refused, leaves the project PROVISIONING in every run from there until
      it is deleted, and `provision` is never called for it. */
  lemma {:induction false} LostBeginIsStuck(s: State, inv: nat, fault: Fault, ls: seq<Label>)
    requires Reachable(s) && IsStarting(s.fleet, inv) && HasStatus(s.db, s.fleet.invocations[inv].id, CREATED)
    requires IsUntold(fault) && Run(Step(s, BeginWrite(inv, fault)), ls)
    ensures var s' := After(Step(s, BeginWrite(inv, fault)), ls);
            var id := s.fleet.invocations[inv].id;
            && EndedAs(s'.fleet, inv, if fault.Resent? then Misled else Raised)
            && Abandoned(s'.fleet, id) && id !in s'.fleet.provisioned
            && (id in s'.db.records ==> s'.db.records[id].project.status == PROVISIONING)
  {
    hide Reachable, Run, After, Step;
    BeginLost(s, inv, fault);
    ReachableStep(s, BeginWrite(inv, fault));
    StuckForever(Step(s, BeginWrite(inv, fault)), ls, s.fleet.invocations[inv].id);
    EndedStays(Step(s, BeginWrite(inv, fault)), ls, inv, if fault.Resent? then Misled else Raised);
  }

  lemma {:induction false} BeginLost(s: State, inv: nat, fault: Fault)
    requires Reachable(s) && IsStarting(s.fleet, inv) && HasStatus(s.db, s.fleet.invocations[inv].id, CREATED)
    requires IsUntold(fault)
    ensures Enabled(s, BeginWrite(inv, fault))
    ensures var s' := Step(s, BeginWrite(inv, fault));
            var id := s.fleet.invocations[inv].id;
            && EndedAs(s'.fleet, inv, if fault.Resent? then Misled else Raised)
            && id !in s'.fleet.provisioned && Abandoned(s'.fleet, id)
  {
    hide Reachable, Logged, ModifyRecords;
    FleetFacts(s);
    var id := s.fleet.invocations[inv].id;
    assert StatusInv(s.fleet, id, s.db);
    assert id in s.fleet.provisioned ==> CalledFor(s.fleet, id);
    assert id in s.fleet.settled ==> Settled(s.fleet, id);
  }

  /** An invocation that has ended takes no further step. */
  lemma {:induction false} EndedStays(s: State, ls: seq<Label>, inv: nat, how: Ending)
    requires Run(s, ls) && EndedAs(s.fleet, inv, how)
    ensures EndedAs(After(s, ls).fleet, inv, how)
    ensures After(s, ls).fleet.invocations[inv] == s.fleet.invocations[inv]
    decreases |ls|
  {
    hide Step, Enabled;
    if ls != [] {
      EndedStep(s, ls[0], inv, how);
      EndedStays(Step(s, ls[0]), ls[1..], inv, how);
    }
  }

  lemma {:induction false} EndedStep(s: State, l: Label, inv: nat, how: Ending)
    requires Enabled(s, l) && EndedAs(s.fleet, inv, how)
    ensures EndedAs(Step(s, l).fleet, inv, how)
    ensures Step(s, l).fleet.invocations[inv] == s.fleet.invocations[inv]
  {
    hide TransitionCall, CreateCall, DeleteCall, GetReport, IsNew, IsInstant, Logged, ModifyRecords;
  }

  // ---- deleted projects stay deleted ------------------------------------------------------

  /** Once a delete has taken effect no run brings the id back. */
  lemma {:induction false} NoResurrection(s: State, ls: seq<Label>, id: string)
    requires Reachable(s) && Run(s, ls) && id in s.db.inserted && id !in s.db.records
    ensures id !in After(s, ls).db.records
  {
    hide Inv, Run, After;
    ReachableInv(s);
    RunKeepsInv(s, ls);
  }

  /** A provisioner step never adds or removes an item, and changes no record but its own,
      so not the project that took over the name. */
  lemma {:induction false} ProvisionerTouchesOwnRecord(s: State, l: Label)
    requires Reachable(s) && Enabled(s, l)
             && (l.Deliver? || l.BeginWrite? || l.Provision? || l.FinishWrite? || l.Crash?)
    ensures var s' := Step(s, l);
            && s'.db.names == s.db.names && s'.db.records.Keys == s.db.records.Keys
            && forall id :: id in s.db.records
                 && (l.inv in s.fleet.invocations && s.fleet.invocations[l.inv].Handling? ==>
                     id != s.fleet.invocations[l.inv].id)
                 ==> s'.db.records[id] == s.db.records[id]
  {
    hide Reachable, TransitionCall;
    ReachableConsistent(s);
    match l
    case BeginWrite(inv, fault) =>
      var h := s.fleet.invocations[inv];
      TransitionKeeps(s.db, h.id, CREATED, PROVISIONING, h.begunAt, NoExtra, fault);
    case FinishWrite(inv, fault) =>
      var h := s.fleet.invocations[inv];
      TransitionKeeps(s.db, h.id, PROVISIONING, FinishStatus(h.phase.outcome), h.phase.now,
                      FinishExtra(h.phase.outcome), fault);
    case _ =>
  }

  lemma {:induction false} ReachableConsistent(s: State)
    requires Reachable(s)
    ensures Consistent(s.db)
  {
    hide Consistent, OpsInv, FleetInv, StreamInv, Reachable;
    ReachableInv(s);
  }

  // ---- replays -------------------------------------------------------------------------

  /** Handling a record of this id has already come back. */
  ghost predicate HandlingReturned(f: Fleet, id: string) {
    exists n :: CameBack(f, n) && f.invocations[n].id == id
  }

  lemma {:induction false} HandledIsPastCreated(s: State, id: string)
    requires Reachable(s) && HandlingReturned(s.fleet, id)
    ensures id in s.db.inserted && !HasStatus(s.db, id, CREATED)
  {
    hide Reachable, CalledFor, Settled;
    FleetFacts(s);
    var n :| CameBack(s.fleet, n) && s.fleet.invocations[n].id == id;
    assert InvocationInv(s.fleet, n, s.db);
    if id in s.db.records { assert StatusInv(s.fleet, id, s.db); }
  }

  lemma {:induction false} PastCreatedStays(s: State, ls: seq<Label>, id: string)
    requires Inv(s) && Run(s, ls) && id in s.db.inserted && !HasStatus(s.db, id, CREATED)
    ensures !HasStatus(After(s, ls).db, id, CREATED)
    decreases |ls|
  {
    hide Inv, Step, Enabled;
    if ls != [] {
      StepEvolves(s, ls[0]);
      StepKeepsInv(s, ls[0]);
      InsertedGrows(s, ls[0]);
      PastCreatedStays(Step(s, ls[0]), ls[1..], id);
    }
  }

  /** Once handling of an id came back, no run of both writers makes it CREATED again. */
  lemma {:induction false} NeverCreatedAgain(s: State, ls: seq<Label>, id: string)
    requires Reachable(s) && Run(s, ls) && HandlingReturned(s.fleet, id)
    ensures !HasStatus(After(s, ls).db, id, CREATED)
  {
    hide Reachable, Run, After, Inv, HandlingReturned;
    HandledIsPastCreated(s, id);
    ReachableInv(s);
    PastCreatedStays(s, ls, id);
  }

  /** Hence, whoever wrote in between, a later begin write for that id changes nothing in
      table or stream, calls no `provision`, and ends its invocation. */
  lemma {:induction false} RedeliveryIsIdle(s: State, ls: seq<Label>, inv: nat, fault: Fault)
    requires Reachable(s) && Run(s, ls) && IsStarting(After(s, ls).fleet, inv)
    requires HandlingReturned(s.fleet, After(s, ls).fleet.invocations[inv].id)
    ensures var before := After(s, ls);
            var after := Step(before, BeginWrite(inv, fault));
            && after.db == before.db && after.stream == before.stream
            && after.fleet.provisioned == before.fleet.provisioned && after.fleet.begunBy == before.fleet.begunBy
            && EndedAs(after.fleet, inv, if fault.Break? then Raised else Returned)
  {
    hide Reachable, Run, After, HandlingReturned, Logged;
    NeverCreatedAgain(s, ls, After(s, ls).fleet.invocations[inv].id);
  }

  /** The label redelivers a record in `handled`, or belongs to such a redelivery. */
  predicate IsReplay(s: State, l: Label, handled: set<string>, before: set<nat>) {
    match l
    case Deliver(_, index, _) =>
      index < |s.stream| && (Admits(s.stream[index]) ==> s.stream[index].image.value.project.projectId in handled)
    case BeginWrite(inv, _) => inv !in before
    case Provision(inv, _, _) => inv !in before
    case FinishWrite(inv, _) => inv !in before
    case Crash(inv) => inv !in before
    case _ => false
  }

  ghost predicate ReplayRun(s: State, ls: seq<Label>, handled: set<string>, before: set<nat>)
    decreases |ls|
  {
    ls == [] || (Enabled(s, ls[0]) && IsReplay(s, ls[0], handled, before)
                 && ReplayRun(Step(s, ls[0]), ls[1..], handled, before))
  }

  /** Invocations not in `before` handle ids that are past CREATED and never get beyond begin. */
  ghost predicate Harmless(s: State, handled: set<string>, before: set<nat>) {
    && (forall id :: id in handled ==> !HasStatus(s.db, id, CREATED))
    && (forall n :: n in s.fleet.invocations && n !in before && s.fleet.invocations[n].Handling? ==>
          s.fleet.invocations[n].id in handled
          && (s.fleet.invocations[n].phase.Starting? || s.fleet.invocations[n].phase.Ended?))
  }

  lemma {:induction false} ReplayStep(s: State, l: Label, handled: set<string>, before: set<nat>)
    requires Harmless(s, handled, before) && Enabled(s, l) && IsReplay(s, l, handled, before)
    ensures var s' := Step(s, l);
            && Harmless(s', handled, before) && s'.db == s.db && s'.stream == s.stream
            && s'.fleet.provisioned == s.fleet.provisioned
  {
    hide IsInstant, IsNew;
  }

  lemma {:induction false} ReplayRunIsIdle(s: State, ls: seq<Label>, handled: set<string>, before: set<nat>)
    requires Harmless(s, handled, before) && ReplayRun(s, ls, handled, before)
    ensures Run(s, ls) && After(s, ls).db == s.db && After(s, ls).stream == s.stream
    ensures After(s, ls).fleet.provisioned == s.fleet.provisioned
    decreases |ls|
  {
    hide Harmless, Step, Enabled, IsReplay;
    if ls != [] {
      ReplayStep(s, ls[0], handled, before);
      ReplayRunIsIdle(Step(s, ls[0]), ls[1..], handled, before);
    }
  }

  /** Redelivering records whose handling returned, in any order and number, with any
      faults, changes nothing in the table and provisions nothing. */
  lemma {:induction false} ReplaysAreIdle(s: State, ls: seq<Label>, handled: set<string>)
    requires Reachable(s) && forall id :: id in handled ==> HandlingReturned(s.fleet, id)
    requires ReplayRun(s, ls, handled, s.fleet.invocations.Keys)
    ensures Run(s, ls) && After(s, ls).db == s.db && After(s, ls).stream == s.stream
    ensures After(s, ls).fleet.provisioned == s.fleet.provisioned
  {
    hide Reachable, Run, After, ReplayRun, HandlingReturned;
    forall id | id in handled ensures !HasStatus(s.db, id, CREATED) {
      HandledIsPastCreated(s, id);
    }
    ReplayRunIsIdle(s, ls, handled, s.fleet.invocations.Keys);
  }
}
