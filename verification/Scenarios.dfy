/** Runs from the empty table that end badly: a begin write that takes effect while its
    invocation is told otherwise. */
module Scenarios {
  import opened Clock
  import opened Domain
  import opened Dynamo
  import opened Store
  import opened Protocol
  import opened Invariant
  import opened Lifecycle
  import opened Linearizability
  import opened Names
  import opened Text
  import Cursor
  import Json
  import Listing
  import Paging

  /** A project is created and its stream record delivered. */
  function CreatedAndDelivered(p: Project, now: Instant): seq<Label> {
    [InvokeCreate(0, p), CreateWrite(0, NoFault), Deliver(0, 1, now)]
  }

  lemma {:induction false} CreatedState(p: Project)
    requires IsNew(p)
    ensures Enabled(INITIAL, InvokeCreate(0, p))
    ensures var s1 := Step(INITIAL, InvokeCreate(0, p));
            && Enabled(s1, CreateWrite(0, NoFault))
            && var s2 := Step(s1, CreateWrite(0, NoFault));
               && s2.db == WithProject(EMPTY_DB, p) && s2.fleet == INITIAL.fleet && s2.misreports == []
               && s2.stream == [StreamRecord("INSERT", None), StreamRecord("INSERT", Some(Record(p, None, None)))]
               && s2.history == [Invoke(Api(0), CreateProject(p)), Respond(Api(0), CreateProject(p), WasCreated)]
  {
    hide IsNew, NameKey, WithProject;
    var conditions := CreateConditions(EMPTY_DB, p);
    assert conditions[0] && conditions[1];
    assert p.projectId in WithProject(EMPTY_DB, p).records by { HasNewProject(p); }
  }

  lemma {:induction false} HasNewProject(p: Project)
    ensures var db := WithProject(EMPTY_DB, p);
            p.projectId in db.records && db.records[p.projectId] == Record(p, None, None)
  {
  }

  /** The state the run of `CreatedAndDelivered` ends in. */
  lemma {:induction false} DeliveredState(p: Project, now: Instant)
    requires IsNew(p) && IsInstant(now)
    ensures Run(INITIAL, CreatedAndDelivered(p, now)) && Reachable(After(INITIAL, CreatedAndDelivered(p, now)))
    ensures var s := After(INITIAL, CreatedAndDelivered(p, now));
            && s.db == WithProject(EMPTY_DB, p) && HasStatus(s.db, p.projectId, CREATED) && s.misreports == []
            && s.fleet == Fleet(map[0 := Handling(p.projectId, now, Starting)], map[], {}, [])
            && s.history == [Invoke(Api(0), CreateProject(p)), Respond(Api(0), CreateProject(p), WasCreated),
                             Invoke(Begin(0), BeginOf(Handling(p.projectId, now, Starting)))]
  {
    hide NameKey, WithProject, CreateCall;
    CreatedState(p);
    HasNewProject(p);
    var s1 := Step(INITIAL, InvokeCreate(0, p));
    var s2 := Step(s1, CreateWrite(0, NoFault));
    assert p.status == CREATED && Admits(s2.stream[1]);
    OneStep(INITIAL, InvokeCreate(0, p));
    OneStep(s1, CreateWrite(0, NoFault));
    OneStep(s2, Deliver(0, 1, now));
    RunExtends(s1, [CreateWrite(0, NoFault)], [Deliver(0, 1, now)]);
    RunExtends(INITIAL, [InvokeCreate(0, p)], [CreateWrite(0, NoFault)] + [Deliver(0, 1, now)]);
    assert [InvokeCreate(0, p)] + ([CreateWrite(0, NoFault)] + [Deliver(0, 1, now)]) == CreatedAndDelivered(p, now);
  }

  /** From there `LostBeginIsStuck` applies: for every new project, an untold begin write
      strands it in all runs that follow. With a resent one nothing even crashed or raised. */
  lemma {:induction false} StrandedProject(p: Project, now: Instant, fault: Fault, ls: seq<Label>)
    requires IsNew(p) && IsInstant(now) && IsUntold(fault)
    ensures Run(INITIAL, CreatedAndDelivered(p, now))
    ensures var s := After(INITIAL, CreatedAndDelivered(p, now));
            && Enabled(s, BeginWrite(0, fault))
            && var s' := Step(s, BeginWrite(0, fault));
               && HasStatus(s'.db, p.projectId, PROVISIONING) && Quiet(s'.fleet) && s'.fleet.provisioned == []
               && (fault.Resent? ==> CameBack(s'.fleet, 0))
               && (Run(s', ls) ==>
                     Abandoned(After(s', ls).fleet, p.projectId) && p.projectId !in After(s', ls).fleet.provisioned)
  {
    hide NameKey, IsNew, Reachable, WithProject, Run, After, CreatedAndDelivered;
    DeliveredState(p, now);
    var s := After(INITIAL, CreatedAndDelivered(p, now));
    BeginLost(s, 0, fault);
    var s' := Step(s, BeginWrite(0, fault));
    if Run(s', ls) { LostBeginIsStuck(s, 0, fault, ls); }
  }

  // ---- false answers -------------------------------------------------------------------------

  /** The client library resends a status write. */
  predicate Resends(l: Label) {
    (l.BeginWrite? || l.FinishWrite?) && l.fault.Resent?
  }

  lemma {:induction false} StepMisreports(s: State, l: Label)
    requires Enabled(s, l)
    ensures !Resends(l) ==> Step(s, l).misreports == s.misreports
  {
    hide HasStatus, WithStatus, CreateCall, DeleteCall, GetReport, IsNew, IsInstant;
  }

  lemma {:induction false} RunMisreports(s: State, ls: seq<Label>)
    requires Run(s, ls) && forall i :: 0 <= i < |ls| ==> !Resends(ls[i])
    ensures After(s, ls).misreports == s.misreports
    decreases |ls|
  {
    hide Step, Enabled, Resends;
    if ls != [] {
      StepMisreports(s, ls[0]);
      RunMisreports(Step(s, ls[0]), ls[1..]);
    }
  }

  /** Without resent status writes every answer is in the history, and all are linearizable. */
  lemma {:induction false} AllAnswersLinearizable(ls: seq<Label>)
    requires Run(INITIAL, ls) && forall i :: 0 <= i < |ls| ==> !Resends(ls[i])
    ensures var s := After(INITIAL, ls);
            s.misreports == [] && exists lin :: Linearizes(lin, s.history) && Replay(lin) == s.db.records
  {
    hide Run, After, Resends, Linearizes, Replay;
    RunMisreports(INITIAL, ls);
    ReachableLinearizable(After(INITIAL, ls));
  }

  /** A misreport is not: with the one of this run counted as an answer, no order explains
      the history, as the project was created before the write was called. */
  lemma {:induction false} MisreportNotLinearizable(p: Project, now: Instant)
    requires IsNew(p) && IsInstant(now)
    ensures Run(INITIAL, CreatedAndDelivered(p, now))
    ensures var s := After(INITIAL, CreatedAndDelivered(p, now));
            && Enabled(s, BeginWrite(0, Resent))
            && var s' := Step(s, BeginWrite(0, Resent));
               |s'.misreports| == 1 && !exists lin :: Linearizes(lin, s'.history + s'.misreports)
  {
    hide NameKey, IsNew, Reachable, WithProject, Run, After, CreatedAndDelivered, Linearizes;
    DeliveredState(p, now);
    var s := After(INITIAL, CreatedAndDelivered(p, now));
    var s' := Step(s, BeginWrite(0, Resent));
    var call := BeginOf(Handling(p.projectId, now, Starting));
    NewIsCreated(p);
    assert s.history + [] == s.history;
    assert s'.history + s'.misreports == Misreported(p, call);
    forall lin ensures !Linearizes(lin, s'.history + s'.misreports) {
      NoOrderExplains(p, call, lin);
    }
  }

  /** Created, then told that the move from CREATED was refused. */
  function Misreported(p: Project, call: Call): seq<Event> {
    [Invoke(Api(0), CreateProject(p)), Respond(Api(0), CreateProject(p), WasCreated),
     Invoke(Begin(0), call), Respond(Begin(0), call, WasMoved(false))]
  }

  lemma {:induction false} NewIsCreated(p: Project)
    requires IsNew(p)
    ensures p.status == CREATED
  {
  }

  lemma {:induction false} OnlyTwoOps(p: Project, call: Call, lin: seq<Completed>, k: nat)
    requires OnlyInvoked(lin, Misreported(p, call)) && k < |lin|
    ensures lin[k].op == Api(0) || lin[k].op == Begin(0)
  {
  }

  lemma {:induction false} BothInOrder(p: Project, call: Call, lin: seq<Completed>)
    requires AllAnswered(lin, Misreported(p, call)) && InRealTime(lin, Misreported(p, call)) && DistinctOps(lin)
    requires OnlyInvoked(lin, Misreported(p, call))
    ensures |lin| >= 2 && lin[0] == Completed(Api(0), CreateProject(p), WasCreated)
    ensures lin[1] == Completed(Begin(0), call, WasMoved(false))
  {
    hide OnlyInvoked;
    var h := Misreported(p, call);
    assert h[1].Respond? && h[3].Respond?;
    var a :| 0 <= a < |lin| && lin[a] == Completed(Api(0), CreateProject(p), WasCreated);
    var b :| 0 <= b < |lin| && lin[b] == Completed(Begin(0), call, WasMoved(false));
    assert EndsBefore(h, 1, 2);
    assert a < b;
    OnlyTwoOps(p, call, lin, 0);
    OnlyTwoOps(p, call, lin, 1);
  }

  lemma {:induction false} NoOrderExplains(p: Project, call: Call, lin: seq<Completed>)
    requires p.status == CREATED && call.Transition? && call.id == p.projectId && call.expected == CREATED
    ensures !Linearizes(lin, Misreported(p, call))
  {
    hide Legal, AllAnswered, InRealTime, DistinctOps, OnlyInvoked;
    if Linearizes(lin, Misreported(p, call)) {
      BothInOrder(p, call, lin);
      FirstIsCreate(p, lin, call);
    }
  }

  lemma {:induction false} FirstIsCreate(p: Project, lin: seq<Completed>, call: Call)
    requires Legal(lin) && |lin| >= 2 && lin[0].call == CreateProject(p) && lin[1].call == call && p.status == CREATED
    requires call.Transition? && call.id == p.projectId && call.expected == CREATED
    ensures lin[1].result == WasMoved(true)
  {
    hide NameKey;
    assert lin[..1][..0] == [] && lin[..1][0] == lin[0];
    assert Replay(lin[..1]) == Spec(Replay([]), CreateProject(p)).0;
    assert Spec(Replay(lin[..1]), lin[1].call).1 == lin[1].result;
  }

  // ---- an owner whose listing breaks off --------------------------------------------------------

  /** Two projects are created. */
  function TwoCreated(p: Project, q: Project): seq<Label> {
    [InvokeCreate(0, p), CreateWrite(0, NoFault), InvokeCreate(1, q), CreateWrite(1, NoFault)]
  }

  lemma {:induction false} TwoCreatedState(p: Project, q: Project)
    requires IsNew(p) && IsNew(q) && p.projectId != q.projectId && NameKey(p.name) != NameKey(q.name)
    ensures Run(INITIAL, TwoCreated(p, q)) && Reachable(After(INITIAL, TwoCreated(p, q)))
    ensures After(INITIAL, TwoCreated(p, q)).db == WithProject(WithProject(EMPTY_DB, p), q)
  {
    hide IsNew, NameKey, WithProject, CreateReport;
    CreatedState(p);
    var s1 := Step(INITIAL, InvokeCreate(0, p));
    var s2 := Step(s1, CreateWrite(0, NoFault));
    assert Enabled(s2, InvokeCreate(1, q));
    var s3 := Step(s2, InvokeCreate(1, q));
    FreeForAnother(p, q);
    OneStep(INITIAL, InvokeCreate(0, p));
    OneStep(s1, CreateWrite(0, NoFault));
    OneStep(s2, InvokeCreate(1, q));
    OneStep(s3, CreateWrite(1, NoFault));
    RunExtends(s2, [InvokeCreate(1, q)], [CreateWrite(1, NoFault)]);
    RunExtends(s1, [CreateWrite(0, NoFault)], [InvokeCreate(1, q)] + [CreateWrite(1, NoFault)]);
    RunExtends(INITIAL, [InvokeCreate(0, p)],
               [CreateWrite(0, NoFault)] + ([InvokeCreate(1, q)] + [CreateWrite(1, NoFault)]));
    assert [InvokeCreate(0, p)] + ([CreateWrite(0, NoFault)] + ([InvokeCreate(1, q)] + [CreateWrite(1, NoFault)]))
           == TwoCreated(p, q);
  }

  lemma {:induction false} FreeForAnother(p: Project, q: Project)
    requires p.projectId != q.projectId && NameKey(p.name) != NameKey(q.name)
    ensures var conditions := CreateConditions(WithProject(EMPTY_DB, p), q); conditions[0] && conditions[1]
    ensures var db := WithProject(WithProject(EMPTY_DB, p), q);
            && p.projectId in db.records && db.records[p.projectId].project == p
            && q.projectId in db.records && db.records[q.projectId].project == q
  {
    hide NameKey;
  }

  /** For any two new projects of an owner id beyond the bound, such as a plain one of 580
      characters, a listing of the table they are in is refused its second page. */
  lemma {:induction false} ListingBreaksOff(p: Project, q: Project)
    requires IsNew(p) && IsNew(q) && p.projectId != q.projectId && NameKey(p.name) != NameKey(q.name)
    requires p.ownerId == q.ownerId && |Json.Escape(p.ownerId)| > 579
    ensures Run(INITIAL, TwoCreated(p, q))
    ensures exists first: Listing.Answer ::
              && first.db == After(INITIAL, TwoCreated(p, q)).db
              && Listing.IsSession(p.ownerId, [first]) && first.next.Some?
              && Cursor.DecodeCursor(first.next.value, p.ownerId).None?
              && !(Listing.Lists(first.projects, p.projectId) && Listing.Lists(first.projects, q.projectId))
  {
    hide IsNew, NameKey, WithProject, Reachable, Run, After, TwoCreated, Inv, Listing.IsSession, Cursor.DecodeCursor,
         Listing.Lists, Json.Escape, DbInv;
    TwoCreatedState(p, q);
    FreeForAnother(p, q);
    var s := After(INITIAL, TwoCreated(p, q));
    ReachableInv(s);
    Listing.InvHasDb(s);
    Paging.LongOwnerMissesProjects(s.db, p.ownerId, p.projectId, q.projectId);
  }

  /** A plain owner id of 580 characters is beyond the bound. */
  lemma {:induction false} PlainOwnerBeyond(owner: string)
    requires Cursor.IsPlain(owner) && |owner| >= 580
    ensures |Json.Escape(owner)| > 579
  {
    hide Json.Escape, Cursor.IsPlain;
    Cursor.EscapePlain(owner);
  }
}
