/** Races for a name: competing creates, deletes against reuse, and the bijection
    between records and reservations. */
module Races {
  import opened Outcomes
  import opened Text
  import opened Names
  import opened Domain
  import opened Dynamo
  import opened Store
  import opened Protocol
  import opened Invariant
  import Lifecycle
  import Layout

  // ---- records and reservations ---------------------------------------------------------

  function KeyOf(db: Db, id: string): string
    requires id in db.records
  {
    NameKey(db.records[id].project.name)
  }

  /** In every reachable state `KeyOf` is a bijection from records onto reservations,
      and each reservation carries its record's id, owner and creation time. */
  lemma {:induction false} NamesAreUnique(s: State)
    requires Reachable(s)
    ensures forall a, b :: a in s.db.records && b in s.db.records && KeyOf(s.db, a) == KeyOf(s.db, b) ==> a == b
    ensures forall id :: id in s.db.records ==>
              KeyOf(s.db, id) in s.db.names && s.db.names[KeyOf(s.db, id)] == OwnReservation(s.db.records[id].project)
    ensures s.db.names.Keys == set id | id in s.db.records :: KeyOf(s.db, id)
  {
    hide NameKey, Reachable;
    Lifecycle.ReachableConsistent(s);
    forall id | id in s.db.records
      ensures KeyOf(s.db, id) in s.db.names && s.db.names[KeyOf(s.db, id)] == OwnReservation(s.db.records[id].project)
           && s.db.records[id].project.projectId == id
    {
      assert Reserved(s.db, id);
    }
    forall key | key in s.db.names ensures exists id :: id in s.db.records && KeyOf(s.db, id) == key {
      assert Held(s.db, key);
      assert KeyOf(s.db, s.db.names[key].projectId) == key;
    }
  }

  /** The same of the table's rows: no record without its reservation at its own name key,
      no reservation without its record, in agreement on id, owner and creation time. */
  lemma {:induction false} RowsPairUp(s: State, key: Key)
    requires Reachable(s) && key in Layout.Encode(s.db)
    ensures (exists id :: key == Layout.RecordKey(id) && Layout.RowReserved(Layout.Encode(s.db), id))
         || (exists k :: key == Layout.ReservationKey(k) && Layout.RowHeld(Layout.Encode(s.db), k))
  {
    hide NameKey, Reachable, Layout.Encode, Layout.RowReserved, Layout.RowHeld, Layout.RecordKey, Layout.ReservationKey;
    Lifecycle.ReachableConsistent(s);
    Layout.RowsInBijection(s.db, key);
  }

  // ---- N creates, one winner ------------------------------------------------------------

  predicate IsCreateAnswer(e: Event, key: string) {
    e.Respond? && e.call.CreateProject? && NameKey(e.call.project.name) == key
  }

  /** How many creates of names with this key were answered, and how many won. */
  function Answers(h: seq<Event>, key: string): nat {
    if h == [] then 0 else (if IsCreateAnswer(h[0], key) then 1 else 0) + Answers(h[1..], key)
  }

  function Wins(h: seq<Event>, key: string): nat {
    if h == [] then 0 else (if IsCreateAnswer(h[0], key) && h[0].result == WasCreated then 1 else 0) + Wins(h[1..], key)
  }

  function Losses(h: seq<Event>, key: string): nat {
    if h == [] then 0 else (if IsCreateAnswer(h[0], key) && h[0].result == WasTaken then 1 else 0) + Losses(h[1..], key)
  }

  lemma {:induction false} CountsConcat(a: seq<Event>, b: seq<Event>, key: string)
    ensures Answers(a + b, key) == Answers(a, key) + Answers(b, key)
    ensures Wins(a + b, key) == Wins(a, key) + Wins(b, key)
    ensures Losses(a + b, key) == Losses(a, key) + Losses(b, key)
  {
    hide NameKey;
    if a == [] {
      assert a + b == b;
    } else {
      assert (a + b)[1..] == a[1..] + b;
      CountsConcat(a[1..], b, key);
    }
  }

  /** A delete that would free this key. */
  predicate DeletesKey(s: State, l: Label, key: string) {
    l.DeleteWrite? && l.op in s.ops && s.ops[l.op].DeletingNamed? && NameKey(s.ops[l.op].name) == key
  }

  predicate CreatesKey(s: State, l: Label, key: string) {
    l.CreateWrite? && l.op in s.ops && s.ops[l.op].Creating? && NameKey(s.ops[l.op].project.name) == key
  }

  /** A run in which nobody deletes under this key; when `plain`, its creates meet no fault.
      Calls for other names do as they like. */
  ghost predicate Contest(s: State, ls: seq<Label>, key: string, plain: bool)
    decreases |ls|
  {
    ls == [] || (
      && Enabled(s, ls[0]) && !DeletesKey(s, ls[0], key)
      && (plain && CreatesKey(s, ls[0], key) ==> IsPlain(ls[0].fault))
      && Contest(Step(s, ls[0]), ls[1..], key, plain))
  }

  function AsNat(b: bool): nat { if b then 1 else 0 }

  /** How many creates under this key have their call made. */
  ghost function Entrants(s: State, ls: seq<Label>, key: string): nat
    requires Run(s, ls)
    decreases |ls|
  {
    if ls == [] then 0 else AsNat(CreatesKey(s, ls[0], key)) + Entrants(Step(s, ls[0]), ls[1..], key)
  }

  /** What part of a contest with that many entrants adds to the counts. */
  ghost predicate Scores(s: State, s': State, key: string, plain: bool, entrants: nat) {
    && s.history <= s'.history
    && var added := s'.history[|s.history|..];
       && Wins(added, key) + AsNat(key in s.db.names) <= AsNat(key in s'.db.names)
       && (plain ==>
             && Wins(added, key) + AsNat(key in s.db.names) == AsNat(key in s'.db.names)
             && Wins(added, key) + Losses(added, key) == Answers(added, key) == entrants
             && (Answers(added, key) > 0 ==> key in s'.db.names))
  }

  lemma {:induction false} SingleEventCounts(e: Event, key: string)
    ensures Answers([e], key) == AsNat(IsCreateAnswer(e, key))
    ensures Wins([e], key) == AsNat(IsCreateAnswer(e, key) && e.result == WasCreated)
    ensures Losses([e], key) == AsNat(IsCreateAnswer(e, key) && e.result == WasTaken)
  {
    hide IsCreateAnswer;
    assert [e][1..] == [];
  }

  /** At most one event is added, and no answer for this key. */
  ghost predicate IsQuiet(s: State, s': State, key: string) {
    && (key in s'.db.names <==> key in s.db.names)
    && (s'.history == s.history || exists e :: s'.history == s.history + [e] && !IsCreateAnswer(e, key))
  }

  lemma {:induction false} QuietStepScores(s: State, s': State, key: string, plain: bool)
    requires IsQuiet(s, s', key)
    ensures Scores(s, s', key, plain, 0)
  {
    hide IsCreateAnswer;
    if s'.history == s.history {
      assert s'.history[|s.history|..] == [];
    } else {
      var e :| s'.history == s.history + [e] && !IsCreateAnswer(e, key);
      assert s'.history[|s.history|..] == [e];
      SingleEventCounts(e, key);
    }
  }

  /** A create under this key: one more win needs the key to have been free. */
  lemma {:induction false} CreateScores(s: State, op: nat, fault: Fault, key: string, plain: bool)
    requires Inv(s) && op in s.ops && s.ops[op].Creating? && NameKey(s.ops[op].project.name) == key
    requires plain ==> IsPlain(fault)
    ensures Scores(s, DoCreateWrite(s, op, fault), key, plain, 1)
  {
    hide NameKey, Inv, Contains, HonestCancel;
    Lifecycle.CreatingIsFresh(s, op);
    var (s', p) := (DoCreateWrite(s, op, fault), s.ops[op].project);
    var conditions := CreateConditions(s.db, p);
    var report := CreateReport(CreateCall(s.db, p, fault).1);
    CreateAnswers(s.db, p, fault);
    assert conditions[1] && conditions[0] == (key !in s.db.names);
    assert ExactReasons(conditions)[0] == if conditions[0] then NoReason else ConditionalCheckFailed;
    if report.None? {
      assert s'.history[|s.history|..] == [];
    } else {
      var e := Respond(Api(op), CreateProject(p), report.value);
      assert s'.history[|s.history|..] == [e];
      SingleEventCounts(e, key);
    }
  }

  lemma {:induction false} OtherCreateIsQuiet(s: State, op: nat, fault: Fault, key: string)
    requires op in s.ops && s.ops[op].Creating? && NameKey(s.ops[op].project.name) != key
    ensures IsQuiet(s, DoCreateWrite(s, op, fault), key)
  {
    hide NameKey, TakesEffect, CreateConditions, CreateOutcome;
    var (s', p) := (DoCreateWrite(s, op, fault), s.ops[op].project);
    var report := CreateReport(CreateCall(s.db, p, fault).1);
    if report.Some? {
      var e := Respond(Api(op), CreateProject(p), report.value);
      assert s'.history == s.history + [e] && !IsCreateAnswer(e, key);
    }
  }

  lemma {:induction false} OtherDeleteIsQuiet(s: State, op: nat, fault: Fault, key: string)
    requires op in s.ops && s.ops[op].DeletingNamed? && NameKey(s.ops[op].name) != key
    ensures IsQuiet(s, DoDeleteWrite(s, op, fault), key)
  {
    hide NameKey, TakesEffect, DeleteConditions, DeleteOutcome;
    var (s', d) := (DoDeleteWrite(s, op, fault), s.ops[op]);
    var report := DeleteReport(DeleteCall(s.db, d.id, d.owner, d.name, fault).1);
    if report.Some? {
      var e := Respond(Api(op), DeleteProject(d.id, d.owner), report.value);
      assert s'.history == s.history + [e] && !IsCreateAnswer(e, key);
    }
  }

  lemma {:induction false} OtherStepIsQuiet(s: State, l: Label, key: string)
    requires Enabled(s, l) && !l.CreateWrite? && !l.DeleteWrite?
    ensures IsQuiet(s, Step(s, l), key)
  {
    hide NameKey, IsNew, GetReport, UpdateTakesEffect;
    var s' := Step(s, l);
    assert s.history + [] == s.history;
    if |s'.history| > |s.history| {
      var e := s'.history[|s.history|];
      assert s'.history == s.history + [e] && !IsCreateAnswer(e, key);
    }
  }

  lemma {:induction false} StepScores(s: State, l: Label, key: string, plain: bool)
    requires Inv(s) && Enabled(s, l) && !DeletesKey(s, l, key)
    requires plain && CreatesKey(s, l, key) ==> IsPlain(l.fault)
    ensures Scores(s, Step(s, l), key, plain, AsNat(CreatesKey(s, l, key)))
  {
    hide Inv, Scores, DoCreateWrite, DoDeleteWrite, NameKey, IsQuiet;
    if CreatesKey(s, l, key) {
      CreateScores(s, l.op, l.fault, key, plain);
    } else {
      match l {
        case CreateWrite(op, fault) => OtherCreateIsQuiet(s, op, fault, key);
        case DeleteWrite(op, fault) => OtherDeleteIsQuiet(s, op, fault, key);
        case _ => OtherStepIsQuiet(s, l, key);
      }
      QuietStepScores(s, Step(s, l), key, plain);
    }
  }

  lemma {:induction false} ScoresCompose(a: State, b: State, c: State, key: string, plain: bool, m: nat, n: nat)
    requires Scores(a, b, key, plain, m) && Scores(b, c, key, plain, n)
    ensures Scores(a, c, key, plain, m + n)
  {
    hide Answers, Wins, Losses;
    var (ab, bc) := (b.history[|a.history|..], c.history[|b.history|..]);
    assert c.history[|a.history|..] == ab + bc;
    CountsConcat(ab, bc, key);
  }

  lemma {:induction false} ContestScores(s: State, ls: seq<Label>, key: string, plain: bool)
    requires Inv(s) && Contest(s, ls, key, plain)
    ensures Run(s, ls) && Scores(s, After(s, ls), key, plain, Entrants(s, ls, key))
    decreases |ls|
  {
    hide Inv, Step, Enabled, IsCreateAnswer, DeletesKey, CreatesKey, Scores;
    if ls == [] {
      QuietStepScores(s, s, key, plain);
    } else {
      StepScores(s, ls[0], key, plain);
      StepKeepsInv(s, ls[0]);
      ContestScores(Step(s, ls[0]), ls[1..], key, plain);
      ScoresCompose(s, Step(s, ls[0]), After(s, ls), key, plain,
                    AsNat(CreatesKey(s, ls[0], key)), Entrants(Step(s, ls[0]), ls[1..], key));
    }
  }

  /** Of any number n of creates competing for a free key, in any interleaving, exactly one
      wins and the n - 1 others are told the name is taken. None goes unanswered. */
  lemma {:induction false} OneWinner(s: State, ls: seq<Label>, key: string)
    requires Reachable(s) && key !in s.db.names && Contest(s, ls, key, true)
    ensures Run(s, ls) && s.history <= After(s, ls).history
    ensures var added := After(s, ls).history[|s.history|..];
            var n := Entrants(s, ls, key);
            && Answers(added, key) == n
            && (n > 0 ==> Wins(added, key) == 1 && Losses(added, key) == n - 1)
  {
    hide Inv, Run, After, Reachable, Answers, Wins, Losses, Contest;
    ReachableInv(s);
    ContestScores(s, ls, key, true);
  }

  /** Whatever faults the creates meet, at most one wins, and none once the key is taken. */
  lemma {:induction false} AtMostOneWinner(s: State, ls: seq<Label>, key: string)
    requires Reachable(s) && Contest(s, ls, key, false)
    ensures Run(s, ls) && s.history <= After(s, ls).history
    ensures var added := After(s, ls).history[|s.history|..];
            && Wins(added, key) <= (if key in s.db.names then 0 else 1)
            && (Wins(added, key) > 0 ==> key in After(s, ls).db.names)
  {
    hide Inv, Run, After, Reachable, Answers, Wins, Losses, Contest;
    ReachableInv(s);
    ContestScores(s, ls, key, false);
  }

  /** A create that is told the name is taken, under any fault, changed nothing, and the
      name was taken. */
  lemma {:induction false} LosersChangeNothing(s: State, op: nat, fault: Fault)
    requires Reachable(s) && op in s.ops && s.ops[op].Creating?
    requires CreateCall(s.db, s.ops[op].project, fault).1 == NameTaken
    ensures DoCreateWrite(s, op, fault).db == s.db && NameKey(s.ops[op].project.name) in s.db.names
  {
    hide NameKey, Inv, Contains, Reachable;
    ReachableInv(s);
    Lifecycle.CreatingIsFresh(s, op);
    assert CreateConditions(s.db, s.ops[op].project)[1];
  }

  // ---- delete against reuse --------------------------------------------------------------

  /** The "reservation does not point at the project" branch: unreachable when calls are
      cancelled only by their conditions, even when the record was deleted and its name
      re-reserved since the read; and whatever the fault, taken only once the project is
      already gone, so it never reports a broken bijection. */
  lemma {:induction false} MismatchUnreachable(s: State, op: nat, fault: Fault)
    requires Reachable(s) && op in s.ops && s.ops[op].DeletingNamed?
    ensures var d := s.ops[op];
            var r := DeleteCall(s.db, d.id, d.owner, d.name, fault).1;
            && (!fault.Cancel? ==> r != DeleteRaised(true))
            && (r == DeleteRaised(true) ==> d.id !in s.db.records)
  {
    hide NameKey, Inv, Contains, Reachable;
    ReachableInv(s);
    OpFacts(s, op);
    var d := s.ops[op];
    var conditions := DeleteConditions(s.db, d.id, d.owner, d.name);
    if d.id in s.db.records {
      assert Reserved(s.db, d.id);
      assert conditions[0] && conditions[1];
    } else {
      assert !conditions[0];
    }
  }

  /** A committed delete frees the key at once: the next create of any name with that key,
      by anyone, wins. */
  lemma {:induction false} FreedNameCanBeWon(s: State, op: nat, p: Project)
    requires Reachable(s) && op in s.ops && s.ops[op].DeletingNamed?
    requires DeleteCall(s.db, s.ops[op].id, s.ops[op].owner, s.ops[op].name, NoFault).1 == Deleted
    requires NameKey(p.name) == NameKey(s.ops[op].name) && p.projectId !in s.db.inserted
    ensures CreateCall(DoDeleteWrite(s, op, NoFault).db, p, NoFault).1 == Created
  {
    hide NameKey, Inv, Contains, Reachable;
    ReachableInv(s);
    Lifecycle.InsertedCoversRecords(s);
    var conditions := DeleteConditions(s.db, s.ops[op].id, s.ops[op].owner, s.ops[op].name);
    assert conditions[0] && conditions[1];
    var db := DoDeleteWrite(s, op, NoFault).db;
    assert CreateConditions(db, p)[0] && CreateConditions(db, p)[1];
  }

  // ---- every plain call is answered ----------------------------------------------------------

  predicate IsCall(l: Label) {
    l.CreateWrite? || l.GetRead? || l.DeleteRead? || l.DeleteWrite? || l.BeginWrite? || l.FinishWrite?
  }

  /** A step whose call ends as judged, or is resent, answers its caller, unless it is the
      read of a delete that goes on to its write. */
  lemma {:induction false} PlainCallsAnswer(s: State, l: Label)
    requires Reachable(s) && Enabled(s, l) && IsCall(l) && IsPlain(l.fault)
    ensures var s' := Step(s, l);
            || (exists e: Event :: e.Respond? && s'.history == s.history + [e] && s'.misreports == s.misreports)
            || (exists e: Event :: e.Respond? && s'.history == s.history && s'.misreports == s.misreports + [e])
            || (l.DeleteRead? && s'.ops[l.op].DeletingNamed? && s'.history == s.history)
  {
    hide NameKey, Inv, Contains, Reachable, IsNew, IsValidProjectId, CreateCall, DeleteCall;
    var s' := Step(s, l);
    match l {
      case CreateWrite(op, fault) =>
        ReachableInv(s);
        Lifecycle.CreatingIsFresh(s, op);
        CreateAnswers(s.db, s.ops[op].project, fault);
      case DeleteWrite(op, fault) =>
        var d := s.ops[op];
        MismatchUnreachable(s, op, fault);
        DeleteAnswers(s.db, d.id, d.owner, d.name, fault);
      case _ =>
    }
    if |s'.history| > |s.history| {
      var e := s'.history[|s.history|];
      assert e.Respond? && s'.history == s.history + [e];
    } else if |s'.misreports| > |s.misreports| {
      var e := s'.misreports[|s.misreports|];
      assert e.Respond? && s'.misreports == s.misreports + [e];
    }
  }
}
