/** What each call answers and stores, case by case and written out: the branches on
    cancellation reasons, and what a finishing write leaves in the record. */
module Outcomes {
  import opened Clock
  import opened Domain
  import opened Dynamo
  import opened Names
  import opened Store
  import opened Text

  /** A create whose call ends as judged is answered by the name first, then by the id. A
      cancellation counts as a taken name by its first reason, or, without reasons, by its
      message. Any other error is raised. */
  lemma {:induction false} CreateAnswers(db: Db, p: Project, fault: Fault)
    ensures var (taken, used) := (NameKey(p.name) in db.names, p.projectId in db.records);
            var r := CreateCall(db, p, fault).1;
            && (IsPlain(fault) ==> r == if taken then NameTaken else if used then CreateRaised else Created)
            && (fault.Break? ==> r == CreateRaised)
            && (fault.Cancel? && HonestCancel([!taken, !used], fault.reasons, fault.message) ==>
                  && (fault.reasons != [] ==>
                        r == if fault.reasons[0] == ConditionalCheckFailed then NameTaken else CreateRaised)
                  && (fault.reasons == [] ==>
                        r == if Contains(fault.message, "ConditionalCheckFailed") then NameTaken else CreateRaised))
  {
    hide NameKey, Contains;
    var conditions := CreateConditions(db, p);
    assert conditions == [NameKey(p.name) !in db.names, p.projectId !in db.records];
    assert AllTrue(conditions) <==> conditions[0] && conditions[1];
    if !conditions[0] { assert ExactReasons(conditions)[0] == ConditionalCheckFailed; }
    if conditions[0] { assert ExactReasons(conditions)[0] == NoReason; }
  }

  /** A delete's write is answered by the record first, then by the reservation. */
  lemma {:induction false} DeleteAnswers(db: Db, id: string, owner: string, name: string, fault: Fault)
    ensures var owned := id in db.records && db.records[id].project.ownerId == owner;
            var reserved := NameKey(name) in db.names && db.names[NameKey(name)].projectId == id;
            var r := DeleteCall(db, id, owner, name, fault).1;
            && (IsPlain(fault) ==> r == if !owned then NotFound else if reserved then Deleted else DeleteRaised(true))
            && (fault.Break? ==> r == DeleteRaised(false))
            && (fault.Cancel? && HonestCancel([owned, reserved], fault.reasons, fault.message) ==>
                  r == if fault.reasons != [] && fault.reasons[0] == ConditionalCheckFailed then NotFound
                       else DeleteRaised(|fault.reasons| > 1 && fault.reasons[1] == ConditionalCheckFailed))
  {
    hide NameKey, Contains;
    var conditions := DeleteConditions(db, id, owner, name);
    var owned := id in db.records && db.records[id].project.ownerId == owner;
    var reserved := NameKey(name) in db.names && db.names[NameKey(name)].projectId == id;
    assert conditions == [owned, reserved];
    assert AllTrue(conditions) <==> conditions[0] && conditions[1];
    assert ExactReasons(conditions)[0] == if owned then NoReason else ConditionalCheckFailed;
    assert ExactReasons(conditions)[1] == if reserved then NoReason else ConditionalCheckFailed;
  }

  /** The begin write moves a CREATED record and nothing else of it. */
  lemma {:induction false} BeginStores(db: Db, id: string, now: Instant, fault: Fault)
    ensures var (db', r) := BeginCall(db, id, now, fault);
            var judged := id in db.records && db.records[id].project.status == CREATED;
            && r == (if fault.Break? then TransitionRaised else Done(judged && !fault.Resent?))
            && db' == if judged && !(fault.Break? && !fault.applied)
                      then db.(records := db.records[id := db.records[id].(
                                 project := db.records[id].project.(status := PROVISIONING, updatedAt := now))])
                      else db
  {
  }

  /** The finishing write stores what provisioning came to: the endpoint when there is one,
      or the exception's message cut to 500 characters. */
  lemma {:induction false} FinishStores(db: Db, id: string, outcome: Provisioned, now: Instant, fault: Fault)
    ensures var (db', r) := FinishCall(db, id, outcome, now, fault);
            var judged := id in db.records && db.records[id].project.status == PROVISIONING;
            && r == (if fault.Break? then TransitionRaised else Done(judged && !fault.Resent?))
            && (judged && !(fault.Break? && !fault.applied) ==>
                  && id in db'.records && db' == db.(records := db.records[id := db'.records[id]])
                  && var (was, became) := (db.records[id], db'.records[id]);
                     var status := if outcome.Success? then READY else FAILED;
                     var given := outcome.Success? && outcome.endpoint.Some? && outcome.endpoint.value != "";
                     && became.project == was.project.(status := status, updatedAt := now)
                     && became.endpoint == (if given then outcome.endpoint else was.endpoint)
                     && became.failureReason == (if outcome.Success? then was.failureReason
                                             else if outcome.message == "" then Some("unknown error")
                                             else if |outcome.message| <= 500 then Some(outcome.message)
                                             else Some(outcome.message[..500])))
            && (!judged || (fault.Break? && !fault.applied) ==> db' == db)
  {
  }
}
