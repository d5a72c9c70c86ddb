/** The API's reads and writes (src/projects_api/repositories/projects.py), each
    proved to be the intended step on the records and reservations behind the rows. */
module Repository {
  import opened Outcomes
  import opened Text
  import opened Names
  import opened Clock
  import opened Domain
  import opened Dynamo
  import opened Store
  import opened Layout
  import opened OwnerIndex
  import opened Client

  datatype ListResult = Listed(projects: seq<Project>, last: Option<CursorKey>) | InvalidCursor | ListRaised

  /** One delete on the abstract table: a read of `db`, other clients leaving
      `meanwhile`, then the conditional writes. */
  function DeleteSteps(db: Db, meanwhile: Db, id: string, owner: string, readFault: Fault, writeFault: Fault)
    : (Db, DeleteResult)
  {
    match GetCall(db, id, readFault)
    case GetRaised => (db, DeleteRaised(false))
    case Missing => (db, NotFound)
    case Found(p) => if p.ownerId != owner then (db, NotFound) else DeleteCall(meanwhile, id, owner, p.name, writeFault)
  }

  /** The two items of a project, attribute by attribute. */
  function WithBothItems(rows: Rows, p: Project): Rows {
    rows[Key("NAME#" + NameKey(p.name), "RESERVATION") :=
           map["PK" := S("NAME#" + NameKey(p.name)), "SK" := S("RESERVATION"), "entity" := S("NAME_RESERVATION"),
               "projectId" := S(p.projectId), "ownerId" := S(p.ownerId), "createdAt" := S(Iso(p.createdAt))]]
        [Key("PROJECT#" + p.projectId, "META") :=
           map["PK" := S("PROJECT#" + p.projectId), "SK" := S("META"), "entity" := S("PROJECT"),
               "projectId" := S(p.projectId), "name" := S(p.name), "nameKey" := S(NameKey(p.name)),
               "type" := S(TypeValue(p.kind)), "status" := S(StatusValue(p.status)), "ownerId" := S(p.ownerId),
               "createdAt" := S(Iso(p.createdAt)), "updatedAt" := S(Iso(p.updatedAt)),
               "GSI1PK" := S("OWNER#" + p.ownerId),
               "GSI1SK" := S("PROJECT#" + (Iso(p.createdAt) + ("#" + p.projectId)))]]
  }

  class ProjectRepository {
    const client: Table

    constructor (client: Table)
      ensures this.client == client
    {
      this.client := client;
    }

    method Create(project: Project, fault: Fault, ghost db: Db) returns (r: CreateResult)
      requires client.rows == Encode(db)
      modifies client`rows
      ensures IsPlain(fault) ==>
                r == if NameKey(project.name) in db.names then NameTaken
                     else if project.projectId in db.records then CreateRaised else Created
      ensures r == Created ==> client.rows == WithBothItems(old(client.rows), project)
      ensures r == NameTaken ==> client.rows == old(client.rows)
      ensures r == CreateCall(db, project, fault).1
      ensures client.rows == Encode(CreateCall(db, project, fault).0)
    {
      hide Encode, ReservationItem, ProjectItem, Conditions, Apply, CreateConditions, Contains, NameKey, Iso,
           WithBothItems;
      CreateAnswers(db, project, fault);
      if CreateCall(db, project, fault).1 == Created { CreatedRows(db, project, fault); }
      if CreateCall(db, project, fault).1 == NameTaken { TakenRows(db, project, fault); }
      var reservation := Put(ReservationKey(NameKey(project.name)),
                             ReservationItem(NameKey(project.name), OwnReservation(project)), NotExists("PK"));
      var record := Put(RecordKey(project.projectId), ProjectItem(project), NotExists("PK"));
      CreateConditionsOnRows(db, project);
      CreateOnRows(db, project);
      var response := client.TransactWriteItems([reservation, record], fault);
      if response.Canceled? {
        if response.reasons != [] && response.reasons[0] == ConditionalCheckFailed {
          return NameTaken;
        }
        if response.reasons == [] && Contains(response.message, CHECK_FAILED) {
          return NameTaken;
        }
      }
      if !response.Committed? {
        return CreateRaised;
      }
      return Created;
    }

    method Get(id: string, fault: Fault, ghost db: Db) returns (r: GetResult)
      requires client.rows == Encode(db) && ReadableInstants(db)
      ensures r == GetCall(db, id, fault)
    {
      hide Encode, RecordItem, ToProject;
      EncodedRecord(db, id);
      if id in db.records { ToProjectRoundTrip(db.records[id]); }
      var response := client.GetItem(RecordKey(id), fault);
      match response
      case GetFailed(_) => r := GetRaised;
      case NoItem => r := Missing;
      case Item(item) =>
        var project := ToProject(item);
        r := if project.Some? then Found(project.value) else GetRaised;
    }

    /** Reads, then deletes conditionally, with other clients running in between. When
        those keep to `Rely` and nothing faults, the delete is one atomic step on the table
        they leave: it succeeds exactly when the project is still there and the caller's,
        and never reports a mismatched reservation. */
    method Delete(id: string, owner: string, readFault: Fault, meanwhile: Db, writeFault: Fault, ghost db: Db)
      returns (r: DeleteResult)
      requires client.rows == Encode(db) && ReadableInstants(db)
      modifies client`rows
      ensures r == DeleteSteps(db, meanwhile, id, owner, readFault, writeFault).1
      ensures client.rows == Encode(DeleteSteps(db, meanwhile, id, owner, readFault, writeFault).0)
      ensures Consistent(db) && Rely(db, meanwhile) && readFault.NoFault? && writeFault.NoFault? ==>
                && (r == Deleted <==> Owns(db, id, owner) && Owns(meanwhile, id, owner))
                && (r == Deleted || r == NotFound)
                && (r == Deleted ==>
                      client.rows == Encode(WithoutProject(meanwhile, id, meanwhile.records[id].project.name)))
      ensures r == Deleted ==>
                && id in db.records
                && var k := NameKey(db.records[id].project.name);
                   client.rows == Encode(meanwhile) - {Key("PROJECT#" + id, "META"), Key("NAME#" + k, "RESERVATION")}
    {
      hide Encode, RecordItem, Conditions, Apply, DeleteConditions, NameKey, Consistent, Rely, ReadableInstants,
           Respond;
      var project := Get(id, readFault, db);
      if project.GetRaised? {
        return DeleteRaised(false);
      }
      if project.Missing? || project.project.ownerId != owner {
        return NotFound;
      }
      client.OthersRun(Encode(meanwhile));
      var name := project.project.name;
      var record := Write.Delete(RecordKey(id), And(Exists("PK"), Equals("ownerId", S(owner))));
      var reservation := Write.Delete(ReservationKey(NameKey(name)), Equals("projectId", S(id)));
      DeleteConditionsOnRows(meanwhile, id, owner, name);
      DeleteOnRows(meanwhile, id, owner, name);
      if DeleteCall(meanwhile, id, owner, name, writeFault).1 == Deleted {
        DeletedRows(meanwhile, id, owner, name, writeFault);
      }
      if Consistent(db) && Rely(db, meanwhile) { CleanDelete(db, meanwhile, id, owner, name); }
      var response := client.TransactWriteItems([record, reservation], writeFault);
      match response
      case Committed => r := Deleted;
      case Failed(_) => r := DeleteRaised(false);
      case Canceled(codes, _) =>
        if codes != [] && codes[0] == ConditionalCheckFailed {
          r := NotFound;
        } else {
          r := DeleteRaised(|codes| > 1 && codes[1] == ConditionalCheckFailed);
        }
    }

    /** One page of the owner's projects. `reply` is what the index answers. */
    method ListByOwner(owner: string, limit: nat, cursor: Option<CursorKey>, reply: QueryReply, ghost db: Db)
      returns (r: ListResult)
      requires client.rows == Encode(db) && Consistent(db) && ReadableInstants(db)
      requires reply.Page? ==> IsReply(client.rows, OwnerQuery(owner, limit, cursor), reply.items, reply.last)
      modifies client`queries
      ensures client.queries == old(client.queries) + [Query("OWNER#" + owner, "PROJECT#", false, limit, cursor)]
      ensures r.Listed? <==> reply.Page?
      ensures r.Listed? ==> r.last == reply.last && IsPage(db, owner, limit, cursor, r.projects, r.last)
      ensures r == InvalidCursor <==> reply.QueryFailed? && cursor.Some? && reply.code == "ValidationException"
    {
      hide Encode, RecordItem, ToProject, Selects, IsPage;
      var query := OwnerQuery(owner, limit, None);
      if cursor.Some? {
        query := query.(start := cursor);
      }
      var response := client.Query(query, reply);
      if response.QueryFailed? {
        return if cursor.Some? && response.code == VALIDATION then InvalidCursor else ListRaised;
      }
      var projects: seq<Project> := [];
      for i := 0 to |reply.items|
        invariant |projects| == i
        invariant forall j :: 0 <= j < i ==> ToProject(reply.items[j]) == Some(projects[j])
        invariant client.queries == old(client.queries) + [query]
      {
        ItemIsReadable(db, owner, limit, cursor, reply.items[i]);
        projects := projects + [ToProject(reply.items[i]).value];
      }
      ReplyIsPage(db, owner, limit, cursor, reply.items, reply.last, projects);
      return Listed(projects, reply.last);
    }
  }

  lemma {:induction false} ItemIsReadable(db: Db, owner: string, limit: nat, start: Option<CursorKey>, item: Item)
    requires Consistent(db) && ReadableInstants(db)
    requires Selects(OwnerQuery(owner, limit, start), item)
    requires exists key :: key in Encode(db) && Encode(db)[key] == item
    ensures ToProject(item).Some?
  {
    hide Encode, RecordItem, ToProject, IsInstant;
    var key :| key in Encode(db) && Encode(db)[key] == item;
    SelectsProjects(db, owner, limit, start, key);
    ToProjectRoundTrip(db.records[key.pk[8..]]);
  }

  /** With a stale name read from `db` and no fault, the conditional delete on the later
      table still does the right thing. */
  lemma {:induction false} CleanDelete(db: Db, meanwhile: Db, id: string, owner: string, name: string)
    requires Consistent(db) && Rely(db, meanwhile) && Owns(db, id, owner) && db.records[id].project.name == name
    ensures var (db', r) := DeleteCall(meanwhile, id, owner, name, NoFault);
            && (r == Deleted <==> Owns(meanwhile, id, owner)) && (r == Deleted || r == NotFound)
            && (r == Deleted ==>
                  meanwhile.records[id].project.name == name && db' == WithoutProject(meanwhile, id, name))
  {
    hide NameKey;
    var conditions := DeleteConditions(meanwhile, id, owner, name);
    if Owns(meanwhile, id, owner) {
      assert Reserved(meanwhile, id);
      assert conditions[0] && conditions[1];
    } else {
      assert !conditions[0];
    }
  }

  lemma {:induction false} CreatedRows(db: Db, p: Project, fault: Fault)
    requires CreateCall(db, p, fault).1 == Created
    ensures Encode(CreateCall(db, p, fault).0) == WithBothItems(Encode(db), p)
  {
    hide Encode, NameKey, Iso, TypeValue, StatusValue, Apply, Contains;
    CreateOnRows(db, p);
    var w := CreateWrites(p);
    ApplyTwo(Encode(db), w[0], w[1]);
    ApplyOne(Encode(db), w[0]);
    ApplyOne(Apply(Encode(db), [w[0]]), w[1]);
  }

  lemma {:induction false} TakenRows(db: Db, p: Project, fault: Fault)
    requires CreateCall(db, p, fault).1 == NameTaken
    ensures CreateCall(db, p, fault).0 == db
  {
    hide NameKey, Contains;
  }

  lemma {:induction false} DeletedRows(db: Db, id: string, owner: string, name: string, fault: Fault)
    requires DeleteCall(db, id, owner, name, fault).1 == Deleted
    ensures Encode(DeleteCall(db, id, owner, name, fault).0)
         == Encode(db) - {Key("PROJECT#" + id, "META"), Key("NAME#" + NameKey(name), "RESERVATION")}
  {
    hide Encode, NameKey, Apply, Contains;
    DeleteOnRows(db, id, owner, name);
    var w := DeleteWrites(id, owner, name);
    ApplyTwo(Encode(db), w[0], w[1]);
    ApplyOne(Encode(db), w[0]);
    ApplyOne(Apply(Encode(db), [w[0]]), w[1]);
  }
}
