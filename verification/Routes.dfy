/** The HTTP routes (src/projects_api/api/routes/projects.py) over the repository. */
module Routes {
  import opened Text
  import opened Names
  import opened Clock
  import opened Domain
  import opened Dynamo
  import opened Store
  import opened Layout
  import opened OwnerIndex
  import opened Client
  import opened Repository
  import Cursor
  import Listing
  import Protocol

  datatype Reply<T> = Succeeded(value: T) | BadRequest | NotFound404 | Conflict | ServerError

  datatype ListBody = ListBody(items: seq<Project>, nextToken: Option<string>)

  const DEFAULT_PAGE_SIZE := 20
  const MAX_PAGE_SIZE := 100

  function PageSize(limit: Option<int>): int {
    if limit.None? then DEFAULT_PAGE_SIZE else limit.value
  }

  /** The parameters that reach the repository. */
  predicate IsListRequest(owner: string, limit: Option<int>, nextToken: Option<string>) {
    1 <= PageSize(limit) <= MAX_PAGE_SIZE && (nextToken.Some? ==> Cursor.DecodeCursor(nextToken.value, owner).Some?)
  }

  class ProjectsApi {
    const repo: ProjectRepository

    constructor (repo: ProjectRepository)
      ensures this.repo == repo
    {
      this.repo := repo;
    }

    /** `hex` and `now` are what uuid4 and the clock return; `location` is the header set. */
    method CreateProject(name: string, kind: ProjectType, owner: string, hex: string, now: Instant, fault: Fault,
                         ghost db: Db)
      returns (r: Reply<Project>, location: Option<string>)
      requires repo.client.rows == Encode(db)
      requires |hex| == 32 && (forall i :: 0 <= i < 32 ==> IsHexDigit(hex[i])) && IsInstant(now)
      modifies repo.client`rows
      ensures r.BadRequest? <==> !ValidateName(name).Accepted?
      ensures ValidateName(name).Accepted? && IsPlain(fault) && "prj_" + hex !in db.records ==>
                && (r.Conflict? <==> NameKey(name) in db.names)
                && (r.Succeeded? <==> NameKey(name) !in db.names)
      ensures r.BadRequest? || r.Conflict? ==> repo.client.rows == old(repo.client.rows)
      ensures r.Succeeded? ==>
                && IsNew(r.value) && NameKey(r.value.name) == NameKey(name)
                && r.value == Project("prj_" + hex, Join(Words(name), " "), kind, CREATED, owner, now, now)
                && repo.client.rows == WithBothItems(old(repo.client.rows), r.value)
      ensures location == if r.Succeeded? then Some("/v1/projects/prj_" + hex) else None
      ensures ValidateName(name).Accepted? ==>
                var p := NewProject(name, kind, owner, hex, now);
                && repo.client.rows == Encode(CreateCall(db, p, fault).0)
                && r == match CreateCall(db, p, fault).1
                        case Created => Succeeded(p) case NameTaken => Conflict case CreateRaised => ServerError
    {
      hide Encode, NameKey, CreateCall, ValidateName, IsNew, IsInstant, IsHexDigit, WithBothItems, NewProject;
      location := None;
      if !ValidateName(name).Accepted? {
        return BadRequest, None;
      }
      var project := NewProject(name, kind, owner, hex, now);
      var created := repo.Create(project, fault, db);
      match created {
        case NameTaken => return Conflict, None;
        case CreateRaised => return ServerError, None;
        case Created =>
      }
      location := Some("/v1/projects/" + project.projectId);
      assert "/v1/projects/" + ("prj_" + hex) == "/v1/projects/prj_" + hex;
      r := Succeeded(project);
    }

    /** Decode, query, encode: one answer of a listing session. Parameters are refused, and
        nothing is queried, exactly when `limit` is given outside 1 to 100 or the token is
        not one of this owner's; without `limit` the query asks for 20. */
    method ListProjects(owner: string, limit: Option<int>, nextToken: Option<string>, reply: QueryReply, ghost db: Db)
      returns (r: Reply<ListBody>)
      requires repo.client.rows == Encode(db) && Consistent(db) && ReadableInstants(db)
      requires reply.Page? && IsListRequest(owner, limit, nextToken) ==>
                 IsReply(repo.client.rows, OwnerQuery(owner, PageSize(limit), Listing.Start(nextToken, owner)),
                         reply.items, reply.last)
      modifies repo.client`queries
      ensures var refused := || (limit.Some? && !(1 <= limit.value <= 100))
                             || (nextToken.Some? && Cursor.DecodeCursor(nextToken.value, owner).None?);
              && (refused ==> r == BadRequest && repo.client.queries == old(repo.client.queries))
              && (!refused ==>
                    var size := if limit.Some? then limit.value else 20;
                    var start := if nextToken.Some? then Cursor.DecodeCursor(nextToken.value, owner) else None;
                    var query := Query("OWNER#" + owner, "PROJECT#", false, size, start);
                    && repo.client.queries == old(repo.client.queries) + [query]
                    && (r.Succeeded? <==> reply.Page?)
                    && (r.Succeeded? ==>
                          var body := r.value;
                          Listing.IsAnswer(owner, Listing.Answer(db, size, nextToken, body.items, body.nextToken)))
                    && (r.BadRequest? <==>
                          reply.QueryFailed? && reply.code == "ValidationException" && nextToken.Some?))
    {
      hide Encode, Cursor.DecodeCursor, Consistent, ReadableInstants, IsReply, IsPage;
      var size := PageSize(limit);
      if !(1 <= size <= MAX_PAGE_SIZE) {
        return BadRequest;
      }
      var cursor := None;
      if nextToken.Some? {
        cursor := Cursor.DecodeCursor(nextToken.value, owner);
        if cursor.None? {
          return BadRequest;
        }
      }
      var listed := repo.ListByOwner(owner, size, cursor, reply, db);
      match listed
      case InvalidCursor => r := BadRequest;
      case ListRaised => r := ServerError;
      case Listed(projects, last) =>
        var token := if last.Some? then Some(Cursor.EncodeCursor(last.value)) else None;
        r := Succeeded(ListBody(projects, token));
    }

    /** A malformed id, an unknown id and another owner's id all look the same. */
    method GetProject(id: string, owner: string, fault: Fault, ghost db: Db) returns (r: Reply<Project>)
      requires repo.client.rows == Encode(db) && ReadableInstants(db)
      ensures r == match Protocol.GetReport(db, id, owner, fault)
                   case Some(WasFound(p)) => Succeeded(p) case Some(_) => NotFound404 case None => ServerError
      ensures fault.NoFault? ==>
                && (r.Succeeded? <==> IsValidProjectId(id) && Owns(db, id, owner))
                && (r.Succeeded? || r.NotFound404?)
      ensures r.Succeeded? ==> r.value == db.records[id].project
    {
      hide Encode, ReadableInstants, IsValidProjectId;
      if !IsValidProjectId(id) {
        return NotFound404;
      }
      var got := repo.Get(id, fault, db);
      match got
      case Missing => r := NotFound404;
      case GetRaised => r := ServerError;
      case Found(project) => r := if project.ownerId != owner then NotFound404 else Succeeded(project);
    }

    /** As `Delete` of the repository, behind the id check. A 404 removes nothing. */
    method DeleteProject(id: string, owner: string, readFault: Fault, meanwhile: Db, writeFault: Fault, ghost db: Db)
      returns (r: Reply<()>)
      requires repo.client.rows == Encode(db) && ReadableInstants(db)
      modifies repo.client`rows
      ensures !IsValidProjectId(id) ==> r == NotFound404 && repo.client.rows == old(repo.client.rows)
      ensures IsValidProjectId(id) ==>
                var (db', result) := DeleteSteps(db, meanwhile, id, owner, readFault, writeFault);
                && repo.client.rows == Encode(db')
                && r == match result
                        case Deleted => Succeeded(()) case NotFound => NotFound404 case DeleteRaised(_) => ServerError
      ensures r == NotFound404 ==> repo.client.rows == old(repo.client.rows) || repo.client.rows == Encode(meanwhile)
      ensures IsValidProjectId(id) && Consistent(db) && Rely(db, meanwhile)
              && readFault.NoFault? && writeFault.NoFault? ==>
                r == if Owns(db, id, owner) && Owns(meanwhile, id, owner) then Succeeded(()) else NotFound404
    {
      hide Encode, ReadableInstants, IsValidProjectId, Consistent, Rely, NameKey;
      if !IsValidProjectId(id) {
        return NotFound404;
      }
      var result := repo.Delete(id, owner, readFault, meanwhile, writeFault, db);
      match result
      case Deleted => r := Succeeded(());
      case NotFound => r := NotFound404;
      case DeleteRaised(_) => r := ServerError;
    }
  }
}
