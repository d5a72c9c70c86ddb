/** Listing a table that does not change: the pages end, and together are exactly the
    owner's projects. Also when a session can go on at all. */
module Paging {
  import opened Text
  import opened Clock
  import opened Domain
  import opened Store
  import opened Layout
  import opened OwnerIndex
  import opened Cursor
  import opened Protocol
  import opened Listing
  import Json

  ghost predicate MeetsOnly(answers: seq<Answer>, db: Db) {
    forall i :: 0 <= i < |answers| ==> answers[i].db == db
  }

  lemma {:induction false} OneTable(answers: seq<Answer>, db: Db)
    requires MeetsOnly(answers, db) && DbInv(db)
    ensures MeetsTables(answers)
  {
    hide Consistent, WellFormed, SameIdentity;
    RelyReflexive(db);
  }

  function OwnedIds(owner: string, db: Db): set<string> {
    set id | id in db.records && IsOwned(owner, db, id)
  }

  // ---- termination ------------------------------------------------------------------------

  lemma {:induction false} DistinctBound(projects: seq<Project>, ids: set<string>)
    requires NoRepeats(projects) && forall p :: p in projects ==> p.projectId in ids
    ensures |projects| <= |ids|
  {
    if projects != [] {
      var p := projects[|projects| - 1];
      assert p in projects;
      DistinctBound(projects[..|projects| - 1], ids - {p.projectId});
    }
  }

  /** Only a last page may be empty. */
  lemma {:induction false} PagesGrow(owner: string, answers: seq<Answer>)
    requires IsSession(owner, answers) && MeetsTables(answers)
    ensures |Gathered(answers)| >= if IsFinished(answers) then |answers| - 1 else |answers|
    decreases |answers|
  {
    hide IsSession, MeetsTables, IsAnswer, DbInv, DecodeCursor, EncodeCursor, Descending, SortKey, Less;
    if answers != [] {
      SessionPrefix(owner, answers);
      PagesGrow(owner, answers[..|answers| - 1]);
      PageFacts(owner, Last(answers));
      if |answers| > 1 { assert Last(answers[..|answers| - 1]) == answers[|answers| - 2]; }
    }
  }

  lemma {:induction false} GatheredAreStored(owner: string, answers: seq<Answer>, db: Db)
    requires IsSession(owner, answers) && MeetsOnly(answers, db) && DbInv(db)
    ensures NoRepeats(Gathered(answers)) && NewestFirst(Gathered(answers))
    ensures forall p :: p in Gathered(answers) ==> StoredIn(owner, db, p) && p.projectId in OwnedIds(owner, db)
  {
    hide IsSession, DbInv, StoredIn, NoRepeats, NewestFirst, Gathered;
    OneTable(answers, db);
    NeverTwice(owner, answers);
    forall p | p in Gathered(answers) ensures StoredIn(owner, db, p) && p.projectId in OwnedIds(owner, db) {
      var i :| 0 <= i < |answers| && StoredIn(owner, answers[i].db, p);
      StoredIsOwned(owner, db, p);
    }
  }

  lemma {:induction false} StoredIsOwned(owner: string, db: Db, p: Project)
    requires StoredIn(owner, db, p)
    ensures p.projectId in OwnedIds(owner, db)
  {
  }

  lemma {:induction false} StayingIsListed(owner: string, answers: seq<Answer>, db: Db, p: Project)
    requires IsSession(owner, answers) && MeetsOnly(answers, db) && DbInv(db) && IsFinished(answers)
             && StoredIn(owner, db, p)
    ensures p in Gathered(answers)
  {
    hide IsSession, DbInv, NoRepeats, NewestFirst, Gathered, IsFinished, MeetsTables;
    OneTable(answers, db);
    assert Throughout(owner, answers, p.projectId);
    NeverMissed(owner, answers, p.projectId);
    var i :| 0 <= i < |Gathered(answers)| && Gathered(answers)[i].projectId == p.projectId;
    GatheredAreStored(owner, answers, db);
    assert Gathered(answers)[i] in Gathered(answers);
  }

  /** On a fixed table, for every sequence of limits and every permitted page cut: at most
      one request more than the owner has projects, and a finished session has returned
      exactly the owner's projects, each once, strictly newest first. */
  lemma {:induction false} FixedTableListing(owner: string, answers: seq<Answer>, db: Db)
    requires IsSession(owner, answers) && MeetsOnly(answers, db) && DbInv(db)
    ensures |answers| <= |OwnedIds(owner, db)| + 1
    ensures NoRepeats(Gathered(answers)) && NewestFirst(Gathered(answers))
    ensures IsFinished(answers) ==> forall p :: p in Gathered(answers) <==> StoredIn(owner, db, p)
    ensures |answers| == |OwnedIds(owner, db)| + 1 ==> IsFinished(answers)
  {
    hide IsSession, DbInv, StoredIn, NoRepeats, NewestFirst, Gathered, IsFinished, MeetsOnly, OwnedIds;
    OneTable(answers, db);
    GatheredAreStored(owner, answers, db);
    DistinctBound(Gathered(answers), OwnedIds(owner, db));
    PagesGrow(owner, answers);
    if IsFinished(answers) {
      forall p | StoredIn(owner, db, p) ensures p in Gathered(answers) {
        StayingIsListed(owner, answers, db, p);
      }
    }
  }

  // ---- going on ------------------------------------------------------------------------------

  /** A returned token is accepted exactly when the owner id takes at most 579 characters
      of JSON. */
  lemma {:induction false} TokenAccepted(owner: string, answers: seq<Answer>)
    requires answers != [] && IsSession(owner, answers) && MeetsTables(answers) && Last(answers).next.Some?
    ensures DecodeCursor(Last(answers).next.value, owner).Some? <==> |Json.Escape(owner)| <= 579
  {
    hide IsSession, MeetsTables, Gathered, Descending, WasStored, Throughout, Lists, Ahead, DecodeCursor, EncodeCursor,
         Json.Escape, IsValidProjectId, IsInstant, KeyOfProject;
    SessionProgress(owner, answers);
    var projects := Gathered(answers);
    LastPage(answers);
    var p := projects[|projects| - 1];
    StoredFacts(owner, answers, p);
    MintedRoundTrip(p, owner);
  }

  lemma {:induction false} LastPage(answers: seq<Answer>)
    requires answers != [] && Last(answers).projects != []
    ensures Gathered(answers) != []
  {
  }

  /** A longer owner id never gets past the first page. */
  lemma {:induction false} LongOwnersStop(owner: string, answers: seq<Answer>)
    requires IsSession(owner, answers) && MeetsTables(answers) && |Json.Escape(owner)| > 579
    ensures |answers| <= 1
  {
    hide MeetsTables, DecodeCursor, IsPage, Json.Escape;
    if |answers| > 1 {
      var first := answers[..1];
      assert MeetsTables(first) by { FirstMeets(answers); }
      assert Last(first) == answers[0] && answers[1].token == answers[0].next;
      assert IsAnswer(owner, answers[1]);
      TokenAccepted(owner, first);
    }
  }

  lemma {:induction false} FirstMeets(answers: seq<Answer>)
    requires MeetsTables(answers) && answers != []
    ensures MeetsTables(answers[..1])
  {
    hide DbInv, Rely;
  }

  /** The project that comes first among `ids`. */
  ghost predicate IsFirst(db: Db, ids: set<string>, id: string)
    requires ids <= db.records.Keys
  {
    id in ids && forall other :: other in ids ==>
      other == id || Less(SortKey(db.records[other].project), SortKey(db.records[id].project))
  }

  lemma {:induction false} FirstExists(db: Db, ids: set<string>)
    requires ids != {} && ids <= db.records.Keys && DbInv(db)
    ensures exists id :: IsFirst(db, ids, id)
  {
    hide SortKey, Less, DbInv;
    var x :| x in ids;
    var others := ids - {x};
    if others == {} {
      assert ids == {x};
      assert IsFirst(db, ids, x);
    } else {
      FirstExists(db, others);
      var m :| IsFirst(db, others, m);
      DistinctKeys(db, x, m);
      var (kx, km) := (SortKey(db.records[x].project), SortKey(db.records[m].project));
      LessTotal(kx, km);
      if Less(km, kx) {
        forall o | o in ids ensures o == x || Less(SortKey(db.records[o].project), kx) {
          if o != x && o != m { LessTransitive(SortKey(db.records[o].project), km, kx); }
        }
        assert IsFirst(db, ids, x);
      } else {
        assert IsFirst(db, ids, m);
      }
    }
  }

  lemma {:induction false} DistinctKeys(db: Db, a: string, b: string)
    requires DbInv(db) && a in db.records && b in db.records && a != b
    ensures SortKey(db.records[a].project) != SortKey(db.records[b].project)
  {
    hide SortKey, IsInstant, Seconds, IsValidProjectId;
    assert Reserved(db, a) && Reserved(db, b) && WellFormed(db.records[a]) && WellFormed(db.records[b]);
    SortKeyOrder(db.records[a].project, db.records[b].project);
  }

  /** The index can always answer. */
  lemma {:induction false} PageExists(db: Db, owner: string, limit: nat, start: Option<CursorKey>)
    requires DbInv(db) && limit >= 1
    ensures exists page, last :: IsPage(db, owner, limit, start, page, last)
  {
    hide SortKey, Less, DbInv, OwnerPk;
    var ids := set id | id in db.records && Remaining(db, owner, start, id);
    if ids == {} {
      assert forall id :: Remaining(db, owner, start, id) ==> id in ids;
      assert IsPage(db, owner, limit, start, [], None);
    } else {
      FirstExists(db, ids);
      var id :| IsFirst(db, ids, id);
      var p := db.records[id].project;
      OwnId(db, id);
      assert forall other :: Remaining(db, owner, start, other) ==> other in ids;
      assert IsPage(db, owner, limit, start, [p], Some(KeyOfProject(p)));
    }
  }

  lemma {:induction false} OwnId(db: Db, id: string)
    requires DbInv(db) && id in db.records
    ensures db.records[id].project.projectId == id
  {
    assert Reserved(db, id);
  }

  /** An unfinished session goes on whatever the table has become, for any limit. */
  lemma {:induction false} SessionContinues(owner: string, answers: seq<Answer>, db: Db, limit: nat)
    requires IsSession(owner, answers) && MeetsTables(answers) && !IsFinished(answers)
    requires DbInv(db) && limit >= 1 && |Json.Escape(owner)| <= 579
    ensures exists a: Answer :: a.db == db && a.limit == limit && IsSession(owner, answers + [a])
  {
    hide MeetsTables, DbInv, DecodeCursor, EncodeCursor, Json.Escape, IsPage;
    var token := if answers == [] then None else Last(answers).next;
    if answers != [] { TokenAccepted(owner, answers); }
    var start := Start(token, owner);
    PageExists(db, owner, limit, start);
    var page, last :| IsPage(db, owner, limit, start, page, last);
    var a := Answer(db, limit, token, page, NextToken(last));
    assert IsAnswer(owner, a);
    assert IsSession(owner, answers + [a]);
  }

  /** The first page a listing by single projects may get: the newest, and a token. */
  lemma {:induction false} FirstPage(db: Db, owner: string, id: string)
    requires DbInv(db) && IsOwned(owner, db, id)
    ensures exists first: Answer ::
              && first.db == db && first.limit == 1 && |first.projects| == 1 && first.next.Some?
              && IsSession(owner, [first])
  {
    hide SortKey, Less, DbInv, OwnerPk, EncodeCursor;
    var ids := set other | other in db.records && Remaining(db, owner, None, other);
    assert id in ids;
    FirstExists(db, ids);
    var newest :| IsFirst(db, ids, newest);
    var p := db.records[newest].project;
    OwnId(db, newest);
    assert forall other :: Remaining(db, owner, None, other) ==> other in ids;
    assert IsPage(db, owner, 1, None, [p], Some(KeyOfProject(p)));
    var first := Answer(db, 1, None, [p], NextToken(Some(KeyOfProject(p))));
    assert IsAnswer(owner, first);
    assert IsSession(owner, [first]);
  }

  /** A longer owner id with two projects does meet the refusal: a session whose first token
      is refused, with a project it never showed. */
  lemma {:induction false} LongOwnerMissesProjects(db: Db, owner: string, a: string, b: string)
    requires DbInv(db) && IsOwned(owner, db, a) && IsOwned(owner, db, b) && a != b && |Json.Escape(owner)| > 579
    ensures exists first: Answer ::
              && first.db == db && IsSession(owner, [first]) && first.next.Some?
              && DecodeCursor(first.next.value, owner).None?
              && !(Lists(first.projects, a) && Lists(first.projects, b))
  {
    hide DbInv, IsSession, DecodeCursor, Json.Escape;
    FirstPage(db, owner, a);
    var first: Answer :| first.db == db && first.limit == 1 && |first.projects| == 1 && first.next.Some?
      && IsSession(owner, [first]);
    assert [first][0] == first && Last([first]) == first;
    OneTable([first], db);
    TokenAccepted(owner, [first]);
  }
}
