/** Listing sessions: following `nextToken` from page to page while the table may
    change between requests (src/projects_api/api/routes/projects.py:59-89). */
module Listing {
  import opened Text
  import opened Clock
  import opened Domain
  import opened Store
  import opened Layout
  import opened OwnerIndex
  import opened Cursor
  import opened Protocol
  import opened Invariant

  // ---- the order of sort keys ---------------------------------------------------------

  /** Newest first: by creation instant, then by id. */
  predicate Newer(a: Project, b: Project)
    requires IsInstant(a.createdAt) && IsInstant(b.createdAt)
  {
    Seconds(b.createdAt) < Seconds(a.createdAt)
      || (Seconds(b.createdAt) == Seconds(a.createdAt) && Less(b.projectId, a.projectId))
  }

  /** Descending sort keys are newest first, for every two projects. */
  lemma {:induction false} SortKeyOrder(a: Project, b: Project)
    requires IsInstant(a.createdAt) && IsInstant(b.createdAt)
    ensures Less(SortKey(b), SortKey(a)) <==> Newer(a, b)
    ensures SortKey(a) == SortKey(b) <==> Seconds(a.createdAt) == Seconds(b.createdAt) && a.projectId == b.projectId
  {
    hide Iso, Less, Seconds, IsInstant;
    IsoOrder(b.createdAt, a.createdAt);
    IsoRoundTrip(a.createdAt);
    IsoRoundTrip(b.createdAt);
    var (x, y) := (Iso(b.createdAt), Iso(a.createdAt));
    LessIrreflexive("PROJECT#");
    LessIrreflexive("#");
    LessConcat("PROJECT#", x + ("#" + b.projectId), "PROJECT#", y + ("#" + a.projectId));
    LessConcat(x, "#" + b.projectId, y, "#" + a.projectId);
    LessConcat("#", b.projectId, "#", a.projectId);
    if SortKey(a) == SortKey(b) {
      PrefixedEqual("PROJECT#", x + ("#" + b.projectId), y + ("#" + a.projectId));
      assert x == (x + ("#" + b.projectId))[..25] && y == (y + ("#" + a.projectId))[..25];
      PrefixedEqual(x, "#" + b.projectId, "#" + a.projectId);
      PrefixedEqual("#", b.projectId, a.projectId);
    }
  }

  // ---- sessions ------------------------------------------------------------------------

  /** One answered request: the table it met, its parameters, and what came back. */
  datatype Answer = Answer(db: Db, limit: nat, token: Option<string>, projects: seq<Project>, next: Option<string>)

  function Start(token: Option<string>, owner: string): Option<CursorKey> {
    if token.None? then None else DecodeCursor(token.value, owner)
  }

  function NextToken(last: Option<CursorKey>): Option<string> {
    if last.None? then None else Some(EncodeCursor(last.value))
  }

  /** The token is accepted and the page is one the index may give, cut anywhere up to the limit. */
  ghost predicate IsAnswer(owner: string, a: Answer) {
    && a.limit >= 1
    && (a.token.Some? ==> Start(a.token, owner).Some?)
    && exists last :: IsPage(a.db, owner, a.limit, Start(a.token, owner), a.projects, last) && a.next == NextToken(last)
  }

  /** Each request after the first sends the token the one before it returned. */
  ghost predicate IsSession(owner: string, answers: seq<Answer>) {
    && (forall i :: 0 <= i < |answers| ==> IsAnswer(owner, answers[i]))
    && (answers != [] ==> answers[0].token.None?)
    && (forall i :: 0 < i < |answers| ==> answers[i].token == answers[i - 1].next && answers[i].token.Some?)
  }

  function Last(answers: seq<Answer>): Answer
    requires answers != []
  {
    answers[|answers| - 1]
  }

  predicate IsFinished(answers: seq<Answer>) {
    answers != [] && Last(answers).next.None?
  }

  /** All pages in order. */
  function Gathered(answers: seq<Answer>): seq<Project> {
    if answers == [] then [] else Gathered(answers[..|answers| - 1]) + Last(answers).projects
  }

  /** The tables the requests meet: sound, and each reachable from the ones before it. */
  ghost predicate MeetsTables(answers: seq<Answer>) {
    && (forall i :: 0 <= i < |answers| ==> DbInv(answers[i].db))
    && (forall i, j :: 0 <= i < j < |answers| ==> Rely(answers[i].db, answers[j].db))
  }

  // ---- what a session has returned so far -------------------------------------------------

  /** `p` was stored, for this owner, when some request was answered. */
  ghost predicate WasStored(owner: string, answers: seq<Answer>, p: Project) {
    exists i :: 0 <= i < |answers| && StoredIn(owner, answers[i].db, p)
  }

  predicate StoredIn(owner: string, db: Db, p: Project) {
    p.projectId in db.records && db.records[p.projectId].project == p && p.ownerId == owner
  }

  ghost predicate Descending(projects: seq<Project>) {
    forall i, j :: 0 <= i < j < |projects| ==> Less(SortKey(projects[j]), SortKey(projects[i]))
  }

  predicate IsOwned(owner: string, db: Db, id: string) {
    id in db.records && db.records[id].project.ownerId == owner
  }

  /** The project is the owner's in every table the session met. */
  ghost predicate Throughout(owner: string, answers: seq<Answer>, id: string) {
    forall i :: 0 <= i < |answers| ==> IsOwned(owner, answers[i].db, id)
  }

  predicate Lists(projects: seq<Project>, id: string) {
    exists i :: 0 <= i < |projects| && projects[i].projectId == id
  }

  ghost predicate ListsOnce(projects: seq<Project>, id: string) {
    exists i :: 0 <= i < |projects| && projects[i].projectId == id
             && forall j :: 0 <= j < |projects| && projects[j].projectId == id ==> j == i
  }

  ghost predicate NoRepeats(projects: seq<Project>) {
    forall i, j :: 0 <= i < j < |projects| ==> projects[i].projectId != projects[j].projectId
  }

  ghost predicate NewestFirst(projects: seq<Project>) {
    && (forall i :: 0 <= i < |projects| ==> IsInstant(projects[i].createdAt))
    && (forall i, j :: 0 <= i < j < |projects| ==> Newer(projects[i], projects[j]))
  }

  /** Still to come, behind the last project returned. */
  predicate Ahead(db: Db, id: string, projects: seq<Project>) {
    projects != [] && id in db.records && Less(SortKey(db.records[id].project), SortKey(projects[|projects| - 1]))
  }

  /** The session's progress: what is returned is in order, and a project that stayed is
      either returned or still ahead of the position the next token stands for. */
  ghost predicate Progress(owner: string, answers: seq<Answer>) {
    var projects := Gathered(answers);
    && (forall i :: 0 <= i < |projects| ==> WasStored(owner, answers, projects[i]))
    && Descending(projects)
    && (answers != [] && Last(answers).next.Some? ==>
          && Last(answers).projects != []
          && Last(answers).next == Some(EncodeCursor(KeyOfProject(projects[|projects| - 1]))))
    && (answers != [] ==> forall id :: Throughout(owner, answers, id) ==>
          Lists(projects, id) || (Last(answers).next.Some? && Ahead(Last(answers).db, id, projects)))
  }

  /** Identity fields fix the sort key. */
  lemma {:induction false} SameSortKey(a: Project, b: Project)
    requires SameIdentity(a, b)
    ensures SortKey(a) == SortKey(b) && a.ownerId == b.ownerId
  {
  }

  /** A token, once accepted, stands for the key it was made from. */
  lemma {:induction false} AcceptedToken(k: CursorKey, owner: string)
    requires DecodeCursor(EncodeCursor(k), owner).Some?
    ensures DecodeCursor(EncodeCursor(k), owner) == Some(k)
  {
    hide DecodeCursor, EncodeCursor, KeyText, OwnerPk;
    CursorRoundTrip(k, owner);
  }

  /** The page of an answer, as stored projects after `start`. */
  lemma {:induction false} PageFacts(owner: string, a: Answer)
    requires IsAnswer(owner, a) && DbInv(a.db)
    ensures Descending(a.projects)
    ensures forall i :: 0 <= i < |a.projects| ==> StoredIn(owner, a.db, a.projects[i])
    ensures Start(a.token, owner).Some? ==>
              forall i :: 0 <= i < |a.projects| ==> Less(SortKey(a.projects[i]), Start(a.token, owner).value.gsi1sk)
    ensures a.next.Some? ==>
              a.projects != [] && a.next == Some(EncodeCursor(KeyOfProject(a.projects[|a.projects| - 1])))
    ensures forall id :: Remaining(a.db, owner, Start(a.token, owner), id) ==>
              Lists(a.projects, id) || (a.next.Some? && Ahead(a.db, id, a.projects))
  {
    hide DecodeCursor, EncodeCursor, SortKey, Less, KeyOfProject, WellFormed, Start;
    var start := Start(a.token, owner);
    var last :| IsPage(a.db, owner, a.limit, start, a.projects, last) && a.next == NextToken(last);
    forall i | 0 <= i < |a.projects| ensures StoredIn(owner, a.db, a.projects[i]) {
      assert Remaining(a.db, owner, start, a.projects[i].projectId);
    }
    forall id | Remaining(a.db, owner, start, id) && a.db.records[id].project in a.projects
      ensures Lists(a.projects, id) {
      var i :| 0 <= i < |a.projects| && a.projects[i] == a.db.records[id].project;
      assert Reserved(a.db, id);
    }
  }

  lemma {:induction false} SessionPrefix(owner: string, answers: seq<Answer>)
    requires answers != [] && IsSession(owner, answers) && MeetsTables(answers)
    ensures IsSession(owner, answers[..|answers| - 1]) && MeetsTables(answers[..|answers| - 1])
    ensures IsAnswer(owner, Last(answers)) && DbInv(Last(answers).db)
    ensures |answers| > 1 ==> Last(answers).token == answers[|answers| - 2].next && Last(answers).token.Some?
    ensures |answers| == 1 ==> Last(answers).token.None?
  {
    hide IsAnswer, DbInv, Rely;
  }

  lemma {:induction false} AppendDescending(before: seq<Project>, page: seq<Project>)
    requires Descending(before) && Descending(page)
    requires before != [] ==> forall i :: 0 <= i < |page| ==> Less(SortKey(page[i]), SortKey(before[|before| - 1]))
    ensures Descending(before + page)
  {
    hide SortKey, Less;
    var all := before + page;
    forall i, j | 0 <= i < j < |all| ensures Less(SortKey(all[j]), SortKey(all[i])) {
      if i < |before| <= j && i < |before| - 1 {
        LessTransitive(SortKey(all[j]), SortKey(before[|before| - 1]), SortKey(before[i]));
      }
    }
  }

  /** Where the next page starts: behind the last project returned. */
  lemma {:induction false} StartsBehind(owner: string, answers: seq<Answer>)
    requires |answers| > 1 && IsSession(owner, answers) && MeetsTables(answers)
             && Progress(owner, answers[..|answers| - 1])
    ensures var before := Gathered(answers[..|answers| - 1]);
            before != [] && Start(Last(answers).token, owner) == Some(KeyOfProject(before[|before| - 1]))
  {
    hide DecodeCursor, EncodeCursor, DbInv, Rely, KeyOfProject, Descending, Throughout, Lists, WasStored, Less, SortKey;
    SessionPrefix(owner, answers);
    var earlier := answers[..|answers| - 1];
    var before := Gathered(earlier);
    assert Last(earlier) == answers[|answers| - 2];
    AcceptedToken(KeyOfProject(before[|before| - 1]), owner);
  }

  lemma {:induction false} StoredStays(owner: string, answers: seq<Answer>, p: Project)
    requires answers != [] && (WasStored(owner, answers[..|answers| - 1], p) || StoredIn(owner, Last(answers).db, p))
    ensures WasStored(owner, answers, p)
  {
    if WasStored(owner, answers[..|answers| - 1], p) {
      var i :| 0 <= i < |answers| - 1 && StoredIn(owner, answers[..|answers| - 1][i].db, p);
      assert StoredIn(owner, answers[i].db, p);
    }
  }

  /** A project that stays is listed by now or still ahead. */
  lemma {:induction false} StaysListed(owner: string, answers: seq<Answer>, id: string)
    requires answers != [] && IsSession(owner, answers) && MeetsTables(answers)
             && Progress(owner, answers[..|answers| - 1])
    requires Throughout(owner, answers, id)
    ensures var projects := Gathered(answers);
            Lists(projects, id) || (Last(answers).next.Some? && Ahead(Last(answers).db, id, projects))
  {
    hide DecodeCursor, EncodeCursor, DbInv, SortKey, Less, Descending, WasStored, IsAnswer, Rely, Start, IsOwned;
    SessionPrefix(owner, answers);
    var a := Last(answers);
    PageFacts(owner, a);
    var (before, all) := (Gathered(answers[..|answers| - 1]), Gathered(answers));
    OwnedNow(owner, answers, id);
    if |answers| > 1 {
      StartsBehind(owner, answers);
      StillOwned(owner, answers, id);
    }
    if Lists(before, id) {
      var i :| 0 <= i < |before| && before[i].projectId == id;
      assert all[i].projectId == id;
    } else if Lists(a.projects, id) {
      var i :| 0 <= i < |a.projects| && a.projects[i].projectId == id;
      assert all[|before| + i].projectId == id;
    } else {
      if |answers| == 1 { FirstStart(owner, answers); }
      assert Remaining(a.db, owner, Start(a.token, owner), id);
      assert a.next.Some? ==> all[|all| - 1] == a.projects[|a.projects| - 1];
    }
  }

  lemma {:induction false} FirstStart(owner: string, answers: seq<Answer>)
    requires |answers| == 1 && IsSession(owner, answers)
    ensures Start(Last(answers).token, owner).None?
  {
  }

  lemma {:induction false} OwnedNow(owner: string, answers: seq<Answer>, id: string)
    requires answers != [] && Throughout(owner, answers, id)
    ensures id in Last(answers).db.records && Last(answers).db.records[id].project.ownerId == owner
  {
    assert IsOwned(owner, answers[|answers| - 1].db, id);
  }

  lemma {:induction false} StillOwned(owner: string, answers: seq<Answer>, id: string)
    requires |answers| > 1 && Throughout(owner, answers, id) && MeetsTables(answers)
    ensures var earlier := answers[..|answers| - 1];
            && Throughout(owner, earlier, id) && id in Last(earlier).db.records && id in Last(answers).db.records
            && SortKey(Last(earlier).db.records[id].project) == SortKey(Last(answers).db.records[id].project)
  {
    hide DbInv, SortKey;
    var n := |answers|;
    assert IsOwned(owner, answers[n - 2].db, id) && IsOwned(owner, answers[n - 1].db, id);
    assert Rely(answers[n - 2].db, answers[n - 1].db);
    SameSortKey(answers[n - 2].db.records[id].project, answers[n - 1].db.records[id].project);
  }

  lemma {:induction false} NothingYet(owner: string)
    ensures Progress(owner, [])
  {
    hide SortKey, Less, EncodeCursor;
  }

  lemma {:induction false} SessionProgress(owner: string, answers: seq<Answer>)
    requires IsSession(owner, answers) && MeetsTables(answers)
    ensures Progress(owner, answers)
    decreases |answers|
  {
    hide DecodeCursor, EncodeCursor, DbInv, SortKey, Less, Descending, WasStored, IsAnswer, Rely, Start, IsOwned,
         Throughout, Lists, KeyOfProject, IsSession, MeetsTables, StoredIn;
    if answers == [] {
      NothingYet(owner);
    } else {
      SessionPrefix(owner, answers);
      SessionProgress(owner, answers[..|answers| - 1]);
      var a := Last(answers);
      PageFacts(owner, a);
      var (before, all) := (Gathered(answers[..|answers| - 1]), Gathered(answers));
      if |answers| > 1 {
        StartsBehind(owner, answers);
        KeySort(before[|before| - 1]);
      }
      AppendDescending(before, a.projects);
      forall i | 0 <= i < |all| ensures WasStored(owner, answers, all[i]) {
        StoredStays(owner, answers, all[i]);
      }
      forall id | Throughout(owner, answers, id)
        ensures Lists(all, id) || (a.next.Some? && Ahead(a.db, id, all))
      {
        StaysListed(owner, answers, id);
      }
    }
  }

  lemma {:induction false} KeySort(p: Project)
    ensures KeyOfProject(p).gsi1sk == SortKey(p)
  {
  }

  // ---- the guarantees ---------------------------------------------------------------------

  /** Whatever happens to the table between requests: only the owner's projects are
      returned, none twice, newest first. */
  lemma {:induction false} NeverTwice(owner: string, answers: seq<Answer>)
    requires IsSession(owner, answers) && MeetsTables(answers)
    ensures forall p :: p in Gathered(answers) ==> p.ownerId == owner && WasStored(owner, answers, p)
    ensures NoRepeats(Gathered(answers)) && NewestFirst(Gathered(answers))
  {
    hide DecodeCursor, EncodeCursor, DbInv, SortKey, Less, IsAnswer, Rely, Throughout, Lists, KeyOfProject, IsSession,
         MeetsTables, WasStored, Newer, IsInstant;
    SessionProgress(owner, answers);
    var projects := Gathered(answers);
    forall i | 0 <= i < |projects| ensures projects[i].ownerId == owner && IsInstant(projects[i].createdAt) {
      StoredFacts(owner, answers, projects[i]);
    }
    forall i, j | 0 <= i < j < |projects|
      ensures projects[i].projectId != projects[j].projectId && Newer(projects[i], projects[j])
    {
      SortKeyOrder(projects[i], projects[j]);
      LessIrreflexive(SortKey(projects[i]));
      if projects[i].projectId == projects[j].projectId { StoredOnce(owner, answers, projects[i], projects[j]); }
    }
  }

  lemma {:induction false} StoredFacts(owner: string, answers: seq<Answer>, p: Project)
    requires WasStored(owner, answers, p) && MeetsTables(answers)
    ensures p.ownerId == owner && IsValidProjectId(p.projectId) && IsInstant(p.createdAt)
  {
    hide Rely, Consistent, IsValidProjectId, IsInstant;
    var i :| 0 <= i < |answers| && StoredIn(owner, answers[i].db, p);
    assert WellFormed(answers[i].db.records[p.projectId]);
  }

  /** An id keeps its sort key from table to table. */
  lemma {:induction false} StoredOnce(owner: string, answers: seq<Answer>, p: Project, q: Project)
    requires WasStored(owner, answers, p) && WasStored(owner, answers, q) && MeetsTables(answers)
             && p.projectId == q.projectId
    ensures SortKey(p) == SortKey(q)
  {
    hide DbInv, SortKey, Consistent, SameIdentity;
    var i :| 0 <= i < |answers| && StoredIn(owner, answers[i].db, p);
    var j :| 0 <= j < |answers| && StoredIn(owner, answers[j].db, q);
    if i < j { assert Rely(answers[i].db, answers[j].db); SameSortKey(p, q); }
    if j < i { assert Rely(answers[j].db, answers[i].db); SameSortKey(q, p); }
  }

  /** When the last token is null, every project of the owner that stayed throughout has
      been returned, exactly once. */
  lemma {:induction false} NeverMissed(owner: string, answers: seq<Answer>, id: string)
    requires IsSession(owner, answers) && MeetsTables(answers) && IsFinished(answers) && Throughout(owner, answers, id)
    ensures ListsOnce(Gathered(answers), id)
  {
    hide IsSession, MeetsTables, Throughout, Gathered, Descending, WasStored, SortKey, EncodeCursor, NewestFirst, Lists;
    SessionProgress(owner, answers);
    NeverTwice(owner, answers);
    ListedOnce(Gathered(answers), id);
  }

  lemma {:induction false} ListedOnce(projects: seq<Project>, id: string)
    requires NoRepeats(projects) && Lists(projects, id)
    ensures ListsOnce(projects, id)
  {
    var i :| 0 <= i < |projects| && projects[i].projectId == id;
    assert forall j :: 0 <= j < |projects| && projects[j].projectId == id ==> j == i;
  }

  // ---- during a run of the protocol ----------------------------------------------------------

  /** Request `i` is answered after the first `times[i]` steps of the run. */
  ghost predicate During(s: State, ls: seq<Label>, times: seq<nat>, answers: seq<Answer>)
    requires Run(s, ls)
  {
    && |times| == |answers|
    && (forall i :: 0 <= i < |times| ==> times[i] <= |ls|)
    && (forall i, j :: 0 <= i < j < |times| ==> times[i] <= times[j])
    && (forall i :: 0 <= i < |times| ==> Run(s, ls[..times[i]]) && answers[i].db == After(s, ls[..times[i]]).db)
  }

  lemma {:induction false} RunMeetsTables(s: State, ls: seq<Label>, times: seq<nat>, answers: seq<Answer>)
    requires Inv(s) && Run(s, ls) && During(s, ls, times, answers)
    ensures MeetsTables(answers)
  {
    hide Inv, DbInv, Rely, Enabled, Step, After, Run;
    forall i | 0 <= i < |answers| ensures DbInv(answers[i].db) {
      RunKeepsInv(s, ls[..times[i]]);
      InvHasDb(After(s, ls[..times[i]]));
    }
    forall i, j | 0 <= i < j < |answers| ensures Rely(answers[i].db, answers[j].db) {
      var prefix := ls[..times[j]];
      RunSplits(s, prefix, times[i]);
      assert prefix[..times[i]] == ls[..times[i]];
      RunKeepsInv(s, ls[..times[i]]);
      RunKeepsInv(After(s, ls[..times[i]]), prefix[times[i]..]);
    }
  }

  lemma {:induction false} InvHasDb(s: State)
    requires Inv(s)
    ensures DbInv(s.db)
  {
    hide DbInv, StreamInv, OpsInv, FleetInv;
  }

  /** Paging while creates, deletes and status changes run: in every run from a reachable
      state, following tokens never returns a project twice or another owner's, keeps to
      newest first, and once the token is null has returned exactly once every project of
      the owner that was there throughout. */
  lemma {:induction false} ConcurrentListing(s: State, ls: seq<Label>, times: seq<nat>, owner: string,
                                             answers: seq<Answer>)
    requires Reachable(s) && Run(s, ls) && During(s, ls, times, answers) && IsSession(owner, answers)
    ensures forall p :: p in Gathered(answers) ==> p.ownerId == owner
    ensures NoRepeats(Gathered(answers)) && NewestFirst(Gathered(answers))
    ensures forall id :: IsFinished(answers) && Throughout(owner, answers, id) ==> ListsOnce(Gathered(answers), id)
  {
    hide Reachable, Inv, During, IsSession, MeetsTables, Throughout, Gathered, IsFinished, NewestFirst, NoRepeats,
         ListsOnce, Run, WasStored;
    ReachableInv(s);
    RunMeetsTables(s, ls, times, answers);
    NeverTwice(owner, answers);
    forall id | IsFinished(answers) && Throughout(owner, answers, id) ensures ListsOnce(Gathered(answers), id) {
      NeverMissed(owner, answers, id);
    }
  }
}
