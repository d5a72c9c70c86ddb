/** GSI1 as a view of the table: the rows that carry its keys, read newest first
    from an exclusive start key. */
module OwnerIndex {
  import opened Text
  import opened Names
  import opened Clock
  import opened Domain
  import opened Dynamo
  import opened Store
  import opened Layout

  /** The four key attributes of a `LastEvaluatedKey`. */
  datatype CursorKey = CursorKey(pk: string, sk: string, gsi1pk: string, gsi1sk: string)

  /** Key condition, direction (`ScanIndexForward`), page size and exclusive start. */
  datatype Query = Query(partition: string, prefix: string, forward: bool, limit: nat, start: Option<CursorKey>)

  /** What the environment may answer: a page with or without a last key, or an error. */
  datatype QueryReply = Page(items: seq<Item>, last: Option<CursorKey>) | QueryFailed(code: string)

  function SortKeyOf(item: Item): string {
    if TextOf(item, "GSI1SK").Some? then TextOf(item, "GSI1SK").value else ""
  }

  /** The query reads sort key `a` before `b`. */
  predicate ReadsBefore(q: Query, a: string, b: string) {
    if q.forward then Less(a, b) else Less(b, a)
  }

  predicate Selects(q: Query, item: Item) {
    && TextOf(item, "GSI1PK") == Some(q.partition)
    && TextOf(item, "GSI1SK").Some? && StartsWith(SortKeyOf(item), q.prefix)
    && (q.start.Some? ==> ReadsBefore(q, q.start.value.gsi1sk, SortKeyOf(item)))
  }

  predicate IsKeyOf(key: CursorKey, item: Item) {
    && TextOf(item, "PK") == Some(key.pk) && TextOf(item, "SK") == Some(key.sk)
    && TextOf(item, "GSI1PK") == Some(key.gsi1pk) && TextOf(item, "GSI1SK") == Some(key.gsi1sk)
  }

  /** A permitted page: selected rows in the strict order of their sort keys with none skipped,
      up to the limit; all of them when there is no last key, else ending at the last key. */
  ghost predicate IsReply(rows: Rows, q: Query, items: seq<Item>, last: Option<CursorKey>) {
    && |items| <= q.limit
    && (forall i :: 0 <= i < |items| ==> Selects(q, items[i]) && exists key :: key in rows && rows[key] == items[i])
    && (forall i, j :: 0 <= i < j < |items| ==> ReadsBefore(q, SortKeyOf(items[i]), SortKeyOf(items[j])))
    && (forall key :: key in rows && Selects(q, rows[key]) ==>
          || rows[key] in items
          || (last.Some? && items != [] && ReadsBefore(q, SortKeyOf(items[|items| - 1]), SortKeyOf(rows[key]))))
    && (last.Some? ==> items != [] && IsKeyOf(last.value, items[|items| - 1]))
  }

  // ---- the same page in terms of projects --------------------------------------------------

  function KeyOfProject(p: Project): CursorKey {
    CursorKey(ProjectPk(p.projectId), "META", OwnerPk(p.ownerId), SortKey(p))
  }

  /** A stored project of this owner that sorts after `start`. */
  predicate Remaining(db: Db, owner: string, start: Option<CursorKey>, id: string) {
    && id in db.records && db.records[id].project.ownerId == owner
    && (start.Some? ==> Less(SortKey(db.records[id].project), start.value.gsi1sk))
  }

  ghost predicate IsPage(db: Db, owner: string, limit: nat, start: Option<CursorKey>, page: seq<Project>,
                         last: Option<CursorKey>) {
    && |page| <= limit
    && (forall i :: 0 <= i < |page| ==>
          Remaining(db, owner, start, page[i].projectId) && db.records[page[i].projectId].project == page[i])
    && (forall i, j :: 0 <= i < j < |page| ==> Less(SortKey(page[j]), SortKey(page[i])))
    && (forall id :: Remaining(db, owner, start, id) ==>
          || db.records[id].project in page
          || (last.Some? && page != [] && Less(SortKey(db.records[id].project), SortKey(page[|page| - 1]))))
    && (last.Some? ==> page != [] && last.value == KeyOfProject(page[|page| - 1]))
  }

  lemma {:induction false} IndexAttributes(p: Project)
    ensures var i := ProjectItem(p);
            && "GSI1PK" in i && i["GSI1PK"] == S(OwnerPk(p.ownerId)) && "GSI1SK" in i && i["GSI1SK"] == S(SortKey(p))
            && "PK" in i && i["PK"] == S(ProjectPk(p.projectId)) && "SK" in i && i["SK"] == S("META")
  {
    hide Iso, NameKey, SortKey, TypeValue, StatusValue, ProjectPk, OwnerPk;
  }

  lemma {:induction false} RecordIndexAttributes(r: Record)
    ensures var i := RecordItem(r);
            && "GSI1PK" in i && i["GSI1PK"] == S(OwnerPk(r.project.ownerId))
            && "GSI1SK" in i && i["GSI1SK"] == S(SortKey(r.project))
            && "PK" in i && i["PK"] == S(ProjectPk(r.project.projectId)) && "SK" in i && i["SK"] == S("META")
  {
    hide ProjectItem, SortKey, ProjectPk, OwnerPk;
    IndexAttributes(r.project);
  }

  lemma {:induction false} ReservationsNotIndexed(k: string, r: Reservation)
    ensures "GSI1PK" !in ReservationItem(k, r)
  {
    hide Iso;
  }

  lemma {:induction false} OwnersDiffer(a: string, b: string)
    ensures OwnerPk(a) == OwnerPk(b) <==> a == b
  {
    PrefixedEqual("OWNER#", a, b);
  }

  /** The query `list_by_owner` issues. */
  function OwnerQuery(owner: string, limit: nat, start: Option<CursorKey>): Query {
    Query(OwnerPk(owner), "PROJECT#", false, limit, start)
  }

  /** Of any rows, also of other kinds that share the owner's partition, the query selects
      exactly those of the owner whose sort key is a project's and behind the start key. */
  lemma {:induction false} OwnerQuerySelects(owner: string, limit: nat, start: Option<CursorKey>, item: Item)
    ensures Selects(OwnerQuery(owner, limit, start), item) <==>
              && "GSI1PK" in item && item["GSI1PK"] == S("OWNER#" + owner)
              && "GSI1SK" in item && item["GSI1SK"].S? && "PROJECT#" <= item["GSI1SK"].s
              && (start.Some? ==> Less(item["GSI1SK"].s, start.value.gsi1sk))
  {
    hide Less;
  }

  /** The index selects exactly the owner's projects. */
  lemma {:induction false} SelectsProjects(db: Db, owner: string, limit: nat, start: Option<CursorKey>, key: Key)
    requires Consistent(db) && key in Encode(db)
    ensures Selects(OwnerQuery(owner, limit, start), Encode(db)[key]) <==>
            key.sk == "META" && |key.pk| >= 8 && Remaining(db, owner, start, key.pk[8..])
    ensures key.sk == "META" ==> |key.pk| >= 8 && key.pk[8..] in db.records && key == RecordKey(key.pk[8..])
    ensures key.sk == "META" ==> Encode(db)[key] == RecordItem(db.records[key.pk[8..]])
  {
    hide RecordItem, ReservationItem, OwnerPk, SortKey, Consistent;
    KeyMeaning(db, key);
    if key.sk == "META" {
      var id := key.pk[8..];
      RecordIndexAttributes(db.records[id]);
      OwnersDiffer(owner, db.records[id].project.ownerId);
      SortKeyPrefix(db.records[id].project);
    } else {
      ReservationsNotIndexed(key.pk[5..], db.names[key.pk[5..]]);
    }
  }

  lemma {:induction false} SortKeyPrefix(p: Project)
    ensures StartsWith(SortKey(p), "PROJECT#")
  {
  }

  /** The projects of a page's items. */
  predicate AreProjects(items: seq<Item>, page: seq<Project>) {
    |page| == |items| && forall i :: 0 <= i < |items| ==> ToProject(items[i]) == Some(page[i])
  }

  ghost predicate ReadableInstants(db: Db) {
    forall id :: id in db.records ==>
      IsInstant(db.records[id].project.createdAt) && IsInstant(db.records[id].project.updatedAt)
  }

  /** Each item of a permitted page is a stored project of the owner. */
  lemma {:induction false} PageItem(db: Db, owner: string, limit: nat, start: Option<CursorKey>, item: Item, key: Key,
                                    p: Project)
    requires Consistent(db) && ReadableInstants(db) && ToProject(item) == Some(p)
    requires Selects(OwnerQuery(owner, limit, start), item) && key in Encode(db) && Encode(db)[key] == item
    ensures Remaining(db, owner, start, p.projectId) && db.records[p.projectId].project == p
    ensures item == RecordItem(db.records[p.projectId]) && SortKeyOf(item) == SortKey(p)
    ensures forall k :: IsKeyOf(k, item) ==> k == KeyOfProject(p)
  {
    hide RecordItem, OwnerPk, SortKey, Encode, ToProject, IsInstant;
    SelectsProjects(db, owner, limit, start, key);
    var id := key.pk[8..];
    RecordIndexAttributes(db.records[id]);
    ToProjectRoundTrip(db.records[id]);
    assert Reserved(db, id);
  }

  lemma {:induction false} RemainingIsSelected(db: Db, owner: string, limit: nat, start: Option<CursorKey>, id: string)
    requires Consistent(db) && ReadableInstants(db) && Remaining(db, owner, start, id)
    ensures RecordKey(id) in Encode(db) && Selects(OwnerQuery(owner, limit, start), Encode(db)[RecordKey(id)])
    ensures SortKeyOf(Encode(db)[RecordKey(id)]) == SortKey(db.records[id].project)
    ensures ToProject(Encode(db)[RecordKey(id)]) == Some(db.records[id].project)
  {
    hide RecordItem, OwnerPk, SortKey, Encode, ToProject, Consistent, IsInstant;
    EncodedRecord(db, id);
    PrefixedEqual("PROJECT#", id, id);
    SelectsProjects(db, owner, limit, start, RecordKey(id));
    RecordIndexAttributes(db.records[id]);
    ToProjectRoundTrip(db.records[id]);
  }

  lemma {:induction false} ReplyIsPage(db: Db, owner: string, limit: nat, start: Option<CursorKey>,
                                       items: seq<Item>, last: Option<CursorKey>, page: seq<Project>)
    requires Consistent(db) && ReadableInstants(db) && AreProjects(items, page)
    requires IsReply(Encode(db), OwnerQuery(owner, limit, start), items, last)
    ensures IsPage(db, owner, limit, start, page, last)
  {
    hide RecordItem, SortKey, Encode, ToProject, Consistent, ReadableInstants, Selects, KeyOfProject, Less, SortKeyOf,
         IsKeyOf, RecordKey;
    var q := OwnerQuery(owner, limit, start);
    forall i | 0 <= i < |page|
      ensures Remaining(db, owner, start, page[i].projectId) && db.records[page[i].projectId].project == page[i]
      ensures SortKeyOf(items[i]) == SortKey(page[i])
      ensures forall k :: IsKeyOf(k, items[i]) ==> k == KeyOfProject(page[i])
    {
      assert Selects(q, items[i]);
      var key :| key in Encode(db) && Encode(db)[key] == items[i];
      PageItem(db, owner, limit, start, items[i], key, page[i]);
    }
    forall id | Remaining(db, owner, start, id)
      ensures db.records[id].project in page
           || (last.Some? && page != [] && Less(SortKey(db.records[id].project), SortKey(page[|page| - 1])))
    {
      RemainingIsSelected(db, owner, limit, start, id);
      var item := Encode(db)[RecordKey(id)];
      if item in items {
        var i :| 0 <= i < |items| && items[i] == item;
        assert page[i] == db.records[id].project;
      }
    }
  }
}
