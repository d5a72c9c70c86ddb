/** How records and reservations are laid out as items of the single table, and
    that each row-level operation the service issues is the intended step on them. */
module Layout {
  import opened Text
  import opened Names
  import opened Clock
  import opened Domain
  import opened Dynamo
  import opened Store

  function ProjectPk(id: string): string { "PROJECT#" + id }
  function OwnerPk(owner: string): string { "OWNER#" + owner }
  function SortKey(p: Project): string { "PROJECT#" + (Iso(p.createdAt) + ("#" + p.projectId)) }

  function RecordKey(id: string): Key { Key(ProjectPk(id), "META") }
  function ReservationKey(nameKey: string): Key { Key("NAME#" + nameKey, "RESERVATION") }

  /** The item `create` puts for a project. */
  function ProjectItem(p: Project): Item {
    map["PK" := S(ProjectPk(p.projectId)), "SK" := S("META"), "entity" := S("PROJECT"),
        "projectId" := S(p.projectId), "name" := S(p.name), "nameKey" := S(NameKey(p.name)),
        "type" := S(TypeValue(p.kind)), "status" := S(StatusValue(p.status)), "ownerId" := S(p.ownerId),
        "createdAt" := S(Iso(p.createdAt)), "updatedAt" := S(Iso(p.updatedAt)),
        "GSI1PK" := S(OwnerPk(p.ownerId)), "GSI1SK" := S(SortKey(p))]
  }

  function OptionalItem(attribute: string, value: Option<string>): Item {
    if value.None? then map[] else map[attribute := S(value.value)]
  }

  /** A project item, with what the provisioner may have added. */
  function RecordItem(r: Record): Item {
    ProjectItem(r.project) + OptionalItem("endpoint", r.endpoint) + OptionalItem("failureReason", r.failureReason)
  }

  function ReservationItem(nameKey: string, r: Reservation): Item {
    map["PK" := S("NAME#" + nameKey), "SK" := S("RESERVATION"), "entity" := S("NAME_RESERVATION"),
        "projectId" := S(r.projectId), "ownerId" := S(r.ownerId), "createdAt" := S(Iso(r.createdAt))]
  }

  /** The attributes a transition adds besides status and updatedAt. */
  function ExtraItem(extra: Extra): Item {
    match extra
    case NoExtra => map[]
    case Endpoint(endpoint) => map["endpoint" := S(endpoint)]
    case FailureReason(reason) => map["failureReason" := S(reason)]
  }

  // ---- the whole table -------------------------------------------------------------------

  function Keys(db: Db): set<Key> {
    (set id | id in db.records :: RecordKey(id)) + (set k | k in db.names :: ReservationKey(k))
  }

  lemma {:induction false} KeyMeaning(db: Db, key: Key)
    requires key in Keys(db)
    ensures key.sk == "META" ==> |key.pk| >= 8 && key.pk[8..] in db.records && key == RecordKey(key.pk[8..])
    ensures key.sk != "META" ==> |key.pk| >= 5 && key.pk[5..] in db.names && key == ReservationKey(key.pk[5..])
  {
    assert "META" != "RESERVATION" by { assert |"META"| == 4; }
    if key.sk == "META" {
      var id :| id in db.records && key == RecordKey(id);
      PrefixedEqual("PROJECT#", id, id);
    } else {
      var k :| k in db.names && key == ReservationKey(k);
      PrefixedEqual("NAME#", k, k);
    }
  }

  function ItemOf(db: Db, key: Key): Item
    requires key in Keys(db)
  {
    KeyMeaning(db, key);
    if key.sk == "META" then RecordItem(db.records[key.pk[8..]])
    else ReservationItem(key.pk[5..], db.names[key.pk[5..]])
  }

  /** The rows that hold `db`. */
  function Encode(db: Db): Rows {
    map key | key in Keys(db) :: ItemOf(db, key)
  }

  lemma {:induction false} EncodedRecord(db: Db, id: string)
    ensures RecordKey(id) in Encode(db) <==> id in db.records
    ensures id in db.records ==> Encode(db)[RecordKey(id)] == RecordItem(db.records[id])
  {
    hide RecordItem, ReservationItem;
    if RecordKey(id) in Keys(db) { KeyMeaning(db, RecordKey(id)); }
    PrefixedEqual("PROJECT#", id, id);
  }

  lemma {:induction false} EncodedName(db: Db, k: string)
    ensures ReservationKey(k) in Encode(db) <==> k in db.names
    ensures k in db.names ==> Encode(db)[ReservationKey(k)] == ReservationItem(k, db.names[k])
  {
    hide RecordItem, ReservationItem;
    assert "META" != "RESERVATION" by { assert |"META"| == 4; }
    if ReservationKey(k) in Keys(db) { KeyMeaning(db, ReservationKey(k)); }
    PrefixedEqual("NAME#", k, k);
  }

  /** Rows are the rows of `db` once they agree with it on record and reservation keys. */
  lemma {:induction false} RowsAreEncoded(rows: Rows, db: Db)
    requires forall id :: RecordKey(id) in rows <==> id in db.records
    requires forall k :: ReservationKey(k) in rows <==> k in db.names
    requires forall id :: id in db.records ==> rows[RecordKey(id)] == RecordItem(db.records[id])
    requires forall k :: k in db.names ==> rows[ReservationKey(k)] == ReservationItem(k, db.names[k])
    requires forall key :: key in rows ==> (exists id :: key == RecordKey(id)) || (exists k :: key == ReservationKey(k))
    ensures rows == Encode(db)
  {
    hide RecordItem, ReservationItem;
    forall key | key in rows ensures key in Keys(db) && rows[key] == Encode(db)[key] {
      if exists id :: key == RecordKey(id) {
        var id :| key == RecordKey(id);
        EncodedRecord(db, id);
      } else {
        var k :| key == ReservationKey(k);
        EncodedName(db, k);
      }
    }
    forall key | key in Keys(db) ensures key in rows { KeyMeaning(db, key); }
  }

  // ---- reading an item ---------------------------------------------------------------------

  /** The attributes of a project item that the service reads or compares. */
  lemma {:induction false} ProjectAttributes(p: Project)
    ensures var i := ProjectItem(p);
            && "PK" in i && "entity" in i && i["entity"] == S("PROJECT")
            && "projectId" in i && i["projectId"] == S(p.projectId) && "name" in i && i["name"] == S(p.name)
            && "type" in i && i["type"] == S(TypeValue(p.kind))
            && "status" in i && i["status"] == S(StatusValue(p.status))
            && "ownerId" in i && i["ownerId"] == S(p.ownerId)
            && "createdAt" in i && i["createdAt"] == S(Iso(p.createdAt))
            && "updatedAt" in i && i["updatedAt"] == S(Iso(p.updatedAt))
            && "endpoint" !in i && "failureReason" !in i
  {
    hide Iso, NameKey, SortKey, TypeValue, StatusValue;
  }

  lemma {:induction false} RecordAttributes(r: Record)
    ensures var i := RecordItem(r);
            && "PK" in i && "entity" in i && i["entity"] == S("PROJECT")
            && "projectId" in i && i["projectId"] == S(r.project.projectId)
            && "name" in i && i["name"] == S(r.project.name)
            && "type" in i && i["type"] == S(TypeValue(r.project.kind))
            && "status" in i && i["status"] == S(StatusValue(r.project.status))
            && "ownerId" in i && i["ownerId"] == S(r.project.ownerId)
            && "createdAt" in i && i["createdAt"] == S(Iso(r.project.createdAt))
            && "updatedAt" in i && i["updatedAt"] == S(Iso(r.project.updatedAt))
  {
    hide Iso, NameKey, SortKey, TypeValue, StatusValue, ProjectItem;
    ProjectAttributes(r.project);
  }

  function TextOf(item: Item, attribute: string): Option<string> {
    if attribute in item && item[attribute].S? then Some(item[attribute].s) else None
  }

  predicate IsTimestamp(s: string) {
    |s| == 25 && IsInstant(ParseIso(s)) && Iso(ParseIso(s)) == s
  }

  /** Rebuilds the project from an item; None where validation would raise. */
  function ToProject(item: Item): Option<Project> {
    match (TextOf(item, "projectId"), TextOf(item, "name"), TextOf(item, "type"), TextOf(item, "status"),
           TextOf(item, "ownerId"), TextOf(item, "createdAt"), TextOf(item, "updatedAt"))
    case (Some(id), Some(name), Some(kind), Some(status), Some(owner), Some(created), Some(updated)) =>
      if ParseType(kind).None? || ParseStatus(status).None? || !IsTimestamp(created) || !IsTimestamp(updated) then None
      else Some(Project(id, name, ParseType(kind).value, ParseStatus(status).value, owner, ParseIso(created),
                        ParseIso(updated)))
    case _ => None
  }

  /** Reading back a stored record gives the project that was stored. */
  lemma {:induction false} ToProjectRoundTrip(r: Record)
    requires IsInstant(r.project.createdAt) && IsInstant(r.project.updatedAt)
    ensures ToProject(RecordItem(r)) == Some(r.project)
  {
    hide Iso, ParseIso, NameKey, TypeValue, StatusValue, ParseType, ParseStatus, RecordItem, IsInstant;
    RecordAttributes(r);
    IsoRoundTrip(r.project.createdAt);
    IsoRoundTrip(r.project.updatedAt);
    EnumsRoundTrip(r.project.kind, r.project.status);
  }

  // ---- the bijection, as rows ----------------------------------------------------------------

  /** The reservation row carries the record row's id, owner and creation time. */
  predicate AgreeOnIdentity(record: Item, reservation: Item) {
    && TextOf(record, "projectId").Some? && TextOf(record, "projectId") == TextOf(reservation, "projectId")
    && TextOf(record, "ownerId").Some? && TextOf(record, "ownerId") == TextOf(reservation, "ownerId")
    && TextOf(record, "createdAt").Some? && TextOf(record, "createdAt") == TextOf(reservation, "createdAt")
  }

  /** A record row and the reservation row its name key leads to. */
  ghost predicate RowReserved(rows: Rows, id: string) {
    && RecordKey(id) in rows && TextOf(rows[RecordKey(id)], "nameKey").Some?
    && ReservationKey(TextOf(rows[RecordKey(id)], "nameKey").value) in rows
    && AgreeOnIdentity(rows[RecordKey(id)], rows[ReservationKey(TextOf(rows[RecordKey(id)], "nameKey").value)])
  }

  /** A reservation row and the record row its projectId leads to. */
  ghost predicate RowHeld(rows: Rows, k: string) {
    && ReservationKey(k) in rows && TextOf(rows[ReservationKey(k)], "projectId").Some?
    && var id := TextOf(rows[ReservationKey(k)], "projectId").value;
       RowReserved(rows, id) && TextOf(rows[RecordKey(id)], "nameKey") == Some(k)
  }

  lemma {:induction false} ReservationIdentity(k: string, r: Reservation)
    ensures var i := ReservationItem(k, r);
            && TextOf(i, "projectId") == Some(r.projectId) && TextOf(i, "ownerId") == Some(r.ownerId)
            && TextOf(i, "createdAt") == Some(Iso(r.createdAt))
  {
    hide Iso;
  }

  lemma {:induction false} RecordNameKey(r: Record)
    ensures TextOf(RecordItem(r), "nameKey") == Some(NameKey(r.project.name))
  {
    hide Iso, NameKey, SortKey, TypeValue, StatusValue;
    assert |"nameKey"| == 7 && |"endpoint"| == 8 && |"failureReason"| == 13;
  }

  lemma {:induction false} RecordRowReserved(db: Db, id: string)
    requires Consistent(db) && id in db.records
    ensures RowReserved(Encode(db), id)
    ensures TextOf(Encode(db)[RecordKey(id)], "nameKey") == Some(NameKey(db.records[id].project.name))
  {
    hide Encode, RecordItem, ReservationItem, NameKey, Iso, TextOf, RecordKey, ReservationKey;
    assert Reserved(db, id);
    var r := db.records[id];
    var k := NameKey(r.project.name);
    EncodedRecord(db, id);
    EncodedName(db, k);
    RecordNameKey(r);
    RecordIdentity(r);
    ReservationIdentity(k, db.names[k]);
  }

  lemma {:induction false} RecordIdentity(r: Record)
    ensures var i := RecordItem(r);
            && TextOf(i, "projectId") == Some(r.project.projectId) && TextOf(i, "ownerId") == Some(r.project.ownerId)
            && TextOf(i, "createdAt") == Some(Iso(r.project.createdAt))
  {
    hide RecordItem, Iso;
    RecordAttributes(r);
  }

  /** In the rows of a consistent table each record's reservation sits at its own name key
      and agrees with it, and each reservation leads back to such a record. */
  lemma {:induction false} RowsInBijection(db: Db, key: Key)
    requires Consistent(db) && key in Encode(db)
    ensures key.sk == "META" ==> exists id :: key == RecordKey(id) && RowReserved(Encode(db), id)
    ensures key.sk != "META" ==> exists k :: key == ReservationKey(k) && RowHeld(Encode(db), k)
  {
    hide Encode, RecordItem, ReservationItem, NameKey, RowReserved, TextOf;
    EncodedKeys(db);
    assert "META" != "RESERVATION" by { assert |"META"| == 4; }
    if key.sk == "META" {
      var id :| key == RecordKey(id);
      EncodedRecord(db, id);
      RecordRowReserved(db, id);
    } else {
      var k :| key == ReservationKey(k);
      EncodedName(db, k);
      assert Held(db, k);
      ReservationIdentity(k, db.names[k]);
      RecordRowReserved(db, db.names[k].projectId);
    }
  }

  // ---- the service's operations on rows ------------------------------------------------------

  function CreateWrites(p: Project): seq<Write> {
    [Put(ReservationKey(NameKey(p.name)), ReservationItem(NameKey(p.name), OwnReservation(p)), NotExists("PK")),
     Put(RecordKey(p.projectId), ProjectItem(p), NotExists("PK"))]
  }

  function DeleteWrites(id: string, owner: string, name: string): seq<Write> {
    [Delete(RecordKey(id), And(Exists("PK"), Equals("ownerId", S(owner)))),
     Delete(ReservationKey(NameKey(name)), Equals("projectId", S(id)))]
  }

  lemma {:induction false} ReservationAttributes(k: string, r: Reservation)
    ensures var i := ReservationItem(k, r); "PK" in i && "projectId" in i && i["projectId"] == S(r.projectId)
  {
    hide Iso;
  }

  lemma {:induction false} CreateConditionsOnRows(db: Db, p: Project)
    ensures Conditions(Encode(db), CreateWrites(p)) == CreateConditions(db, p)
  {
    hide Encode, NameKey, RecordItem, ReservationItem, ProjectItem;
    EncodedRecord(db, p.projectId);
    EncodedName(db, NameKey(p.name));
    if p.projectId in db.records { RecordAttributes(db.records[p.projectId]); }
    if NameKey(p.name) in db.names { ReservationAttributes(NameKey(p.name), db.names[NameKey(p.name)]); }
  }

  lemma {:induction false} ApplyTwo(rows: Rows, a: Write, b: Write)
    ensures Apply(rows, [a, b]) == Apply(Apply(rows, [a]), [b])
  {
    assert [a, b][1..] == [b] && [a][1..] == [] && [b][1..] == [];
  }

  lemma {:induction false} ApplyOne(rows: Rows, w: Write)
    ensures Apply(rows, [w]) == match w case Put(key, item, _) => rows[key := item] case Delete(key, _) => rows - {key}
  {
    assert [w][1..] == [];
  }

  lemma {:induction false} KeysDiffer(id: string, id': string, k: string, k': string)
    ensures RecordKey(id) != ReservationKey(k)
    ensures RecordKey(id) == RecordKey(id') ==> id == id'
    ensures ReservationKey(k) == ReservationKey(k') ==> k == k'
  {
    assert "META" != "RESERVATION" by { assert |"META"| == 4; }
    PrefixedEqual("PROJECT#", id, id');
    PrefixedEqual("NAME#", k, k');
  }

  /** Storing one more row of either kind. */
  lemma {:induction false} EncodeWithName(db: Db, k: string, r: Reservation)
    ensures Encode(db)[ReservationKey(k) := ReservationItem(k, r)] == Encode(db.(names := db.names[k := r]))
  {
    hide RecordItem, ReservationItem, Encode, ReservationKey, RecordKey;
    var (rows, db') := (Encode(db)[ReservationKey(k) := ReservationItem(k, r)], db.(names := db.names[k := r]));
    forall id ensures RecordKey(id) in rows <==> id in db'.records
              ensures id in db'.records ==> rows[RecordKey(id)] == RecordItem(db'.records[id]) {
      KeysDiffer(id, id, k, k);
      EncodedRecord(db, id);
    }
    forall k' ensures ReservationKey(k') in rows <==> k' in db'.names
              ensures k' in db'.names ==> rows[ReservationKey(k')] == ReservationItem(k', db'.names[k']) {
      KeysDiffer("", "", k, k');
      EncodedName(db, k');
    }
    EncodedKeys(db);
    RowsAreEncoded(rows, db');
  }

  lemma {:induction false} EncodeWithRecord(db: Db, id: string, r: Record)
    ensures Encode(db)[RecordKey(id) := RecordItem(r)] == Encode(db.(records := db.records[id := r]))
  {
    hide RecordItem, ReservationItem, Encode, ReservationKey, RecordKey;
    var (rows, db') := (Encode(db)[RecordKey(id) := RecordItem(r)], db.(records := db.records[id := r]));
    forall id' ensures RecordKey(id') in rows <==> id' in db'.records
               ensures id' in db'.records ==> rows[RecordKey(id')] == RecordItem(db'.records[id']) {
      KeysDiffer(id, id', "", "");
      EncodedRecord(db, id');
    }
    forall k ensures ReservationKey(k) in rows <==> k in db'.names
             ensures k in db'.names ==> rows[ReservationKey(k)] == ReservationItem(k, db'.names[k]) {
      KeysDiffer(id, id, k, k);
      EncodedName(db, k);
    }
    EncodedKeys(db);
    RowsAreEncoded(rows, db');
  }

  lemma {:induction false} EncodeWithoutName(db: Db, k: string)
    ensures Encode(db) - {ReservationKey(k)} == Encode(db.(names := db.names - {k}))
  {
    hide RecordItem, ReservationItem, Encode, ReservationKey, RecordKey;
    var (rows, db') := (Encode(db) - {ReservationKey(k)}, db.(names := db.names - {k}));
    forall id ensures RecordKey(id) in rows <==> id in db'.records
              ensures id in db'.records ==> rows[RecordKey(id)] == RecordItem(db'.records[id]) {
      KeysDiffer(id, id, k, k);
      EncodedRecord(db, id);
    }
    forall k' ensures ReservationKey(k') in rows <==> k' in db'.names
              ensures k' in db'.names ==> rows[ReservationKey(k')] == ReservationItem(k', db'.names[k']) {
      KeysDiffer("", "", k, k');
      EncodedName(db, k');
    }
    EncodedKeys(db);
    RowsAreEncoded(rows, db');
  }

  lemma {:induction false} EncodeWithoutRecord(db: Db, id: string)
    ensures Encode(db) - {RecordKey(id)} == Encode(db.(records := db.records - {id}))
  {
    hide RecordItem, ReservationItem, Encode, ReservationKey, RecordKey;
    var (rows, db') := (Encode(db) - {RecordKey(id)}, db.(records := db.records - {id}));
    forall id' ensures RecordKey(id') in rows <==> id' in db'.records
               ensures id' in db'.records ==> rows[RecordKey(id')] == RecordItem(db'.records[id']) {
      KeysDiffer(id, id', "", "");
      EncodedRecord(db, id');
    }
    forall k ensures ReservationKey(k) in rows <==> k in db'.names
             ensures k in db'.names ==> rows[ReservationKey(k)] == ReservationItem(k, db'.names[k]) {
      KeysDiffer(id, id, k, k);
      EncodedName(db, k);
    }
    EncodedKeys(db);
    RowsAreEncoded(rows, db');
  }

  lemma {:induction false} EncodedKeys(db: Db)
    ensures forall key :: key in Encode(db) ==>
              (exists id :: key == RecordKey(id)) || (exists k :: key == ReservationKey(k))
  {
    hide RecordItem, ReservationItem;
    forall key | key in Encode(db)
      ensures (exists id :: key == RecordKey(id)) || (exists k :: key == ReservationKey(k)) {
      KeyMeaning(db, key);
    }
  }

  /** `inserted` is history only: it has no rows. */
  lemma {:induction false} EncodeIgnoresHistory(db: Db, db': Db)
    requires db'.records == db.records && db'.names == db.names
    ensures Encode(db') == Encode(db)
  {
    hide RecordItem, ReservationItem;
    assert Keys(db') == Keys(db);
  }

  lemma {:induction false} CreateOnRows(db: Db, p: Project)
    ensures Apply(Encode(db), CreateWrites(p)) == Encode(WithProject(db, p))
  {
    hide Encode, NameKey, ReservationItem, ProjectItem, Apply;
    var w := CreateWrites(p);
    ApplyTwo(Encode(db), w[0], w[1]);
    ApplyOne(Encode(db), w[0]);
    var named := db.(names := db.names[NameKey(p.name) := OwnReservation(p)]);
    EncodeWithName(db, NameKey(p.name), OwnReservation(p));
    ApplyOne(Encode(named), w[1]);
    assert RecordItem(Record(p, None, None)) == ProjectItem(p);
    EncodeWithRecord(named, p.projectId, Record(p, None, None));
    EncodeIgnoresHistory(named.(records := named.records[p.projectId := Record(p, None, None)]), WithProject(db, p));
  }

  lemma {:induction false} DeleteConditionsOnRows(db: Db, id: string, owner: string, name: string)
    ensures Conditions(Encode(db), DeleteWrites(id, owner, name)) == DeleteConditions(db, id, owner, name)
  {
    hide Encode, NameKey, RecordItem, ReservationItem, ProjectItem;
    EncodedRecord(db, id);
    EncodedName(db, NameKey(name));
    if id in db.records { RecordAttributes(db.records[id]); }
    if NameKey(name) in db.names { ReservationAttributes(NameKey(name), db.names[NameKey(name)]); }
    var w := DeleteWrites(id, owner, name);
    assert Holds(w[0].condition, ItemAt(Encode(db), w[0].key)) == Owns(db, id, owner);
    assert Holds(w[1].condition, ItemAt(Encode(db), w[1].key)) == DeleteConditions(db, id, owner, name)[1];
  }

  lemma {:induction false} DeleteOnRows(db: Db, id: string, owner: string, name: string)
    ensures Apply(Encode(db), DeleteWrites(id, owner, name)) == Encode(WithoutProject(db, id, name))
  {
    hide Encode, NameKey, RecordItem, ReservationItem, ProjectItem, Apply;
    var w := DeleteWrites(id, owner, name);
    ApplyTwo(Encode(db), w[0], w[1]);
    ApplyOne(Encode(db), w[0]);
    EncodeWithoutRecord(db, id);
    var gone := db.(records := db.records - {id});
    ApplyOne(Encode(gone), w[1]);
    EncodeWithoutName(gone, NameKey(name));
    EncodeIgnoresHistory(gone.(names := gone.names - {NameKey(name)}), WithoutProject(db, id, name));
  }

  lemma {:induction false} StatusOnRows(db: Db, id: string, expected: Status)
    ensures Holds(Equals("status", S(StatusValue(expected))), ItemAt(Encode(db), RecordKey(id)))
         == HasStatus(db, id, expected)
  {
    hide Encode, RecordItem;
    EncodedRecord(db, id);
    if id in db.records {
      RecordAttributes(db.records[id]);
      EnumsRoundTrip(Agent, db.records[id].project.status);
      EnumsRoundTrip(Agent, expected);
    }
  }

  lemma {:induction false} UpdateBeforeMerge(a: Item, b: Item, attribute: string, value: Value)
    requires attribute !in b
    ensures (a + b)[attribute := value] == a[attribute := value] + b
  {
  }

  lemma {:induction false} MergeAssociative(a: Item, b: Item, c: Item)
    ensures (a + b) + c == a + (b + c)
  {
  }

  function OptionalItems(endpoint: Option<string>, failureReason: Option<string>): Item {
    OptionalItem("endpoint", endpoint) + OptionalItem("failureReason", failureReason)
  }

  lemma {:induction false} ExtraOnOptional(endpoint: Option<string>, failureReason: Option<string>, extra: Extra)
    ensures OptionalItems(endpoint, failureReason) + ExtraItem(extra)
         == OptionalItems(if extra.Endpoint? then Some(extra.endpoint) else endpoint,
                          if extra.FailureReason? then Some(extra.reason) else failureReason)
    ensures "status" !in OptionalItems(endpoint, failureReason)
            && "updatedAt" !in OptionalItems(endpoint, failureReason)
  {
    assert |"endpoint"| == 8 && |"failureReason"| == 13 && |"status"| == 6 && |"updatedAt"| == 9;
  }

  /** Updating a stored item's attributes is transitioning the record. */
  lemma {:induction false} TransitionOnItem(r: Record, target: Status, now: Instant, extra: Extra)
    ensures RecordItem(r)["status" := S(StatusValue(target))]["updatedAt" := S(Iso(now))] + ExtraItem(extra)
         == RecordItem(Transitioned(r, target, now, extra))
  {
    hide Iso, StatusValue, ProjectItem, OptionalItem, ExtraItem;
    ProjectItemStatus(r.project, target, now);
    ExtraOnOptional(r.endpoint, r.failureReason, extra);
    var (p, optional) := (ProjectItem(r.project), OptionalItems(r.endpoint, r.failureReason));
    MergeAssociative(p, OptionalItem("endpoint", r.endpoint), OptionalItem("failureReason", r.failureReason));
    UpdateBeforeMerge(p, optional, "status", S(StatusValue(target)));
    UpdateBeforeMerge(p["status" := S(StatusValue(target))], optional, "updatedAt", S(Iso(now)));
    var p' := p["status" := S(StatusValue(target))]["updatedAt" := S(Iso(now))];
    MergeAssociative(p', optional, ExtraItem(extra));
    var t := Transitioned(r, target, now, extra);
    MergeAssociative(p', OptionalItem("endpoint", t.endpoint), OptionalItem("failureReason", t.failureReason));
  }

  lemma {:induction false} ProjectItemStatus(p: Project, target: Status, now: Instant)
    ensures ProjectItem(p)["status" := S(StatusValue(target))]["updatedAt" := S(Iso(now))]
         == ProjectItem(p.(status := target, updatedAt := now))
  {
    hide Iso, StatusValue, NameKey, TypeValue;
  }

  lemma {:induction false} TransitionOnRows(db: Db, id: string, target: Status, now: Instant, extra: Extra)
    requires id in db.records
    ensures RecordKey(id) in Encode(db)
    ensures var updated := Encode(db)[RecordKey(id)]["status" := S(StatusValue(target))]["updatedAt" := S(Iso(now))];
            Encode(db)[RecordKey(id) := updated + ExtraItem(extra)] == Encode(WithStatus(db, id, target, now, extra))
  {
    hide Encode, RecordItem, ExtraItem, Iso, StatusValue, Transitioned;
    EncodedRecord(db, id);
    TransitionOnItem(db.records[id], target, now, extra);
    EncodeWithRecord(db, id, Transitioned(db.records[id], target, now, extra));
  }
}
