/** Opaque cursor tokens (src/projects_api/api/pagination.py): compact sorted JSON
    of a `LastEvaluatedKey` in unpadded URL-safe base64, capped in length. */
module Cursor {
  import opened Text
  import opened Clock
  import opened Domain
  import opened Layout
  import opened OwnerIndex
  import Json
  import Base64

  const MAX_TOKEN_LENGTH := 1024

  // ---- encoding --------------------------------------------------------------------

  function Attribute(text: string): Json.Value {
    Json.Obj([Json.Field("S", Json.Str(text))])
  }

  /** `sort_keys=True` */
  function KeyJson(k: CursorKey): Json.Value {
    Json.Obj([Json.Field("GSI1PK", Attribute(k.gsi1pk)), Json.Field("GSI1SK", Attribute(k.gsi1sk)),
              Json.Field("PK", Attribute(k.pk)), Json.Field("SK", Attribute(k.sk))])
  }

  function KeyText(k: CursorKey): (t: string)
    ensures Json.IsAscii(t)
  {
    Json.PrintIsAscii(KeyJson(k));
    Json.Print(KeyJson(k))
  }

  function Bytes(t: string): (b: seq<Base64.Byte>)
    requires Json.IsAscii(t)
    ensures |b| == |t|
  {
    seq(|t|, i requires 0 <= i < |t| => t[i] as int)
  }

  function EncodeCursor(k: CursorKey): string {
    Base64.Encode(Bytes(KeyText(k)))
  }

  // ---- decoding --------------------------------------------------------------------

  function Chars(b: seq<Base64.Byte>): Option<string> {
    if exists i :: 0 <= i < |b| && b[i] >= 128 then None
    else Some(seq(|b|, i requires 0 <= i < |b| && b[i] < 128 => b[i] as char))
  }

  function Keys(fields: seq<Json.Field>): set<string> {
    set i | 0 <= i < |fields| :: fields[i].key
  }

  /** A repeated key keeps its last value. */
  function Lookup(fields: seq<Json.Field>, key: string): Option<Json.Value> {
    if fields == [] then None
    else if fields[|fields| - 1].key == key then Some(fields[|fields| - 1].value)
    else Lookup(fields[..|fields| - 1], key)
  }

  /** The text of `{"S": text}`. */
  function AttributeText(v: Option<Json.Value>): Option<string> {
    if v.None? || !v.value.Obj? || Keys(v.value.fields) != {"S"} then None
    else match Lookup(v.value.fields, "S")
      case Some(Str(text)) => Some(text)
      case _ => None
  }

  const CURSOR_KEYS := {"PK", "SK", "GSI1PK", "GSI1SK"}

  /** Exactly the four key attributes, all strings. */
  function ShapedKey(v: Json.Value): Option<CursorKey> {
    if !v.Obj? || Keys(v.fields) != CURSOR_KEYS then None
    else match (AttributeText(Lookup(v.fields, "PK")), AttributeText(Lookup(v.fields, "SK")),
                AttributeText(Lookup(v.fields, "GSI1PK")), AttributeText(Lookup(v.fields, "GSI1SK")))
      case (Some(pk), Some(sk), Some(gsi1pk), Some(gsi1sk)) => Some(CursorKey(pk, sk, gsi1pk, gsi1sk))
      case _ => None
  }

  /** None is InvalidCursorError. `parse` is what the JSON library makes of the bytes. */
  function DecodeWith(parse: seq<Base64.Byte> -> Option<Json.Value>, token: string, owner: string): Option<CursorKey> {
    if token == "" || |token| > MAX_TOKEN_LENGTH then None
    else match Base64.Decode(Base64.Repad(token))
      case None => None
      case Some(bytes) =>
        match parse(bytes)
        case None => None
        case Some(v) =>
          match ShapedKey(v)
          case None => None
          case Some(key) => if key.gsi1pk != OwnerPk(owner) then None else Some(key)
  }

  /** Reads JSON in ASCII. */
  function Parse(bytes: seq<Base64.Byte>): Option<Json.Value> {
    match Chars(bytes)
    case None => None
    case Some(text) => Json.Loads(text)
  }

  function DecodeCursor(token: string, owner: string): Option<CursorKey> {
    DecodeWith(Parse, token, owner)
  }

  // ---- the round trip and its bound ------------------------------------------------------

  lemma {:induction false} CharsOfBytes(t: string)
    requires Json.IsAscii(t)
    ensures Chars(Bytes(t)) == Some(t)
  {
    assert forall i :: 0 <= i < |t| ==> Bytes(t)[i] as char == t[i];
    assert Chars(Bytes(t)).value == t;
  }

  lemma {:induction false} LookupStep(fields: seq<Json.Field>, last: Json.Field, key: string)
    ensures Lookup(fields + [last], key) == if last.key == key then Some(last.value) else Lookup(fields, key)
  {
    assert (fields + [last])[..|fields|] == fields;
  }

  lemma {:induction false} AttributeRoundTrip(text: string)
    ensures AttributeText(Some(Attribute(text))) == Some(text)
  {
    var fields := Attribute(text).fields;
    assert fields[0].key in Keys(fields);
    assert Keys(fields) == {"S"};
    LookupStep([], fields[0], "S");
    assert [] + [fields[0]] == fields;
  }

  /** Sorted, the four keys are distinct; each is found. */
  lemma {:induction false} KeyFields(k: CursorKey)
    ensures var fields := KeyJson(k).fields;
            && Keys(fields) == CURSOR_KEYS
            && Lookup(fields, "PK") == Some(Attribute(k.pk)) && Lookup(fields, "SK") == Some(Attribute(k.sk))
            && Lookup(fields, "GSI1PK") == Some(Attribute(k.gsi1pk))
            && Lookup(fields, "GSI1SK") == Some(Attribute(k.gsi1sk))
  {
    hide Attribute, Lookup;
    var fields := KeyJson(k).fields;
    assert fields[0].key in Keys(fields) && fields[1].key in Keys(fields) && fields[2].key in Keys(fields)
           && fields[3].key in Keys(fields);
    assert |"PK"| == 2 && |"SK"| == 2 && |"GSI1PK"| == 6 && |"GSI1SK"| == 6;
    assert "PK"[0] == 'P' && "SK"[0] == 'S' && "GSI1PK"[4] == 'P' && "GSI1SK"[4] == 'S';
    forall key ensures Lookup(fields, key) ==
      if key == "SK" then Some(Attribute(k.sk)) else if key == "PK" then Some(Attribute(k.pk))
      else if key == "GSI1SK" then Some(Attribute(k.gsi1sk)) else if key == "GSI1PK" then Some(Attribute(k.gsi1pk))
      else Lookup([], key)
    {
      var (a, b, c, d) := (fields[0], fields[1], fields[2], fields[3]);
      assert fields == [] + [a] + [b] + [c] + [d];
      LookupStep([] + [a] + [b] + [c], d, key);
      LookupStep([] + [a] + [b], c, key);
      LookupStep([] + [a], b, key);
      LookupStep([], a, key);
    }
  }

  function KeysInOrder(fields: seq<Json.Field>): seq<string> {
    seq(|fields|, i requires 0 <= i < |fields| => fields[i].key)
  }

  /** The four attributes by name. */
  function AttributeOf(k: CursorKey, key: string): string {
    if key == "PK" then k.pk else if key == "SK" then k.sk else if key == "GSI1PK" then k.gsi1pk else k.gsi1sk
  }

  /** `json.dumps(..., sort_keys=True)`: of all listings of the key's attributes, the one
      printed is the one in increasing order of name, and the only such. */
  lemma {:induction false} KeysAreSorted(k: CursorKey, fields: seq<Json.Field>)
    requires Keys(fields) == CURSOR_KEYS && forall f :: f in fields ==> f.value == Attribute(AttributeOf(k, f.key))
    ensures Increasing(KeysInOrder(fields)) <==> fields == KeyJson(k).fields
  {
    hide Attribute;
    var own := KeyJson(k).fields;
    OwnKeysIncrease(k);
    OwnValues(k);
    if Increasing(KeysInOrder(fields)) {
      KeyFields(k);
      KeysAsSet(fields);
      KeysAsSet(own);
      IncreasingUnique(KeysInOrder(fields), KeysInOrder(own));
      assert |fields| == |KeysInOrder(fields)| == |KeysInOrder(own)| == |own|;
      forall i | 0 <= i < |fields| ensures fields[i] == own[i] {
        assert fields[i].key == KeysInOrder(fields)[i] == KeysInOrder(own)[i] == own[i].key;
        assert fields[i] in fields && own[i] in own;
      }
    }
  }

  lemma {:induction false} KeysAsSet(fields: seq<Json.Field>)
    ensures (set key | key in KeysInOrder(fields)) == Keys(fields)
  {
    forall key ensures key in KeysInOrder(fields) <==> key in Keys(fields) {
      if key in KeysInOrder(fields) {
        var i :| 0 <= i < |fields| && KeysInOrder(fields)[i] == key;
        assert fields[i].key in Keys(fields);
      }
      if key in Keys(fields) {
        var i :| 0 <= i < |fields| && fields[i].key == key;
        assert KeysInOrder(fields)[i] == key;
      }
    }
  }

  lemma {:induction false} OwnKeysIncrease(k: CursorKey)
    ensures Increasing(KeysInOrder(KeyJson(k).fields))
  {
    LessConcat("GSI1", "PK", "GSI1", "SK");
    LessIrreflexive("GSI1");
    assert "GSI1" + "PK" == "GSI1PK" && "GSI1" + "SK" == "GSI1SK";
  }

  lemma {:induction false} OwnValues(k: CursorKey)
    ensures forall f :: f in KeyJson(k).fields ==> f.value == Attribute(AttributeOf(k, f.key))
  {
    hide Attribute;
    assert |"PK"| == 2 && |"SK"| == 2 && |"GSI1PK"| == 6 && |"GSI1SK"| == 6;
    assert "PK"[0] == 'P' && "SK"[0] == 'S' && "GSI1PK"[4] == 'P' && "GSI1SK"[4] == 'S';
  }

  lemma {:induction false} ShapeRoundTrip(k: CursorKey)
    ensures ShapedKey(KeyJson(k)) == Some(k)
  {
    hide Attribute, Lookup, AttributeText;
    KeyFields(k);
    AttributeRoundTrip(k.pk);
    AttributeRoundTrip(k.sk);
    AttributeRoundTrip(k.gsi1pk);
    AttributeRoundTrip(k.gsi1sk);
  }

  lemma {:induction false} TokenLength(k: CursorKey)
    ensures |EncodeCursor(k)| == (4 * |KeyText(k)| + 2) / 3 && EncodeCursor(k) != ""
  {
    hide Json.Print, Base64.Encode, Bytes;
    Base64.EncodeShape(Bytes(KeyText(k)));
    Json.PrintStart(KeyJson(k));
  }

  /** A key survives encoding and decoding exactly when it is the caller's and its JSON
      is at most 768 bytes: the cap of 1024 characters refuses longer tokens. So with
      every JSON library that reads back what was printed. */
  lemma {:induction false} RoundTripWith(parse: seq<Base64.Byte> -> Option<Json.Value>, k: CursorKey, owner: string)
    requires parse(Bytes(KeyText(k))) == Some(KeyJson(k))
    ensures DecodeWith(parse, EncodeCursor(k), owner)
         == if k.gsi1pk == OwnerPk(owner) && |KeyText(k)| <= 768 then Some(k) else None
  {
    hide Json.Print, Base64.Encode, Base64.Decode, Base64.Repad, Bytes, KeyJson, ShapedKey, OwnerPk;
    TokenLength(k);
    Base64.DecodeEncode(Bytes(KeyText(k)));
    ShapeRoundTrip(k);
  }

  lemma {:induction false} CursorRoundTrip(k: CursorKey, owner: string)
    ensures DecodeCursor(EncodeCursor(k), owner)
         == if k.gsi1pk == OwnerPk(owner) && |KeyText(k)| <= 768 then Some(k) else None
  {
    hide Json.Print, Json.Loads, DecodeWith, EncodeCursor, Bytes, Chars, KeyJson, OwnerPk;
    CharsOfBytes(KeyText(k));
    Json.LoadsPrint(KeyJson(k));
    RoundTripWith(Parse, k, owner);
  }

  /** No token, however made and however leniently parsed, reaches another owner's partition. */
  lemma {:induction false} CursorStaysHome(parse: seq<Base64.Byte> -> Option<Json.Value>, token: string, owner: string,
                                           other: string)
    requires DecodeWith(parse, token, owner).Some?
    ensures DecodeWith(parse, token, owner).value.gsi1pk == OwnerPk(owner)
    ensures other != owner ==> DecodeWith(parse, token, other).None?
    ensures 0 < |token| <= MAX_TOKEN_LENGTH
  {
    hide Base64.Decode, Base64.Repad, ShapedKey, OwnerPk;
    OwnersDiffer(owner, other);
  }

  /** A parsed object as a dictionary. */
  function Dict(fields: seq<Json.Field>): map<string, Json.Value> {
    if fields == [] then map[]
    else Dict(fields[..|fields| - 1])[fields[|fields| - 1].key := fields[|fields| - 1].value]
  }

  predicate IsText(v: Json.Value, text: string) {
    v.Obj? && Dict(v.fields) == map["S" := Json.Str(text)]
  }

  predicate IsKeyObject(v: Json.Value, k: CursorKey) {
    && v.Obj? && Dict(v.fields).Keys == {"PK", "SK", "GSI1PK", "GSI1SK"}
    && IsText(Dict(v.fields)["PK"], k.pk) && IsText(Dict(v.fields)["SK"], k.sk)
    && IsText(Dict(v.fields)["GSI1PK"], k.gsi1pk) && IsText(Dict(v.fields)["GSI1SK"], k.gsi1sk)
  }

  lemma {:induction false} DictMeaning(fields: seq<Json.Field>, key: string)
    ensures Dict(fields).Keys == Keys(fields)
    ensures Lookup(fields, key) == if key in Dict(fields) then Some(Dict(fields)[key]) else None
  {
    if fields == [] {
      assert Keys(fields) == {};
    } else {
      var (earlier, last) := (fields[..|fields| - 1], fields[|fields| - 1]);
      DictMeaning(earlier, key);
      assert fields == earlier + [last];
      KeysExtend(earlier, last);
    }
  }

  lemma {:induction false} KeysExtend(fields: seq<Json.Field>, last: Json.Field)
    ensures Keys(fields + [last]) == Keys(fields) + {last.key}
  {
    var all := fields + [last];
    forall key ensures key in Keys(all) <==> key in Keys(fields) + {last.key} {
      if key in Keys(fields) {
        var i :| 0 <= i < |fields| && fields[i].key == key;
        assert all[i].key == key;
      }
      if key == last.key { assert all[|fields|].key == key; }
    }
  }

  lemma {:induction false} TextMeaning(v: Json.Value, text: string)
    ensures AttributeText(Some(v)) == Some(text) <==> IsText(v, text)
  {
    hide Dict, Lookup, Keys;
    if v.Obj? {
      DictMeaning(v.fields, "S");
      if AttributeText(Some(v)) == Some(text) { assert Dict(v.fields) == map["S" := Json.Str(text)]; }
    }
  }

  lemma {:induction false} ShapeMeaning(v: Json.Value, k: CursorKey)
    ensures ShapedKey(v) == Some(k) <==> IsKeyObject(v, k)
  {
    hide Dict, Lookup, Keys, AttributeText, IsText;
    if v.Obj? {
      var d := Dict(v.fields);
      DictMeaning(v.fields, "PK");
      DictMeaning(v.fields, "SK");
      DictMeaning(v.fields, "GSI1PK");
      DictMeaning(v.fields, "GSI1SK");
      if d.Keys == CURSOR_KEYS {
        TextMeaning(d["PK"], k.pk);
        TextMeaning(d["SK"], k.sk);
        TextMeaning(d["GSI1PK"], k.gsi1pk);
        TextMeaning(d["GSI1SK"], k.gsi1sk);
      }
    }
  }

  /** Exactly which tokens are accepted, and as what: 1 to 1024 characters that decode and
      parse to a dictionary of the four keys and no other, each a dictionary of "S" to a
      string and no other, with the caller's partition. */
  lemma {:induction false} AcceptedExactly(parse: seq<Base64.Byte> -> Option<Json.Value>, token: string, owner: string,
                                           k: CursorKey)
    ensures DecodeWith(parse, token, owner) == Some(k) <==>
              && 1 <= |token| <= 1024
              && Base64.Decode(Base64.Repad(token)).Some?
              && parse(Base64.Decode(Base64.Repad(token)).value).Some?
              && IsKeyObject(parse(Base64.Decode(Base64.Repad(token)).value).value, k)
              && k.gsi1pk == "OWNER#" + owner
  {
    hide Base64.Decode, Base64.Repad, ShapedKey, IsKeyObject;
    var bytes := Base64.Decode(Base64.Repad(token));
    if bytes.Some? && parse(bytes.value).Some? {
      var v := parse(bytes.value).value;
      ShapeMeaning(v, k);
      if ShapedKey(v).Some? { ShapeMeaning(v, ShapedKey(v).value); }
    }
  }

  /** A member of the printed object. */
  function Member(name: string, text: string): string {
    "\"" + name + "\":{\"S\":\"" + Json.Escape(text) + "\"}"
  }

  lemma {:induction false} PrintedMember(name: string, text: string)
    requires IsPlain(name)
    ensures Json.PrintField(Json.Field(name, Attribute(text))) == Member(name, text)
  {
    hide Json.Escape, IsPlain, Json.PrintFields;
    EscapePlain(name);
    PlainS();
    EscapePlain("S");
    var f := Json.Field("S", Json.Str(text));
    SingleField(f);
    assert Json.PrintField(f) == "\"S\":\"" + Json.Escape(text) + "\"";
    assert Json.Print(Attribute(text)) == "{" + Json.PrintField(f) + "}";
  }

  /** The printed JSON, character by character up to the escapes. */
  lemma {:induction false} KeyTextIs(k: CursorKey)
    ensures KeyText(k) == "{" + Member("GSI1PK", k.gsi1pk) + "," + Member("GSI1SK", k.gsi1sk) + ","
                          + Member("PK", k.pk) + "," + Member("SK", k.sk) + "}"
  {
    hide Json.PrintField, Json.PrintFields, Json.Escape, IsPlain, Attribute, Json.IsAscii, Member;
    PlainS();
    PrintedMember("GSI1PK", k.gsi1pk);
    PrintedMember("GSI1SK", k.gsi1sk);
    PrintedMember("PK", k.pk);
    PrintedMember("SK", k.sk);
    var (a, b, c, d) := (Json.Field("GSI1PK", Attribute(k.gsi1pk)), Json.Field("GSI1SK", Attribute(k.gsi1sk)),
                         Json.Field("PK", Attribute(k.pk)), Json.Field("SK", Attribute(k.sk)));
    SingleField(d);
    NextField(c, [d]);
    NextField(b, [c] + [d]);
    NextField(a, [b] + ([c] + [d]));
    assert KeyJson(k) == Json.Obj([a] + ([b] + ([c] + [d])));
  }

  lemma {:induction false} NextField(first: Json.Field, more: seq<Json.Field>)
    requires more != []
    ensures Json.PrintFields([first] + more) == Json.PrintField(first) + "," + Json.PrintFields(more)
  {
    hide Json.PrintField;
    assert ([first] + more)[1..] == more;
  }

  // ---- how long a minted cursor is --------------------------------------------------------

  /** Characters that JSON prints as themselves. */
  predicate IsPlain(s: string) {
    forall i :: 0 <= i < |s| ==> 0x20 <= s[i] as int <= 0x7E && s[i] != '\"' && s[i] != '\\'
  }

  lemma {:induction false} EscapePlain(s: string)
    requires IsPlain(s)
    ensures Json.Escape(s) == s
  {
    if s != "" {
      assert s == [s[0]] + s[1..];
      EscapePlain(s[1..]);
    }
  }

  lemma {:induction false} EscapeConcat(a: string, b: string)
    ensures Json.Escape(a + b) == Json.Escape(a) + Json.Escape(b)
  {
    hide Json.EscapeChar;
    if a == "" {
      assert a + b == b;
    } else {
      assert (a + b)[1..] == a[1..] + b;
      EscapeConcat(a[1..], b);
    }
  }

  lemma {:induction false} QuoteLength(s: string)
    ensures |Json.Quote(s)| == |Json.Escape(s)| + 2
    ensures IsPlain(s) ==> |Json.Quote(s)| == |s| + 2
  {
    hide Json.Escape;
    if IsPlain(s) { EscapePlain(s); }
  }

  lemma {:induction false} FieldLength(f: Json.Field)
    requires IsPlain(f.key)
    ensures |Json.PrintField(f)| == |f.key| + 3 + |Json.Print(f.value)|
  {
    hide Json.Quote, Json.Print, IsPlain;
    QuoteLength(f.key);
  }

  lemma {:induction false} SingleField(f: Json.Field)
    ensures Json.PrintFields([f]) == Json.PrintField(f)
  {
    hide Json.PrintField;
  }

  lemma {:induction false} AttributeLength(text: string)
    ensures |Json.Print(Attribute(text))| == 8 + |Json.Escape(text)|
  {
    hide Json.PrintField, Json.Quote, Json.PrintFields, Json.Escape, IsPlain;
    var f := Json.Field("S", Json.Str(text));
    SingleField(f);
    PlainS();
    FieldLength(f);
    QuoteLength(text);
  }

  lemma {:induction false} PlainS()
    ensures IsPlain("S") && IsPlain("PK") && IsPlain("SK") && IsPlain("GSI1PK") && IsPlain("GSI1SK")
  {
  }

  lemma {:induction false} FieldsLength(first: Json.Field, more: seq<Json.Field>)
    requires more != []
    ensures |Json.PrintFields([first] + more)| == |Json.PrintField(first)| + 1 + |Json.PrintFields(more)|
  {
    hide Json.PrintField;
    assert ([first] + more)[1..] == more;
  }

  lemma {:induction false} KeyTextLength(k: CursorKey)
    ensures |KeyText(k)|
         == 65 + |Json.Escape(k.gsi1pk)| + |Json.Escape(k.gsi1sk)| + |Json.Escape(k.pk)| + |Json.Escape(k.sk)|
  {
    hide Json.PrintField, Json.PrintFields, Json.Escape, IsPlain, Attribute, Json.IsAscii;
    var (a, b, c, d) := (Json.Field("GSI1PK", Attribute(k.gsi1pk)), Json.Field("GSI1SK", Attribute(k.gsi1sk)),
                         Json.Field("PK", Attribute(k.pk)), Json.Field("SK", Attribute(k.sk)));
    PlainS();
    FieldLength(a);
    FieldLength(b);
    FieldLength(c);
    FieldLength(d);
    AttributeLength(k.gsi1pk);
    AttributeLength(k.gsi1sk);
    AttributeLength(k.pk);
    AttributeLength(k.sk);
    SingleField(d);
    FieldsLength(c, [d]);
    FieldsLength(b, [c] + [d]);
    FieldsLength(a, [b] + ([c] + [d]));
    assert KeyJson(k) == Json.Obj([a] + ([b] + ([c] + [d])));
  }

  lemma {:induction false} PlainPieces(p: Project)
    requires IsValidProjectId(p.projectId) && IsInstant(p.createdAt)
    ensures IsPlain("OWNER#") && IsPlain(ProjectPk(p.projectId)) && IsPlain("META") && IsPlain(SortKey(p))
    ensures |ProjectPk(p.projectId)| == 44 && |SortKey(p)| == 70
  {
    hide Iso;
    IsoIsPlain(p.createdAt);
    IsoRoundTrip(p.createdAt);
    var id := p.projectId;
    assert IsPlain(id) by {
      assert forall i :: 0 <= i < 4 ==> id[i] == id[..4][i];
    }
    assert SortKey(p) == "PROJECT#" + Iso(p.createdAt) + "#" + id;
  }

  lemma {:induction false} Pad2IsPlain(n: nat)
    ensures IsPlain(Pad2(n))
  {
  }

  lemma {:induction false} IsoIsPlain(t: Instant)
    ensures IsPlain(Iso(t))
  {
    hide Pad2;
    Pad2IsPlain(t.year / 100);
    Pad2IsPlain(t.year % 100);
    Pad2IsPlain(t.month);
    Pad2IsPlain(t.day);
    Pad2IsPlain(t.hour);
    Pad2IsPlain(t.minute);
    Pad2IsPlain(t.second);
  }

  lemma {:induction false} MintedLength(p: Project)
    requires IsValidProjectId(p.projectId) && IsInstant(p.createdAt)
    ensures |KeyText(KeyOfProject(p))| == 189 + |Json.Escape(p.ownerId)|
  {
    hide Json.Escape, IsPlain, SortKey, ProjectPk, KeyText;
    PlainPieces(p);
    EscapePlain("OWNER#");
    EscapePlain(ProjectPk(p.projectId));
    EscapePlain("META");
    EscapePlain(SortKey(p));
    EscapeConcat("OWNER#", p.ownerId);
    KeyTextLength(KeyOfProject(p));
  }

  /** The cursor of a stored project works for its owner exactly when the owner id takes
      at most 579 characters of JSON, and never for anyone else. */
  lemma {:induction false} MintedRoundTrip(p: Project, owner: string)
    requires IsValidProjectId(p.projectId) && IsInstant(p.createdAt)
    ensures DecodeCursor(EncodeCursor(KeyOfProject(p)), owner)
         == if p.ownerId == owner && |Json.Escape(owner)| <= 579 then Some(KeyOfProject(p)) else None
  {
    hide DecodeCursor, EncodeCursor, KeyText, Json.Escape, OwnerPk, SortKey, ProjectPk;
    CursorRoundTrip(KeyOfProject(p), owner);
    MintedLength(p);
    OwnersDiffer(p.ownerId, owner);
  }

  /** In particular for every owner id of at most 579 unescaped ASCII characters. */
  lemma {:induction false} PlainOwnerRoundTrip(p: Project)
    requires IsValidProjectId(p.projectId) && IsInstant(p.createdAt) && IsPlain(p.ownerId)
    ensures DecodeCursor(EncodeCursor(KeyOfProject(p)), p.ownerId) == Some(KeyOfProject(p)) <==> |p.ownerId| <= 579
  {
    hide DecodeCursor, EncodeCursor, KeyText, Json.Escape, OwnerPk, SortKey, ProjectPk;
    MintedRoundTrip(p, p.ownerId);
    EscapePlain(p.ownerId);
  }

  /** Many characters take six characters of JSON, such as an accented letter in a request
      header: 97 of them are already too many. */
  lemma {:induction false} EscapedOwnerFails(p: Project, c: char, n: nat)
    requires IsValidProjectId(p.projectId) && IsInstant(p.createdAt)
    requires |Json.EscapeChar(c)| == 6 && p.ownerId == seq(n, _ => c)
    ensures DecodeCursor(EncodeCursor(KeyOfProject(p)), p.ownerId) == Some(KeyOfProject(p)) <==> n <= 96
  {
    hide DecodeCursor, EncodeCursor, KeyText, Json.Escape, Json.EscapeChar, OwnerPk, SortKey, ProjectPk;
    MintedRoundTrip(p, p.ownerId);
    EscapeRepeated(c, n);
  }

  lemma {:induction false} EscapeRepeated(c: char, n: nat)
    ensures |Json.Escape(seq(n, _ => c))| == |Json.EscapeChar(c)| * n
  {
    hide Json.EscapeChar;
    if n > 0 {
      EscapeRepeated(c, n - 1);
      assert seq(n, _ => c)[1..] == seq(n - 1, _ => c);
    }
  }

  lemma {:induction false} AccentTakesSix()
    ensures |Json.EscapeChar('\U{E9}')| == 6
  {
  }
}
