/** Project records and identifiers (src/projects_api/domain/models.py). */
module Domain {
  import opened Text
  import opened Regex
  import opened Names
  import opened Clock

  datatype ProjectType = Agent | Mcp | Web
  datatype Status = CREATED | PROVISIONING | READY | FAILED

  function TypeValue(t: ProjectType): string {
    match t case Agent => "agent" case Mcp => "mcp" case Web => "web"
  }

  function ParseType(s: string): Option<ProjectType> {
    if s == "agent" then Some(Agent) else if s == "mcp" then Some(Mcp)
    else if s == "web" then Some(Web) else None
  }

  function StatusValue(s: Status): string {
    match s
    case CREATED => "CREATED" case PROVISIONING => "PROVISIONING"
    case READY => "READY" case FAILED => "FAILED"
  }

  function ParseStatus(s: string): Option<Status> {
    if s == "CREATED" then Some(CREATED) else if s == "PROVISIONING" then Some(PROVISIONING)
    else if s == "READY" then Some(READY) else if s == "FAILED" then Some(FAILED) else None
  }

  /** The stored texts, letter by letter; no other text is read back. */
  lemma {:induction false} EnumTexts(text: string)
    ensures TypeValue(Agent) == "agent" && TypeValue(Mcp) == "mcp" && TypeValue(Web) == "web"
    ensures StatusValue(CREATED) == "CREATED" && StatusValue(PROVISIONING) == "PROVISIONING"
    ensures StatusValue(READY) == "READY" && StatusValue(FAILED) == "FAILED"
    ensures ParseType(text).Some? <==> text in ["agent", "mcp", "web"]
    ensures ParseStatus(text).Some? <==> text in ["CREATED", "PROVISIONING", "READY", "FAILED"]
  {
    if text in ["agent", "mcp", "web"] { assert text == "agent" || text == "mcp" || text == "web"; }
    var types := ["agent", "mcp", "web"];
    assert types[0] == "agent" && types[1] == "mcp" && types[2] == "web";
    var statuses := ["CREATED", "PROVISIONING", "READY", "FAILED"];
    assert statuses[0] == "CREATED" && statuses[1] == "PROVISIONING" && statuses[2] == "READY"
           && statuses[3] == "FAILED";
  }

  lemma {:induction false} EnumsRoundTrip(t: ProjectType, s: Status)
    ensures ParseType(TypeValue(t)) == Some(t) && ParseStatus(StatusValue(s)) == Some(s)
  {
  }

  datatype Project = Project(
    projectId: string,
    name: string,
    kind: ProjectType,
    status: Status,
    ownerId: string,
    createdAt: Instant,
    updatedAt: Instant)

  const PROJECT_ID_PREFIX := "prj_"

  predicate IsHexDigit(c: char) {
    '0' <= c <= '9' || 'a' <= c <= 'f'
  }

  predicate IsValidProjectId(id: string) {
    && |id| == 36 && id[..4] == PROJECT_ID_PREFIX
    && forall i :: 4 <= i < 36 ==> IsHexDigit(id[i])
  }

  /** `[0-9a-f]` */
  ghost function HexDigits(): set<char> {
    {'0', '1', '2', '3', '4', '5', '6', '7', '8', '9', 'a', 'b', 'c', 'd', 'e', 'f'}
  }

  lemma {:induction false} HexDigitsAre(c: char)
    ensures IsHexDigit(c) <==> c in HexDigits()
  {
  }

  /** `prj_[0-9a-f]{32}` */
  ghost function ProjectIdPattern(): Pattern {
    Literally("prj_", Times(Class(HexDigits()), 32))
  }

  /** The written-out id shape is the language of PROJECT_ID_PATTERN. */
  lemma {:induction false} ProjectIdPatternLanguage(s: string)
    ensures FullMatch(ProjectIdPattern(), s) <==> IsValidProjectId(s)
  {
    hide FullMatch, Literally, IsHexDigit, HexDigits;
    var hex := Times(Class(HexDigits()), 32);
    LiterallyMatches("prj_", hex, s);
    forall c ensures IsHexDigit(c) <==> c in HexDigits() { HexDigitsAre(c); }
    if |s| >= 4 {
      RepeatsOfClass(HexDigits(), 32, s[4..]);
      assert forall i :: 4 <= i < |s| ==> s[i] == s[4..][i - 4];
    }
  }

  /** A project as `Project.new` makes it from a validated name. */
  predicate IsNew(p: Project) {
    && IsValidProjectId(p.projectId)
    && ValidateName(p.name) == Accepted(p.name)
    && p.status == CREATED
    && IsInstant(p.createdAt) && p.updatedAt == p.createdAt
  }

  lemma {:induction false} GeneratedIdIsValid(hex: string)
    requires |hex| == 32 && forall i :: 0 <= i < 32 ==> IsHexDigit(hex[i])
    ensures IsValidProjectId(PROJECT_ID_PREFIX + hex)
  {
    hide IsHexDigit;
    assert forall i :: 4 <= i < 36 ==> (PROJECT_ID_PREFIX + hex)[i] == hex[i - 4];
  }

  function NewProject(name: string, kind: ProjectType, owner: string, hex: string, now: Instant): (p: Project)
    requires |hex| == 32 && (forall i :: 0 <= i < 32 ==> IsHexDigit(hex[i])) && IsInstant(now)
    requires ValidateName(name).Accepted?
    ensures IsNew(p) && NameKey(p.name) == NameKey(name)
    ensures p == Project("prj_" + hex, Join(Words(name), " "), kind, CREATED, owner, now, now)
  {
    ValidateNameMeaning(name);
    GeneratedIdIsValid(hex);
    Project(PROJECT_ID_PREFIX + hex, ValidateName(name).name, kind, CREATED, owner, now, now)
  }

  /** Different digits from uuid4 give different ids, whatever else is asked for. */
  lemma {:induction false} FreshIdsDiffer(a: string, b: string, kind: ProjectType, owner: string, hex: string,
                                          hex': string, now: Instant)
    requires ValidateName(a).Accepted? && ValidateName(b).Accepted? && IsInstant(now) && |hex| == |hex'| == 32
    requires forall i :: 0 <= i < 32 ==> IsHexDigit(hex[i]) && IsHexDigit(hex'[i])
    ensures NewProject(a, kind, owner, hex, now).projectId == NewProject(b, kind, owner, hex', now).projectId
            <==> hex == hex'
  {
    hide NewProject, ValidateName, IsHexDigit, IsInstant;
    PrefixedEqual("prj_", hex, hex');
  }
}
