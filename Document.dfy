/**
 * The Document domain object: a document's fixed attributes, the requesting
 * user's role on it, and the roles campaigns and classes hold on it; the
 * PrivacyState and Role enums with their parse, print and role comparison.
 *
 * A thrown IllegalArgumentException or NullPointerException is a Failure; a
 * Java null is None.
 */
module Documents {
  import opened Wrappers
  import opened JavaText
  import opened Json

  // ---------------------------------------------------------------------------
  // PrivacyState and Role

  datatype PrivacyState = Private | Shared

  datatype Role = Reader | Writer | Owner {
    /**
     * Role.compare: 1 when the other role outranks this one, 0 when it is the
     * same role, -1 otherwise (a lower role or null).
     */
    function Compare(role: Option<Role>): (c: int)
      ensures c == 1 <==> Rank(role) > Rank(Some(this))
      ensures c == 0 <==> role == Some(this)
      ensures c == -1 <==> Rank(role) < Rank(Some(this))
    {
      match this
      case Owner =>
        if role == Some(Owner) then 0 else -1
      case Writer =>
        if role == Some(Owner) then 1
        else if role == Some(Writer) then 0
        else -1
      case Reader =>
        if role == Some(Owner) || role == Some(Writer) then 1
        else if role == Some(Reader) then 0
        else -1
    }
  }

  /** Enum.valueOf found no constant of that name. */
  datatype IllegalArgument = NoSuchConstant

  /** The constant's name(). */
  function PrivacyStateName(p: PrivacyState): string {
    match p
    case Private => "PRIVATE"
    case Shared => "SHARED"
  }

  function RoleName(r: Role): string {
    match r
    case Reader => "READER"
    case Writer => "WRITER"
    case Owner => "OWNER"
  }

  /** toString(): the name in lower case. */
  function PrivacyStateToString(p: PrivacyState): (s: string)
    ensures Upper(s) == PrivacyStateName(p)
    ensures forall i :: 0 <= i < |s| ==> !('A' <= s[i] <= 'Z')
  {
    UpperOfLower(PrivacyStateName(p));
    UpperOfCapitals(PrivacyStateName(p));
    Lower(PrivacyStateName(p))
  }

  function RoleToString(x: Role): (s: string)
    ensures Upper(s) == RoleName(x)
    ensures forall i :: 0 <= i < |s| ==> !('A' <= s[i] <= 'Z')
  {
    UpperOfLower(RoleName(x));
    UpperOfCapitals(RoleName(x));
    Lower(RoleName(x))
  }

  /** getValue: valueOf of the upper-cased text; an unknown name throws. */
  function PrivacyStateGetValue(s: string): (r: Result<PrivacyState, IllegalArgument>)
    ensures r.Success? ==> PrivacyStateName(r.value) == Upper(s)
    ensures r.Failure? ==> forall p :: PrivacyStateName(p) != Upper(s)
  {
    var name := Upper(s);
    if name == "PRIVATE" then Success(Private)
    else if name == "SHARED" then Success(Shared)
    else Failure(NoSuchConstant)
  }

  function RoleGetValue(s: string): (r: Result<Role, IllegalArgument>)
    ensures r.Success? ==> RoleName(r.value) == Upper(s)
    ensures r.Failure? ==> forall x :: RoleName(x) != Upper(s)
  {
    var name := Upper(s);
    if name == "READER" then Success(Reader)
    else if name == "WRITER" then Success(Writer)
    else if name == "OWNER" then Success(Owner)
    else Failure(NoSuchConstant)
  }

  /** Printing and parsing again gives back the privacy state. */
  lemma PrivacyStateRoundTrip(p: PrivacyState)
    ensures PrivacyStateGetValue(PrivacyStateToString(p)) == Success(p)
  {
  }

  /** Printing and parsing again gives back the role. */
  lemma RoleRoundTrip(x: Role)
    ensures RoleGetValue(RoleToString(x)) == Success(x)
  {
  }

  /** Parsing ignores case: the text, its lower-case and its upper-case form parse alike. */
  lemma GetValueIgnoresCase(s: string)
    ensures PrivacyStateGetValue(Lower(s)) == PrivacyStateGetValue(s)
    ensures PrivacyStateGetValue(Upper(s)) == PrivacyStateGetValue(s)
    ensures RoleGetValue(Lower(s)) == RoleGetValue(s)
    ensures RoleGetValue(Upper(s)) == RoleGetValue(s)
  {
    UpperOfLower(s);
    UpperIdempotent(s);
  }

  /** The documented order OWNER > WRITER > READER > null, as a rank. */
  function Rank(r: Option<Role>): nat {
    match r
    case None => 0
    case Some(Reader) => 1
    case Some(Writer) => 2
    case Some(Owner) => 3
  }

  /** Swapping the two roles negates the comparison; every role outranks null. */
  lemma CompareAntisymmetric(a: Role, b: Role)
    ensures a.Compare(Some(b)) == -b.Compare(Some(a))
    ensures a.Compare(None) == -1
  {
  }

  /** The comparison is transitive. */
  lemma CompareTransitive(a: Role, b: Role, c: Role)
    requires a.Compare(Some(b)) == 1 && b.Compare(Some(c)) == 1
    ensures a.Compare(Some(c)) == 1
  {
  }

  // ---------------------------------------------------------------------------
  // Document

  /** Why a constructor throws IllegalArgumentException, one per message. */
  datatype DocumentError =
    | InvalidId
    | InvalidName
    | NullPrivacyState
    | NullLastModified
    | NullCreationDate
    | NegativeSize
    | NullInfo
    | MissingName
    | MissingPrivacyState
    | UnknownPrivacyState
    | MissingLastModified
    | MissingCreationDate
    | MissingSize
    | MissingCreator
    | MissingCampaignRoles
    | MissingClassRoles
    | UnknownRole

  /** Which argument of a role update was null. */
  datatype NullPointer = NullKey | NullRole

  /** The first check the field constructor fails, in the order it makes them. */
  function FieldError(documentId: Option<string>, name: Option<string>, privacyState: Option<PrivacyState>,
                      lastModified: Option<int>, creationDate: Option<int>, size: int): (e: Option<DocumentError>)
    ensures e.None? <==>
              !IsEmptyOrWhitespaceOnly(documentId) && !IsEmptyOrWhitespaceOnly(name) &&
              privacyState.Some? && lastModified.Some? && creationDate.Some? && size >= 0
    ensures e == Some(InvalidId) <==> IsEmptyOrWhitespaceOnly(documentId)
    ensures e == Some(NegativeSize) <==>
              !IsEmptyOrWhitespaceOnly(documentId) && !IsEmptyOrWhitespaceOnly(name) &&
              privacyState.Some? && lastModified.Some? && creationDate.Some? && size < 0
  {
    if IsEmptyOrWhitespaceOnly(documentId) then Some(InvalidId)
    else if IsEmptyOrWhitespaceOnly(name) then Some(InvalidName)
    else if privacyState.None? then Some(NullPrivacyState)
    else if lastModified.None? then Some(NullLastModified)
    else if creationDate.None? then Some(NullCreationDate)
    else if size < 0 then Some(NegativeSize)
    else None
  }

  /** A role value of the JSON role objects: a string naming a role. */
  function RoleValue(v: JsonValue): Option<Role> {
    if v.JString? && RoleGetValue(v.s).Success? then Some(RoleGetValue(v.s).value) else None
  }

  /** The error reading one entry of a role object throws: not a string, or not a role. */
  function RoleEntryError(v: JsonValue, missing: DocumentError): DocumentError {
    if v.JString? then UnknownRole else missing
  }

  /** The optional user_role: null when absent or not a known role. */
  function UserRoleOf(info: JsonObject): (role: Option<Role>)
    ensures role.Some? <==> GetString(info, "user_role").Some? && RoleGetValue(GetString(info, "user_role").value).Success?
    ensures role.Some? ==> RoleName(role.value) == Upper(GetString(info, "user_role").value)
  {
    match GetString(info, "user_role")
    case None => None
    case Some(s) => if RoleGetValue(s).Success? then Some(RoleGetValue(s).value) else None
  }

  /**
   * The first check the JSON constructor fails before it reads the role
   * entries, in its order: the id, the object, each required scalar, and the
   * presence of the campaign role object.
   */
  function JsonHeaderError(documentId: Option<string>, info: Option<JsonObject>): (e: Option<DocumentError>)
    ensures e.None? <==>
              && !IsEmptyOrWhitespaceOnly(documentId) && info.Some?
              && GetString(info.value, "name").Some?
              && GetString(info.value, "privacy_state").Some?
              && PrivacyStateGetValue(GetString(info.value, "privacy_state").value).Success?
              && GetString(info.value, "last_modified").Some?
              && GetString(info.value, "creation_date").Some?
              && GetInt(info.value, "size").Some?
              && GetString(info.value, "creator").Some?
              && GetObject(info.value, "campaign_role").Some?
    ensures e == Some(InvalidId) <==> IsEmptyOrWhitespaceOnly(documentId)
  {
    if IsEmptyOrWhitespaceOnly(documentId) then Some(InvalidId)
    else if info.None? then Some(NullInfo)
    else
      var o := info.value;
      if GetString(o, "name").None? then Some(MissingName)
      else if GetString(o, "privacy_state").None? then Some(MissingPrivacyState)
      else if PrivacyStateGetValue(GetString(o, "privacy_state").value).Failure? then Some(UnknownPrivacyState)
      else if GetString(o, "last_modified").None? then Some(MissingLastModified)
      else if GetString(o, "creation_date").None? then Some(MissingCreationDate)
      else if GetInt(o, "size").None? then Some(MissingSize)
      else if GetString(o, "creator").None? then Some(MissingCreator)
      else if GetObject(o, "campaign_role").None? then Some(MissingCampaignRoles)
      else None
  }

  /**
   * Reads a role object key by key, in the object's own iteration order,
   * into a map; the first entry that is not a role name throws.
   */
  method ParseRoleObject(roles: JsonObject, missing: DocumentError) returns (r: Result<map<string, Role>, DocumentError>)
    ensures r.Success? <==> forall k :: k in roles ==> RoleValue(roles[k]).Some?
    ensures r.Success? ==> r.value.Keys == roles.Keys
    ensures r.Success? ==> forall k :: k in roles ==> Some(r.value[k]) == RoleValue(roles[k])
    ensures r.Failure? ==> exists k :: k in roles && RoleValue(roles[k]).None? && r.error == RoleEntryError(roles[k], missing)
  {
    var parsed: map<string, Role> := map[];
    var keys := roles.Keys;
    while keys != {}
      invariant keys <= roles.Keys
      invariant parsed.Keys == roles.Keys - keys
      invariant forall k :: k in parsed ==> Some(parsed[k]) == RoleValue(roles[k])
      decreases |keys|
    {
      var key :| key in keys;
      var value := roles[key];
      if !value.JString? {
        return Failure(missing);
      }
      var role := RoleGetValue(value.s);
      if role.Failure? {
        return Failure(UnknownRole);
      }
      parsed := parsed[key := role.value];
      keys := keys - {key};
    }
    return Success(parsed);
  }

  class Document {
    const documentId: string
    const name: string
    const description: Option<string>
    const privacyState: PrivacyState
    const lastModified: Option<int>
    const creationDate: Option<int>
    const size: int
    const creator: Option<string>
    var userRole: Option<Role>
    var campaignAndRole: map<string, Role>
    var classAndRole: map<string, Role>

    /** Stores the given values; both public constructors end here. */
    constructor Init(documentId: string, name: string, description: Option<string>, privacyState: PrivacyState,
                     lastModified: Option<int>, creationDate: Option<int>, size: int, creator: Option<string>,
                     userRole: Option<Role>, campaignAndRole: map<string, Role>, classAndRole: map<string, Role>)
      ensures this.documentId == documentId && this.name == name && this.description == description
      ensures this.privacyState == privacyState && this.lastModified == lastModified
      ensures this.creationDate == creationDate && this.size == size && this.creator == creator
      ensures this.userRole == userRole
      ensures this.campaignAndRole == campaignAndRole && this.classAndRole == classAndRole
    {
      this.documentId := documentId;
      this.name := name;
      this.description := description;
      this.privacyState := privacyState;
      this.lastModified := lastModified;
      this.creationDate := creationDate;
      this.size := size;
      this.creator := creator;
      this.userRole := userRole;
      this.campaignAndRole := campaignAndRole;
      this.classAndRole := classAndRole;
    }

    /**
     * The field constructor: rejects an empty or whitespace-only id or name, a
     * null privacy state, null dates and a negative size, in that order;
     * otherwise stores the fields as given, with no user role and both role
     * maps empty.
     */
    static method New(documentId: Option<string>, name: Option<string>, description: Option<string>,
                      privacyState: Option<PrivacyState>, lastModified: Option<int>, creationDate: Option<int>,
                      size: int, creator: Option<string>)
      returns (r: Result<Document, DocumentError>)
      ensures var e := FieldError(documentId, name, privacyState, lastModified, creationDate, size);
              e.Some? ==> r == Failure(e.value)
      ensures r.Success? <==> FieldError(documentId, name, privacyState, lastModified, creationDate, size).None?
      ensures r.Success? ==>
                && fresh(r.value)
                && r.value.documentId == documentId.value && r.value.name == name.value
                && r.value.description == description && r.value.privacyState == privacyState.value
                && r.value.lastModified == lastModified && r.value.creationDate == creationDate
                && r.value.size == size && r.value.creator == creator
                && r.value.userRole.None?
                && r.value.campaignAndRole == map[] && r.value.classAndRole == map[]
    {
      var e := FieldError(documentId, name, privacyState, lastModified, creationDate, size);
      if e.Some? {
        return Failure(e.value);
      }
      var d := new Document.Init(documentId.value, name.value, description, privacyState.value, lastModified,
                                 creationDate, size, creator, None, map[], map[]);
      return Success(d);
    }

    /**
     * The JSON constructor: the id must not be empty or whitespace-only, the
     * object must be present, and name, privacy_state, last_modified,
     * creation_date, size, creator, campaign_role and class_role are
     * required; description and user_role are optional, and a user_role that
     * names no role is ignored. Every campaign and class role must name a
     * role. The dates are decoded by StringUtils.decodeDateTime, given as
     * `decodeDateTime`, which yields null on text it cannot decode.
     */
    static method FromJson(documentId: Option<string>, info: Option<JsonObject>, decodeDateTime: string -> Option<int>)
      returns (r: Result<Document, DocumentError>)
      ensures var e := JsonHeaderError(documentId, info);
              e.Some? ==> r == Failure(e.value)
      ensures JsonHeaderError(documentId, info).None? ==>
                var campaigns := GetObject(info.value, "campaign_role").value;
                && ((exists k :: k in campaigns && RoleValue(campaigns[k]).None?) ==>
                      exists k :: k in campaigns && RoleValue(campaigns[k]).None? &&
                                  r == Failure(RoleEntryError(campaigns[k], MissingCampaignRoles)))
                && ((forall k :: k in campaigns ==> RoleValue(campaigns[k]).Some?) && GetObject(info.value, "class_role").None? ==>
                      r == Failure(MissingClassRoles))
      ensures JsonHeaderError(documentId, info).None? && GetObject(info.value, "class_role").Some? ==>
                var campaigns := GetObject(info.value, "campaign_role").value;
                var classes := GetObject(info.value, "class_role").value;
                (forall k :: k in campaigns ==> RoleValue(campaigns[k]).Some?) &&
                (exists k :: k in classes && RoleValue(classes[k]).None?) ==>
                  exists k :: k in classes && RoleValue(classes[k]).None? &&
                              r == Failure(RoleEntryError(classes[k], MissingClassRoles))
      ensures r.Success? ==>
                && JsonHeaderError(documentId, info).None?
                && GetObject(info.value, "class_role").Some?
                && fresh(r.value)
                && r.value.documentId == documentId.value
                && r.value.name == GetString(info.value, "name").value
                && r.value.description == GetString(info.value, "description")
                && PrivacyStateGetValue(GetString(info.value, "privacy_state").value) == Success(r.value.privacyState)
                && r.value.lastModified == decodeDateTime(GetString(info.value, "last_modified").value)
                && r.value.creationDate == decodeDateTime(GetString(info.value, "creation_date").value)
                && r.value.size == GetInt(info.value, "size").value
                && r.value.creator == GetString(info.value, "creator")
                && r.value.userRole == UserRoleOf(info.value)
                && r.value.campaignAndRole.Keys == GetObject(info.value, "campaign_role").value.Keys
                && (forall k :: k in r.value.campaignAndRole ==>
                      Some(r.value.campaignAndRole[k]) == RoleValue(GetObject(info.value, "campaign_role").value[k]))
                && r.value.classAndRole.Keys == GetObject(info.value, "class_role").value.Keys
                && (forall k :: k in r.value.classAndRole ==>
                      Some(r.value.classAndRole[k]) == RoleValue(GetObject(info.value, "class_role").value[k]))
      ensures JsonHeaderError(documentId, info).None? && GetObject(info.value, "class_role").Some? ==>
                (r.Success? <==>
                   (forall k :: k in GetObject(info.value, "campaign_role").value ==>
                      RoleValue(GetObject(info.value, "campaign_role").value[k]).Some?) &&
                   (forall k :: k in GetObject(info.value, "class_role").value ==>
                      RoleValue(GetObject(info.value, "class_role").value[k]).Some?))
    {
      var e := JsonHeaderError(documentId, info);
      if e.Some? {
        return Failure(e.value);
      }
      var o := info.value;
      var name := GetString(o, "name").value;
      var description := GetString(o, "description");
      var privacyState := PrivacyStateGetValue(GetString(o, "privacy_state").value).value;
      var lastModified := decodeDateTime(GetString(o, "last_modified").value);
      var creationDate := decodeDateTime(GetString(o, "creation_date").value);
      var size := GetInt(o, "size").value;
      var creator := GetString(o, "creator");
      var campaigns := ParseRoleObject(GetObject(o, "campaign_role").value, MissingCampaignRoles);
      if campaigns.Failure? {
        return Failure(campaigns.error);
      }
      var classObject := GetObject(o, "class_role");
      if classObject.None? {
        return Failure(MissingClassRoles);
      }
      var classes := ParseRoleObject(classObject.value, MissingClassRoles);
      if classes.Failure? {
        return Failure(classes.error);
      }
      var d := new Document.Init(documentId.value, name, description, privacyState, lastModified, creationDate,
                                 size, creator, UserRoleOf(o), campaigns.value, classes.value);
      return Success(d);
    }

    /** setUserRole: rejects null; otherwise sets the user's role and nothing else. */
    method SetUserRole(role: Option<Role>) returns (r: Result<(), NullPointer>)
      modifies this
      ensures role.None? ==> r == Failure(NullRole) && userRole == old(userRole)
      ensures role.Some? ==> r.Success? && userRole == role
      ensures campaignAndRole == old(campaignAndRole) && classAndRole == old(classAndRole)
    {
      if role.None? {
        return Failure(NullRole);
      }
      userRole := role;
      return Success(());
    }

    /**
     * addCampaignRole: rejects a null campaign id, then a null role;
     * otherwise maps the campaign to the role and returns the role it had
     * before, or null.
     */
    method AddCampaignRole(campaignId: Option<string>, role: Option<Role>) returns (r: Result<Option<Role>, NullPointer>)
      modifies this
      ensures campaignId.None? ==> r == Failure(NullKey)
      ensures campaignId.Some? && role.None? ==> r == Failure(NullRole)
      ensures r.Failure? ==> campaignAndRole == old(campaignAndRole)
      ensures r.Success? ==>
                && campaignId.Some? && role.Some?
                && campaignAndRole == old(campaignAndRole)[campaignId.value := role.value]
                && r.value == (if campaignId.value in old(campaignAndRole) then Some(old(campaignAndRole)[campaignId.value]) else None)
      ensures classAndRole == old(classAndRole) && userRole == old(userRole)
    {
      if campaignId.None? {
        return Failure(NullKey);
      } else if role.None? {
        return Failure(NullRole);
      }
      var previous := if campaignId.value in campaignAndRole then Some(campaignAndRole[campaignId.value]) else None;
      campaignAndRole := campaignAndRole[campaignId.value := role.value];
      return Success(previous);
    }

    /**
     * addClassRole: rejects a null class id, then a null role; otherwise maps
     * the class to the role and returns the role it had before, or null.
     */
    method AddClassRole(classId: Option<string>, role: Option<Role>) returns (r: Result<Option<Role>, NullPointer>)
      modifies this
      ensures classId.None? ==> r == Failure(NullKey)
      ensures classId.Some? && role.None? ==> r == Failure(NullRole)
      ensures r.Failure? ==> classAndRole == old(classAndRole)
      ensures r.Success? ==>
                && classId.Some? && role.Some?
                && classAndRole == old(classAndRole)[classId.value := role.value]
                && r.value == (if classId.value in old(classAndRole) then Some(old(classAndRole)[classId.value]) else None)
      ensures campaignAndRole == old(campaignAndRole) && userRole == old(userRole)
    {
      if classId.None? {
        return Failure(NullKey);
      } else if role.None? {
        return Failure(NullRole);
      }
      var previous := if classId.value in classAndRole then Some(classAndRole[classId.value]) else None;
      classAndRole := classAndRole[classId.value := role.value];
      return Success(previous);
    }

    /** equals: the same object, or another document with the same id. */
    predicate Equals(other: Document?)
      ensures Equals(other) <==> other != null && documentId == other.documentId
    {
      other != null && (this == other || documentId == other.documentId)
    }

    /** hashCode: 31 * 1 + the id's String.hashCode, in 32-bit arithmetic. */
    function HashCode(): (h: int)
      ensures INT_MIN <= h <= INT_MAX
    {
      Wrap32(31 * 1 + JavaText.HashCode(documentId))
    }
  }

  /** equals is an equivalence on documents and depends on the id alone. */
  lemma EqualsByIdOnly(a: Document, b: Document, c: Document)
    ensures a.Equals(a)
    ensures a.Equals(b) <==> a.documentId == b.documentId
    ensures a.Equals(b) ==> b.Equals(a)
    ensures a.Equals(b) && b.Equals(c) ==> a.Equals(c)
    ensures !a.Equals(null)
  {
  }

  /** Equal documents have equal hash codes. */
  lemma EqualDocumentsHashAlike(a: Document, b: Document)
    requires a.Equals(b)
    ensures a.HashCode() == b.HashCode()
  {
  }

  /**
   * The JSON constructor makes no check of the size or of the name's
   * content: it accepts a negative size and an empty name, both of which the
   * field constructor rejects.
   */
  lemma JsonAcceptsWhatFieldsReject(info: JsonObject)
    requires info == map["name" := JString(""), "privacy_state" := JString("shared"),
                         "last_modified" := JString("t"), "creation_date" := JString("t"),
                         "size" := JInt(-1), "creator" := JString("c"),
                         "campaign_role" := JObject(map[]), "class_role" := JObject(map[])]
    ensures JsonHeaderError(Some("d"), Some(info)).None?
    ensures FieldError(Some("d"), Some(""), Some(Shared), Some(0), Some(0), -1) == Some(InvalidName)
    ensures FieldError(Some("d"), Some("n"), Some(Shared), Some(0), Some(0), -1) == Some(NegativeSize)
  {
    SharedParses();
    assert GetString(info, "privacy_state").value == "shared";
    NotBlank();
  }

  lemma NotBlank()
    ensures !IsEmptyOrWhitespaceOnly(Some("d")) && !IsEmptyOrWhitespaceOnly(Some("n"))
  {
    assert "d"[0] > ' ' && "n"[0] > ' ';
  }

  lemma SharedParses()
    ensures PrivacyStateGetValue("shared") == Success(Shared)
  {
    var u := Upper("shared");
    assert u[0] == 'S' && u[1] == 'H' && u[2] == 'A' && u[3] == 'R' && u[4] == 'E' && u[5] == 'D';
    assert u == "SHARED";
  }
}
