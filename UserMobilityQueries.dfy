/**
 * The Mobility point store of UserMobilityQueries: the `mobility` table (with
 * its extended rows) as a sequence of records, the insert, the id queries, the
 * filtered and time-ordered fetches, and the per-user aggregates.
 *
 * SQL string comparison (`=`) is modelled as the case-insensitive comparison
 * of the database's default collation; see SqlEquals.
 */
module UserMobilityQueries {
  import opened Wrappers
  import opened JavaText

  const MILLIS_PER_DAY: int := 1000 * 60 * 60 * 24
  const MILLIS_PER_HOUR: int := 1000 * 60 * 60

  datatype PrivacyState = Private | Shared
  datatype LocationStatus = Valid | Inaccurate | Stale | Unavailable
  datatype Mode = Still | Walk | Run | Bike | Drive
  datatype SubType = ModeOnly | SensorData

  /** The enum constants' toString(), which is their Java name. */
  function PrivacyStateText(p: PrivacyState): string {
    match p
    case Private => "PRIVATE"
    case Shared => "SHARED"
  }

  function LocationStatusText(s: LocationStatus): string {
    match s
    case Valid => "VALID"
    case Inaccurate => "INACCURATE"
    case Stale => "STALE"
    case Unavailable => "UNAVAILABLE"
  }

  function ModeText(m: Mode): string {
    match m
    case Still => "STILL"
    case Walk => "WALK"
    case Run => "RUN"
    case Bike => "BIKE"
    case Drive => "DRIVE"
  }

  /** A Mobility point as the uploader hands it to createMobilityPoint. */
  datatype MobilityPoint = MobilityPoint(
    id: string,
    time: int,
    timezone: string,
    locationStatus: LocationStatus,
    location: Option<string>,
    mode: Mode,
    privacyState: PrivacyState,
    subType: SubType,
    sensorData: Option<string>,
    classifierData: Option<string>)

  /** A `mobility_extended` row: sensor data, classifier features and the classifier version. */
  datatype Extended = Extended(sensorData: string, features: string, classifierVersion: string)

  /** One stored point: its `mobility` row joined with its owner and its extended row. */
  datatype MobilityRow = MobilityRow(
    uuid: string,
    user: string,
    client: string,
    epochMillis: int,
    uploadTimestamp: int,
    timezone: string,
    locationStatus: LocationStatus,
    location: Option<string>,
    mode: Mode,
    privacyState: PrivacyState,
    extended: Option<Extended>)

  type Table = seq<MobilityRow>

  /** The text the insert stores for each enum column. */
  function LocationStatusColumn(s: LocationStatus): string { Lower(LocationStatusText(s)) }
  function ModeColumn(m: Mode): string { Lower(ModeText(m)) }
  function PrivacyStateColumn(p: PrivacyState): string { PrivacyStateText(p) }

  /** SQL `=` on strings under a case-insensitive collation. */
  predicate SqlEquals(a: string, b: string) {
    Lower(a) == Lower(b)
  }

  /** `u.username = ? AND u.id = m.user_id`. */
  predicate OwnedBy(r: MobilityRow, username: string) {
    SqlEquals(r.user, username)
  }

  /** The unique key on the point's UUID, under the same case-insensitive collation. */
  predicate UniqueIds(t: Table) {
    forall i, j :: 0 <= i < j < |t| ==> !SqlEquals(t[i].uuid, t[j].uuid)
  }

  /** Whether the key already holds the UUID: an insert of it is a duplicate-key violation. */
  predicate HasId(t: Table, id: string) {
    exists i :: 0 <= i < |t| && SqlEquals(t[i].uuid, id)
  }

  /** `uuid IN (?, ..., ?)`: the UUID equals one of the ids under the collation. */
  predicate IdIn(uuid: string, ids: seq<string>) {
    exists id :: id in ids && SqlEquals(uuid, id)
  }

  // ---------------------------------------------------------------------------
  // Column encodings

  /** Two texts whose lengths or first letters differ stay different once lower-cased. */
  lemma LowerKeepsApart(x: string, y: string)
    requires |x| != |y| || (|x| > 0 && |y| > 0 && LowerChar(x[0]) != LowerChar(y[0]))
    ensures Lower(x) != Lower(y)
  {
    if |x| == |y| {
      assert Lower(x)[0] != Lower(y)[0];
    }
  }

  lemma LocationStatusTextsApart(a: LocationStatus, b: LocationStatus)
    ensures Lower(LocationStatusText(a)) == Lower(LocationStatusText(b)) <==> a == b
  {
    if a != b {
      LowerKeepsApart(LocationStatusText(a), LocationStatusText(b));
    }
  }

  lemma ModeTextsApart(a: Mode, b: Mode)
    ensures Lower(ModeText(a)) == Lower(ModeText(b)) <==> a == b
  {
    if a != b {
      LowerKeepsApart(ModeText(a), ModeText(b));
    }
  }

  /**
   * The location status is stored lower-cased; getIdsWithLocationStatus binds
   * the lower-cased text too, but getMobilityInformation binds the plain
   * toString(). That text never equals the stored one byte for byte, so the
   * latter filter selects the rows with the requested status only because the
   * comparison ignores case.
   */
  lemma LocationStatusEncoding(stored: LocationStatus, wanted: LocationStatus)
    ensures SqlEquals(LocationStatusColumn(stored), LocationStatusText(wanted)) <==> stored == wanted
    ensures SqlEquals(LocationStatusColumn(stored), Lower(LocationStatusText(wanted))) <==> stored == wanted
    ensures LocationStatusColumn(stored) != LocationStatusText(wanted)
  {
    LowerIdempotent(LocationStatusText(stored));
    LowerIdempotent(LocationStatusText(wanted));
    LocationStatusTextsApart(stored, wanted);
    assert Lower(LocationStatusText(stored))[0] != LocationStatusText(stored)[0];
  }

  /** The mode is stored and bound lower-cased. */
  lemma ModeEncoding(stored: Mode, wanted: Mode)
    ensures SqlEquals(ModeColumn(stored), Lower(ModeText(wanted))) <==> stored == wanted
  {
    LowerIdempotent(ModeText(stored));
    LowerIdempotent(ModeText(wanted));
    ModeTextsApart(stored, wanted);
  }

  /** The privacy state is stored and bound as its toString(). */
  lemma PrivacyStateEncoding(stored: PrivacyState, wanted: PrivacyState)
    ensures SqlEquals(PrivacyStateColumn(stored), PrivacyStateText(wanted)) <==> stored == wanted
  {
    if stored != wanted {
      LowerKeepsApart(PrivacyStateText(stored), PrivacyStateText(wanted));
    }
  }

  // ---------------------------------------------------------------------------
  // createMobilityPoint

  /** Where the insert can fail other than on a duplicate UUID. */
  datatype StoreFault = NoFault | InsertFault | ExtendedInsertFault | CommitFault

  /** The DataAccessException thrown by createMobilityPoint, by the step that failed. */
  datatype DataAccessError = InsertFailed | ExtendedInsertFailed | CommitFailed

  /** A point is well formed when a sensor-data point carries its sensor data. */
  predicate WellFormedPoint(p: MobilityPoint) {
    p.subType == SensorData ==> p.sensorData.Some?
  }

  /** The extended row written for a point, if any: `{}` stands in for missing classifier data. */
  function ExtendedRowFor(p: MobilityPoint, classifierVersion: string): (e: Option<Extended>)
    requires WellFormedPoint(p)
    ensures e.Some? <==> p.subType == SensorData
    ensures e.Some? ==> && Some(e.value.sensorData) == p.sensorData
                        && e.value.features == p.classifierData.GetOr("{}")
                        && e.value.classifierVersion == classifierVersion
  {
    if p.subType == SensorData then
      Some(Extended(p.sensorData.value, if p.classifierData.Some? then p.classifierData.value else "{}", classifierVersion))
    else None
  }

  /** The row the insert writes: the point's fields, the uploader, the client and the database's now(). */
  function NewRow(username: string, client: string, p: MobilityPoint, now: int, classifierVersion: string): (row: MobilityRow)
    requires WellFormedPoint(p)
    ensures row.uuid == p.id && row.user == username && row.client == client
    ensures row.epochMillis == p.time && row.uploadTimestamp == now && row.timezone == p.timezone
    ensures row.locationStatus == p.locationStatus && row.location == p.location
    ensures row.mode == p.mode && row.privacyState == p.privacyState
    ensures row.extended == ExtendedRowFor(p, classifierVersion)
  {
    MobilityRow(p.id, username, client, p.time, now, p.timezone, p.locationStatus, p.location,
                p.mode, p.privacyState, ExtendedRowFor(p, classifierVersion))
  }

  /**
   * createMobilityPoint: insert the base row and, for a sensor-data point, the
   * extended row, then commit. A UUID already present is a duplicate-key
   * violation and is silently ignored; every other failure is an error and
   * commits nothing. `now` is the database's now() for upload_timestamp.
   */
  function CreateMobilityPoint(table: Table, username: string, client: string, point: MobilityPoint,
                               now: int, classifierVersion: string, fault: StoreFault): (r: Result<Table, DataAccessError>)
    requires WellFormedPoint(point)
    ensures r.Failure? <==>
              fault == InsertFault || fault == CommitFault ||
              (fault == ExtendedInsertFault && !HasId(table, point.id) && point.subType == SensorData)
    ensures r.Success? && HasId(table, point.id) ==> r.value == table
    ensures r.Success? && !HasId(table, point.id) ==>
              |r.value| == |table| + 1 && r.value[..|table|] == table &&
              r.value[|table|] == NewRow(username, client, point, now, classifierVersion)
    ensures r.Success? && UniqueIds(table) ==> UniqueIds(r.value)
  {
    if fault == InsertFault then Failure(InsertFailed)
    else if HasId(table, point.id) then
      (if fault == CommitFault then Failure(CommitFailed) else Success(table))
    else if point.subType == SensorData && fault == ExtendedInsertFault then Failure(ExtendedInsertFailed)
    else if fault == CommitFault then Failure(CommitFailed)
    else Success(table + [NewRow(username, client, point, now, classifierVersion)])
  }

  /**
   * A point just created is fetched back by its id as exactly the row the
   * insert wrote, field for field.
   */
  lemma CreateThenFetch(table: Table, username: string, client: string, point: MobilityPoint,
                        now: int, classifierVersion: string)
    requires WellFormedPoint(point) && !HasId(table, point.id)
    ensures var created := CreateMobilityPoint(table, username, client, point, now, classifierVersion, NoFault);
            created.Success? &&
            GetMobilityInformationFromIds(created.value, [point.id]) ==
              [NewRow(username, client, point, now, classifierVersion)]
  {
    var row := NewRow(username, client, point, now, classifierVersion);
    var created := CreateMobilityPoint(table, username, client, point, now, classifierVersion, NoFault);
    assert created == Success(table + [row]);
    FetchNewRow(table, row);
  }

  /** Fetching by the id of a row appended under a fresh UUID gives that row alone. */
  lemma FetchNewRow(table: Table, row: MobilityRow)
    requires !HasId(table, row.uuid)
    ensures GetMobilityInformationFromIds(table + [row], [row.uuid]) == [row]
  {
    SelectNewRow(table, row);
    assert SortByEpoch([row]) == InsertByEpoch(row, SortByEpoch([])) by {
      assert [row][1..] == [];
    }
  }

  /** Selecting a fresh UUID picks the appended row and nothing else. */
  lemma SelectNewRow(table: Table, row: MobilityRow)
    requires !HasId(table, row.uuid)
    ensures Where(table + [row], WithIdIn([row.uuid])) == [row]
  {
    var keep := WithIdIn([row.uuid]);
    WhereAppend(table, row, keep);
    forall x | x in table
      ensures !keep(x)
    {
      var i :| 0 <= i < |table| && table[i] == x;
      assert !SqlEquals(table[i].uuid, row.uuid);
    }
    WhereNone(table, keep);
    assert keep(row) by {
      assert row.uuid in [row.uuid];
    }
  }

  /** Uploading the same point twice leaves exactly the table of the first upload. */
  lemma CreateTwiceKeepsOneRow(table: Table, username: string, client: string, point: MobilityPoint,
                              now: int, later: int, classifierVersion: string)
    requires WellFormedPoint(point) && UniqueIds(table)
    ensures var first := CreateMobilityPoint(table, username, client, point, now, classifierVersion, NoFault);
            first.Success? && HasId(first.value, point.id) && UniqueIds(first.value) &&
            CreateMobilityPoint(first.value, username, client, point, later, classifierVersion, NoFault) == first
  {
    var first := CreateMobilityPoint(table, username, client, point, now, classifierVersion, NoFault);
    if !HasId(table, point.id) {
      assert SqlEquals(first.value[|table|].uuid, point.id);
    }
  }

  // ---------------------------------------------------------------------------
  // getIds*

  /** The single predicate each getIds* query adds after the owner test. */
  datatype IdQuery =
    | ForUser
    | ForClient(client: string)
    | CreatedAfterDate(startDate: int)
    | CreatedBeforeDate(endDate: int)
    | CreatedBetweenDates(startDate: int, endDate: int)
    | UploadedAfterDate(uploadedFrom: int)
    | UploadedBeforeDate(uploadedTo: int)
    | WithPrivacyState(privacyState: PrivacyState)
    | WithLocationStatus(locationStatus: LocationStatus)
    | WithMode(mode: Mode)

  /** The WHERE condition of each query, with the parameter as the query binds it. */
  predicate IdWhere(q: IdQuery, r: MobilityRow) {
    match q
    case ForUser => true
    case ForClient(c) => SqlEquals(r.client, c)
    case CreatedAfterDate(s) => r.epochMillis >= s
    case CreatedBeforeDate(e) => r.epochMillis <= e
    case CreatedBetweenDates(s, e) => r.epochMillis >= s && r.epochMillis <= e
    case UploadedAfterDate(t) => r.uploadTimestamp >= t
    case UploadedBeforeDate(t) => r.uploadTimestamp <= t
    case WithPrivacyState(p) => SqlEquals(PrivacyStateColumn(r.privacyState), PrivacyStateText(p))
    case WithLocationStatus(s) => SqlEquals(LocationStatusColumn(r.locationStatus), Lower(LocationStatusText(s)))
    case WithMode(m) => SqlEquals(ModeColumn(r.mode), Lower(ModeText(m)))
  }

  /** The UUIDs a getIds* query returns, in table order. */
  function GetIds(table: Table, username: string, q: IdQuery): (ids: seq<string>)
    ensures |ids| <= |table|
    ensures forall id :: id in ids <==>
              exists r :: r in table && OwnedBy(r, username) && IdWhere(q, r) && r.uuid == id
  {
    if table == [] then []
    else
      (if OwnedBy(table[0], username) && IdWhere(q, table[0]) then [table[0].uuid] else [])
      + GetIds(table[1..], username, q)
  }

  /** The privacy-state query selects exactly the rows holding the requested state. */
  lemma PrivacyStateQuerySelectsByValue(table: Table, username: string, p: PrivacyState)
    ensures forall id :: id in GetIds(table, username, WithPrivacyState(p)) <==>
              exists r :: r in table && OwnedBy(r, username) && r.privacyState == p && r.uuid == id
  {
    forall r: MobilityRow | r in table
      ensures IdWhere(WithPrivacyState(p), r) <==> r.privacyState == p
    {
      PrivacyStateEncoding(r.privacyState, p);
    }
  }

  /** The location-status query selects exactly the rows holding the requested status. */
  lemma LocationStatusQuerySelectsByValue(table: Table, username: string, s: LocationStatus)
    ensures forall id :: id in GetIds(table, username, WithLocationStatus(s)) <==>
              exists r :: r in table && OwnedBy(r, username) && r.locationStatus == s && r.uuid == id
  {
    forall r: MobilityRow | r in table
      ensures IdWhere(WithLocationStatus(s), r) <==> r.locationStatus == s
    {
      LocationStatusWhere(r, s);
    }
  }

  lemma LocationStatusWhere(r: MobilityRow, s: LocationStatus)
    ensures IdWhere(WithLocationStatus(s), r) <==> r.locationStatus == s
  {
    LocationStatusEncoding(r.locationStatus, s);
  }

  /** The mode query selects exactly the rows holding the requested mode. */
  lemma ModeQuerySelectsByValue(table: Table, username: string, m: Mode)
    ensures forall id :: id in GetIds(table, username, WithMode(m)) <==>
              exists r :: r in table && OwnedBy(r, username) && r.mode == m && r.uuid == id
  {
    forall r: MobilityRow | r in table
      ensures IdWhere(WithMode(m), r) <==> r.mode == m
    {
      ModeEncoding(r.mode, m);
    }
  }

  /**
   * With UUIDs unique, the between-dates query returns exactly the ids that
   * both the on-or-after and the on-or-before queries return.
   */
  lemma BetweenDatesIsIntersection(table: Table, username: string, startDate: int, endDate: int)
    requires UniqueIds(table)
    ensures forall id :: id in GetIds(table, username, CreatedBetweenDates(startDate, endDate)) <==>
              id in GetIds(table, username, CreatedAfterDate(startDate)) &&
              id in GetIds(table, username, CreatedBeforeDate(endDate))
  {
    forall id | id in GetIds(table, username, CreatedAfterDate(startDate)) &&
                id in GetIds(table, username, CreatedBeforeDate(endDate))
      ensures id in GetIds(table, username, CreatedBetweenDates(startDate, endDate))
    {
      BetweenFromBoth(table, username, startDate, endDate, id);
    }
  }

  /** An id both one-sided queries return has one row, and that row is within both dates. */
  lemma BetweenFromBoth(table: Table, username: string, startDate: int, endDate: int, id: string)
    requires UniqueIds(table)
    requires id in GetIds(table, username, CreatedAfterDate(startDate))
    requires id in GetIds(table, username, CreatedBeforeDate(endDate))
    ensures id in GetIds(table, username, CreatedBetweenDates(startDate, endDate))
  {
    var r1 :| r1 in table && OwnedBy(r1, username) && IdWhere(CreatedAfterDate(startDate), r1) && r1.uuid == id;
    var r2 :| r2 in table && OwnedBy(r2, username) && IdWhere(CreatedBeforeDate(endDate), r2) && r2.uuid == id;
    SameIdSameRow(table, r1, r2);
    assert IdWhere(CreatedBetweenDates(startDate, endDate), r1);
  }

  /** Two rows of a table whose UUIDs are unique and equal are the same row. */
  lemma SameIdSameRow(table: Table, r1: MobilityRow, r2: MobilityRow)
    requires UniqueIds(table) && r1 in table && r2 in table && r1.uuid == r2.uuid
    ensures r1 == r2
  {
    var i :| 0 <= i < |table| && table[i] == r1;
    var j :| 0 <= j < |table| && table[j] == r2;
    assert SqlEquals(table[i].uuid, table[j].uuid);
  }

  // ---------------------------------------------------------------------------
  // Ordering by epoch_millis (ORDER BY epoch_millis)

  predicate SortedByEpoch(s: seq<MobilityRow>) {
    forall i, j :: 0 <= i < j < |s| ==> s[i].epochMillis <= s[j].epochMillis
  }

  function InsertByEpoch(x: MobilityRow, s: seq<MobilityRow>): (r: seq<MobilityRow>)
    requires SortedByEpoch(s)
    ensures SortedByEpoch(r)
    ensures multiset(r) == multiset(s) + multiset{x}
    ensures forall e :: e in r ==> e == x || e in s
  {
    if s == [] then [x]
    else if x.epochMillis <= s[0].epochMillis then [x] + s
    else
      var rest := InsertByEpoch(x, s[1..]);
      InsertByEpochCons(x, s, rest);
      [s[0]] + rest
  }

  /** Putting the head back in front of the insertion into the tail keeps the order and the contents. */
  lemma InsertByEpochCons(x: MobilityRow, s: seq<MobilityRow>, rest: seq<MobilityRow>)
    requires s != [] && SortedByEpoch(s) && s[0].epochMillis < x.epochMillis
    requires SortedByEpoch(rest) && multiset(rest) == multiset(s[1..]) + multiset{x}
    requires forall e :: e in rest ==> e == x || e in s[1..]
    ensures SortedByEpoch([s[0]] + rest)
    ensures multiset([s[0]] + rest) == multiset(s) + multiset{x}
    ensures forall e :: e in [s[0]] + rest ==> e == x || e in s
  {
    assert s == [s[0]] + s[1..];
    forall k | 0 <= k < |rest|
      ensures s[0].epochMillis <= rest[k].epochMillis
    {
      assert rest[k] in rest;
    }
  }

  /** The database's sort of a result by epoch_millis. */
  function SortByEpoch(s: seq<MobilityRow>): (r: seq<MobilityRow>)
    ensures SortedByEpoch(r)
    ensures multiset(r) == multiset(s)
  {
    if s == [] then []
    else
      assert s == [s[0]] + s[1..];
      InsertByEpoch(s[0], SortByEpoch(s[1..]))
  }

  /** The rows of a table that satisfy a predicate, in table order. */
  function Where(table: Table, keep: MobilityRow -> bool): (r: seq<MobilityRow>)
    ensures forall x :: x in r <==> x in table && keep(x)
    ensures |r| <= |table|
  {
    if table == [] then []
    else (if keep(table[0]) then [table[0]] else []) + Where(table[1..], keep)
  }

  lemma {:induction false} WhereSame(table: Table, keep: MobilityRow -> bool, keep': MobilityRow -> bool)
    requires forall x :: x in table ==> keep(x) == keep'(x)
    ensures Where(table, keep) == Where(table, keep')
  {
    if table != [] {
      WhereSame(table[1..], keep, keep');
    }
  }

  /**
   * getMobilityInformationFromIds: every point whose UUID is among the ids,
   * whoever owns it, ordered by epoch_millis.
   */
  function GetMobilityInformationFromIds(table: Table, ids: seq<string>): (points: seq<MobilityRow>)
    ensures SortedByEpoch(points)
    ensures multiset(points) == multiset(Where(table, WithIdIn(ids)))
    ensures forall r :: r in points <==> r in table && IdIn(r.uuid, ids)
  {
    var chosen := Where(table, WithIdIn(ids));
    var points := SortByEpoch(chosen);
    forall r
      ensures r in points <==> r in table && IdIn(r.uuid, ids)
    {
      assert r in points <==> r in multiset(points);
      assert r in chosen <==> r in multiset(chosen);
    }
    points
  }

  /** The WHERE condition of getMobilityInformationFromIds. */
  function WithIdIn(ids: seq<string>): MobilityRow -> bool {
    (r: MobilityRow) => IdIn(r.uuid, ids)
  }

  // ---------------------------------------------------------------------------
  // getMobilityInformation: the query builder

  /** The pieces the StringBuilder receives, one per SQL constant appended. */
  datatype Fragment =
    | SelectMobilityData    // the base query: the user's points, by username
    | WhereOnOrAfterDate    // epoch_millis at or after a bound
    | WhereOnOrBeforeDate   // epoch_millis at or before a bound
    | WherePrivacyState     // privacy state equal to a value
    | WhereLocationStatus   // location status equal to a value
    | WhereMode             // mode equal to a value
    | OrderByDate           // ascending epoch_millis, no placeholder

  /** A positional parameter: a String or a long. */
  datatype SqlParam = PString(s: string) | PLong(v: int)

  /** The optional filters of getMobilityInformation; None is a null argument. */
  datatype Filters = Filters(
    startDate: Option<int>,
    endDate: Option<int>,
    privacyState: Option<PrivacyState>,
    locationStatus: Option<LocationStatus>,
    mode: Option<Mode>)

  /** The position of each fragment in the fixed order the builder appends them. */
  function Rank(f: Fragment): nat {
    match f
    case SelectMobilityData => 0
    case WhereOnOrAfterDate => 1
    case WhereOnOrBeforeDate => 2
    case WherePrivacyState => 3
    case WhereLocationStatus => 4
    case WhereMode => 5
    case OrderByDate => 6
  }

  function Placeholders(f: Fragment): nat {
    if f == OrderByDate then 0 else 1
  }

  /**
   * The parameter a WHERE fragment is paired with, encoded as the builder
   * encodes it: the dates as longs, the privacy state and the location status
   * by toString(), the mode lower-cased.
   */
  function Binding(f: Fragment, filters: Filters): Option<SqlParam> {
    match f
    case WhereOnOrAfterDate =>
      if filters.startDate.Some? then Some(PLong(filters.startDate.value)) else None
    case WhereOnOrBeforeDate =>
      if filters.endDate.Some? then Some(PLong(filters.endDate.value)) else None
    case WherePrivacyState =>
      if filters.privacyState.Some? then Some(PString(PrivacyStateText(filters.privacyState.value))) else None
    case WhereLocationStatus =>
      if filters.locationStatus.Some? then Some(PString(LocationStatusText(filters.locationStatus.value))) else None
    case WhereMode =>
      if filters.mode.Some? then Some(PString(Lower(ModeText(filters.mode.value)))) else None
    case _ => None
  }

  /** Whether a row satisfies one fragment's condition with its bound parameter. */
  predicate FragmentHolds(f: Fragment, p: SqlParam, r: MobilityRow) {
    match f
    case SelectMobilityData => p.PString? && OwnedBy(r, p.s)
    case WhereOnOrAfterDate => p.PLong? && r.epochMillis >= p.v
    case WhereOnOrBeforeDate => p.PLong? && r.epochMillis <= p.v
    case WherePrivacyState => p.PString? && SqlEquals(PrivacyStateColumn(r.privacyState), p.s)
    case WhereLocationStatus => p.PString? && SqlEquals(LocationStatusColumn(r.locationStatus), p.s)
    case WhereMode => p.PString? && SqlEquals(ModeColumn(r.mode), p.s)
    case OrderByDate => true
  }

  /**
   * Whether the statement selects a row: placeholders are bound positionally,
   * so the last placeholder of the text takes the last parameter.
   */
  predicate Selects(sql: seq<Fragment>, params: seq<SqlParam>, r: MobilityRow)
    decreases |sql|
  {
    if sql == [] then params == []
    else if Placeholders(sql[|sql| - 1]) == 0 then Selects(sql[..|sql| - 1], params, r)
    else
      |params| > 0 && Selects(sql[..|sql| - 1], params[..|params| - 1], r) &&
      FragmentHolds(sql[|sql| - 1], params[|params| - 1], r)
  }

  /** The conjunction of the owner test and every filter that is given. */
  predicate Matches(username: string, filters: Filters, r: MobilityRow) {
    && OwnedBy(r, username)
    && (filters.startDate.Some? ==> r.epochMillis >= filters.startDate.value)
    && (filters.endDate.Some? ==> r.epochMillis <= filters.endDate.value)
    && (filters.privacyState.Some? ==> r.privacyState == filters.privacyState.value)
    && (filters.locationStatus.Some? ==> r.locationStatus == filters.locationStatus.value)
    && (filters.mode.Some? ==> r.mode == filters.mode.value)
  }

  /** The owner test and the first k filters of the fixed order, those that are given. */
  predicate MatchesUpTo(username: string, filters: Filters, k: nat, r: MobilityRow) {
    && OwnedBy(r, username)
    && (k >= 1 && filters.startDate.Some? ==> r.epochMillis >= filters.startDate.value)
    && (k >= 2 && filters.endDate.Some? ==> r.epochMillis <= filters.endDate.value)
    && (k >= 3 && filters.privacyState.Some? ==> r.privacyState == filters.privacyState.value)
    && (k >= 4 && filters.locationStatus.Some? ==> r.locationStatus == filters.locationStatus.value)
    && (k >= 5 && filters.mode.Some? ==> r.mode == filters.mode.value)
  }

  /** The builder's state after it has considered the first k filters. */
  predicate BuiltUpTo(username: string, filters: Filters, k: nat, sql: seq<Fragment>, params: seq<SqlParam>) {
    && |sql| >= 1 && sql[0] == SelectMobilityData
    && (forall i, j :: 0 <= i < j < |sql| ==> Rank(sql[i]) < Rank(sql[j]))
    && (forall i :: 0 <= i < |sql| ==> Rank(sql[i]) <= k)
    && |params| == |sql| && params[0] == PString(username)
    && (forall i :: 0 < i < |sql| ==> Binding(sql[i], filters) == Some(params[i]))
    && (WhereOnOrAfterDate in sql <==> k >= 1 && filters.startDate.Some?)
    && (WhereOnOrBeforeDate in sql <==> k >= 2 && filters.endDate.Some?)
    && (WherePrivacyState in sql <==> k >= 3 && filters.privacyState.Some?)
    && (WhereLocationStatus in sql <==> k >= 4 && filters.locationStatus.Some?)
    && (WhereMode in sql <==> k >= 5 && filters.mode.Some?)
    && OrderByDate !in sql
  }

  /** The statement selects exactly the rows passing the first k filters. */
  ghost predicate SelectsUpTo(username: string, filters: Filters, k: nat, sql: seq<Fragment>, params: seq<SqlParam>) {
    forall r :: Selects(sql, params, r) <==> MatchesUpTo(username, filters, k, r)
  }

  /** The filter of rank k narrows the first k - 1 filters by its fragment's condition, when it is given. */
  lemma StepMeaning(username: string, filters: Filters, k: nat, f: Fragment)
    requires 1 <= k <= 5 && Rank(f) == k
    ensures forall r :: MatchesUpTo(username, filters, k, r) <==>
              MatchesUpTo(username, filters, k - 1, r) &&
              (Binding(f, filters).Some? ==> FragmentHolds(f, Binding(f, filters).value, r))
  {
    forall r
      ensures MatchesUpTo(username, filters, k, r) <==>
              MatchesUpTo(username, filters, k - 1, r) &&
              (Binding(f, filters).Some? ==> FragmentHolds(f, Binding(f, filters).value, r))
    {
      if k == 3 && filters.privacyState.Some? {
        PrivacyStateEncoding(r.privacyState, filters.privacyState.value);
      } else if k == 4 && filters.locationStatus.Some? {
        LocationStatusEncoding(r.locationStatus, filters.locationStatus.value);
      } else if k == 5 && filters.mode.Some? {
        ModeEncoding(r.mode, filters.mode.value);
      }
    }
  }

  /**
   * One step of the builder, its shape: the fragment of rank k is appended
   * with its parameter exactly when its filter is given, after every earlier
   * fragment.
   */
  lemma BuilderStepShape(username: string, filters: Filters, k: nat, f: Fragment,
                         sql: seq<Fragment>, params: seq<SqlParam>,
                         sql': seq<Fragment>, params': seq<SqlParam>)
    requires 1 <= k <= 5 && Rank(f) == k && Placeholders(f) == 1
    requires BuiltUpTo(username, filters, k - 1, sql, params)
    requires Binding(f, filters).Some? ==> sql' == sql + [f] && params' == params + [Binding(f, filters).value]
    requires Binding(f, filters).None? ==> sql' == sql && params' == params
    ensures BuiltUpTo(username, filters, k, sql', params')
  {
    if Binding(f, filters).Some? {
      forall x ensures x in sql' <==> x in sql || x == f {
        assert sql' == sql + [f];
      }
    }
  }

  /**
   * One step of the builder, its meaning: once the fragment of rank k is
   * appended when its filter is given, the statement selects the rows passing
   * the first k filters.
   */
  lemma {:induction false} BuilderStep(username: string, filters: Filters, k: nat, f: Fragment,
                                        sql: seq<Fragment>, params: seq<SqlParam>,
                                        sql': seq<Fragment>, params': seq<SqlParam>)
    requires 1 <= k <= 5 && Rank(f) == k && Placeholders(f) == 1
    requires SelectsUpTo(username, filters, k - 1, sql, params)
    requires Binding(f, filters).Some? ==> sql' == sql + [f] && params' == params + [Binding(f, filters).value]
    requires Binding(f, filters).None? ==> sql' == sql && params' == params
    ensures SelectsUpTo(username, filters, k, sql', params')
  {
    StepMeaning(username, filters, k, f);
    if Binding(f, filters).Some? {
      assert sql'[..|sql|] == sql;
      assert params'[..|params|] == params;
    }
  }

  /** Appending the ordering to the fully filtered statement keeps its shape: it closes the clause order. */
  lemma OrderedShape(username: string, filters: Filters, sql: seq<Fragment>, params: seq<SqlParam>,
                     sql': seq<Fragment>)
    requires BuiltUpTo(username, filters, 5, sql, params)
    requires sql' == sql + [OrderByDate]
    ensures |sql'| >= 2 && sql'[0] == SelectMobilityData && sql'[|sql'| - 1] == OrderByDate
    ensures forall i, j :: 0 <= i < j < |sql'| ==> Rank(sql'[i]) < Rank(sql'[j])
    ensures |params| == |sql'| - 1 && params[0] == PString(username)
    ensures forall i :: 0 < i < |sql'| - 1 ==> Binding(sql'[i], filters) == Some(params[i])
    ensures WhereOnOrAfterDate in sql' <==> filters.startDate.Some?
    ensures WhereOnOrBeforeDate in sql' <==> filters.endDate.Some?
    ensures WherePrivacyState in sql' <==> filters.privacyState.Some?
    ensures WhereLocationStatus in sql' <==> filters.locationStatus.Some?
    ensures WhereMode in sql' <==> filters.mode.Some?
  {
  }

  /** Appending the ordering, which binds no parameter, does not change what the statement selects. */
  lemma OrderedSelects(username: string, filters: Filters, sql: seq<Fragment>, params: seq<SqlParam>,
                       sql': seq<Fragment>)
    requires SelectsUpTo(username, filters, 5, sql, params)
    requires sql' == sql + [OrderByDate]
    ensures forall r :: Selects(sql', params, r) <==> Matches(username, filters, r)
  {
    assert sql'[..|sql|] == sql;
  }

  /**
   * One conditional append of the builder: the fragment of rank k and its
   * parameter are appended when the filter is given, and the statement then
   * selects the rows passing the first k filters.
   */
  method AppendFilter(username: string, filters: Filters, k: nat, f: Fragment, p: Option<SqlParam>,
                      sql: seq<Fragment>, params: seq<SqlParam>)
    returns (sql': seq<Fragment>, params': seq<SqlParam>)
    requires 1 <= k <= 5 && Rank(f) == k && Placeholders(f) == 1 && p == Binding(f, filters)
    requires BuiltUpTo(username, filters, k - 1, sql, params)
    requires SelectsUpTo(username, filters, k - 1, sql, params)
    ensures BuiltUpTo(username, filters, k, sql', params')
    ensures SelectsUpTo(username, filters, k, sql', params')
  {
    sql', params' := sql, params;
    if p.Some? {
      sql' := sql' + [f];
      params' := params' + [p.value];
    }
    BuilderStepShape(username, filters, k, f, sql, params, sql', params');
    BuilderStep(username, filters, k, f, sql, params, sql', params');
  }

  /**
   * The builder of getMobilityInformation: the base query with the username,
   * then one fragment and one parameter per given filter, in the fixed order
   * start, end, privacy state, location status, mode, then the ordering. The
   * resulting statement selects exactly the rows matching every given filter.
   */
  method BuildMobilityQuery(username: string, filters: Filters) returns (sql: seq<Fragment>, params: seq<SqlParam>)
    ensures |sql| >= 2 && sql[0] == SelectMobilityData && sql[|sql| - 1] == OrderByDate
    ensures forall i, j :: 0 <= i < j < |sql| ==> Rank(sql[i]) < Rank(sql[j])
    ensures |params| == |sql| - 1 && params[0] == PString(username)
    ensures forall i :: 0 < i < |sql| - 1 ==> Binding(sql[i], filters) == Some(params[i])
    ensures WhereOnOrAfterDate in sql <==> filters.startDate.Some?
    ensures WhereOnOrBeforeDate in sql <==> filters.endDate.Some?
    ensures WherePrivacyState in sql <==> filters.privacyState.Some?
    ensures WhereLocationStatus in sql <==> filters.locationStatus.Some?
    ensures WhereMode in sql <==> filters.mode.Some?
    ensures forall r :: Selects(sql, params, r) <==> Matches(username, filters, r)
  {
    sql, params := FilteredQuery(username, filters);
    var ordered := sql + [OrderByDate];
    OrderedShape(username, filters, sql, params, ordered);
    OrderedSelects(username, filters, sql, params, ordered);
    sql := ordered;
  }

  /** The builder up to, not including, the ordering: the base query and every given filter. */
  method FilteredQuery(username: string, filters: Filters) returns (sql: seq<Fragment>, params: seq<SqlParam>)
    ensures BuiltUpTo(username, filters, 5, sql, params)
    ensures SelectsUpTo(username, filters, 5, sql, params)
  {
    sql, params := DateFilteredQuery(username, filters);
    var privacy := if filters.privacyState.Some? then Some(PString(PrivacyStateText(filters.privacyState.value))) else None;
    sql, params := AppendFilter(username, filters, 3, WherePrivacyState, privacy, sql, params);
    var status := if filters.locationStatus.Some? then Some(PString(LocationStatusText(filters.locationStatus.value))) else None;
    sql, params := AppendFilter(username, filters, 4, WhereLocationStatus, status, sql, params);
    var mode := if filters.mode.Some? then Some(PString(Lower(ModeText(filters.mode.value)))) else None;
    sql, params := AppendFilter(username, filters, 5, WhereMode, mode, sql, params);
  }

  /** The base query and the two date filters, when given. */
  method DateFilteredQuery(username: string, filters: Filters) returns (sql: seq<Fragment>, params: seq<SqlParam>)
    ensures BuiltUpTo(username, filters, 2, sql, params)
    ensures SelectsUpTo(username, filters, 2, sql, params)
  {
    sql := [SelectMobilityData];
    params := [PString(username)];
    assert SelectsUpTo(username, filters, 0, sql, params) by {
      assert sql[..0] == [] && params[..0] == [];
    }
    var start := if filters.startDate.Some? then Some(PLong(filters.startDate.value)) else None;
    sql, params := AppendFilter(username, filters, 1, WhereOnOrAfterDate, start, sql, params);
    var end := if filters.endDate.Some? then Some(PLong(filters.endDate.value)) else None;
    sql, params := AppendFilter(username, filters, 2, WhereOnOrBeforeDate, end, sql, params);
  }

  /**
   * getMobilityInformation: the built statement run against the table, the
   * rows it selects ordered by epoch_millis. The points are exactly the
   * caller's points passing every given filter.
   */
  method GetMobilityInformation(table: Table, username: string, filters: Filters) returns (points: seq<MobilityRow>)
    ensures SortedByEpoch(points)
    ensures multiset(points) == multiset(Where(table, (r: MobilityRow) => Matches(username, filters, r)))
    ensures forall r :: r in points <==> r in table && Matches(username, filters, r)
  {
    var sql, params := BuildMobilityQuery(username, filters);
    var matching := (r: MobilityRow) => Matches(username, filters, r);
    var selected := Where(table, (r: MobilityRow) => Selects(sql, params, r));
    WhereSame(table, (r: MobilityRow) => Selects(sql, params, r), matching);
    assert selected == Where(table, matching);
    points := SortByEpoch(selected);
    forall r
      ensures r in points <==> r in table && Matches(username, filters, r)
    {
      assert r in points <==> r in multiset(selected);
      assert r in selected <==> r in table && matching(r);
    }
  }

  /** Without filters the fetch returns every point of the user, and no one else's. */
  lemma NoFiltersMeansOwnedOnly(username: string, r: MobilityRow)
    ensures Matches(username, Filters(None, None, None, None, None), r) <==> OwnedBy(r, username)
  {
  }

  // ---------------------------------------------------------------------------
  // getLastUploadForUser

  /** The epoch_millis values, sorted as Collections.sort sorts longs. */
  predicate SortedInts(s: seq<int>) {
    forall i, j :: 0 <= i < j < |s| ==> s[i] <= s[j]
  }

  function InsertInt(x: int, s: seq<int>): (r: seq<int>)
    requires SortedInts(s)
    ensures SortedInts(r)
    ensures multiset(r) == multiset(s) + multiset{x}
    ensures forall e :: e in r ==> e == x || e in s
  {
    if s == [] then [x]
    else if x <= s[0] then [x] + s
    else
      var rest := InsertInt(x, s[1..]);
      InsertIntCons(x, s, rest);
      [s[0]] + rest
  }

  /** Putting the head back in front of the insertion into the tail keeps the order and the contents. */
  lemma InsertIntCons(x: int, s: seq<int>, rest: seq<int>)
    requires s != [] && SortedInts(s) && s[0] < x
    requires SortedInts(rest) && multiset(rest) == multiset(s[1..]) + multiset{x}
    requires forall e :: e in rest ==> e == x || e in s[1..]
    ensures SortedInts([s[0]] + rest)
    ensures multiset([s[0]] + rest) == multiset(s) + multiset{x}
    ensures forall e :: e in [s[0]] + rest ==> e == x || e in s
  {
    assert s == [s[0]] + s[1..];
    forall k | 0 <= k < |rest|
      ensures s[0] <= rest[k]
    {
      assert rest[k] in rest;
    }
  }

  function SortInts(s: seq<int>): (r: seq<int>)
    ensures SortedInts(r)
    ensures multiset(r) == multiset(s)
  {
    if s == [] then []
    else
      assert s == [s[0]] + s[1..];
      InsertInt(s[0], SortInts(s[1..]))
  }

  /** The last element of a sorted permutation is the greatest element, and one of the originals. */
  lemma LastOfSortedIsMax(s: seq<int>, sorted: seq<int>)
    requires |sorted| > 0 && SortedInts(sorted) && multiset(sorted) == multiset(s)
    ensures sorted[|sorted| - 1] in s
    ensures forall t :: t in s ==> t <= sorted[|sorted| - 1]
  {
    assert sorted[|sorted| - 1] in multiset(sorted);
    forall t | t in s
      ensures t <= sorted[|sorted| - 1]
    {
      assert t in multiset(sorted);
      var k :| 0 <= k < |sorted| && sorted[k] == t;
    }
  }

  /**
   * getLastUploadForUser: the epoch_millis of all the user's points, sorted,
   * and the last of them; None when the user has no points. The result is the
   * greatest epoch_millis among the user's points.
   */
  method GetLastUploadForUser(table: Table, username: string) returns (last: Option<int>)
    ensures last.None? <==> forall r :: r in table ==> !OwnedBy(r, username)
    ensures last.Some? ==> exists r :: r in table && OwnedBy(r, username) && r.epochMillis == last.value
    ensures last.Some? ==> forall r :: r in table && OwnedBy(r, username) ==> r.epochMillis <= last.value
  {
    var timestamps: seq<int> := [];
    var i := 0;
    while i < |table|
      invariant 0 <= i <= |table|
      invariant forall t :: t in timestamps <==>
                  exists r :: r in table[..i] && OwnedBy(r, username) && r.epochMillis == t
      invariant |timestamps| == 0 <==> forall r :: r in table[..i] ==> !OwnedBy(r, username)
    {
      assert table[..i + 1] == table[..i] + [table[i]];
      if OwnedBy(table[i], username) {
        timestamps := timestamps + [table[i].epochMillis];
      }
      i := i + 1;
    }
    assert table[..i] == table;
    if |timestamps| > 0 {
      var sorted := SortInts(timestamps);
      last := Some(sorted[|sorted| - 1]);
      LastOfSortedIsMax(timestamps, sorted);
      forall r | r in table && OwnedBy(r, username)
        ensures r.epochMillis <= last.value
      {
        assert r.epochMillis in timestamps;
      }
    } else {
      last := None;
    }
  }

  // ---------------------------------------------------------------------------
  // getPercentageOfNonNullLocations

  lemma {:induction false} WhereAppend(table: Table, x: MobilityRow, keep: MobilityRow -> bool)
    ensures Where(table + [x], keep) == Where(table, keep) + (if keep(x) then [x] else [])
  {
    if table != [] {
      assert (table + [x])[1..] == table[1..] + [x];
      WhereAppend(table[1..], x, keep);
    }
  }

  lemma {:induction false} WhereNone(table: Table, keep: MobilityRow -> bool)
    requires forall x :: x in table ==> !keep(x)
    ensures Where(table, keep) == []
  {
    if table != [] {
      assert table[0] in table;
      WhereNone(table[1..], keep);
    }
  }

  lemma {:induction false} WhereAll(table: Table, keep: MobilityRow -> bool)
    requires forall x :: x in table ==> keep(x)
    ensures Where(table, keep) == table
  {
    if table != [] {
      WhereAll(table[1..], keep);
    }
  }

  /** When one filter implies another, it keeps no more rows. */
  lemma {:induction false} WhereNarrower(table: Table, keep: MobilityRow -> bool, keep': MobilityRow -> bool)
    requires forall x :: x in table && keep(x) ==> keep'(x)
    ensures |Where(table, keep)| <= |Where(table, keep')|
  {
    if table != [] {
      WhereNarrower(table[1..], keep, keep');
    }
  }

  /** The user's points at or after the cutoff, in table order. */
  function Recent(table: Table, username: string, cutoff: int): seq<MobilityRow> {
    Where(table, (r: MobilityRow) => OwnedBy(r, username) && r.epochMillis >= cutoff)
  }

  lemma RecentStep(table: Table, i: nat, username: string, cutoff: int)
    requires i < |table|
    ensures Recent(table[..i + 1], username, cutoff) ==
            Recent(table[..i], username, cutoff) +
            (if OwnedBy(table[i], username) && table[i].epochMillis >= cutoff then [table[i]] else [])
  {
    assert table[..i + 1] == table[..i] + [table[i]];
    WhereAppend(table[..i], table[i], (r: MobilityRow) => OwnedBy(r, username) && r.epochMillis >= cutoff);
  }

  /** The location column of each row, null included. */
  function LocationsOf(rows: seq<MobilityRow>): (locs: seq<Option<string>>)
    ensures |locs| == |rows|
    ensures forall k :: 0 <= k < |rows| ==> locs[k] == rows[k].location
  {
    if rows == [] then [] else [rows[0].location] + LocationsOf(rows[1..])
  }

  lemma LocationsAppend(rows: seq<MobilityRow>, x: MobilityRow)
    ensures LocationsOf(rows + [x]) == LocationsOf(rows) + [x.location]
  {
  }

  /** The non-null locations, in order. */
  function NonNull(locs: seq<Option<string>>): (values: seq<string>)
    ensures |values| <= |locs|
    ensures forall v :: v in values <==> Some(v) in locs
  {
    if locs == [] then []
    else (if locs[0].Some? then [locs[0].value] else []) + NonNull(locs[1..])
  }

  lemma {:induction false} NonNullAppend(locs: seq<Option<string>>, x: Option<string>)
    ensures NonNull(locs + [x]) == NonNull(locs) + (if x.Some? then [x.value] else [])
  {
    if locs != [] {
      assert (locs + [x])[1..] == locs[1..] + [x];
      NonNullAppend(locs[1..], x);
    }
  }

  /** The number of rows that carry a location. */
  lemma {:induction false} NonNullCountsLocatedRows(rows: seq<MobilityRow>)
    ensures |NonNull(LocationsOf(rows))| == |Where(rows, (r: MobilityRow) => r.location.Some?)|
  {
    if rows != [] {
      assert LocationsOf(rows)[1..] == LocationsOf(rows[1..]);
      NonNullCountsLocatedRows(rows[1..]);
    }
  }

  /**
   * The percentage as the pair of its numerator and denominator: the points
   * with a location and all the points.
   */
  datatype Ratio = Ratio(located: nat, total: nat)

  /**
   * What getPercentageOfNonNullLocations computes for a cutoff: null when the
   * user has no point at or after it, otherwise located over all such points.
   */
  function NonNullLocationRatio(table: Table, username: string, cutoff: int): (ratio: Option<Ratio>)
    ensures ratio.None? <==> forall r :: r in table && OwnedBy(r, username) ==> r.epochMillis < cutoff
    ensures ratio.Some? ==> 0 < ratio.value.total && ratio.value.located <= ratio.value.total
  {
    var recent := Recent(table, username, cutoff);
    var all := LocationsOf(recent);
    assert |all| > 0 ==> recent[0] in recent;
    if |all| == 0 then None else Some(Ratio(|NonNull(all)|, |all|))
  }

  /**
   * The numerator counts the recent points whose location is not null, and
   * the denominator all the recent points.
   */
  lemma RatioCountsPoints(table: Table, username: string, cutoff: int)
    requires NonNullLocationRatio(table, username, cutoff).Some?
    ensures var ratio := NonNullLocationRatio(table, username, cutoff).value;
            && ratio.total == |Recent(table, username, cutoff)|
            && ratio.located == |Where(Recent(table, username, cutoff), (r: MobilityRow) => r.location.Some?)|
  {
    NonNullCountsLocatedRows(Recent(table, username, cutoff));
  }

  /** Looking further back never counts fewer points. */
  lemma LongerLookbackCountsMore(table: Table, username: string, cutoff: int, earlier: int)
    requires earlier <= cutoff
    requires NonNullLocationRatio(table, username, cutoff).Some?
    ensures NonNullLocationRatio(table, username, earlier).Some?
    ensures NonNullLocationRatio(table, username, cutoff).value.total <=
            NonNullLocationRatio(table, username, earlier).value.total
  {
    WhereNarrower(table, (r: MobilityRow) => OwnedBy(r, username) && r.epochMillis >= cutoff,
                         (r: MobilityRow) => OwnedBy(r, username) && r.epochMillis >= earlier);
  }

  /**
   * The row callback of getPercentageOfNonNullLocations over the user's rows:
   * each point at or after the cutoff adds its location to the list of all
   * locations and, when not null, to the list of non-null ones.
   */
  method CollectLocations(table: Table, username: string, cutoff: int)
    returns (nonNullLocations: seq<string>, allLocations: seq<Option<string>>)
    ensures allLocations == LocationsOf(Recent(table, username, cutoff))
    ensures nonNullLocations == NonNull(allLocations)
  {
    nonNullLocations, allLocations := [], [];
    var i := 0;
    while i < |table|
      invariant 0 <= i <= |table|
      invariant allLocations == LocationsOf(Recent(table[..i], username, cutoff))
      invariant nonNullLocations == NonNull(allLocations)
    {
      RecentStep(table, i, username, cutoff);
      if OwnedBy(table[i], username) {
        var point := table[i];
        if point.epochMillis >= cutoff {
          LocationsAppend(Recent(table[..i], username, cutoff), point);
          NonNullAppend(allLocations, point.location);
          if point.location.Some? {
            nonNullLocations := nonNullLocations + [point.location.value];
          }
          allLocations := allLocations + [point.location];
        }
      }
      i := i + 1;
    }
    assert table[..i] == table;
  }

  /** The instant `hours` hours before `now`, in milliseconds. */
  function HoursBefore(now: int, hours: int): int {
    now - hours * MILLIS_PER_HOUR
  }

  /**
   * getPercentageOfNonNullLocations: the cutoff is `hours` hours before now
   * (the server clock); null when no point of the user is at or after it,
   * otherwise the share of those points that carry a location.
   */
  method GetPercentageOfNonNullLocations(table: Table, username: string, hours: int, now: int)
    returns (ratio: Option<Ratio>)
    ensures ratio == NonNullLocationRatio(table, username, HoursBefore(now, hours))
  {
    var cutoff := HoursBefore(now, hours);
    var nonNullLocations, allLocations := CollectLocations(table, username, cutoff);
    RatioOfLocations(table, username, cutoff, allLocations, nonNullLocations);
    if |allLocations| == 0 {
      ratio := None;
    } else {
      ratio := Some(Ratio(|nonNullLocations|, |allLocations|));
    }
  }

  /** The ratio in terms of the lists the row callback builds. */
  lemma RatioOfLocations(table: Table, username: string, cutoff: int,
                         all: seq<Option<string>>, nonNull: seq<string>)
    requires all == LocationsOf(Recent(table, username, cutoff)) && nonNull == NonNull(all)
    ensures NonNullLocationRatio(table, username, cutoff) ==
            if |all| == 0 then None else Some(Ratio(|nonNull|, |all|))
  {
  }

  // ---------------------------------------------------------------------------
  // getDates

  /** MySQL's DIV: integer division truncating toward zero. */
  function TruncDiv(a: int, b: int): (q: int)
    requires b > 0
    ensures 0 <= a ==> 0 <= q && q * b <= a < q * b + b
    ensures a < 0 ==> q <= 0 && q * b - b < a <= q * b
  {
    if a >= 0 then DivBounds(a, b); a / b
    else DivBounds(-a, b); -((-a) / b)
  }

  /** Dafny's division of a non-negative dividend rounds down. */
  lemma DivBounds(n: int, b: int)
    requires 0 <= n && b > 0
    ensures 0 <= n / b && (n / b) * b <= n < (n / b) * b + b
  {
    assert n == (n / b) * b + n % b;
  }

  /** DIV is odd in its dividend: negating the dividend negates the quotient. */
  lemma TruncDivOdd(a: int, b: int)
    requires b > 0
    ensures TruncDiv(-a, b) == -TruncDiv(a, b)
  {
  }

  /** The day bucket the query groups by: epoch_millis DIV MILLIS_PER_DAY. */
  function EpochDayBucket(epochMillis: int): int {
    TruncDiv(epochMillis, MILLIS_PER_DAY)
  }

  /** The UTC day of an instant: its millis divided by a day's, rounded down. */
  function UtcDay(epochMillis: int): int {
    epochMillis / MILLIS_PER_DAY
  }

  /**
   * The calendar day, counted from 1 January 1970, that a phone in a zone
   * `offset` milliseconds ahead of UTC shows at an instant.
   */
  function LocalDay(epochMillis: int, offset: int): int {
    (epochMillis + offset) / MILLIS_PER_DAY
  }

  /** A group of the query: the time zone and the bucket of the day. */
  datatype GroupKey = GroupKey(bucket: int, timezone: string)

  /** A result row of the grouped query: MIN and MAX of epoch_millis, and the time zone. */
  datatype GroupRow = GroupRow(min: int, max: int, timezone: string)

  /** The rows the grouped query aggregates: the user's points within the range, bounds included. */
  function InRange(table: Table, username: string, startDate: int, endDate: int): seq<MobilityRow> {
    Where(table, (r: MobilityRow) => OwnedBy(r, username) && startDate <= r.epochMillis <= endDate)
  }

  function KeyOf(r: MobilityRow, bucket: int -> int): GroupKey {
    GroupKey(bucket(r.epochMillis), r.timezone)
  }

  function MinEpoch(rows: seq<MobilityRow>): (m: int)
    requires |rows| > 0
    ensures exists r :: r in rows && r.epochMillis == m
    ensures forall r :: r in rows ==> m <= r.epochMillis
  {
    if |rows| == 1 then rows[0].epochMillis
    else
      var rest := MinEpoch(rows[1..]);
      assert forall r :: r in rows ==> r == rows[0] || r in rows[1..];
      if rows[0].epochMillis <= rest then rows[0].epochMillis else rest
  }

  function MaxEpoch(rows: seq<MobilityRow>): (m: int)
    requires |rows| > 0
    ensures exists r :: r in rows && r.epochMillis == m
    ensures forall r :: r in rows ==> r.epochMillis <= m
  {
    if |rows| == 1 then rows[0].epochMillis
    else
      var rest := MaxEpoch(rows[1..]);
      assert forall r :: r in rows ==> r == rows[0] || r in rows[1..];
      if rest <= rows[0].epochMillis then rows[0].epochMillis else rest
  }

  /** The rows of one group. */
  function Members(rows: seq<MobilityRow>, k: GroupKey, bucket: int -> int): seq<MobilityRow> {
    Where(rows, (r: MobilityRow) => KeyOf(r, bucket) == k)
  }

  /** The result row of the group a row falls in. */
  function GroupOf(rows: seq<MobilityRow>, r: MobilityRow, bucket: int -> int): (g: GroupRow)
    requires r in rows
    ensures g.timezone == r.timezone
    ensures g.min <= r.epochMillis <= g.max
  {
    var members := Members(rows, KeyOf(r, bucket), bucket);
    assert r in members;
    GroupRow(MinEpoch(members), MaxEpoch(members), r.timezone)
  }

  /** The result set of the grouped query: one row per (bucket, time zone) present. */
  function Groups(rows: seq<MobilityRow>, bucket: int -> int): set<GroupRow> {
    set r | r in rows :: GroupOf(rows, r, bucket)
  }

  /** The dates the extractor gathers from some result rows: the local day of each MIN and each MAX. */
  function DatesOf(groups: set<GroupRow>, offset: string -> int): set<int> {
    (set g | g in groups :: LocalDay(g.min, offset(g.timezone))) +
    (set g | g in groups :: LocalDay(g.max, offset(g.timezone)))
  }

  /** What getDates returns, for a day bucketing of the query. */
  function Dates(table: Table, username: string, startDate: int, endDate: int,
                 bucket: int -> int, offset: string -> int): set<int> {
    DatesOf(Groups(InRange(table, username, startDate, endDate), bucket), offset)
  }

  lemma DatesOfAdd(groups: set<GroupRow>, g: GroupRow, offset: string -> int)
    ensures DatesOf(groups + {g}, offset) ==
            DatesOf(groups, offset) + {LocalDay(g.min, offset(g.timezone)), LocalDay(g.max, offset(g.timezone))}
  {
  }

  /**
   * The result-set extractor of getDates: the result rows are visited in
   * whatever order the result set has; each adds the local date of its MIN
   * and of its MAX. A date is modelled by its day number: the code builds
   * the instant from a local year, month and day set on a calendar cleared to
   * epoch 0, so its time of day is the server zone's at epoch 0, but it is
   * still one instant per local day. `offset` gives each time zone's offset from UTC.
   */
  method ExtractDates(groups: set<GroupRow>, offset: string -> int) returns (result: set<int>)
    ensures result == DatesOf(groups, offset)
  {
    result := {};
    var remaining := groups;
    while remaining != {}
      invariant remaining <= groups
      invariant result == DatesOf(groups - remaining, offset)
      decreases |remaining|
    {
      var g :| g in remaining;
      DatesOfAdd(groups - remaining, g, offset);
      assert groups - (remaining - {g}) == (groups - remaining) + {g};
      result := result + {LocalDay(g.min, offset(g.timezone)), LocalDay(g.max, offset(g.timezone))};
      remaining := remaining - {g};
    }
    assert groups - remaining == groups;
  }

  /** Each result row adds at most two dates: the result has at most twice as many dates as groups. */
  lemma {:induction false} AtMostTwoDatesPerGroup(groups: set<GroupRow>, offset: string -> int)
    ensures |DatesOf(groups, offset)| <= 2 * |groups|
    decreases |groups|
  {
    if groups != {} {
      var g :| g in groups;
      var rest := groups - {g};
      AtMostTwoDatesPerGroup(rest, offset);
      DatesOfAdd(rest, g, offset);
      assert rest + {g} == groups;
      var pair := {LocalDay(g.min, offset(g.timezone)), LocalDay(g.max, offset(g.timezone))};
      assert |pair| <= 2;
      assert |DatesOf(rest, offset) + pair| <= |DatesOf(rest, offset)| + |pair|;
    } else {
      assert DatesOf(groups, offset) == {};
    }
  }

  /** getDates: the grouped query over the user's points in the range, then the extractor. */
  method GetDates(table: Table, startDate: int, endDate: int, username: string, offset: string -> int)
    returns (result: set<int>)
    ensures result == Dates(table, username, startDate, endDate, EpochDayBucket, offset)
  {
    var groups := Groups(InRange(table, username, startDate, endDate), EpochDayBucket);
    result := ExtractDates(groups, offset);
  }

  /** The rows of a group share its time zone and its bucket. */
  lemma GroupMembersShareKey(rows: seq<MobilityRow>, r: MobilityRow, bucket: int -> int)
    requires r in rows
    ensures var g := GroupOf(rows, r, bucket);
            && (exists m :: m in rows && KeyOf(m, bucket) == KeyOf(r, bucket) && m.epochMillis == g.min)
            && (exists m :: m in rows && KeyOf(m, bucket) == KeyOf(r, bucket) && m.epochMillis == g.max)
  {
    var members := Members(rows, KeyOf(r, bucket), bucket);
    assert r in members;
    var lo :| lo in members && lo.epochMillis == MinEpoch(members);
    var hi :| hi in members && hi.epochMillis == MaxEpoch(members);
    assert KeyOf(lo, bucket) == KeyOf(r, bucket);
    assert KeyOf(hi, bucket) == KeyOf(r, bucket);
  }

  /** The MIN and the MAX of a result row are each the epoch_millis of one of its rows. */
  lemma GroupBoundsAttained(rows: seq<MobilityRow>, g: GroupRow, bucket: int -> int)
    requires g in Groups(rows, bucket)
    ensures exists m :: m in rows && m.timezone == g.timezone && m.epochMillis == g.min
    ensures exists m :: m in rows && m.timezone == g.timezone && m.epochMillis == g.max
  {
    var r :| r in rows && g == GroupOf(rows, r, bucket);
    GroupMembersShareKey(rows, r, bucket);
  }

  /** The local date of a result row's MIN or MAX is the local date of one of its rows. */
  lemma GroupDateAttained(rows: seq<MobilityRow>, g: GroupRow, bucket: int -> int, offset: string -> int, d: int)
    requires g in Groups(rows, bucket)
    requires d == LocalDay(g.min, offset(g.timezone)) || d == LocalDay(g.max, offset(g.timezone))
    ensures exists m :: m in rows && d == LocalDay(m.epochMillis, offset(m.timezone))
  {
    GroupBoundsAttained(rows, g, bucket);
    if d == LocalDay(g.min, offset(g.timezone)) {
      var m :| m in rows && m.timezone == g.timezone && m.epochMillis == g.min;
    } else {
      var m :| m in rows && m.timezone == g.timezone && m.epochMillis == g.max;
    }
  }

  lemma InRangeMember(table: Table, username: string, startDate: int, endDate: int, m: MobilityRow)
    requires m in InRange(table, username, startDate, endDate)
    ensures m in table && OwnedBy(m, username) && startDate <= m.epochMillis <= endDate
  {
  }

  /** Every date returned is the local date of one of the user's points within the range. */
  lemma DatesComeFromPoints(table: Table, username: string, startDate: int, endDate: int,
                            bucket: int -> int, offset: string -> int, d: int)
    requires d in Dates(table, username, startDate, endDate, bucket, offset)
    ensures exists r :: r in table && OwnedBy(r, username) && startDate <= r.epochMillis <= endDate &&
                        d == LocalDay(r.epochMillis, offset(r.timezone))
  {
    var rows := InRange(table, username, startDate, endDate);
    var g :| g in Groups(rows, bucket) &&
             (d == LocalDay(g.min, offset(g.timezone)) || d == LocalDay(g.max, offset(g.timezone)));
    GroupDateAttained(rows, g, bucket, offset, d);
    var m :| m in rows && d == LocalDay(m.epochMillis, offset(m.timezone));
    InRangeMember(table, username, startDate, endDate, m);
  }

  /** Local days do not go backwards. */
  lemma LocalDayMonotone(x: int, y: int, offset: int)
    requires x <= y
    ensures LocalDay(x, offset) <= LocalDay(y, offset)
  {
  }

  /**
   * Between two instants less than a day apart, every instant shows the local
   * day of one of the two.
   */
  lemma LocalDayBetween(x: int, y: int, z: int, offset: int)
    requires x <= y <= z < x + MILLIS_PER_DAY
    ensures LocalDay(y, offset) == LocalDay(x, offset) || LocalDay(y, offset) == LocalDay(z, offset)
  {
    LocalDayMonotone(x, y, offset);
    LocalDayMonotone(y, z, offset);
  }

  /** Instants of one UTC day are less than a day apart. */
  lemma SameUtcDayClose(x: int, z: int)
    requires UtcDay(x) == UtcDay(z) && x <= z
    ensures z < x + MILLIS_PER_DAY
  {
  }

  /**
   * Grouped by UTC day, the dates cover the local date of every point of the
   * user within the range: a group spans less than a day, so each of its
   * points shows the local date of its MIN or of its MAX.
   */
  lemma DatesCoverEveryDay(table: Table, username: string, startDate: int, endDate: int,
                           offset: string -> int, r: MobilityRow)
    requires r in table && OwnedBy(r, username) && startDate <= r.epochMillis <= endDate
    ensures LocalDay(r.epochMillis, offset(r.timezone)) in Dates(table, username, startDate, endDate, UtcDay, offset)
  {
    var rows := InRange(table, username, startDate, endDate);
    assert r in rows;
    var g := GroupOf(rows, r, UtcDay);
    assert g in Groups(rows, UtcDay);
    GroupMembersShareKey(rows, r, UtcDay);
    var lo :| lo in rows && KeyOf(lo, UtcDay) == KeyOf(r, UtcDay) && lo.epochMillis == g.min;
    var hi :| hi in rows && KeyOf(hi, UtcDay) == KeyOf(r, UtcDay) && hi.epochMillis == g.max;
    SameUtcDayClose(g.min, g.max);
    LocalDayBetween(g.min, r.epochMillis, g.max, offset(r.timezone));
  }

  /** For points since 1970, the bucket of the query is the UTC day. */
  lemma EpochBucketIsUtcDaySince1970(epochMillis: int)
    requires epochMillis >= 0
    ensures EpochDayBucket(epochMillis) == UtcDay(epochMillis)
  {
  }

  /** When every row is since 1970, the query's buckets and UTC days form the same groups. */
  lemma GroupsSince1970(rows: seq<MobilityRow>)
    requires forall x :: x in rows ==> x.epochMillis >= 0
    ensures Groups(rows, EpochDayBucket) == Groups(rows, UtcDay)
  {
    forall r | r in rows
      ensures GroupOf(rows, r, EpochDayBucket) == GroupOf(rows, r, UtcDay)
    {
      WhereSame(rows, (x: MobilityRow) => KeyOf(x, EpochDayBucket) == KeyOf(r, EpochDayBucket),
                      (x: MobilityRow) => KeyOf(x, UtcDay) == KeyOf(r, UtcDay));
    }
  }

  /**
   * For a range starting no earlier than 1970, getDates as written returns
   * the local date of every point of the user within the range.
   */
  lemma GetDatesCoversSince1970(table: Table, username: string, startDate: int, endDate: int,
                                offset: string -> int, r: MobilityRow)
    requires 0 <= startDate
    requires r in table && OwnedBy(r, username) && startDate <= r.epochMillis <= endDate
    ensures LocalDay(r.epochMillis, offset(r.timezone)) in Dates(table, username, startDate, endDate, EpochDayBucket, offset)
  {
    var rows := InRange(table, username, startDate, endDate);
    forall x | x in rows
      ensures x.epochMillis >= 0
    {
      InRangeMember(table, username, startDate, endDate, x);
    }
    GroupsSince1970(rows);
    DatesCoverEveryDay(table, username, startDate, endDate, offset, r);
  }

  /** A point of user "u" in zone "z" at an instant, for the counterexample below. */
  function PointAt(uuid: string, epochMillis: int): MobilityRow {
    MobilityRow(uuid, "u", "c", epochMillis, 0, "z", Valid, None, Still, Private, None)
  }

  /** The days and buckets of the counterexample's three instants, twelve hours ahead of UTC. */
  lemma CounterexampleDays()
    ensures EpochDayBucket(-86399999) == 0 && EpochDayBucket(0) == 0 && EpochDayBucket(86399999) == 0
    ensures LocalDay(-86399999, 12 * MILLIS_PER_HOUR) == -1
    ensures LocalDay(0, 12 * MILLIS_PER_HOUR) == 0
    ensures LocalDay(86399999, 12 * MILLIS_PER_HOUR) == 1
  {
  }

  /** The counterexample's points form a single group, from its first instant to its last. */
  lemma CounterexampleGroups(table: seq<MobilityRow>)
    requires table == [PointAt("a", -86399999), PointAt("b", 0), PointAt("c", 86399999)]
    ensures Groups(InRange(table, "u", -86399999, 86399999), EpochDayBucket) == {GroupRow(-86399999, 86399999, "z")}
  {
    CounterexampleInRange(table);
    CounterexampleGroupOf(table);
    assert GroupOf(table, table[0], EpochDayBucket) in Groups(table, EpochDayBucket);
  }

  lemma CounterexampleGroupOf(table: seq<MobilityRow>)
    requires table == [PointAt("a", -86399999), PointAt("b", 0), PointAt("c", 86399999)]
    ensures forall r :: r in table ==> GroupOf(table, r, EpochDayBucket) == GroupRow(-86399999, 86399999, "z")
  {
    CounterexampleOneGroup(table);
    CounterexampleExtremes(table);
  }

  lemma CounterexampleInRange(table: seq<MobilityRow>)
    requires table == [PointAt("a", -86399999), PointAt("b", 0), PointAt("c", 86399999)]
    ensures InRange(table, "u", -86399999, 86399999) == table
  {
    WhereAll(table, (r: MobilityRow) => OwnedBy(r, "u") && -86399999 <= r.epochMillis <= 86399999);
  }

  lemma CounterexampleOneGroup(table: seq<MobilityRow>)
    requires table == [PointAt("a", -86399999), PointAt("b", 0), PointAt("c", 86399999)]
    ensures forall r :: r in table ==> Members(table, KeyOf(r, EpochDayBucket), EpochDayBucket) == table
  {
    CounterexampleDays();
    var key := GroupKey(0, "z");
    WhereAll(table, (x: MobilityRow) => KeyOf(x, EpochDayBucket) == key);
    forall r | r in table
      ensures KeyOf(r, EpochDayBucket) == key
    {
    }
  }

  lemma CounterexampleExtremes(table: seq<MobilityRow>)
    requires table == [PointAt("a", -86399999), PointAt("b", 0), PointAt("c", 86399999)]
    ensures MinEpoch(table) == -86399999 && MaxEpoch(table) == 86399999
  {
    assert table[0] in table && table[2] in table;
  }

  lemma DatesOfOne(g: GroupRow, offset: string -> int)
    ensures DatesOf({g}, offset) == {LocalDay(g.min, offset(g.timezone)), LocalDay(g.max, offset(g.timezone))}
  {
    DatesOfAdd({}, g, offset);
    assert {} + {g} == {g};
  }

  /**
   * Bucket 0 of epoch_millis DIV MILLIS_PER_DAY holds the instants of two UTC
   * days, from one day before the epoch to one day after. In a zone twelve
   * hours ahead of UTC, points at the ends and in the middle of that bucket
   * show three local days, and the middle one is neither the MIN's nor the
   * MAX's: getDates leaves out a day that has a point.
   */
  lemma EpochBucketMissesDay(table: Table, offset: string -> int)
    requires table == [PointAt("a", -86399999), PointAt("b", 0), PointAt("c", 86399999)]
    requires offset("z") == 12 * MILLIS_PER_HOUR
    ensures PointAt("b", 0) in table && OwnedBy(PointAt("b", 0), "u")
    ensures LocalDay(0, offset("z")) == 0
    ensures Dates(table, "u", -86399999, 86399999, EpochDayBucket, offset) == {-1, 1}
  {
    var group := GroupRow(-86399999, 86399999, "z");
    CounterexampleGroups(table);
    CounterexampleDays();
    DatesOfOne(group, offset);
    assert table[1] == PointAt("b", 0);
  }
}
