# ohmage core, modelled in Dafny

This project models six pieces of the ohmage server in Dafny and proves what
each one promises.

- **The Mobility point store** (`UserMobilityQueries`). The `mobility` table and its
  extended rows are a sequence of records. The model covers:
  - the insert, including the silent handling of a duplicate upload;
  - the `getIds*` queries;
  - the two point fetches, including the WHERE-clause builder of `getMobilityInformation`;
  - the last upload time;
  - the ratio of located points in a lookback window;
  - the set of local dates with data (`getDates`).
- **The document domain object** (`Documents`):
  - the `PrivacyState` and `Role` enums, with `getValue`, `toString` and `Role.compare`;
  - both constructors, as static methods that return a `Result`;
  - the role setters;
  - `equals` and `hashCode`.
- **`UserCampaignValidators.validateUserAndCampaignRole`** (`UserCampaignValidators`). It
  turns a `user;role,user;role` list into a map from each user to the set of that user's roles.
- **The request parameter checks of `AbstractHttpServletRequestValidator`** (`RequestValidator`).
- **`MultiChoiceCustomPromptValidator.validate`** (`MultiChoiceCustomPromptValidator`).
- **`JsonMsgPromptResponsesExistValidator.validate`** (`ResponsesExistValidator`).

Shared modules:
- `Wrappers` models Java null as `Option` and a thrown exception as `Result`.
- `JavaText` models these Java string operations:
  - ASCII `toUpperCase` and `toLowerCase`;
  - `StringUtils.isEmptyOrWhitespaceOnly`;
  - `String.split` on a single-character separator, which drops trailing empty strings;
  - `String.hashCode` with 32-bit wrap-around.
- `Json` holds the JSON values and the `JSONObject`/`JsonUtils` accessors the code uses.

How the model represents the source:
- **Database state.** The database is a value passed in and returned. A query is a function or a
  method over the table. A table update is a function that returns the new table, or the
  `DataAccessException` as a failure.
- **Object state.** A `Document`'s role maps and user role are fields of a Dafny class. The
  setters change them under `modifies`.
- **Loops.** Every loop in the source is a loop in the model, with invariants. This covers:
  - the key-set iterators of the parameter checks;
  - the value loop of the multi-choice validator;
  - the list loop of the role-list parser;
  - the row loops of the Mobility aggregates;
  - the role-object loops of the JSON constructor.

  Each such method is proved against a function or predicate. The lemmas are about that function.
- **String equality in SQL.** Comparison with `=` is case-insensitive (`SqlEquals`), as in the
  database's default collation. The code depends on this:
  - the insert stores the lower-cased location status;
  - `getMobilityInformation` binds the upper-case `toString()` of the location status;
  - `LocationStatusEncoding` proves that the filter selects the right rows only under
    case-insensitive comparison, and that byte-exact comparison would never match.
- **Integer division in SQL.** MySQL's `DIV` truncates toward zero (`TruncDiv`). Dafny's own
  division rounds down.
- **UUIDs.** They are compared under the same collation, both by the unique key (a duplicate
  upload is one whose UUID equals a stored one ignoring case) and by `m.uuid IN (...)`.

Where the code and its written description differ, the model follows the code:
- With a lookback of 0 hours, `getPercentageOfNonNullLocations` counts points whose time is at
  or after now. A point stamped in the future therefore gives a ratio, not null.
- `containsDuplicateParameter` is documented as finding "more than one value". The code rejects
  every count other than one, including zero.
- `getDates` puts instants into day buckets by truncating division. `GetDatesCoversSince1970`
  proves that every user point's local day is reported when the range starts at or after
  1970. `EpochBucketMissesDay` shows that this fails before 1970:
  - bucket 0 spans two UTC days there;
  - a phone twelve hours ahead of UTC has a point at local day 0;
  - that day is missing from the result.

  `DatesCoverEveryDay` proves that flooring the bucket would report every day.

## Model

| member | source | states |
|---|---|---|
| UserMobilityQueries.LocationStatusEncoding | src/org/ohmage/query/impl/UserMobilityQueries.java:768-771 | The stored lower-case status matches the bound upper-case name exactly when the two statuses are the same, under case-insensitive comparison. Byte-exact comparison never matches. |
| UserMobilityQueries.ModeEncoding | src/org/ohmage/query/impl/UserMobilityQueries.java:772-775 | The lower-cased mode the filter binds matches a stored mode exactly when the two modes are the same. |
| UserMobilityQueries.PrivacyStateEncoding | src/org/ohmage/query/impl/UserMobilityQueries.java:764-767 | The privacy state the filter binds matches a stored state exactly when the two states are the same. |
| UserMobilityQueries.CreateMobilityPoint | src/org/ohmage/query/impl/UserMobilityQueries.java:286-442 | Fails exactly on a failed insert or commit, or on a failed extended insert for a new SENSOR_DATA point. A duplicate UUID leaves the table unchanged. A new point appends exactly the row the insert writes (`NewRow`), after the unchanged earlier rows. Unique ids are preserved. |
| UserMobilityQueries.NewRow | src/org/ohmage/query/impl/UserMobilityQueries.java:319-339 | The inserted row holds the point's id, time, zone, location status, location, mode and privacy state, the uploader, the client, the database's now() as upload time, and the extended part `ExtendedRowFor` describes. |
| UserMobilityQueries.ExtendedRowFor | src/org/ohmage/query/impl/UserMobilityQueries.java:348-379 | An extended row exists exactly for SENSOR_DATA; it holds the point's sensor data, its classifier data or `{}` when there is none, and the classifier version. |
| UserMobilityQueries.CreateThenFetch | src/org/ohmage/query/impl/UserMobilityQueries.java:319-379 | A new point, once created, is fetched back by its id as exactly the row the insert wrote, field for field. |
| UserMobilityQueries.CreateTwiceKeepsOneRow | src/org/ohmage/query/impl/UserMobilityQueries.java:394-414 | Uploading the same point twice succeeds. The second upload changes nothing, and the table keeps one row for the point. |
| UserMobilityQueries.GetIds | src/org/ohmage/query/impl/UserMobilityQueries.java:76-162 | An id is returned exactly when some row of the user satisfies the query's condition and carries that id. There are never more ids than rows. |
| UserMobilityQueries.PrivacyStateQuerySelectsByValue | src/org/ohmage/query/impl/UserMobilityQueries.java:602-618 | getIdsWithPrivacyState returns exactly the ids of the user's points with that privacy state. |
| UserMobilityQueries.LocationStatusQuerySelectsByValue | src/org/ohmage/query/impl/UserMobilityQueries.java:624-640 | getIdsWithLocationStatus returns exactly the ids of the user's points with that status. |
| UserMobilityQueries.ModeQuerySelectsByValue | src/org/ohmage/query/impl/UserMobilityQueries.java:646-662 | getIdsWithMode returns exactly the ids of the user's points with that mode. |
| UserMobilityQueries.BetweenDatesIsIntersection | src/org/ohmage/query/impl/UserMobilityQueries.java:93-115 | The between-dates query returns exactly the ids that both the on-or-after and the on-or-before queries return. |
| UserMobilityQueries.SortByEpoch | src/org/ohmage/query/impl/UserMobilityQueries.java:218-219 | ORDER BY epoch_millis: the result is non-decreasing in time and a permutation of its input. |
| UserMobilityQueries.GetMobilityInformationFromIds | src/org/ohmage/query/impl/UserMobilityQueries.java:668-680 | Returns exactly the rows whose id equals one in the collection under the case-insensitive collation, each as often as it is stored, ordered by time. |
| UserMobilityQueries.AppendFilter | src/org/ohmage/query/impl/UserMobilityQueries.java:756-775 | One filter step of the builder. Its clause and parameter are appended together when the filter is given. The statement then selects exactly the rows that pass the filters considered so far. |
| UserMobilityQueries.FilteredQuery | src/org/ohmage/query/impl/UserMobilityQueries.java:752-775 | After the five filters, the statement and its parameters stand in the fixed order. The statement selects exactly the rows that pass all given filters. |
| UserMobilityQueries.BuilderStepShape | src/org/ohmage/query/impl/UserMobilityQueries.java:756-775 | A filter's clause and its parameter are appended after every earlier clause exactly when the filter is given, keeping clauses and parameters paired. |
| UserMobilityQueries.BuilderStep | src/org/ohmage/query/impl/UserMobilityQueries.java:756-775 | Appending a given filter's clause with its parameter, or skipping an absent filter, narrows the selection by exactly that filter. |
| UserMobilityQueries.OrderedShape | src/org/ohmage/query/impl/UserMobilityQueries.java:777 | Appending ORDER BY last keeps the clause order, binds no parameter and keeps each filter's fragment present exactly when the filter is given. |
| UserMobilityQueries.OrderedSelects | src/org/ohmage/query/impl/UserMobilityQueries.java:777 | Appending ORDER BY does not change which rows the statement selects: exactly the rows matching every given filter. |
| UserMobilityQueries.BuildMobilityQuery | src/org/ohmage/query/impl/UserMobilityQueries.java:752-777 | The statement starts with the base query and ends with ORDER BY. The parameter list starts with the username and gains one entry per given filter, in the order start, end, privacy state, location status, mode, each paired with its clause. The statement selects exactly the rows of the user that pass every given filter. |
| UserMobilityQueries.GetMobilityInformation | src/org/ohmage/query/impl/UserMobilityQueries.java:743-780 | Returns, ordered by time, exactly the rows that match the conjunction of the owner test and the given filters, each once per stored copy. |
| UserMobilityQueries.NoFiltersMeansOwnedOnly | src/org/ohmage/query/impl/UserMobilityQueries.java:179-192 | With no filter given, a row is selected exactly when it belongs to the user. |
| UserMobilityQueries.SortInts | src/org/ohmage/query/impl/UserMobilityQueries.java:946 | Collections.sort: the result is sorted and a permutation of the timestamps. |
| UserMobilityQueries.GetLastUploadForUser | src/org/ohmage/query/impl/UserMobilityQueries.java:932-951 | Null exactly when the user has no point. Otherwise the result is the time of one of the user's points and no point of the user is later. |
| UserMobilityQueries.NonNullCountsLocatedRows | src/org/ohmage/query/impl/UserMobilityQueries.java:994-998 | The non-null locations collected are as many as the rows that have a location. |
| UserMobilityQueries.NonNullLocationRatio | src/org/ohmage/query/impl/UserMobilityQueries.java:1004-1009 | Null exactly when no point of the user is at or after the cutoff. Otherwise the denominator is positive and the numerator does not exceed it. |
| UserMobilityQueries.RatioCountsPoints | src/org/ohmage/query/impl/UserMobilityQueries.java:991-1009 | The denominator counts the user's points at or after the cutoff. The numerator counts those among them with a location. |
| UserMobilityQueries.LongerLookbackCountsMore | src/org/ohmage/query/impl/UserMobilityQueries.java:979-981 | An earlier cutoff never counts fewer points, and never turns a ratio into null. |
| UserMobilityQueries.CollectLocations | src/org/ohmage/query/impl/UserMobilityQueries.java:983-1002 | The row loop collects the locations of exactly the user's points at or after the cutoff, in order, and separately the non-null ones. |
| UserMobilityQueries.GetPercentageOfNonNullLocations | src/org/ohmage/query/impl/UserMobilityQueries.java:974-1012 | The result is the ratio for the cutoff of now minus the given hours. |
| UserMobilityQueries.TruncDiv | src/org/ohmage/query/impl/UserMobilityQueries.java:230 | DIV rounds toward zero: for a non-negative dividend the quotient is the largest multiple not above it, for a negative one the smallest multiple not below it, so the quotient never has the opposite sign of the dividend. |
| UserMobilityQueries.TruncDivOdd | src/org/ohmage/query/impl/UserMobilityQueries.java:230 | Negating the dividend negates the quotient, which floor division does not do. |
| UserMobilityQueries.MinEpoch | src/org/ohmage/query/impl/UserMobilityQueries.java:224 | MIN(epoch_millis) is attained by some row of the group and bounds every row from below. |
| UserMobilityQueries.MaxEpoch | src/org/ohmage/query/impl/UserMobilityQueries.java:224 | MAX(epoch_millis) is attained by some row of the group and bounds every row from above. |
| UserMobilityQueries.GroupOf | src/org/ohmage/query/impl/UserMobilityQueries.java:223-230 | The result row of a point's group has the point's time zone, and its min and max enclose the point's time. |
| UserMobilityQueries.GroupMembersShareKey | src/org/ohmage/query/impl/UserMobilityQueries.java:230 | A group's min and max are attained by rows with the group's bucket and time zone. |
| UserMobilityQueries.ExtractDates | src/org/ohmage/query/impl/UserMobilityQueries.java:866-903 | The extractor's loop collects exactly the local day of every group's min and max. |
| UserMobilityQueries.AtMostTwoDatesPerGroup | src/org/ohmage/query/impl/UserMobilityQueries.java:870-903 | The result has at most twice as many dates as there are result rows. |
| UserMobilityQueries.GetDates | src/org/ohmage/query/impl/UserMobilityQueries.java:844-918 | The result is the dates of the grouped query over the user's points in the range, with buckets formed by DIV. |
| UserMobilityQueries.DatesComeFromPoints | src/org/ohmage/query/impl/UserMobilityQueries.java:223-230 | Every reported date is the local day of some point of the user within the range. |
| UserMobilityQueries.GetDatesCoversSince1970 | src/org/ohmage/query/impl/UserMobilityQueries.java:223-230 | For a range starting at or after 1970, every point of the user in the range has its local day reported. |
| UserMobilityQueries.EpochBucketIsUtcDaySince1970 | src/org/ohmage/query/impl/UserMobilityQueries.java:230 | For instants since 1970, the DIV bucket is the UTC day. |
| UserMobilityQueries.GroupsSince1970 | src/org/ohmage/query/impl/UserMobilityQueries.java:223-230 | When every point is at or after 1970, grouping by DIV bucket and by UTC day give the same groups. |
| UserMobilityQueries.DatesCoverEveryDay | src/org/ohmage/query/impl/UserMobilityQueries.java:223-230 | With groups by UTC day, every point of the user in the range has its local day reported. |
| UserMobilityQueries.EpochBucketMissesDay | src/org/ohmage/query/impl/UserMobilityQueries.java:230 | Three points around the epoch fall into one DIV bucket. A phone twelve hours ahead of UTC reports days -1 and 1, and misses day 0 of one of the user's points. |
| Documents.Role.Compare | src/org/ohmage/domain/Document.java:123-147 | 1 exactly when the other role outranks this one, 0 exactly when it is the same role, -1 exactly when it ranks lower, null ranking lowest. |
| Documents.CompareAntisymmetric | src/org/ohmage/domain/Document.java:123-147 | Swapping the two roles negates the comparison, and every role compares -1 against null. |
| Documents.CompareTransitive | src/org/ohmage/domain/Document.java:123-147 | Outranking is transitive. |
| Documents.PrivacyStateToString | src/org/ohmage/domain/Document.java:81-84 | toString is the constant's name in lower case: it has no capital letter, and upper-casing it gives the name back. |
| Documents.RoleToString | src/org/ohmage/domain/Document.java:152-155 | toString is the role's name in lower case: it has no capital letter, and upper-casing it gives the name back. |
| Documents.PrivacyStateGetValue | src/org/ohmage/domain/Document.java:74-76 | Succeeds with the constant whose name is the upper-cased text, and fails when no constant has that name. |
| Documents.RoleGetValue | src/org/ohmage/domain/Document.java:108-110 | Succeeds with the role whose name is the upper-cased text, and fails when no role has that name. |
| Documents.PrivacyStateRoundTrip | src/org/ohmage/domain/Document.java:74-84 | getValue of toString gives back the privacy state. |
| Documents.RoleRoundTrip | src/org/ohmage/domain/Document.java:108-155 | getValue of toString gives back the role. |
| Documents.GetValueIgnoresCase | src/org/ohmage/domain/Document.java:74-110 | Both getValue methods give the same answer for a text and for its upper-case and lower-case forms. |
| Documents.FieldError | src/org/ohmage/domain/Document.java:184-201 | Some check fails exactly when the id or name is blank, a required value is null, or the size is negative. A blank id is reported first. A negative size is reported only when everything else passes. |
| Documents.Document.New | src/org/ohmage/domain/Document.java:181-214 | Throws the first failing check's error. On success it stores the given values, with no user role and empty role maps. |
| Documents.Document.Init | src/org/ohmage/domain/Document.java:203-213 | Every field holds the given value. |
| Documents.UserRoleOf | src/org/ohmage/domain/Document.java:324-336 | The optional user role is set exactly when user_role is a string naming a role, ignoring case. Otherwise it stays null. |
| Documents.JsonHeaderError | src/org/ohmage/domain/Document.java:227-301 | The checks before the role loops pass exactly when the id is not blank, the info is present, and the required string, integer and campaign_role values are there, with a known privacy state. |
| Documents.ParseRoleObject | src/org/ohmage/domain/Document.java:292-305 | Succeeds exactly when every entry names a role. The result then has the object's keys, each mapped to its role. A failure reports the error of an entry that does not name a role. |
| Documents.Document.FromJson | src/org/ohmage/domain/Document.java:226-337 | Header errors come first, then the error of a campaign-role entry that names no role, then a missing class_role, then the error of a class-role entry that names no role. It succeeds exactly when both role objects are present and well formed, and a success stores every value read from the JSON. |
| Documents.JsonAcceptsWhatFieldsReject | src/org/ohmage/domain/Document.java:235-282 | The JSON constructor accepts an empty name and a negative size, which the field constructor rejects. |
| Documents.Document.SetUserRole | src/org/ohmage/domain/Document.java:418-424 | A null role throws and changes nothing. Any other role becomes the user role, and nothing else changes. |
| Documents.Document.AddCampaignRole | src/org/ohmage/domain/Document.java:450-459 | A null id or role throws and changes nothing. Otherwise the role replaces the campaign's entry, the previous role (or null) is returned, and nothing else changes. |
| Documents.Document.AddClassRole | src/org/ohmage/domain/Document.java:487-496 | The same as for campaigns, on the class map. |
| Documents.Document.HashCode | src/org/ohmage/domain/Document.java:543-549 | The hash is a 32-bit integer. |
| Documents.Document.Equals | src/org/ohmage/domain/Document.java:557-571 | Another document equals this one exactly when it is not null and has the same id; being the same object is a special case. |
| Documents.EqualsByIdOnly | src/org/ohmage/domain/Document.java:557-571 | equals is reflexive, symmetric and transitive, holds exactly when the ids are equal, and is false for null. |
| Documents.EqualDocumentsHashAlike | src/org/ohmage/domain/Document.java:543-571 | Equal documents have equal hash codes. |
| UserCampaignValidators.ValidateUserAndCampaignRole | src/org/ohmage/validator/UserCampaignValidators.java:52-102 | A null or blank list gives null. Otherwise the loop's outcome is that of processing the items in order: the first failure is thrown, an empty map becomes null, and any other map is returned. |
| UserCampaignValidators.Collect | src/org/ohmage/validator/UserCampaignValidators.java:66-93 | The loop over the items as a fold: a failure is always caused by some non-empty item, and a list of empty items only gives the empty map. |
| UserCampaignValidators.AddRole | src/org/ohmage/validator/UserCampaignValidators.java:86-91 | Adding a role keeps every other user's roles, creates the user's set on first use, and adds the role to it. |
| UserCampaignValidators.Step | src/org/ohmage/validator/UserCampaignValidators.java:66-92 | An empty item is skipped. A non-empty item that is not a pair fails with CAMPAIGN_INVALID_ROLE. |
| UserCampaignValidators.FailureSticks | src/org/ohmage/validator/UserCampaignValidators.java:76-80 | Once an item has failed, the later items change nothing. |
| UserCampaignValidators.BadPairFails | src/org/ohmage/validator/UserCampaignValidators.java:76-80 | The first non-pair item after successful items fails the whole list with CAMPAIGN_INVALID_ROLE for that item. |
| UserCampaignValidators.EmptyItemsSkipped | src/org/ohmage/validator/UserCampaignValidators.java:68-70 | Removing the empty items does not change the outcome. |
| UserCampaignValidators.ResultComesFromPairs | src/org/ohmage/validator/UserCampaignValidators.java:71-92 | Every user and role in the result comes from some well-formed item. |
| UserCampaignValidators.EveryPairCollected | src/org/ohmage/validator/UserCampaignValidators.java:83-92 | Every well-formed item's validated user is in the result, with the item's validated role in the user's set. |
| UserCampaignValidators.StepKeeps | src/org/ohmage/validator/UserCampaignValidators.java:86-92 | A successful item keeps every user and role already collected, and adds its own. |
| UserCampaignValidators.NonPairFails | src/org/ohmage/validator/UserCampaignValidators.java:71-84 | In a list processed without failure, every non-empty item is a pair whose user and role both validated. |
| UserCampaignValidators.EmptyResultMeansNoPairs | src/org/ohmage/validator/UserCampaignValidators.java:96-101 | In a list processed without failure, the map is empty (so null is returned) exactly when every item is empty. |
| UserCampaignValidators.NonEmptyRoleSets | src/org/ohmage/validator/UserCampaignValidators.java:86-92 | Every user in the map has at least one role. |
| UserCampaignValidators.RepeatedPairCollapses | src/org/ohmage/validator/UserCampaignValidators.java:86-92 | Repeating an item right after itself changes nothing: roles form a set. |
| RequestValidator.ContainsDuplicateParameter | src/org/ohmage/jee/servlet/validator/AbstractHttpServletRequestValidator.java:77-91 | True exactly when some parameter has other than exactly one value, zero included. |
| RequestValidator.ContainsUnknownParameter | src/org/ohmage/jee/servlet/validator/AbstractHttpServletRequestValidator.java:96-109 | True exactly when some parameter name is not in the name list. |
| RequestValidator.BasicValidation | src/org/ohmage/jee/servlet/validator/AbstractHttpServletRequestValidator.java:39-57 | True exactly when the sizes agree, no parameter has other than one value, and no name is unknown. Equivalently, the names are distinct, the parameter names are exactly the listed names, and each has one value. |
| RequestValidator.AcceptsExactlyTheNames | src/org/ohmage/jee/servlet/validator/AbstractHttpServletRequestValidator.java:40-54 | The three checks together hold exactly when no name repeats, no expected parameter is missing, none is extra, and each has one value. A name list with a repeat can never pass. |
| RequestValidator.NameSetSize | src/org/ohmage/jee/servlet/validator/AbstractHttpServletRequestValidator.java:41 | A name list has at most as many distinct names as entries, and exactly as many when no name repeats. |
| RequestValidator.GreaterThanLength | src/org/ohmage/jee/servlet/validator/AbstractHttpServletRequestValidator.java:63-72 | Null is never too long. A non-null value is too long exactly when cutting it to the limit would shorten it, and always when the limit is negative. |
| RequestValidator.GreaterThanLengthMonotone | src/org/ohmage/jee/servlet/validator/AbstractHttpServletRequestValidator.java:63-72 | A value too long for a limit is too long for every smaller limit, and null is never too long. |
| MultiChoiceCustomPromptValidator.Validate | src/org/ohmage/validator/prompt/MultiChoiceCustomPromptValidator.java:40-83 | A response that is not displayed is valid. A skipped one is valid exactly when its skip is valid. A missing value array, missing custom_choices or invalid choices give false. Otherwise the response is valid exactly when every value is an integer in the choice set. |
| MultiChoiceCustomPromptValidator.ChosenIntegers | src/org/ohmage/validator/prompt/MultiChoiceCustomPromptValidator.java:66-80 | The integers chosen are exactly the integer values of the array. |
| MultiChoiceCustomPromptValidator.AllChosenMeansSubset | src/org/ohmage/validator/prompt/MultiChoiceCustomPromptValidator.java:66-82 | The value loop passes exactly when every value is an integer and the chosen integers are a subset of the choices. |
| MultiChoiceCustomPromptValidator.AllChosenIgnoresOrder | src/org/ohmage/validator/prompt/MultiChoiceCustomPromptValidator.java:66-82 | Reordering or repeating chosen values does not change the verdict. |
| MultiChoiceCustomPromptValidator.EmptyChoiceAccepted | src/org/ohmage/validator/prompt/MultiChoiceCustomPromptValidator.java:66-82 | An empty value array passes, and values that pass a choice set pass any larger one. |
| ResponsesExistValidator.Validate | src/edu/ucla/cens/awserver/validator/JsonMsgPromptResponsesExistValidator.java:25-34 | Valid exactly when responses is an array with at least one element. The request is annotated with the fixed message exactly when the result is false. |
| ResponsesExistValidator.AddingAResponseValidates | src/edu/ucla/cens/awserver/validator/JsonMsgPromptResponsesExistValidator.java:26-33 | Adding an element to a responses array makes the message valid. |
| ResponsesExistValidator.OnlyResponsesMatter | src/edu/ucla/cens/awserver/validator/JsonMsgPromptResponsesExistValidator.java:15-33 | Keys other than responses never change the verdict or the annotation. |

## Left out

- **JDBC, Spring and transactions.** PreparedStatements, key holders, the transaction manager, commit and rollback are not modelled. A failing insert, extended insert or commit is a parameter of `CreateMobilityPoint` (`StoreFault`). A duplicate key is the point's UUID already being in the table.
- **Row mappers.** They parse JSON columns into domain objects (`MobilityPoint`, `Location`, `SensorData`, `ClassifierData`). The model returns the stored rows themselves, with locations and sensor data as opaque strings. `MobilityPoint.java` is not part of this model: an enum constant's `toString()` is taken to be its Java name.
- **Upload timestamps.** They are plain integers compared with `<=` and `>=`. The ISO 8601 strings produced by `TimeUtils` are not modelled.
- **Privacy state column.** The insert stores the state as `privacy_state_id`, looked up by the state's name in `mobility_privacy_state`, and the fetches join on that id. The privacy-state filters, however, compare a column `m.privacy_state` that the insert never writes. The model has a single privacy-state column, used by both.
- UserMobilityQueries.GetMobilityInformationFromIds: does not model an empty id collection producing `IN ()`, which the database rejects. The model returns no rows in that case.
- **Floating point.** `getPercentageOfNonNullLocations` returns the two counts (`Ratio`), not the `Double` quotient.
- **The clock.** "Now" in `getPercentageOfNonNullLocations` is a parameter.
- **Calendar and time zones.**
  - A time zone's offset from UTC is a parameter (`offset`), fixed for each zone. Daylight saving time and the zone database are not modelled.
  - A date in `getDates` is represented by its local day number.
  - `GROUP BY` on the time zone compares zone ids exactly.
- UserMobilityQueries.GetLastUploadForUser: `Collections.sort` on the list in place is modelled as sorting a sequence value.
- **Unseen validators and separators.** `UserValidators.validateUsername` and `CampaignValidators.validateRole` are function parameters. The `InputKeys` separators are parameters too, taken to be single characters that are not regex metacharacters, since `String.split` takes a regular expression. `Request.setFailed` is represented by the error value.
- **Inherited prompt checks.** `isNotDisplayed`, `isSkipped`, `isValidSkipped` and `validateCustomChoices` of `AbstractCustomChoicePromptValidator` are function parameters. The `Prompt` object is not modelled.
- **JSON number coercion.** org.json coerces numeric strings and doubles to integers; the model does not. An integer is exactly a JSON integer, and a string is exactly a JSON string.
- **Text.** Case mapping covers ASCII letters only. `String.length` counts characters, not UTF-16 code units.
- **`StringUtils.decodeDateTime`.** It is a function parameter of `FromJson`.
- **Document parts not modelled.**
  - `Document.toJsonObject` is not modelled.
  - The getters are not modelled.
  - The unmodifiable map views the getters return are not modelled.
- **Logging.** All logging and the text of exception messages are left out. That includes the `getIdsCreatedBetweenDates` error message, which names the wrong SQL statement.
- **`getParameterMap`.** It is an unchecked cast of the servlet API's map, and is not modelled.
