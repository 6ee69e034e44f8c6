/**
 * validateUserAndCampaignRole: a list of `username<pair separator>role` items
 * separated by the list separator becomes a map from each validated username
 * to the set of its validated roles.
 *
 * The two separators (InputKeys) and the username and role validators
 * (UserValidators.validateUsername, CampaignValidators.validateRole) are
 * parameters; a validator returns a value, possibly null, or fails.
 */
module UserCampaignValidators {
  import opened Wrappers
  import opened JavaText

  /** A ValidationException: an item that is not a pair, or a validator's own rejection. */
  datatype ValidationError =
    | CampaignInvalidRole(item: string)  // the request is marked failed with CAMPAIGN_INVALID_ROLE
    | Rejected(detail: string)

  type Validator = string -> Result<Option<string>, ValidationError>

  /** The map being built: a username (possibly null) to its set of roles (possibly null). */
  type RoleMap = map<Option<string>, set<Option<string>>>

  /** Adds one role to a user's set, creating the set on the user's first pair. */
  function AddRole(m: RoleMap, user: Option<string>, role: Option<string>): (m': RoleMap)
    ensures m'.Keys == m.Keys + {user}
    ensures m'[user] == (if user in m then m[user] else {}) + {role}
    ensures forall u :: u in m && u != user ==> m'[u] == m[u]
  {
    m[user := (if user in m then m[user] else {}) + {role}]
  }

  /** Whether an item is a pair: non-empty and made of exactly two pieces. */
  predicate IsPair(item: string, pairSep: char) {
    item != "" && |Split(item, pairSep)| == 2
  }

  /** One pass of the loop body over an item. */
  function Step(m: RoleMap, item: string, pairSep: char, validateUsername: Validator, validateRole: Validator)
    : (r: Result<RoleMap, ValidationError>)
    ensures item == "" ==> r == Success(m)
    ensures item != "" && !IsPair(item, pairSep) ==> r == Failure(CampaignInvalidRole(item))
  {
    if item == "" then Success(m)
    else
      var pair := Split(item, pairSep);
      if |pair| != 2 then Failure(CampaignInvalidRole(item))
      else match validateUsername(pair[0])
        case Failure(e) => Failure(e)
        case Success(user) =>
          match validateRole(pair[1])
          case Failure(e) => Failure(e)
          case Success(role) => Success(AddRole(m, user, role))
  }

  /** The loop over the items: every item in turn, stopping at the first failure. */
  function Collect(items: seq<string>, pairSep: char, validateUsername: Validator, validateRole: Validator)
    : (r: Result<RoleMap, ValidationError>)
    ensures r.Failure? ==> exists k :: 0 <= k < |items| && items[k] != ""
    ensures (forall k :: 0 <= k < |items| ==> items[k] == "") ==> r == Success(map[])
  {
    if items == [] then Success(map[])
    else
      var before := Collect(items[..|items| - 1], pairSep, validateUsername, validateRole);
      if before.Failure? then before
      else Step(before.value, items[|items| - 1], pairSep, validateUsername, validateRole)
  }

  /** The user and the role a well-formed item contributes. */
  predicate Contributes(item: string, pairSep: char, validateUsername: Validator, validateRole: Validator,
                        user: Option<string>, role: Option<string>)
  {
    IsPair(item, pairSep) &&
    validateUsername(Split(item, pairSep)[0]) == Success(user) &&
    validateRole(Split(item, pairSep)[1]) == Success(role)
  }

  /**
   * validateUserAndCampaignRole: null for a null, empty or whitespace-only
   * list; otherwise the items are processed in order, and a map with no user
   * is returned as null.
   */
  method ValidateUserAndCampaignRole(list: Option<string>, listSep: char, pairSep: char,
                                     validateUsername: Validator, validateRole: Validator)
    returns (r: Result<Option<RoleMap>, ValidationError>)
    ensures IsEmptyOrWhitespaceOnly(list) ==> r == Success(None)
    ensures !IsEmptyOrWhitespaceOnly(list) ==>
              var collected := Collect(Split(list.value, listSep), pairSep, validateUsername, validateRole);
              && (collected.Failure? ==> r == Failure(collected.error))
              && (collected.Success? ==> r == Success(if |collected.value| == 0 then None else Some(collected.value)))
  {
    if IsEmptyOrWhitespaceOnly(list) {
      return Success(None);
    }
    var result: RoleMap := map[];
    var items := Split(list.value, listSep);
    for i := 0 to |items|
      invariant Collect(items[..i], pairSep, validateUsername, validateRole) == Success(result)
    {
      CollectNext(items, i, pairSep, validateUsername, validateRole);
      var item := items[i];
      if item != "" {
        var pair := Split(item, pairSep);
        if |pair| != 2 {
          FailureSticks(items, i + 1, pairSep, validateUsername, validateRole);
          return Failure(CampaignInvalidRole(item));
        }
        var user := validateUsername(pair[0]);
        if user.Failure? {
          FailureSticks(items, i + 1, pairSep, validateUsername, validateRole);
          return Failure(user.error);
        }
        var role := validateRole(pair[1]);
        if role.Failure? {
          FailureSticks(items, i + 1, pairSep, validateUsername, validateRole);
          return Failure(role.error);
        }
        result := AddRole(result, user.value, role.value);
      }
    }
    assert items[..|items|] == items;
    if |result| == 0 {
      return Success(None);
    }
    return Success(Some(result));
  }

  /** The loop over one more item is one more step after the loop over the earlier ones. */
  lemma CollectNext(items: seq<string>, i: nat, pairSep: char, validateUsername: Validator, validateRole: Validator)
    requires i < |items|
    ensures var before := Collect(items[..i], pairSep, validateUsername, validateRole);
            Collect(items[..i + 1], pairSep, validateUsername, validateRole) ==
            if before.Failure? then before else Step(before.value, items[i], pairSep, validateUsername, validateRole)
  {
    assert items[..i + 1][..i] == items[..i];
  }

  /** Once the loop has failed, the later items change nothing. */
  lemma {:induction false} FailureSticks(items: seq<string>, i: nat, pairSep: char,
                                         validateUsername: Validator, validateRole: Validator)
    requires i <= |items|
    requires Collect(items[..i], pairSep, validateUsername, validateRole).Failure?
    ensures Collect(items, pairSep, validateUsername, validateRole) ==
            Collect(items[..i], pairSep, validateUsername, validateRole)
    decreases |items| - i
  {
    if i < |items| {
      assert items[..i + 1][..i] == items[..i];
      FailureSticks(items, i + 1, pairSep, validateUsername, validateRole);
    } else {
      assert items[..i] == items;
    }
  }

  /**
   * The first item that is not a pair, after items that all passed, fails
   * the whole list with CAMPAIGN_INVALID_ROLE.
   */
  lemma BadPairFails(items: seq<string>, i: nat, pairSep: char, validateUsername: Validator, validateRole: Validator)
    requires i < |items|
    requires Collect(items[..i], pairSep, validateUsername, validateRole).Success?
    requires items[i] != "" && !IsPair(items[i], pairSep)
    ensures Collect(items, pairSep, validateUsername, validateRole) == Failure(CampaignInvalidRole(items[i]))
  {
    CollectNext(items, i, pairSep, validateUsername, validateRole);
    FailureSticks(items, i + 1, pairSep, validateUsername, validateRole);
  }

  function NonEmpty(items: seq<string>): (r: seq<string>)
    ensures forall k :: 0 <= k < |r| ==> r[k] != ""
  {
    if items == [] then []
    else NonEmpty(items[..|items| - 1]) + (if items[|items| - 1] == "" then [] else [items[|items| - 1]])
  }

  /** Empty items, such as two list separators in a row, are skipped without error. */
  lemma {:induction false} EmptyItemsSkipped(items: seq<string>, pairSep: char,
                                             validateUsername: Validator, validateRole: Validator)
    ensures Collect(NonEmpty(items), pairSep, validateUsername, validateRole) ==
            Collect(items, pairSep, validateUsername, validateRole)
  {
    if items != [] {
      var init := items[..|items| - 1];
      var last := items[|items| - 1];
      EmptyItemsSkipped(init, pairSep, validateUsername, validateRole);
      if last != "" {
        var kept := NonEmpty(init) + [last];
        assert NonEmpty(items) == kept;
        assert kept[..|kept| - 1] == NonEmpty(init);
        assert kept[|kept| - 1] == last;
      } else {
        assert NonEmpty(items) == NonEmpty(init);
      }
    }
  }

  /** Every user and every role in the result comes from some well-formed item. */
  lemma {:induction false} ResultComesFromPairs(items: seq<string>, pairSep: char,
                                                validateUsername: Validator, validateRole: Validator)
    requires Collect(items, pairSep, validateUsername, validateRole).Success?
    ensures var m := Collect(items, pairSep, validateUsername, validateRole).value;
            forall u, x :: u in m && x in m[u] ==>
              exists k :: 0 <= k < |items| && Contributes(items[k], pairSep, validateUsername, validateRole, u, x)
  {
    if items != [] {
      var init := items[..|items| - 1];
      ResultComesFromPairs(init, pairSep, validateUsername, validateRole);
      var m := Collect(items, pairSep, validateUsername, validateRole).value;
      var before := Collect(init, pairSep, validateUsername, validateRole).value;
      forall u, x | u in m && x in m[u]
        ensures exists k :: 0 <= k < |items| && Contributes(items[k], pairSep, validateUsername, validateRole, u, x)
      {
        if u in before && x in before[u] {
          var k :| 0 <= k < |init| && Contributes(init[k], pairSep, validateUsername, validateRole, u, x);
          assert items[k] == init[k];
        } else {
          assert Contributes(items[|items| - 1], pairSep, validateUsername, validateRole, u, x);
        }
      }
    }
  }

  /** The user of a well-formed item is in the map, with that item's role in its set. */
  ghost predicate Holds(m: RoleMap, item: string, pairSep: char, validateUsername: Validator, validateRole: Validator) {
    forall u, x {:trigger Contributes(item, pairSep, validateUsername, validateRole, u, x)} ::
      Contributes(item, pairSep, validateUsername, validateRole, u, x) ==> u in m && x in m[u]
  }

  /** Every well-formed item's user is in the result, with that item's role in its set. */
  lemma {:induction false} EveryPairCollected(items: seq<string>, pairSep: char,
                                              validateUsername: Validator, validateRole: Validator)
    requires Collect(items, pairSep, validateUsername, validateRole).Success?
    ensures forall k :: 0 <= k < |items| ==>
              Holds(Collect(items, pairSep, validateUsername, validateRole).value, items[k],
                    pairSep, validateUsername, validateRole)
  {
    if items != [] {
      var init := items[..|items| - 1];
      var last := items[|items| - 1];
      EveryPairCollected(init, pairSep, validateUsername, validateRole);
      var m := Collect(items, pairSep, validateUsername, validateRole).value;
      var before := Collect(init, pairSep, validateUsername, validateRole).value;
      assert m == Step(before, last, pairSep, validateUsername, validateRole).value;
      StepKeeps(before, last, pairSep, validateUsername, validateRole);
      AllHoldGrow(before, m, init, pairSep, validateUsername, validateRole);
      forall k | 0 <= k < |items|
        ensures Holds(m, items[k], pairSep, validateUsername, validateRole)
      {
        if k < |init| {
          assert items[k] == init[k];
        } else {
          assert items[k] == last;
        }
      }
    }
  }

  /** What a map holds for each of some items, a larger map holds too. */
  lemma AllHoldGrow(m: RoleMap, m': RoleMap, items: seq<string>, pairSep: char,
                    validateUsername: Validator, validateRole: Validator)
    requires forall u :: u in m ==> u in m' && m[u] <= m'[u]
    requires forall k :: 0 <= k < |items| ==> Holds(m, items[k], pairSep, validateUsername, validateRole)
    ensures forall k :: 0 <= k < |items| ==> Holds(m', items[k], pairSep, validateUsername, validateRole)
  {
    forall k | 0 <= k < |items|
      ensures Holds(m', items[k], pairSep, validateUsername, validateRole)
    {
      HoldsGrows(m, m', items[k], pairSep, validateUsername, validateRole);
    }
  }

  /** What a map holds for an item, a larger map holds too. */
  lemma HoldsGrows(m: RoleMap, m': RoleMap, item: string, pairSep: char,
                   validateUsername: Validator, validateRole: Validator)
    requires forall u :: u in m ==> u in m' && m[u] <= m'[u]
    requires Holds(m, item, pairSep, validateUsername, validateRole)
    ensures Holds(m', item, pairSep, validateUsername, validateRole)
  {
  }

  /** A successful step keeps every user and role already collected, and adds the item's own. */
  lemma StepKeeps(m: RoleMap, item: string, pairSep: char, validateUsername: Validator, validateRole: Validator)
    requires Step(m, item, pairSep, validateUsername, validateRole).Success?
    ensures var m' := Step(m, item, pairSep, validateUsername, validateRole).value;
            && (forall u :: u in m ==> u in m' && m[u] <= m'[u])
            && Holds(m', item, pairSep, validateUsername, validateRole)
  {
  }

  /** With the list processed successfully, the map is empty exactly when no item is a pair. */
  lemma EmptyResultMeansNoPairs(items: seq<string>, pairSep: char, validateUsername: Validator, validateRole: Validator)
    requires Collect(items, pairSep, validateUsername, validateRole).Success?
    ensures |Collect(items, pairSep, validateUsername, validateRole).value| == 0 <==>
            forall k :: 0 <= k < |items| ==> items[k] == ""
  {
    var m := Collect(items, pairSep, validateUsername, validateRole).value;
    ResultComesFromPairs(items, pairSep, validateUsername, validateRole);
    EveryPairCollected(items, pairSep, validateUsername, validateRole);
    forall k | 0 <= k < |items| && items[k] != ""
      ensures |m| > 0
    {
      NonPairFails(items, k, pairSep, validateUsername, validateRole);
      var u, x :| Contributes(items[k], pairSep, validateUsername, validateRole, u, x);
      assert u in m;
    }
    if |m| > 0 {
      var u :| u in m;
      NonEmptyRoleSets(items, pairSep, validateUsername, validateRole);
      var x :| x in m[u];
      var k :| 0 <= k < |items| && Contributes(items[k], pairSep, validateUsername, validateRole, u, x);
      assert items[k] != "";
    }
  }

  /** In a list processed successfully, every non-empty item is a pair whose validators both succeeded. */
  lemma {:induction false} NonPairFails(items: seq<string>, k: nat, pairSep: char,
                                        validateUsername: Validator, validateRole: Validator)
    requires Collect(items, pairSep, validateUsername, validateRole).Success?
    requires k < |items| && items[k] != ""
    ensures exists u, x :: Contributes(items[k], pairSep, validateUsername, validateRole, u, x)
  {
    var init := items[..|items| - 1];
    if k < |init| {
      assert init[k] == items[k];
      NonPairFails(init, k, pairSep, validateUsername, validateRole);
    } else {
      var pair := Split(items[k], pairSep);
      var u := validateUsername(pair[0]).value;
      var x := validateRole(pair[1]).value;
      assert Contributes(items[k], pairSep, validateUsername, validateRole, u, x);
    }
  }

  /** Every user in the map has at least one role. */
  lemma {:induction false} NonEmptyRoleSets(items: seq<string>, pairSep: char,
                                            validateUsername: Validator, validateRole: Validator)
    requires Collect(items, pairSep, validateUsername, validateRole).Success?
    ensures var m := Collect(items, pairSep, validateUsername, validateRole).value;
            forall u :: u in m ==> m[u] != {}
  {
    if items != [] {
      NonEmptyRoleSets(items[..|items| - 1], pairSep, validateUsername, validateRole);
    }
  }

  /** A pair repeated right after itself adds nothing: the roles form a set. */
  lemma RepeatedPairCollapses(items: seq<string>, item: string, pairSep: char,
                              validateUsername: Validator, validateRole: Validator)
    ensures Collect(items + [item, item], pairSep, validateUsername, validateRole) ==
            Collect(items + [item], pairSep, validateUsername, validateRole)
  {
    CollectSnoc(items, item, pairSep, validateUsername, validateRole);
    CollectSnoc(items + [item], item, pairSep, validateUsername, validateRole);
    assert items + [item] + [item] == items + [item, item];
    var once := Collect(items + [item], pairSep, validateUsername, validateRole);
    if once.Success? {
      StepTwice(Collect(items, pairSep, validateUsername, validateRole).value, item,
                pairSep, validateUsername, validateRole);
    }
  }

  /** The loop over a list with one more item at its end. */
  lemma CollectSnoc(items: seq<string>, item: string, pairSep: char,
                    validateUsername: Validator, validateRole: Validator)
    ensures var before := Collect(items, pairSep, validateUsername, validateRole);
            Collect(items + [item], pairSep, validateUsername, validateRole) ==
            if before.Failure? then before else Step(before.value, item, pairSep, validateUsername, validateRole)
  {
    assert (items + [item])[..|items|] == items;
  }

  /** A successful step over an item, taken again over the same item, changes nothing. */
  lemma StepTwice(m: RoleMap, item: string, pairSep: char, validateUsername: Validator, validateRole: Validator)
    requires Step(m, item, pairSep, validateUsername, validateRole).Success?
    ensures var once := Step(m, item, pairSep, validateUsername, validateRole).value;
            Step(once, item, pairSep, validateUsername, validateRole) == Success(once)
  {
    if item != "" {
      var pair := Split(item, pairSep);
      var u, x := validateUsername(pair[0]).value, validateRole(pair[1]).value;
      assert AddRole(AddRole(m, u, x), u, x) == AddRole(m, u, x);
    }
  }
}
