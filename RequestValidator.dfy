/**
 * AbstractHttpServletRequestValidator: the common checks on a request's
 * parameter map, a map from each parameter name to the array of values sent
 * under it. Logging is left out.
 */
module RequestValidator {
  import opened Wrappers

  type ParameterMap = map<string, seq<string>>

  /** Some parameter was sent with other than exactly one value (none counts too). */
  predicate HasDuplicate(parameterMap: ParameterMap) {
    exists key :: key in parameterMap && |parameterMap[key]| != 1
  }

  /** Some parameter's name is not one of the expected names. */
  predicate HasUnknown(parameterMap: ParameterMap, nameList: seq<string>) {
    exists key :: key in parameterMap && key !in nameList
  }

  /** What basicValidation accepts: as many parameters as names, none repeated, none unknown. */
  predicate Accepts(parameterMap: ParameterMap, nameList: seq<string>) {
    |parameterMap| == |nameList| && !HasDuplicate(parameterMap) && !HasUnknown(parameterMap, nameList)
  }

  /** The names of a list, as a set. */
  function NameSet(nameList: seq<string>): set<string> {
    set name | name in nameList
  }

  predicate Distinct(nameList: seq<string>) {
    forall i, j :: 0 <= i < j < |nameList| ==> nameList[i] != nameList[j]
  }

  /**
   * containsDuplicateParameter: walks the key set and stops at the first key
   * whose value array does not hold exactly one value. The name list is not
   * consulted.
   */
  method ContainsDuplicateParameter(parameterMap: ParameterMap, nameList: seq<string>) returns (r: bool)
    ensures r <==> HasDuplicate(parameterMap)
  {
    var keys := parameterMap.Keys;
    while keys != {}
      invariant keys <= parameterMap.Keys
      invariant forall key :: key in parameterMap && key !in keys ==> |parameterMap[key]| == 1
      decreases keys
    {
      var key :| key in keys;
      if |parameterMap[key]| != 1 {
        return true;
      }
      keys := keys - {key};
    }
    return false;
  }

  /** containsUnknownParameter: walks the key set and stops at the first key not in the name list. */
  method ContainsUnknownParameter(parameterMap: ParameterMap, nameList: seq<string>) returns (r: bool)
    ensures r <==> HasUnknown(parameterMap, nameList)
  {
    var keys := parameterMap.Keys;
    while keys != {}
      invariant keys <= parameterMap.Keys
      invariant forall key :: key in parameterMap && key !in keys ==> key in nameList
      decreases keys
    {
      var key :| key in keys;
      if key !in nameList {
        return true;
      }
      keys := keys - {key};
    }
    return false;
  }

  /** basicValidation: the count check first, then the duplicate check, then the unknown-name check. */
  method BasicValidation(parameterMap: ParameterMap, nameList: seq<string>) returns (r: bool)
    ensures r <==> Accepts(parameterMap, nameList)
    ensures r <==> Distinct(nameList) && parameterMap.Keys == NameSet(nameList) &&
                   forall key :: key in parameterMap ==> |parameterMap[key]| == 1
  {
    AcceptsExactlyTheNames(parameterMap, nameList);
    if |parameterMap| != |nameList| {
      return false;
    }
    var duplicate := ContainsDuplicateParameter(parameterMap, nameList);
    if duplicate {
      return false;
    }
    var unknown := ContainsUnknownParameter(parameterMap, nameList);
    if unknown {
      return false;
    }
    return true;
  }

  /**
   * greaterThanLength: a non-null value longer than the limit, that is, one
   * that cutting to the limit would shorten. A negative limit makes every
   * non-null value too long.
   */
  function GreaterThanLength(value: Option<string>, length: int): (r: bool)
    ensures value.None? ==> !r
    ensures value.Some? && length < 0 ==> r
    ensures value.Some? && 0 <= length ==> (r <==> value.value[..Min(length, |value.value|)] != value.value)
  {
    value.Some? && |value.value| > length
  }

  function Min(a: int, b: int): int {
    if a <= b then a else b
  }

  /** A value within a limit is within every larger limit, and null is never too long. */
  lemma GreaterThanLengthMonotone(value: Option<string>, length: int, larger: int)
    requires length <= larger
    ensures GreaterThanLength(value, larger) ==> GreaterThanLength(value, length)
    ensures !GreaterThanLength(None, length)
  {
  }

  /** A list has at most as many distinct names as entries, and exactly as many when no name repeats. */
  lemma {:induction false} NameSetSize(nameList: seq<string>)
    ensures |NameSet(nameList)| <= |nameList|
    ensures |NameSet(nameList)| == |nameList| <==> Distinct(nameList)
  {
    if nameList != [] {
      var rest := nameList[1..];
      NameSetSize(rest);
      assert NameSet(nameList) == {nameList[0]} + NameSet(rest);
      if nameList[0] in rest {
        assert NameSet(nameList) == NameSet(rest);
        var j :| 0 <= j < |rest| && rest[j] == nameList[0];
        assert nameList[0] == nameList[j + 1];
      } else {
        assert NameSet(nameList) == NameSet(rest) + {nameList[0]};
        if Distinct(rest) {
          forall i, j | 0 <= i < j < |nameList|
            ensures nameList[i] != nameList[j]
          {
            if i > 0 {
              assert nameList[i] == rest[i - 1] && nameList[j] == rest[j - 1];
            } else {
              assert nameList[j] == rest[j - 1];
            }
          }
        }
        if Distinct(nameList) {
          forall i, j | 0 <= i < j < |rest|
            ensures rest[i] != rest[j]
          {
            assert rest[i] == nameList[i + 1] && rest[j] == nameList[j + 1];
          }
        }
      }
    } else {
      assert NameSet(nameList) == {};
    }
  }

  /**
   * The count check together with the unknown-name check makes the parameter
   * names exactly the expected names: nothing is missing and nothing is extra.
   * A name list that repeats a name can never be met.
   */
  lemma AcceptsExactlyTheNames(parameterMap: ParameterMap, nameList: seq<string>)
    ensures Accepts(parameterMap, nameList) <==>
              Distinct(nameList) && parameterMap.Keys == NameSet(nameList) &&
              forall key :: key in parameterMap ==> |parameterMap[key]| == 1
  {
    NameSetSize(nameList);
    var names := NameSet(nameList);
    if Accepts(parameterMap, nameList) {
      assert parameterMap.Keys <= names;
      SubsetOfSameSize(parameterMap.Keys, names);
    }
    if Distinct(nameList) && parameterMap.Keys == names {
      assert |parameterMap| == |parameterMap.Keys|;
    }
  }

  /** A subset at least as large as its superset is the superset. */
  lemma SubsetOfSameSize(a: set<string>, b: set<string>)
    requires a <= b && |b| <= |a|
    ensures a == b
  {
    assert |b - a| == |b| - |a|;
  }
}
