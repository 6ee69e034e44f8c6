/**
 * MultiChoiceCustomPromptValidator.validate: a multi_choice_custom prompt
 * response is valid when every value the user chose is one of the custom
 * choices the response itself configures.
 *
 * The checks inherited from AbstractCustomChoicePromptValidator
 * (isNotDisplayed, isSkipped, isValidSkipped, validateCustomChoices) belong
 * to code outside this model; they are parameters, already applied to the
 * prompt. Logging is left out.
 */
module MultiChoiceCustomPromptValidator {
  import opened Wrappers
  import opened Json

  /** The inherited checks, for one prompt. validateCustomChoices yields null (None) for invalid choices. */
  datatype Inherited = Inherited(
    isNotDisplayed: JsonObject -> bool,
    isSkipped: JsonObject -> bool,
    isValidSkipped: JsonObject -> bool,
    validateCustomChoices: seq<JsonValue> -> Option<set<int>>)

  /** Every chosen value is an integer among the choices. */
  predicate AllChosen(values: seq<JsonValue>, choiceSet: set<int>) {
    forall j :: 0 <= j < |values| ==> values[j].JInt? && values[j].i in choiceSet
  }

  /** The integers a response chose. */
  function ChosenIntegers(values: seq<JsonValue>): (r: set<int>)
    ensures forall n :: n in r <==> JInt(n) in values
  {
    set v | v in values && v.JInt? :: v.i
  }

  method Validate(checks: Inherited, promptResponse: JsonObject) returns (valid: bool)
    ensures checks.isNotDisplayed(promptResponse) ==> valid
    ensures !checks.isNotDisplayed(promptResponse) && checks.isSkipped(promptResponse) ==>
              valid == checks.isValidSkipped(promptResponse)
    ensures !checks.isNotDisplayed(promptResponse) && !checks.isSkipped(promptResponse) ==>
              var values := GetArray(promptResponse, "value");
              var choices := GetArray(promptResponse, "custom_choices");
              var choiceSet := if choices.Some? then checks.validateCustomChoices(choices.value) else None;
              && (values.None? || choiceSet.None? ==> !valid)
              && (values.Some? && choiceSet.Some? ==> (valid <==> AllChosen(values.value, choiceSet.value)))
  {
    if checks.isNotDisplayed(promptResponse) {
      return true;
    }
    if checks.isSkipped(promptResponse) {
      return checks.isValidSkipped(promptResponse);
    }
    var values := GetArray(promptResponse, "value");
    if values.None? {
      return false;
    }
    var choices := GetArray(promptResponse, "custom_choices");
    if choices.None? {
      return false;
    }
    var choiceSet := checks.validateCustomChoices(choices.value);
    if choiceSet.None? {
      return false;
    }
    var numberOfValues := |values.value|;
    for j := 0 to numberOfValues
      invariant AllChosen(values.value[..j], choiceSet.value)
    {
      var value := IntegerAt(values.value, j);
      if value.None? {
        return false;
      }
      if value.value !in choiceSet.value {
        return false;
      }
    }
    assert values.value[..numberOfValues] == values.value;
    return true;
  }

  /** The values pass exactly when they are all integers and the integers chosen lie in the choice set. */
  lemma AllChosenMeansSubset(values: seq<JsonValue>, choiceSet: set<int>)
    ensures AllChosen(values, choiceSet) <==>
              (forall v :: v in values ==> v.JInt?) && ChosenIntegers(values) <= choiceSet
  {
    if (forall v :: v in values ==> v.JInt?) && ChosenIntegers(values) <= choiceSet {
      forall j | 0 <= j < |values|
        ensures values[j].JInt? && values[j].i in choiceSet
      {
        assert values[j] in values;
        assert values[j] == JInt(values[j].i);
      }
    }
  }

  /** The order of the chosen values and their repetition do not matter. */
  lemma AllChosenIgnoresOrder(values: seq<JsonValue>, others: seq<JsonValue>, choiceSet: set<int>)
    requires forall v :: v in values <==> v in others
    ensures AllChosen(values, choiceSet) <==> AllChosen(others, choiceSet)
  {
    AllChosenMeansSubset(values, choiceSet);
    AllChosenMeansSubset(others, choiceSet);
    assert ChosenIntegers(values) == ChosenIntegers(others);
  }

  /** Choosing nothing passes whatever the choices, and only a choice outside the set can fail. */
  lemma EmptyChoiceAccepted(choiceSet: set<int>, larger: set<int>, values: seq<JsonValue>)
    requires choiceSet <= larger
    ensures AllChosen([], choiceSet)
    ensures AllChosen(values, choiceSet) ==> AllChosen(values, larger)
  {
  }
}
