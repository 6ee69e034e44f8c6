/**
 * JsonMsgPromptResponsesExistValidator.validate: a prompt message must carry
 * a non-empty "responses" array. On failure the request is annotated; the
 * annotation is returned with the verdict instead of being written into the
 * request.
 */
module ResponsesExistValidator {
  import opened Wrappers
  import opened Json

  const ResponsesKey := "responses"
  const NullOrEmptyMessage := "responses array from prompt message is null or empty"

  /** The verdict and the annotation made on the request, if any. */
  datatype Verdict = Verdict(valid: bool, annotation: Option<string>)

  function Validate(jsonObject: JsonObject): (r: Verdict)
    ensures r.valid <==> ResponsesKey in jsonObject && jsonObject[ResponsesKey].JArray? &&
                         exists v :: v in jsonObject[ResponsesKey].elems
    ensures !r.valid <==> r.annotation == Some(NullOrEmptyMessage)
    ensures r.valid <==> r.annotation.None?
  {
    var responses := GetArray(jsonObject, ResponsesKey);
    if responses.None? || |responses.value| == 0 then Verdict(false, Some(NullOrEmptyMessage))
    else
      assert responses.value[0] in responses.value;
      Verdict(true, None)
  }

  /** Adding a response to a message whose responses key holds an array makes it valid. */
  lemma AddingAResponseValidates(jsonObject: JsonObject, response: JsonValue)
    requires ResponsesKey in jsonObject && jsonObject[ResponsesKey].JArray?
    ensures var added := jsonObject[ResponsesKey := JArray(jsonObject[ResponsesKey].elems + [response])];
            Validate(added).valid
  {
    var added := jsonObject[ResponsesKey := JArray(jsonObject[ResponsesKey].elems + [response])];
    assert response in added[ResponsesKey].elems;
  }

  /** Only the responses key matters: the other keys of the message never change the verdict. */
  lemma OnlyResponsesMatter(jsonObject: JsonObject, key: string, value: JsonValue)
    requires key != ResponsesKey
    ensures Validate(jsonObject[key := value]) == Validate(jsonObject)
  {
    assert GetArray(jsonObject[key := value], ResponsesKey) == GetArray(jsonObject, ResponsesKey);
  }
}
