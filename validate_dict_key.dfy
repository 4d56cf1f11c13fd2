/**
 * The `validate_dict_key` check plugin: `data['data'][data['key']] ==
 * data['value']`, with KeyError for a missing requirement or a missing key.
 */
module ValidateDictKey {
  import opened Support
  import opened Json

  /** `requirements()`: the keys the input must carry, in the order the plugin lists them. */
  const Requirements: seq<string> := ["key", "value", "data"]

  /** The input is a dict carrying the key, the value and the data. */
  predicate Carries(data: Json) {
    data.JObj? && Get(data.fields, "key").Some? && Get(data.fields, "value").Some? && Get(data.fields, "data").Some?
  }

  /** `Carries` is the presence of every requirement. */
  lemma CarriesRequirements(data: Json)
    requires data.JObj?
    ensures Carries(data) <==> forall i :: 0 <= i < |Requirements| ==> Get(data.fields, Requirements[i]).Some?
  {
    if !Carries(data) {
      if Get(data.fields, "key").None? {
        assert Requirements[0] == "key";
      } else if Get(data.fields, "value").None? {
        assert Requirements[1] == "value";
      } else {
        assert Requirements[2] == "data";
      }
    }
  }

  /**
   * `check(job, data)`, given the decoded input: each requirement is looked up
   * in turn, then the key is looked up in `data['data']` and its value
   * compared with `data['value']`.
   */
  function Check(data: Json): (r: Outcome<bool>)
    ensures data.JObj? && !Carries(data) ==> r == Raised(KeyError)
    ensures Carries(data) && Get(data.fields, "data").value.JObj? && Get(data.fields, "key").value.JStr? ==>
      var inner := Get(data.fields, "data").value.fields;
      var key := Get(data.fields, "key").value.s;
      (r.Raised? ==> r.error == KeyError) &&
      (r.Ok? <==> Get(inner, key).Some?) &&
      (r.Ok? ==> (r.value <==> Get(inner, key).value == Get(data.fields, "value").value))
  {
    var hasKey :- In(JStr("key"), data);
    if !hasKey then Raised(KeyError) else
    var hasValue :- In(JStr("value"), data);
    if !hasValue then Raised(KeyError) else
    var hasData :- In(JStr("data"), data);
    if !hasData then Raised(KeyError) else
    var key :- Index(data, "key");
    var value :- Index(data, "value");
    var inner :- Index(data, "data");
    var present :- In(key, inner);
    if !present then Raised(KeyError) else
    var stored :- Subscript(inner, key);
    Ok(stored == value)
  }

  /** Only a dict carrying all three requirements can pass: a list or a string fails at `data['key']`. */
  lemma PassNeedsRequirements(data: Json)
    requires Check(data) == Ok(true)
    ensures Carries(data)
  {
  }
}
