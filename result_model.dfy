/**
 * The result container of `app/utils/result.py`: a `Result` (a description,
 * a validation status, an approval status and a list of detail strings) and
 * `Results`, an append-only list of `Result` objects.
 *
 * `Status` is an `IntEnum`, so a status is an integer: the class stores the
 * integer code, which is what both an enum member and its JSON rendering
 * compare equal to. The JSON text layer (`json.dumps`/`json.loads`) is taken
 * as the identity on decoded values: `Encode` gives the object `toJSON` dumps
 * and `Decode` reads the object `fromJSON` loads.
 */
module ResultModel {
  import opened Support
  import opened Json

  /** `Result.Status`: exactly four members, with the codes 0 to 3. */
  datatype Status = NONE | PASS | FAIL | WARN {
    function Code(): int {
      match this
      case NONE => 0
      case PASS => 1
      case FAIL => 2
      case WARN => 3
    }
  }

  /** The code belongs to a `Status` member. */
  predicate IsCode(n: int) {
    0 <= n <= 3
  }

  /** The member with code `n`, if there is one. */
  function FromCode(n: int): (r: Option<Status>)
    ensures r.Some? <==> IsCode(n)
    ensures r.Some? ==> r.value.Code() == n
  {
    if n == 0 then Some(NONE)
    else if n == 1 then Some(PASS)
    else if n == 2 then Some(FAIL)
    else if n == 3 then Some(WARN)
    else None
  }

  /** The codes are distinct, and every member is found again from its code. */
  lemma StatusCodes(s: Status, t: Status)
    ensures IsCode(s.Code()) && FromCode(s.Code()) == Some(s)
    ensures s.Code() == t.Code() <==> s == t
  {
  }

  /**
   * The stored approval status: the argument when it is truthy and a member
   * of `Status`, NONE (code 0) otherwise.
   */
  function ApprovalOf(approval: Option<int>): (r: int)
    ensures IsCode(r)
    ensures r != NONE.Code() <==> approval.Some? && approval.value != 0 && IsCode(approval.value)
    ensures r != NONE.Code() ==> r == approval.value
  {
    match approval
    case Some(a) => if a != 0 && IsCode(a) then a else NONE.Code()
    case None => NONE.Code()
  }

  /** The text `add_detail` stores: a string as it is, anything else as its JSON encoding. */
  function DetailText(detail: Json): string {
    match detail
    case JStr(s) => s
    case _ => Dumps(detail)
  }

  /** The observable contents of one `Result`. */
  datatype ResultValue = ResultValue(description: string, validation: int, approval: int, details: seq<string>)

  class Result {
    var description: string
    var validationStatus: int
    var approvalStatus: int
    var details: seq<string>

    /** The approval status is always a member of `Status`. */
    predicate Valid()
      reads this
    {
      IsCode(approvalStatus)
    }

    function Value(): ResultValue
      reads this
    {
      ResultValue(description, validationStatus, approvalStatus, details)
    }

    /** `Result(description, validation_status, approval_status)`. */
    constructor(description: string, validationStatus: int, approval: Option<int>)
      ensures Valid()
      ensures Value() == ResultValue(description, validationStatus, ApprovalOf(approval), [])
    {
      this.description := description;
      this.validationStatus := validationStatus;
      this.approvalStatus := ApprovalOf(approval);
      this.details := [];
    }

    /** `add_detail(detail)`: appends exactly one entry. */
    method AddDetail(detail: Json)
      modifies this
      ensures details == old(details) + [DetailText(detail)]
      ensures description == old(description) && validationStatus == old(validationStatus)
      ensures approvalStatus == old(approvalStatus)
    {
      details := details + [DetailText(detail)];
    }

    /** `Result.fromJSON`: a new `Result` holding what `Decode` reads. */
    static method FromJson(j: Json) returns (r: Outcome<Result>)
      ensures r.Ok? <==> Decode(j).Ok?
      ensures r.Raised? ==> r.error == Decode(j).error
      ensures r.Ok? ==> fresh(r.value) && r.value.Valid() && r.value.Value() == Decode(j).value
    {
      var v := Decode(j);
      if v.Raised? {
        return Raised(v.error);
      }
      var instance := new Result(v.value.description, v.value.validation, ApprovalArg(Index(j, "approval_status").value));
      instance.details := v.value.details;
      return Ok(instance);
    }
  }

  // ----- the JSON form of one result -----

  /** `Result.toJSON`, before the text layer: the four keys in the source's order, the details as a nested array. */
  function Encode(v: ResultValue): Json {
    JObj([("description", JStr(v.description)),
          ("validation_status", JNum(v.validation)),
          ("approval_status", JNum(v.approval)),
          ("details", JArr(seq(|v.details|, i requires 0 <= i < |v.details| => JStr(v.details[i]))))])
  }

  /** The approval argument a decoded value stands for (`True` is 1; a value that is no integer is never a member). */
  function ApprovalArg(j: Json): Option<int> {
    match j
    case JNum(n) => Some(n)
    case JBool(b) => Some(if b then 1 else 0)
    case _ => None
  }

  predicate AllStrings(items: seq<Json>) {
    forall i :: 0 <= i < |items| ==> items[i].JStr?
  }

  function Strings(items: seq<Json>): (r: seq<string>)
    requires AllStrings(items)
    ensures |r| == |items| && forall i :: 0 <= i < |items| ==> items[i] == JStr(r[i])
  {
    seq(|items|, i requires 0 <= i < |items| => items[i].s)
  }

  /**
   * `Result.fromJSON`: the keys are read in the source's order (a missing one
   * raises KeyError); a field outside the model's types raises ValueError.
   */
  function Decode(j: Json): Outcome<ResultValue> {
    var description :- Index(j, "description");
    var validation :- Index(j, "validation_status");
    var approval :- Index(j, "approval_status");
    var details :- Index(j, "details");
    if description.JStr? && validation.JNum? && details.JArr? && AllStrings(details.items) then
      Ok(ResultValue(description.s, validation.n, ApprovalOf(ApprovalArg(approval)), Strings(details.items)))
    else Raised(ValueError)
  }

  /** A result read back from its JSON form is the result that was written, whenever its approval status is a member. */
  lemma DecodeEncode(v: ResultValue)
    requires IsCode(v.approval)
    ensures Decode(Encode(v)) == Ok(v)
  {
    var fields := Encode(v).fields;
    GetAt(fields, "description", 0);
    GetAt(fields, "validation_status", 1);
    GetAt(fields, "approval_status", 2);
    GetAt(fields, "details", 3);
    var items := fields[3].1.items;
    assert Strings(items) == v.details;
  }

  // ----- the container -----

  /** The right operand of `+=` or `|=`. */
  datatype Operand = OfResult(result: Result) | OfResults(results: Results) | Other(value: Json)

  class Results {
    var results: seq<Result>

    function Values(): (vs: seq<ResultValue>)
      reads this, results
      ensures |vs| == |results|
    {
      seq(|results|, i reads this, results requires 0 <= i < |results| => results[i].Value())
    }

    /** Every entry has a member as its approval status. */
    predicate Valid()
      reads this, results
    {
      forall i :: 0 <= i < |results| ==> results[i].Valid()
    }

    constructor()
      ensures results == [] && Valid()
    {
      results := [];
    }

    /** `add(result)`: appends exactly one entry and returns the container itself. */
    method Add(result: Result) returns (self: Results)
      modifies this
      ensures self == this
      ensures results == old(results) + [result]
      ensures Values() == old(Values()) + [result.Value()]
      ensures old(Valid()) && result.Valid() ==> Valid()
    {
      results := results + [result];
      return this;
    }

    /** `self += x`: only a `Result` can be added; anything else raises ValueError and changes nothing. */
    method IAdd(x: Operand) returns (r: Outcome<Results>)
      modifies this
      ensures x.OfResult? <==> r.Ok?
      ensures r.Raised? ==> r.error == ValueError && results == old(results)
      ensures r.Ok? ==> r.value == this && results == old(results) + [x.result]
      ensures old(Valid()) && (x.OfResult? ==> x.result.Valid()) ==> Valid()
    {
      if x.OfResult? {
        var self := Add(x.result);
        return Ok(self);
      }
      return Raised(ValueError);
    }

    /**
     * `self |= other`: the other container's entries are appended one by one,
     * in order, with no merging; anything but a `Results` raises ValueError.
     * Merging a non-empty container into itself never ends in the source,
     * which iterates over the list it appends to.
     */
    method IOr(x: Operand) returns (r: Outcome<Results>)
      requires x.OfResults? && x.results == this ==> results == []
      modifies this
      ensures x.OfResults? <==> r.Ok?
      ensures r.Raised? ==> r.error == ValueError && results == old(results)
      ensures r.Ok? ==> r.value == this && results == old(results) + old(x.results.results)
      ensures r.Ok? ==> Values() == old(Values()) + old(x.results.Values())
      ensures old(Valid()) && x.OfResults? && old(x.results.Valid()) ==> Valid()
    {
      if !x.OfResults? {
        return Raised(ValueError);
      }
      var other := x.results.results;
      ghost var start := results;
      ghost var valid := old(Valid()) && old(x.results.Valid());
      for i := 0 to |other|
        invariant results == start + other[..i]
        invariant valid ==> Valid() && forall k :: 0 <= k < |other| ==> other[k].Valid()
      {
        var _ := Add(other[i]);
        assert other[..i + 1] == other[..i] + [other[i]];
      }
      assert other[..|other|] == other;
      return Ok(this);
    }

    /** `Results.fromJSON`: a new container holding, in order, every result listed under `results`. */
    static method FromJson(j: Json) returns (r: Outcome<Results>)
      ensures r.Ok? <==> DecodeAll(j).Ok?
      ensures r.Raised? ==> r.error == DecodeAll(j).error
      ensures r.Ok? ==> fresh(r.value) && r.value.Valid() && r.value.Values() == DecodeAll(j).value
    {
      var listed := Index(j, "results");
      if listed.Raised? {
        return Raised(listed.error);
      }
      var items := Iterate(listed.value);
      if items.Raised? {
        return Raised(items.error);
      }
      var all := items.value;
      var instance := new Results();
      for i := 0 to |all|
        invariant fresh(instance)
        invariant DecodeEach(all[..i]).Ok? && instance.Values() == DecodeEach(all[..i]).value
        invariant forall k :: 0 <= k < |instance.results| ==> fresh(instance.results[k])
        invariant instance.Valid()
      {
        assert all[..i + 1][..i] == all[..i];
        var one := Result.FromJson(all[i]);
        if one.Raised? {
          DecodeEachFails(all, i + 1);
          return Raised(one.error);
        }
        var _ := instance.Add(one.value);
      }
      assert all[..|all|] == all;
      return Ok(instance);
    }
  }

  /** Decodes every listed result, in order; the first failure is the outcome. */
  function DecodeEach(items: seq<Json>): Outcome<seq<ResultValue>>
    decreases |items|
  {
    if items == [] then Ok([])
    else
      var init :- DecodeEach(items[..|items| - 1]);
      var last :- Decode(items[|items| - 1]);
      Ok(init + [last])
  }

  lemma DecodeEachFails(items: seq<Json>, n: nat)
    requires 0 < n <= |items| && DecodeEach(items[..n - 1]).Ok? && Decode(items[n - 1]).Raised?
    ensures DecodeEach(items).Raised? && DecodeEach(items).error == Decode(items[n - 1]).error
    decreases |items|
  {
    assert items[..n][..n - 1] == items[..n - 1];
    if n < |items| {
      assert items[..|items| - 1][..n - 1] == items[..n - 1];
      assert items[..|items| - 1][n - 1] == items[n - 1];
      DecodeEachFails(items[..|items| - 1], n);
    } else {
      assert items[..|items|] == items;
    }
  }

  /** `Results.toJSON`, before the text layer. */
  function EncodeAll(vs: seq<ResultValue>): Json {
    JObj([("results", JArr(seq(|vs|, i requires 0 <= i < |vs| => Encode(vs[i]))))])
  }

  /** `Results.fromJSON`, before the text layer. */
  function DecodeAll(j: Json): Outcome<seq<ResultValue>> {
    var listed :- Index(j, "results");
    var items :- Iterate(listed);
    DecodeEach(items)
  }

  lemma {:induction false} DecodeEachEncode(vs: seq<ResultValue>)
    requires forall i :: 0 <= i < |vs| ==> IsCode(vs[i].approval)
    ensures DecodeEach(seq(|vs|, i requires 0 <= i < |vs| => Encode(vs[i]))) == Ok(vs)
    decreases |vs|
  {
    var items := seq(|vs|, i requires 0 <= i < |vs| => Encode(vs[i]));
    if vs != [] {
      var init := vs[..|vs| - 1];
      assert items[..|items| - 1] == seq(|init|, i requires 0 <= i < |init| => Encode(init[i]));
      DecodeEachEncode(init);
      DecodeEncode(vs[|vs| - 1]);
      assert init + [vs[|vs| - 1]] == vs;
    }
  }

  /**
   * `Results.fromJSON(r.toJSON())` has the same entries in the same order,
   * each with the same description, statuses and details.
   */
  lemma DecodeAllEncodeAll(vs: seq<ResultValue>)
    requires forall i :: 0 <= i < |vs| ==> IsCode(vs[i].approval)
    ensures DecodeAll(EncodeAll(vs)) == Ok(vs)
  {
    DecodeEachEncode(vs);
  }

  /**
   * For a container, `Results.fromJSON(r.toJSON())` holds the same entries in
   * the same order: every entry's approval status is a member, so each one
   * reads back as written.
   */
  lemma ContainerRoundTrip(r: Results)
    requires r.Valid()
    ensures DecodeAll(EncodeAll(r.Values())) == Ok(r.Values())
  {
    var vs := r.Values();
    forall i | 0 <= i < |vs| ensures IsCode(vs[i].approval) {
      assert vs[i] == r.results[i].Value();
      assert r.results[i].Valid();
    }
    DecodeAllEncodeAll(vs);
  }
}
