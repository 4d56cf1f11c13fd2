/**
 * The `manual` check plugin: one WARN result per manual step, keyed by the
 * step's description. Steps sharing a description share one entry, and an
 * exception ends the loop with the entries built so far.
 */
module Manual {
  import opened Support
  import opened Json
  import opened ResultModel

  const Marker := "[MANUAL CHECK] "

  /** `requires()`: the plugin needs no other input. */
  function Requires(): (r: seq<(string, string)>)
    ensures |r| == 0
  {
    []
  }

  /** The steps the loop visits: `data['parameters']['manual_checks']`, the key the plugin reads. */
  function Steps(data: Json): Outcome<seq<Json>> {
    var parameters :- Index(data, "parameters");
    var listed :- Index(parameters, "manual_checks");
    Iterate(listed)
  }

  /** The key of one step: the marker followed by its description, which must be a string. */
  function Label(step: Json): (r: Outcome<string>)
    ensures r.Ok? <==> step.JObj? && Get(step.fields, "description").Some? && Get(step.fields, "description").value.JStr?
    ensures r.Ok? ==> r.value == Marker + Get(step.fields, "description").value.s
  {
    var description :- Index(step, "description");
    ConcatStr(Marker, description)
  }

  /** The labels of the steps visited before the loop stopped, and whether it stopped. */
  datatype Visited = Visited(labels: seq<string>, stopped: bool)

  function Labeled(steps: seq<Json>): Visited
    decreases |steps|
  {
    if steps == [] then Visited([], false)
    else
      var prev := Labeled(steps[..|steps| - 1]);
      if prev.stopped then prev
      else match Label(steps[|steps| - 1])
        case Ok(l) => Visited(prev.labels + [l], false)
        case Raised(_) => Visited(prev.labels, true)
  }

  /** The labels of every step the loop completes; none when the steps cannot be read. */
  function Labels(data: Json): seq<string> {
    match Steps(data)
    case Ok(steps) => Labeled(steps).labels
    case Raised(_) => []
  }

  /** The keys of a dict filled with `labels` in order: each label once, where it first occurs. */
  function KeyOrder(labels: seq<string>): seq<string>
    decreases |labels|
  {
    if labels == [] then []
    else
      var prev := KeyOrder(labels[..|labels| - 1]);
      if labels[|labels| - 1] in prev then prev else prev + [labels[|labels| - 1]]
  }

  /** Identical descriptions collapse: the keys are distinct and are exactly the labels. */
  lemma {:induction false} KeyOrderSpec(labels: seq<string>)
    ensures forall i, j :: 0 <= i < j < |KeyOrder(labels)| ==> KeyOrder(labels)[i] != KeyOrder(labels)[j]
    ensures forall l :: l in KeyOrder(labels) <==> l in labels
    decreases |labels|
  {
    if labels != [] {
      var init := labels[..|labels| - 1];
      KeyOrderSpec(init);
      assert labels == init + [labels[|labels| - 1]];
    }
  }

  /** With no failing step, there is one label per step, in order. */
  lemma {:induction false} LabeledAll(steps: seq<Json>)
    requires forall i :: 0 <= i < |steps| ==> Label(steps[i]).Ok?
    ensures !Labeled(steps).stopped && |Labeled(steps).labels| == |steps|
    ensures forall i :: 0 <= i < |steps| ==> Labeled(steps).labels[i] == Label(steps[i]).value
    decreases |steps|
  {
    if steps != [] {
      var init := steps[..|steps| - 1];
      assert forall i :: 0 <= i < |init| ==> init[i] == steps[i];
      LabeledAll(init);
    }
  }

  /** A step that raises ends the loop: only steps before it have labels. */
  lemma {:induction false} LabeledStops(steps: seq<Json>, k: nat)
    requires k < |steps| && Label(steps[k]).Raised?
    ensures Labeled(steps).stopped && |Labeled(steps).labels| <= k
    decreases |steps|
  {
    var init := steps[..|steps| - 1];
    if k < |steps| - 1 {
      assert init[k] == steps[k];
      LabeledStops(init, k);
    } else {
      LabeledBound(init);
    }
  }

  lemma {:induction false} LabeledBound(steps: seq<Json>)
    ensures |Labeled(steps).labels| <= |steps|
    decreases |steps|
  {
    if steps != [] {
      LabeledBound(steps[..|steps| - 1]);
    }
  }

  lemma {:induction false} LabeledStays(steps: seq<Json>, n: nat)
    requires n <= |steps| && Labeled(steps[..n]).stopped
    ensures Labeled(steps) == Labeled(steps[..n])
    decreases |steps|
  {
    if n < |steps| {
      var init := steps[..|steps| - 1];
      assert init[..n] == steps[..n];
      LabeledStays(init, n);
    } else {
      assert steps[..n] == steps;
    }
  }

  /** One more step of the loop, as long as it has not stopped. */
  lemma LabeledSnoc(steps: seq<Json>, i: nat)
    requires i < |steps| && !Labeled(steps[..i]).stopped
    ensures Labeled(steps[..i + 1]) == match Label(steps[i])
      case Ok(l) => Visited(Labeled(steps[..i]).labels + [l], false)
      case Raised(_) => Visited(Labeled(steps[..i]).labels, true)
  {
    assert steps[..i + 1][..i] == steps[..i];
    assert steps[..i + 1][i] == steps[i];
  }

  /** Every entry is a new WARN result, approved WARN, with no details, described by its key. */
  predicate Warned(result: seq<(string, Result)>)
    reads set i | 0 <= i < |result| :: result[i].1
  {
    forall i :: 0 <= i < |result| ==>
      result[i].1.Valid() && result[i].1.Value() == ResultValue(result[i].0, WARN.Code(), WARN.Code(), [])
  }

  /** Filling a dict one label at a time keeps its keys in `KeyOrder`. */
  lemma PutKeyOrder<V>(d: seq<(string, V)>, name: string, v: V, labels: seq<string>)
    requires Keys(d) == KeyOrder(labels)
    ensures Keys(Put(d, name, v)) == KeyOrder(labels + [name])
  {
    KeysPut(d, name, v);
    assert (labels + [name])[..|labels|] == labels;
  }

  /** `result[description] = Result(description, WARN, approval_status=WARN)`. */
  method Record(result: seq<(string, Result)>, name: string, ghost labels: seq<string>) returns (next: seq<(string, Result)>)
    requires Keys(result) == KeyOrder(labels) && Warned(result)
    ensures Keys(next) == KeyOrder(labels + [name]) && Warned(next)
    ensures forall i :: 0 <= i < |next| ==> next[i].1 in (set j | 0 <= j < |result| :: result[j].1) || fresh(next[i].1)
  {
    var r := new Result(name, WARN.Code(), Some(WARN.Code()));
    next := Put(result, name, r);
    PutKeyOrder(result, name, r, labels);
    PutValues(result, name, r);
    forall i | 0 <= i < |next|
      ensures next[i].1.Valid() && next[i].1.Value() == ResultValue(next[i].0, WARN.Code(), WARN.Code(), [])
    {
      if next[i] != (name, r) {
        assert next[i] == result[i];
      }
    }
  }

  /**
   * `check(data)`, given the decoded input: the keys are the labels of the
   * completed steps, each once, and every value is a new WARN result.
   */
  method Check(data: Json) returns (result: seq<(string, Result)>)
    ensures Keys(result) == KeyOrder(Labels(data))
    ensures Warned(result)
    ensures forall i :: 0 <= i < |result| ==> fresh(result[i].1)
  {
    result := [];
    var steps := Steps(data);
    if steps.Raised? {
      return;
    }
    var all := steps.value;
    ghost var labels: seq<string> := [];
    for i := 0 to |all|
      invariant Labeled(all[..i]) == Visited(labels, false)
      invariant Keys(result) == KeyOrder(labels) && Warned(result)
      invariant forall j :: 0 <= j < |result| ==> fresh(result[j].1)
    {
      LabeledSnoc(all, i);
      var name := Label(all[i]);
      if name.Raised? {
        LabeledStays(all, i + 1);
        assert all[..|all|] == all;
        return;
      }
      result := Record(result, name.value, labels);
      labels := labels + [name.value];
    }
    assert all[..|all|] == all;
  }
}
