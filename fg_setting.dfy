/**
 * The `fg_setting` check plugin: each setting spec names a path into the
 * configuration hierarchy, a setting and an expected value; the plugin maps
 * each spec's description to the verdict of `validate_setting` there. Any
 * exception turns the whole answer into `False`.
 */
module FgSetting {
  import opened Support
  import opened Json

  /**
   * `validate_setting(context, key, value)`: exact equality (no quote
   * stripping), else containment under `partial_match`; a missing key gives
   * `or_empty` back.
   */
  function ValidateSetting(ctx: Json, key: Json, value: Json, orEmpty: Json, partial: Json): (r: Outcome<Json>)
    ensures ctx.JObj? && key.JStr? && Get(ctx.fields, key.s).None? ==> r == Ok(orEmpty)
    ensures ctx.JObj? && key.JStr? && Get(ctx.fields, key.s) == Some(value) ==> r == Ok(JBool(true))
    ensures ctx.JObj? && key.JStr? && !Truthy(partial) && Get(ctx.fields, key.s).Some? && Get(ctx.fields, key.s) != Some(value) ==>
      r == Ok(JBool(false))
    ensures ctx.JObj? && key.JStr? && Truthy(partial) && value.JStr? && Get(ctx.fields, key.s).Some? && Get(ctx.fields, key.s).value.JStr? ==>
      var s := Get(ctx.fields, key.s).value.s;
      r == Ok(JBool(s == value.s || Contains(s, value.s)))
  {
    var present :- In(key, ctx);
    if present then
      var stored :- Subscript(ctx, key);
      if stored == value then Ok(JBool(true))
      else if Truthy(partial) then
        var b :- In(value, stored);
        Ok(JBool(b))
      else Ok(JBool(false))
    else Ok(orEmpty)
  }

  /** `spec[name] if name in spec else default`. */
  function Optional(spec: Json, name: string, default: Json): Outcome<Json> {
    var present :- In(JStr(name), spec);
    if present then Index(spec, name) else Ok(default)
  }

  /** The node reached by `for path in config_path: context = context[path]`. */
  function Follow(ctx: Json, path: seq<Json>): Outcome<Json>
    decreases |path|
  {
    if path == [] then Ok(ctx)
    else
      var prev :- Follow(ctx, path[..|path| - 1]);
      Subscript(prev, path[|path| - 1])
  }

  /** Only a hashable value can key a dict. */
  function Hashable(key: Json): Outcome<Json> {
    if key.JArr? || key.JObj? then Raised(TypeError) else Ok(key)
  }

  /** One spec: its description and its verdict. */
  function Verdict(data: Json, spec: Json): Outcome<(Json, Json)> {
    var configPath :- Index(spec, "config_path");
    var setting :- Index(spec, "setting");
    var value :- Index(spec, "value");
    var orEmpty :- Optional(spec, "or_empty", JBool(false));
    var partial :- Optional(spec, "partial_match", JBool(false));
    var description :- Optional(spec, "description", JStr(PyStr(configPath) + ":" + PyStr(setting)));
    var configuration :- Index(data, "fgt_cli_configuration");
    var hierarchy :- Index(configuration, "hierarchy");
    var path :- Iterate(configPath);
    var context :- Follow(hierarchy, path);
    var verdict :- ValidateSetting(context, setting, value, orEmpty, partial);
    var key :- Hashable(description);
    Ok((key, verdict))
  }

  /**
   * `f` applied to each element in order, stopping at the first exception
   * (the shape of a loop inside one `try`).
   */
  function Collect<A, B>(f: A -> Outcome<B>, xs: seq<A>): Outcome<seq<B>>
    decreases |xs|
  {
    if xs == [] then Ok([])
    else
      var prev :- Collect(f, xs[..|xs| - 1]);
      var last :- f(xs[|xs| - 1]);
      Ok(prev + [last])
  }

  /** A collection that succeeds holds each element's result, in order. */
  lemma {:induction false} CollectOk<A, B>(f: A -> Outcome<B>, xs: seq<A>)
    requires Collect(f, xs).Ok?
    ensures |Collect(f, xs).value| == |xs|
    ensures forall i :: 0 <= i < |xs| ==> f(xs[i]).Ok? && Collect(f, xs).value[i] == f(xs[i]).value
    decreases |xs|
  {
    if xs != [] {
      var init := xs[..|xs| - 1];
      CollectOk(f, init);
      assert forall i :: 0 <= i < |init| ==> init[i] == xs[i];
    }
  }

  /** One element that raises makes the whole collection raise. */
  lemma CollectRaises<A, B>(f: A -> Outcome<B>, xs: seq<A>, i: nat)
    requires i < |xs| && f(xs[i]).Raised?
    ensures Collect(f, xs).Raised?
  {
    if Collect(f, xs).Ok? {
      CollectOk(f, xs);
    }
  }

  /** The verdicts of the specs in order; the first exception ends the run. */
  function Verdicts(data: Json, specs: seq<Json>): Outcome<seq<(Json, Json)>> {
    Collect(spec => Verdict(data, spec), specs)
  }

  /** Verdicts that succeed are each spec's verdict, in order. */
  lemma VerdictsOk(data: Json, specs: seq<Json>, vs: seq<(Json, Json)>)
    requires Verdicts(data, specs) == Ok(vs)
    ensures |vs| == |specs|
    ensures forall i :: 0 <= i < |specs| ==> Verdict(data, specs[i]) == Ok(vs[i])
  {
    CollectOk(spec => Verdict(data, spec), specs);
  }

  /** One more spec that succeeds extends the verdicts by its own. */
  lemma VerdictsStep(data: Json, specs: seq<Json>, i: nat, vs: seq<(Json, Json)>)
    requires i < |specs| && Verdicts(data, specs[..i]) == Ok(vs) && Verdict(data, specs[i]).Ok?
    ensures Verdicts(data, specs[..i + 1]) == Ok(vs + [Verdict(data, specs[i]).value])
  {
    assert specs[..i + 1][..i] == specs[..i];
  }

  /** What `check` returns: a dict of verdicts, or `False` after any exception. */
  datatype Answer = Map(entries: seq<(Json, Json)>) | False

  /** `check(data)`, given the decoded input. */
  function Evaluate(data: Json): Answer {
    match Specs(data)
    case Raised(_) => False
    case Ok(specs) =>
      match Verdicts(data, specs)
      case Ok(vs) => Map(PutAll([], vs))
      case Raised(_) => False
  }

  /** The specs of `data['parameters']['setting_spec']`, the key the plugin reads. */
  function Specs(data: Json): Outcome<seq<Json>> {
    var parameters :- Index(data, "parameters");
    var listed :- Index(parameters, "setting_spec");
    Iterate(listed)
  }

  /**
   * Each description maps to the verdict of the last spec carrying it; the
   * answer is `False` as soon as one spec raises.
   */
  lemma AnswerLastWins(data: Json, specs: seq<Json>, i: nat)
    requires Specs(data) == Ok(specs) && Evaluate(data).Map? && i < |specs|
    ensures Verdict(data, specs[i]).Ok?
    ensures (forall j :: i < j < |specs| ==> Verdict(data, specs[j]).Ok? && Verdict(data, specs[j]).value.0 != Verdict(data, specs[i]).value.0) ==>
      Get(Evaluate(data).entries, Verdict(data, specs[i]).value.0) == Some(Verdict(data, specs[i]).value.1)
  {
    var vs := EvaluateMap(data);
    VerdictsOk(data, specs, vs);
    if forall j :: i < j < |specs| ==> Verdict(data, specs[j]).Ok? && Verdict(data, specs[j]).value.0 != Verdict(data, specs[i]).value.0 {
      PutAllLast([], vs, i);
    }
  }

  /** A description is in the answer exactly when some spec carries it; any other is absent. */
  lemma AnswerKeys(data: Json, specs: seq<Json>, d: Json)
    requires Specs(data) == Ok(specs) && Evaluate(data).Map?
    ensures Get(Evaluate(data).entries, d).Some? <==>
      exists j :: 0 <= j < |specs| && Verdict(data, specs[j]).Ok? && Verdict(data, specs[j]).value.0 == d
  {
    var vs := EvaluateMap(data);
    VerdictsOk(data, specs, vs);
    PutAllHas([], vs, d);
    assert Evaluate(data).entries == PutAll([], vs);
    if exists j :: 0 <= j < |vs| && vs[j].0 == d {
      var j :| 0 <= j < |vs| && vs[j].0 == d;
      assert Verdict(data, specs[j]) == Ok(vs[j]);
    }
    if exists j :: 0 <= j < |specs| && Verdict(data, specs[j]).Ok? && Verdict(data, specs[j]).value.0 == d {
      var j :| 0 <= j < |specs| && Verdict(data, specs[j]).Ok? && Verdict(data, specs[j]).value.0 == d;
      assert vs[j].0 == d;
    }
  }

  /** A dict answer is the verdicts put in order into an empty dict. */
  lemma EvaluateMap(data: Json) returns (vs: seq<(Json, Json)>)
    requires Evaluate(data).Map?
    ensures Specs(data).Ok? && Verdicts(data, Specs(data).value) == Ok(vs)
    ensures Evaluate(data).entries == PutAll([], vs)
  {
    vs := Verdicts(data, Specs(data).value).value;
  }

  /** A spec that raises anywhere makes the whole answer `False`. */
  lemma AnswerFalse(data: Json, specs: seq<Json>, i: nat)
    requires Specs(data) == Ok(specs) && i < |specs| && Verdict(data, specs[i]).Raised?
    ensures Evaluate(data) == False
  {
    CollectRaises(spec => Verdict(data, spec), specs, i);
  }

  /** The answer is a dict: no description appears twice. */
  lemma AnswerDistinct(data: Json)
    requires Evaluate(data).Map?
    ensures DistinctKeys(Evaluate(data).entries)
  {
    PutAllUntouched([], Verdicts(data, Specs(data).value).value, JNull);
  }

  /** One pass of the spec loop: read the spec, walk `config_path`, validate. */
  method EvalSpec(data: Json, spec: Json) returns (r: Outcome<(Json, Json)>)
    ensures r == Verdict(data, spec)
  {
    var configPath :- Index(spec, "config_path");
    var setting :- Index(spec, "setting");
    var value :- Index(spec, "value");
    var orEmpty :- Optional(spec, "or_empty", JBool(false));
    var partial :- Optional(spec, "partial_match", JBool(false));
    var description :- Optional(spec, "description", JStr(PyStr(configPath) + ":" + PyStr(setting)));
    var configuration :- Index(data, "fgt_cli_configuration");
    var context :- Index(configuration, "hierarchy");
    ghost var hierarchy := context;
    var path :- Iterate(configPath);
    for k := 0 to |path|
      invariant Follow(hierarchy, path[..k]) == Ok(context)
    {
      assert path[..k + 1][..k] == path[..k];
      var next := Subscript(context, path[k]);
      if next.Raised? {
        FollowStops(hierarchy, path, k + 1);
        return Raised(next.error);
      }
      context := next.value;
    }
    assert path[..|path|] == path;
    var verdict :- ValidateSetting(context, setting, value, orEmpty, partial);
    var key :- Hashable(description);
    return Ok((key, verdict));
  }

  /** The spec loop of `check`, filling the result dict. */
  method Check(data: Json) returns (answer: Answer)
    ensures answer == Evaluate(data)
  {
    var specs := Specs(data);
    if specs.Raised? {
      return False;
    }
    var all := specs.value;
    var result: seq<(Json, Json)> := [];
    ghost var verdicts: seq<(Json, Json)> := [];
    for i := 0 to |all|
      invariant Verdicts(data, all[..i]) == Ok(verdicts)
      invariant result == PutAll([], verdicts)
    {
      var one := EvalSpec(data, all[i]);
      if one.Raised? {
        CollectRaises(spec => Verdict(data, spec), all, i);
        return False;
      }
      VerdictsStep(data, all, i, verdicts);
      assert (verdicts + [one.value])[..|verdicts|] == verdicts;
      result := Put(result, one.value.0, one.value.1);
      verdicts := verdicts + [one.value];
    }
    assert all[..|all|] == all;
    return Map(result);
  }

  lemma {:induction false} FollowStops(ctx: Json, path: seq<Json>, n: nat)
    requires 0 < n <= |path| && Follow(ctx, path[..n - 1]).Ok?
    requires Subscript(Follow(ctx, path[..n - 1]).value, path[n - 1]).Raised?
    ensures Follow(ctx, path).Raised? && Follow(ctx, path).error == Subscript(Follow(ctx, path[..n - 1]).value, path[n - 1]).error
    decreases |path|
  {
    assert path[..n][..n - 1] == path[..n - 1];
    if n < |path| {
      assert path[..|path| - 1][..n - 1] == path[..n - 1];
      assert path[..|path| - 1][n - 1] == path[n - 1];
      FollowStops(ctx, path[..|path| - 1], n);
    } else {
      assert path[..|path|] == path;
    }
  }
}
