/**
 * The `fg_each` check plugin: for every setting spec it selects the entries
 * of one configuration table (firewall policies, addresses, administrators,
 * ...), tests one setting on each selected entry and appends results to a
 * `Results` container: one FAIL for a malformed spec, one result per match
 * under `fail_on_match`/`pass_on_match`, and a summary judged against the
 * spec's pass threshold.
 *
 * Any exception inside the loop is caught by the plugin, which returns the
 * results appended so far; `Run.failed` records that the walk stopped there.
 */
module FgEach {
  import opened Support
  import opened Json
  import opened ResultModel

  // ----- validate_setting -----

  /**
   * `validate_setting(context, key, value)` for one value: the stored value
   * must equal it as it is or without surrounding `"`, or contain it under
   * `partial_match`; a missing key gives `or_empty` back.
   */
  function ValidateOne(ctx: Json, key: Json, value: string, orEmpty: Json, partial: Json): Outcome<Json> {
    var present :- In(key, ctx);
    if present then
      var stored :- Subscript(ctx, key);
      if stored == JStr(value) then Ok(JBool(true))
      else if !stored.JStr? then Raised(AttributeError)
      else if Strip(stored.s, '"') == value then Ok(JBool(true))
      else if Truthy(partial) then
        var b :- In(JStr(value), stored);
        Ok(JBool(b))
      else Ok(JBool(false))
    else Ok(orEmpty)
  }

  /**
   * On a dict and a string key: a missing key gives `or_empty`; a string
   * stored value validates iff it equals the value as it is or without
   * surrounding `"`, or contains it under `partial_match`; any other stored
   * value raises AttributeError at `.strip`.
   */
  lemma ValidateOneSpec(ctx: Json, key: Json, value: string, orEmpty: Json, partial: Json)
    requires ctx.JObj? && key.JStr?
    ensures Get(ctx.fields, key.s).None? ==> ValidateOne(ctx, key, value, orEmpty, partial) == Ok(orEmpty)
    ensures Get(ctx.fields, key.s).Some? && Get(ctx.fields, key.s).value.JStr? ==>
      var s := Get(ctx.fields, key.s).value.s;
      var r := ValidateOne(ctx, key, value, orEmpty, partial);
      r.Ok? && (Truthy(r.value) <==> s == value || Strip(s, '"') == value || (Truthy(partial) && Contains(s, value)))
    ensures Get(ctx.fields, key.s).Some? && !Get(ctx.fields, key.s).value.JStr? ==>
      ValidateOne(ctx, key, value, orEmpty, partial) == Raised(AttributeError)
  {
    assert In(key, ctx) == Ok(Get(ctx.fields, key.s).Some?);
    var stored := Get(ctx.fields, key.s);
    if stored.Some? {
      assert Subscript(ctx, key) == Ok(stored.value);
      if stored.value.JStr? {
        assert In(JStr(value), stored.value) == Ok(Contains(stored.value.s, value));
      }
    }
  }

  /** `for v in values: if test(v): return True`, then `return False`; an exception ends the loop. */
  function FirstTruthy(test: string -> Outcome<Json>, values: seq<string>): Outcome<bool>
    decreases |values|
  {
    if values == [] then Ok(false)
    else
      var r :- test(values[0]);
      if Truthy(r) then Ok(true) else FirstTruthy(test, values[1..])
  }

  /** When no single test raises, the loop answers whether some value passes. */
  lemma {:induction false} FirstTruthySome(test: string -> Outcome<Json>, values: seq<string>)
    requires forall i :: 0 <= i < |values| ==> test(values[i]).Ok?
    ensures FirstTruthy(test, values) == Ok(exists i :: 0 <= i < |values| && Truthy(test(values[i]).value))
    decreases |values|
  {
    if values != [] {
      var rest := values[1..];
      assert forall i :: 0 <= i < |rest| ==> rest[i] == values[i + 1];
      FirstTruthySome(test, rest);
      if exists i :: 0 <= i < |values| && Truthy(test(values[i]).value) {
        var i :| 0 <= i < |values| && Truthy(test(values[i]).value);
        if i > 0 {
          assert rest[i - 1] == values[i];
        }
      }
    }
  }

  /** `validate_setting(context, key, values)` for a list: the first value that validates settles it. */
  function ValidateAny(ctx: Json, key: Json, values: seq<string>, orEmpty: Json, partial: Json): Outcome<bool> {
    FirstTruthy(v => ValidateOne(ctx, key, v, orEmpty, partial), values)
  }

  /** When no single test raises, a list validates exactly when some element does. */
  lemma ValidateAnySome(ctx: Json, key: Json, values: seq<string>, orEmpty: Json, partial: Json)
    requires forall i :: 0 <= i < |values| ==> ValidateOne(ctx, key, values[i], orEmpty, partial).Ok?
    ensures ValidateAny(ctx, key, values, orEmpty, partial)
      == Ok(exists i :: 0 <= i < |values| && Truthy(ValidateOne(ctx, key, values[i], orEmpty, partial).value))
  {
    FirstTruthySome(v => ValidateOne(ctx, key, v, orEmpty, partial), values);
  }

  // ----- check_match -----

  /** `_check_match(spec, entry)`: the entry is `edit X` or `edit "X"`. */
  predicate MatchesId(id: string, entry: string) {
    entry == "edit " + id || entry == "edit \"" + id + "\""
  }

  /** The `match_entry` of a spec: `True` (every entry) or a list of ids. */
  datatype Selector = All | Ids(ids: seq<string>)

  function AnyId(ids: seq<string>, entry: string): (b: bool)
    ensures b <==> exists i :: 0 <= i < |ids| && MatchesId(ids[i], entry)
    decreases |ids|
  {
    if ids == [] then false
    else
      assert forall i :: 1 <= i < |ids| ==> ids[i] == ids[1..][i - 1];
      MatchesId(ids[0], entry) || AnyId(ids[1..], entry)
  }

  /** `check_match(spec, entry, negate)`: `True` selects every entry, a list selects the entries named in it; `negate` inverts either answer. */
  function CheckMatch(sel: Selector, entry: string, negate: bool): (b: bool)
    ensures sel.All? ==> b == !negate
    ensures sel.Ids? ==> (b <==> (exists i :: 0 <= i < |sel.ids| && MatchesId(sel.ids[i], entry)) != negate)
  {
    var plain := match sel case All => true case Ids(ids) => AnyId(ids, entry);
    if negate then !plain else plain
  }

  // ----- re.split(r'(?<!\\)\|', s) -----

  /** A `|` at `k` separates fields unless a backslash comes right before it. */
  predicate IsSeparator(s: string, k: nat)
    requires k < |s|
  {
    s[k] == '|' && (k == 0 || s[k - 1] != '\\')
  }

  /** The first separator at or after `from`, or `|s|`. */
  function SeparatorFrom(s: string, from: nat): (k: nat)
    requires from <= |s|
    ensures from <= k <= |s|
    ensures k < |s| ==> IsSeparator(s, k)
    ensures forall i :: from <= i < k ==> !IsSeparator(s, i)
    decreases |s| - from
  {
    if from == |s| || IsSeparator(s, from) then from else SeparatorFrom(s, from + 1)
  }

  /** `re.split(pipe_escape_split, s)`: the fields between unescaped `|`, escapes kept. */
  function SplitPipes(s: string): (r: seq<string>)
    ensures |r| >= 1
    decreases |s|
  {
    var k := SeparatorFrom(s, 0);
    if k == |s| then [s] else [s[..k]] + SplitPipes(s[k + 1..])
  }

  /** No field holds a separator: every `|` left in a field has a backslash before it. */
  predicate NoSeparator(field: string) {
    forall i :: 0 <= i < |field| ==> !IsSeparator(field, i)
  }

  /** A field that a following `|` closes as a separator: empty, or not ending in a backslash. */
  predicate UnescapedEnd(field: string) {
    field == [] || field[|field| - 1] != '\\'
  }

  /** The text before the first separator holds no separator. */
  lemma HeadNoSeparator(s: string)
    ensures NoSeparator(s[..SeparatorFrom(s, 0)])
  {
    var k := SeparatorFrom(s, 0);
    var head := s[..k];
    forall i | 0 <= i < |head| ensures !IsSeparator(head, i) {
      assert head[i] == s[i];
      assert i > 0 ==> head[i - 1] == s[i - 1];
      assert !IsSeparator(s, i);
    }
  }

  /**
   * Joining the fields with `|` gives the text back, every `|` inside a field
   * was escaped, and every cut is an unescaped `|`: no field but the last
   * ends in a backslash. Together the cuts are exactly the separators of `s`.
   */
  lemma {:induction false} SplitPipesJoin(s: string)
    ensures Join("|", SplitPipes(s)) == s
    ensures forall i :: 0 <= i < |SplitPipes(s)| ==> NoSeparator(SplitPipes(s)[i])
    ensures forall i :: 0 <= i < |SplitPipes(s)| - 1 ==> UnescapedEnd(SplitPipes(s)[i])
    decreases |s|
  {
    SplitPipesCuts(s);
    var k := SeparatorFrom(s, 0);
    var head := s[..k];
    HeadNoSeparator(s);
    if k < |s| {
      var tail := s[k + 1..];
      var rest := SplitPipes(tail);
      SplitPipesJoin(tail);
      var all := SplitPipes(s);
      assert all == [head] + rest;
      assert Join("|", all) == head + "|" + Join("|", rest);
      assert s == head + "|" + tail;
      forall i | 0 <= i < |all|
        ensures NoSeparator(all[i])
      {
        if i > 0 {
          assert all[i] == rest[i - 1];
        }
      }
    }
  }

  /** Every field but the last was closed by an unescaped `|`. */
  lemma {:induction false} SplitPipesCuts(s: string)
    ensures forall i :: 0 <= i < |SplitPipes(s)| - 1 ==> UnescapedEnd(SplitPipes(s)[i])
    decreases |s|
  {
    var k := SeparatorFrom(s, 0);
    if k < |s| {
      var head := s[..k];
      var rest := SplitPipes(s[k + 1..]);
      SplitPipesCuts(s[k + 1..]);
      assert SplitPipes(s) == [head] + rest;
      if k > 0 {
        assert IsSeparator(s, k) && head[k - 1] == s[k - 1];
      }
      assert forall i :: 0 < i < |rest| + 1 ==> ([head] + rest)[i] == rest[i - 1];
    }
  }

  // ----- reading a spec -----

  /** What one spec asks for, once read. */
  datatype Params = Params(
    description: Json,
    setting: Json,
    values: seq<string>,
    orEmpty: Json,
    partial: Json,
    failOnMatch: bool,
    passOnMatch: bool,
    threshold: Json,
    negate: bool,
    selector: Selector)

  /** How a spec proceeds: an unknown type, a malformed selector, or the entries of its table. */
  datatype Plan =
    | BadType(description: Json)
    | BadSelect(description: Json)
    | Ready(params: Params, items: seq<(string, Json)>)

  /** The configuration section each known spec type reads. */
  function SectionOf(specType: Json): Option<string> {
    if specType == JStr("policy") then Some("config firewall policy")
    else if specType == JStr("addr") then Some("config firewall address")
    else if specType == JStr("addr6") then Some("config firewall address6")
    else if specType == JStr("addrgrp") then Some("config firewall addrgrp")
    else if specType == JStr("addr6grp") then Some("config firewall addr6grp")
    else if specType == JStr("admin") then Some("config system admin")
    else if specType == JStr("tacuser") then Some("config user tacacs+")
    else if specType == JStr("usergroup") then Some("config user group")
    else None
  }

  /** `re.split` of a spec field: only a string can be split. */
  function SplitField(v: Json): Outcome<seq<string>> {
    match v
    case JStr(s) => Ok(SplitPipes(s))
    case _ => Raised(TypeError)
  }

  /** Reads a spec in the source's order, up to the start of the entry loop. */
  function Prepare(data: Json, spec: Json): Outcome<Plan> {
    var specType :- Index(spec, "type");
    var select :- GetOr(spec, "select", JStr("all"));
    var setting :- Index(spec, "setting");
    var rawValue :- Index(spec, "value");
    var values :- SplitField(rawValue);
    var orEmpty :- GetOr(spec, "or_empty", JBool(false));
    var partial :- GetOr(spec, "partial_match", JBool(false));
    var failOnMatch :- GetOr(spec, "fail_on_match", JBool(false));
    var passOnMatch :- GetOr(spec, "pass_on_match", JBool(false));
    var threshold :- GetOr(spec, "pass_threshhold", JStr("all"));
    var negate :- GetOr(spec, "negate_match", JBool(false));
    var fallback := PyStr(specType) + ":" + PyStr(select) + ":" + PyStr(setting);
    var description :- GetOr(spec, "description", JStr(fallback));
    match SectionOf(specType)
    case None => Ok(BadType(description))
    case Some(section) =>
      var configuration :- Index(data, "fgt_cli_configuration");
      var hierarchy :- Index(configuration, "hierarchy");
      var context :- Index(hierarchy, section);
      if !select.JStr? then Raised(AttributeError)
      else
        var selector :=
          if StartsWith(select.s, "id:") then Some(Ids(SplitPipes(select.s[3..])))
          else if select.s == "all" || select.s == "any" then Some(All)
          else None;
        match selector
        case None => Ok(BadSelect(description))
        case Some(sel) =>
          var items :- Items(context);
          Ok(Ready(Params(description, setting, values, orEmpty, partial, Truthy(failOnMatch),
                          Truthy(passOnMatch), threshold, Truthy(negate), sel), items))
  }

  // ----- the entry loop -----

  /** One appended result: its description and validation status (approval NONE, no details). */
  datatype Entry = Entry(description: string, status: Status)

  /** The results appended so far, and whether an exception stopped the plugin. */
  datatype Run = Run(entries: seq<Entry>, failed: bool)

  datatype Tally = Tally(matched: nat, passed: nat, failed: nat)

  /** `entry.split(' ', 1)[-1].strip('"')`: the entry's name. */
  function EntryName(entry: string): string {
    var k := IndexFrom(entry, ' ', 0);
    Strip(if k < |entry| then entry[k + 1..] else entry, '"')
  }

  /** What one entry of the table does: nothing, append a result, count a verdict, or raise. */
  datatype Visit = Skip | Found(entry: Entry) | Judged(pass: bool) | Stopped

  /** The decision for one entry: is it selected, and what does its spec make of it. */
  function VisitOf(p: Params, item: (string, Json)): (v: Visit)
    ensures v.Found? ==> (p.failOnMatch || p.passOnMatch) && v.entry.status == if p.failOnMatch then FAIL else PASS
    ensures v.Judged? ==> !p.failOnMatch && !p.passOnMatch
    ensures v.Skip? <==> !CheckMatch(p.selector, item.0, p.negate)
    ensures v.Judged? ==> ValidateAny(item.1, p.setting, p.values, p.orEmpty, p.partial) == Ok(v.pass)
    ensures !p.failOnMatch && !p.passOnMatch && CheckMatch(p.selector, item.0, p.negate) ==>
      (v.Stopped? <==> ValidateAny(item.1, p.setting, p.values, p.orEmpty, p.partial).Raised?)
  {
    if !CheckMatch(p.selector, item.0, p.negate) then Skip
    else if p.failOnMatch || p.passOnMatch then
      match Concat(p.description, " (" + EntryName(item.0) + " found)")
      case Ok(d) => Found(Entry(d, if p.failOnMatch then FAIL else PASS))
      case Raised(_) => Stopped
    else
      match ValidateAny(item.1, p.setting, p.values, p.orEmpty, p.partial)
      case Ok(b) => Judged(b)
      case Raised(_) => Stopped
  }

  /** One more match, counted as a pass or a fail. */
  function Count(t: Tally, pass: bool): Tally {
    if pass then Tally(t.matched + 1, t.passed + 1, t.failed)
    else Tally(t.matched + 1, t.passed, t.failed + 1)
  }

  /** One entry of the table, once its visit is decided. */
  function EntryStep(v: Visit, run: Run, t: Tally): (Run, Tally) {
    match v
    case Skip => (run, t)
    case Found(e) => (Run(run.entries + [e], false), Count(t, e.status == PASS))
    case Judged(b) => (run, Count(t, b))
    case Stopped => (Run(run.entries, true), t.(matched := t.matched + 1))
  }

  /** The entry loop over the first `|items|` entries; it stops at the first exception. */
  function Entries(p: Params, items: seq<(string, Json)>): (Run, Tally)
    decreases |items|
  {
    if items == [] then (Run([], false), Tally(0, 0, 0))
    else
      var prev := Entries(p, items[..|items| - 1]);
      if prev.0.failed then prev else EntryStep(VisitOf(p, items[|items| - 1]), prev.0, prev.1)
  }

  /** The entry loop keeps `TallyHolds`. */
  lemma {:induction false} EntriesTally(p: Params, items: seq<(string, Json)>)
    ensures TallyHolds(p, Entries(p, items).0, Entries(p, items).1)
    decreases |items|
  {
    if items != [] {
      var prev := Entries(p, items[..|items| - 1]);
      EntriesTally(p, items[..|items| - 1]);
      if !prev.0.failed {
        StepTally(p, VisitOf(p, items[|items| - 1]), prev.0, prev.1);
      }
    }
  }

  /** One entry keeps `TallyHolds`, whatever the visit, as long as it agrees with the spec's flags. */
  lemma StepTally(p: Params, v: Visit, run: Run, t: Tally)
    requires TallyHolds(p, run, t) && !run.failed
    requires v.Found? ==> (p.failOnMatch || p.passOnMatch) && v.entry.status == if p.failOnMatch then FAIL else PASS
    requires v.Judged? ==> !p.failOnMatch && !p.passOnMatch
    ensures TallyHolds(p, EntryStep(v, run, t).0, EntryStep(v, run, t).1)
  {
    if v.Found? {
      var es := run.entries + [v.entry];
      assert forall i :: 0 <= i < |run.entries| ==> es[i] == run.entries[i];
    }
  }

  /**
   * Every match is counted once as a pass or a fail; under `fail_on_match`
   * every match appends one FAIL and nothing passes, under `pass_on_match`
   * one PASS and nothing fails, and otherwise the loop appends nothing.
   */
  predicate TallyHolds(p: Params, run: Run, t: Tally) {
    && (!run.failed ==> t.matched == t.passed + t.failed)
    && (p.failOnMatch ==>
          t.passed == 0 && |run.entries| == t.failed
          && forall i :: 0 <= i < |run.entries| ==> run.entries[i].status == FAIL)
    && (!p.failOnMatch && p.passOnMatch ==>
          t.failed == 0 && |run.entries| == t.passed
          && forall i :: 0 <= i < |run.entries| ==> run.entries[i].status == PASS)
    && (!p.failOnMatch && !p.passOnMatch ==> run.entries == [])
  }

  /** The number of entries the spec's selector picks. */
  function Selected(p: Params, items: seq<(string, Json)>): nat
    decreases |items|
  {
    if items == [] then 0
    else
      var last := items[|items| - 1];
      Selected(p, items[..|items| - 1]) + if CheckMatch(p.selector, last.0, p.negate) then 1 else 0
  }

  /** The number of selected entries whose setting validates. */
  function Validating(p: Params, items: seq<(string, Json)>): (n: nat)
    ensures n <= Selected(p, items)
    decreases |items|
  {
    if items == [] then 0
    else
      var last := items[|items| - 1];
      var pass := CheckMatch(p.selector, last.0, p.negate)
                  && ValidateAny(last.1, p.setting, p.values, p.orEmpty, p.partial) == Ok(true);
      Validating(p, items[..|items| - 1]) + if pass then 1 else 0
  }

  /**
   * What the counts count, when no exception stopped the loop: `match` is the
   * number of selected entries; without `fail_on_match`/`pass_on_match`,
   * `pass` is the number of those that validate and `fail` the rest; with one
   * of the flags, one result is appended per selected entry.
   */
  lemma {:induction false} TallyCounts(p: Params, items: seq<(string, Json)>)
    requires !Entries(p, items).0.failed
    ensures Entries(p, items).1.matched == Selected(p, items)
    ensures !p.failOnMatch && !p.passOnMatch ==>
      Entries(p, items).1.passed == Validating(p, items)
      && Entries(p, items).1.failed == Selected(p, items) - Validating(p, items)
    ensures p.failOnMatch || p.passOnMatch ==> |Entries(p, items).0.entries| == Selected(p, items)
    decreases |items|
  {
    EntriesTally(p, items);
    if items != [] {
      var init := items[..|items| - 1];
      assert !Entries(p, init).0.failed;
      TallyCounts(p, init);
      EntriesTally(p, init);
    }
  }

  lemma EntriesSnoc(p: Params, items: seq<(string, Json)>, i: nat)
    requires i < |items| && !Entries(p, items[..i]).0.failed
    ensures Entries(p, items[..i + 1]) == EntryStep(VisitOf(p, items[i]), Entries(p, items[..i]).0, Entries(p, items[..i]).1)
  {
    assert items[..i + 1][..i] == items[..i];
    assert items[..i + 1][i] == items[i];
  }

  /** Once an exception stops the loop, later entries add nothing. */
  lemma {:induction false} EntriesStopped(p: Params, items: seq<(string, Json)>, n: nat)
    requires n <= |items| && Entries(p, items[..n]).0.failed
    ensures Entries(p, items).0 == Entries(p, items[..n]).0
    decreases |items|
  {
    if n < |items| {
      assert items[..|items| - 1][..n] == items[..n];
      EntriesStopped(p, items[..|items| - 1], n);
    } else {
      assert items[..n] == items;
    }
  }

  // ----- the summary -----

  function Counts(a: nat, b: nat, m: nat): string {
    " (" + NatToString(a) + " pass/" + NatToString(b) + " fail/" + NatToString(m) + " matched)"
  }

  /** The thresholds judged by the `none` rule: `none` itself and every digit string worth zero. */
  predicate Swapped(threshold: Json) {
    threshold == JStr("none") || (threshold.JStr? && IsDigits(threshold.s) && ParseNat(threshold.s) == 0)
  }

  /**
   * The summary result for the spec's pass threshold. The `none` rule and a
   * threshold worth zero (`"0"`, `"00"`, ...) print the fail count in the
   * "pass" slot and the pass count in the "fail" slot.
   */
  function Summary(description: Json, threshold: Json, t: Tally): (r: Outcome<Option<Entry>>)
    ensures description.JStr? && threshold == JStr("all") ==>
      r.Ok? && r.value.Some? && (r.value.value.status == PASS <==> t.passed > 0 && t.failed == 0)
    ensures description.JStr? && threshold == JStr("any") ==>
      r.Ok? && r.value.Some? && (r.value.value.status == PASS <==> t.passed > 0)
    ensures description.JStr? && Swapped(threshold) ==>
      r.Ok? && r.value.Some? && (r.value.value.status == PASS <==> t.failed > 0 && t.passed == 0)
    ensures description.JStr? && threshold.JStr? && IsDigits(threshold.s) && ParseNat(threshold.s) > 0 ==>
      r.Ok? && r.value.Some? && (r.value.value.status == PASS <==> t.passed > ParseNat(threshold.s))
    ensures threshold.JStr? && threshold.s !in ["all", "any", "none"] && !IsDigits(threshold.s) ==> r == Ok(None)
    ensures !threshold.JStr? ==> r == Raised(AttributeError)
    ensures r.Ok? && r.value.Some? ==> r.value.value.status in {PASS, FAIL}
    ensures r.Ok? && r.value.Some? ==>
      description.JStr? && r.value.value.description == description.s +
        if Swapped(threshold) then Counts(t.failed, t.passed, t.matched) else Counts(t.passed, t.failed, t.matched)
  {
    var straight := Counts(t.passed, t.failed, t.matched);
    var swapped := Counts(t.failed, t.passed, t.matched);
    if threshold == JStr("all") then
      var d :- Concat(description, straight);
      Ok(Some(Entry(d, if t.passed > 0 && t.failed == 0 then PASS else FAIL)))
    else if threshold == JStr("any") then
      var d :- Concat(description, straight);
      Ok(Some(Entry(d, if t.passed > 0 then PASS else FAIL)))
    else if threshold == JStr("none") then
      var d :- Concat(description, swapped);
      Ok(Some(Entry(d, if t.failed > 0 && t.passed == 0 then PASS else FAIL)))
    else if !threshold.JStr? then Raised(AttributeError)
    else if IsDigits(threshold.s) then
      var n := ParseNat(threshold.s);
      if n > 0 then
        var d :- Concat(description, straight);
        Ok(Some(Entry(d, if t.passed > n then PASS else FAIL)))
      else
        var d :- Concat(description, swapped);
        Ok(Some(Entry(d, if t.failed > 0 && t.passed == 0 then PASS else FAIL)))
    else Ok(None)
  }

  /** What follows the entry loop: one PASS under `fail_on_match`, else the threshold summary. */
  function Closing(p: Params, t: Tally): Run {
    if p.failOnMatch then
      match Concat(p.description, " (user not found)")
      case Ok(d) => Run([Entry(d, PASS)], false)
      case Raised(_) => Run([], true)
    else
      match Summary(p.description, p.threshold, t)
      case Ok(Some(e)) => Run([e], false)
      case Ok(None) => Run([], false)
      case Raised(_) => Run([], true)
  }

  /** Everything one spec appends. */
  function SpecRun(data: Json, spec: Json): Run {
    match Prepare(data, spec)
    case Raised(_) => Run([], true)
    case Ok(BadType(description)) =>
      (match Concat(description, " [ERROR: type]")
       case Ok(d) => Run([Entry(d, FAIL)], false)
       case Raised(_) => Run([], true))
    case Ok(BadSelect(description)) =>
      (match Concat(description, " [ERROR: select]")
       case Ok(d) => Run([Entry(d, FAIL)], false)
       case Raised(_) => Run([], true))
    case Ok(Ready(p, items)) =>
      var (run, t) := Entries(p, items);
      if run.failed then run
      else
        var tail := Closing(p, t);
        Run(run.entries + tail.entries, tail.failed)
  }

  /** An unknown type or a malformed selector appends exactly one FAIL, marked with the error. */
  lemma SpecRunMalformed(data: Json, spec: Json)
    requires Prepare(data, spec).Ok? && !Prepare(data, spec).value.Ready?
    requires Prepare(data, spec).value.description.JStr?
    ensures var d := Prepare(data, spec).value.description.s;
      SpecRun(data, spec) == Run([Entry(d + if Prepare(data, spec).value.BadType? then " [ERROR: type]" else " [ERROR: select]", FAIL)], false)
  {
  }

  /**
   * Under `fail_on_match` a spec appends one FAIL per matched entry and then
   * one PASS `(user not found)`; with no match that PASS is all it appends.
   */
  lemma SpecRunFailOnMatch(data: Json, spec: Json)
    requires Prepare(data, spec).Ok? && Prepare(data, spec).value.Ready?
    requires var plan := Prepare(data, spec).value; plan.params.failOnMatch && plan.params.description.JStr?
    requires !Entries(Prepare(data, spec).value.params, Prepare(data, spec).value.items).0.failed
    ensures var plan := Prepare(data, spec).value;
      var t := Entries(plan.params, plan.items).1;
      var es := SpecRun(data, spec).entries;
      && !SpecRun(data, spec).failed
      && |es| == t.matched + 1 && t.matched == Selected(plan.params, plan.items)
      && (forall i :: 0 <= i < |es| - 1 ==> es[i].status == FAIL)
      && es[|es| - 1] == Entry(plan.params.description.s + " (user not found)", PASS)
  {
    var plan := Prepare(data, spec).value;
    EntriesTally(plan.params, plan.items);
    TallyCounts(plan.params, plan.items);
  }

  /**
   * Without `fail_on_match`/`pass_on_match`, a spec whose entry loop raises
   * nothing appends only what the threshold summary gives for the counts:
   * the selected entries, those that validate, and the rest.
   */
  lemma SpecRunSummary(data: Json, spec: Json)
    requires Prepare(data, spec).Ok? && Prepare(data, spec).value.Ready?
    requires var p := Prepare(data, spec).value.params; !p.failOnMatch && !p.passOnMatch
    requires !Entries(Prepare(data, spec).value.params, Prepare(data, spec).value.items).0.failed
    ensures var plan := Prepare(data, spec).value;
      var selected := Selected(plan.params, plan.items);
      var validating := Validating(plan.params, plan.items);
      SpecRun(data, spec) ==
        match Summary(plan.params.description, plan.params.threshold, Tally(selected, validating, selected - validating))
        case Ok(Some(e)) => Run([e], false)
        case Ok(None) => Run([], false)
        case Raised(_) => Run([], true)
  {
    var plan := Prepare(data, spec).value;
    var (run, t) := Entries(plan.params, plan.items);
    EntriesTally(plan.params, plan.items);
    TallyCounts(plan.params, plan.items);
    assert run.entries == [] && SpecRun(data, spec) == Run(Closing(plan.params, t).entries, Closing(plan.params, t).failed);
  }

  // ----- the whole plugin -----

  /** The specs run in order; the first exception ends the plugin. */
  function RunAll(data: Json, specs: seq<Json>): Run
    decreases |specs|
  {
    if specs == [] then Run([], false)
    else
      var prev := RunAll(data, specs[..|specs| - 1]);
      if prev.failed then prev
      else
        var next := SpecRun(data, specs[|specs| - 1]);
        Run(prev.entries + next.entries, next.failed)
  }

  lemma RunAllSnoc(data: Json, specs: seq<Json>, i: nat)
    requires i < |specs| && !RunAll(data, specs[..i]).failed
    ensures RunAll(data, specs[..i + 1]) ==
      Run(RunAll(data, specs[..i]).entries + SpecRun(data, specs[i]).entries, SpecRun(data, specs[i]).failed)
  {
    assert specs[..i + 1][..i] == specs[..i];
  }

  lemma {:induction false} RunAllStopped(data: Json, specs: seq<Json>, n: nat)
    requires n <= |specs| && RunAll(data, specs[..n]).failed
    ensures RunAll(data, specs) == RunAll(data, specs[..n])
    decreases |specs|
  {
    if n < |specs| {
      assert specs[..|specs| - 1][..n] == specs[..n];
      RunAllStopped(data, specs[..|specs| - 1], n);
    } else {
      assert specs[..n] == specs;
    }
  }

  /** The specs of `data['parameters']['setting_specs']`. */
  function Specs(data: Json): Outcome<seq<Json>> {
    var parameters :- Index(data, "parameters");
    var listed :- Index(parameters, "setting_specs");
    Iterate(listed)
  }

  /** Everything `check(data)` returns. */
  function Output(data: Json): seq<Entry> {
    match Specs(data)
    case Ok(specs) => RunAll(data, specs).entries
    case Raised(_) => []
  }

  /** Every result the plugin appends is a PASS or a FAIL. */
  lemma {:induction false} RunAllStatuses(data: Json, specs: seq<Json>)
    ensures forall i :: 0 <= i < |RunAll(data, specs).entries| ==> RunAll(data, specs).entries[i].status in {PASS, FAIL}
    decreases |specs|
  {
    if specs != [] {
      RunAllStatuses(data, specs[..|specs| - 1]);
      SpecRunStatuses(data, specs[|specs| - 1]);
    }
  }

  lemma SpecRunStatuses(data: Json, spec: Json)
    ensures forall i :: 0 <= i < |SpecRun(data, spec).entries| ==> SpecRun(data, spec).entries[i].status in {PASS, FAIL}
  {
    match Prepare(data, spec)
    case Ok(Ready(p, items)) =>
      EntriesTally(p, items);
    case _ =>
  }

  /** The results as the container holds them. */
  function ValuesOf(entries: seq<Entry>): (vs: seq<ResultValue>)
    ensures |vs| == |entries|
  {
    seq(|entries|, i requires 0 <= i < |entries| => ResultValue(entries[i].description, entries[i].status.Code(), NONE.Code(), []))
  }

  lemma ValuesOfConcat(a: seq<Entry>, b: seq<Entry>)
    ensures ValuesOf(a + b) == ValuesOf(a) + ValuesOf(b)
  {
  }

  /** `result += Result(description, status)`. */
  method Append(result: Results, description: string, status: Status)
    modifies result
    ensures result.Values() == old(result.Values()) + ValuesOf([Entry(description, status)])
  {
    var r := new Result(description, status.Code(), None);
    var _ := result.IAdd(OfResult(r));
  }

  /** What follows the entry loop, appended. */
  method Close(p: Params, t: Tally, result: Results) returns (failed: bool)
    modifies result
    ensures failed == Closing(p, t).failed
    ensures result.Values() == old(result.Values()) + ValuesOf(Closing(p, t).entries)
  {
    if p.failOnMatch {
      var d := Concat(p.description, " (user not found)");
      if d.Raised? {
        return true;
      }
      Append(result, d.value, PASS);
    } else {
      var summary := Summary(p.description, p.threshold, t);
      if summary.Raised? {
        return true;
      }
      if summary.value.Some? {
        Append(result, summary.value.value.description, summary.value.value.status);
      }
    }
    return false;
  }

  /** One entry of the loop, once its visit is decided: append under `*_on_match`, count a verdict, or stop. */
  method VisitEntry(v: Visit, ghost base: seq<ResultValue>, ghost run: Run, t: Tally, result: Results) returns (stop: bool, next: Tally)
    requires !run.failed
    requires result.Values() == base + ValuesOf(run.entries)
    modifies result
    ensures stop == EntryStep(v, run, t).0.failed
    ensures next == EntryStep(v, run, t).1
    ensures result.Values() == base + ValuesOf(EntryStep(v, run, t).0.entries)
  {
    match v {
      case Skip =>
        return false, t;
      case Found(e) =>
        Append(result, e.description, e.status);
        ValuesOfConcat(run.entries, [e]);
        return false, Count(t, e.status == PASS);
      case Judged(pass) =>
        return false, Count(t, pass);
      case Stopped =>
        return true, t.(matched := t.matched + 1);
    }
  }

  /** The entry loop: `match_count`, `pass_count` and `fail_count` over the selected entries. */
  method RunEntries(p: Params, items: seq<(string, Json)>, result: Results) returns (failed: bool, tally: Tally)
    modifies result
    ensures failed == Entries(p, items).0.failed
    ensures !failed ==> tally == Entries(p, items).1
    ensures result.Values() == old(result.Values()) + ValuesOf(Entries(p, items).0.entries)
  {
    ghost var start := result.Values();
    tally := Tally(0, 0, 0);
    for i := 0 to |items|
      invariant !Entries(p, items[..i]).0.failed
      invariant Entries(p, items[..i]).1 == tally
      invariant result.Values() == start + ValuesOf(Entries(p, items[..i]).0.entries)
    {
      ghost var before := Entries(p, items[..i]);
      EntriesSnoc(p, items, i);
      var stop;
      stop, tally := VisitEntry(VisitOf(p, items[i]), start, before.0, tally, result);
      if stop {
        EntriesStopped(p, items, i + 1);
        return true, tally;
      }
    }
    assert items[..|items|] == items;
    return false, tally;
  }

  /** The body of the spec loop, for one spec. */
  method RunSpec(data: Json, spec: Json, result: Results) returns (failed: bool)
    modifies result
    ensures failed == SpecRun(data, spec).failed
    ensures result.Values() == old(result.Values()) + ValuesOf(SpecRun(data, spec).entries)
  {
    var prepared := Prepare(data, spec);
    if prepared.Raised? {
      return true;
    }
    var plan := prepared.value;
    if !plan.Ready? {
      var marked := Concat(plan.description, if plan.BadType? then " [ERROR: type]" else " [ERROR: select]");
      if marked.Raised? {
        return true;
      }
      Append(result, marked.value, FAIL);
      return false;
    }
    var p, items := plan.params, plan.items;
    var stopped, tally := RunEntries(p, items, result);
    if stopped {
      return true;
    }
    ghost var run := Entries(p, items).0;
    failed := Close(p, tally, result);
    ValuesOfConcat(run.entries, Closing(p, tally).entries);
  }

  /** `check(data)`, given the decoded input. */
  method Check(data: Json) returns (result: Results)
    ensures fresh(result)
    ensures result.Values() == ValuesOf(Output(data))
  {
    result := new Results();
    var specs := Specs(data);
    if specs.Raised? {
      return;
    }
    var all := specs.value;
    for i := 0 to |all|
      invariant fresh(result)
      invariant !RunAll(data, all[..i]).failed
      invariant result.Values() == ValuesOf(RunAll(data, all[..i]).entries)
    {
      ghost var prev := RunAll(data, all[..i]);
      RunAllSnoc(data, all, i);
      var failed := RunSpec(data, all[i], result);
      ValuesOfConcat(prev.entries, SpecRun(data, all[i]).entries);
      if failed {
        RunAllStopped(data, all, i + 1);
        return;
      }
    }
    assert all[..|all|] == all;
  }
}
