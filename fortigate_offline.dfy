/**
 * The `fortigate_offline` validation model: it turns the lines of a FortiGate
 * CLI configuration dump into the `fgt_cli_configuration` capability, a
 * nested hierarchy keyed by the `config`/`edit` directive texts, a flat log
 * `"<path>|set <key>" -> value`, the firmware version and two indices
 * (interfaces and administrator accounts).
 *
 * The source builds the hierarchy out of Python dicts that it mutates through
 * an alias (`context` is the dict at the current path). Here the hierarchy is
 * a `Json` value; the alias is the walker's `context`, and every `set` writes
 * both the context and the node at the current path, which `Aligned` proves to
 * be the same thing.
 *
 * The source as written cannot run (see `ProcessAsWritten`); the model follows
 * its evident intent: a list of logical lines separate from the flat log, and
 * `set_value` storing `val`.
 */
module FortigateOffline {
  import opened Support
  import opened Json

  /** The separator put between re-joined physical lines: a backslash and an `n`, not a newline. */
  const Sep: string := "\\n"

  function QuoteCount(s: string): nat {
    CountChar(s, '"')
  }

  // ----- re-joining lines broken inside a quoted string -----

  /**
   * The logical lines of `file`, while `pending` holds the text of a line
   * left open by an odd number of `"` ("" when nothing is held back).
   */
  function LogicalLines(pending: string, file: seq<string>): seq<string>
    decreases |file|
  {
    if file == [] then (if pending != "" then [pending] else [])
    else
      var line := if pending != "" then pending + Sep + file[0] else file[0];
      if QuoteCount(line) % 2 == 1 then LogicalLines(line, file[1..])
      else [line] + LogicalLines("", file[1..])
  }

  /**
   * The `quoted_newline` loop of `process`: its lines are the shortest
   * balanced runs of physical lines, in order (see `Segmented`).
   */
  method JoinQuotedLines(file: seq<string>) returns (lines: seq<string>)
    ensures lines == LogicalLines("", file)
    ensures exists runs :: Segmented(file, lines, runs)
  {
    lines := [];
    var quotedNewline := "";
    for i := 0 to |file|
      invariant LogicalLines("", file) == lines + LogicalLines(quotedNewline, file[i..])
    {
      assert file[i..][0] == file[i] && file[i..][1..] == file[i + 1..];
      var line := file[i];
      if quotedNewline != "" {
        line := quotedNewline + Sep + line;
      }
      if QuoteCount(line) % 2 == 1 {
        quotedNewline := line;
        continue;
      }
      quotedNewline := "";
      lines := lines + [line];
    }
    if quotedNewline != "" {
      lines := lines + [quotedNewline];
    }
    assert file[|file|..] == [] && lines == LogicalLines("", file);
    ghost var runs := LogicalLinesRuns([], file);
    assert [] + file == file && Join(Sep, []) == "";
  }

  function Held(pending: string): seq<string> {
    if pending != "" then [pending] else []
  }

  lemma {:induction false} JoinCons(a: string, rest: seq<string>)
    ensures Join(Sep, [a] + rest) == if rest == [] then a else a + Sep + Join(Sep, rest)
  {
    assert ([a] + rest)[1..] == rest;
  }

  lemma {:induction false} LogicalLinesEmpty(pending: string, file: seq<string>)
    ensures LogicalLines(pending, file) == [] <==> pending == "" && file == []
    decreases |file|
  {
    if file != [] {
      var line := if pending != "" then pending + Sep + file[0] else file[0];
      if QuoteCount(line) % 2 == 1 {
        LogicalLinesEmpty(line, file[1..]);
      }
    }
  }

  /**
   * Nothing is lost or added: the logical lines joined with the separator are
   * the held text and the physical lines joined with the separator.
   */
  lemma {:induction false} LogicalLinesRejoin(pending: string, file: seq<string>)
    ensures Join(Sep, LogicalLines(pending, file)) == Join(Sep, Held(pending) + file)
    decreases |file|
  {
    if file != [] {
      var x, rest := file[0], file[1..];
      assert file == [x] + rest;
      var line := if pending != "" then pending + Sep + x else x;
      // The held text and the next physical line, joined, make `line`.
      assert Join(Sep, Held(pending) + file) == Join(Sep, [line] + rest) by {
        if pending != "" {
          assert Held(pending) + file == [pending] + ([x] + rest);
          JoinCons(pending, [x] + rest);
          JoinCons(x, rest);
          JoinCons(line, rest);
        } else {
          assert Held(pending) + file == [x] + rest;
        }
      }
      if QuoteCount(line) % 2 == 1 {
        LogicalLinesRejoin(line, rest);
        assert Held(line) == [line];
      } else {
        LogicalLinesRejoin("", rest);
        LogicalLinesEmpty("", rest);
        assert Held("") + rest == rest;
        JoinCons(line, LogicalLines("", rest));
        JoinCons(line, rest);
      }
    } else {
      assert Held(pending) + file == Held(pending);
    }
  }

  /** Every logical line but the last has an even number of `"`; only text still open at the end of the input can be odd. */
  lemma {:induction false} LogicalLinesBalanced(pending: string, file: seq<string>)
    ensures forall i :: 0 <= i < |LogicalLines(pending, file)| - 1 ==> QuoteCount(LogicalLines(pending, file)[i]) % 2 == 0
    ensures pending == "" ==> |LogicalLines(pending, file)| <= |file|
    decreases |file|
  {
    if file != [] {
      var line := if pending != "" then pending + Sep + file[0] else file[0];
      if QuoteCount(line) % 2 == 1 {
        LogicalLinesBalanced(line, file[1..]);
        LogicalLinesEmpty(line, file[1..]);
        if pending == "" {
          LogicalLinesHeldBound(line, file[1..]);
        }
      } else {
        LogicalLinesBalanced("", file[1..]);
        var r := LogicalLines(pending, file);
        assert r == [line] + LogicalLines("", file[1..]);
        forall i | 0 <= i < |r| - 1
          ensures QuoteCount(r[i]) % 2 == 0
        {
          if i > 0 {
            assert r[i] == LogicalLines("", file[1..])[i - 1];
          }
        }
      }
    }
  }

  lemma {:induction false} LogicalLinesHeldBound(pending: string, file: seq<string>)
    ensures |LogicalLines(pending, file)| <= |file| + 1
    decreases |file|
  {
    if file != [] {
      var line := if pending != "" then pending + Sep + file[0] else file[0];
      LogicalLinesHeldBound(line, file[1..]);
      LogicalLinesHeldBound("", file[1..]);
    }
  }

  // ----- the logical lines are the shortest balanced runs of physical lines -----

  /** Every non-empty prefix of `run`, up to its first `n` lines, joined, has an odd number of `"`. */
  predicate OddPrefixes(run: seq<string>, n: nat)
    requires n <= |run|
  {
    forall j :: 0 < j <= n ==> QuoteCount(Join(Sep, run[..j])) % 2 == 1
  }

  /** The runs of physical lines laid end to end. */
  function Flatten(runs: seq<seq<string>>): seq<string>
    decreases |runs|
  {
    if runs == [] then [] else runs[0] + Flatten(runs[1..])
  }

  /**
   * `lines` cut `file` into the consecutive non-empty `runs`: each logical
   * line is its run of physical lines joined with the separator, each run
   * stops at the first physical line that balances its quotes (every shorter
   * run is odd), and every line but the last is balanced. This fixes the
   * runs: a run is never extended past a balanced line and never stopped
   * early.
   */
  predicate Segmented(file: seq<string>, lines: seq<string>, runs: seq<seq<string>>) {
    Flatten(runs) == file && |runs| == |lines| && ShortestRuns(lines, runs) && ClosedBalanced(lines)
  }

  /** Each line joins its own non-empty run, and every shorter start of that run is odd. */
  predicate ShortestRuns(lines: seq<string>, runs: seq<seq<string>>)
    requires |runs| == |lines|
  {
    forall k :: 0 <= k < |runs| ==>
      runs[k] != [] && lines[k] == Join(Sep, runs[k]) && OddPrefixes(runs[k], |runs[k]| - 1)
  }

  /** Every line but the last has an even number of `"`. */
  predicate ClosedBalanced(lines: seq<string>) {
    forall k :: 0 <= k < |lines| - 1 ==> QuoteCount(lines[k]) % 2 == 0
  }

  lemma {:induction false} JoinSnoc(parts: seq<string>, x: string)
    ensures Join(Sep, parts + [x]) == if parts == [] then x else Join(Sep, parts) + Sep + x
    decreases |parts|
  {
    if |parts| > 1 {
      assert (parts + [x])[1..] == parts[1..] + [x];
      JoinSnoc(parts[1..], x);
    } else if |parts| == 1 {
      assert (parts + [x])[1..] == [x];
    }
  }

  /** Held text is non-empty exactly when some line is held: an odd run holds a `"`. */
  lemma HeldText(held: seq<string>)
    requires held != [] ==> OddPrefixes(held, |held|)
    ensures Join(Sep, held) != "" <==> held != []
  {
    if held != [] {
      assert held[..|held|] == held;
      assert QuoteCount(Join(Sep, held)) % 2 == 1;
    }
  }

  /** A balanced run of lines put in front of a segmentation is one more segment. */
  lemma SegmentedCons(run: seq<string>, rest: seq<string>, lines: seq<string>, runs: seq<seq<string>>)
    requires run != [] && OddPrefixes(run, |run| - 1) && QuoteCount(Join(Sep, run)) % 2 == 0
    requires Segmented(rest, lines, runs)
    ensures Segmented(run + rest, [Join(Sep, run)] + lines, [run] + runs)
  {
    assert ([run] + runs)[1..] == runs;
    ShortestRunsCons(run, lines, runs);
    ClosedBalancedCons(Join(Sep, run), lines);
  }

  lemma ShortestRunsCons(run: seq<string>, lines: seq<string>, runs: seq<seq<string>>)
    requires run != [] && OddPrefixes(run, |run| - 1)
    requires |runs| == |lines| && ShortestRuns(lines, runs)
    ensures ShortestRuns([Join(Sep, run)] + lines, [run] + runs)
  {
    var runs' := [run] + runs;
    var lines' := [Join(Sep, run)] + lines;
    forall k | 0 <= k < |runs'|
      ensures runs'[k] != [] && lines'[k] == Join(Sep, runs'[k]) && OddPrefixes(runs'[k], |runs'[k]| - 1)
    {
      if k > 0 {
        assert runs'[k] == runs[k - 1] && lines'[k] == lines[k - 1];
      }
    }
  }

  lemma ClosedBalancedCons(line: string, lines: seq<string>)
    requires QuoteCount(line) % 2 == 0 && ClosedBalanced(lines)
    ensures ClosedBalanced([line] + lines)
  {
    var lines' := [line] + lines;
    forall k | 0 < k < |lines'| - 1 ensures QuoteCount(lines'[k]) % 2 == 0 {
      assert lines'[k] == lines[k - 1];
    }
  }

  /**
   * The logical lines, while `held` physical lines are held back, segment
   * the held lines followed by the rest of the file.
   */
  lemma {:induction false} LogicalLinesRuns(held: seq<string>, file: seq<string>) returns (runs: seq<seq<string>>)
    requires held != [] ==> OddPrefixes(held, |held|)
    ensures Segmented(held + file, LogicalLines(Join(Sep, held), file), runs)
    decreases |file|
  {
    HeldText(held);
    var pending := Join(Sep, held);
    if file == [] {
      assert held + file == held;
      if held == [] {
        runs := [];
      } else {
        runs := [held];
        assert Flatten(runs) == held + Flatten([]);
      }
    } else {
      var x, rest := file[0], file[1..];
      var run := held + [x];
      JoinSnoc(held, x);
      var line := if pending != "" then pending + Sep + x else x;
      assert line == Join(Sep, run);
      assert held + file == run + rest;
      assert OddPrefixes(run, |run| - 1) by {
        forall j | 0 < j <= |run| - 1 ensures QuoteCount(Join(Sep, run[..j])) % 2 == 1 {
          assert run[..j] == held[..j];
        }
      }
      if QuoteCount(line) % 2 == 1 {
        assert run[..|run|] == run;
        runs := LogicalLinesRuns(run, rest);
      } else {
        var tail := LogicalLinesRuns([], rest);
        assert [] + rest == rest;
        SegmentedCons(run, rest, LogicalLines("", rest), tail);
        runs := [run] + tail;
      }
    }
  }

  /** A file whose every physical line is balanced is its own list of logical lines. */
  lemma {:induction false} LogicalLinesAllBalanced(file: seq<string>)
    requires forall i :: 0 <= i < |file| ==> QuoteCount(file[i]) % 2 == 0
    ensures LogicalLines("", file) == file
    decreases |file|
  {
    if file != [] {
      assert forall i :: 0 <= i < |file[1..]| ==> file[1..][i] == file[i + 1];
      LogicalLinesAllBalanced(file[1..]);
    }
  }

  // ----- shlex.split(line, posix=False) -----

  predicate IsShlexSpace(c: char) {
    c == ' ' || c == '\t' || c == '\r' || c == '\n'
  }

  predicate IsQuoteChar(c: char) {
    c == '"' || c == '\''
  }

  /** The end of an unquoted word starting at `from`: the first whitespace, or `|s|`. */
  function WordEnd(s: string, from: nat): (k: nat)
    requires from <= |s|
    ensures from <= k <= |s|
    ensures k < |s| ==> IsShlexSpace(s[k])
    ensures forall i :: from <= i < k ==> !IsShlexSpace(s[i])
    decreases |s| - from
  {
    if from == |s| || IsShlexSpace(s[from]) then from else WordEnd(s, from + 1)
  }

  /**
   * `shlex.split(s, posix=False)`: whitespace separates tokens; a token that
   * starts with a quote runs to the matching quote and keeps both quotes (a
   * missing closing quote raises ValueError); quotes inside a word are
   * ordinary characters; there are no escapes and no comments.
   */
  function Tokenize(s: string): Outcome<seq<string>>
    decreases |s|
  {
    if s == [] then Ok([])
    else if IsShlexSpace(s[0]) then Tokenize(s[1..])
    else if IsQuoteChar(s[0]) then
      var close := IndexFrom(s, s[0], 1);
      if close == |s| then Raised(ValueError)
      else
        var rest :- Tokenize(s[close + 1..]);
        Ok([s[..close + 1]] + rest)
    else
      var end := WordEnd(s, 0);
      var rest :- Tokenize(s[end..]);
      Ok([s[..end]] + rest)
  }

  /** A token that `Tokenize` gives back unchanged: a run without whitespace, or a quoted run. */
  predicate PlainToken(w: string) {
    && w != []
    && if IsQuoteChar(w[0])
       then |w| >= 2 && w[|w| - 1] == w[0] && forall i :: 0 < i < |w| - 1 ==> w[i] != w[0]
       else forall i :: 0 <= i < |w| ==> !IsShlexSpace(w[i])
  }

  /** Tokens written out with single spaces are read back as the same tokens. */
  lemma {:induction false} TokenizeJoin(ws: seq<string>)
    requires forall i :: 0 <= i < |ws| ==> PlainToken(ws[i])
    ensures Tokenize(Join(" ", ws)) == Ok(ws)
    decreases |ws|
  {
    if ws != [] {
      var w, rest := ws[0], ws[1..];
      var s := Join(" ", ws);
      var tail := if rest == [] then "" else " " + Join(" ", rest);
      assert s == w + tail;
      assert s[..|w|] == w;
      assert s[|w|..] == tail;
      TokenizeJoin(rest);
      if rest != [] {
        assert tail[1..] == Join(" ", rest);
      }
      assert Tokenize(tail) == Ok(rest);
      if IsQuoteChar(w[0]) {
        forall i | 0 <= i < |w| ensures s[i] == w[i] {
        }
        assert IndexFrom(s, s[0], 1) == |w| - 1 by {
          IndexFromAt(s, s[0], 1, |w| - 1);
        }
        assert !IsShlexSpace(s[0]) && IsQuoteChar(s[0]);
        assert s[|w| - 1 + 1..] == tail;
        assert Tokenize(s) == Ok([s[..|w|]] + rest);
        assert [w] + rest == ws;
      } else {
        if tail != [] {
          assert IsShlexSpace(s[|w|]);
        }
        forall i | 0 <= i < |w| ensures !IsShlexSpace(s[i]) {
          assert s[i] == w[i];
        }
        WordEndAt(s, |w|);
        assert !IsShlexSpace(s[0]) && !IsQuoteChar(s[0]);
        assert Tokenize(s) == Ok([s[..|w|]] + rest);
        assert [w] + rest == ws;
      }
    }
  }

  lemma IndexFromAt(s: string, c: char, from: nat, k: nat)
    requires from <= k < |s| && s[k] == c
    requires forall i :: from <= i < k ==> s[i] != c
    ensures IndexFrom(s, c, from) == k
    decreases k - from
  {
    if from < k {
      IndexFromAt(s, c, from + 1, k);
    }
  }

  lemma WordEndAtFrom(s: string, from: nat, k: nat)
    requires from <= k <= |s|
    requires k < |s| ==> IsShlexSpace(s[k])
    requires forall i :: from <= i < k ==> !IsShlexSpace(s[i])
    ensures WordEnd(s, from) == k
    decreases k - from
  {
    if from < k {
      WordEndAtFrom(s, from + 1, k);
    }
  }

  lemma WordEndAt(s: string, k: nat)
    requires 0 < k <= |s|
    requires k < |s| ==> IsShlexSpace(s[k])
    requires forall i :: 0 <= i < k ==> !IsShlexSpace(s[i])
    ensures WordEnd(s, 0) == k
  {
    WordEndAtFrom(s, 0, k);
  }

  /** The first token of a line starts with the line's first character, when that is neither whitespace nor a quote. */
  lemma FirstTokenStart(s: string)
    requires s != [] && !IsShlexSpace(s[0]) && !IsQuoteChar(s[0]) && Tokenize(s).Ok?
    ensures Tokenize(s).value != [] && Tokenize(s).value[0] != [] && Tokenize(s).value[0][0] == s[0]
  {
  }

  // ----- match_prefix -----

  /** `match_prefix(prefix, cli_cfg)`: the entries whose key starts with `prefix`, in map order. */
  function MatchPrefix(prefix: string, cfg: seq<(string, string)>): (r: seq<(string, string)>)
    ensures |r| <= |cfg|
    ensures forall i :: 0 <= i < |r| ==> StartsWith(r[i].0, prefix) && r[i] in cfg
    ensures forall i :: 0 <= i < |cfg| && StartsWith(cfg[i].0, prefix) ==> cfg[i] in r
    decreases |cfg|
  {
    if cfg == [] then []
    else
      var rest := MatchPrefix(prefix, cfg[1..]);
      assert forall e :: e in cfg[1..] ==> e in cfg;
      assert forall i :: 1 <= i < |cfg| ==> cfg[i] == cfg[1..][i - 1];
      if StartsWith(cfg[0].0, prefix) then [cfg[0]] + rest else rest
  }

  /** Filtering distributes over concatenation, so the entries come out in the map's own order. */
  lemma {:induction false} MatchPrefixConcat(prefix: string, a: seq<(string, string)>, b: seq<(string, string)>)
    ensures MatchPrefix(prefix, a + b) == MatchPrefix(prefix, a) + MatchPrefix(prefix, b)
    decreases |a|
  {
    if a == [] {
      assert a + b == b;
    } else {
      assert (a + b)[0] == a[0];
      assert (a + b)[1..] == a[1..] + b;
      MatchPrefixConcat(prefix, a[1..], b);
    }
  }

  // ----- the hierarchy -----

  /** The node reached from `h` by following `path`, if every step exists. */
  function Lookup(h: Json, path: seq<string>): Option<Json>
    decreases |path|
  {
    if path == [] then Some(h)
    else
      match h
      case JObj(fields) =>
        (match Get(fields, path[0]) case Some(child) => Lookup(child, path[1..]) case None => None)
      case _ => None
  }

  /** `h` with the node at `path` replaced by `node` (unchanged when `path` does not resolve). */
  function Replace(h: Json, path: seq<string>, node: Json): Json
    decreases |path|
  {
    if path == [] then node
    else
      match h
      case JObj(fields) =>
        (match Get(fields, path[0])
         case Some(child) => JObj(Put(fields, path[0], Replace(child, path[1..], node)))
         case None => h)
      case _ => h
  }

  lemma {:induction false} LookupReplace(h: Json, path: seq<string>, node: Json)
    requires Lookup(h, path).Some?
    ensures Lookup(Replace(h, path, node), path) == Some(node)
    decreases |path|
  {
    if path != [] {
      LookupReplace(Get(h.fields, path[0]).value, path[1..], node);
    }
  }

  lemma {:induction false} PutGet<K(!new), V>(d: seq<(K, V)>, k: K)
    requires Get(d, k).Some?
    ensures Put(d, k, Get(d, k).value) == d
    decreases |d|
  {
    if d[0].0 != k {
      PutGet(d[1..], k);
    }
  }

  /**
   * `get_context(h, path)`: the hierarchy after the walk (a missing segment
   * gets an empty dict) and the node reached. A non-empty remaining path
   * through a string leaf raises TypeError, as indexing a Python `str` with
   * a string does.
   */
  function GetContext(h: Json, path: seq<string>): (r: Outcome<(Json, Json)>)
    ensures r.Raised? ==> r.error == TypeError
    decreases |path|
  {
    if path == [] then Ok((h, h))
    else
      match h
      case JObj(fields) =>
        var child := match Get(fields, path[0]) case Some(c) => c case None => JObj([]);
        var r :- GetContext(child, path[1..]);
        Ok((JObj(Put(fields, path[0], r.0)), r.1))
      case _ => Raised(TypeError)
  }

  /**
   * `get_context` returns the node at `path` in the hierarchy it leaves
   * behind; that node is the existing one when the path already resolved and
   * a new empty dict otherwise; a hierarchy in which the path already
   * resolved is left as it was.
   */
  lemma {:induction false} GetContextSpec(h: Json, path: seq<string>)
    requires GetContext(h, path).Ok?
    ensures Lookup(GetContext(h, path).value.0, path) == Some(GetContext(h, path).value.1)
    ensures GetContext(h, path).value.1 == match Lookup(h, path) case Some(n) => n case None => JObj([])
    ensures Lookup(h, path).Some? ==> GetContext(h, path).value.0 == h
    decreases |path|
  {
    if path != [] {
      var fields := h.fields;
      var child := match Get(fields, path[0]) case Some(c) => c case None => JObj([]);
      GetContextSpec(child, path[1..]);
      if Get(fields, path[0]).None? {
        assert Lookup(JObj([]), path[1..]) == if path[1..] == [] then Some(JObj([])) else None;
      } else if Lookup(h, path).Some? {
        PutGet(fields, path[0]);
      }
    }
  }

  /** `get_context` leaves existing entries untouched: whatever resolved still resolves, and every string leaf keeps its value. */
  lemma {:induction false} GetContextKeeps(h: Json, path: seq<string>, q: seq<string>)
    requires GetContext(h, path).Ok? && Lookup(h, q).Some?
    ensures Lookup(GetContext(h, path).value.0, q).Some?
    ensures Lookup(h, q).value.JStr? ==> Lookup(GetContext(h, path).value.0, q) == Lookup(h, q)
    decreases |path|
  {
    if path != [] && q != [] {
      var fields := h.fields;
      var child := match Get(fields, path[0]) case Some(c) => c case None => JObj([]);
      if q[0] == path[0] {
        GetContextKeeps(child, path[1..], q[1..]);
      }
    }
  }

  // ----- walking the directives -----

  /** The state of the directive walk: the hierarchy, the path stack, the current context, the flat log and the firmware version. */
  datatype Walker = Walker(
    hierarchy: Json,
    path: seq<string>,
    context: Json,
    log: seq<(string, string)>,
    fwVersion: Option<string>)

  const Start: Walker := Walker(JObj([]), [], JObj([]), [], None)

  /** The current context is the node at the current path (the source's alias). */
  predicate Aligned(w: Walker) {
    Lookup(w.hierarchy, w.path) == Some(w.context)
  }

  /** Moves to `path`: `context = get_context(config_hier, hier)`. */
  function Descend(w: Walker, path: seq<string>): Outcome<Walker> {
    var r :- GetContext(w.hierarchy, path);
    Ok(w.(hierarchy := r.0, path := path, context := r.1))
  }

  /** The flat-log key of `set <key>` at `path`. */
  function LogKey(path: seq<string>, key: string): string {
    Join("|", path) + "|set " + key
  }

  /** One directive, given its first token `act` and the remaining tokens. */
  function Directive(w: Walker, line: string, act: string, params: seq<string>): Outcome<Walker> {
    if act == "end" || act == "next" then
      if w.path == [] then Raised(IndexError) else Descend(w, w.path[..|w.path| - 1])
    else if act == "config" || act == "edit" then
      Descend(w, w.path + [LStrip(line)])
    else if act == "set" then
      if params == [] then Raised(IndexError)
      else
        var value := Join(" ", params[1..]);
        match w.context
        case JObj(fields) =>
          var ctx := JObj(Put(fields, params[0], JStr(value)));
          Ok(w.(hierarchy := Replace(w.hierarchy, w.path, ctx), context := ctx,
                log := Put(w.log, LogKey(w.path, params[0]), value)))
        case _ => Raised(TypeError)
    else Ok(w)
  }

  /** The version field of a `#config-version` line: its third hyphen-delimited field. */
  function VersionField(line: string): Outcome<string> {
    var fields := Split(line, '-');
    if |fields| < 3 then Raised(IndexError) else Ok(fields[2])
  }

  /** One logical line of the directive walk. */
  function Step(w: Walker, line: string): Outcome<Walker> {
    if line == "" then Ok(w)
    else
      var w1 :- if StartsWith(line, "#config-version")
                then (var v :- VersionField(line); Ok(w.(fwVersion := Some(v))))
                else Ok(w);
      var tokens :- Tokenize(line);
      if tokens == [] then Raised(IndexError)
      else Directive(w1, line, tokens[0], tokens[1..])
  }

  /** The whole directive walk: the first failing line aborts it. */
  function Walk(w: Walker, lines: seq<string>): Outcome<Walker>
    decreases |lines|
  {
    if lines == [] then Ok(w)
    else
      var w' :- Step(w, lines[0]);
      Walk(w', lines[1..])
  }

  /** After every directive the current context is still the node at the current path. */
  lemma StepAligned(w: Walker, line: string)
    requires Aligned(w) && Step(w, line).Ok?
    ensures Aligned(Step(w, line).value)
  {
    if line != "" {
      var w1 := if StartsWith(line, "#config-version") then w.(fwVersion := Some(VersionField(line).value)) else w;
      var tokens := Tokenize(line).value;
      var act, params := tokens[0], tokens[1..];
      if act == "end" || act == "next" {
        GetContextSpec(w1.hierarchy, w1.path[..|w1.path| - 1]);
      } else if act == "config" || act == "edit" {
        GetContextSpec(w1.hierarchy, w1.path + [LStrip(line)]);
      } else if act == "set" {
        var ctx := JObj(Put(w1.context.fields, params[0], JStr(Join(" ", params[1..]))));
        LookupReplace(w1.hierarchy, w1.path, ctx);
      }
    }
  }

  /** `config`/`edit` push the left-trimmed line, `next`/`end` pop one segment and fail on an empty stack, `set` writes the space-joined values. */
  lemma StepDirective(w: Walker, line: string)
    requires line != [] && !StartsWith(line, "#config-version") && Tokenize(line).Ok? && Tokenize(line).value != []
    ensures var tokens := Tokenize(line).value;
      && ((tokens[0] == "end" || tokens[0] == "next") ==>
            (w.path == [] <==> Step(w, line) == Raised(IndexError))
            && (Step(w, line).Ok? ==> Step(w, line).value.path == w.path[..|w.path| - 1]))
      && ((tokens[0] == "config" || tokens[0] == "edit") && Step(w, line).Ok? ==>
            Step(w, line).value.path == w.path + [LStrip(line)])
      && (tokens[0] == "set" && |tokens| >= 2 && w.context.JObj? ==>
            && Step(w, line).Ok?
            && var w' := Step(w, line).value;
            && w'.path == w.path
            && Get(w'.log, LogKey(w.path, tokens[1])) == Some(Join(" ", tokens[2..]))
            && Get(w'.context.fields, tokens[1]) == Some(JStr(Join(" ", tokens[2..]))))
  {
  }

  /** The line `set <key> <values...>` written with single spaces, and what the tokenizer makes of it. */
  lemma SetLine(key: string, values: seq<string>)
    requires PlainToken(key) && forall i :: 0 <= i < |values| ==> PlainToken(values[i])
    ensures var line := Join(" ", ["set", key] + values);
      && line != [] && !StartsWith(line, "#config-version")
      && Tokenize(line) == Ok(["set", key] + values)
  {
    var ws := ["set", key] + values;
    SetTokensPlain(key, values);
    TokenizeJoin(ws);
    JoinHead(ws);
    NotVersionLine(Join(" ", ws));
  }

  lemma SetTokensPlain(key: string, values: seq<string>)
    requires PlainToken(key) && forall i :: 0 <= i < |values| ==> PlainToken(values[i])
    ensures var ws := ["set", key] + values; forall i :: 0 <= i < |ws| ==> PlainToken(ws[i])
  {
    var ws := ["set", key] + values;
    assert PlainToken("set");
    forall i | 0 <= i < |ws| ensures PlainToken(ws[i]) {
      if i >= 2 {
        assert ws[i] == values[i - 2];
      }
    }
  }

  lemma JoinHead(ws: seq<string>)
    requires |ws| > 1 && ws[0] == "set"
    ensures Join(" ", ws) != [] && Join(" ", ws)[0] == 's'
  {
  }

  lemma NotVersionLine(line: string)
    requires line != [] && line[0] == 's'
    ensures !StartsWith(line, "#config-version")
  {
  }

  /** A `set <key> <values...>` line stores the values joined with single spaces, in the context and in the flat log, and keeps the walk aligned. */
  lemma StepSet(w: Walker, line: string, key: string, values: seq<string>)
    requires line != [] && !StartsWith(line, "#config-version")
    requires Tokenize(line) == Ok(["set", key] + values)
    requires w.context.JObj?
    ensures Step(w, line).Ok?
    ensures var w' := Step(w, line).value;
      && w'.path == w.path
      && Get(w'.log, LogKey(w.path, key)) == Some(Join(" ", values))
      && Get(w'.context.fields, key) == Some(JStr(Join(" ", values)))
      && (Aligned(w) ==> Aligned(w'))
  {
    var tokens := ["set", key] + values;
    assert tokens[0] == "set" && tokens[1..] == [key] + values;
    assert ([key] + values)[1..] == values;
    var ctx := JObj(Put(w.context.fields, key, JStr(Join(" ", values))));
    assert Step(w, line) == Ok(w.(hierarchy := Replace(w.hierarchy, w.path, ctx), context := ctx,
                                  log := Put(w.log, LogKey(w.path, key), Join(" ", values))));
    if Aligned(w) {
      LookupReplace(w.hierarchy, w.path, ctx);
    }
  }

  /** A `#config-version` line with at least three hyphen-delimited fields records the third one and changes nothing else. */
  lemma StepVersion(w: Walker, line: string)
    requires StartsWith(line, "#config-version") && |Split(line, '-')| >= 3 && Tokenize(line).Ok?
    ensures Step(w, line) == Ok(w.(fwVersion := Some(Split(line, '-')[2])))
  {
    assert line[0] == '#';
    FirstTokenStart(line);
  }

  /** A walk is aligned at every step, so it ends aligned. */
  lemma {:induction false} WalkAligned(w: Walker, lines: seq<string>)
    requires Aligned(w) && Walk(w, lines).Ok?
    ensures Aligned(Walk(w, lines).value)
    decreases |lines|
  {
    if lines != [] {
      StepAligned(w, lines[0]);
      WalkAligned(Step(w, lines[0]).value, lines[1..]);
    }
  }

  // ----- the derived indices -----

  /** Where the posix lexer is: between tokens, in a word, inside quotes, or just after a backslash. */
  datatype LexMode = Between | InWord | InQuotes(q: char) | AfterEscape(inDouble: bool)

  /**
   * `shlex.split` in posix mode, from `mode` with the word read so far and
   * the finished tokens: whitespace ends a word; quotes group and are
   * dropped, and a word may mix quoted and unquoted parts; a backslash keeps
   * the next character, and inside double quotes escapes only `"` and `\`
   * (elsewhere there it stays); inside single quotes a backslash is an
   * ordinary character. An unclosed quote or a trailing backslash raises
   * ValueError. A word is never empty unless it was quoted, so every word
   * is emitted, `""` as an empty token.
   */
  function PosixLex(s: string, mode: LexMode, word: string, acc: seq<string>): Outcome<seq<string>>
    decreases |s|
  {
    if s == [] then
      match mode
      case Between => Ok(acc)
      case InWord => Ok(acc + [word])
      case InQuotes(_) => Raised(ValueError)
      case AfterEscape(_) => Raised(ValueError)
    else
      var c, rest := s[0], s[1..];
      match mode
      case Between =>
        if IsShlexSpace(c) then PosixLex(rest, Between, "", acc)
        else if c == '\\' then PosixLex(rest, AfterEscape(false), "", acc)
        else if IsQuoteChar(c) then PosixLex(rest, InQuotes(c), "", acc)
        else PosixLex(rest, InWord, [c], acc)
      case InWord =>
        if IsShlexSpace(c) then PosixLex(rest, Between, "", acc + [word])
        else if IsQuoteChar(c) then PosixLex(rest, InQuotes(c), word, acc)
        else if c == '\\' then PosixLex(rest, AfterEscape(false), word, acc)
        else PosixLex(rest, InWord, word + [c], acc)
      case InQuotes(q) =>
        if c == q then PosixLex(rest, InWord, word, acc)
        else if c == '\\' && q == '"' then PosixLex(rest, AfterEscape(true), word, acc)
        else PosixLex(rest, InQuotes(q), word + [c], acc)
      case AfterEscape(inDouble) =>
        if inDouble then PosixLex(rest, InQuotes('"'), word + if c == '"' || c == '\\' then [c] else ['\\', c], acc)
        else PosixLex(rest, InWord, word + [c], acc)
  }

  /** `shlex.split(s)`. */
  function ShlexSplit(s: string): Outcome<seq<string>> {
    PosixLex(s, Between, "", [])
  }

  /** `shlex.split(segment)[-1]`: the last posix token; IndexError when there is none. */
  function NameOf(segment: string): (r: Outcome<string>)
    ensures r.Raised? <==> ShlexSplit(segment).Raised? || ShlexSplit(segment).value == []
    ensures r.Ok? ==> r.value == ShlexSplit(segment).value[|ShlexSplit(segment).value| - 1]
  {
    var tokens :- ShlexSplit(segment);
    if tokens == [] then Raised(IndexError) else Ok(tokens[|tokens| - 1])
  }

  /** A word the posix lexer reads as it is: no whitespace, quote or backslash. */
  predicate PlainWord(w: string) {
    w != [] && forall i :: 0 <= i < |w| ==> !IsShlexSpace(w[i]) && !IsQuoteChar(w[i]) && w[i] != '\\'
  }

  /** Inside a word, plain characters are taken one by one. */
  lemma {:induction false} LexWord(w: string, rest: string, word: string, acc: seq<string>)
    requires forall i :: 0 <= i < |w| ==> !IsShlexSpace(w[i]) && !IsQuoteChar(w[i]) && w[i] != '\\'
    ensures PosixLex(w + rest, InWord, word, acc) == PosixLex(rest, InWord, word + w, acc)
    decreases |w|
  {
    if w != [] {
      var c := w[0];
      assert !IsShlexSpace(c) && !IsQuoteChar(c) && c != '\\';
      assert (w + rest)[0] == c && (w + rest)[1..] == w[1..] + rest;
      assert PosixLex(w + rest, InWord, word, acc) == PosixLex(w[1..] + rest, InWord, word + [c], acc);
      LexWord(w[1..], rest, word + [w[0]], acc);
      assert word + [w[0]] + w[1..] == word + w;
    } else {
      assert w + rest == rest && word + w == word;
    }
  }

  /** Inside double quotes, characters other than `"` and `\` are taken one by one. */
  lemma {:induction false} LexQuoted(n: string, rest: string, word: string, acc: seq<string>)
    requires '"' !in n && '\\' !in n
    ensures PosixLex(n + rest, InQuotes('"'), word, acc) == PosixLex(rest, InQuotes('"'), word + n, acc)
    decreases |n|
  {
    if n != [] {
      var c := n[0];
      assert c in n;
      assert (n + rest)[0] == c && (n + rest)[1..] == n[1..] + rest;
      assert PosixLex(n + rest, InQuotes('"'), word, acc) == PosixLex(n[1..] + rest, InQuotes('"'), word + [c], acc);
      assert forall x :: x in n[1..] ==> x in n;
      LexQuoted(n[1..], rest, word + [n[0]], acc);
      assert word + [n[0]] + n[1..] == word + n;
    } else {
      assert n + rest == rest && word + n == word;
    }
  }

  /** Plain words written with single spaces are read back as the same words. */
  lemma {:induction false} LexPlainWords(ws: seq<string>, acc: seq<string>)
    requires forall i :: 0 <= i < |ws| ==> PlainWord(ws[i])
    ensures PosixLex(Join(" ", ws), Between, "", acc) == Ok(acc + ws)
    decreases |ws|
  {
    if ws == [] {
      assert Join(" ", ws) == "" && acc + ws == acc;
    } else {
      var w := ws[0];
      var s := Join(" ", ws);
      var tail := if |ws| == 1 then "" else " " + Join(" ", ws[1..]);
      assert s == w + tail;
      assert s[1..] == w[1..] + tail;
      LexWord(w[1..], tail, [w[0]], acc);
      assert [w[0]] + w[1..] == w;
      LexPlainWords(ws[1..], acc + [w]);
      if |ws| == 1 {
        assert acc + [w] == acc + ws;
      } else {
        assert tail[1..] == Join(" ", ws[1..]);
        assert acc + [w] + ws[1..] == acc + ws;
      }
    }
  }

  /** `shlex.split` of plain words separated by single spaces gives the words. */
  lemma ShlexPlainWords(ws: seq<string>)
    requires forall i :: 0 <= i < |ws| ==> PlainWord(ws[i])
    ensures ShlexSplit(Join(" ", ws)) == Ok(ws)
  {
    LexPlainWords(ws, []);
    assert [] + ws == ws;
  }

  /** `edit "port 1"`: the name of a segment whose last part is double-quoted is the text inside the quotes. */
  lemma NameOfQuoted(directive: string, name: string)
    requires PlainWord(directive) && '"' !in name && '\\' !in name
    ensures NameOf(directive + " \"" + name + "\"") == Ok(name)
  {
    var d := directive;
    var quoted := "\"" + name + "\"";
    var s := d + " " + quoted;
    assert directive + " \"" + name + "\"" == s;
    assert !IsShlexSpace(d[0]) && !IsQuoteChar(d[0]) && d[0] != '\\';
    assert s[0] == d[0] && s[1..] == d[1..] + (" " + quoted);
    assert PosixLex(s, Between, "", []) == PosixLex(d[1..] + (" " + quoted), InWord, [d[0]], []);
    LexWord(d[1..], " " + quoted, [d[0]], []);
    assert [d[0]] + d[1..] == d;
    assert (" " + quoted)[1..] == quoted;
    assert (" " + quoted)[0] == ' ' && [] + [d] == [d];
    assert PosixLex(" " + quoted, InWord, d, []) == PosixLex(quoted, Between, "", [d]);
    assert quoted[1..] == name + "\"";
    assert PosixLex(quoted, Between, "", [d]) == PosixLex(name + "\"", InQuotes('"'), "", [d]);
    LexQuoted(name, "\"", "", [d]);
    assert "" + name == name;
    assert "\""[0] == '"' && "\""[1..] == "" && [d] + [name] == [d, name];
    assert PosixLex("\"", InQuotes('"'), name, [d]) == Ok([d, name]);
    assert ShlexSplit(s) == Ok([d, name]);
  }

  /** Without backslashes or double quotes, the split raises exactly when a single quote is left open. */
  lemma {:induction false} LexParity(s: string, mode: LexMode, word: string, acc: seq<string>)
    requires '\\' !in s && '"' !in s
    requires mode == Between || mode == InWord || mode == InQuotes('\'')
    ensures PosixLex(s, mode, word, acc).Raised? <==> (CountChar(s, '\'') % 2 == 1) != mode.InQuotes?
    ensures PosixLex(s, mode, word, acc).Raised? ==> PosixLex(s, mode, word, acc).error == ValueError
    decreases |s|
  {
    if s != [] {
      assert s[0] in s;
      assert forall x :: x in s[1..] ==> x in s;
      var c, rest := s[0], s[1..];
      match mode
      case Between =>
        if IsShlexSpace(c) {
          LexParity(rest, Between, "", acc);
        } else if IsQuoteChar(c) {
          LexParity(rest, InQuotes(c), "", acc);
        } else {
          LexParity(rest, InWord, [c], acc);
        }
      case InWord =>
        if IsShlexSpace(c) {
          LexParity(rest, Between, "", acc + [word]);
        } else if IsQuoteChar(c) {
          LexParity(rest, InQuotes(c), word, acc);
        } else {
          LexParity(rest, InWord, word + [c], acc);
        }
      case InQuotes(q) =>
        if c == q {
          LexParity(rest, InWord, word, acc);
        } else {
          LexParity(rest, InQuotes(q), word + [c], acc);
        }
    }
  }

  /**
   * `edit it's`: a segment without backslashes or double quotes raises
   * ValueError, and so has no name, exactly when it holds an odd number of
   * single quotes.
   */
  lemma NameOfOpenQuote(segment: string)
    requires '\\' !in segment && '"' !in segment
    ensures ShlexSplit(segment).Raised? <==> CountChar(segment, '\'') % 2 == 1
    ensures CountChar(segment, '\'') % 2 == 1 ==> NameOf(segment) == Raised(ValueError)
  {
    LexParity(segment, Between, "", []);
  }

  /** The name of every child, in order; the first child whose name cannot be read raises. */
  function Names(children: seq<(string, Json)>): Outcome<seq<(string, Json)>>
    decreases |children|
  {
    if children == [] then Ok([])
    else
      var last := children[|children| - 1];
      var init :- Names(children[..|children| - 1]);
      var name :- NameOf(last.0);
      Ok(init + [(name, last.1)])
  }

  /**
   * The names are read in order: on success there is one per child, its
   * `NameOf` paired with the child's node; otherwise the error is that of
   * the first child whose name raises.
   */
  lemma {:induction false} NamesSpec(children: seq<(string, Json)>)
    ensures Names(children).Ok? ==>
      |Names(children).value| == |children|
      && forall i :: 0 <= i < |children| ==>
           NameOf(children[i].0) == Ok(Names(children).value[i].0) && Names(children).value[i].1 == children[i].1
    ensures Names(children).Raised? ==>
      exists i :: 0 <= i < |children| && NameOf(children[i].0) == Raised(Names(children).error)
                  && forall j :: 0 <= j < i ==> NameOf(children[j].0).Ok?
    ensures Names(children).Ok? <==> forall i :: 0 <= i < |children| ==> NameOf(children[i].0).Ok?
    decreases |children|
  {
    if children != [] {
      var n := |children|;
      var init := children[..n - 1];
      NamesSpec(init);
      assert forall i :: 0 <= i < n - 1 ==> init[i] == children[i];
      if Names(init).Raised? {
        var i :| 0 <= i < |init| && NameOf(init[i].0) == Raised(Names(init).error)
                 && forall j :: 0 <= j < i ==> NameOf(init[j].0).Ok?;
        assert NameOf(children[i].0) == Raised(Names(children).error);
      } else if NameOf(children[n - 1].0).Raised? {
        assert NameOf(children[n - 1].0) == Raised(Names(children).error);
      } else {
        var r := Names(children).value;
        assert r == Names(init).value + [(NameOf(children[n - 1].0).value, children[n - 1].1)];
      }
    }
  }

  /** Once a name raises, later children change nothing. */
  lemma {:induction false} NamesStopped(children: seq<(string, Json)>, n: nat)
    requires n <= |children| && Names(children[..n]).Raised?
    ensures Names(children) == Names(children[..n])
    decreases |children|
  {
    if n < |children| {
      assert children[..|children| - 1][..n] == children[..n];
      NamesStopped(children[..|children| - 1], n);
    } else {
      assert children[..n] == children;
    }
  }

  /** `index[name] = json.dumps(ctx)` for every named child, in order. */
  function IndexOf(named: seq<(string, Json)>): seq<(string, string)>
    decreases |named|
  {
    if named == [] then []
    else
      var last := named[|named| - 1];
      Put(IndexOf(named[..|named| - 1]), last.0, Dumps(last.1))
  }

  /**
   * The index has one key per distinct name, and each name maps to the
   * dump of the last child of that name.
   */
  lemma IndexOfSpec(named: seq<(string, Json)>, name: string)
    ensures DistinctKeys(IndexOf(named))
    ensures Get(IndexOf(named), name).Some? <==> exists i :: 0 <= i < |named| && named[i].0 == name
    ensures forall i ::
              (0 <= i < |named| && named[i].0 == name
               && forall j :: i < j < |named| ==> named[j].0 != name)
              ==> Get(IndexOf(named), name) == Some(Dumps(named[i].1))
  {
    IndexOfDistinct(named);
    IndexOfHas(named, name);
    forall i | 0 <= i < |named| && named[i].0 == name
               && forall j :: i < j < |named| ==> named[j].0 != name
      ensures Get(IndexOf(named), name) == Some(Dumps(named[i].1))
    {
      IndexOfLast(named, i);
    }
  }

  lemma {:induction false} IndexOfDistinct(named: seq<(string, Json)>)
    ensures DistinctKeys(IndexOf(named))
    decreases |named|
  {
    if named != [] {
      IndexOfDistinct(named[..|named| - 1]);
    }
  }

  /** The assignments the index loop performs, one per child. */
  function IndexEntries(named: seq<(string, Json)>): (kvs: seq<(string, string)>)
    ensures |kvs| == |named|
    ensures forall i :: 0 <= i < |named| ==> kvs[i] == (named[i].0, Dumps(named[i].1))
  {
    seq(|named|, i requires 0 <= i < |named| => (named[i].0, Dumps(named[i].1)))
  }

  /** The index loop is a run of assignments into an empty dict. */
  lemma {:induction false} IndexOfPutAll(named: seq<(string, Json)>)
    ensures IndexOf(named) == PutAll([], IndexEntries(named))
    decreases |named|
  {
    if named != [] {
      var n := |named|;
      IndexOfPutAll(named[..n - 1]);
      assert IndexEntries(named)[..n - 1] == IndexEntries(named[..n - 1]);
    }
  }

  lemma IndexOfHas(named: seq<(string, Json)>, name: string)
    ensures Get(IndexOf(named), name).Some? <==> exists i :: 0 <= i < |named| && named[i].0 == name
  {
    var kvs := IndexEntries(named);
    IndexOfPutAll(named);
    PutAllHas([], kvs, name);
    if exists i :: 0 <= i < |kvs| && kvs[i].0 == name {
      var i :| 0 <= i < |kvs| && kvs[i].0 == name;
      assert named[i].0 == name;
    }
    if exists i :: 0 <= i < |named| && named[i].0 == name {
      var i :| 0 <= i < |named| && named[i].0 == name;
      assert kvs[i].0 == name;
    }
  }

  lemma {:induction false} IndexOfLast(named: seq<(string, Json)>, i: nat)
    requires i < |named|
    requires forall j :: i < j < |named| ==> named[j].0 != named[i].0
    ensures Get(IndexOf(named), named[i].0) == Some(Dumps(named[i].1))
    decreases |named|
  {
    var n := |named|;
    if i < n - 1 {
      var init := named[..n - 1];
      assert init[i] == named[i];
      forall j | i < j < |init|
        ensures init[j].0 != init[i].0
      {
        assert init[j] == named[j];
      }
      IndexOfLast(init, i);
    }
  }

  /** The loop that fills `interfaces` or `admin_accounts` from one top-level section. */
  method BuildIndex(hierarchy: Json, section: string) returns (r: Outcome<seq<(string, string)>>)
    ensures r == SectionIndex(hierarchy, section)
  {
    var node := Index(hierarchy, section);
    if node.Raised? {
      return Raised(node.error);
    }
    var items := Items(node.value);
    if items.Raised? {
      return Raised(items.error);
    }
    var children := items.value;
    ghost var named: seq<(string, Json)> := [];
    var index: seq<(string, string)> := [];
    for i := 0 to |children|
      invariant Names(children[..i]) == Ok(named)
      invariant index == IndexOf(named)
    {
      assert children[..i + 1][..i] == children[..i];
      var name := NameOf(children[i].0);
      if name.Raised? {
        NamesStopped(children, i + 1);
        return Raised(name.error);
      }
      assert IndexOf(named + [(name.value, children[i].1)])[..] == Put(IndexOf(named), name.value, Dumps(children[i].1)) by {
        assert (named + [(name.value, children[i].1)])[..|named|] == named;
      }
      named := named + [(name.value, children[i].1)];
      index := Put(index, name.value, Dumps(children[i].1));
    }
    assert children[..|children|] == children;
    return Ok(index);
  }

  /** The index of one top-level section; a missing section raises KeyError, an unreadable name its error. */
  function SectionIndex(hierarchy: Json, section: string): Outcome<seq<(string, string)>> {
    var node :- Index(hierarchy, section);
    var children :- Items(node);
    var named :- Names(children);
    Ok(IndexOf(named))
  }

  // ----- the whole model -----

  /** The `fgt_cli_configuration` capability. */
  datatype ParsedConfig = ParsedConfig(
    adminAccounts: seq<(string, string)>,
    interfaces: seq<(string, string)>,
    config: seq<(string, string)>,
    hierarchy: Json,
    fwVersion: Option<string>)

  /** What `process` computes, as a composition of the three phases. */
  function Parse(file: seq<string>): Outcome<ParsedConfig> {
    var w :- Walk(Start, LogicalLines("", file));
    var interfaces :- SectionIndex(w.hierarchy, "config system interface");
    var admins :- SectionIndex(w.hierarchy, "config system admin");
    Ok(ParsedConfig(admins, interfaces, w.log, w.hierarchy, w.fwVersion))
  }

  /** `process(job, data)` with `data['file']` given as its list of lines. */
  method Process(file: seq<string>) returns (r: Outcome<ParsedConfig>)
    ensures r == Parse(file)
  {
    var configLines := JoinQuotedLines(file);
    var hier: seq<string> := [];
    var configHier := JObj([]);
    var context := configHier;
    var log: seq<(string, string)> := [];
    var fwVersion: Option<string> := None;
    for i := 0 to |configLines|
      invariant Walk(Start, configLines) == Walk(Walker(configHier, hier, context, log, fwVersion), configLines[i..])
    {
      ghost var before := Walker(configHier, hier, context, log, fwVersion);
      assert configLines[i..][0] == configLines[i] && configLines[i..][1..] == configLines[i + 1..];
      var line := configLines[i];
      if line == "" {
        continue;
      }
      if StartsWith(line, "#config-version") {
        var field := VersionField(line);
        if field.Raised? {
          return Raised(field.error);
        }
        fwVersion := Some(field.value);
      }
      var tokens := Tokenize(line);
      if tokens.Raised? {
        return Raised(tokens.error);
      }
      if tokens.value == [] {
        return Raised(IndexError);
      }
      var act, params := tokens.value[0], tokens.value[1..];
      if act == "end" || act == "next" {
        if hier == [] {
          return Raised(IndexError);
        }
        hier := hier[..|hier| - 1];
        var found := GetContext(configHier, hier);
        if found.Raised? {
          return Raised(found.error);
        }
        configHier, context := found.value.0, found.value.1;
      } else if act == "config" || act == "edit" {
        hier := hier + [LStrip(line)];
        var found := GetContext(configHier, hier);
        if found.Raised? {
          return Raised(found.error);
        }
        configHier, context := found.value.0, found.value.1;
      } else if act == "set" {
        if params == [] {
          return Raised(IndexError);
        }
        var configKey := LogKey(hier, params[0]);
        var configValue := Join(" ", params[1..]);
        if !context.JObj? {
          return Raised(TypeError);
        }
        context := JObj(Put(context.fields, params[0], JStr(configValue)));
        configHier := Replace(configHier, hier, context);
        log := Put(log, configKey, configValue);
      }
      assert Step(before, line) == Ok(Walker(configHier, hier, context, log, fwVersion));
    }
    var walked := Walker(configHier, hier, context, log, fwVersion);
    var interfaces := BuildIndex(configHier, "config system interface");
    if interfaces.Raised? {
      return Raised(interfaces.error);
    }
    var admins := BuildIndex(configHier, "config system admin");
    if admins.Raised? {
      return Raised(admins.error);
    }
    return Ok(ParsedConfig(admins.value, interfaces.value, log, configHier, fwVersion));
  }

  /** The capability as a JSON object, in the source's key order (`fw_version` only when a version line was seen). */
  function ToJson(p: ParsedConfig): (j: Json)
    ensures j.JObj? && Get(j.fields, "hierarchy") == Some(p.hierarchy)
    ensures Get(j.fields, "fw_version") == match p.fwVersion case Some(v) => Some(JStr(v)) case None => None
  {
    var fields := [("admin_accounts", StrMap(p.adminAccounts)),
                   ("interfaces", StrMap(p.interfaces)),
                   ("config", StrMap(p.config)),
                   ("hierarchy", p.hierarchy)]
                  + match p.fwVersion case Some(v) => [("fw_version", JStr(v))] case None => [];
    assert Get(fields, "hierarchy") == Some(p.hierarchy) by {
      GetAt(fields, "hierarchy", 3);
    }
    assert Get(fields, "fw_version") == match p.fwVersion case Some(v) => Some(JStr(v)) case None => None by {
      if p.fwVersion.Some? {
        GetAt(fields, "fw_version", 4);
      } else {
        GetSomeIff(fields, "fw_version");
      }
    }
    JObj(fields)
  }

  function StrMap(d: seq<(string, string)>): Json {
    JObj(seq(|d|, i requires 0 <= i < |d| => (d[i].0, JStr(d[i].1))))
  }

  /** The parsed hierarchy is aligned with the walk's final context and holds every `set` under its full path. */
  lemma ParseHierarchy(file: seq<string>)
    requires Parse(file).Ok?
    ensures Walk(Start, LogicalLines("", file)).Ok?
    ensures Parse(file).value.hierarchy == Walk(Start, LogicalLines("", file)).value.hierarchy
    ensures Aligned(Walk(Start, LogicalLines("", file)).value)
  {
    assert Lookup(JObj([]), []) == Some(JObj([]));
    WalkAligned(Start, LogicalLines("", file));
  }

  // ----- the source as written -----

  /** `config_lines.append(x)`: a list grows by one string, anything else (line 88 made it a dict) has no `append`. */
  function AppendTo(configLines: Json, x: string): Outcome<Json> {
    match configLines
    case JArr(items) => Ok(JArr(items + [JStr(x)]))
    case _ => Raised(AttributeError)
  }

  /** The `quoted_newline` loop exactly as written, appending to `config_lines`. */
  function JoinAsWritten(configLines: Json, pending: string, file: seq<string>): Outcome<Json>
    decreases |file|
  {
    if file == [] then (if pending != "" then AppendTo(configLines, pending) else Ok(configLines))
    else
      var line := if pending != "" then pending + Sep + file[0] else file[0];
      if QuoteCount(line) % 2 == 1 then JoinAsWritten(configLines, line, file[1..])
      else
        var appended :- AppendTo(configLines, line);
        JoinAsWritten(appended, "", file[1..])
  }

  /**
   * `process` exactly as written: the line loop appends to the dict
   * `config_lines`; the directive loop iterates over that dict's keys; the
   * indices read `config system interface` and `config system admin`. (The
   * directive walk here is the intended one; as the lemma below shows it only
   * ever sees an empty dict, so `set_value`'s undefined `value` is never
   * reached.)
   */
  function ProcessAsWritten(file: seq<string>): Outcome<ParsedConfig> {
    var configLines :- JoinAsWritten(JObj([]), "", file);
    var lines :- Iterate(configLines);
    var w :- Walk(Start, seq(|lines|, i requires 0 <= i < |lines| => PyStr(lines[i])));
    var interfaces :- SectionIndex(w.hierarchy, "config system interface");
    var admins :- SectionIndex(w.hierarchy, "config system admin");
    Ok(ParsedConfig(admins, interfaces, w.log, w.hierarchy, w.fwVersion))
  }

  /** The line loop as written fails at its first append, and only an empty file has none. */
  lemma {:induction false} JoinAsWrittenRaises(pending: string, file: seq<string>)
    ensures JoinAsWritten(JObj([]), pending, file) == if file == [] && pending == "" then Ok(JObj([])) else Raised(AttributeError)
    decreases |file|
  {
    if file != [] {
      var line := if pending != "" then pending + Sep + file[0] else file[0];
      if QuoteCount(line) % 2 == 1 {
        assert line != "";
        JoinAsWrittenRaises(line, file[1..]);
      }
    }
  }

  /**
   * As written, `process` raises on every input: AttributeError at the
   * first append for a non-empty file, and KeyError at the missing
   * `config system interface` section for an empty one.
   */
  lemma ProcessAsWrittenAlwaysRaises(file: seq<string>)
    ensures ProcessAsWritten(file) == if file == [] then Raised(KeyError) else Raised(AttributeError)
  {
    JoinAsWrittenRaises("", file);
    if file == [] {
      var lines := Iterate(JObj([])).value;
      assert |lines| == 0;
      assert seq(|lines|, i requires 0 <= i < |lines| => PyStr(lines[i])) == [];
    }
  }
}
