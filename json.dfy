/**
 * Decoded JSON values, as the plugins and the parser exchange them, and the
 * Python operations the modelled code performs on them: subscripting,
 * `dict.get`, `in`, iteration, `dict.items()`, truthiness, `str()` (for
 * f-strings) and `json.dumps`.
 *
 * A Python dict is an association list in insertion order; `Put` is
 * `d[k] = v`, which keeps the position of an existing key.
 */
module Json {
  import opened Support

  datatype Json =
    | JNull
    | JBool(b: bool)
    | JNum(n: int)
    | JStr(s: string)
    | JArr(items: seq<Json>)
    | JObj(fields: seq<(string, Json)>)

  // ----- dictionaries as association lists -----

  /** `d.get(k)`: the value of the first entry keyed `k`. */
  function Get<K(==), V>(d: seq<(K, V)>, k: K): Option<V>
    decreases |d|
  {
    if d == [] then None else if d[0].0 == k then Some(d[0].1) else Get(d[1..], k)
  }

  function Keys<K, V>(d: seq<(K, V)>): (ks: seq<K>)
    ensures |ks| == |d| && forall i :: 0 <= i < |d| ==> ks[i] == d[i].0
  {
    seq(|d|, i requires 0 <= i < |d| => d[i].0)
  }

  /** No key occurs twice: the shape of every Python dict. */
  predicate DistinctKeys<K(==), V>(d: seq<(K, V)>) {
    forall i, j :: 0 <= i < j < |d| ==> d[i].0 != d[j].0
  }

  /**
   * `d[k] = v`: an existing entry keeps its place and takes the new value,
   * a new key goes to the end; every other key keeps its value.
   */
  function Put<K(==,!new), V>(d: seq<(K, V)>, k: K, v: V): (r: seq<(K, V)>)
    ensures Get(r, k) == Some(v)
    ensures forall k' :: k' != k ==> Get(r, k') == Get(d, k')
    ensures |r| == if Get(d, k).Some? then |d| else |d| + 1
    ensures DistinctKeys(d) ==> DistinctKeys(r)
    ensures forall i :: 0 <= i < |d| ==> r[i].0 == d[i].0
    ensures Get(d, k).None? ==> r == d + [(k, v)]
    decreases |d|
  {
    if d == [] then [(k, v)]
    else if d[0].0 == k then
      var r := [(k, v)] + d[1..];
      assert forall k' :: k' != k ==> Get(r, k') == Get(d[1..], k');
      r
    else
      var r := [d[0]] + Put(d[1..], k, v);
      assert r[1..] == Put(d[1..], k, v);
      assert DistinctKeys(d) ==> DistinctKeys(d[1..]);
      r
  }

  /** A key is found exactly when some entry carries it. */
  lemma {:induction false} GetSomeIff<K, V>(d: seq<(K, V)>, k: K)
    ensures Get(d, k).Some? <==> exists i :: 0 <= i < |d| && d[i].0 == k
    decreases |d|
  {
    if d != [] {
      GetSomeIff(d[1..], k);
      if exists i :: 0 <= i < |d| && d[i].0 == k {
        var i :| 0 <= i < |d| && d[i].0 == k;
        if i > 0 {
          assert d[1..][i - 1].0 == k;
        }
      }
    }
  }

  /** The entry found for `k` is the first one carrying `k`. */
  lemma {:induction false} GetAt<K, V>(d: seq<(K, V)>, k: K, i: nat)
    requires i < |d| && d[i].0 == k && forall j :: 0 <= j < i ==> d[j].0 != k
    ensures Get(d, k) == Some(d[i].1)
    decreases i
  {
    if i > 0 {
      GetAt(d[1..], k, i - 1);
    }
  }

  /** The keys after `d[k] = v`: unchanged for an existing key, the new key last otherwise. */
  lemma KeysPut<K(!new), V>(d: seq<(K, V)>, k: K, v: V)
    ensures Keys(Put(d, k, v)) == if k in Keys(d) then Keys(d) else Keys(d) + [k]
  {
    GetSomeIff(d, k);
    var r := Put(d, k, v);
    if Get(d, k).Some? {
      var i :| 0 <= i < |d| && d[i].0 == k;
      assert Keys(d)[i] == k;
    }
  }

  /** After `d[k] = v` each entry is either the old entry at its place or `(k, v)`. */
  lemma {:induction false} PutValues<K(!new), V>(d: seq<(K, V)>, k: K, v: V)
    ensures forall i :: 0 <= i < |Put(d, k, v)| ==> Put(d, k, v)[i] == (k, v) || (i < |d| && Put(d, k, v)[i] == d[i])
    decreases |d|
  {
    if d != [] && d[0].0 != k {
      PutValues(d[1..], k, v);
      var r := Put(d, k, v);
      assert r == [d[0]] + Put(d[1..], k, v);
      forall i | 0 < i < |r|
        ensures r[i] == (k, v) || (i < |d| && r[i] == d[i])
      {
        assert r[i] == Put(d[1..], k, v)[i - 1];
      }
    }
  }

  /** `for k, v in kvs: d[k] = v`. */
  function PutAll<K(==,!new), V>(d: seq<(K, V)>, kvs: seq<(K, V)>): seq<(K, V)>
    decreases |kvs|
  {
    if kvs == [] then d
    else Put(PutAll(d, kvs[..|kvs| - 1]), kvs[|kvs| - 1].0, kvs[|kvs| - 1].1)
  }

  /** After a run of assignments, a key holds the value of its last assignment. */
  lemma {:induction false} PutAllLast<K(!new), V>(d: seq<(K, V)>, kvs: seq<(K, V)>, i: nat)
    requires i < |kvs| && forall j :: i < j < |kvs| ==> kvs[j].0 != kvs[i].0
    ensures Get(PutAll(d, kvs), kvs[i].0) == Some(kvs[i].1)
    decreases |kvs|
  {
    var n := |kvs|;
    if i < n - 1 {
      var init := kvs[..n - 1];
      assert init[i] == kvs[i];
      assert forall j :: i < j < n - 1 ==> init[j] == kvs[j];
      PutAllLast(d, init, i);
    }
  }

  /** After a run of assignments, a key is present iff it was present before or was assigned. */
  lemma {:induction false} PutAllHas<K(!new), V>(d: seq<(K, V)>, kvs: seq<(K, V)>, k: K)
    ensures Get(PutAll(d, kvs), k).Some? <==> Get(d, k).Some? || exists i :: 0 <= i < |kvs| && kvs[i].0 == k
    decreases |kvs|
  {
    if kvs != [] {
      var n := |kvs|;
      var init := kvs[..n - 1];
      PutAllHas(d, init, k);
      if exists i :: 0 <= i < n && kvs[i].0 == k {
        var i :| 0 <= i < n && kvs[i].0 == k;
        if i < n - 1 {
          assert init[i].0 == k;
        }
      }
      if exists i :: 0 <= i < n - 1 && init[i].0 == k {
        var i :| 0 <= i < n - 1 && init[i].0 == k;
        assert kvs[i].0 == k;
      }
    }
  }

  /** A key never assigned keeps its old value, and a dict stays a dict. */
  lemma {:induction false} PutAllUntouched<K(!new), V>(d: seq<(K, V)>, kvs: seq<(K, V)>, k: K)
    ensures (forall i :: 0 <= i < |kvs| ==> kvs[i].0 != k) ==> Get(PutAll(d, kvs), k) == Get(d, k)
    ensures DistinctKeys(d) ==> DistinctKeys(PutAll(d, kvs))
    decreases |kvs|
  {
    if kvs != [] {
      var init := kvs[..|kvs| - 1];
      assert forall j :: 0 <= j < |init| ==> init[j] == kvs[j];
      PutAllUntouched(d, init, k);
    }
  }

  // ----- Python operations on decoded JSON -----

  /** `bool(j)`. */
  predicate Truthy(j: Json) {
    match j
    case JNull => false
    case JBool(b) => b
    case JNum(n) => n != 0
    case JStr(s) => s != []
    case JArr(items) => items != []
    case JObj(fields) => fields != []
  }

  /** Python's sequence index `i` into a sequence of length `n` (negative counts from the end). */
  function PyIndex(i: int, n: nat): Option<nat> {
    if 0 <= i < n then Some(i) else if i < 0 && n + i >= 0 then Some(n + i) else None
  }

  /** `c[k]`. */
  function Subscript(c: Json, k: Json): (r: Outcome<Json>)
    ensures c.JObj? && k.JStr? ==>
      (r.Ok? <==> Get(c.fields, k.s).Some?) && (r.Ok? ==> r.value == Get(c.fields, k.s).value)
  {
    match c
    case JObj(fields) =>
      (match k
       case JStr(key) => (match Get(fields, key) case Some(v) => Ok(v) case None => Raised(KeyError))
       case JArr(_) => Raised(TypeError)
       case JObj(_) => Raised(TypeError)
       case _ => Raised(KeyError))
    case JArr(items) =>
      (match k
       case JNum(i) => (match PyIndex(i, |items|) case Some(p) => Ok(items[p]) case None => Raised(IndexError))
       case _ => Raised(TypeError))
    case JStr(s) =>
      (match k
       case JNum(i) => (match PyIndex(i, |s|) case Some(p) => Ok(JStr([s[p]])) case None => Raised(IndexError))
       case _ => Raised(TypeError))
    case _ => Raised(TypeError)
  }

  /** `c[key]` for a string key. */
  function Index(c: Json, key: string): Outcome<Json> {
    Subscript(c, JStr(key))
  }

  /** `c.get(key, default)`: only a dict has `get`. */
  function GetOr(c: Json, key: string, default: Json): (r: Outcome<Json>)
    ensures c.JObj? <==> r.Ok?
  {
    match c
    case JObj(fields) => (match Get(fields, key) case Some(v) => Ok(v) case None => Ok(default))
    case _ => Raised(AttributeError)
  }

  /** `x in c`. */
  function In(x: Json, c: Json): Outcome<bool> {
    match c
    case JObj(fields) =>
      (match x
       case JStr(key) => Ok(Get(fields, key).Some?)
       case JArr(_) => Raised(TypeError)
       case JObj(_) => Raised(TypeError)
       case _ => Ok(false))
    case JArr(items) => Ok(x in items)
    case JStr(s) => (match x case JStr(t) => Ok(Contains(s, t)) case _ => Raised(TypeError))
    case _ => Raised(TypeError)
  }

  /** `list(c)`: what `for x in c` visits. */
  function Iterate(c: Json): Outcome<seq<Json>> {
    match c
    case JArr(items) => Ok(items)
    case JObj(fields) => Ok(seq(|fields|, i requires 0 <= i < |fields| => JStr(fields[i].0)))
    case JStr(s) => Ok(seq(|s|, i requires 0 <= i < |s| => JStr([s[i]])))
    case _ => Raised(TypeError)
  }

  /** `c.items()`: only a dict has `items`. */
  function Items(c: Json): Outcome<seq<(string, Json)>> {
    match c
    case JObj(fields) => Ok(fields)
    case _ => Raised(AttributeError)
  }

  /** `a + b` where `b` is a string: only a string can be its left operand. */
  function Concat(a: Json, b: string): Outcome<string> {
    match a
    case JStr(s) => Ok(s + b)
    case _ => Raised(TypeError)
  }

  /** `a + b` where `a` is a string: only a string can be its right operand. */
  function ConcatStr(a: string, b: Json): Outcome<string> {
    match b
    case JStr(s) => Ok(a + s)
    case _ => Raised(TypeError)
  }

  // ----- text renderings -----

  /** `str(j)`, as an f-string renders a value. */
  function PyStr(j: Json): string {
    match j
    case JStr(s) => s
    case _ => PyRepr(j)
  }

  /** `repr(j)`: how `str()` of a list or dict renders its elements. */
  function PyRepr(j: Json): string {
    match j
    case JNull => "None"
    case JBool(b) => if b then "True" else "False"
    case JNum(n) => IntToString(n)
    case JStr(s) => ReprString(s)
    case JArr(items) =>
      "[" + Join(", ", seq(|items|, i requires 0 <= i < |items| => PyRepr(items[i]))) + "]"
    case JObj(fields) =>
      "{" + Join(", ", seq(|fields|, i requires 0 <= i < |fields| =>
        ReprString(fields[i].0) + ": " + PyRepr(fields[i].1))) + "}"
  }

  /** `json.dumps(j)` with the default separators `", "` and `": "`. */
  function Dumps(j: Json): string {
    match j
    case JNull => "null"
    case JBool(b) => if b then "true" else "false"
    case JNum(n) => IntToString(n)
    case JStr(s) => Quote(s)
    case JArr(items) =>
      "[" + Join(", ", seq(|items|, i requires 0 <= i < |items| => Dumps(items[i]))) + "]"
    case JObj(fields) =>
      "{" + Join(", ", seq(|fields|, i requires 0 <= i < |fields| =>
        Quote(fields[i].0) + ": " + Dumps(fields[i].1))) + "}"
  }

  // ----- hexadecimal escapes -----

  /** The lower-case hex digit of `d`. */
  function HexDigit(d: nat): (c: char)
    requires d < 16
    ensures '0' <= c <= '9' || 'a' <= c <= 'f'
  {
    if d < 10 then ('0' as int + d) as char else ('a' as int + d - 10) as char
  }

  /** The value of a hex digit of either case. */
  function HexValue(c: char): Option<nat> {
    if '0' <= c <= '9' then Some(c as int - '0' as int)
    else if 'a' <= c <= 'f' then Some(c as int - 'a' as int + 10)
    else if 'A' <= c <= 'F' then Some(c as int - 'A' as int + 10)
    else None
  }

  function Pow16(width: nat): (p: nat)
    ensures p >= 1
  {
    if width == 0 then 1 else 16 * Pow16(width - 1)
  }

  /** `n` in `width` lower-case hex digits, most significant first (`'{:0Nx}'`). */
  function Hex(n: nat, width: nat): (r: string)
    ensures |r| == width
    ensures forall i :: 0 <= i < width ==> '0' <= r[i] <= '9' || 'a' <= r[i] <= 'f'
  {
    if width == 0 then [] else Hex(n / 16, width - 1) + [HexDigit(n % 16)]
  }

  /** `int(s, 16)` for a run of hex digits; None if one is not a hex digit. */
  function ParseHex(s: string): (r: Option<nat>)
    ensures r.Some? ==> r.value < Pow16(|s|)
    decreases |s|
  {
    if s == [] then Some(0)
    else
      match (ParseHex(s[..|s| - 1]), HexValue(s[|s| - 1]))
      case (Some(a), Some(d)) => Some(a * 16 + d)
      case _ => None
  }

  /** A number written in enough hex digits reads back as itself. */
  lemma {:induction false} ParseHexHex(n: nat, width: nat)
    requires n < Pow16(width)
    ensures ParseHex(Hex(n, width)) == Some(n)
    decreases width
  {
    if width > 0 {
      var h := Hex(n, width);
      ParseHexHex(n / 16, width - 1);
      assert h[..width - 1] == Hex(n / 16, width - 1);
      var d := n % 16;
      assert HexValue(HexDigit(d)) == Some(d);
    }
  }

  // ----- json.dumps string literals (ensure_ascii) -----

  /**
   * How `json.dumps` writes one character inside a string literal: quote and
   * backslash escaped, the five short control escapes, printable ASCII as is,
   * and everything else as `\uXXXX`, with a surrogate pair above U+FFFF.
   */
  function JsonChar(c: char): (r: string)
    ensures forall i :: 0 <= i < |r| ==> ' ' <= r[i] <= '~'
  {
    if c == '"' then "\\\""
    else if c == '\\' then "\\\\"
    else if c == '\n' then "\\n"
    else if c == '\r' then "\\r"
    else if c == '\t' then "\\t"
    else if c as int == 0x08 then "\\b"
    else if c as int == 0x0C then "\\f"
    else if ' ' <= c <= '~' then [c]
    else if c as int < 0x10000 then "\\u" + Hex(c as int, 4)
    else
      var m := c as int - 0x10000;
      "\\u" + Hex(0xD800 + m / 0x400, 4) + "\\u" + Hex(0xDC00 + m % 0x400, 4)
  }

  /** The body of a JSON string literal: every character escaped as `JsonChar` says. */
  function JsonEscape(s: string): (r: string)
    ensures forall i :: 0 <= i < |r| ==> ' ' <= r[i] <= '~'
    decreases |s|
  {
    if s == [] then [] else JsonChar(s[0]) + JsonEscape(s[1..])
  }

  /** A JSON string literal, as `json.dumps` writes one: pure printable ASCII. */
  function Quote(s: string): (r: string)
    ensures |r| >= 2 && r[0] == '"' && r[|r| - 1] == '"'
    ensures forall i :: 0 <= i < |r| ==> ' ' <= r[i] <= '~'
  {
    "\"" + JsonEscape(s) + "\""
  }

  /**
   * The escape at the start of `t` as `json.loads` reads it: the character it
   * stands for and its length. A lone surrogate, which is no character, or a
   * malformed escape gives None.
   */
  function JsonEscapeAt(t: string): (r: Option<(char, nat)>)
    requires t != [] && t[0] == '\\'
    ensures r.Some? ==> 2 <= r.value.1 <= |t|
  {
    if |t| < 2 then None
    else if t[1] == '"' || t[1] == '\\' || t[1] == '/' then Some((t[1], 2))
    else if t[1] == 'b' then Some((0x08 as char, 2))
    else if t[1] == 'f' then Some((0x0C as char, 2))
    else if t[1] == 'n' then Some(('\n', 2))
    else if t[1] == 'r' then Some(('\r', 2))
    else if t[1] == 't' then Some(('\t', 2))
    else if t[1] == 'u' && |t| >= 6 && ParseHex(t[2..6]).Some? then
      var hi := ParseHex(t[2..6]).value;
      assert Pow16(4) == 0x10000;
      if 0xD800 <= hi < 0xDC00 && |t| >= 12 && t[6..8] == "\\u" && ParseHex(t[8..12]).Some?
         && 0xDC00 <= ParseHex(t[8..12]).value < 0xE000
      then Some(((0x10000 + (hi - 0xD800) * 0x400 + (ParseHex(t[8..12]).value - 0xDC00)) as char, 12))
      else if 0xD800 <= hi < 0xE000 then None
      else Some((hi as char, 6))
    else None
  }

  /**
   * The body of a JSON string literal as `json.loads` reads it; None where it
   * raises (a bare quote, a raw control character, a bad escape).
   */
  function JsonUnescape(t: string): Option<string>
    decreases |t|
  {
    if t == [] then Some([])
    else if t[0] == '"' || (t[0] as int) < 0x20 then None
    else if t[0] != '\\' then
      match JsonUnescape(t[1..])
      case Some(rest) => Some([t[0]] + rest)
      case None => None
    else
      match JsonEscapeAt(t)
      case None => None
      case Some((c, k)) =>
        match JsonUnescape(t[k..])
        case Some(rest) => Some([c] + rest)
        case None => None
  }

  /** `json.loads` of a string literal. */
  function Unquote(t: string): Option<string> {
    if |t| >= 2 && t[0] == '"' && t[|t| - 1] == '"' then JsonUnescape(t[1..|t| - 1]) else None
  }

  /** A character `json.dumps` writes as an escape: quote, backslash, control or non-ASCII. */
  predicate JsonEscaped(c: char) {
    c == '"' || c == '\\' || !(' ' <= c <= '~')
  }

  /** A two-character escape reads back as its character. */
  lemma JsonShortRead(c: char, rest: string)
    requires c == '"' || c == '\\' || c == '\n' || c == '\r' || c == '\t' || c as int == 0x08 || c as int == 0x0C
    ensures |JsonChar(c)| == 2 && JsonChar(c)[0] == '\\'
    ensures JsonEscapeAt(JsonChar(c) + rest) == Some((c, 2))
  {
  }

  /** A `\uXXXX` escape of a character below U+10000 reads back as that character. */
  lemma JsonBmpRead(c: char, rest: string)
    requires JsonEscaped(c) && c != '"' && c != '\\' && c != '\n' && c != '\r' && c != '\t'
    requires c as int != 0x08 && c as int != 0x0C && c as int < 0x10000
    ensures |JsonChar(c)| == 6 && JsonChar(c)[0] == '\\'
    ensures JsonEscapeAt(JsonChar(c) + rest) == Some((c, 6))
  {
    var t := JsonChar(c) + rest;
    ParseHexHex(c as int, 4);
    assert t[2..6] == Hex(c as int, 4);
  }

  /** A high surrogate escape followed by a low one reads back as the character they encode. */
  lemma SurrogatesRead(hi: nat, lo: nat, rest: string)
    requires 0xD800 <= hi < 0xDC00 && 0xDC00 <= lo < 0xE000
    ensures JsonEscapeAt("\\u" + Hex(hi, 4) + "\\u" + Hex(lo, 4) + rest)
            == Some(((0x10000 + (hi - 0xD800) * 0x400 + (lo - 0xDC00)) as char, 12))
  {
    var t := "\\u" + Hex(hi, 4) + "\\u" + Hex(lo, 4) + rest;
    ParseHexHex(hi, 4);
    ParseHexHex(lo, 4);
    assert t[2..6] == Hex(hi, 4);
    assert t[6..8] == "\\u";
    assert t[8..12] == Hex(lo, 4);
  }

  /** A surrogate pair reads back as the character above U+FFFF it encodes. */
  lemma JsonPairRead(c: char, rest: string)
    requires c as int >= 0x10000
    ensures |JsonChar(c)| == 12 && JsonChar(c)[0] == '\\'
    ensures JsonEscapeAt(JsonChar(c) + rest) == Some((c, 12))
  {
    var m := c as int - 0x10000;
    var hi, lo := 0xD800 + m / 0x400, 0xDC00 + m % 0x400;
    assert JsonChar(c) == "\\u" + Hex(hi, 4) + "\\u" + Hex(lo, 4);
    SurrogatesRead(hi, lo, rest);
    assert 0x10000 + (hi - 0xD800) * 0x400 + (lo - 0xDC00) == c as int;
  }

  /** One escaped character reads back as itself, whatever follows. */
  lemma JsonCharRead(c: char, rest: string)
    ensures JsonUnescape(JsonChar(c) + rest) ==
      match JsonUnescape(rest) case Some(r) => Some([c] + r) case None => None
  {
    var t := JsonChar(c) + rest;
    if !JsonEscaped(c) {
      assert t[0] == c && t[1..] == rest;
    } else {
      if c == '"' || c == '\\' || c == '\n' || c == '\r' || c == '\t' || c as int == 0x08 || c as int == 0x0C {
        JsonShortRead(c, rest);
      } else if c as int < 0x10000 {
        JsonBmpRead(c, rest);
      } else {
        JsonPairRead(c, rest);
      }
      assert t[|JsonChar(c)|..] == rest;
    }
  }

  /** `json.loads(json.dumps(s)) == s` for every string. */
  lemma {:induction false} UnquoteQuote(s: string)
    ensures Unquote(Quote(s)) == Some(s)
  {
    var t := Quote(s);
    assert t[1..|t| - 1] == JsonEscape(s);
    JsonUnescapeEscape(s);
  }

  lemma {:induction false} JsonUnescapeEscape(s: string)
    ensures JsonUnescape(JsonEscape(s)) == Some(s)
    decreases |s|
  {
    if s != [] {
      JsonUnescapeEscape(s[1..]);
      JsonCharRead(s[0], JsonEscape(s[1..]));
      assert [s[0]] + s[1..] == s;
    }
  }

  // ----- repr() of a string -----

  /**
   * Whether `repr` writes a character as it is: printable ASCII, or a
   * non-ASCII character other than the Latin-1 controls (U+0080 to U+009F),
   * the no-break space and the soft hyphen.
   */
  predicate ReprPrintable(c: char) {
    (' ' <= c <= '~') || (c as int > 0xA0 && c as int != 0xAD)
  }

  /** How `repr` writes one character inside a literal quoted with `q`. */
  function ReprChar(c: char, q: char): string {
    if c == q || c == '\\' then ['\\', c]
    else if c == '\t' then "\\t"
    else if c == '\n' then "\\n"
    else if c == '\r' then "\\r"
    else if ReprPrintable(c) then [c]
    else "\\x" + Hex(c as int, 2)
  }

  function ReprEscape(s: string, q: char): string
    decreases |s|
  {
    if s == [] then [] else ReprChar(s[0], q) + ReprEscape(s[1..], q)
  }

  /** The quote `repr` picks: `"` when the text holds a single quote and no double quote, else `'`. */
  function ReprQuote(s: string): char {
    if '\'' in s && '"' !in s then '"' else '\''
  }

  /** `repr(s)` for a string. */
  function ReprString(s: string): (r: string)
    ensures |r| >= 2 && r[0] == ReprQuote(s) && r[|r| - 1] == ReprQuote(s)
  {
    var q := ReprQuote(s);
    [q] + ReprEscape(s, q) + [q]
  }

  /**
   * The body of a Python string literal quoted with `q`, read back, for the
   * escapes `repr` writes; None for a bare quote or any other escape.
   */
  function ReprUnescape(t: string, q: char): Option<string>
    decreases |t|
  {
    if t == [] then Some([])
    else if t[0] == q then None
    else if t[0] != '\\' then
      match ReprUnescape(t[1..], q)
      case Some(rest) => Some([t[0]] + rest)
      case None => None
    else if |t| < 2 then None
    else
      var e: Option<(char, nat)> :=
        if t[1] == '\\' || t[1] == '\'' || t[1] == '"' then Some((t[1], 2))
        else if t[1] == 't' then Some(('\t', 2))
        else if t[1] == 'n' then Some(('\n', 2))
        else if t[1] == 'r' then Some(('\r', 2))
        else if t[1] == 'x' && |t| >= 4 && ParseHex(t[2..4]).Some? then Some((ParseHex(t[2..4]).value as char, 4))
        else None;
      match e
      case None => None
      case Some((c, k)) =>
        match ReprUnescape(t[k..], q)
        case Some(rest) => Some([c] + rest)
        case None => None
  }

  /** Reading a string literal back: its quote, then its body. */
  function ReadRepr(t: string): Option<string> {
    if |t| >= 2 && (t[0] == '\'' || t[0] == '"') && t[|t| - 1] == t[0]
    then ReprUnescape(t[1..|t| - 1], t[0])
    else None
  }

  /** One character written by `repr` reads back as itself, whatever follows. */
  lemma ReprCharRead(c: char, q: char, rest: string)
    requires q == '\'' || q == '"'
    ensures ReprUnescape(ReprChar(c, q) + rest, q) ==
      match ReprUnescape(rest, q) case Some(r) => Some([c] + r) case None => None
  {
    var t := ReprChar(c, q) + rest;
    if c == q || c == '\\' || c == '\t' || c == '\n' || c == '\r' {
      assert t[2..] == rest;
    } else if ReprPrintable(c) {
      assert t[1..] == rest;
    } else {
      ParseHexHex(c as int, 2);
      assert t[2..4] == Hex(c as int, 2);
      assert t[4..] == rest;
    }
  }

  lemma {:induction false} ReprUnescapeEscape(s: string, q: char)
    requires q == '\'' || q == '"'
    ensures ReprUnescape(ReprEscape(s, q), q) == Some(s)
    decreases |s|
  {
    if s != [] {
      ReprUnescapeEscape(s[1..], q);
      ReprCharRead(s[0], q, ReprEscape(s[1..], q));
      assert [s[0]] + s[1..] == s;
    }
  }

  /** `ast.literal_eval(repr(s)) == s` for every string. */
  lemma ReadReprString(s: string)
    ensures ReadRepr(ReprString(s)) == Some(s)
  {
    var t := ReprString(s);
    assert t[1..|t| - 1] == ReprEscape(s, ReprQuote(s));
    ReprUnescapeEscape(s, ReprQuote(s));
  }
}
