/** The Python value `json.load` hands back for a progress file, and the
    builtins `load_progress` applies to each field of it: `int(...)`,
    `list(...)` and `str(...)`. */
module Json {
  import opened Results
  import opened Decimal

  /** A decoded JSON value. An object lists its members in insertion order,
      one member per key, as the Python dict `json.load` builds. JSON
      numbers with a fraction or exponent are not part of this model. */
  datatype Json =
    | JNull
    | JBool(b: bool)
    | JInt(i: int)
    | JStr(s: string)
    | JArray(items: seq<Json>)
    | JObject(members: seq<(string, Json)>)

  /** Python's `d.get(key)` on a dict: the value stored under `key`. */
  function Lookup(members: seq<(string, Json)>, key: string): (r: Option<Json>)
    ensures r.None? <==> forall k :: 0 <= k < |members| ==> members[k].0 != key
    ensures r.Some? ==> (key, r.value) in members
  {
    if |members| == 0 then None
    else if members[0].0 == key then Some(members[0].1)
    else Lookup(members[1..], key)
  }

  /** The exceptions a builtin conversion raises. */
  datatype CoerceError =
    | TypeError
    | ValueError
      /** `list(...)` of an array holding a non-string: Python would keep the
          entry, the model's record only holds strings */
    | NonStringEntry

  /** Python's `int(v)`: ints pass through, `True`/`False` are 1/0, strings go
      through base-10 parsing; anything else is a `TypeError`. */
  function PyInt(v: Json): (r: Result<int, CoerceError>)
    ensures v.JInt? ==> r == Ok(v.i)
    ensures v.JBool? ==> r == Ok(if v.b then 1 else 0)
    ensures v.JStr? ==> (r.Ok? <==> ParseInt(v.s).Some?)
    ensures v.JStr? && r.Ok? ==> ParseInt(v.s) == Some(r.value)
    ensures v.JStr? && r.Err? ==> r.error == ValueError
    ensures (v.JNull? || v.JArray? || v.JObject?) ==> r == Err(TypeError)
  {
    match v
    case JInt(i) => Ok(i)
    case JBool(b) => Ok(if b then 1 else 0)
    case JStr(s) =>
      (match ParseInt(s)
       case Some(n) => Ok(n)
       case None => Err(ValueError))
    case _ => Err(TypeError)
  }

  /** `int()` of the text `str()` prints for an integer is that integer. */
  lemma TextualInt(n: int)
    ensures PyInt(JStr(ShowInt(n))) == Ok(n)
  {
    ParseShow(n);
  }

  /** Python's `list(v)` where the record wants a list of strings: an array
      is copied, a string splits into its characters, a dict yields its keys. */
  function PyList(v: Json): (r: Result<seq<string>, CoerceError>)
    ensures v.JArray? ==>
      (r.Ok? <==> forall k :: 0 <= k < |v.items| ==> v.items[k].JStr?)
    ensures r.Ok? && v.JArray? ==>
      |r.value| == |v.items| && forall k :: 0 <= k < |r.value| ==> v.items[k] == JStr(r.value[k])
    ensures r.Ok? && v.JStr? ==>
      |r.value| == |v.s| && forall k :: 0 <= k < |r.value| ==> r.value[k] == [v.s[k]]
    ensures r.Ok? && v.JObject? ==>
      |r.value| == |v.members| && forall k :: 0 <= k < |r.value| ==> r.value[k] == v.members[k].0
    ensures v.JArray? && r.Err? ==> r.error == NonStringEntry
    ensures (v.JStr? || v.JObject?) ==> r.Ok?
    ensures (v.JNull? || v.JBool? || v.JInt?) ==> r == Err(TypeError)
  {
    match v
    case JArray(items) =>
      if forall k :: 0 <= k < |items| ==> items[k].JStr? then
        Ok(seq(|items|, k requires 0 <= k < |items| => items[k].s))
      else Err(NonStringEntry)
    case JStr(s) => Ok(seq(|s|, k requires 0 <= k < |s| => [s[k]]))
    case JObject(members) => Ok(seq(|members|, k requires 0 <= k < |members| => members[k].0))
    case _ => Err(TypeError)
  }

  /** Python's `str(v)`: a string is itself, anything else its `repr`. */
  function PyStr(v: Json): (r: string)
    ensures v.JStr? ==> r == v.s
    ensures v.JInt? ==> ParseInt(r) == Some(v.i)
  {
    match v
    case JStr(s) => s
    case JInt(i) => ParseShow(i); Repr(v)
    case _ => Repr(v)
  }

  /** Python's `repr(v)`. */
  function Repr(v: Json): (r: string)
    ensures v.JInt? ==> r == ShowInt(v.i)
    ensures v.JArray? ==> |r| >= 2 && r[0] == '[' && r[|r| - 1] == ']'
    ensures v.JObject? ==> |r| >= 2 && r[0] == '{' && r[|r| - 1] == '}'
    ensures v.JStr? ==> |r| >= 2 && r[0] == r[|r| - 1] && (r[0] == '\'' || r[0] == '"')
    decreases v, 1
  {
    match v
    case JNull => "None"
    case JBool(b) => if b then "True" else "False"
    case JInt(i) => ShowInt(i)
    case JStr(s) => StrRepr(s)
    case JArray(items) => "[" + ReprItems(items, v) + "]"
    case JObject(members) => "{" + ReprMembers(members, v) + "}"
  }

  /** The items of a list repr, separated by ", ". */
  function ReprItems(items: seq<Json>, ghost parent: Json): string
    requires forall k :: 0 <= k < |items| ==> items[k] < parent
    decreases parent, 0, |items|
  {
    if |items| == 0 then ""
    else if |items| == 1 then Repr(items[0])
    else Repr(items[0]) + ", " + ReprItems(items[1..], parent)
  }

  /** The `key: value` pairs of a dict repr, separated by ", ". */
  function ReprMembers(members: seq<(string, Json)>, ghost parent: Json): string
    requires forall k :: 0 <= k < |members| ==> members[k].1 < parent
    decreases parent, 0, |members|
  {
    if |members| == 0 then ""
    else
      var head := StrRepr(members[0].0) + ": " + Repr(members[0].1);
      if |members| == 1 then head else head + ", " + ReprMembers(members[1..], parent)
  }

  /** Python's repr of a str: single quotes unless the text holds a single
      quote and no double quote, with the chosen quote, backslash and ASCII
      control characters escaped. */
  function StrRepr(s: string): (r: string)
    ensures |r| >= 2 && r[0] == r[|r| - 1] && (r[0] == '\'' || r[0] == '"')
  {
    var q := if '\'' in s && '"' !in s then '"' else '\'';
    [q] + Escape(s, q) + [q]
  }

  function Escape(s: string, q: char): string {
    if |s| == 0 then "" else EscapeChar(s[0], q) + Escape(s[1..], q)
  }

  /** A printable ASCII character other than the quote `q` and the
      backslash, which `repr` prints as it stands. */
  predicate Plain(c: char, q: char) {
    c != q && c != '\\' && 0x20 <= c as int < 0x7F
  }

  /** Text of plain characters is not escaped. */
  lemma {:induction false} EscapePlain(s: string, q: char)
    requires forall k :: 0 <= k < |s| ==> Plain(s[k], q)
    ensures Escape(s, q) == s
    decreases |s|
  {
    if |s| > 0 {
      EscapePlain(s[1..], q);
      assert s == [s[0]] + s[1..];
    }
  }

  /** `repr` of a text without quotes, backslashes or control characters
      is the text in single quotes: `repr("intro") == "'intro'"`. */
  lemma PlainStrRepr(s: string)
    requires forall k :: 0 <= k < |s| ==> Plain(s[k], '\'') && s[k] != '"'
    ensures StrRepr(s) == "'" + s + "'"
  {
    EscapePlain(s, '\'');
  }

  function EscapeChar(c: char, q: char): string {
    if c == q || c == '\\' then ['\\', c]
    else if c == '\t' then "\\t"
    else if c == '\n' then "\\n"
    else if c == '\r' then "\\r"
    else if (c as int) < 0x20 || (c as int) == 0x7F then "\\x" + [HexDigit((c as int) / 16), HexDigit((c as int) % 16)]
    else [c]
  }

  function HexDigit(d: int): char
    requires 0 <= d < 16
  {
    if d < 10 then ('0' as int + d) as char else ('a' as int + d - 10) as char
  }
}
