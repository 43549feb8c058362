/** The pieces of Python's text handling the progress store relies on:
    `str.isspace`, `str.strip()` and `str.replace("Z", "+00:00")`. */
module PyText {

  /** Python's `str.isspace()` for one character: the ASCII controls
      TAB..CR and FS..US, SPACE, NEL, NO-BREAK SPACE, OGHAM SPACE MARK, the
      EN QUAD..HAIR SPACE block, LINE and PARAGRAPH SEPARATOR, NARROW
      NO-BREAK SPACE, MEDIUM MATHEMATICAL SPACE and IDEOGRAPHIC SPACE. */
  predicate IsSpace(c: char) {
    var n := c as int;
    || 0x09 <= n <= 0x0D
    || 0x1C <= n <= 0x20
    || n == 0x85 || n == 0xA0 || n == 0x1680
    || 0x2000 <= n <= 0x200A
    || n == 0x2028 || n == 0x2029 || n == 0x202F || n == 0x205F || n == 0x3000
  }

  /** The whitespace `int()` skips around its digits: ASCII TAB..CR and
      SPACE, and every non-ASCII `str.isspace()` character; unlike
      `str.strip()` it keeps the ASCII separators FS..US. */
  predicate IsIntSpace(c: char) {
    IsSpace(c) && !(0x1C <= c as int <= 0x1F)
  }

  /** On ASCII, `str.isspace()` holds exactly for TAB..CR, FS..US and SPACE,
      and the whitespace `int()` skips is the same minus FS..US; outside
      ASCII the two agree. */
  lemma SpaceClasses(c: char)
    ensures c as int < 0x80 ==> (IsSpace(c) <==> '\t' <= c <= '\r' || '\U{1C}' <= c <= ' ')
    ensures c as int < 0x80 ==> (IsIntSpace(c) <==> '\t' <= c <= '\r' || c == ' ')
    ensures c as int >= 0x80 ==> (IsIntSpace(c) <==> IsSpace(c))
  {
  }

  /** Which characters a trim removes. */
  datatype Spaces = StrSpaces | IntSpaces

  predicate Blank(sp: Spaces, c: char) {
    match sp
    case StrSpaces => IsSpace(c)
    case IntSpaces => IsIntSpace(c)
  }

  /** Every character of `s` is blank in the sense of `sp`. */
  predicate AllBlank(sp: Spaces, s: string) {
    forall k :: 0 <= k < |s| ==> Blank(sp, s[k])
  }

  predicate AllSpace(s: string) {
    AllBlank(StrSpaces, s)
  }

  /** Drops leading blanks: the result is the suffix of `s` that starts
      at its first non-blank character. */
  function StripLeft(sp: Spaces, s: string): (r: string)
    ensures |r| <= |s| && r == s[|s| - |r|..]
    ensures AllBlank(sp, s[..|s| - |r|])
    ensures r == [] || !Blank(sp, r[0])
  {
    if |s| > 0 && Blank(sp, s[0]) then StripLeft(sp, s[1..]) else s
  }

  /** Drops trailing blanks: the result is the prefix of `s` that ends
      at its last non-blank character. */
  function StripRight(sp: Spaces, s: string): (r: string)
    ensures |r| <= |s| && r == s[..|r|]
    ensures AllBlank(sp, s[|r|..])
    ensures r == [] || !Blank(sp, r[|r| - 1])
  {
    if |s| > 0 && Blank(sp, s[|s| - 1]) then
      var r := StripRight(sp, s[..|s| - 1]);
      assert s[..|r|] == s[..|s| - 1][..|r|];
      assert s[|r|..] == s[..|s| - 1][|r|..] + [s[|s| - 1]];
      r
    else s
  }

  /** `r` is the slice of `s` starting at `i`, with only blanks before and
      after it. */
  predicate Window(sp: Spaces, s: string, i: int, r: string) {
    && 0 <= i <= |s| - |r|
    && r == s[i..i + |r|]
    && AllBlank(sp, s[..i])
    && AllBlank(sp, s[i + |r|..])
  }

  /** Removes the blanks around `s`: the result is the slice of `s` left
      once the blanks at both ends are cut away. */
  function Trim(sp: Spaces, s: string): (r: string)
    ensures r == [] <==> AllBlank(sp, s)
    ensures r != [] ==> !Blank(sp, r[0]) && !Blank(sp, r[|r| - 1])
    ensures exists i :: Window(sp, s, i, r)
  {
    var l := StripLeft(sp, s);
    var r := StripRight(sp, l);
    CutsMakeWindow(sp, s, l, r);
    r
  }

  /** Cutting leading blanks off `s` (leaving `l`) and then trailing blanks
      off `l` (leaving `r`) leaves a window of `s`, and leaves nothing
      exactly when `s` was all blanks. */
  lemma CutsMakeWindow(sp: Spaces, s: string, l: string, r: string)
    requires |l| <= |s| && l == s[|s| - |l|..] && AllBlank(sp, s[..|s| - |l|])
    requires l == [] || !Blank(sp, l[0])
    requires |r| <= |l| && r == l[..|r|] && AllBlank(sp, l[|r|..])
    ensures Window(sp, s, |s| - |l|, r)
    ensures r == [] <==> AllBlank(sp, s)
  {
    var i := |s| - |l|;
    PrefixOfSuffix(s, i, r);
    if r == [] {
      assert l[|r|..] == l;
      assert l == [];
      assert s[..i] == s;
    } else {
      assert r[0] == s[i];
    }
  }

  /** A prefix `r` of the suffix of `s` at `i` is the slice of `s` at `i`,
      and what follows it in the suffix is what follows it in `s`. */
  lemma PrefixOfSuffix(s: string, i: int, r: string)
    requires 0 <= i <= |s| && |r| <= |s| - i && r == s[i..][..|r|]
    ensures r == s[i..i + |r|] && s[i..][|r|..] == s[i + |r|..]
  {
  }

  /** Leading blanks before a text that does not start with one are cut
      away exactly. */
  lemma {:induction false} StripLeftPadded(sp: Spaces, p: string, t: string)
    requires AllBlank(sp, p)
    requires t == [] || !Blank(sp, t[0])
    ensures StripLeft(sp, p + t) == t
    decreases |p|
  {
    if p == [] {
      assert p + t == t;
    } else {
      assert (p + t)[0] == p[0];
      assert (p + t)[1..] == p[1..] + t;
      StripLeftPadded(sp, p[1..], t);
    }
  }

  /** Trailing blanks after a text that does not end with one are cut away
      exactly. */
  lemma {:induction false} StripRightPadded(sp: Spaces, t: string, q: string)
    requires AllBlank(sp, q)
    requires t == [] || !Blank(sp, t[|t| - 1])
    ensures StripRight(sp, t + q) == t
    decreases |q|
  {
    if q == [] {
      assert t + q == t;
    } else {
      var u := t + q;
      assert u[|u| - 1] == q[|q| - 1];
      assert u[..|u| - 1] == t + q[..|q| - 1];
      StripRightPadded(sp, t, q[..|q| - 1]);
    }
  }

  /** Python's `s.strip()` with no argument: `s` without its surrounding
      `str.isspace()` characters. */
  function Strip(s: string): (r: string)
    ensures r == [] <==> AllSpace(s)
    ensures r != [] ==> !IsSpace(r[0]) && !IsSpace(r[|r| - 1])
    ensures exists i :: Window(StrSpaces, s, i, r)
  {
    Trim(StrSpaces, s)
  }

  /** A string with no surrounding whitespace is its own trim. */
  lemma TrimFixed(sp: Spaces, s: string)
    requires s == [] || (!Blank(sp, s[0]) && !Blank(sp, s[|s| - 1]))
    ensures Trim(sp, s) == s
  {
    assert StripLeft(sp, s) == s;
    if s != [] {
      assert StripRight(sp, s) == s;
    }
  }

  /** Stripping twice is stripping once. */
  lemma StripIdempotent(s: string)
    ensures Strip(Strip(s)) == Strip(s)
  {
    TrimFixed(StrSpaces, Strip(s));
  }

  /** Python's `s.replace("Z", "+00:00")`: every `Z` becomes an explicit zero
      offset. */
  function ReplaceZ(s: string): (r: string)
    ensures 'Z' !in r
  {
    if s == [] then []
    else (if s[0] == 'Z' then "+00:00" else [s[0]]) + ReplaceZ(s[1..])
  }

  /** Text without a `Z` is left as it is. */
  lemma {:induction false} ReplaceZIdentity(s: string)
    requires 'Z' !in s
    ensures ReplaceZ(s) == s
    decreases |s|
  {
    if s != [] {
      ReplaceZIdentity(s[1..]);
    }
  }

  /** Replacing distributes over concatenation. */
  lemma {:induction false} ReplaceZAppend(a: string, b: string)
    ensures ReplaceZ(a + b) == ReplaceZ(a) + ReplaceZ(b)
    decreases |a|
  {
    if a == [] {
      assert a + b == b;
    } else {
      var h := if a[0] == 'Z' then "+00:00" else [a[0]];
      assert (a + b)[0] == a[0] && (a + b)[1..] == a[1..] + b;
      assert ReplaceZ(a + b) == h + ReplaceZ(a[1..] + b);
      ReplaceZAppend(a[1..], b);
      assert ReplaceZ(a) == h + ReplaceZ(a[1..]);
    }
  }
}
