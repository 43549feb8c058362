/** Python's base-10 conversions between integers and text: `str(n)` for an
    int and `int(s)` for a str. */
module Decimal {
  import opened Results
  import opened PyText

  predicate IsDigit(c: char) {
    '0' <= c <= '9'
  }

  function DigitChar(d: nat): (c: char)
    requires d < 10
    ensures IsDigit(c) && (c as int) - ('0' as int) == d
  {
    ('0' as int + d) as char
  }

  /** Decimal digits of `n`, most significant first, no leading zeros. */
  function ShowNat(n: nat): (r: string)
    ensures |r| >= 1 && IsDigit(r[0]) && IsDigit(r[|r| - 1])
    ensures r[0] == '0' ==> n == 0
    ensures forall k :: 0 <= k < |r| ==> IsDigit(r[k])
    decreases n
  {
    if n < 10 then [DigitChar(n)] else ShowNat(n / 10) + [DigitChar(n % 10)]
  }

  /** Python's `str(n)` for an int: a minus sign exactly for a negative
      number, then digits without a leading zero (except for zero itself). */
  function ShowInt(n: int): (r: string)
    ensures |r| >= 1 && !IsSpace(r[0]) && !IsSpace(r[|r| - 1])
    ensures r[0] == '-' <==> n < 0
    ensures n >= 0 ==> IsDigit(r[0])
    ensures n < 0 ==> |r| >= 2
    ensures forall k :: 1 <= k < |r| ==> IsDigit(r[k])
    ensures n != 0 ==> r[if n < 0 then 1 else 0] != '0'
  {
    if n < 0 then "-" + ShowNat(-n) else ShowNat(n)
  }

  /** The digit part `int()` accepts in base 10: ASCII digits, where a single
      underscore may separate two digits. Read from the end: a digit, preceded
      either by nothing, by a shorter run, or by an underscore and a shorter
      run. */
  predicate DigitRun(d: string)
    decreases |d|
  {
    && |d| >= 1
    && IsDigit(d[|d| - 1])
    && (|d| == 1
        || (if d[|d| - 2] == '_' then |d| >= 3 && DigitRun(d[..|d| - 2]) else DigitRun(d[..|d| - 1])))
  }

  /** A digit run also starts with a digit. */
  lemma {:induction false} DigitRunStartsWithDigit(d: string)
    requires DigitRun(d)
    ensures IsDigit(d[0])
    decreases |d|
  {
    if |d| > 1 {
      var shorter := if d[|d| - 2] == '_' then d[..|d| - 2] else d[..|d| - 1];
      DigitRunStartsWithDigit(shorter);
      assert d[0] == shorter[0];
    }
  }

  /** The number a digit run spells, underscores ignored. */
  function RunValue(d: string): nat {
    if |d| == 0 then 0
    else if d[|d| - 1] == '_' then RunValue(d[..|d| - 1])
    else if IsDigit(d[|d| - 1]) then RunValue(d[..|d| - 1]) * 10 + ((d[|d| - 1] as int) - ('0' as int))
    else RunValue(d[..|d| - 1]) * 10
  }

  /** Python's `int(s)` in base 10: the whitespace `int()` skips, then an
      optional sign, then a digit run, then that whitespace again; `None`
      where Python raises `ValueError`. Text with nothing but such
      whitespace is an error, and a number always has a digit in its text. */
  function ParseInt(s: string): (r: Option<int>)
    ensures AllBlank(IntSpaces, s) ==> r.None?
    ensures r.Some? ==> exists k :: 0 <= k < |s| && IsDigit(s[k])
  {
    var l := StripLeft(IntSpaces, s);
    var t := StripRight(IntSpaces, l);
    CutsMakeWindow(IntSpaces, s, l, t);
    ParsedHasDigit(s, t);
    ParseSigned(t)
  }

  /** A number parsed from a window of `s` has a digit in `s`. */
  lemma ParsedHasDigit(s: string, t: string)
    requires exists i :: Window(IntSpaces, s, i, t)
    ensures ParseSigned(t).Some? ==> exists k :: 0 <= k < |s| && IsDigit(s[k])
  {
    if ParseSigned(t).Some? {
      SignedHasDigit(t);
      var i :| Window(IntSpaces, s, i, t);
      assert s[i + |t| - 1] == t[|t| - 1];
    }
  }

  /** Text that parses ends with a digit. */
  lemma SignedHasDigit(t: string)
    requires ParseSigned(t).Some?
    ensures t != [] && IsDigit(t[|t| - 1])
  {
    if t[0] == '-' || t[0] == '+' {
      assert t[|t| - 1] == t[1..][|t| - 2];
    }
  }

  /** An optional sign followed by a digit run, nothing else. */
  function ParseSigned(t: string): Option<int> {
    if |t| > 0 && (t[0] == '-' || t[0] == '+') then
      if DigitRun(t[1..]) then
        var v: int := RunValue(t[1..]);
        Some(if t[0] == '-' then -v else v)
      else None
    else if DigitRun(t) then Some(RunValue(t))
    else None
  }

  /** The digits `str` prints are a run spelling the number back. */
  lemma {:induction false} ShowNatRun(n: nat)
    ensures DigitRun(ShowNat(n))
    ensures RunValue(ShowNat(n)) == n
    decreases n
  {
    var r := ShowNat(n);
    if n >= 10 {
      ShowNatRun(n / 10);
      assert r[..|r| - 1] == ShowNat(n / 10);
    }
  }

  /** `int(str(n)) == n` for every Python int. */
  lemma ParseShow(n: int)
    ensures ParseInt(ShowInt(n)) == Some(n)
  {
    if n < 0 {
      ParseShowNegative(n);
    } else {
      ParseShowNatural(n);
    }
  }

  lemma ParseShowNegative(n: int)
    requires n < 0
    ensures ParseInt(ShowInt(n)) == Some(n)
  {
    var m: nat := -n;
    var digits := ShowNat(m);
    ShowNatRun(m);
    assert ShowInt(n) == "-" + digits;
    ParseNegativeRun(digits);
    assert ParseInt("-" + digits) == Some(n);
  }

  lemma ParseShowNatural(n: int)
    requires n >= 0
    ensures ParseInt(ShowInt(n)) == Some(n)
  {
    var digits := ShowNat(n);
    ShowNatRun(n);
    assert ShowInt(n) == digits;
    ParseRun(digits);
  }

  lemma ParseRun(d: string)
    requires DigitRun(d)
    ensures ParseInt(d) == Some(RunValue(d))
  {
    RunEnds(d);
    ParseUnpadded(d);
    SignedRun(d);
  }

  lemma ParseNegativeRun(d: string)
    requires DigitRun(d)
    ensures ParseInt("-" + d) == Some(-(RunValue(d) as int))
  {
    SignEnds("-", d);
    ParseUnpadded("-" + d);
    SignedNegativeRun(d);
  }

  /** Text that neither starts nor ends with whitespace `int()` skips. */
  predicate Unpadded(s: string) {
    s != [] && !IsIntSpace(s[0]) && !IsIntSpace(s[|s| - 1])
  }

  lemma RunEnds(d: string)
    requires DigitRun(d)
    ensures Unpadded(d) && IsDigit(d[0])
  {
    DigitRunStartsWithDigit(d);
    DigitIsNotSpace(d[0]);
    DigitIsNotSpace(d[|d| - 1]);
  }

  lemma SignEnds(sign: string, d: string)
    requires sign == "-" || sign == "+"
    requires DigitRun(d)
    ensures Unpadded(sign + d)
  {
    var s := sign + d;
    DigitIsNotSpace(d[|d| - 1]);
    assert s[|s| - 1] == d[|d| - 1];
    assert s[0] == sign[0];
  }

  lemma DigitIsNotSpace(c: char)
    requires IsDigit(c)
    ensures !IsIntSpace(c)
  {
  }

  /** Text with no surrounding whitespace is parsed as it stands. */
  lemma ParseUnpadded(s: string)
    requires Unpadded(s)
    ensures ParseInt(s) == ParseSigned(s)
  {
    assert StripLeft(IntSpaces, s) == s;
    assert StripRight(IntSpaces, s) == s;
  }

  lemma SignedRun(d: string)
    requires DigitRun(d) && IsDigit(d[0])
    ensures ParseSigned(d) == Some(RunValue(d) as int)
  {
  }

  lemma SignedNegativeRun(d: string)
    requires DigitRun(d)
    ensures ParseSigned("-" + d) == Some(-(RunValue(d) as int))
  {
    assert ("-" + d)[1..] == d;
  }

  /** `int()` ignores the whitespace it skips around the text:
      `int(" 42\n") == int("42")`. */
  lemma ParsePadded(p: string, t: string, q: string)
    requires AllBlank(IntSpaces, p) && AllBlank(IntSpaces, q)
    requires t != [] && !IsIntSpace(t[0]) && !IsIntSpace(t[|t| - 1])
    ensures ParseInt(p + t + q) == ParseInt(t)
  {
    StripLeftPadded(IntSpaces, p, t + q);
    assert p + t + q == p + (t + q);
    StripRightPadded(IntSpaces, t, q);
    ParseUnpadded(t);
  }

  /** Unlike `str.strip()`, `int()` does not skip the ASCII separators
      FS..US: `int("\x1c5")` raises although `"\x1c5".strip() == "5"`. */
  lemma SeparatorIsNotSkipped()
    ensures ParseInt(['\U{1C}', '5']) == None
    ensures Strip(['\U{1C}', '5']) == "5"
  {
    SeparatorRejected(['\U{1C}', '5']);
    SeparatorStripped(['\U{1C}', '5']);
  }

  lemma SeparatorRejected(s: string)
    requires s == ['\U{1C}', '5']
    ensures ParseInt(s) == None
  {
    ParseUnpadded(s);
    SeparatorIsNotADigit(s);
  }

  lemma SeparatorIsNotADigit(s: string)
    requires s == ['\U{1C}', '5']
    ensures ParseSigned(s) == None
  {
    assert s[..1] == ['\U{1C}'];
    assert !DigitRun(s[..1]);
  }

  lemma SeparatorStripped(s: string)
    requires s == ['\U{1C}', '5']
    ensures Strip(s) == "5"
  {
    var fs := s[..1];
    var t := s[1..];
    assert s == fs + t;
    assert AllBlank(StrSpaces, fs);
    StripLeftPadded(StrSpaces, fs, t);
    TrimFixed(StrSpaces, t);
  }

  /** A `+` sign leaves the value alone: `int("+42") == int("42")`. */
  lemma PlusSign(d: string)
    requires DigitRun(d)
    ensures ParseInt("+" + d) == Some(RunValue(d))
    ensures ParseInt(d) == Some(RunValue(d))
  {
    ParseRun(d);
    ParsePositiveRun(d);
  }

  lemma ParsePositiveRun(d: string)
    requires DigitRun(d)
    ensures ParseInt("+" + d) == Some(RunValue(d))
  {
    SignEnds("+", d);
    ParseUnpadded("+" + d);
    SignedPositiveRun(d);
  }

  lemma SignedPositiveRun(d: string)
    requires DigitRun(d)
    ensures ParseSigned("+" + d) == Some(RunValue(d) as int)
  {
    assert ("+" + d)[1..] == d;
  }

  /** A leading zero leaves the value alone: `int("007") == int("7")`. */
  lemma LeadingZero(d: string)
    requires DigitRun(d)
    ensures ParseInt("0" + d) == ParseInt(d)
  {
    ZeroRun(d);
    ZeroValue(d);
    ParseRun(d);
    ParseRun("0" + d);
  }

  /** A single underscore between two digit runs leaves the value alone:
      `int("1_000") == int("1000")`. */
  lemma Underscore(x: string, y: string)
    requires DigitRun(x) && DigitRun(y)
    ensures ParseInt(x + "_" + y) == ParseInt(x + y)
    ensures ParseInt(x + y).Some?
  {
    JoinRun(x, y);
    UnderscoreRun(x, y);
    UnderscoreValue(x, y);
    ParseRun(x + y);
    ParseRun(x + "_" + y);
  }

  /** Two underscores in a row are refused: `int("1__0")` raises. */
  lemma DoubleUnderscore(x: string, y: string)
    requires DigitRun(x) && DigitRun(y)
    ensures ParseInt(x + "__" + y) == None
  {
    DoubleUnderscoreUnpadded(x, y);
    DoubleUnderscoreSigned(x, y);
  }

  lemma DoubleUnderscoreUnpadded(x: string, y: string)
    requires DigitRun(x) && DigitRun(y)
    ensures ParseInt(x + "__" + y) == ParseSigned(x + "__" + y)
  {
    DoubleUnderscoreEnds(x, y);
    ParseUnpadded(x + "__" + y);
  }

  lemma DoubleUnderscoreEnds(x: string, y: string)
    requires DigitRun(x) && DigitRun(y)
    ensures Unpadded(x + "__" + y) && IsDigit((x + "__" + y)[0])
  {
    var s := x + "__" + y;
    DigitRunStartsWithDigit(x);
    assert s[0] == x[0];
    assert s[|s| - 1] == y[|y| - 1];
    DigitIsNotSpace(x[0]);
    DigitIsNotSpace(y[|y| - 1]);
  }

  lemma DoubleUnderscoreSigned(x: string, y: string)
    requires DigitRun(x) && DigitRun(y)
    ensures ParseSigned(x + "__" + y) == None
  {
    DoubleUnderscoreEnds(x, y);
    NoDoubleUnderscoreRun(x, y);
  }

  lemma {:induction false} ZeroRun(d: string)
    requires DigitRun(d)
    ensures DigitRun("0" + d)
    decreases |d|
  {
    var s := "0" + d;
    assert s[|s| - 1] == d[|d| - 1];
    assert s[|s| - 2] == if |d| == 1 then '0' else d[|d| - 2];
    if |d| == 1 {
      assert s[..|s| - 1] == "0";
    } else if d[|d| - 2] == '_' {
      ZeroRun(d[..|d| - 2]);
      assert s[..|s| - 2] == "0" + d[..|d| - 2];
    } else {
      ZeroRun(d[..|d| - 1]);
      assert s[..|s| - 1] == "0" + d[..|d| - 1];
    }
  }

  lemma {:induction false} ZeroValue(d: string)
    ensures RunValue("0" + d) == RunValue(d)
    decreases |d|
  {
    var s := "0" + d;
    if |d| == 0 {
      assert s[..0] == [];
    } else {
      ZeroValue(d[..|d| - 1]);
      assert s[..|s| - 1] == "0" + d[..|d| - 1];
      assert s[|s| - 1] == d[|d| - 1];
    }
  }

  lemma {:induction false} JoinRun(x: string, y: string)
    requires DigitRun(x) && DigitRun(y)
    ensures DigitRun(x + y)
    decreases |y|
  {
    var s := x + y;
    assert s[|s| - 1] == y[|y| - 1];
    if |y| == 1 {
      assert s[..|s| - 1] == x;
      assert s[|s| - 2] == x[|x| - 1];
    } else if y[|y| - 2] == '_' {
      JoinRun(x, y[..|y| - 2]);
      assert s[|s| - 2] == y[|y| - 2];
      assert s[..|s| - 2] == x + y[..|y| - 2];
    } else {
      JoinRun(x, y[..|y| - 1]);
      assert s[|s| - 2] == y[|y| - 2];
      assert s[..|s| - 1] == x + y[..|y| - 1];
    }
  }

  lemma {:induction false} UnderscoreRun(x: string, y: string)
    requires DigitRun(x) && DigitRun(y)
    ensures DigitRun(x + "_" + y)
    decreases |y|
  {
    var s := x + "_" + y;
    assert s[|s| - 1] == y[|y| - 1];
    if |y| == 1 {
      assert s[|s| - 2] == '_';
      assert s[..|s| - 2] == x;
    } else if y[|y| - 2] == '_' {
      UnderscoreRun(x, y[..|y| - 2]);
      assert s[|s| - 2] == y[|y| - 2];
      assert s[..|s| - 2] == x + "_" + y[..|y| - 2];
    } else {
      UnderscoreRun(x, y[..|y| - 1]);
      assert s[|s| - 2] == y[|y| - 2];
      assert s[..|s| - 1] == x + "_" + y[..|y| - 1];
    }
  }

  lemma {:induction false} UnderscoreValue(x: string, y: string)
    ensures RunValue(x + "_" + y) == RunValue(x + y)
    decreases |y|
  {
    var s := x + "_" + y;
    if |y| == 0 {
      assert s[..|s| - 1] == x;
      assert x + y == x;
    } else {
      UnderscoreValue(x, y[..|y| - 1]);
      assert s[..|s| - 1] == x + "_" + y[..|y| - 1];
      assert s[|s| - 1] == y[|y| - 1];
      var t := x + y;
      assert t[..|t| - 1] == x + y[..|y| - 1];
      assert t[|t| - 1] == y[|y| - 1];
    }
  }

  lemma {:induction false} NoDoubleUnderscoreRun(x: string, y: string)
    ensures !DigitRun(x + "__" + y)
    decreases |y|
  {
    var s := x + "__" + y;
    if |y| == 0 {
      assert s[|s| - 1] == '_';
    } else if |y| == 1 {
      assert s[|s| - 2] == '_';
      assert s[..|s| - 2] == x + "_";
      assert (x + "_")[|x|] == '_';
    } else {
      assert s[|s| - 2] == y[|y| - 2];
      if y[|y| - 2] == '_' {
        NoDoubleUnderscoreRun(x, y[..|y| - 2]);
        assert s[..|s| - 2] == x + "__" + y[..|y| - 2];
      } else {
        NoDoubleUnderscoreRun(x, y[..|y| - 1]);
        assert s[..|s| - 1] == x + "__" + y[..|y| - 1];
      }
    }
  }
}
