/**
 * The Python built-ins that lenskit's parallelism configuration and ALS
 * chunking rely on: `int(str)` on a decimal string (as read from an
 * environment variable), floor division `//` on integers, and `min`.
 */
module PyInt {
  import opened Results

  /** The ASCII characters `int()` skips around its digits. */
  predicate IsSpace(c: char) {
    c == ' ' || c == '\t' || c == '\n' || c == '\r' || c == '\U{000B}' || c == '\U{000C}'
  }

  predicate IsDigit(c: char) {
    '0' <= c <= '9'
  }

  function DigitValue(c: char): nat
    requires IsDigit(c)
  {
    (c as int) - ('0' as int)
  }

  function DigitChar(d: nat): (c: char)
    requires d < 10
    ensures IsDigit(c) && DigitValue(c) == d
  {
    (('0' as int) + d) as char
  }

  function StripLeading(s: string): (r: string)
    ensures |r| <= |s| && r == s[|s| - |r|..]
    ensures r != [] ==> !IsSpace(r[0])
  {
    if s != [] && IsSpace(s[0]) then StripLeading(s[1..]) else s
  }

  function StripTrailing(s: string): (r: string)
    ensures |r| <= |s| && r == s[..|r|]
    ensures r != [] ==> !IsSpace(r[|r| - 1])
  {
    if s != [] && IsSpace(s[|s| - 1]) then StripTrailing(s[..|s| - 1]) else s
  }

  /** `s.strip()`: the string without leading and trailing whitespace. */
  function Strip(s: string): string {
    StripTrailing(StripLeading(s))
  }

  /** One or more digits, with single underscores allowed between digits. */
  predicate IsDigitGroup(s: string) {
    && |s| > 0
    && IsDigit(s[0])
    && IsDigit(s[|s| - 1])
    && (forall i :: 0 <= i < |s| ==> IsDigit(s[i]) || s[i] == '_')
    && (forall i :: 0 <= i < |s| - 1 ==> !DoubleUnderscoreAt(s, i))
  }

  predicate DoubleUnderscoreAt(s: string, i: nat)
    requires i + 1 < |s|
  {
    s[i] == '_' && s[i + 1] == '_'
  }

  predicate AllDigits(s: string) {
    forall i :: 0 <= i < |s| ==> IsDigit(s[i])
  }

  function DropUnderscores(s: string): (r: string)
    requires forall i :: 0 <= i < |s| ==> IsDigit(s[i]) || s[i] == '_'
    ensures AllDigits(r)
  {
    if s == [] then []
    else if s[0] == '_' then DropUnderscores(s[1..])
    else [s[0]] + DropUnderscores(s[1..])
  }

  /** The value of a string of decimal digits, most significant first. */
  function DecimalValue(ds: string): nat
    requires AllDigits(ds)
  {
    if ds == [] then 0
    else DecimalValue(ds[..|ds| - 1]) * 10 + DigitValue(ds[|ds| - 1])
  }

  function GroupValue(s: string): nat
    requires IsDigitGroup(s)
  {
    DecimalValue(DropUnderscores(s))
  }

  /** A digit group's value, or `None` for anything else. */
  function ParseGroup(t: string): Option<nat> {
    if IsDigitGroup(t) then Some(GroupValue(t)) else None
  }

  /** `int` on a stripped string: one optional sign, then a digit group. */
  function ParseStripped(t: string): Option<int> {
    if |t| > 0 && (t[0] == '+' || t[0] == '-') then
      match ParseGroup(t[1..])
      case None => None
      case Some(v) =>
        var n: int := v;
        Some(if t[0] == '-' then -n else n)
    else
      match ParseGroup(t)
      case None => None
      case Some(v) => Some(v)
  }

  /**
   * `int(s)` for a base-10 string: surrounding whitespace is ignored, one
   * optional sign, then a digit group. Anything else raises ValueError,
   * modelled as `None`.
   */
  function ParseInt(s: string): (r: Option<int>)
    ensures r.Some? ==> var t := Strip(s);
      && t != [] && IsDigit(t[|t| - 1])
      && (r.value < 0 ==> t[0] == '-')
      && (t[0] == '-' ==> r.value <= 0)
  {
    ParseStripped(Strip(s))
  }

  /** `str(n)` for a natural number. */
  function ShowNat(n: nat): (r: string)
    ensures AllDigits(r) && |r| > 0
  {
    if n < 10 then [DigitChar(n)] else ShowNat(n / 10) + [DigitChar(n % 10)]
  }

  /** `str(n)`: a minus sign for negative numbers, then the digits. */
  function Show(n: int): (r: string)
    ensures n >= 0 ==> r != [] && AllDigits(r)
    ensures n < 0 ==> |r| >= 2 && r[0] == '-' && AllDigits(r[1..])
  {
    if n < 0 then "-" + ShowNat(-n) else ShowNat(n)
  }

  lemma {:induction false} DecimalValueShow(n: nat)
    ensures DecimalValue(ShowNat(n)) == n
  {
    if n >= 10 {
      var s := ShowNat(n);
      assert s[..|s| - 1] == ShowNat(n / 10);
      DecimalValueShow(n / 10);
    }
  }

  lemma {:induction false} DropNoUnderscores(s: string)
    requires AllDigits(s)
    ensures DropUnderscores(s) == s
  {
    if s != [] {
      DropNoUnderscores(s[1..]);
    }
  }

  lemma StripUnpadded(s: string)
    requires s != [] && !IsSpace(s[0]) && !IsSpace(s[|s| - 1])
    ensures Strip(s) == s
  {
  }

  /** A non-empty run of digits is a digit group worth its decimal value. */
  lemma DigitsAreGroup(ds: string)
    requires AllDigits(ds) && |ds| > 0
    ensures ParseGroup(ds) == Some(DecimalValue(ds))
  {
    DropNoUnderscores(ds);
    forall i | 0 <= i < |ds| - 1
      ensures !DoubleUnderscoreAt(ds, i)
    {
      assert IsDigit(ds[i]);
    }
  }

  /** A string that starts and ends with a non-space character is parsed as it is. */
  lemma ParseUnpadded(s: string)
    requires s != [] && !IsSpace(s[0]) && !IsSpace(s[|s| - 1])
    ensures ParseInt(s) == ParseStripped(s)
  {
    StripUnpadded(s);
  }

  /** An unsigned digit group parses to its value. */
  lemma ParseGroupUnsigned(g: string, v: nat)
    requires ParseGroup(g) == Some(v)
    ensures ParseInt(g) == Some(v)
  {
    assert IsDigit(g[0]) && IsDigit(g[|g| - 1]);
    ParseUnpadded(g);
  }

  /** A minus sign in front of a digit group negates its value. */
  lemma ParseMinusGroup(g: string, v: nat)
    requires ParseGroup(g) == Some(v)
    ensures ParseStripped("-" + g) == Some(-(v as int))
  {
    assert ("-" + g)[1..] == g;
  }

  /** `int("-" + g)` for a digit group `g` is minus the group's value. */
  lemma ParseNegGroup(g: string, v: nat)
    requires ParseGroup(g) == Some(v)
    ensures ParseInt("-" + g) == Some(-(v as int))
  {
    var neg := "-" + g;
    assert neg[0] == '-' && neg[|neg| - 1] == g[|g| - 1];
    ParseUnpadded(neg);
    ParseMinusGroup(g, v);
  }

  /** `int(str(n)) == n`: every integer's decimal text parses back to it. */
  lemma ParseShow(n: int)
    ensures ParseInt(Show(n)) == Some(n)
  {
    var m: nat := if n < 0 then -n else n;
    DecimalValueShow(m);
    if n < 0 {
      DigitsAreGroup(ShowNat(m));
      ParseNegGroup(ShowNat(m), m);
    } else {
      DigitsAreGroup(ShowNat(m));
      ParseGroupUnsigned(ShowNat(m), m);
    }
  }

  lemma {:induction false} StripLeadingKeeps(s: string, i: nat)
    requires i < |s| && !IsSpace(s[i])
    ensures s[i] in StripLeading(s)
  {
    if IsSpace(s[0]) {
      StripLeadingKeeps(s[1..], i - 1);
    }
  }

  lemma {:induction false} StripTrailingKeeps(s: string, i: nat)
    requires i < |s| && !IsSpace(s[i])
    ensures s[i] in StripTrailing(s)
  {
    if IsSpace(s[|s| - 1]) {
      StripTrailingKeeps(s[..|s| - 1], i);
    }
  }

  /** A non-space character survives `strip()`. */
  lemma StripKeeps(s: string, i: nat)
    requires i < |s| && !IsSpace(s[i])
    ensures s[i] in Strip(s)
  {
    StripLeadingKeeps(s, i);
    var t0 := StripLeading(s);
    var j :| 0 <= j < |t0| && t0[j] == s[i];
    StripTrailingKeeps(t0, j);
  }

  /** A character that is neither a digit nor an underscore is no part of a digit group. */
  lemma NotInGroup(g: string, c: char)
    requires c in g && !IsDigit(c) && c != '_'
    ensures ParseGroup(g) == None
  {
  }

  /** Past the one optional sign, a stripped value holding a foreign character does not parse. */
  lemma StrippedRejects(t: string, c: char)
    requires c in t && !IsDigit(c) && c != '+' && c != '-' && c != '_'
    ensures ParseStripped(t) == None
  {
    if |t| > 0 && (t[0] == '+' || t[0] == '-') {
      var k :| 0 <= k < |t| && t[k] == c;
      assert t[1..][k - 1] == c;
      NotInGroup(t[1..], c);
    } else {
      NotInGroup(t, c);
    }
  }

  /**
   * A value holding any character other than whitespace, a sign, a digit or
   * an underscore (`"four"`, `"2.5"`) makes `int` raise.
   */
  lemma ParseRejects(s: string, i: nat)
    requires i < |s|
    requires !IsSpace(s[i]) && !IsDigit(s[i]) && s[i] != '+' && s[i] != '-' && s[i] != '_'
    ensures ParseInt(s) == None
  {
    StripKeeps(s, i);
    StrippedRejects(Strip(s), s[i]);
  }

  lemma {:induction false} StripAllSpace(s: string)
    requires forall i :: 0 <= i < |s| ==> IsSpace(s[i])
    ensures StripLeading(s) == []
  {
    if s != [] {
      StripAllSpace(s[1..]);
    }
  }

  /** A value made only of whitespace (`" "`) is truthy but makes `int` raise. */
  lemma ParseBlank(s: string)
    requires forall i :: 0 <= i < |s| ==> IsSpace(s[i])
    ensures ParseInt(s) == None
  {
    StripAllSpace(s);
  }

  /** Python's `min` on two integers. */
  function Min(a: int, b: int): (r: int)
    ensures r <= a && r <= b && (r == a || r == b)
  {
    if a <= b then a else b
  }

  /** Python's `a // b`: the quotient rounded toward negative infinity. */
  function FloorDiv(a: int, b: int): (q: int)
    requires b != 0
    ensures b > 0 ==> q * b <= a < q * b + b
    ensures b < 0 ==> q * b >= a > q * b + b
  {
    if b > 0 then a / b else (-a) / (-b)
  }
}
