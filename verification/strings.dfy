/** The handful of Python `str` operations the extraction pipeline relies on,
    with Python's semantics: `startswith`, `endswith`, `in`, `find`,
    `split(sep)[0]`, `split(sep, 1)[1]`, `replace(old, "")`, `strip()`,
    `int(s)` and `str(n)`.
 */
module Strings {
  import opened Wrappers

  predicate IsDigit(c: char) {
    '0' <= c <= '9'
  }

  /** Python's `str.isspace()`: the characters `strip()` and `int()` skip. */
  predicate IsSpace(c: char) {
    || '\U{9}' <= c <= '\U{D}'
    || '\U{1C}' <= c <= '\U{20}'
    || c == '\U{85}' || c == '\U{A0}' || c == '\U{1680}'
    || '\U{2000}' <= c <= '\U{200A}'
    || c == '\U{2028}' || c == '\U{2029}' || c == '\U{202F}' || c == '\U{205F}'
    || c == '\U{3000}'
  }

  predicate AllDigits(s: string) {
    forall i :: 0 <= i < |s| ==> IsDigit(s[i])
  }

  predicate StartsWith(s: string, prefix: string) {
    |prefix| <= |s| && s[..|prefix|] == prefix
  }

  predicate EndsWith(s: string, suffix: string) {
    |suffix| <= |s| && s[|s| - |suffix|..] == suffix
  }

  lemma StartsWithTrans(a: string, b: string, c: string)
    requires StartsWith(a, b) && StartsWith(b, c)
    ensures StartsWith(a, c)
  {
    assert a[..|c|] == a[..|b|][..|c|];
  }

  /** `p` occurs in `s` starting at index `i`. */
  predicate OccursAt(s: string, p: string, i: int) {
    0 <= i && i + |p| <= |s| && s[i..i + |p|] == p
  }

  /** The first index at or after `from` where `p` occurs. */
  function FindFrom(s: string, p: string, from: nat): (r: Option<nat>)
    ensures r.Some? ==> from <= r.value && OccursAt(s, p, r.value)
    ensures r.Some? ==> forall j :: from <= j < r.value ==> !OccursAt(s, p, j)
    ensures r.None? ==> forall j :: from <= j ==> !OccursAt(s, p, j)
    decreases |s| - from
  {
    if from + |p| > |s| then None
    else if s[from..from + |p|] == p then Some(from)
    else FindFrom(s, p, from + 1)
  }

  /** Python `s.find(p)`, with None for -1. */
  function Find(s: string, p: string): (r: Option<nat>)
    ensures r.Some? ==> OccursAt(s, p, r.value) && forall j :: 0 <= j < r.value ==> !OccursAt(s, p, j)
    ensures r.None? ==> forall j :: !OccursAt(s, p, j)
  {
    FindFrom(s, p, 0)
  }

  /** Python `p in s`. */
  predicate Contains(s: string, p: string) {
    Find(s, p).Some?
  }

  lemma ContainsIffOccurs(s: string, p: string)
    ensures Contains(s, p) <==> exists i :: OccursAt(s, p, i)
  {
  }

  /** Python `s.split(sep)[0]`: the text before the first separator, or all of `s`. */
  function Before(s: string, sep: string): (r: string)
    requires |sep| > 0
    ensures StartsWith(s, r)
    ensures forall j :: !OccursAt(r, sep, j)
    ensures r == s || OccursAt(s, sep, |r|)
  {
    match Find(s, sep)
    case None => s
    case Some(i) =>
      var r := s[..i];
      assert forall j :: OccursAt(r, sep, j) ==> OccursAt(s, sep, j);
      r
  }

  /** Python `s.split(sep, 1)[1]`: the text after the first separator. */
  function After(s: string, sep: string): (r: string)
    requires |sep| > 0 && Contains(s, sep)
    ensures s == Before(s, sep) + sep + r
  {
    var i := Find(s, sep).value;
    assert s == s[..i] + s[i..i + |sep|] + s[i + |sep|..];
    s[i + |sep|..]
  }

  /** When `sep` does not start anywhere inside `p`, splitting `p + sep + rest`
      at its first `sep` gives back `p` and `rest`. */
  lemma SplitAtFirst(p: string, sep: string, rest: string)
    requires |sep| > 0
    requires forall j :: 0 <= j < |p| ==> !OccursAt(p + sep + rest, sep, j)
    ensures Contains(p + sep + rest, sep)
    ensures Before(p + sep + rest, sep) == p
    ensures After(p + sep + rest, sep) == rest
  {
    var s := p + sep + rest;
    assert s[|p|..|p| + |sep|] == sep;
    assert OccursAt(s, sep, |p|);
    var i := Find(s, sep).value;
    assert i == |p|;
    assert s[..i] == p;
    var a := After(s, sep);
    assert s == p + sep + a;
    assert a == s[|p| + |sep|..];
    assert rest == s[|p| + |sep|..];
  }

  /** Python `s.replace(p, "")`: every non-overlapping occurrence, scanned left to right. */
  function RemoveAll(s: string, p: string): (r: string)
    requires |p| > 0
    ensures |r| <= |s|
    decreases |s|
  {
    if |s| < |p| then s
    else if s[..|p|] == p then RemoveAll(s[|p|..], p)
    else [s[0]] + RemoveAll(s[1..], p)
  }

  /** A leading occurrence of `p` is dropped whole. */
  lemma RemoveAllLeading(p: string, b: string)
    requires |p| > 0
    ensures RemoveAll(p + b, p) == RemoveAll(b, p)
  {
    assert (p + b)[..|p|] == p;
    assert (p + b)[|p|..] == b;
  }

  /** Characters that cannot start `p` pass through `RemoveAll` untouched. */
  lemma {:induction false} RemoveAllSkip(a: string, b: string, p: string)
    requires |p| > 0
    requires forall i :: 0 <= i < |a| ==> a[i] != p[0]
    ensures RemoveAll(a + b, p) == a + RemoveAll(b, p)
    decreases |a|
  {
    if |a| == 0 {
      assert a + b == b;
    } else {
      var s := a + b;
      assert s[0] == a[0];
      assert s[1..] == a[1..] + b;
      RemoveAllSkip(a[1..], b, p);
      if |s| < |p| {
        RemoveAllShort(b, p);
        assert RemoveAll(s, p) == s;
      } else {
        assert s[..|p|][0] == a[0];
        assert RemoveAll(s, p) == [s[0]] + RemoveAll(s[1..], p);
        assert [a[0]] + (a[1..] + RemoveAll(b, p)) == a + RemoveAll(b, p);
      }
    }
  }

  lemma RemoveAllShort(s: string, p: string)
    requires 0 < |p| && |s| < |p|
    ensures RemoveAll(s, p) == s
  {
  }

  /** Python `s.lstrip()`. */
  function StripLeft(s: string): (r: string)
    ensures |r| <= |s|
    ensures r == [] || !IsSpace(r[0])
    ensures forall k :: 0 <= k < |s| - |r| ==> IsSpace(s[k])
  {
    if |s| > 0 && IsSpace(s[0]) then StripLeft(s[1..]) else s
  }

  /** Python `s.rstrip()`. */
  function StripRight(s: string): (r: string)
    ensures |r| <= |s|
    ensures r == [] || !IsSpace(r[|r| - 1])
    ensures forall k :: |r| <= k < |s| ==> IsSpace(s[k])
  {
    if |s| > 0 && IsSpace(s[|s| - 1]) then StripRight(s[..|s| - 1]) else s
  }

  /** What `lstrip()` keeps is a suffix of its input. */
  lemma {:induction false} StripLeftIsSuffix(s: string)
    ensures StripLeft(s) == s[|s| - |StripLeft(s)|..]
    decreases |s|
  {
    if |s| > 0 && IsSpace(s[0]) {
      StripLeftIsSuffix(s[1..]);
    }
  }

  /** What `rstrip()` keeps is a prefix of its input. */
  lemma {:induction false} StripRightIsPrefix(s: string)
    ensures StripRight(s) == s[..|StripRight(s)|]
    decreases |s|
  {
    if |s| > 0 && IsSpace(s[|s| - 1]) {
      StripRightIsPrefix(s[..|s| - 1]);
    }
  }

  /** Python `s.strip()`: `s` without its leading and trailing whitespace. */
  function Strip(s: string): (r: string)
    ensures r == [] || (!IsSpace(r[0]) && !IsSpace(r[|r| - 1]))
    ensures |r| <= |s|
  {
    StripRightIsPrefix(StripLeft(s));
    StripRight(StripLeft(s))
  }

  /** Stripping text that starts and ends with a non-space character changes nothing. */
  lemma StripUnchanged(s: string)
    requires s == [] || (!IsSpace(s[0]) && !IsSpace(s[|s| - 1]))
    ensures Strip(s) == s
  {
  }

  lemma StripIdempotent(s: string)
    ensures Strip(Strip(s)) == Strip(s)
  {
    StripUnchanged(Strip(s));
  }

  function DigitChar(d: nat): (c: char)
    requires d < 10
    ensures IsDigit(c)
  {
    ('0' as int + d) as char
  }

  function DigitValue(c: char): nat
    requires IsDigit(c)
  {
    c as int - '0' as int
  }

  /** The value of a decimal digit string, most significant digit first. */
  function DigitsValue(d: string): nat
    requires AllDigits(d)
  {
    if |d| == 0 then 0 else 10 * DigitsValue(d[..|d| - 1]) + DigitValue(d[|d| - 1])
  }

  /** Python `str(n)` for a non-negative integer. */
  function NatToString(n: nat): (r: string)
    ensures |r| > 0 && AllDigits(r)
  {
    if n < 10 then [DigitChar(n)] else NatToString(n / 10) + [DigitChar(n % 10)]
  }

  /** Python `str(i)`. */
  function IntToString(i: int): (r: string)
    ensures |r| > 0
  {
    if i < 0 then "-" + NatToString(-i) else NatToString(i)
  }

  /** Digit groups as `int()` accepts them: digits, single underscores only between digits. */
  predicate DigitGroups(b: string) {
    && |b| > 0
    && IsDigit(b[0])
    && IsDigit(b[|b| - 1])
    && (forall i :: 0 <= i < |b| ==> IsDigit(b[i]) || b[i] == '_')
    && !Contains(b, "__")
  }

  function RemoveUnderscores(b: string): (r: string)
    requires forall i :: 0 <= i < |b| ==> IsDigit(b[i]) || b[i] == '_'
    ensures AllDigits(r)
    ensures AllDigits(b) ==> r == b
  {
    if |b| == 0 then []
    else if b[0] == '_' then RemoveUnderscores(b[1..])
    else [b[0]] + RemoveUnderscores(b[1..])
  }

  /** Digit groups alone, as `int()` reads them after the sign. */
  function ParseUnsigned(b: string): (r: Option<nat>)
    ensures r.Some? <==> DigitGroups(b)
  {
    if DigitGroups(b) then Some(DigitsValue(RemoveUnderscores(b))) else None
  }

  /** `int()` after the surrounding whitespace is gone: an optional sign, then digit groups. */
  function ParseSigned(t: string): (r: Option<int>)
    ensures r.Some? ==> |t| > 0 && (IsDigit(t[0]) || t[0] == '-' || t[0] == '+')
  {
    if |t| > 0 && (t[0] == '-' || t[0] == '+') then
      match ParseUnsigned(t[1..])
      case Some(v) => Some(if t[0] == '-' then -(v as int) else v as int)
      case None => None
    else
      match ParseUnsigned(t)
      case Some(v) => Some(v as int)
      case None => None
  }

  /** Python `int(s)` on a string: None where Python raises ValueError.
      Surrounding whitespace and one leading sign are accepted. */
  function ParseInt(s: string): (r: Option<int>)
    ensures r.Some? ==> |Strip(s)| > 0 && (IsDigit(Strip(s)[0]) || Strip(s)[0] == '-' || Strip(s)[0] == '+')
  {
    ParseSigned(Strip(s))
  }

  lemma {:induction false} DigitsValueOfNatToString(n: nat)
    ensures DigitsValue(NatToString(n)) == n
  {
    if n >= 10 {
      var d := NatToString(n / 10) + [DigitChar(n % 10)];
      assert d[..|d| - 1] == NatToString(n / 10);
      DigitsValueOfNatToString(n / 10);
    }
  }

  /** A plain digit string, with or without a leading minus, parses to its value. */
  lemma ParseDigits(d: string)
    requires |d| > 0 && AllDigits(d)
    ensures ParseInt(d) == Some(DigitsValue(d))
    ensures ParseInt("-" + d) == Some(-(DigitsValue(d) as int))
  {
    ParseDigitsPlain(d);
    ParseDigitsMinus(d);
  }

  lemma ParseDigitsPlain(d: string)
    requires |d| > 0 && AllDigits(d)
    ensures ParseInt(d) == Some(DigitsValue(d))
  {
    assert !IsSpace(d[0]) && !IsSpace(d[|d| - 1]);
    StripUnchanged(d);
    ParseSignedPlain(d);
  }

  lemma ParseDigitsMinus(d: string)
    requires |d| > 0 && AllDigits(d)
    ensures ParseInt("-" + d) == Some(-(DigitsValue(d) as int))
  {
    StripMinusDigits(d);
    ParseIntOfStripped("-" + d);
    var t := "-" + d;
    assert t[1..] == d;
    ParseSignedMinus(t);
  }

  lemma StripMinusDigits(d: string)
    requires |d| > 0 && AllDigits(d)
    ensures Strip("-" + d) == "-" + d
  {
    var t := "-" + d;
    assert t[0] == '-' && t[|t| - 1] == d[|d| - 1];
    assert !IsSpace(t[0]) && !IsSpace(t[|t| - 1]);
    StripUnchanged(t);
  }

  lemma ParseIntOfStripped(t: string)
    requires Strip(t) == t
    ensures ParseInt(t) == ParseSigned(t)
  {
  }

  lemma ParseSignedPlain(d: string)
    requires |d| > 0 && AllDigits(d)
    ensures ParseSigned(d) == Some(DigitsValue(d))
  {
    DigitsAreGroups(d);
    assert ParseUnsigned(d) == Some(DigitsValue(d));
  }

  /** A minus sign followed by digits parses to the negated value. */
  lemma ParseSignedMinus(t: string)
    requires |t| > 1 && t[0] == '-' && AllDigits(t[1..])
    ensures ParseSigned(t) == Some(-(DigitsValue(t[1..]) as int))
  {
    DigitsAreGroups(t[1..]);
    assert ParseUnsigned(t[1..]) == Some(DigitsValue(t[1..]));
  }

  lemma DigitsAreGroups(d: string)
    requires |d| > 0 && AllDigits(d)
    ensures DigitGroups(d)
  {
    forall j ensures !OccursAt(d, "__", j) {
      if 0 <= j && j + 2 <= |d| {
        assert d[j..j + 2][0] == d[j];
      }
    }
  }

  /** `str(i)` is an optional minus sign followed by digits. */
  lemma IntToStringChars(i: int)
    ensures forall k :: 0 <= k < |IntToString(i)| ==> IsDigit(IntToString(i)[k]) || IntToString(i)[k] == '-'
  {
    if i < 0 {
      var n: nat := -i;
      var d := "-" + NatToString(n);
      assert IntToString(i) == d;
      assert forall k :: 1 <= k < |d| ==> d[k] == NatToString(n)[k - 1];
    }
  }

  /** `int(str(n)) == n`. */
  lemma ParseNatToString(n: nat)
    ensures ParseInt(NatToString(n)) == Some(n)
  {
    var d := NatToString(n);
    ParseDigitsPlain(d);
    DigitsValueOfNatToString(n);
    assert DigitsValue(d) == n;
  }

  /** `int(str(i)) == i`, negative numbers included. */
  lemma ParseIntToString(i: int)
    ensures ParseInt(IntToString(i)) == Some(i)
  {
    if i < 0 {
      var n: nat := -i;
      var s := "-" + NatToString(n);
      assert IntToString(i) == s;
      ParseNegative(n);
      assert ParseInt(s) == Some(i);
    } else {
      ParseNatToString(i);
    }
  }

  lemma ParseNegative(n: nat)
    ensures ParseInt("-" + NatToString(n)) == Some(-(n as int))
  {
    var d := NatToString(n);
    ParseDigitsMinus(d);
    DigitsValueOfNatToString(n);
    assert DigitsValue(d) == n;
  }

  /** `int()` skips surrounding whitespace and accepts a sign. */
  lemma ParseIntLenient()
    ensures ParseInt(" 7\n") == Some(7)
    ensures ParseInt("+7") == Some(7)
  {
    assert StripLeft(" 7\n") == "7\n";
    assert StripRight("7\n") == "7";
    ParseSignedPlain("7");
    assert ParseSigned("+7") == Some(7) by {
      assert "+7"[1..] == "7";
    }
    StripUnchanged("+7");
  }

  /** `int()` accepts single underscores between digits. */
  lemma ParseIntUnderscore()
    ensures ParseInt("1_0") == Some(10)
  {
    StripUnchanged("1_0");
    assert !Contains("1_0", "__") by {
      assert !OccursAt("1_0", "__", 0) by { assert "1_0"[0..2][0] == '1'; }
      assert !OccursAt("1_0", "__", 1) by { assert "1_0"[1..3][1] == '0'; }
    }
    assert DigitGroups("1_0");
    assert RemoveUnderscores("1_0") == "10";
    assert "10"[..1] == "1" && "1"[..0] == "";
    assert DigitsValue("10") == 10;
    assert ParseUnsigned("1_0") == Some(10);
    assert ParseSigned("1_0") == Some(10);
  }

  /** What `int()` refuses, so the filename parsers fall back to no number. */
  lemma ParseIntRejects()
    ensures ParseInt("") == None
    ensures ParseInt("x") == None
    ensures ParseInt("1__0") == None
  {
    StripUnchanged("x");
    assert ParseSigned("x") == None;
    StripUnchanged("1__0");
    assert OccursAt("1__0", "__", 1) by { assert "1__0"[1..3] == "__"; }
    assert ParseSigned("1__0") == None;
  }
}
