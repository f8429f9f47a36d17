/** POSIX path handling as the pipeline uses it: `Path(p).name`, `.suffix`,
    `.stem`, `os.path.join`, and the lower-casing applied to suffixes and
    upload names.
 */
module Paths {
  import opened Wrappers
  import opened Strings

  /** `str.lower()` on one character, for the ASCII letters A-Z. */
  function LowerChar(c: char): char {
    if 'A' <= c <= 'Z' then (c as int + 32) as char else c
  }

  /** `str.lower()`, restricted to ASCII letters. */
  function Lower(s: string): (r: string)
    ensures |r| == |s|
    ensures forall i :: 0 <= i < |s| ==> r[i] == LowerChar(s[i])
  {
    seq(|s|, i requires 0 <= i < |s| => LowerChar(s[i]))
  }

  /** Lower-casing twice is lower-casing once. */
  lemma LowerIdempotent(s: string)
    ensures Lower(Lower(s)) == Lower(s)
  {
  }

  lemma LowerAppend(a: string, b: string)
    ensures Lower(a + b) == Lower(a) + Lower(b)
  {
  }

  lemma LowerSuffix(s: string, t: string)
    requires EndsWith(s, t)
    ensures EndsWith(Lower(s), Lower(t))
  {
    assert s == s[..|s| - |t|] + t;
    LowerAppend(s[..|s| - |t|], t);
  }

  /** The index of the last `c` in `s`. */
  function LastIndexOf(s: string, c: char): (r: Option<nat>)
    ensures r.Some? ==> r.value < |s| && s[r.value] == c
    ensures r.Some? ==> forall j :: r.value < j < |s| ==> s[j] != c
    ensures r.None? ==> forall j :: 0 <= j < |s| ==> s[j] != c
  {
    if |s| == 0 then None
    else if s[|s| - 1] == c then Some(|s| - 1)
    else LastIndexOf(s[..|s| - 1], c)
  }

  /** The last occurrence is determined by the characters after it. */
  lemma LastIndexOfIs(s: string, c: char, i: nat)
    requires i < |s| && s[i] == c
    requires forall j :: i < j < |s| ==> s[j] != c
    ensures LastIndexOf(s, c) == Some(i)
  {
  }

  /** A single path component that is not the current directory. */
  predicate PlainName(n: string) {
    |n| > 0 && n != "." && forall i :: 0 <= i < |n| ==> n[i] != '/'
  }

  /** `PurePosixPath(p).name`: the last component, ignoring trailing
      separators and `.` components; empty for `""`, `"/"` and `"."`. */
  function Name(p: string): (r: string)
    ensures r == "" || PlainName(r)
    decreases |p|
  {
    match LastIndexOf(p, '/')
    case None => if p == "." then "" else p
    case Some(i) =>
      var last := p[i + 1..];
      if last == "" || last == "." then Name(p[..i]) else last
  }

  /** `os.path.join(a, b)` on POSIX. */
  function Join(a: string, b: string): (r: string)
    ensures |b| > 0 && b[0] != '/' ==> EndsWith(r, b)
  {
    if |b| > 0 && b[0] == '/' then b
    else if a == "" || a[|a| - 1] == '/' then a + b
    else a + "/" + b
  }

  /** Joining a relative part onto a directory extends the directory. */
  lemma JoinExtends(a: string, b: string)
    requires |b| == 0 || b[0] != '/'
    ensures StartsWith(Join(a, b), a)
  {
  }

  /** `os.path.basename(p)`: everything after the last separator, which is
      empty when `p` ends with one. */
  function Basename(p: string): (r: string)
    ensures EndsWith(p, r)
    ensures forall i :: 0 <= i < |r| ==> r[i] != '/'
  {
    match LastIndexOf(p, '/')
    case None => p
    case Some(i) => p[i + 1..]
  }

  /** Joining a plain file name onto a directory names that file. */
  lemma NameOfJoin(dir: string, n: string)
    requires PlainName(n)
    ensures Name(Join(dir, n)) == n
  {
    var p := Join(dir, n);
    if dir == "" {
      assert p == n;
    } else {
      var k := if dir[|dir| - 1] == '/' then |dir| - 1 else |dir|;
      assert p[k] == '/';
      assert p[k + 1..] == n;
      forall j | k < j < |p| ensures p[j] != '/' {
        assert p[j] == n[j - k - 1];
      }
      LastIndexOfIs(p, '/', k);
    }
  }

  /** `Path(p).suffix`: from the last dot of the name, when that dot is neither
      the first nor the last character of the name. */
  function Suffix(p: string): (r: string)
    ensures r == "" || (|r| >= 2 && r[0] == '.' && forall j :: 1 <= j < |r| ==> r[j] != '.')
    ensures EndsWith(Name(p), r) && |r| < |Name(p)| + 1
  {
    var n := Name(p);
    match LastIndexOf(n, '.')
    case Some(i) => if 0 < i < |n| - 1 then n[i..] else ""
    case None => ""
  }

  /** `Path(p).stem`: the name without its suffix. */
  function Stem(p: string): (r: string)
    ensures r + Suffix(p) == Name(p)
  {
    var n := Name(p);
    match LastIndexOf(n, '.')
    case Some(i) => if 0 < i < |n| - 1 then n[..i] else n
    case None => n
  }

  /** A stem is part of a name, so it has no separator. */
  lemma StemHasNoSeparator(p: string)
    ensures forall i :: 0 <= i < |Stem(p)| ==> Stem(p)[i] != '/'
  {
    var n := Name(p);
    assert forall i :: 0 <= i < |Stem(p)| ==> Stem(p)[i] == n[i] by {
      assert n == Stem(p) + Suffix(p);
    }
  }

  /** The suffix of a plain name with a dot strictly inside it. */
  lemma SuffixOfPlainName(n: string, i: nat)
    requires PlainName(n) && 0 < i < |n| - 1 && n[i] == '.'
    requires forall j :: i < j < |n| ==> n[j] != '.'
    ensures Suffix(n) == n[i..]
  {
    assert Name(n) == n;
    LastIndexOfIs(n, '.', i);
  }

  /** A name that starts with its only dot (a "hidden" file such as `.pdf`) has no suffix. */
  lemma HiddenNameHasNoSuffix(n: string)
    requires PlainName(n) && n[0] == '.'
    requires forall j :: 1 <= j < |n| ==> n[j] != '.'
    ensures Suffix(n) == ""
  {
    assert Name(n) == n;
  }
}
