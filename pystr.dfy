/**
 * The parts of Python's `str`, `int` and `os.path` semantics that main.py leans on:
 * `s.lower()`, the `sub in s` test, `s.strip()`, `s.replace(pat, "")`, `str(n)` for a
 * natural number and `os.path.splitext`. Strings are sequences of characters.
 */
module PyStr {

  /** `c.lower()` for one character (ASCII letters only). */
  function LowerChar(c: char): (d: char)
    ensures !('A' <= d <= 'Z')
    ensures !('A' <= c <= 'Z') ==> d == c
    ensures 'A' <= c <= 'Z' ==> d as int == c as int + 32
  {
    if 'A' <= c <= 'Z' then (c as int + 32) as char else c
  }

  /** `s.lower()`. */
  function Lower(s: string): string {
    seq(|s|, k requires 0 <= k < |s| => LowerChar(s[k]))
  }

  /** Lowering twice is lowering once. */
  lemma {:induction false} LowerIdempotent(s: string)
    ensures Lower(Lower(s)) == Lower(s)
  {
  }

  /** Python's `sub in s`: `sub` occurs as a contiguous block of `s`. */
  predicate Contains(s: string, sub: string) {
    exists i :: 0 <= i <= |s| - |sub| && sub <= s[i..]
  }

  /** A block that occurs in `s` still occurs once text is put around `s`. */
  lemma {:induction false} ContainsInside(p: string, s: string, q: string, sub: string)
    requires Contains(s, sub)
    ensures Contains(p + s + q, sub)
  {
    var i :| 0 <= i <= |s| - |sub| && sub <= s[i..];
    var t := p + s + q;
    assert t[|p| + i..][..|sub|] == s[i..][..|sub|];
    assert sub <= t[|p| + i..];
  }

  /** Every string contains itself, in particular at its start. */
  lemma {:induction false} ContainsPrefix(s: string, sub: string)
    requires sub <= s
    ensures Contains(s, sub)
  {
    assert s[0..] == s;
  }

  /** A block whose first two characters never stand side by side in `s` does not occur in `s`. */
  lemma {:induction false} ContainsNeedsPair(s: string, sub: string)
    requires |sub| >= 2
    requires forall i :: 0 <= i < |s| - 1 ==> s[i] != sub[0] || s[i + 1] != sub[1]
    ensures !Contains(s, sub)
  {
    forall i | 0 <= i <= |s| - |sub|
      ensures !(sub <= s[i..])
    {
      assert s[i..][0] == s[i] && s[i..][1] == s[i + 1];
    }
  }

  /** Python's `str.isspace()` for one character. */
  predicate IsSpace(c: char) {
    var n := c as int;
    n == 0x20 || 0x09 <= n <= 0x0D || 0x1C <= n <= 0x1F || n == 0x85 || n == 0xA0
    || n == 0x1680 || 0x2000 <= n <= 0x200A || n == 0x2028 || n == 0x2029
    || n == 0x202F || n == 0x205F || n == 0x3000
  }

  predicate AllSpace(s: string) {
    forall k :: 0 <= k < |s| ==> IsSpace(s[k])
  }

  /** The number of whitespace characters at the start of `s`. */
  function LeadingSpace(s: string): (n: nat)
    ensures n <= |s| && AllSpace(s[..n])
    ensures n < |s| ==> !IsSpace(s[n])
  {
    if s == [] || !IsSpace(s[0]) then 0 else 1 + LeadingSpace(s[1..])
  }

  /** The index where the whitespace at the end of `s` begins. */
  function TrailingSpace(s: string): (m: nat)
    ensures m <= |s| && AllSpace(s[m..])
    ensures 0 < m ==> !IsSpace(s[m - 1])
  {
    if s == [] || !IsSpace(s[|s| - 1]) then |s|
    else
      var m := TrailingSpace(s[..|s| - 1]);
      assert s[m..] == s[..|s| - 1][m..] + [s[|s| - 1]];
      m
  }

  /** `s.strip()`: `s` without its leading and trailing whitespace. */
  function Strip(s: string): string {
    var i, j := LeadingSpace(s), TrailingSpace(s);
    if i == |s| then [] else s[i..j]
  }

  /**
   * The stripped text neither starts nor ends with whitespace, and it is a slice of `s` with
   * only whitespace around it.
   */
  lemma {:induction false} StripShape(s: string)
    ensures Strip(s) == [] || (!IsSpace(Strip(s)[0]) && !IsSpace(Strip(s)[|Strip(s)| - 1]))
    ensures exists i, j :: 0 <= i <= j <= |s| && Strip(s) == s[i..j] && AllSpace(s[..i]) && AllSpace(s[j..])
  {
    var i, j := LeadingSpace(s), TrailingSpace(s);
    if i == |s| {
      assert s[..i] == s && s[i..] == [];
      assert Strip(s) == s[i..i];
    }
  }

  /**
   * Strip undoes padding: text that neither starts nor ends with whitespace comes back
   * unchanged from any whitespace put around it.
   */
  lemma {:induction false} StripPadded(p: string, r: string, q: string)
    requires AllSpace(p) && AllSpace(q)
    requires r == [] || (!IsSpace(r[0]) && !IsSpace(r[|r| - 1]))
    ensures Strip(p + r + q) == r
  {
    var s := p + r + q;
    LeadingOfPadded(p, r, q);
    TrailingOfPadded(p, r, q);
    if r == [] {
      assert LeadingSpace(s) == |s|;
    } else {
      assert s[|p|..|p| + |r|] == r;
    }
  }

  lemma {:induction false} LeadingOfPadded(p: string, r: string, q: string)
    requires AllSpace(p) && AllSpace(q)
    requires r == [] || !IsSpace(r[0])
    ensures LeadingSpace(p + r + q) == if r == [] then |p| + |q| else |p|
  {
    var s := p + r + q;
    if p == [] {
      if r == [] {
        if q != [] {
          assert s[1..] == [] + [] + q[1..];
          LeadingOfPadded([], [], q[1..]);
        }
      } else {
        assert s[0] == r[0];
      }
    } else {
      assert s[1..] == p[1..] + r + q;
      LeadingOfPadded(p[1..], r, q);
    }
  }

  lemma {:induction false} TrailingOfPadded(p: string, r: string, q: string)
    requires AllSpace(p) && AllSpace(q)
    requires r == [] || !IsSpace(r[|r| - 1])
    ensures TrailingSpace(p + r + q) == if r == [] then 0 else |p| + |r|
  {
    var s := p + r + q;
    if q == [] {
      if r == [] {
        if p != [] {
          assert s[..|s| - 1] == p[..|p| - 1] + [] + [];
          TrailingOfPadded(p[..|p| - 1], [], []);
        }
      } else {
        assert s[|s| - 1] == r[|r| - 1];
      }
    } else {
      assert s[..|s| - 1] == p + r + q[..|q| - 1];
      TrailingOfPadded(p, r, q[..|q| - 1]);
    }
  }

  /** Stripping twice is stripping once. */
  lemma {:induction false} StripIdempotent(s: string)
    ensures Strip(Strip(s)) == Strip(s)
  {
    StripShape(s);
    StripPadded([], Strip(s), []);
    assert [] + Strip(s) + [] == Strip(s);
  }

  /**
   * `s.replace(pat, "")`: every occurrence of `pat`, found left to right without overlap,
   * is cut out.
   */
  function RemoveAll(s: string, pat: string): (r: string)
    requires pat != []
    ensures |r| <= |s|
    decreases |s|
  {
    if |s| < |pat| then s
    else if pat <= s then RemoveAll(s[|pat|..], pat)
    else [s[0]] + RemoveAll(s[1..], pat)
  }

  /** Text without an occurrence of `pat` is left as it is. */
  lemma {:induction false} RemoveAllAbsent(s: string, pat: string)
    requires pat != [] && !Contains(s, pat)
    ensures RemoveAll(s, pat) == s
    decreases |s|
  {
    if |s| >= |pat| {
      assert !(pat <= s[0..]);
      assert s[0..] == s;
      RemoveAllAbsent(s[1..], pat);
    }
  }

  /**
   * The scan is left to right: if the first occurrence of `pat` starts right after `p`, the
   * result keeps `p`, drops that occurrence and carries on with what follows.
   */
  lemma {:induction false} RemoveAllLeftmost(p: string, pat: string, q: string)
    requires pat != []
    requires forall i :: 0 <= i < |p| ==> !(pat <= (p + pat + q)[i..])
    ensures RemoveAll(p + pat + q, pat) == p + RemoveAll(q, pat)
    decreases |p|
  {
    var s := p + pat + q;
    if p == [] {
      assert s == pat + q;
      assert s[|pat|..] == q;
    } else {
      assert !(pat <= s[0..]) && s[0..] == s;
      assert s[1..] == p[1..] + pat + q;
      forall i | 0 <= i < |p[1..]|
        ensures !(pat <= (p[1..] + pat + q)[i..])
      {
        assert (p[1..] + pat + q)[i..] == s[i + 1..];
      }
      RemoveAllLeftmost(p[1..], pat, q);
      assert [p[0]] + p[1..] == p;
    }
  }

  /** Digit character for a value below ten. */
  function DigitChar(d: nat): (c: char)
    requires d < 10
    ensures '0' <= c <= '9' && c as int - '0' as int == d
  {
    ('0' as int + d) as char
  }

  predicate IsDigit(c: char) {
    '0' <= c <= '9'
  }

  predicate AllDigits(s: string) {
    forall k :: 0 <= k < |s| ==> IsDigit(s[k])
  }

  /** `str(n)` for a natural number: its decimal digits, most significant first. */
  function Decimal(n: nat): (s: string)
    ensures s != []
  {
    if n < 10 then [DigitChar(n)] else Decimal(n / 10) + [DigitChar(n % 10)]
  }

  /** `str(n)` holds only digits and, unless it is `0`, no leading zero. */
  lemma {:induction false} DecimalDigits(n: nat)
    ensures AllDigits(Decimal(n))
    ensures |Decimal(n)| > 1 ==> Decimal(n)[0] != '0'
  {
    if n >= 10 {
      DecimalDigits(n / 10);
      assert Decimal(n)[0] == Decimal(n / 10)[0];
    }
  }

  function DigitValue(c: char): nat
    requires IsDigit(c)
  {
    c as int - '0' as int
  }

  /** `int(s)` for a string of decimal digits. */
  function ParseDecimal(s: string): nat
    requires AllDigits(s)
  {
    if s == [] then 0
    else 10 * ParseDecimal(s[..|s| - 1]) + DigitValue(s[|s| - 1])
  }

  /** Reading back the digits gives the number: `int(str(n)) == n`. */
  lemma {:induction false} DecimalRoundTrip(n: nat)
    ensures AllDigits(Decimal(n)) && ParseDecimal(Decimal(n)) == n
  {
    DecimalDigits(n);
    if n >= 10 {
      var s := Decimal(n);
      assert s[..|s| - 1] == Decimal(n / 10);
      DecimalRoundTrip(n / 10);
    }
  }

  /** Different numbers print differently. */
  lemma {:induction false} DecimalInjective(m: nat, n: nat)
    requires Decimal(m) == Decimal(n)
    ensures m == n
  {
    DecimalRoundTrip(m);
    DecimalRoundTrip(n);
  }

  /** `s.rfind(c)`: the last index of `c` in `s`, or -1. */
  function RFind(s: string, c: char): (r: int)
    ensures -1 <= r < |s|
  {
    if s == [] then -1
    else if s[|s| - 1] == c then |s| - 1
    else RFind(s[..|s| - 1], c)
  }

  /** `rfind` finds `c` at its result, and nowhere after it. */
  lemma {:induction false} RFindSpec(s: string, c: char)
    ensures 0 <= RFind(s, c) ==> s[RFind(s, c)] == c
    ensures forall k :: RFind(s, c) < k < |s| ==> s[k] != c
  {
    if s != [] && s[|s| - 1] != c {
      RFindSpec(s[..|s| - 1], c);
    }
  }

  /** The last `c` of `a + [c] + b` is the one after `a` when `b` holds none. */
  lemma {:induction false} RFindAfter(a: string, c: char, b: string)
    requires c !in b
    ensures RFind(a + [c] + b, c) == |a|
  {
    var s := a + [c] + b;
    assert s[|a|] == c;
    RFindSpec(s, c);
  }

  /**
   * The second half of `os.path.splitext(p)` on POSIX: from the last dot to the end, when that
   * dot lies in the last path component and something other than a dot precedes it there;
   * otherwise the empty string.
   */
  function SplitExt(p: string): string {
    var sepIndex := RFind(p, '/');
    var dotIndex := RFind(p, '.');
    if dotIndex > sepIndex && exists k :: sepIndex + 1 <= k < dotIndex && p[k] != '.' then
      p[dotIndex..]
    else
      []
  }

  /**
   * The suffix is empty or a dot-led tail of `p` holding no further dot and no separator.
   */
  lemma {:induction false} SplitExtShape(p: string)
    ensures SplitExt(p) == [] || (SplitExt(p)[0] == '.' && |SplitExt(p)| <= |p| && SplitExt(p) == p[|p| - |SplitExt(p)|..])
    ensures forall k :: 0 <= k < |SplitExt(p)| ==> SplitExt(p)[k] != '/'
    ensures forall k :: 0 < k < |SplitExt(p)| ==> SplitExt(p)[k] != '.'
  {
    RFindSpec(p, '/');
    RFindSpec(p, '.');
  }

  /** `os.path.join(a, b)` on POSIX, for two components. */
  function PathJoin(a: string, b: string): string {
    if b != [] && b[0] == '/' then b
    else if a == [] || a[|a| - 1] == '/' then a + b
    else a + "/" + b
  }

  /**
   * An absolute second component replaces the first; otherwise the result starts with `a`,
   * ends with `b`, and has at most one separator between them.
   */
  lemma {:induction false} PathJoinShape(a: string, b: string)
    ensures b != [] && b[0] == '/' ==> PathJoin(a, b) == b
    ensures (b == [] || b[0] != '/') ==>
              |a| + |b| <= |PathJoin(a, b)| <= |a| + 1 + |b|
              && PathJoin(a, b)[..|a|] == a && PathJoin(a, b)[|PathJoin(a, b)| - |b|..] == b
    ensures (b == [] || b[0] != '/') && |PathJoin(a, b)| == |a| + 1 + |b| ==> PathJoin(a, b)[|a|] == '/'
  {
  }

  /** Joining onto one directory keeps relative names apart. */
  lemma {:induction false} PathJoinInjective(a: string, b1: string, b2: string)
    requires b1 == [] || b1[0] != '/'
    requires b2 == [] || b2[0] != '/'
    requires PathJoin(a, b1) == PathJoin(a, b2)
    ensures b1 == b2
  {
    if a == [] || a[|a| - 1] == '/' {
      assert b1 == PathJoin(a, b1)[|a|..];
    } else {
      assert b1 == PathJoin(a, b1)[|a| + 1..];
    }
  }

  /**
   * The suffix of a path whose last component is `name.ext`, with `name` not starting with a
   * dot and `ext` free of dots and slashes, is `.ext`.
   */
  lemma {:induction false} SplitExtOfName(dir: string, name: string, ext: string)
    requires name != [] && name[0] != '.' && '/' !in name
    requires '/' !in ext && '.' !in ext
    ensures SplitExt(dir + "/" + name + "." + ext) == "." + ext
  {
    var p := dir + "/" + name + "." + ext;
    assert p == dir + ['/'] + (name + "." + ext);
    assert '/' !in name + "." + ext;
    RFindAfter(dir, '/', name + "." + ext);
    assert p == (dir + "/" + name) + ['.'] + ext;
    RFindAfter(dir + "/" + name, '.', ext);
    assert p[|dir| + 1] == name[0];
    assert p[|dir| + 1 + |name|..] == "." + ext;
  }
}
