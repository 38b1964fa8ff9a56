/**
 * The Python `str` operations the generator relies on, over `seq<char>`:
 * `isspace`, `strip`/`rstrip` (with and without a character set),
 * `startswith`/`endswith`/`in`, `count`, `replace`, `join`, and `str(n)`
 * for integers.
 */
module Text {

  /** Python's `str.isspace()` for one character (also the set `\s` matches in a `str` regex). */
  predicate IsSpace(c: char) {
    || c == ' ' || c == '\t' || c == '\n' || c == '\r' || c == '\U{000B}' || c == '\U{000C}'
    || ('\U{001C}' <= c <= '\U{001F}')
    || c == '\U{0085}' || c == '\U{00A0}' || c == '\U{1680}'
    || ('\U{2000}' <= c <= '\U{200A}')
    || c == '\U{2028}' || c == '\U{2029}' || c == '\U{202F}' || c == '\U{205F}' || c == '\U{3000}'
  }

  /** `s.rstrip(chars)`: drop trailing characters that belong to `chars`. */
  function RStripChars(s: string, chars: set<char>): (r: string)
    ensures |r| <= |s| && r == s[..|r|]
    ensures r == [] || r[|r| - 1] !in chars
    ensures forall i :: |r| <= i < |s| ==> s[i] in chars
    decreases |s|
  {
    if s != [] && s[|s| - 1] in chars then RStripChars(s[..|s| - 1], chars) else s
  }

  /** The end of the run of whitespace starting at `i`. */
  function SkipSpaces(s: string, i: nat): (r: nat)
    requires i <= |s|
    ensures i <= r <= |s|
    ensures forall k :: i <= k < r ==> IsSpace(s[k])
    ensures r < |s| ==> !IsSpace(s[r])
    decreases |s| - i
  {
    if i < |s| && IsSpace(s[i]) then SkipSpaces(s, i + 1) else i
  }

  /** The start of the run of whitespace that ends at `j`, going back no further than `lo`. */
  function TrimEnd(s: string, lo: nat, j: nat): (r: nat)
    requires lo <= j <= |s|
    ensures lo <= r <= j
    ensures forall k :: r <= k < j ==> IsSpace(s[k])
    ensures r > lo ==> !IsSpace(s[r - 1])
    decreases j
  {
    if j > lo && IsSpace(s[j - 1]) then TrimEnd(s, lo, j - 1) else j
  }

  /** `s.rstrip()`: drop trailing whitespace. */
  function RStrip(s: string): (r: string)
    ensures |r| <= |s| && r == s[..|r|]
    ensures r != [] ==> !IsSpace(r[|r| - 1])
    ensures forall k :: |r| <= k < |s| ==> IsSpace(s[k])
  {
    var e := TrimEnd(s, 0, |s|);
    s[..e]
  }

  /** `s.lstrip()`: drop leading whitespace. */
  function LStrip(s: string): (r: string)
    ensures |r| <= |s| && r == s[|s| - |r|..]
    ensures r != [] ==> !IsSpace(r[0])
    ensures forall k :: 0 <= k < |s| - |r| ==> IsSpace(s[k])
  {
    var b := SkipSpaces(s, 0);
    s[b..]
  }

  /**
   * `s.strip()`: the text between the leading and the trailing whitespace.
   * It is the slice of `s` from `i` on, everything before and after it is
   * whitespace, and it neither starts nor ends with whitespace.
   */
  function Strip(s: string): (r: string)
    ensures var i := SkipSpaces(s, 0); i + |r| <= |s| && r == s[i..i + |r|]
    ensures r != [] ==> !IsSpace(r[0]) && !IsSpace(r[|r| - 1])
    ensures var i := SkipSpaces(s, 0); forall k :: 0 <= k < i ==> IsSpace(s[k])
    ensures var i := SkipSpaces(s, 0); forall k :: i + |r| <= k < |s| ==> IsSpace(s[k])
  {
    var b := SkipSpaces(s, 0);
    var e := TrimEnd(s, b, |s|);
    s[b..e]
  }

  predicate StartsWith(s: string, prefix: string) {
    |prefix| <= |s| && s[..|prefix|] == prefix
  }

  predicate EndsWith(s: string, suffix: string) {
    |suffix| <= |s| && s[|s| - |suffix|..] == suffix
  }

  /** Python's `needle in s` for strings: `needle` starts at some position of `s`. */
  predicate Contains(s: string, needle: string)
    decreases |s|
  {
    StartsWith(s, needle) || (s != [] && Contains(s[1..], needle))
  }

  /** `s.count(c)` for a one-character argument. */
  function Count(s: string, c: char): nat
    decreases |s|
  {
    if s == [] then 0 else (if s[0] == c then 1 else 0) + Count(s[1..], c)
  }

  lemma {:induction false} CountAppend(a: string, b: string, c: char)
    ensures Count(a + b, c) == Count(a, c) + Count(b, c)
    decreases |a|
  {
    if a == [] {
      assert a + b == b;
    } else {
      assert (a + b)[1..] == a[1..] + b;
      CountAppend(a[1..], b, c);
    }
  }

  /** `c * n` for a one-character string and `n >= 0`. */
  function Repeat(c: char, n: nat): (r: string)
    ensures |r| == n && forall i :: 0 <= i < n ==> r[i] == c
  {
    seq(n, _ => c)
  }

  lemma {:induction false} CountRepeat(c: char, d: char, n: nat)
    ensures Count(Repeat(c, n), d) == if c == d then n else 0
    decreases n
  {
    if n > 0 {
      assert Repeat(c, n)[1..] == Repeat(c, n - 1);
      CountRepeat(c, d, n - 1);
    }
  }

  /** `sep.join(parts)`. */
  function Join(sep: string, parts: seq<string>): string
    decreases |parts|
  {
    if |parts| == 0 then ""
    else if |parts| == 1 then parts[0]
    else parts[0] + sep + Join(sep, parts[1..])
  }

  /**
   * `s.replace(pat, rep)` for a two-character `pat`: every occurrence,
   * found left to right without overlap, is replaced by `rep`.
   */
  function Replace(s: string, pat: string, rep: string): string
    requires |pat| == 2
    decreases |s|
  {
    if |s| < 2 then s
    else if s[0] == pat[0] && s[1] == pat[1] then rep + Replace(s[2..], pat, rep)
    else [s[0]] + Replace(s[1..], pat, rep)
  }

  /** One step of `Replace` on a text of two characters or more. */
  lemma ReplaceStep(s: string, pat: string, rep: string)
    requires |pat| == 2 <= |s|
    ensures s[0] == pat[0] && s[1] == pat[1] ==> Replace(s, pat, rep) == rep + Replace(s[2..], pat, rep)
    ensures !(s[0] == pat[0] && s[1] == pat[1]) ==> Replace(s, pat, rep) == [s[0]] + Replace(s[1..], pat, rep)
  {
  }

  lemma AppendAssoc(x: string, y: string, z: string)
    ensures (x + y) + z == x + (y + z)
  {
  }

  lemma DropAppend(a: string, b: string, k: nat)
    requires k <= |a|
    ensures (a + b)[k..] == a[k..] + b
  {
  }

  /** Replacing distributes over a split that no occurrence straddles. */
  lemma {:induction false} ReplaceAppend(a: string, b: string, pat: string, rep: string)
    requires |pat| == 2
    requires a == [] || a[|a| - 1] != pat[0]
    ensures Replace(a + b, pat, rep) == Replace(a, pat, rep) + Replace(b, pat, rep)
    decreases |a|
  {
    var s := a + b;
    if a == [] {
      assert s == b;
    } else if |a| == 1 {
      if |s| >= 2 {
        assert s[1..] == b;
        ReplaceStep(s, pat, rep);
      } else {
        assert s == a;
      }
    } else {
      assert s[0] == a[0] && s[1] == a[1];
      ReplaceStep(a, pat, rep);
      ReplaceStep(s, pat, rep);
      var k := if a[0] == pat[0] && a[1] == pat[1] then 2 else 1;
      var head := if k == 2 then rep else [a[0]];
      DropAppend(a, b, k);
      ReplaceAppend(a[k..], b, pat, rep);
      AppendAssoc(head, Replace(a[k..], pat, rep), Replace(b, pat, rep));
      calc {
        Replace(s, pat, rep);
        head + Replace(s[k..], pat, rep);
        head + (Replace(a[k..], pat, rep) + Replace(b, pat, rep));
        (head + Replace(a[k..], pat, rep)) + Replace(b, pat, rep);
        Replace(a, pat, rep) + Replace(b, pat, rep);
      }
    }
  }

  /** A pattern that starts with a character `s` lacks is never replaced. */
  lemma {:induction false} ReplaceAbsent(s: string, pat: string, rep: string)
    requires |pat| == 2 && pat[0] !in s
    ensures Replace(s, pat, rep) == s
    decreases |s|
  {
    if |s| >= 2 {
      ReplaceAbsent(s[1..], pat, rep);
    }
  }

  function Digit(d: nat): (c: char)
    requires d < 10
    ensures '0' <= c <= '9'
  {
    (48 + d) as char
  }

  /** The number a run of decimal digits denotes, read left to right. */
  function DigitsValue(s: string): int
    decreases |s|
  {
    if s == [] then 0 else DigitsValue(s[..|s| - 1]) * 10 + (s[|s| - 1] as int - '0' as int)
  }

  /** The number a decimal numeral denotes: a leading minus sign negates the digits after it. */
  function DecimalValue(s: string): int {
    if s != [] && s[0] == '-' then -DigitsValue(s[1..]) else DigitsValue(s)
  }

  /**
   * `str(n)` for `n >= 0`: the decimal numeral of `n`, digits only, with no
   * leading zero (a single `0` for zero).
   */
  function NatToString(n: nat): (r: string)
    ensures |r| >= 1
    ensures forall i :: 0 <= i < |r| ==> '0' <= r[i] <= '9'
    ensures DigitsValue(r) == n
    ensures r[0] == '0' <==> n == 0
    ensures |r| > 1 ==> r[0] != '0'
    decreases n
  {
    if n < 10 then [Digit(n)]
    else
      var p := NatToString(n / 10);
      assert (p + [Digit(n % 10)])[..|p|] == p;
      p + [Digit(n % 10)]
  }

  /**
   * `str(i)` for any integer: a minus sign exactly for a negative number,
   * then the decimal digits of its magnitude with no leading zero; the
   * text denotes `i` again.
   */
  function IntToString(i: int): (r: string)
    ensures |r| >= 1 && (r[0] == '-' <==> i < 0)
    ensures var start := if i < 0 then 1 else 0; start < |r| && forall k :: start <= k < |r| ==> '0' <= r[k] <= '9'
    ensures var start := if i < 0 then 1 else 0; |r| > start + 1 ==> r[start] != '0'
    ensures DecimalValue(r) == i
  {
    if i < 0 then
      var p := NatToString(-i);
      assert ("-" + p)[1..] == p;
      "-" + p
    else NatToString(i)
  }

  /** Different numbers print differently: the numeral denotes its number. */
  lemma NatToStringInjective(a: nat, b: nat)
    requires NatToString(a) == NatToString(b)
    ensures a == b
  {
  }

  /** Different integers print differently. */
  lemma IntToStringInjective(a: int, b: int)
    requires IntToString(a) == IntToString(b)
    ensures a == b
  {
  }
}
