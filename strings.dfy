/**
 * The handful of Python string operations that the converter relies on,
 * written out as functions on `seq<char>`: `''.join(c for _ in range(n))`,
 * `str.count`, `str.replace`, `str.strip`, `int()` on a decimal literal and
 * the substring test `t in s`.
 */
module Strings {

  /** `''.join([c for _ in range(n)])`: n copies of c, and none at all when n <= 0. */
  function Repeat(c: char, n: int): (r: string)
    ensures |r| == if n > 0 then n else 0
    ensures forall i | 0 <= i < |r| :: r[i] == c
    decreases if n > 0 then n else 0
  {
    if n <= 0 then "" else [c] + Repeat(c, n - 1)
  }

  /** `s.count(c)` for a single character c. */
  function Count(s: string, c: char): (k: nat)
    ensures k <= |s|
    ensures k == 0 <==> c !in s
  {
    if s == [] then 0 else (if s[0] == c then 1 else 0) + Count(s[1..], c)
  }

  lemma {:induction false} CountAppend(a: string, b: string, c: char)
    ensures Count(a + b, c) == Count(a, c) + Count(b, c)
  {
    if a == [] {
      assert a + b == b;
    } else {
      assert (a + b)[1..] == a[1..] + b;
      CountAppend(a[1..], b, c);
    }
  }

  lemma {:induction false} CountRepeat(c: char, d: char, n: int)
    ensures Count(Repeat(c, n), d) == if c == d && n > 0 then n else 0
    decreases if n > 0 then n else 0
  {
    if n > 0 {
      assert Repeat(c, n)[1..] == Repeat(c, n - 1);
      CountRepeat(c, d, n - 1);
    }
  }

  /** `s.replace(c, '')`: every occurrence of c removed, everything else kept in order. */
  function RemoveChar(s: string, c: char): (r: string)
    ensures c !in r
    ensures |r| == |s| - Count(s, c)
    ensures forall d | d in r :: d in s
  {
    if s == [] then "" else (if s[0] == c then "" else [s[0]]) + RemoveChar(s[1..], c)
  }

  /** Removing a character that does not occur changes nothing. */
  lemma {:induction false} RemoveCharAbsent(s: string, c: char)
    requires c !in s
    ensures RemoveChar(s, c) == s
  {
    if s != [] {
      assert s[1..] == s[1..] && c !in s[1..] by {
        forall d | d in s[1..] ensures d in s {
          var i :| 0 <= i < |s[1..]| && s[1..][i] == d;
          assert s[i + 1] == d;
        }
      }
      RemoveCharAbsent(s[1..], c);
      assert s == [s[0]] + s[1..];
    }
  }

  /** `s.replace(c, d)` for single characters c and d. */
  function ReplaceChar(s: string, c: char, d: char): (r: string)
    ensures |r| == |s|
    ensures forall i | 0 <= i < |s| :: r[i] == if s[i] == c then d else s[i]
  {
    if s == [] then "" else [if s[0] == c then d else s[0]] + ReplaceChar(s[1..], c, d)
  }

  predicate StartsWith(s: string, p: string) {
    |p| <= |s| && s[..|p|] == p
  }

  /** t occurs in s starting at index i. */
  predicate OccursAt(s: string, t: string, i: int) {
    0 <= i && i + |t| <= |s| && s[i..i + |t|] == t
  }

  /** The substring test `t in s` of Python. */
  predicate ContainsSub(s: string, t: string) {
    exists i | 0 <= i <= |s| :: OccursAt(s, t, i)
  }

  /**
   * `s.replace(pat, rep)` for a non-empty `pat`: occurrences are found from the
   * left, do not overlap, and each one is replaced by `rep`.
   */
  function Replace(s: string, pat: string, rep: string): (r: string)
    requires pat != []
    decreases |s|
  {
    if |s| < |pat| then s
    else if s[..|pat|] == pat then rep + Replace(s[|pat|..], pat, rep)
    else [s[0]] + Replace(s[1..], pat, rep)
  }

  /** When `pat` does not occur in s, `s.replace(pat, rep)` returns s itself. */
  lemma {:induction false} ReplaceAbsent(s: string, pat: string, rep: string)
    requires pat != []
    requires !ContainsSub(s, pat)
    ensures Replace(s, pat, rep) == s
    decreases |s|
  {
    if |s| >= |pat| {
      assert !OccursAt(s, pat, 0);
      assert s[0..|pat|] == s[..|pat|];
      assert !ContainsSub(s[1..], pat) by {
        forall i | OccursAt(s[1..], pat, i) ensures false {
          assert s[1..][i..i + |pat|] == s[i + 1..i + 1 + |pat|];
          assert OccursAt(s, pat, i + 1);
        }
      }
      ReplaceAbsent(s[1..], pat, rep);
    }
  }

  /** An occurrence of `pat` at the front is replaced and the scan goes on after it. */
  lemma ReplaceHit(pat: string, rest: string, rep: string)
    requires pat != []
    ensures Replace(pat + rest, pat, rep) == rep + Replace(rest, pat, rep)
  {
    var s := pat + rest;
    assert s[..|pat|] == pat;
    assert s[|pat|..] == rest;
  }

  /** A front character where `pat` cannot start (it differs from `pat` at offset k) is kept. */
  lemma ReplaceSkip(c: char, rest: string, pat: string, rep: string, k: nat)
    requires k < |pat|
    requires k <= |rest| ==> ([c] + rest)[k] != pat[k]
    ensures Replace([c] + rest, pat, rep) == [c] + Replace(rest, pat, rep)
  {
    var s := [c] + rest;
    assert s[1..] == rest;
    if |s| >= |pat| {
      assert s[..|pat|][k] != pat[k];
    }
  }

  /** When the first character of `pat` is in neither pre nor post, only the occurrence between them is replaced. */
  lemma {:induction false} ReplaceOnce(pre: string, pat: string, post: string, rep: string)
    requires pat != [] && pat[0] !in pre && pat[0] !in post
    ensures Replace(pre + pat + post, pat, rep) == pre + rep + post
    decreases |pre|
  {
    if pre == [] {
      assert pre + pat + post == pat + post;
      ReplaceHit(pat, post, rep);
      assert !ContainsSub(post, pat);
      ReplaceAbsent(post, pat, rep);
    } else {
      assert pre + pat + post == [pre[0]] + (pre[1..] + pat + post);
      ReplaceSkip(pre[0], pre[1..] + pat + post, pat, rep, 0);
      ReplaceOnce(pre[1..], pat, post, rep);
    }
  }

  /** Every character of `s.replace(pat, rep)` comes from s or from rep. */
  lemma {:induction false} ReplaceFrom(s: string, pat: string, rep: string)
    requires pat != []
    ensures forall d | d in Replace(s, pat, rep) :: d in s || d in rep
    decreases |s|
  {
    if |s| >= |pat| {
      if s[..|pat|] == pat {
        ReplaceFrom(s[|pat|..], pat, rep);
        forall d | d in s[|pat|..] ensures d in s {
          var i :| 0 <= i < |s[|pat|..]| && s[|pat|..][i] == d;
          assert s[|pat| + i] == d;
        }
      } else {
        ReplaceFrom(s[1..], pat, rep);
        forall d | d in s[1..] ensures d in s {
          var i :| 0 <= i < |s[1..]| && s[1..][i] == d;
          assert s[1 + i] == d;
        }
      }
    }
  }

  /** The characters for which Python's `str.isspace()` holds. */
  predicate IsSpace(c: char) {
    c == ' ' || ('\t' <= c <= '\r') || ('\U{001C}' <= c <= '\U{001F}') || c == '\U{0085}' || c == '\U{00A0}'
    || c == '\U{1680}' || ('\U{2000}' <= c <= '\U{200A}') || c == '\U{2028}' || c == '\U{2029}'
    || c == '\U{202F}' || c == '\U{205F}' || c == '\U{3000}'
  }

  /** `s.lstrip()`: the suffix of s left after every leading white-space character is dropped. */
  function TrimStart(s: string): (r: string)
    ensures |r| <= |s| && r == s[|s| - |r|..]
    ensures r == [] || !IsSpace(r[0])
    ensures forall k | 0 <= k < |s| - |r| :: IsSpace(s[k])
  {
    if s != [] && IsSpace(s[0]) then TrimStart(s[1..]) else s
  }

  /** `s.rstrip()`: the prefix of s left after every trailing white-space character is dropped. */
  function TrimEnd(s: string): (r: string)
    ensures |r| <= |s| && r == s[..|r|]
    ensures r == [] || !IsSpace(r[|r| - 1])
    ensures forall k | |r| <= k < |s| :: IsSpace(s[k])
  {
    if s != [] && IsSpace(s[|s| - 1]) then TrimEnd(s[..|s| - 1]) else s
  }

  /** `s.strip()`. */
  function Strip(s: string): (r: string)
    ensures r == [] || (!IsSpace(r[0]) && !IsSpace(r[|r| - 1]))
    ensures exists i, j | 0 <= i <= j <= |s| :: r == s[i..j]
  {
    var t := TrimStart(s);
    var r := TrimEnd(t);
    assert t == s[|s| - |t|..];
    assert r == t[..|r|];
    assert r == s[|s| - |t|..|s| - |t| + |r|];
    r
  }

  /** `s.strip()` leaves a string that neither starts nor ends with white space as it is. */
  lemma StripKeeps(s: string)
    requires s != [] && !IsSpace(s[0]) && !IsSpace(s[|s| - 1])
    ensures Strip(s) == s
  {
    assert TrimStart(s) == s;
    assert TrimEnd(s) == s;
  }

  predicate IsDigit(c: char) {
    '0' <= c <= '9'
  }

  predicate AllDigits(s: string) {
    forall i | 0 <= i < |s| :: IsDigit(s[i])
  }

  /** The strings that `int()` is modelled on: an optional sign followed by decimal digits. */
  predicate IsIntLiteral(s: string) {
    if |s| > 0 && (s[0] == '-' || s[0] == '+') then |s| > 1 && AllDigits(s[1..])
    else |s| > 0 && AllDigits(s)
  }

  /** The value of a run of decimal digits, most significant first. */
  function DigitsValue(s: string): (v: nat)
    requires AllDigits(s)
    ensures s == [] ==> v == 0
  {
    if s == [] then 0 else DigitsValue(s[..|s| - 1]) * 10 + (s[|s| - 1] as int - '0' as int)
  }

  /** `int(s)` for an integer literal. */
  function IntValue(s: string): int
    requires IsIntLiteral(s)
  {
    if s[0] == '-' then 0 - DigitsValue(s[1..])
    else if s[0] == '+' then DigitsValue(s[1..])
    else DigitsValue(s)
  }
}
