/**
 * The handful of Python string operations the core relies on, written out with
 * Python's semantics: `str.isspace`, `str.strip`, `str.replace`, `str.split`,
 * `str.rsplit(sep, 1)`, `" ".join`, `sep in s`, decimal formatting of an int
 * (the `{idx}` in an f-string) and `int(s)`.
 */
module Text {
  import opened Wrappers

  /** Python's `str.isspace()` for one character; the same set as `\s` in a `str` regex. */
  predicate IsSpace(c: char) {
    || c == ' ' || c == '\t' || c == '\n' || c == '\r' || c == '\U{b}' || c == '\U{c}'
    || c == '\U{1c}' || c == '\U{1d}' || c == '\U{1e}' || c == '\U{1f}'
    || c == '\U{85}' || c == '\U{a0}' || c == '\U{1680}'
    || ('\U{2000}' <= c <= '\U{200a}')
    || c == '\U{2028}' || c == '\U{2029}' || c == '\U{202f}' || c == '\U{205f}' || c == '\U{3000}'
  }

  predicate IsDigit(c: char) {
    '0' <= c <= '9'
  }

  predicate AllDigits(s: string) {
    forall i :: 0 <= i < |s| ==> IsDigit(s[i])
  }

  /** `p` occurs in `s` starting at index `i`. */
  predicate OccursAt(s: string, p: string, i: int) {
    0 <= i && i + |p| <= |s| && s[i..i + |p|] == p
  }

  // ---------------------------------------------------------------------------
  // Decimal numbers

  function DigitChar(d: nat): (c: char)
    requires d < 10
    ensures IsDigit(c)
  {
    (('0' as int) + d) as char
  }

  function DigitValue(c: char): (d: nat)
    requires IsDigit(c)
    ensures d < 10 && DigitChar(d) == c
  {
    (c as int) - ('0' as int)
  }

  /** The decimal text of `n`, as Python's `str(n)` or `f"{n}"` writes it. */
  function NatToString(n: nat): (s: string)
    ensures |s| >= 1 && AllDigits(s)
  {
    if n < 10 then [DigitChar(n)] else NatToString(n / 10) + [DigitChar(n % 10)]
  }

  /** The value of a string of decimal digits (most significant first). */
  function DigitsValue(s: string): nat
    requires AllDigits(s)
  {
    if s == [] then 0 else 10 * DigitsValue(s[..|s| - 1]) + DigitValue(s[|s| - 1])
  }

  lemma {:induction false} NatToStringValue(n: nat)
    ensures DigitsValue(NatToString(n)) == n
  {
    var s := NatToString(n);
    if n < 10 {
      assert s[..|s| - 1] == [];
    } else {
      NatToStringValue(n / 10);
      assert s[..|s| - 1] == NatToString(n / 10);
    }
  }

  /** Distinct numbers print differently. */
  lemma NatToStringInjective(a: nat, b: nat)
    requires NatToString(a) == NatToString(b)
    ensures a == b
  {
    NatToStringValue(a);
    NatToStringValue(b);
  }

  /**
   * Python's `int(s)` on the strings the model meets: surrounding whitespace,
   * an optional sign, then one or more ASCII digits. `None` stands for ValueError.
   */
  function ParseInt(s: string): (r: Option<int>)
    ensures r.Some? && AllDigits(s) ==> r.value >= 0
  {
    var t := Strip(s);
    if |t| >= 1 && (t[0] == '-' || t[0] == '+') then
      var body := t[1..];
      if |body| >= 1 && AllDigits(body) then
        var v: int := DigitsValue(body);
        Some(if t[0] == '-' then -v else v)
      else None
    else if |t| >= 1 && AllDigits(t) then Some(DigitsValue(t))
    else None
  }

  /** A plain run of digits parses to its value. */
  lemma ParseIntDigits(t: string)
    requires |t| >= 1 && AllDigits(t)
    ensures ParseInt(t) == Some(DigitsValue(t))
  {
    assert IsDigit(t[0]) && IsDigit(t[|t| - 1]);
    assert !IsSpace(t[0]) && !IsSpace(t[|t| - 1]);
    StripNoSpaceEnds(t);
    assert t[0] != '-' && t[0] != '+';
  }

  /** `int(str(n)) == n`: the decimal text of a natural number parses back to it. */
  lemma ParseIntOfNat(n: nat)
    ensures ParseInt(NatToString(n)) == Some(n)
  {
    ParseIntDigits(NatToString(n));
    NatToStringValue(n);
  }

  // ---------------------------------------------------------------------------
  // Stripping whitespace

  function TrimLeft(s: string): (r: string)
    ensures |r| <= |s| && r == s[|s| - |r|..]
    ensures r == [] || !IsSpace(r[0])
  {
    if s != [] && IsSpace(s[0]) then TrimLeft(s[1..]) else s
  }

  /** Only whitespace is trimmed on the left. */
  lemma {:induction false} TrimLeftSpaces(s: string)
    ensures forall i :: 0 <= i < |s| - |TrimLeft(s)| ==> IsSpace(s[i])
    decreases |s|
  {
    if s != [] && IsSpace(s[0]) {
      TrimLeftSpaces(s[1..]);
      assert forall i :: 1 <= i < |s| ==> s[1..][i - 1] == s[i];
    }
  }

  function TrimRight(s: string): (r: string)
    ensures |r| <= |s| && r == s[..|r|]
    ensures r == [] || !IsSpace(r[|r| - 1])
  {
    if s != [] && IsSpace(s[|s| - 1]) then TrimRight(s[..|s| - 1]) else s
  }

  /** Only whitespace is trimmed on the right. */
  lemma {:induction false} TrimRightSpaces(s: string)
    ensures forall i :: |TrimRight(s)| <= i < |s| ==> IsSpace(s[i])
    decreases |s|
  {
    if s != [] && IsSpace(s[|s| - 1]) {
      TrimRightSpaces(s[..|s| - 1]);
      assert forall i :: 0 <= i < |s| - 1 ==> s[..|s| - 1][i] == s[i];
    }
  }

  /** Python's `s.strip()`: the longest factor of `s` without whitespace at either end. */
  function Strip(s: string): (r: string)
    ensures r == [] || (!IsSpace(r[0]) && !IsSpace(r[|r| - 1]))
  {
    TrimRight(TrimLeft(s))
  }

  /** `s.strip()` is empty exactly when `s` is all whitespace (Python's `not s.strip()`). */
  lemma StripEmpty(s: string)
    ensures Strip(s) == [] <==> forall i :: 0 <= i < |s| ==> IsSpace(s[i])
  {
    var l := TrimLeft(s);
    TrimLeftSpaces(s);
    TrimRightSpaces(l);
    if Strip(s) == [] {
      forall i | 0 <= i < |s| ensures IsSpace(s[i]) {
        if i >= |s| - |l| {
          assert l[i - (|s| - |l|)] == s[i];
        }
      }
    } else {
      var r := Strip(s);
      assert r[0] == l[0] == s[|s| - |l|];
    }
  }

  lemma StripNoSpaceEnds(s: string)
    requires s == [] || (!IsSpace(s[0]) && !IsSpace(s[|s| - 1]))
    ensures Strip(s) == s
  {
  }

  // ---------------------------------------------------------------------------
  // Search, replace, split and join

  /** The start of the last occurrence of `p` in `s` at or before `i`, as `str.rfind` searches. */
  function LastIndexFrom(s: string, p: string, i: int): (r: Option<nat>)
    requires i <= |s|
    ensures r.Some? ==> r.value <= i && OccursAt(s, p, r.value)
    ensures r.Some? ==> forall j :: r.value < j <= i ==> !OccursAt(s, p, j)
    ensures r.None? ==> forall j :: 0 <= j <= i ==> !OccursAt(s, p, j)
    decreases i + 1
  {
    if i < 0 then None
    else if OccursAt(s, p, i) then Some(i)
    else LastIndexFrom(s, p, i - 1)
  }

  /** The start of the last occurrence of `p` in `s`, if any. */
  function LastIndexOf(s: string, p: string): (r: Option<nat>)
    ensures r.Some? ==> OccursAt(s, p, r.value) && forall j :: r.value < j ==> !OccursAt(s, p, j)
    ensures r.None? ==> forall j :: !OccursAt(s, p, j)
  {
    LastIndexFrom(s, p, |s| - |p|)
  }

  /** Python's `p in s`. */
  predicate Contains(s: string, p: string) {
    LastIndexOf(s, p).Some?
  }

  /** Python's `s.rsplit(sep, 1)`: one piece when `sep` is absent, else the parts around its last occurrence. */
  function RSplitOnce(s: string, sep: string): (r: seq<string>)
    requires sep != []
    ensures |r| == 1 || |r| == 2
    ensures |r| == 1 <==> !Contains(s, sep)
    ensures |r| == 1 ==> r[0] == s
    ensures |r| == 2 ==> s == r[0] + sep + r[1] && !Contains(r[1], sep)
  {
    match LastIndexOf(s, sep)
    case None => [s]
    case Some(i) =>
      var after := s[i + |sep|..];
      assert s == s[..i] + sep + after;
      assert forall j :: OccursAt(after, sep, j) ==> OccursAt(s, sep, i + |sep| + j) by {
        forall j | OccursAt(after, sep, j) ensures OccursAt(s, sep, i + |sep| + j) {
          assert s[i + |sep| + j..i + |sep| + j + |sep|] == after[j..j + |sep|];
        }
      }
      [s[..i], after]
  }

  /** When `sep` occurs right after `a` and nowhere later, `rsplit` cuts there. */
  lemma RSplitAt(s: string, sep: string, a: string, b: string)
    requires sep != [] && s == a + sep + b
    requires forall j :: |a| < j ==> !OccursAt(s, sep, j)
    ensures Contains(s, sep) && RSplitOnce(s, sep) == [a, b]
  {
    assert s[|a|..|a| + |sep|] == sep;
    assert OccursAt(s, sep, |a|);
    var i := LastIndexOf(s, sep).value;
    assert i == |a|;
    assert s[..i] == a && s[i + |sep|..] == b;
  }

  /** Python's `s.replace(old, new)`: leftmost, non-overlapping occurrences. */
  function Replace(s: string, pat: string, rep: string): (r: string)
    requires pat != []
    decreases |s|
  {
    if |s| < |pat| then s
    else if s[..|pat|] == pat then rep + Replace(s[|pat|..], pat, rep)
    else [s[0]] + Replace(s[1..], pat, rep)
  }

  /** Replacing every single character `c` leaves no `c` behind, when `c` is not in the replacement. */
  lemma {:induction false} ReplaceRemovesChar(s: string, c: char, rep: string)
    requires c !in rep
    ensures c !in Replace(s, [c], rep)
    decreases |s|
  {
    if |s| >= 1 {
      ReplaceRemovesChar(s[1..], c, rep);
    }
  }

  /** Python's `s.split(sep)` for a non-empty separator, continuing a piece that began with `cur`. */
  function SplitFrom(s: string, sep: string, cur: string): (r: seq<string>)
    requires sep != []
    ensures |r| >= 1
    decreases |s|
  {
    if |s| < |sep| then [cur + s]
    else if s[..|sep|] == sep then [cur] + SplitFrom(s[|sep|..], sep, [])
    else SplitFrom(s[1..], sep, cur + [s[0]])
  }

  function Split(s: string, sep: string): (r: seq<string>)
    requires sep != []
    ensures |r| >= 1
  {
    SplitFrom(s, sep, [])
  }

  /** No piece of a split contains a character absent from the input. */
  lemma {:induction false} SplitFromChars(s: string, sep: string, cur: string, c: char)
    requires sep != [] && c !in s && c !in cur
    ensures forall k :: 0 <= k < |SplitFrom(s, sep, cur)| ==> c !in SplitFrom(s, sep, cur)[k]
    decreases |s|
  {
    if |s| < |sep| {
    } else if s[..|sep|] == sep {
      assert c !in s[|sep|..];
      SplitFromChars(s[|sep|..], sep, [], c);
    } else {
      assert c !in s[1..];
      SplitFromChars(s[1..], sep, cur + [s[0]], c);
    }
  }

  /** Python's `sep.join(parts)`. */
  function Join(parts: seq<string>, sep: string): string {
    if parts == [] then []
    else if |parts| == 1 then parts[0]
    else parts[0] + sep + Join(parts[1..], sep)
  }

  // ---------------------------------------------------------------------------
  // Character classes of the aggressive normaliser

  /** A word character of `\w`, restricted to ASCII letters, digits and `_`. */
  predicate IsWordChar(c: char) {
    ('a' <= c <= 'z') || ('A' <= c <= 'Z') || IsDigit(c) || c == '_'
  }

  /** ASCII `str.lower()` for one character. */
  function LowerChar(c: char): (r: char)
    ensures !('A' <= r <= 'Z')
    ensures IsWordChar(c) <==> IsWordChar(r)
    ensures IsSpace(c) <==> IsSpace(r)
  {
    if 'A' <= c <= 'Z' then ((c as int) - ('A' as int) + ('a' as int)) as char else c
  }

  function Lower(s: string): (r: string)
    ensures |r| == |s|
    ensures forall i :: 0 <= i < |s| ==> r[i] == LowerChar(s[i])
  {
    seq(|s|, i requires 0 <= i < |s| => LowerChar(s[i]))
  }

  /** No element of the list occurs twice. */
  predicate Distinct(s: seq<string>) {
    forall i, j :: 0 <= i < j < |s| ==> s[i] != s[j]
  }

  /** `a` is `b` with some elements left out and the rest in their order. */
  ghost predicate IsSubsequence<T>(a: seq<T>, b: seq<T>)
    decreases |b|
  {
    if b == [] then a == []
    else
      || (a != [] && a[|a| - 1] == b[|b| - 1] && IsSubsequence(a[..|a| - 1], b[..|b| - 1]))
      || IsSubsequence(a, b[..|b| - 1])
  }

  /** Putting one element in front of the longer list keeps a subsequence, with or without putting it in front of the shorter. */
  lemma {:induction false} SubsequenceCons<T>(x: T, a: seq<T>, b: seq<T>)
    requires IsSubsequence(a, b)
    ensures IsSubsequence(a, [x] + b) && IsSubsequence([x] + a, [x] + b)
    decreases |b|
  {
    if b == [] {
      assert IsSubsequence([], [x][..0]);
    } else {
      var bi := b[..|b| - 1];
      assert ([x] + b)[..|b|] == [x] + bi;
      if a != [] && a[|a| - 1] == b[|b| - 1] && IsSubsequence(a[..|a| - 1], bi) {
        var ai := a[..|a| - 1];
        SubsequenceCons(x, ai, bi);
        assert ([x] + a)[..|a|] == [x] + ai;
      } else {
        SubsequenceCons(x, a, bi);
      }
    }
  }
}
