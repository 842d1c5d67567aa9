/**
 * Character classes and the handful of Python string operations the heading
 * pipeline relies on, over an ASCII character model.
 *
 *  - `IsRegexSpace` is what the pattern class `\s` matches (so `\S` is its
 *    complement); `IsStripSpace` is what `str.strip()` removes, which in Python
 *    also includes the four separator controls U+001C..U+001F.
 *  - `IsWordChar` is `\w`: ASCII letters, digits and `_`.  A character outside
 *    ASCII is taken to be a word character with no case.
 */
module Text {

  datatype Option<T> = None | Some(value: T)

  predicate IsRegexSpace(c: char) {
    c == ' ' || c == '\t' || c == '\n' || c == '\r' || c == '\U{0B}' || c == '\U{0C}'
  }

  predicate IsStripSpace(c: char) {
    IsRegexSpace(c) || ('\U{1C}' <= c <= '\U{1F}')
  }

  predicate IsAsciiUpper(c: char) {
    'A' <= c <= 'Z'
  }

  predicate IsWordChar(c: char) {
    ('a' <= c <= 'z') || IsAsciiUpper(c) || ('0' <= c <= '9') || c == '_' || c as int >= 128
  }

  /** `str.lower()` on one character of the ASCII model. */
  function LowerChar(c: char): (d: char)
    ensures !IsAsciiUpper(d)
    ensures IsAsciiUpper(c) ==> d as int == c as int + 32
    ensures !IsAsciiUpper(c) ==> d == c
  {
    if IsAsciiUpper(c) then (c as int + 32) as char else c
  }

  /** `str.lower()`. */
  function Lower(s: string): (r: string)
    ensures |r| == |s|
    ensures forall i :: 0 <= i < |r| ==> r[i] == LowerChar(s[i])
  {
    seq(|s|, i requires 0 <= i < |s| => LowerChar(s[i]))
  }

  predicate HasNoUpper(s: string) {
    forall i :: 0 <= i < |s| ==> !IsAsciiUpper(s[i])
  }

  /** Removes the leading characters that `str.strip()` treats as whitespace. */
  function TrimStart(s: string): (r: string)
    ensures |r| <= |s| && r == s[|s| - |r|..]
    ensures forall i :: 0 <= i < |s| - |r| ==> IsStripSpace(s[i])
    ensures r == [] || !IsStripSpace(r[0])
  {
    if s != [] && IsStripSpace(s[0]) then TrimStart(s[1..]) else s
  }

  /** Removes the trailing characters that `str.strip()` treats as whitespace. */
  function TrimEnd(s: string): (r: string)
    ensures |r| <= |s| && r == s[..|r|]
    ensures forall i :: |r| <= i < |s| ==> IsStripSpace(s[i])
    ensures r == [] || !IsStripSpace(r[|r| - 1])
  {
    if s != [] && IsStripSpace(s[|s| - 1]) then TrimEnd(s[..|s| - 1]) else s
  }

  /** `str.strip()` with no argument. */
  function Strip(s: string): (r: string)
    ensures r == [] || (!IsStripSpace(r[0]) && !IsStripSpace(r[|r| - 1]))
  {
    TrimEnd(TrimStart(s))
  }

  /** Where the piece that `strip()` keeps begins and ends. */
  lemma StripBounds(s: string) returns (i: nat, j: nat)
    ensures 0 <= i <= j <= |s| && Strip(s) == s[i..j]
    ensures forall k :: 0 <= k < i ==> IsStripSpace(s[k])
    ensures forall k :: j <= k < |s| ==> IsStripSpace(s[k])
  {
    var t := TrimStart(s);
    var r := TrimEnd(t);
    i := |s| - |t|;
    j := i + |r|;
    assert t == s[i..];
    assert r == t[..|r|];
    forall k | j <= k < |s| ensures IsStripSpace(s[k]) {
      assert |r| <= k - i < |t|;
      assert s[k] == t[k - i];
    }
  }

  /** Stripping keeps one contiguous piece and drops only whitespace around it. */
  lemma StripIsSlice(s: string)
    ensures exists i, j ::
      && 0 <= i <= j <= |s| && Strip(s) == s[i..j]
      && (forall k :: 0 <= k < i ==> IsStripSpace(s[k]))
      && (forall k :: j <= k < |s| ==> IsStripSpace(s[k]))
  {
    var i, j := StripBounds(s);
  }

  /** A leading space is trimmed away. */
  lemma TrimStartSpace(a: string)
    ensures TrimStart(" " + a) == TrimStart(a)
  {
    assert (" " + a)[1..] == a;
  }

  /** A trailing space is trimmed away. */
  lemma TrimEndSpace(a: string)
    ensures TrimEnd(a + " ") == TrimEnd(a)
  {
    assert (a + " ")[..|a|] == a;
  }

  /** A string that does not start with whitespace keeps its start, also with a space appended. */
  lemma TrimStartKept(a: string)
    requires a == [] || !IsStripSpace(a[0])
    ensures TrimStart(a) == a
    ensures TrimStart(a + " ") == (if a == [] then [] else a + " ")
  {
    if a == [] {
      TrimStartSpace([]);
      assert [] + " " == " " + [];
    } else {
      assert (a + " ")[0] == a[0];
    }
  }

  /** An already stripped string. */
  predicate IsStripped(a: string) {
    a == [] || (!IsStripSpace(a[0]) && !IsStripSpace(a[|a| - 1]))
  }

  lemma StripStripped(a: string)
    requires IsStripped(a)
    ensures Strip(a) == a
  {
    TrimStartKept(a);
  }

  lemma StripLeadingSpace(a: string)
    requires IsStripped(a)
    ensures Strip(" " + a) == a
  {
    TrimStartKept(a);
    TrimStartSpace(a);
  }

  lemma StripTrailingSpace(a: string)
    requires IsStripped(a)
    ensures Strip(a + " ") == a
  {
    TrimStartKept(a);
    TrimEndSpace(a);
    assert TrimEnd(a) == a;
  }

  lemma StripSurroundingSpaces(a: string)
    requires IsStripped(a)
    ensures Strip(" " + a + " ") == a
  {
    assert " " + a + " " == " " + (a + " ");
    TrimStartSpace(a + " ");
    StripTrailingSpace(a);
  }

  /** Stripping one space from either side of an already stripped string. */
  lemma StripAround(a: string)
    requires IsStripped(a)
    ensures Strip(a) == a
    ensures Strip(" " + a) == a
    ensures Strip(a + " ") == a
    ensures Strip(" " + a + " ") == a
  {
    StripStripped(a);
    StripLeadingSpace(a);
    StripTrailingSpace(a);
    StripSurroundingSpaces(a);
  }

  /** `pat` occurs in `s` at index `k`. */
  predicate OccursAt(s: string, k: int, pat: string) {
    0 <= k && k + |pat| <= |s| && s[k..k + |pat|] == pat
  }

  /**
   * `s.replace(pat, "")`: scanning left to right, every occurrence of `pat`
   * found is dropped and the scan resumes after it.
   */
  function RemoveAll(s: string, pat: string): (r: string)
    requires pat != []
    ensures |r| <= |s|
    decreases |s|
  {
    if pat <= s then
      assert s == s[..|pat|] + s[|pat|..];
      RemoveAll(s[|pat|..], pat)
    else if s == [] then
      []
    else
      assert s == [s[0]] + s[1..];
      [s[0]] + RemoveAll(s[1..], pat)
  }

  /** Removal only drops characters: every character of the result comes from `s`. */
  lemma {:induction false} RemoveAllKeepsCharacters(s: string, pat: string)
    requires pat != []
    ensures forall c :: c in RemoveAll(s, pat) ==> c in s
    decreases |s|
  {
    if pat <= s {
      RemoveAllKeepsCharacters(s[|pat|..], pat);
      assert forall c :: c in s[|pat|..] ==> c in s;
    } else if s != [] {
      RemoveAllKeepsCharacters(s[1..], pat);
      assert forall c :: c in s[1..] ==> c in s;
    }
  }

  /**
   * Counted with multiplicity, the characters of the result are among those
   * of `s`.
   */
  lemma {:induction false} RemoveAllKeepsMultiset(s: string, pat: string)
    requires pat != []
    ensures multiset(RemoveAll(s, pat)) <= multiset(s)
    decreases |s|
  {
    if pat <= s {
      RemoveAllKeepsMultiset(s[|pat|..], pat);
      KeepsMultisetAfterPattern(s, pat);
    } else if s != [] {
      RemoveAllKeepsMultiset(s[1..], pat);
      KeepsMultisetAfterChar(s, pat);
    }
  }

  lemma KeepsMultisetAfterPattern(s: string, pat: string)
    requires pat != [] && pat <= s
    requires multiset(RemoveAll(s[|pat|..], pat)) <= multiset(s[|pat|..])
    ensures multiset(RemoveAll(s, pat)) <= multiset(s)
  {
    RemoveAllSkipsPattern(s, pat);
    MultisetOfSuffix(s, |pat|);
  }

  lemma KeepsMultisetAfterChar(s: string, pat: string)
    requires pat != [] && !(pat <= s) && s != []
    requires multiset(RemoveAll(s[1..], pat)) <= multiset(s[1..])
    ensures multiset(RemoveAll(s, pat)) <= multiset(s)
  {
    RemoveAllKeepsHead(s, pat);
    assert s == [s[0]] + s[1..];
  }

  lemma MultisetOfSuffix(s: string, n: nat)
    requires n <= |s|
    ensures multiset(s[n..]) <= multiset(s)
  {
    assert s == s[..n] + s[n..];
  }

  /** No occurrence of `pat` in `a + c` starts inside `a` and ends inside `c`. */
  predicate NoStraddle(a: string, c: string, pat: string) {
    forall k :: 0 <= k < |a| < k + |pat| ==> !OccursAt(a + c, k, pat)
  }

  /** The first character of `pat` does not occur again in `pat`. */
  predicate HeadIsUnique(pat: string) {
    pat != [] && forall i :: 0 < i < |pat| ==> pat[i] != pat[0]
  }

  /** Dropping a prefix of `a` keeps the seam free of straddling occurrences. */
  lemma NoStraddleSuffix(a: string, c: string, pat: string, d: nat)
    requires NoStraddle(a, c, pat)
    requires d <= |a|
    ensures NoStraddle(a[d..], c, pat)
  {
    assert a[d..] + c == (a + c)[d..];
    forall k | 0 <= k < |a[d..]| < k + |pat|
      ensures !OccursAt(a[d..] + c, k, pat)
    {
      assert !OccursAt(a + c, k + d, pat);
      if k + |pat| <= |a[d..] + c| {
        assert (a[d..] + c)[k..k + |pat|] == (a + c)[k + d..k + d + |pat|];
      }
    }
  }

  /** Removal on a concatenation splits when no occurrence straddles the seam. */
  lemma {:induction false} RemoveAllAppend(a: string, c: string, pat: string)
    requires pat != []
    requires NoStraddle(a, c, pat)
    ensures RemoveAll(a + c, pat) == RemoveAll(a, pat) + RemoveAll(c, pat)
    decreases |a|
  {
    if a == [] {
      assert a + c == c;
    } else if pat <= a {
      NoStraddleSuffix(a, c, pat, |pat|);
      RemoveAllAppend(a[|pat|..], c, pat);
      RemoveAllAppendAfterPattern(a, c, pat);
    } else {
      NotPrefixOfAppend(a, c, pat);
      NoStraddleSuffix(a, c, pat, 1);
      RemoveAllAppend(a[1..], c, pat);
      RemoveAllAppendAfterChar(a, c, pat);
    }
  }

  /**
   * The case of `RemoveAllAppend` where `a` starts with `pat`, given the
   * split for the rest of `a`.
   */
  lemma RemoveAllAppendAfterPattern(a: string, c: string, pat: string)
    requires pat != [] && pat <= a
    requires RemoveAll(a[|pat|..] + c, pat) == RemoveAll(a[|pat|..], pat) + RemoveAll(c, pat)
    ensures RemoveAll(a + c, pat) == RemoveAll(a, pat) + RemoveAll(c, pat)
  {
    RemoveAllSkipsPatternAppend(a, c, pat);
    RemoveAllSkipsPattern(a, pat);
  }

  /** `RemoveAll` drops an occurrence at the start. */
  lemma RemoveAllSkipsPattern(s: string, pat: string)
    requires pat != [] && pat <= s
    ensures RemoveAll(s, pat) == RemoveAll(s[|pat|..], pat)
  {
  }

  /** `RemoveAllSkipsPattern` on a concatenation whose first part starts with `pat`. */
  lemma RemoveAllSkipsPatternAppend(a: string, c: string, pat: string)
    requires pat != [] && pat <= a
    ensures RemoveAll(a + c, pat) == RemoveAll(a[|pat|..] + c, pat)
  {
    var ac := a + c;
    assert ac[..|pat|] == a[..|pat|];
    assert ac[|pat|..] == a[|pat|..] + c;
    RemoveAllSkipsPattern(ac, pat);
  }

  /** `RemoveAll` keeps a first character that does not start an occurrence. */
  lemma RemoveAllKeepsHead(s: string, pat: string)
    requires pat != [] && s != [] && !(pat <= s)
    ensures RemoveAll(s, pat) == [s[0]] + RemoveAll(s[1..], pat)
  {
  }

  /**
   * The case of `RemoveAllAppend` where `a` is not empty and does not start
   * with `pat`, given the split for the tail of `a`.
   */
  lemma RemoveAllAppendAfterChar(a: string, c: string, pat: string)
    requires pat != [] && a != [] && !(pat <= a) && !(pat <= a + c)
    requires RemoveAll(a[1..] + c, pat) == RemoveAll(a[1..], pat) + RemoveAll(c, pat)
    ensures RemoveAll(a + c, pat) == RemoveAll(a, pat) + RemoveAll(c, pat)
  {
    RemoveAllKeepsHeadAppend(a, c, pat);
    RemoveAllKeepsHead(a, pat);
    ConsAppendAssoc(a[0], RemoveAll(a[1..], pat), RemoveAll(c, pat));
  }

  lemma ConsAppendAssoc(h: char, x: string, y: string)
    ensures [h] + (x + y) == ([h] + x) + y
  {
  }

  /** `RemoveAllKeepsHead` on a concatenation whose first part is not empty. */
  lemma RemoveAllKeepsHeadAppend(a: string, c: string, pat: string)
    requires pat != [] && a != [] && !(pat <= a + c)
    ensures RemoveAll(a + c, pat) == [a[0]] + RemoveAll(a[1..] + c, pat)
  {
    var ac := a + c;
    assert ac[0] == a[0] && ac[1..] == a[1..] + c;
    RemoveAllKeepsHead(ac, pat);
  }

  /** When `a` does not start with `pat`, neither does `a + c` unless an occurrence straddles the seam. */
  lemma NotPrefixOfAppend(a: string, c: string, pat: string)
    requires a != [] && !(pat <= a)
    requires NoStraddle(a, c, pat)
    ensures !(pat <= a + c)
  {
    if |pat| <= |a| {
      assert (a + c)[..|pat|] == a[..|pat|];
    } else {
      assert !OccursAt(a + c, 0, pat);
    }
  }

  /**
   * Every occurrence is removed, wherever it stands: for a pattern whose first
   * character is not repeated inside it, an occurrence in the middle of a
   * string disappears and the two sides are treated independently.
   */
  lemma {:induction false} RemoveAllEveryOccurrence(a: string, pat: string, b: string)
    requires HeadIsUnique(pat)
    ensures RemoveAll(a + pat + b, pat) == RemoveAll(a, pat) + RemoveAll(b, pat)
  {
    forall k | 0 <= k < |a| < k + |pat|
      ensures !OccursAt(a + (pat + b), k, pat)
    {
      var s := a + (pat + b);
      assert s[|a|] == pat[0];
      if k + |pat| <= |s| {
        assert s[k..k + |pat|][|a| - k] == s[|a|];
      }
    }
    RemoveAllAppend(a, pat + b, pat);
    assert pat <= pat + b;
    assert (pat + b)[|pat|..] == b;
    assert a + pat + b == a + (pat + b);
  }

  /** A string in which `pat` does not occur is left unchanged. */
  lemma {:induction false} RemoveAllAbsent(s: string, pat: string)
    requires pat != []
    requires forall k :: !OccursAt(s, k, pat)
    ensures RemoveAll(s, pat) == s
    decreases |s|
  {
    if s != [] {
      assert !OccursAt(s, 0, pat);
      assert !(pat <= s);
      forall k ensures !OccursAt(s[1..], k, pat) {
        assert !OccursAt(s, k + 1, pat);
      }
      RemoveAllAbsent(s[1..], pat);
      assert s == [s[0]] + s[1..];
    }
  }

  /** A string without the first character of `pat` is left unchanged. */
  lemma RemoveAllWithoutHead(s: string, pat: string)
    requires pat != [] && pat[0] !in s
    ensures RemoveAll(s, pat) == s
  {
    forall k ensures !OccursAt(s, k, pat) {
      if 0 <= k && k + |pat| <= |s| {
        assert s[k..k + |pat|][0] == s[k];
      }
    }
    RemoveAllAbsent(s, pat);
  }

  /** A prefix free of the pattern's first character passes through unchanged. */
  lemma RemoveAllSkipsHeadless(a: string, c: string, pat: string)
    requires pat != [] && pat[0] !in a
    ensures RemoveAll(a + c, pat) == a + RemoveAll(c, pat)
  {
    forall k | 0 <= k < |a| < k + |pat|
      ensures !OccursAt(a + c, k, pat)
    {
      if k + |pat| <= |a + c| {
        assert (a + c)[k..k + |pat|][0] == a[k];
      }
    }
    RemoveAllAppend(a, c, pat);
    RemoveAllWithoutHead(a, pat);
  }

  /** Decimal digit character of `d`. */
  function DigitChar(d: nat): (c: char)
    requires d < 10
    ensures '0' <= c <= '9'
  {
    ('0' as int + d) as char
  }

  /** `str(n)` for a natural number: its decimal digits without leading zeros. */
  function Decimal(n: nat): (r: string)
    ensures r != []
    ensures forall i :: 0 <= i < |r| ==> '0' <= r[i] <= '9'
    ensures |r| > 1 ==> r[0] != '0'
  {
    if n < 10 then [DigitChar(n)] else Decimal(n / 10) + [DigitChar(n % 10)]
  }

  /** Value of a string of decimal digits. */
  function DecimalValue(s: string): nat
    requires forall i :: 0 <= i < |s| ==> '0' <= s[i] <= '9'
  {
    if s == [] then 0 else DecimalValue(s[..|s| - 1]) * 10 + (s[|s| - 1] as int - '0' as int)
  }

  /** Reading the digits back gives the number: `int(str(n)) == n`. */
  lemma {:induction false} DecimalRoundTrip(n: nat)
    ensures DecimalValue(Decimal(n)) == n
  {
    if n >= 10 {
      DecimalRoundTrip(n / 10);
      var r := Decimal(n);
      assert r[..|r| - 1] == Decimal(n / 10);
    }
  }

  /** Distinct numbers have distinct decimal renderings. */
  lemma DecimalInjective(m: nat, n: nat)
    requires Decimal(m) == Decimal(n)
    ensures m == n
  {
    DecimalRoundTrip(m);
    DecimalRoundTrip(n);
  }
}
