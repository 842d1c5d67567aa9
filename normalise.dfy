/**
 * The heading normaliser `_clean_single_header`.  In order it
 *   1. replaces every match of `\W+ ` (a run of non-word characters ending in
 *      a space) by a single space,
 *   2. removes every `[optional]` (case-sensitive),
 *   3. strips surrounding whitespace,
 *   4. lower-cases,
 *   5. removes every `model ` (so "Model Details" becomes "details").
 */
module Normalise {
  import opened Text

  /** End of the greedy `\W+` that starts at `p`: the maximal non-word run. */
  function NonWordRunEnd(s: string, p: nat): (q: nat)
    requires p <= |s|
    ensures p <= q <= |s|
    ensures forall k :: p <= k < q ==> !IsWordChar(s[k])
    ensures q == |s| || IsWordChar(s[q])
    decreases |s| - p
  {
    if p < |s| && !IsWordChar(s[p]) then NonWordRunEnd(s, p + 1) else p
  }

  /** The last index in `[lo, hi)` holding a space, if there is one. */
  function LastSpace(s: string, lo: nat, hi: nat): (r: Option<nat>)
    requires lo <= hi <= |s|
    ensures r.Some? ==> lo <= r.value < hi && s[r.value] == ' '
    ensures r.Some? ==> forall k :: r.value < k < hi ==> s[k] != ' '
    ensures r.None? ==> forall k :: lo <= k < hi ==> s[k] != ' '
    decreases hi - lo
  {
    if lo == hi then None
    else if s[hi - 1] == ' ' then Some(hi - 1)
    else LastSpace(s, lo, hi - 1)
  }

  /**
   * Where `\W+ ` matches at `p`, the index of the space that ends the match.
   * The greedy `\W+` first takes the whole non-word run and then gives back
   * characters until a space follows it, so that space is the last one inside
   * the run (never its first character, since `\W+` needs one character).
   */
  function PunctMatch(s: string, p: nat): Option<nat>
    requires p < |s|
  {
    var q := NonWordRunEnd(s, p);
    if q == p then None else LastSpace(s, p + 1, q)
  }

  /** `re.sub(r'\W+ ', ' ', s[p..])`, scanning from `p` and resuming after each match. */
  function SubPunctFrom(s: string, p: nat): string
    requires p <= |s|
    decreases |s| - p
  {
    if p == |s| then
      []
    else
      match PunctMatch(s, p)
      case Some(j) => " " + SubPunctFrom(s, j + 1)
      case None => [s[p]] + SubPunctFrom(s, p + 1)
  }

  /** Step 1 of the normaliser: `re.sub(r'\W+ ', ' ', s)`. */
  function SubPunct(s: string): string {
    SubPunctFrom(s, 0)
  }

  /** No space follows a non-word character: the pattern `\W+ ` has no match. */
  predicate NoSpaceAfterPunct(s: string) {
    forall i :: 0 < i < |s| && s[i] == ' ' ==> IsWordChar(s[i - 1])
  }

  /** There is a space inside the non-word run that starts at `p`. */
  predicate SpaceInRun(s: string, p: nat)
    requires p <= |s|
  {
    exists j :: p <= j < NonWordRunEnd(s, p) && s[j] == ' '
  }

  /** Any position inside a non-word run has the same run end. */
  lemma {:induction false} RunEndInside(s: string, p: nat, m: nat)
    requires p <= |s| && p <= m <= NonWordRunEnd(s, p)
    ensures NonWordRunEnd(s, m) == NonWordRunEnd(s, p)
    decreases m - p
  {
    if m > p {
      RunEndInside(s, p + 1, m);
    }
  }

  /** The rewritten text from `p` can only start with a space when a space lies in the run at `p`. */
  lemma LeadingSpace(s: string, p: nat)
    requires p <= |s|
    ensures var r := SubPunctFrom(s, p);
            r != [] && r[0] == ' ' ==> SpaceInRun(s, p)
  {
    if p < |s| {
      var q := NonWordRunEnd(s, p);
      match PunctMatch(s, p)
      case Some(j) =>
        assert p <= j < q && s[j] == ' ';
      case None =>
        if s[p] == ' ' {
          assert p < q;
        }
    }
  }

  /** Putting `c` in front keeps the property when a leading space of `rest` follows a word character. */
  lemma ConsNoSpaceAfterPunct(c: char, rest: string)
    requires NoSpaceAfterPunct(rest)
    requires rest != [] && rest[0] == ' ' ==> IsWordChar(c)
    ensures NoSpaceAfterPunct([c] + rest)
  {
    var r := [c] + rest;
    forall i | 0 < i < |r| && r[i] == ' ' ensures IsWordChar(r[i - 1]) {
      assert r[i] == rest[i - 1];
      if i > 1 {
        assert r[i - 1] == rest[i - 2];
      }
    }
  }

  /** After a match of `\W+ ` ends at `j`, the rest of the run holds no space. */
  lemma NoSpaceInRunAfterMatch(s: string, p: nat, j: nat)
    requires p < |s| && PunctMatch(s, p) == Some(j)
    ensures !SpaceInRun(s, j + 1)
  {
    var q := NonWordRunEnd(s, p);
    if j + 1 < q {
      RunEndInside(s, p, j + 1);
    }
  }

  /** Where `\W+ ` does not match at a non-word character, the rest of its run holds no space. */
  lemma NoSpaceInRunAfterUnmatched(s: string, p: nat)
    requires p < |s| && PunctMatch(s, p).None?
    ensures !IsWordChar(s[p]) ==> !SpaceInRun(s, p + 1)
  {
    if !IsWordChar(s[p]) {
      RunEndInside(s, p, p + 1);
    }
  }

  /**
   * The substitution leaves no space after a non-word character: wherever a
   * run of punctuation reached a space, the whole match became one space.
   */
  lemma {:induction false} SubPunctFromNoSpaceAfterPunct(s: string, p: nat)
    requires p <= |s|
    ensures NoSpaceAfterPunct(SubPunctFrom(s, p))
    decreases |s| - p, 1
  {
    if p < |s| {
      match PunctMatch(s, p)
      case Some(j) => MatchedNoSpaceAfterPunct(s, p, j);
      case None => UnmatchedNoSpaceAfterPunct(s, p);
    }
  }

  /** The case of `SubPunctFromNoSpaceAfterPunct` where `\W+ ` matches up to the space at `j`. */
  lemma {:induction false} MatchedNoSpaceAfterPunct(s: string, p: nat, j: nat)
    requires p < |s| && PunctMatch(s, p) == Some(j)
    ensures NoSpaceAfterPunct(SubPunctFrom(s, p))
    decreases |s| - p, 0
  {
    var rest := SubPunctFrom(s, j + 1);
    assert SubPunctFrom(s, p) == [' '] + rest;
    SubPunctFromNoSpaceAfterPunct(s, j + 1);
    LeadingSpace(s, j + 1);
    NoSpaceInRunAfterMatch(s, p, j);
    ConsNoSpaceAfterPunct(' ', rest);
  }

  /** The case of `SubPunctFromNoSpaceAfterPunct` where `\W+ ` does not match at `p`. */
  lemma {:induction false} UnmatchedNoSpaceAfterPunct(s: string, p: nat)
    requires p < |s| && PunctMatch(s, p).None?
    ensures NoSpaceAfterPunct(SubPunctFrom(s, p))
    decreases |s| - p, 0
  {
    var rest := SubPunctFrom(s, p + 1);
    assert SubPunctFrom(s, p) == [s[p]] + rest;
    SubPunctFromNoSpaceAfterPunct(s, p + 1);
    LeadingSpace(s, p + 1);
    NoSpaceInRunAfterUnmatched(s, p);
    ConsNoSpaceAfterPunct(s[p], rest);
  }

  /** From `p` on, a text in which no space follows a non-word character is left as it is. */
  lemma {:induction false} SubPunctFromUnchanged(s: string, p: nat)
    requires p <= |s|
    requires forall i :: p < i < |s| && s[i] == ' ' ==> IsWordChar(s[i - 1])
    ensures SubPunctFrom(s, p) == s[p..]
    decreases |s| - p
  {
    if p < |s| {
      var q := NonWordRunEnd(s, p);
      assert PunctMatch(s, p).None? by {
        if q > p {
          forall k | p + 1 <= k < q ensures s[k] != ' ' {
            assert !IsWordChar(s[k - 1]);
          }
        }
      }
      SubPunctFromUnchanged(s, p + 1);
      assert s[p..] == [s[p]] + s[p + 1..];
    }
  }

  /** After step 1 the pattern `\W+ ` no longer matches, so the step is idempotent. */
  lemma SubPunctIdempotent(s: string)
    ensures NoSpaceAfterPunct(SubPunct(s))
    ensures SubPunct(SubPunct(s)) == SubPunct(s)
  {
    SubPunctFromNoSpaceAfterPunct(s, 0);
    SubPunctFromUnchanged(SubPunct(s), 0);
  }

  const OptionalMarker: string := "[optional]"
  const ModelQualifier: string := "model "

  /** `_clean_single_header`: the five rewrites, in the source's order. */
  function Clean(header: string): string {
    var s1 := SubPunct(header);
    var s2 := RemoveAll(s1, OptionalMarker);
    var s3 := Strip(s2);
    var s4 := Lower(s3);
    RemoveAll(s4, ModelQualifier)
  }

  /** A normalised heading holds no upper-case letter. */
  lemma CleanHasNoUpper(header: string)
    ensures HasNoUpper(Clean(header))
  {
    var s4 := Lower(Strip(RemoveAll(SubPunct(header), OptionalMarker)));
    var r := Clean(header);
    RemoveAllKeepsCharacters(s4, ModelQualifier);
    forall i | 0 <= i < |r| ensures !IsAsciiUpper(r[i]) {
      assert r[i] in s4;
      var j :| 0 <= j < |s4| && s4[j] == r[i];
    }
  }

  /** Neither marker repeats its first character, so no two occurrences overlap. */
  lemma MarkersHaveUniqueHead()
    ensures HeadIsUnique(OptionalMarker)
    ensures HeadIsUnique(ModelQualifier)
  {
  }

  /**
   * `model ` goes wherever it stands in the lower-cased heading, not only at
   * its start.
   */
  lemma CleanDropsEveryModelQualifier(header: string, a: string, b: string)
    requires Lower(Strip(RemoveAll(SubPunct(header), OptionalMarker))) == a + ModelQualifier + b
    ensures Clean(header) == RemoveAll(a, ModelQualifier) + RemoveAll(b, ModelQualifier)
  {
    MarkersHaveUniqueHead();
    RemoveAllEveryOccurrence(a, ModelQualifier, b);
  }

  /** Characterises the non-word run end by its two defining facts. */
  lemma {:induction false} NonWordRunEndIs(s: string, p: nat, q: nat)
    requires p <= q <= |s|
    requires forall k :: p <= k < q ==> !IsWordChar(s[k])
    requires q == |s| || IsWordChar(s[q])
    ensures NonWordRunEnd(s, p) == q
    decreases q - p
  {
    if p < q {
      NonWordRunEndIs(s, p + 1, q);
    }
  }

  /**
   * A `## ` heading whose text starts with a word character and has no space
   * after punctuation loses exactly its `#`s and keeps the space.
   */
  lemma SubPunctOfHashHeading(w: string)
    requires w != [] && IsWordChar(w[0]) && NoSpaceAfterPunct(w)
    ensures SubPunct("## " + w) == " " + w
  {
    var h := "## " + w;
    NonWordRunEndIs(h, 0, 3);
    assert PunctMatch(h, 0) == Some(2);
    forall i | 3 < i < |h| && h[i] == ' ' ensures IsWordChar(h[i - 1]) {
      assert h[i] == w[i - 3] && h[i - 1] == w[i - 4];
    }
    SubPunctFromUnchanged(h, 3);
    assert h[3..] == w;
  }
}
