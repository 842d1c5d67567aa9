/**
 * Worked examples of the heading normaliser.  Each rewrite step is settled
 * in a lemma of its own and the steps are then chained.
 */
module NormaliseExamples {
  import opened Text
  import opened Normalise

  /** Chains the five rewrite steps of `Clean`. */
  lemma CleanSteps(h: string, s1: string, s2: string, s3: string, s4: string, r: string)
    requires SubPunct(h) == s1 && RemoveAll(s1, OptionalMarker) == s2 && Strip(s2) == s3
    requires Lower(s3) == s4 && RemoveAll(s4, ModelQualifier) == r
    ensures Clean(h) == r
  {
  }

  lemma HashHeading(w: string, h: string, s1: string)
    requires w != [] && IsWordChar(w[0]) && NoSpaceAfterPunct(w)
    requires h == "## " + w && s1 == " " + w
    ensures SubPunct(h) == s1
  {
    SubPunctOfHashHeading(w);
  }

  lemma DropMarkerAtEnd(s: string, a: string, pat: string)
    requires pat != [] && pat[0] !in a && s == a + pat
    ensures RemoveAll(s, pat) == a
  {
    RemoveAllSkipsHeadless(a, pat, pat);
    assert pat[|pat|..] == [];
  }

  lemma DropMarkerAtStart(s: string, pat: string, b: string)
    requires pat != [] && pat[0] !in b && s == pat + b
    ensures RemoveAll(s, pat) == b
  {
    assert s[|pat|..] == b;
    RemoveAllWithoutHead(b, pat);
  }

  /** `[O...` is not `[optional]`: the removal is case-sensitive. */
  lemma CapitalisedMarkerStays(s: string, a: string, d: string)
    requires '[' !in a && '[' !in d && d != [] && d[0] == 'O' && s == a + "[" + d
    ensures RemoveAll(s, OptionalMarker) == s
  {
    var c := "[" + d;
    assert s == a + c;
    RemoveAllSkipsHeadless(a, c, OptionalMarker);
    assert c[1] != OptionalMarker[1];
    assert !(OptionalMarker <= c);
    assert c[1..] == d;
    RemoveAllWithoutHead(d, OptionalMarker);
    assert RemoveAll(c, OptionalMarker) == [c[0]] + RemoveAll(c[1..], OptionalMarker);
    assert [c[0]] + d == c;
  }

  /**
   * A template heading `## <title> [optional]` normalises to its title,
   * lower-cased, with `model ` removed.
   */
  lemma CleanOptionalHeading(t: string)
    requires t != [] && IsWordChar(t[0]) && IsWordChar(t[|t| - 1])
    requires NoSpaceAfterPunct(t) && '[' !in t
    ensures Clean("## " + t + " " + OptionalMarker) == RemoveAll(Lower(t), ModelQualifier)
  {
    var w := t + " " + OptionalMarker;
    assert "## " + t + " " + OptionalMarker == "## " + w;
    forall i | 0 < i < |w| && w[i] == ' ' ensures IsWordChar(w[i - 1]) {
      if i < |t| {
        assert w[i] == t[i] && w[i - 1] == t[i - 1];
      } else {
        assert i == |t|;
      }
    }
    assert " " + w == " " + t + " " + OptionalMarker;
    assert !IsStripSpace(t[0]) && !IsStripSpace(t[|t| - 1]);
    assert OptionalMarker[0] !in " " + t + " ";
    HashHeading(w, "## " + w, " " + w);
    DropMarkerAtEnd(" " + w, " " + t + " ", OptionalMarker);
    StripAround(t);
  }

  /** A plain heading `## <title>` normalises to its title, lower-cased, with `model ` removed. */
  lemma CleanPlainHeading(t: string)
    requires t != [] && IsWordChar(t[0]) && IsWordChar(t[|t| - 1])
    requires NoSpaceAfterPunct(t) && '[' !in t
    ensures Clean("## " + t) == RemoveAll(Lower(t), ModelQualifier)
  {
    var h, s1 := "## " + t, " " + t;
    HashHeading(t, h, s1);
    SpacedHasNoMarker(t, s1);
    StripLeadingSpace(t);
    CleanSteps(h, s1, s1, t, Lower(t), RemoveAll(Lower(t), ModelQualifier));
  }

  /** A space followed by a text without `[` holds no `[optional]`. */
  lemma SpacedHasNoMarker(t: string, s1: string)
    requires '[' !in t && s1 == " " + t
    ensures RemoveAll(s1, OptionalMarker) == s1
  {
    RemoveAllWithoutHead(s1, OptionalMarker);
  }

  lemma LowerIs(s: string, r: string)
    requires s == "Model Details" && r == "model details"
    ensures Lower(s) == r
  {
  }

  lemma ModelDetailsTitle(t: string, h: string)
    requires t == "Model Details" && h == "## Model Details [optional]"
    ensures h == "## " + t + " " + OptionalMarker
    ensures IsWordChar(t[0]) && IsWordChar(t[|t| - 1]) && NoSpaceAfterPunct(t) && '[' !in t
  {
    forall i | 0 < i < |t| && t[i] == ' ' ensures IsWordChar(t[i - 1]) {
      assert i == 5;
    }
  }

  lemma DetailsFacts(s: string, r: string)
    requires s == "model details" && r == "details"
    ensures ModelQualifier[0] !in r && s == ModelQualifier + r
  {
  }

  /** The template heading `## Model Details [optional]` normalises to `details`. */
  lemma CleanModelDetails()
    ensures Clean("## Model Details [optional]") == "details"
  {
    DetailsFacts("model details", "details");
    ModelDetailsTitle("Model Details", "## Model Details [optional]");
    CleanOptionalHeading("Model Details");
    LowerIs("Model Details", "model details");
    DropMarkerAtStart("model details", ModelQualifier, "details");
  }

  lemma UsesShape(h: string, w: string, s1: string, a: string, d: string)
    requires h == "## Uses [Optional]" && w == "Uses [Optional]" && s1 == " Uses [Optional]"
    requires a == " Uses " && d == "Optional]"
    ensures h == "## " + w && s1 == " " + w && s1 == a + "[" + d
  {
  }

  lemma UsesChars(w: string, a: string, d: string)
    requires w == "Uses [Optional]" && a == " Uses " && d == "Optional]"
    ensures IsWordChar(w[0]) && '[' !in a && '[' !in d && d != [] && d[0] == 'O'
    ensures !IsStripSpace(w[0]) && !IsStripSpace(w[|w| - 1])
  {
  }

  lemma UsesNoSpaceAfterPunct(w: string)
    requires w == "Uses [Optional]"
    ensures NoSpaceAfterPunct(w)
  {
    forall i | 0 < i < |w| && w[i] == ' ' ensures IsWordChar(w[i - 1]) {
      assert i == 4;
    }
  }

  lemma UsesLower(w: string, l: string)
    requires w == "Uses [Optional]" && l == "uses [optional]"
    ensures Lower(w) == l && ModelQualifier[0] !in l
  {
  }

  lemma UsesFacts(h: string, w: string, s1: string, a: string, d: string, l: string)
    requires h == "## Uses [Optional]" && w == "Uses [Optional]" && s1 == " Uses [Optional]"
    requires a == " Uses " && d == "Optional]" && l == "uses [optional]"
    ensures h == "## " + w && s1 == " " + w && s1 == a + "[" + d
    ensures IsWordChar(w[0]) && NoSpaceAfterPunct(w) && '[' !in a && '[' !in d && d != [] && d[0] == 'O'
    ensures !IsStripSpace(w[0]) && !IsStripSpace(w[|w| - 1]) && ModelQualifier[0] !in l
    ensures Lower(w) == l
  {
    UsesShape(h, w, s1, a, d);
    UsesChars(w, a, d);
    UsesNoSpaceAfterPunct(w);
    UsesLower(w, l);
  }

  /**
   * `[optional]` is removed case-sensitively and before lower-casing, so a
   * capitalised `[Optional]` survives, lower-cased.
   */
  lemma CleanKeepsCapitalisedOptional()
    ensures Clean("## Uses [Optional]") == "uses [optional]"
  {
    var h, w, s1 := "## Uses [Optional]", "Uses [Optional]", " Uses [Optional]";
    UsesFacts(h, w, s1, " Uses ", "Optional]", "uses [optional]");
    HashHeading(w, h, s1);
    CapitalisedMarkerStays(s1, " Uses ", "Optional]");
    StripLeadingSpace(w);
    RemoveAllWithoutHead("uses [optional]", ModelQualifier);
    CleanSteps(h, s1, s1, w, "uses [optional]", "uses [optional]");
  }

  lemma CleanPlainWord(h: string, t: string, l: string)
    requires t != [] && (forall k :: 0 <= k < |t| ==> IsWordChar(t[k])) && '[' !in t
    requires h == "## " + t && Lower(t) == l && ModelQualifier[0] !in l
    ensures Clean(h) == l
  {
    CleanPlainHeading(t);
    RemoveAllWithoutHead(l, ModelQualifier);
  }

  lemma OverviewFacts(t: string, l: string)
    requires t == "Overview" && l == "overview"
    ensures t != [] && (forall k :: 0 <= k < |t| ==> IsWordChar(t[k])) && '[' !in t
    ensures Lower(t) == l && ModelQualifier[0] !in l
  {
  }

  lemma LicenseFacts(t: string, l: string)
    requires t == "License" && l == "license"
    ensures t != [] && (forall k :: 0 <= k < |t| ==> IsWordChar(t[k])) && '[' !in t
    ensures Lower(t) == l && ModelQualifier[0] !in l
  {
  }

  /** `## Overview` normalises to `overview`. */
  lemma CleanOverview()
    ensures Clean("## Overview") == "overview"
  {
    OverviewFacts("Overview", "overview");
    CleanPlainWord("## Overview", "Overview", "overview");
  }

  /** `## License` normalises to `license`. */
  lemma CleanLicense()
    ensures Clean("## License") == "license"
  {
    LicenseFacts("License", "license");
    CleanPlainWord("## License", "License", "license");
  }
}
