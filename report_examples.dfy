/**
 * Whole-pipeline examples of the coverage report: the two-record corpus of
 * overview and license headings, and a card that repeats one heading.
 */
module ReportExamples {
  import opened Text
  import opened Normalise
  import opened NormaliseExamples
  import opened Coverage
  import opened Ranking
  import opened Missing

  /** The normalised headings of the two records, in corpus order. */
  lemma TwoRecordHeadings(o: string, l: string, co: string, cl: string, a: string, b: string)
    requires Clean(o) == co && Clean(l) == cl
    ensures AllCleaned([Record(a, [o, l]), Record(b, [o])]) == [co, cl, co]
    ensures CleanAll([o]) == [co]
  {
    var corpus := [Record(a, [o, l]), Record(b, [o])];
    assert [o, l][..1] == [o] && [o][..0] == [];
    assert CleanAll([o][..0]) == [];
    assert CleanAll([o]) == [co];
    assert CleanAll([o, l]) == [co, cl];
    assert corpus[..1] == [Record(a, [o, l])] && corpus[..1][..0] == [];
    assert AllCleaned(corpus[..1][..0]) == [];
    assert AllCleaned(corpus[..1]) == [co, cl];
  }

  /** Counting `[co, cl, co]`: order of first appearance. */
  lemma TwoHeadingOrder(all: seq<string>, co: string, cl: string)
    requires all == [co, cl, co] && co != cl
    ensures FirstAppearance(all) == [co, cl]
  {
    assert all[..2] == [co, cl] && all[..2][..1] == [co] && all[..2][..1][..0] == [];
    assert FirstAppearance(all[..2][..1][..0]) == [];
    assert FirstAppearance(all[..2][..1]) == [co];
    assert FirstAppearance(all[..2]) == [co, cl];
  }

  /** Counting `[co, cl, co]`: the counts. */
  lemma TwoHeadingCounts(all: seq<string>, co: string, cl: string)
    requires all == [co, cl, co] && co != cl
    ensures CountsOf(all) == map[co := 2, cl := 1]
  {
    assert multiset(all) == multiset{co, cl, co};
    assert Occurrences(all, co) == 2 && Occurrences(all, cl) == 1;
    assert CountsOf(all).Keys == {co, cl};
  }

  /** Ranking the two items: already in descending order. */
  lemma TwoItemsRanked(co: string, cl: string)
    requires co != cl
    ensures Items([co, cl], map[co := 2, cl := 1]) == [Entry(co, 2), Entry(cl, 1)]
    ensures SortByCount([Entry(co, 2), Entry(cl, 1)]) == [Entry(co, 2), Entry(cl, 1)]
  {
    var items := [Entry(co, 2), Entry(cl, 1)];
    assert items[1..] == [Entry(cl, 1)] && items[1..][1..] == [];
    assert SortByCount([Entry(cl, 1)]) == InsertByCount(Entry(cl, 1), []) == [Entry(cl, 1)];
    assert SortByCount(items) == InsertByCount(Entry(co, 2), [Entry(cl, 1)]);
  }

  /** The record `b` lacks only `cl`. */
  lemma TwoItemsMissing(co: string, cl: string)
    requires co != cl
    ensures MissingFrom([Entry(co, 2), Entry(cl, 1)], [co]) == [Entry(cl, 1)]
    ensures Gaps(MissingFrom([Entry(co, 2), Entry(cl, 1)], [co]), 2) == [Gap(cl, 1, 2)]
  {
    var items := [Entry(co, 2), Entry(cl, 1)];
    assert items[..1] == [Entry(co, 2)] && items[..1][..0] == [];
    assert MissingFrom(items[..1], [co]) == MissingFrom([], [co]) + [];
  }

  /** Two records, each with headings. */
  lemma TwoRecordsWithCards(r1: Record, r2: Record)
    requires r1.headings != [] && r2.headings != []
    ensures ModelsWithCards([r1, r2]) == 2
  {
    assert [r1, r2][..1] == [r1] && [r1, r2][..1][..0] == [];
    assert ModelsWithCards([r1, r2][..1][..0]) == 0;
    assert ModelsWithCards([r1, r2][..1]) == 1;
  }

  /** The counts and the top ten of the two-record corpus. */
  lemma TwoRecordRanking(o: string, l: string, co: string, cl: string, a: string, b: string)
    requires Clean(o) == co && Clean(l) == cl && co != cl
    ensures Counts([Record(a, [o, l]), Record(b, [o])]) == map[co := 2, cl := 1]
    ensures TopK([Record(a, [o, l]), Record(b, [o])], 10) == [Entry(co, 2), Entry(cl, 1)]
    ensures CleanAll([o]) == [co]
  {
    var corpus := [Record(a, [o, l]), Record(b, [o])];
    TwoRecordHeadings(o, l, co, cl, a, b);
    TwoHeadingOrder(AllCleaned(corpus), co, cl);
    TwoHeadingCounts(AllCleaned(corpus), co, cl);
    TwoItemsRanked(co, cl);
    assert Ranked(corpus) == [Entry(co, 2), Entry(cl, 1)];
  }

  /** The report for a selected record, once its parts are known. */
  lemma ReportFromParts(corpus: seq<Record>, selected: string, k: int, i: nat,
                        present: seq<string>, top: seq<Entry>, withCards: nat)
    requires FirstWithId(corpus, selected) == Some(i)
    requires CleanAll(corpus[i].headings) == present
    requires TopK(corpus, k) == top && ModelsWithCards(corpus) == withCards
    ensures ReportOf(corpus, selected, k)
      == Ok(Report(present, Gaps(MissingFrom(top, present), withCards), |corpus|, withCards))
  {
  }

  /** The second of two records with different identifiers is the one selected by its identifier. */
  lemma SecondRecordSelected(r1: Record, r2: Record)
    requires r1.id != r2.id
    ensures FirstWithId([r1, r2], r2.id) == Some(1)
  {
    assert [r1, r2][1..] == [r2];
  }

  /** Assembling the report for the second record once the top ten and its headings are known. */
  lemma TwoRecordAssembly(r1: Record, r2: Record, co: string, cl: string)
    requires TopK([r1, r2], 10) == [Entry(co, 2), Entry(cl, 1)]
    requires CleanAll(r2.headings) == [co] && co != cl && r1.id != r2.id
    requires r1.headings != [] && r2.headings != []
    ensures ReportOf([r1, r2], r2.id, 10) == Ok(Report([co], [Gap(cl, 1, 2)], 2, 2))
  {
    TwoItemsMissing(co, cl);
    TwoRecordsWithCards(r1, r2);
    SecondRecordSelected(r1, r2);
    ReportFromParts([r1, r2], r2.id, 10, 1, [co], [Entry(co, 2), Entry(cl, 1)], 2);
  }

  /**
   * Records `a: [o, l]` and `b: [o]` with distinct normalised headings `co`
   * and `cl`: `co` is counted twice and `cl` once, and record `b` lacks `cl`,
   * which both records with headings could show (a share of 1 in 2).
   */
  lemma TwoRecordReport(o: string, l: string, co: string, cl: string, a: string, b: string)
    requires Clean(o) == co && Clean(l) == cl && co != cl && a != b
    ensures Counts([Record(a, [o, l]), Record(b, [o])]) == map[co := 2, cl := 1]
    ensures ReportOf([Record(a, [o, l]), Record(b, [o])], b, 10)
      == Ok(Report([co], [Gap(cl, 1, 2)], 2, 2))
  {
    TwoRecordRanking(o, l, co, cl, a, b);
    TwoRecordAssembly(Record(a, [o, l]), Record(b, [o]), co, cl);
  }

  /**
   * The end-to-end example: over `a: ["## Overview", "## License"]` and
   * `b: ["## Overview"]`, overview is counted twice and license once, and
   * record `b` is missing license, shown by 1 of the 2 records with headings
   * (50.0%).
   */
  lemma OverviewLicenseReport()
    ensures Counts([Record("a", ["## Overview", "## License"]), Record("b", ["## Overview"])])
      == map["overview" := 2, "license" := 1]
    ensures ReportOf([Record("a", ["## Overview", "## License"]), Record("b", ["## Overview"])], "b", 10)
      == Ok(Report(["overview"], [Gap("license", 1, 2)], 2, 2))
  {
    CleanOverview();
    CleanLicense();
    assert "overview" != "license" by {
      assert "overview"[0] != "license"[0];
    }
    assert "a" != "b" by {
      assert "a"[0] != "b"[0];
    }
    TwoRecordReport("## Overview", "## License", "overview", "license", "a", "b");
  }

  /** The normalised headings of a record repeating one heading three times. */
  lemma RepeatedHeadings(x: string, cx: string, a: string, b: string)
    requires Clean(x) == cx
    ensures AllCleaned([Record(a, [x, x, x]), Record(b, [])]) == [cx, cx, cx]
  {
    var corpus := [Record(a, [x, x, x]), Record(b, [])];
    assert [x, x, x][..2] == [x, x] && [x, x][..1] == [x] && [x][..0] == [];
    assert CleanAll([x][..0]) == [];
    assert CleanAll([x]) == [cx];
    assert CleanAll([x, x]) == [cx, cx];
    assert CleanAll([x, x, x]) == [cx, cx, cx];
    assert corpus[..1] == [Record(a, [x, x, x])] && corpus[..1][..0] == [];
    assert AllCleaned(corpus[..1][..0]) == [];
    assert AllCleaned(corpus[..1]) == [cx, cx, cx];
    assert CleanAll([]) == [];
  }

  /** Counting `[cx, cx, cx]`: one key. */
  lemma RepeatedOrder(all: seq<string>, cx: string)
    requires all == [cx, cx, cx]
    ensures FirstAppearance(all) == [cx]
  {
    assert all[..2] == [cx, cx] && all[..2][..1] == [cx] && all[..2][..1][..0] == [];
    assert FirstAppearance(all[..2][..1][..0]) == [];
    assert FirstAppearance(all[..2][..1]) == [cx];
    assert FirstAppearance(all[..2]) == [cx];
  }

  /** Counting `[cx, cx, cx]`: the count is 3. */
  lemma RepeatedCounts(all: seq<string>, cx: string)
    requires all == [cx, cx, cx]
    ensures CountsOf(all) == map[cx := 3]
  {
    assert multiset(all) == multiset{cx, cx, cx};
    assert Occurrences(all, cx) == 3;
    assert CountsOf(all).Keys == {cx};
  }

  /** Ranking a single entry, and the selected record lacking it. */
  lemma SingleEntryRanked(cx: string)
    ensures SortByCount(Items([cx], map[cx := 3])) == [Entry(cx, 3)]
    ensures MissingFrom([Entry(cx, 3)], []) == [Entry(cx, 3)]
  {
    var items := Items([cx], map[cx := 3]);
    assert items == [Entry(cx, 3)] && items[1..] == [];
    assert [Entry(cx, 3)][..0] == [];
  }

  /** Counting and ranking `[cx, cx, cx]`. */
  lemma RepeatedRanking(all: seq<string>, cx: string)
    requires all == [cx, cx, cx]
    ensures FirstAppearance(all) == [cx]
    ensures CountsOf(all) == map[cx := 3]
    ensures SortByCount(Items([cx], map[cx := 3])) == [Entry(cx, 3)]
    ensures MissingFrom([Entry(cx, 3)], []) == [Entry(cx, 3)]
  {
    RepeatedOrder(all, cx);
    RepeatedCounts(all, cx);
    SingleEntryRanked(cx);
  }

  /** One of the two records has headings, and the second is selected by its identifier. */
  lemma RepeatedSelection(r1: Record, r2: Record)
    requires r1.headings != [] && r2.headings == [] && r1.id != r2.id
    ensures ModelsWithCards([r1, r2]) == 1
    ensures FirstWithId([r1, r2], r2.id) == Some(1)
  {
    var corpus := [r1, r2];
    assert corpus[..1] == [r1] && corpus[..1][..0] == [];
    assert ModelsWithCards(corpus[..1][..0]) == 0;
    assert ModelsWithCards(corpus[..1]) == 1;
    SecondRecordSelected(r1, r2);
  }

  /** The top ten of a corpus whose normalised headings are `[cx, cx, cx]`. */
  lemma RepeatedTop(corpus: seq<Record>, cx: string)
    requires AllCleaned(corpus) == [cx, cx, cx]
    ensures TopK(corpus, 10) == [Entry(cx, 3)]
  {
    RepeatedRanking(AllCleaned(corpus), cx);
    assert Ranked(corpus) == [Entry(cx, 3)];
  }

  /** Assembling the report for `b` once the normalised headings are known. */
  lemma RepeatedAssembly(x: string, cx: string, a: string, b: string)
    requires AllCleaned([Record(a, [x, x, x]), Record(b, [])]) == [cx, cx, cx] && a != b
    ensures ReportOf([Record(a, [x, x, x]), Record(b, [])], b, 10)
      == Ok(Report([], [Gap(cx, 3, 1)], 2, 1))
  {
    var corpus := [Record(a, [x, x, x]), Record(b, [])];
    RepeatedTop(corpus, cx);
    RepeatedSelection(corpus[0], corpus[1]);
    SingleEntryRanked(cx);
    assert CleanAll(corpus[1].headings) == [];
    assert Gaps([Entry(cx, 3)], 1) == [Gap(cx, 3, 1)];
    ReportFromParts(corpus, b, 10, 1, [], [Entry(cx, 3)], 1);
  }

  /**
   * A card that repeats a heading counts it once per occurrence: over
   * `a: [x, x, x]` and `b: []`, record `b` is reported to lack the heading
   * with a count of 3 over a denominator of 1, a share of 300%.
   */
  lemma RepeatedHeadingExceedsWhole(x: string, a: string, b: string)
    requires a != b
    ensures ReportOf([Record(a, [x, x, x]), Record(b, [])], b, 10)
      == Ok(Report([], [Gap(Clean(x), 3, 1)], 2, 1))
  {
    RepeatedHeadings(x, Clean(x), a, b);
    RepeatedAssembly(x, Clean(x), a, b);
  }
}
