/**
 * The non-display part of `_clean_model_headers`: count and rank the
 * headings of the corpus, pick the selected record, and list the top-ranked
 * headings it lacks, each with its count and the number of records that have
 * any heading at all (the denominator of the displayed percentage).
 *
 * The percentage `count * 100 / total_models_with_cards` is kept as the pair
 * (count, denominator); the record picked in the sidebar is a parameter.
 */
module Missing {
  import opened Text
  import opened Coverage
  import opened Ranking

  /** The two ways the computation can fail in the source. */
  datatype Error =
    | NoSuchModel   // `[...][0]` on an empty list: no record has the selected identifier
    | ZeroDivision  // `prop*100/total_models_with_cards` with no record having a heading

  datatype Outcome<T> = Ok(value: T) | Failed(error: Error)

  /** Index of the first record whose identifier is `selected`. */
  function FirstWithId(corpus: seq<Record>, selected: string): (r: Option<nat>)
    ensures r.None? ==> forall i :: 0 <= i < |corpus| ==> corpus[i].id != selected
    ensures r.Some? ==> r.value < |corpus| && corpus[r.value].id == selected
    ensures r.Some? ==> forall i :: 0 <= i < r.value ==> corpus[i].id != selected
  {
    if corpus == [] then None
    else if corpus[0].id == selected then Some(0)
    else match FirstWithId(corpus[1..], selected)
      case None => None
      case Some(i) => Some(i + 1)
  }

  /** `[s for s in headers if model_card == id(s)][0][model_card]`. */
  function SelectedHeadings(corpus: seq<Record>, selected: string): Option<seq<string>> {
    match FirstWithId(corpus, selected)
    case None => None
    case Some(i) => Some(corpus[i].headings)
  }

  /**
   * The selection fails exactly when no record has the identifier (an empty
   * corpus included); otherwise it yields the headings of the first record
   * that has it.
   */
  lemma SelectedHeadingsSpec(corpus: seq<Record>, selected: string)
    ensures SelectedHeadings(corpus, selected).None? <==>
      forall i :: 0 <= i < |corpus| ==> corpus[i].id != selected
    ensures SelectedHeadings(corpus, selected).Some? ==>
      exists i :: && 0 <= i < |corpus| && corpus[i].id == selected
                  && SelectedHeadings(corpus, selected).value == corpus[i].headings
                  && forall j :: 0 <= j < i ==> corpus[j].id != selected
  {
    match FirstWithId(corpus, selected)
    case None =>
    case Some(i) =>
      assert corpus[i].headings == SelectedHeadings(corpus, selected).value;
  }

  /** The top-ranked entries whose heading is not among `present`, in rank order. */
  function MissingFrom(top: seq<Entry>, present: seq<string>): (r: seq<Entry>)
    ensures forall e :: e in r <==> e in top && e.heading !in present
  {
    if top == [] then []
    else
      var e := top[|top| - 1];
      MissingFrom(top[..|top| - 1], present) + (if e.heading in present then [] else [e])
  }

  /**
   * Dropping the present headings and picking the entries of one count can be
   * done in either order: among equal counts the missing entries keep their
   * relative order in `top`.
   */
  lemma {:induction false} MissingFromKeepsTieOrder(top: seq<Entry>, present: seq<string>, c: nat)
    ensures WithCount(MissingFrom(top, present), c) == MissingFrom(WithCount(top, c), present)
  {
    if top != [] {
      var init, e := top[..|top| - 1], top[|top| - 1];
      MissingFromKeepsTieOrder(init, present, c);
      TieOrderStep(top, init, e, present, c);
    }
  }

  /** The step of `MissingFromKeepsTieOrder`: one more entry at the end of `top`. */
  lemma TieOrderStep(top: seq<Entry>, init: seq<Entry>, e: Entry, present: seq<string>, c: nat)
    requires top != [] && init == top[..|top| - 1] && e == top[|top| - 1]
    requires WithCount(MissingFrom(init, present), c) == MissingFrom(WithCount(init, c), present)
    ensures WithCount(MissingFrom(top, present), c) == MissingFrom(WithCount(top, c), present)
  {
    var kept := if e.heading in present then [] else [e];
    var w := WithCount(init, c);
    assert MissingFrom(top, present) == MissingFrom(init, present) + kept;
    WithCountAppend(MissingFrom(init, present), kept, c);
    assert top == init + [e];
    WithCountAppend(init, [e], c);
    WithCountSingle(e, c);
    if e.count == c {
      assert WithCount(top, c) == w + [e];
      assert (w + [e])[..|w|] == w;
      assert WithCount(kept, c) == kept;
    } else {
      assert WithCount(top, c) == w;
      assert WithCount(kept, c) == [];
    }
  }

  /**
   * Dropping the present headings keeps the rank order: counts still never
   * increase, and entries with equal count stay in their order in `top`.
   */
  lemma {:induction false} MissingFromKeepsRankOrder(top: seq<Entry>, present: seq<string>)
    requires NonIncreasing(top)
    ensures NonIncreasing(MissingFrom(top, present))
    ensures forall c :: WithCount(MissingFrom(top, present), c) == MissingFrom(WithCount(top, c), present)
  {
    forall c ensures WithCount(MissingFrom(top, present), c) == MissingFrom(WithCount(top, c), present) {
      MissingFromKeepsTieOrder(top, present, c);
    }
    if top != [] {
      var init := top[..|top| - 1];
      var e := top[|top| - 1];
      MissingFromKeepsRankOrder(init, present);
      var m := MissingFrom(init, present);
      var r := MissingFrom(top, present);
      forall i, j | 0 <= i < j < |r| ensures r[i].count >= r[j].count {
        if j == |m| {
          assert r[i] in m;
          var k :| 0 <= k < |init| && init[k] == r[i];
        }
      }
    }
  }

  /** A missing heading with its count and the denominator of its percentage. */
  datatype Gap = Gap(heading: string, count: nat, denominator: nat)

  function Gaps(es: seq<Entry>, denominator: nat): (r: seq<Gap>)
    ensures |r| == |es|
    ensures forall i :: 0 <= i < |es| ==> r[i] == Gap(es[i].heading, es[i].count, denominator)
  {
    seq(|es|, i requires 0 <= i < |es| => Gap(es[i].heading, es[i].count, denominator))
  }

  /** The heading and count of each gap. */
  function GapEntries(gs: seq<Gap>): (r: seq<Entry>)
    ensures |r| == |gs|
    ensures forall i :: 0 <= i < |gs| ==> r[i] == Entry(gs[i].heading, gs[i].count)
  {
    seq(|gs|, i requires 0 <= i < |gs| => Entry(gs[i].heading, gs[i].count))
  }

  /** Attaching a denominator and taking it off again gives the entries back. */
  lemma GapEntriesOfGaps(es: seq<Entry>, denominator: nat)
    ensures GapEntries(Gaps(es, denominator)) == es
  {
    var r := GapEntries(Gaps(es, denominator));
    assert forall i :: 0 <= i < |es| ==> r[i] == es[i];
  }

  /**
   * The loop that builds `missing`: for each top-ranked heading absent from
   * the selected record, the percentage is computed, which fails when the
   * denominator is 0.
   */
  method CollectMissing(top: seq<Entry>, present: seq<string>, withCards: nat) returns (r: Outcome<seq<Gap>>)
    ensures r.Failed? <==> withCards == 0 && MissingFrom(top, present) != []
    ensures r.Failed? ==> r.error == ZeroDivision
    ensures r.Ok? ==> r.value == Gaps(MissingFrom(top, present), withCards)
  {
    var missing: seq<Gap> := [];
    for i := 0 to |top|
      invariant missing == Gaps(MissingFrom(top[..i], present), withCards)
      invariant withCards == 0 ==> MissingFrom(top[..i], present) == []
    {
      assert top[..i + 1][..i] == top[..i];
      if top[i].heading !in present {
        if withCards == 0 {
          assert top[i] in MissingFrom(top, present);
          return Failed(ZeroDivision);
        }
        missing := missing + [Gap(top[i].heading, top[i].count, withCards)];
      }
    }
    assert top[..|top|] == top;
    return Ok(missing);
  }

  /** What the coverage panel shows for the selected record. */
  datatype Report = Report(present: seq<string>, missing: seq<Gap>, totalModels: nat, modelsWithCards: nat)

  /** The intended result: the selected record's headings and the top-`k` headings it lacks. */
  function ReportOf(corpus: seq<Record>, selected: string, k: int): Outcome<Report> {
    match SelectedHeadings(corpus, selected)
    case None => Failed(NoSuchModel)
    case Some(hs) =>
      var present := CleanAll(hs);
      var withCards := ModelsWithCards(corpus);
      Ok(Report(present, Gaps(MissingFrom(TopK(corpus, k), present), withCards), |corpus|, withCards))
  }

  /**
   * With nothing loaded there is no record to select: the selection itself
   * fails, before any percentage is computed.
   */
  lemma EmptyCorpusHasNoSelection(selected: string, k: int)
    ensures ReportOf([], selected, k) == Failed(NoSuchModel)
    ensures TopK([], k) == []
  {
    assert AllCleaned([]) == [];
  }

  /** Every top-ranked heading comes from some record that has headings. */
  lemma TopKHasCards(corpus: seq<Record>, k: int)
    ensures TopK(corpus, k) != [] ==> ModelsWithCards(corpus) >= 1
  {
    var t := TopK(corpus, k);
    if t != [] {
      var e := t[0];
      assert e in Ranked(corpus);
      RankedEntries(corpus, e);
      OccurringHeadingHasCard(corpus, e.heading);
    }
  }

  /**
   * `_clean_model_headers` up to the display: the division by
   * `total_models_with_cards` never fails, so the only failure is an
   * identifier no record has.
   */
  method CoverageReport(corpus: seq<Record>, selected: string, k: int) returns (r: Outcome<Report>)
    ensures r == ReportOf(corpus, selected, k)
    ensures r.Failed? ==> r.error == NoSuchModel
  {
    var order, count := Tally(corpus);
    FirstAppearanceSpec(AllCleaned(corpus));
    var top := Take(SortByCount(Items(order, count)), k);
    var totalModels := |corpus|;
    var withCards := ModelsWithCards(corpus);
    var selectedHeadings := SelectedHeadings(corpus, selected);
    if selectedHeadings.None? {
      return Failed(NoSuchModel);
    }
    var present := CleanAll(selectedHeadings.value);
    TopKHasCards(corpus, k);
    assert withCards == 0 ==> MissingFrom(top, present) == [];
    var missing := CollectMissing(top, present, withCards);
    assert missing.Ok?;
    return Ok(Report(present, missing.value, totalModels, withCards));
  }

  /**
   * Every reported gap has a top-ranked heading the selected record lacks,
   * a count of at least 1, and a denominator between 1 and the number of
   * records.
   */
  lemma ReportGapsAreSound(corpus: seq<Record>, selected: string, k: int, g: Gap)
    requires ReportOf(corpus, selected, k).Ok?
    requires g in ReportOf(corpus, selected, k).value.missing
    ensures g.heading !in ReportOf(corpus, selected, k).value.present
    ensures Entry(g.heading, g.count) in TopK(corpus, k)
    ensures g.count >= 1
    ensures 1 <= g.denominator <= |corpus|
  {
    var rep := ReportOf(corpus, selected, k).value;
    var m := MissingFrom(TopK(corpus, k), rep.present);
    var i :| 0 <= i < |rep.missing| && rep.missing[i] == g;
    var e := m[i];
    assert e in TopK(corpus, k);
    TopKHasCards(corpus, k);
    ModelsWithCardsBound(corpus);
    assert e in Ranked(corpus);
    RankedEntries(corpus, e);
    CountsSumToHeadings(corpus);
  }

  /**
   * The gaps come in rank order: their counts never increase, and the gaps
   * of any one count are the top-ranked entries of that count the record
   * lacks, in order of first appearance in the corpus.
   */
  lemma ReportGapsInRankOrder(corpus: seq<Record>, selected: string, k: int)
    requires ReportOf(corpus, selected, k).Ok?
    ensures var gs := ReportOf(corpus, selected, k).value.missing;
            forall i, j :: 0 <= i < j < |gs| ==> gs[i].count >= gs[j].count
    ensures var rep := ReportOf(corpus, selected, k).value;
            forall c :: WithCount(GapEntries(rep.missing), c) == MissingFrom(WithCount(TopK(corpus, k), c), rep.present)
    ensures forall c :: WithCount(TopK(corpus, k), c) <= WithCount(CorpusItems(corpus), c)
  {
    var rep := ReportOf(corpus, selected, k).value;
    TopKSpec(corpus, k);
    MissingFromKeepsRankOrder(TopK(corpus, k), rep.present);
    GapEntriesOfGaps(MissingFrom(TopK(corpus, k), rep.present), rep.modelsWithCards);
  }

  /**
   * When no record lists the same normalised heading twice, each reported
   * share `count / denominator` is at most one, i.e. at most 100%.
   */
  lemma ReportShareAtMostWhole(corpus: seq<Record>, selected: string, k: int, g: Gap)
    requires forall r :: r in corpus ==> Distinct(CleanAll(r.headings))
    requires ReportOf(corpus, selected, k).Ok?
    requires g in ReportOf(corpus, selected, k).value.missing
    ensures g.count <= g.denominator
  {
    ReportGapsAreSound(corpus, selected, k, g);
    assert Entry(g.heading, g.count) in Ranked(corpus);
    RankedEntries(corpus, Entry(g.heading, g.count));
    CountAtMostModelsWithCards(corpus, g.heading);
  }
}
