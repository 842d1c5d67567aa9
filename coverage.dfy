/**
 * The frequency counter `_get_model_header_proportions`: over a corpus of
 * loaded records it counts how often each normalised heading occurs.  The
 * result is an insertion-ordered dictionary, modelled here as the sequence of
 * its keys in insertion order together with the map from key to count.
 */
module Coverage {
  import opened Normalise

  /** One loaded record `{identifier: [raw headings]}`. */
  datatype Record = Record(id: string, headings: seq<string>)

  /** `[_clean_single_header(s) for s in hs]`. */
  function CleanAll(hs: seq<string>): (r: seq<string>)
    ensures |r| == |hs|
  {
    if hs == [] then [] else CleanAll(hs[..|hs| - 1]) + [Clean(hs[|hs| - 1])]
  }

  /** The `i`-th normalised heading is the `i`-th heading, normalised. */
  lemma CleanAllElements(hs: seq<string>)
    ensures forall i :: 0 <= i < |hs| ==> CleanAll(hs)[i] == Clean(hs[i])
  {
    forall i | 0 <= i < |hs| ensures CleanAll(hs)[i] == Clean(hs[i]) {
      CleanAllAt(hs, i);
    }
  }

  lemma {:induction false} CleanAllAt(hs: seq<string>, i: nat)
    requires i < |hs|
    ensures CleanAll(hs)[i] == Clean(hs[i])
  {
    if i < |hs| - 1 {
      CleanAllInit(hs, i);
      CleanAllAt(hs[..|hs| - 1], i);
    } else {
      CleanAllLast(hs);
    }
  }

  lemma CleanAllInit(hs: seq<string>, i: nat)
    requires i < |hs| - 1
    ensures CleanAll(hs)[i] == CleanAll(hs[..|hs| - 1])[i] && hs[i] == hs[..|hs| - 1][i]
  {
  }

  lemma CleanAllLast(hs: seq<string>)
    requires hs != []
    ensures CleanAll(hs)[|hs| - 1] == Clean(hs[|hs| - 1])
  {
  }

  /** Every normalised heading of the corpus, record after record, in order. */
  function AllCleaned(corpus: seq<Record>): seq<string> {
    if corpus == [] then []
    else AllCleaned(corpus[..|corpus| - 1]) + CleanAll(corpus[|corpus| - 1].headings)
  }

  /** Number of raw headings in the corpus. */
  function RawHeadingCount(corpus: seq<Record>): nat {
    if corpus == [] then 0
    else RawHeadingCount(corpus[..|corpus| - 1]) + |corpus[|corpus| - 1].headings|
  }

  /** How many times `h` occurs in `s`. */
  function Occurrences(s: seq<string>, h: string): nat {
    multiset(s)[h]
  }

  predicate Distinct(s: seq<string>) {
    forall i, j :: 0 <= i < j < |s| ==> s[i] != s[j]
  }

  /** The distinct elements of `s`, in the order in which they first appear. */
  function FirstAppearance(s: seq<string>): seq<string> {
    if s == [] then []
    else
      var d := FirstAppearance(s[..|s| - 1]);
      if s[|s| - 1] in d then d else d + [s[|s| - 1]]
  }

  /** The keys in insertion order are exactly the headings seen, each once. */
  lemma {:induction false} FirstAppearanceSpec(s: seq<string>)
    ensures forall x :: x in FirstAppearance(s) <==> x in s
    ensures Distinct(FirstAppearance(s))
  {
    if s != [] {
      var init := s[..|s| - 1];
      FirstAppearanceSpec(init);
      assert s == init + [s[|s| - 1]];
    }
  }

  /** Each distinct element of `seen` mapped to its number of occurrences. */
  function CountsOf(seen: seq<string>): map<string, nat> {
    map h | h in seen :: Occurrences(seen, h)
  }

  /** The dictionary the counter builds: each normalised heading to its occurrence count. */
  function Counts(corpus: seq<Record>): map<string, nat> {
    CountsOf(AllCleaned(corpus))
  }

  /** One more occurrence appended to the seen headings. */
  lemma FirstAppearanceSnoc(s: seq<string>, x: string)
    ensures FirstAppearance(s + [x]) ==
      if x in s then FirstAppearance(s) else FirstAppearance(s) + [x]
  {
    assert (s + [x])[..|s|] == s;
    FirstAppearanceSpec(s);
  }

  /** One `headers_dict[header] += 1` keeps the dictionary in step with the headings seen. */
  lemma CountsOfSnoc(seen: seq<string>, h: string)
    ensures CountsOf(seen + [h]) ==
      CountsOf(seen)[h := (if h in CountsOf(seen) then CountsOf(seen)[h] else 0) + 1]
  {
    assert multiset(seen + [h]) == multiset(seen) + multiset{h};
  }

  /**
   * One iteration of the inner loop: looking `h` up in the dictionary of the
   * headings seen so far and storing the incremented count gives the
   * dictionary of those headings followed by `h`.
   */
  lemma CountStep(order: seq<string>, count: map<string, nat>, seen: seq<string>, h: string)
    requires order == FirstAppearance(seen) && count == CountsOf(seen)
    ensures (if h in count then order else order + [h]) == FirstAppearance(seen + [h])
    ensures count[h := (if h in count then count[h] else 0) + 1] == CountsOf(seen + [h])
  {
    assert h in count <==> h in seen;
    FirstAppearanceSnoc(seen, h);
    CountsOfSnoc(seen, h);
  }

  /**
   * The inner loop of `_get_model_header_proportions` over one record's
   * normalised headings: each one bumps its count.
   */
  method CountHeadings(order: seq<string>, count: map<string, nat>, ghost seen: seq<string>, clean: seq<string>)
    returns (order': seq<string>, count': map<string, nat>)
    requires order == FirstAppearance(seen) && count == CountsOf(seen)
    ensures order' == FirstAppearance(seen + clean) && count' == CountsOf(seen + clean)
  {
    order', count' := order, count;
    assert seen + clean[..0] == seen;
    for j := 0 to |clean|
      invariant order' == FirstAppearance(seen + clean[..j])
      invariant count' == CountsOf(seen + clean[..j])
    {
      var h := clean[j];
      ghost var before := seen + clean[..j];
      CountStep(order', count', before, h);
      PrefixSnoc(seen, clean, j);
      // Reading a missing key of the defaultdict inserts it with 0, at the end
      // of the insertion order; the write then stores the incremented count.
      order', count' :=
        (if h in count' then order' else order' + [h]),
        count'[h := (if h in count' then count'[h] else 0) + 1];
    }
    assert clean[..|clean|] == clean;
  }

  /** Extending the prefix of `clean` by one heading appends that heading. */
  lemma PrefixSnoc(seen: seq<string>, clean: seq<string>, j: nat)
    requires j < |clean|
    ensures seen + clean[..j + 1] == (seen + clean[..j]) + [clean[j]]
  {
    assert clean[..j + 1] == clean[..j] + [clean[j]];
  }

  /** `_get_model_header_proportions`: the loop over the records of the corpus. */
  method Tally(corpus: seq<Record>) returns (order: seq<string>, count: map<string, nat>)
    ensures order == FirstAppearance(AllCleaned(corpus))
    ensures count == Counts(corpus)
  {
    order, count := [], map[];
    for i := 0 to |corpus|
      invariant order == FirstAppearance(AllCleaned(corpus[..i]))
      invariant count == CountsOf(AllCleaned(corpus[..i]))
    {
      assert corpus[..i + 1][..i] == corpus[..i];
      order, count := CountHeadings(order, count, AllCleaned(corpus[..i]), CleanAll(corpus[i].headings));
    }
    assert corpus[..|corpus|] == corpus;
  }

  /** The normalised list of a corpus holds as many headings as the corpus has raw ones. */
  lemma {:induction false} AllCleanedLength(corpus: seq<Record>)
    ensures |AllCleaned(corpus)| == RawHeadingCount(corpus)
  {
    if corpus != [] {
      AllCleanedLength(corpus[..|corpus| - 1]);
    }
  }

  /** Sum of the occurrence counts of `keys` in `s`. */
  function SumOccurrences(keys: seq<string>, s: seq<string>): nat {
    if keys == [] then 0
    else SumOccurrences(keys[..|keys| - 1], s) + Occurrences(s, keys[|keys| - 1])
  }

  /** Appending `x` to `s` adds one to the sum exactly when `x` is one of the distinct keys. */
  lemma {:induction false} SumOccurrencesSnoc(keys: seq<string>, s: seq<string>, x: string)
    requires Distinct(keys)
    ensures SumOccurrences(keys, s + [x]) == SumOccurrences(keys, s) + (if x in keys then 1 else 0)
  {
    if keys != [] {
      var init := keys[..|keys| - 1];
      assert x in keys <==> x in init || x == keys[|keys| - 1];
      assert keys[|keys| - 1] !in init;
      SumOccurrencesSnoc(init, s, x);
      assert multiset(s + [x]) == multiset(s) + multiset{x};
    }
  }

  /** Counting each distinct element of `s` and adding up gives the length of `s`. */
  lemma {:induction false} SumOfFirstAppearances(s: seq<string>)
    ensures SumOccurrences(FirstAppearance(s), s) == |s|
  {
    if s != [] {
      var init, x := s[..|s| - 1], s[|s| - 1];
      assert s == init + [x];
      var d := FirstAppearance(init);
      FirstAppearanceSpec(init);
      SumOfFirstAppearances(init);
      FirstAppearanceSnoc(init, x);
      SumOccurrencesSnoc(d, init, x);
      if x !in init {
        assert (d + [x])[..|d|] == d;
        assert Occurrences(init, x) == 0;
      }
    }
  }

  /**
   * The counts: every key occurs at least once, each count is its number of
   * occurrences (duplicates inside one record included), and the counts add
   * up to the number of raw headings in the corpus.
   */
  lemma CountsSumToHeadings(corpus: seq<Record>)
    ensures forall h :: h in Counts(corpus) <==> h in AllCleaned(corpus)
    ensures forall h :: h in Counts(corpus) ==> Counts(corpus)[h] >= 1
    ensures SumOccurrences(FirstAppearance(AllCleaned(corpus)), AllCleaned(corpus))
      == RawHeadingCount(corpus)
  {
    SumOfFirstAppearances(AllCleaned(corpus));
    AllCleanedLength(corpus);
  }

  /** Number of records with at least one heading (`total_models_with_cards`). */
  function ModelsWithCards(corpus: seq<Record>): nat {
    if corpus == [] then 0
    else ModelsWithCards(corpus[..|corpus| - 1]) + (if |corpus[|corpus| - 1].headings| > 0 then 1 else 0)
  }

  /** The second denominator never exceeds the first (`total_models`). */
  lemma {:induction false} ModelsWithCardsBound(corpus: seq<Record>)
    ensures ModelsWithCards(corpus) <= |corpus|
  {
    if corpus != [] {
      ModelsWithCardsBound(corpus[..|corpus| - 1]);
    }
  }

  /** A heading that occurs anywhere comes from a record that has headings. */
  lemma {:induction false} OccurringHeadingHasCard(corpus: seq<Record>, h: string)
    requires h in AllCleaned(corpus)
    ensures ModelsWithCards(corpus) >= 1
  {
    var init := corpus[..|corpus| - 1];
    if h in AllCleaned(init) {
      OccurringHeadingHasCard(init, h);
    }
  }

  /** In a list without repetition each element occurs once. */
  lemma DistinctOccursAtMostOnce(c: seq<string>, h: string)
    requires Distinct(c)
    ensures Occurrences(c, h) == if h in c then 1 else 0
  {
    if h in c {
      var i :| 0 <= i < |c| && c[i] == h;
      assert c == c[..i] + [h] + c[i + 1..];
      assert h !in c[..i] && h !in c[i + 1..];
    }
  }

  /**
   * When no record lists the same normalised heading twice, a heading occurs
   * at most once per record with headings: its count never exceeds the
   * number of such records, so its share of them is at most 100%.
   */
  lemma {:induction false} CountAtMostModelsWithCards(corpus: seq<Record>, h: string)
    requires forall r :: r in corpus ==> Distinct(CleanAll(r.headings))
    ensures Occurrences(AllCleaned(corpus), h) <= ModelsWithCards(corpus)
  {
    if corpus != [] {
      var init, last := corpus[..|corpus| - 1], corpus[|corpus| - 1];
      assert forall r :: r in init ==> r in corpus;
      CountAtMostModelsWithCards(init, h);
      var c := CleanAll(last.headings);
      assert multiset(AllCleaned(corpus)) == multiset(AllCleaned(init)) + multiset(c);
      DistinctOccursAtMostOnce(c, h);
    }
  }
}
