/**
 * Ranking the heading counts, as `_clean_model_headers` does:
 * `sorted(proportions.items(), key=lambda x: x[1], reverse=True)[:top_k]`.
 * Python's sort is stable even with `reverse=True`, so headings with the same
 * count keep the dictionary's insertion order, that is, their order of first
 * appearance in the corpus.
 */
module Ranking {
  import opened Coverage

  /** One `(heading, count)` item of the dictionary. */
  datatype Entry = Entry(heading: string, count: nat)

  /** `proportions.items()`: the items in insertion order. */
  function Items(order: seq<string>, count: map<string, nat>): (r: seq<Entry>)
    requires forall h :: h in order ==> h in count
    ensures |r| == |order|
    ensures forall i :: 0 <= i < |r| ==> r[i] == Entry(order[i], count[order[i]])
  {
    seq(|order|, i requires 0 <= i < |order| => Entry(order[i], count[order[i]]))
  }

  /** Counts never increase along the sequence. */
  predicate NonIncreasing(s: seq<Entry>) {
    forall i, j :: 0 <= i < j < |s| ==> s[i].count >= s[j].count
  }

  /** The entries of `s` with count `c`, in their order in `s`. */
  function WithCount(s: seq<Entry>, c: nat): seq<Entry> {
    if s == [] then []
    else (if s[0].count == c then [s[0]] else []) + WithCount(s[1..], c)
  }

  /** Picking the entries of one count commutes with concatenation. */
  lemma {:induction false} WithCountAppend(a: seq<Entry>, b: seq<Entry>, c: nat)
    ensures WithCount(a + b, c) == WithCount(a, c) + WithCount(b, c)
  {
    if a != [] {
      WithCountAppend(a[1..], b, c);
      assert (a + b)[0] == a[0] && (a + b)[1..] == a[1..] + b;
    } else {
      assert a + b == b;
    }
  }

  lemma WithCountSingle(e: Entry, c: nat)
    ensures WithCount([e], c) == if e.count == c then [e] else []
  {
    assert [e][1..] == [];
  }

  /** The entries of one count in a prefix are a prefix of those in the whole. */
  lemma WithCountOfPrefix(s: seq<Entry>, n: nat, c: nat)
    requires n <= |s|
    ensures WithCount(s[..n], c) <= WithCount(s, c)
  {
    assert s == s[..n] + s[n..];
    WithCountAppend(s[..n], s[n..], c);
  }

  /** Inserts `e` before the first entry whose count is not larger. */
  function InsertByCount(e: Entry, s: seq<Entry>): seq<Entry> {
    if s == [] || s[0].count <= e.count then [e] + s
    else [s[0]] + InsertByCount(e, s[1..])
  }

  /** Stable sort by descending count (insertion sort from the back). */
  function SortByCount(s: seq<Entry>): seq<Entry> {
    if s == [] then [] else InsertByCount(s[0], SortByCount(s[1..]))
  }

  lemma {:induction false} InsertByCountPermutes(e: Entry, s: seq<Entry>)
    ensures multiset(InsertByCount(e, s)) == multiset(s) + multiset{e}
  {
    if !(s == [] || s[0].count <= e.count) {
      InsertByCountPermutes(e, s[1..]);
      assert s == [s[0]] + s[1..];
    }
  }

  lemma {:induction false} InsertByCountSorted(e: Entry, s: seq<Entry>)
    requires NonIncreasing(s)
    ensures NonIncreasing(InsertByCount(e, s))
  {
    var r := InsertByCount(e, s);
    if s == [] || s[0].count <= e.count {
      forall i, j | 0 <= i < j < |r| ensures r[i].count >= r[j].count {
        if i == 0 {
          assert r[j] == s[j - 1];
        }
      }
    } else {
      var t := InsertByCount(e, s[1..]);
      InsertByCountSorted(e, s[1..]);
      InsertByCountPermutes(e, s[1..]);
      assert r[1..] == t;
      forall i, j | 0 <= i < j < |r| ensures r[i].count >= r[j].count {
        if i == 0 {
          assert r[j] in multiset(t);
          assert r[j] == e || r[j] in s[1..];
        }
      }
    }
  }

  lemma {:induction false} InsertByCountStable(e: Entry, s: seq<Entry>, c: nat)
    requires NonIncreasing(s)
    ensures WithCount(InsertByCount(e, s), c) ==
      if e.count == c then [e] + WithCount(s, c) else WithCount(s, c)
  {
    if s == [] || s[0].count <= e.count {
      assert ([e] + s)[1..] == s;
    } else {
      var t := InsertByCount(e, s[1..]);
      InsertByCountStable(e, s[1..], c);
      assert ([s[0]] + t)[1..] == t;
    }
  }

  /**
   * `sorted(items, key=count, reverse=True)`: the result is ordered by
   * non-increasing count, holds exactly the same entries, and entries with
   * equal count keep their original relative order.
   */
  lemma {:induction false} SortByCountSpec(s: seq<Entry>)
    ensures NonIncreasing(SortByCount(s))
    ensures multiset(SortByCount(s)) == multiset(s)
    ensures forall c :: WithCount(SortByCount(s), c) == WithCount(s, c)
  {
    if s != [] {
      var t := SortByCount(s[1..]);
      SortByCountSpec(s[1..]);
      InsertByCountSorted(s[0], t);
      InsertByCountPermutes(s[0], t);
      forall c ensures WithCount(SortByCount(s), c) == WithCount(s, c) {
        InsertByCountStable(s[0], t, c);
      }
      assert s == [s[0]] + s[1..];
    }
  }

  /** Python's `s[:k]`, negative `k` counting from the end. */
  function Take(s: seq<Entry>, k: int): (r: seq<Entry>)
    ensures r <= s
    ensures 0 <= k ==> |r| == if k < |s| then k else |s|
    ensures k < 0 ==> |r| == if |s| + k > 0 then |s| + k else 0
  {
    if k >= 0 then s[..if k < |s| then k else |s|]
    else s[..if |s| + k > 0 then |s| + k else 0]
  }

  /** The items of the counter's dictionary after the whole corpus, in insertion order. */
  function CorpusItems(corpus: seq<Record>): seq<Entry> {
    FirstAppearanceSpec(AllCleaned(corpus));
    Items(FirstAppearance(AllCleaned(corpus)), Counts(corpus))
  }

  /** The ranked items: every distinct heading with its count, highest first. */
  function Ranked(corpus: seq<Record>): seq<Entry> {
    SortByCount(CorpusItems(corpus))
  }

  /** The `top_k` most frequent headings. */
  function TopK(corpus: seq<Record>, k: int): seq<Entry> {
    Take(Ranked(corpus), k)
  }

  /** Membership in the ranking: exactly the headings of the corpus, each with its count. */
  lemma RankedEntries(corpus: seq<Record>, e: Entry)
    ensures e in Ranked(corpus) <==> e.heading in AllCleaned(corpus) && e.count == Counts(corpus)[e.heading]
  {
    var items := CorpusItems(corpus);
    FirstAppearanceSpec(AllCleaned(corpus));
    SortByCountSpec(items);
    assert e in Ranked(corpus) <==> e in multiset(items);
    if e.heading in AllCleaned(corpus) && e.count == Counts(corpus)[e.heading] {
      var d := FirstAppearance(AllCleaned(corpus));
      var i :| 0 <= i < |d| && d[i] == e.heading;
      assert items[i] == e;
    }
  }

  /**
   * Ties keep the order of first appearance: the ranked headings with any
   * given count are those of the insertion-ordered items with that count, in
   * the same order.
   */
  lemma RankedTiesKeepFirstAppearance(corpus: seq<Record>, c: nat)
    ensures WithCount(Ranked(corpus), c)
         == WithCount(CorpusItems(corpus), c)
  {
    SortByCountSpec(CorpusItems(corpus));
  }

  /** Every distinct heading of the corpus is ranked exactly once. */
  lemma RankedLength(corpus: seq<Record>)
    ensures |Ranked(corpus)| == |FirstAppearance(AllCleaned(corpus))|
  {
    var items := CorpusItems(corpus);
    SortByCountSpec(items);
    assert |multiset(Ranked(corpus))| == |multiset(items)|;
  }

  /** A prefix of a sequence sorted by count is sorted and dominates the rest. */
  lemma TakeOfSorted(s: seq<Entry>, k: int)
    requires NonIncreasing(s)
    ensures NonIncreasing(Take(s, k))
    ensures forall i, j :: 0 <= i < |Take(s, k)| <= j < |s| ==> s[j].count <= Take(s, k)[i].count
  {
    var t := Take(s, k);
    assert t == s[..|t|];
  }

  /**
   * The top `k` (for `k >= 0`) are `min(k, distinct headings)` entries, in
   * non-increasing count order, no ranked heading left out is counted
   * higher than any heading kept, and the kept headings of any one count are
   * the first of that count in order of first appearance.
   */
  lemma TopKSpec(corpus: seq<Record>, k: int)
    ensures 0 <= k ==> |TopK(corpus, k)| == if k < |FirstAppearance(AllCleaned(corpus))| then k else |FirstAppearance(AllCleaned(corpus))|
    ensures NonIncreasing(TopK(corpus, k))
    ensures forall i, j :: 0 <= i < |TopK(corpus, k)| <= j < |Ranked(corpus)| ==>
      Ranked(corpus)[j].count <= TopK(corpus, k)[i].count
    ensures forall c :: WithCount(TopK(corpus, k), c) <= WithCount(CorpusItems(corpus), c)
  {
    RankedLength(corpus);
    SortByCountSpec(CorpusItems(corpus));
    TakeOfSorted(Ranked(corpus), k);
    var r := Ranked(corpus);
    var t := TopK(corpus, k);
    assert t == r[..|t|];
    forall c ensures WithCount(t, c) <= WithCount(CorpusItems(corpus), c) {
      WithCountOfPrefix(r, |t|, c);
      RankedTiesKeepFirstAppearance(corpus, c);
    }
  }
}
