/**
 * The buffering loop of `save_model_headers`: each fetched card becomes a
 * record `{identifier: headings}` appended to a buffer; after every 250th
 * card the buffer is written to `{tag}_{m-250}_{m}.json` and emptied; at the
 * end whatever the buffer holds is written to `{tag}.json`.
 *
 * The catalogue query and the card download are replaced by the sequence of
 * fetched cards, and each file written becomes a `Batch` appended to the
 * result, in the order the files are written.
 */
module Batches {
  import opened Text
  import opened Headings
  import opened Coverage

  /** Records per intermediate file. */
  const BatchSize: nat := 250

  /** A fetched model card: its identifier and its text. */
  datatype Card = Card(id: string, content: string)

  /** One JSON file written: its name and the records it holds, in order. */
  datatype Batch = Batch(name: string, records: seq<Record>)

  /** `get_model_card_headers`: the card's identifier with the headings of its text. */
  function FetchRecord(card: Card): (r: Record)
    ensures r.id == card.id
    ensures r.headings == ExtractHeadings(card.content)
  {
    Record(card.id, ExtractHeadings(card.content))
  }

  function Fetched(cards: seq<Card>): (r: seq<Record>)
    ensures |r| == |cards|
    ensures forall i :: 0 <= i < |cards| ==> r[i] == FetchRecord(cards[i])
  {
    seq(|cards|, i requires 0 <= i < |cards| => FetchRecord(cards[i]))
  }

  /** `f'{tag}_{lo}_{hi}.json'`. */
  function BatchName(tag: string, lo: nat, hi: nat): string {
    tag + "_" + Decimal(lo) + "_" + Decimal(hi) + ".json"
  }

  /** `f'{tag}.json'`. */
  function FinalName(tag: string): string {
    tag + ".json"
  }

  /** The `k`-th full batch: records `[250k, 250k + 250)`. */
  function FullBatch(tag: string, recs: seq<Record>, k: nat): Batch
    requires (k + 1) * BatchSize <= |recs|
  {
    Batch(BatchName(tag, k * BatchSize, (k + 1) * BatchSize), recs[k * BatchSize..(k + 1) * BatchSize])
  }

  /** The first `count` full batches. */
  function FullBatches(tag: string, recs: seq<Record>, count: nat): (r: seq<Batch>)
    requires count * BatchSize <= |recs|
    ensures |r| == count
    ensures forall k :: 0 <= k < count ==> r[k] == FullBatch(tag, recs, k)
  {
    seq(count, k requires 0 <= k < count => FullBatch(tag, recs, k))
  }

  /** The files the loop writes for `recs`: every full batch, then the remainder. */
  function Partition(tag: string, recs: seq<Record>): seq<Batch> {
    var full := |recs| / BatchSize;
    FullBatches(tag, recs, full) + [Batch(FinalName(tag), recs[full * BatchSize..])]
  }

  /** How `i / 250` moves when the counter reaches `i + 1`. */
  lemma CounterStep(i: nat)
    ensures i / BatchSize * BatchSize <= i
    ensures (i + 1) % BatchSize == 0 ==>
      (i + 1) / BatchSize == i / BatchSize + 1 && i / BatchSize * BatchSize == i + 1 - BatchSize
    ensures (i + 1) % BatchSize != 0 ==> (i + 1) / BatchSize == i / BatchSize
  {
  }

  /**
   * One iteration of the loop: the record joins the buffer, and when the
   * counter reaches a multiple of 250 the buffer becomes the next full batch.
   */
  lemma BufferStep(tag: string, recs: seq<Record>, i: nat, written: seq<Batch>, buffer: seq<Record>)
    requires i < |recs|
    requires written == FullBatches(tag, recs, i / BatchSize)
    requires buffer == recs[i / BatchSize * BatchSize..i]
    ensures (i + 1) % BatchSize == 0 ==>
      && written + [Batch(BatchName(tag, i + 1 - BatchSize, i + 1), buffer + [recs[i]])]
         == FullBatches(tag, recs, (i + 1) / BatchSize)
      && [] == recs[(i + 1) / BatchSize * BatchSize..i + 1]
    ensures (i + 1) % BatchSize != 0 ==>
      && written == FullBatches(tag, recs, (i + 1) / BatchSize)
      && buffer + [recs[i]] == recs[(i + 1) / BatchSize * BatchSize..i + 1]
  {
    var k := i / BatchSize;
    CounterStep(i);
    assert recs[k * BatchSize..i + 1] == recs[k * BatchSize..i] + [recs[i]];
    if (i + 1) % BatchSize == 0 {
      assert FullBatches(tag, recs, k + 1) == FullBatches(tag, recs, k) + [FullBatch(tag, recs, k)];
    }
  }

  /** The fetch-and-save loop, with the download and the file writes abstracted. */
  method SaveHeadings(tag: string, cards: seq<Card>) returns (written: seq<Batch>)
    ensures written == Partition(tag, Fetched(cards))
  {
    ghost var recs := Fetched(cards);
    var buffer: seq<Record> := [];
    var modelId: nat := 0;
    written := [];
    for i := 0 to |cards|
      invariant modelId == i
      invariant written == FullBatches(tag, recs, i / BatchSize)
      invariant buffer == recs[i / BatchSize * BatchSize..i]
    {
      BufferStep(tag, recs, i, written, buffer);
      buffer := buffer + [FetchRecord(cards[i])];
      modelId := modelId + 1;
      if modelId % BatchSize == 0 {
        written := written + [Batch(BatchName(tag, modelId - BatchSize, modelId), buffer)];
        buffer := [];
      }
    }
    assert buffer == recs[|recs| / BatchSize * BatchSize..];
    written := written + [Batch(FinalName(tag), buffer)];
  }

  /** All records of a sequence of batches, batch after batch. */
  function Flatten(batches: seq<Batch>): seq<Record> {
    if batches == [] then []
    else Flatten(batches[..|batches| - 1]) + batches[|batches| - 1].records
  }

  lemma {:induction false} FlattenFullBatches(tag: string, recs: seq<Record>, count: nat)
    requires count * BatchSize <= |recs|
    ensures Flatten(FullBatches(tag, recs, count)) == recs[..count * BatchSize]
  {
    if count > 0 {
      var bs := FullBatches(tag, recs, count);
      assert bs[..count - 1] == FullBatches(tag, recs, count - 1);
      FlattenFullBatches(tag, recs, count - 1);
      assert recs[..count * BatchSize] ==
        recs[..(count - 1) * BatchSize] + recs[(count - 1) * BatchSize..count * BatchSize];
    }
  }

  /** Writing the batches one after another reproduces the fetched records, in order. */
  lemma PartitionConcat(tag: string, recs: seq<Record>)
    ensures Flatten(Partition(tag, recs)) == recs
  {
    var full := |recs| / BatchSize;
    var p := Partition(tag, recs);
    assert p[..|p| - 1] == FullBatches(tag, recs, full);
    FlattenFullBatches(tag, recs, full);
    assert recs == recs[..full * BatchSize] + recs[full * BatchSize..];
  }

  /**
   * For `n` records there are `n / 250` intermediate files, the `k`-th named
   * `{tag}_{250k}_{250k+250}.json` and holding 250 records, then the final
   * `{tag}.json` holding the last `n % 250` records (none when `n` is a
   * multiple of 250).
   */
  lemma PartitionShape(tag: string, recs: seq<Record>)
    ensures |Partition(tag, recs)| == |recs| / BatchSize + 1
    ensures forall k :: 0 <= k < |recs| / BatchSize ==>
      && Partition(tag, recs)[k].name == BatchName(tag, k * BatchSize, (k + 1) * BatchSize)
      && |Partition(tag, recs)[k].records| == BatchSize
    ensures Partition(tag, recs)[|recs| / BatchSize].name == FinalName(tag)
    ensures Partition(tag, recs)[|recs| / BatchSize].records == recs[|recs| - |recs| % BatchSize..]
    ensures |Partition(tag, recs)[|recs| / BatchSize].records| == |recs| % BatchSize
  {
  }

  /** Where a run of decimal digits ends, the next character is not a digit. */
  lemma DecimalThenUnderscore(m: nat, n: nat, x: string, y: string)
    requires Decimal(m) + "_" + x == Decimal(n) + "_" + y
    ensures m == n && x == y
  {
    var dm, dn := Decimal(m), Decimal(n);
    var s := dm + "_" + x;
    var t := dn + "_" + y;
    assert |dm| == |dn| by {
      assert s == t;
      assert s[|dm|] == '_' && t[|dn|] == '_';
      assert forall i :: 0 <= i < |dm| ==> s[i] == dm[i];
      assert forall i :: 0 <= i < |dn| ==> t[i] == dn[i];
    }
    assert dm == s[..|dm|] && dn == t[..|dn|];
    DecimalInjective(m, n);
    assert x == s[|dm| + 1..] && y == s[|dn| + 1..];
  }

  /** No intermediate file is named like the final file. */
  lemma BatchNameNotFinal(tag: string, lo: nat, hi: nat)
    ensures BatchName(tag, lo, hi) != FinalName(tag)
  {
    assert BatchName(tag, lo, hi)[|tag|] == '_';
    assert FinalName(tag)[|tag|] == '.';
  }

  /** An intermediate file name, grouped as its tag part and its range part. */
  lemma BatchNameParts(tag: string, lo: nat, hi: nat)
    ensures BatchName(tag, lo, hi) == (tag + "_") + (Decimal(lo) + "_" + (Decimal(hi) + ".json"))
  {
  }

  lemma PrefixCancel(p: string, x: string, y: string)
    requires p + x == p + y
    ensures x == y
  {
    assert x == (p + x)[|p|..];
  }

  lemma SuffixCancel(x: string, y: string, q: string)
    requires x + q == y + q
    ensures x == y
  {
    assert x == (x + q)[..|x|];
  }

  /** The range can be read back from an intermediate file name. */
  lemma BatchNameInjective(tag: string, lo: nat, hi: nat, lo': nat, hi': nat)
    requires BatchName(tag, lo, hi) == BatchName(tag, lo', hi')
    ensures lo == lo' && hi == hi'
  {
    BatchNameParts(tag, lo, hi);
    BatchNameParts(tag, lo', hi');
    PrefixCancel(tag + "_", Decimal(lo) + "_" + (Decimal(hi) + ".json"), Decimal(lo') + "_" + (Decimal(hi') + ".json"));
    DecimalThenUnderscore(lo, lo', Decimal(hi) + ".json", Decimal(hi') + ".json");
    SuffixCancel(Decimal(hi), Decimal(hi'), ".json");
    DecimalInjective(hi, hi');
  }

  /**
   * Every file gets its own name: intermediate files with different ranges
   * differ, and none is named like the final file, so no write overwrites
   * another file of the same run.
   */
  lemma BatchNamesDistinct(tag: string, lo: nat, hi: nat, lo': nat, hi': nat)
    ensures BatchName(tag, lo, hi) != FinalName(tag)
    ensures BatchName(tag, lo, hi) == BatchName(tag, lo', hi') ==> lo == lo' && hi == hi'
  {
    BatchNameNotFinal(tag, lo, hi);
    if BatchName(tag, lo, hi) == BatchName(tag, lo', hi') {
      BatchNameInjective(tag, lo, hi, lo', hi');
    }
  }

  lemma Decimal250()
    ensures Decimal(250) == "250"
  {
    assert Decimal(2) == "2";
    assert Decimal(25) == Decimal(2) + "5";
    assert Decimal(250) == Decimal(25) + "0";
  }

  lemma Decimal500()
    ensures Decimal(500) == "500"
  {
    assert Decimal(5) == "5";
    assert Decimal(50) == Decimal(5) + "0";
    assert Decimal(500) == Decimal(50) + "0";
  }

  lemma FirstBatchName()
    ensures BatchName("x", 0, 250) == "x_0_250.json"
  {
    Decimal250();
    assert Decimal(0) == "0";
  }

  lemma SecondBatchName()
    ensures BatchName("x", 250, 500) == "x_250_500.json"
  {
    Decimal250();
    Decimal500();
  }

  /** The names of the two intermediate files of the 500-record example. */
  lemma FiveHundredNames()
    ensures BatchName("x", 0, 250) == "x_0_250.json"
    ensures BatchName("x", 250, 500) == "x_250_500.json"
  {
    FirstBatchName();
    SecondBatchName();
  }

  /**
   * Fetching exactly 500 cards for tag `x` writes `x_0_250.json` and
   * `x_250_500.json` with 250 records each, and a final `x.json` with none.
   */
  lemma FiveHundredRecords(recs: seq<Record>)
    requires |recs| == 500
    ensures |Partition("x", recs)| == 3
    ensures Partition("x", recs)[0] == Batch("x_0_250.json", recs[..250])
    ensures Partition("x", recs)[1] == Batch("x_250_500.json", recs[250..])
    ensures Partition("x", recs)[2] == Batch("x.json", [])
  {
    var full := FullBatches("x", recs, 2);
    assert Partition("x", recs) == full + [Batch(FinalName("x"), recs[500..])];
    assert full[0] == FullBatch("x", recs, 0) && full[1] == FullBatch("x", recs, 1);
    FiveHundredNames();
    assert recs[250..500] == recs[250..];
  }
}
