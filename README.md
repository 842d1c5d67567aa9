# Model-card heading coverage, in Dafny

This project models the heading pipeline of the model-card coverage dashboard
(`src/app.py`) and proves properties of it. The dashboard fetches the model
cards of a topic tag from the Hugging Face hub, extracts their markdown
headings, and saves them in batches of 250. For a selected model it then
reports which of the most common normalised headings its card lacks, and
how widespread each of those headings is.

The model has five parts, one module each. Two shared modules support them.

- `Headings` (`headings.dfy`): the scanner `_get_model_card_headers`. It is
  the pattern `(?<=\n)#[#]+ [\S ]*`, written as an explicit left-to-right
  scan (`ScanFrom`) that resumes after each match.
- `Normalise` (`normalise.dfy`): the normaliser `_clean_single_header`.
  - It runs `re.sub(r'\W+ ', ' ', ·)` with the greedy-then-backtrack match of
    `\W+ `.
  - It then removes `[optional]`, strips, lower-cases and removes every
    `model `.
- `Coverage` (`coverage.dfy`): the counter `_get_model_header_proportions`.
  - It is a nested loop that updates an insertion-ordered dictionary.
  - The dictionary is held as its key order plus a map.
  - This module also holds the two denominators.
- `Ranking` (`ranking.dfy`): the stable descending sort and the top-k
  slice, with Python's negative slice bounds.
- `Missing` (`missing.dfy`): the selection of the record and the loop that
  builds `missing`.
  - `CoverageReport` runs the whole of `_clean_model_headers` up to the
    display.
  - It is proved never to divide by zero.
- `Batches` (`batches.dfy`): the buffering loop of `save_model_headers`,
  which flushes every 250 records and writes the remainder last.
- `Text` (`text.dfy`): the character classes and the Python string
  operations the pipeline uses, over an ASCII character model.
  - `\s` and `str.strip()` whitespace are modelled separately.
  - `\w` is `[A-Za-z0-9_]`; any non-ASCII character is a word character
    with no case.
- `NormaliseExamples` and `ReportExamples`: worked examples of the
  normaliser and of the whole report.

Behaviour of the code that the model pins down:

- `str.replace` removes `model ` wherever it occurs in the lower-cased
  heading, not only at its start (`CleanDropsEveryModelQualifier`).
- `[optional]` is removed before lower-casing, so `[Optional]` survives as
  `[optional]` (`CleanKeepsCapitalisedOptional`).
- The division at line 98 cannot divide by zero: a non-empty top-k list
  implies that some record has a heading (`TopKHasCards`,
  `CoverageReport`).
- With an empty corpus the report fails when it selects the record,
  because `[...][0]` fails on an empty list (`EmptyCorpusHasNoSelection`).
- The final file is `{tag}.json` in the working directory, like the
  intermediate batches (`FinalName`).
- A count is the number of occurrences, not the number of records. A card
  that repeats a heading is counted once per repetition, and the displayed
  share can then exceed 100% (`RepeatedHeadingExceedsWhole`). The share is
  at most 100% when no card repeats a normalised heading
  (`ReportShareAtMostWhole`).

## Model

| member | source | states |
|---|---|---|
| Text.Lower | src/app.py:60 | `str.lower()` maps every character through `LowerChar`, which lowers exactly the ASCII capitals and leaves no capital behind |
| Text.Strip | src/app.py:60 | `str.strip()`: the result neither starts nor ends with strip whitespace |
| Text.StripBounds | src/app.py:60 | gives the bounds of the piece `strip()` keeps: everything before and after it is strip whitespace |
| Text.StripIsSlice | src/app.py:60 | stripping keeps one contiguous slice of the input and drops only whitespace on either side |
| Text.StripAround | src/app.py:60 | an already stripped string is unchanged by `strip()`, also after one space is added on either or both sides |
| Text.StripLeadingSpace | src/app.py:60 | `strip()` of a stripped string with one space in front gives the string back |
| Text.StripTrailingSpace | src/app.py:60 | `strip()` of a stripped string with one space after it gives the string back |
| Text.RemoveAll | src/app.py:60-61 | `s.replace(pat, "")` never lengthens `s` |
| Text.RemoveAllKeepsMultiset | src/app.py:60-61 | `s.replace(pat, "")` only removes characters: the multiset of the result's characters is included in that of `s` |
| Text.RemoveAllAppend | src/app.py:60-61 | on a concatenation with no occurrence across the seam, removal splits into removal on each side |
| Text.RemoveAllEveryOccurrence | src/app.py:60-61 | for a pattern whose first character does not recur, an occurrence anywhere (not only at the start) is removed and the two sides are processed independently |
| Text.RemoveAllAbsent | src/app.py:60-61 | a string with no occurrence of the pattern is unchanged |
| Text.RemoveAllWithoutHead | src/app.py:60-61 | a string lacking the pattern's first character is unchanged |
| Text.RemoveAllSkipsHeadless | src/app.py:60-61 | a prefix lacking the pattern's first character passes through unchanged |
| Text.Decimal | src/app.py:41 | `str(n)` for a counter value: non-empty, all digits, no leading zero |
| Text.DecimalRoundTrip | src/app.py:41 | reading the digits of `str(n)` back gives `n` |
| Text.DecimalInjective | src/app.py:41 | different counter values give different decimal strings |
| Headings.HashRunEnd | src/app.py:50 | the run of `#` starting at `i` is maximal |
| Headings.RunEnd | src/app.py:50 | the greedy `[\S ]*` run contains no tab, line feed, carriage return, vertical tab or form feed and is maximal |
| Headings.MatchEnd | src/app.py:50 | a match is at least `##` plus a space long, contains no break character, and ends at a break or at the end of the text |
| Headings.ScanFrom | src/app.py:50 | every span `findall` returns is a match at a heading position, at or after the scan start, and the spans are in increasing order without overlap |
| Headings.ExtractHeadings | src/app.py:48-50 | the returned strings are exactly the text slices of the matches, one per match, in order |
| Headings.ScanFromComplete | src/app.py:50 | no heading position at or after the scan start is skipped |
| Headings.NoHeadingInsideMatch | src/app.py:50 | a later heading position lies at or past the end of a match, since a match holds no line feed |
| Headings.MatchStartsAreHeadingPositions | src/app.py:50 | a match starts at `i` if and only if `text[i-1]` is a line feed and two or more `#` and a space follow, so a first-line heading is never found |
| Headings.NoHeadingPositionNoHeadings | src/app.py:48-50 | a text with no line feed followed by `##…# ` yields no headings |
| Headings.ExtractedHeadingShape | src/app.py:48-50 | each heading follows a line feed at index > 0, is `#`×(n≥2), a space and text without tab, line feed, carriage return, vertical tab or form feed, extends up to the next such character or to the end of the text, and ends strictly before the next heading starts |
| Normalise.NonWordRunEnd | src/app.py:59 | the greedy `\W+` run starting at `p` is maximal |
| Normalise.NonWordRunEndIs | src/app.py:59 | the run end is the unique position that closes a maximal non-word run |
| Normalise.RunEndInside | src/app.py:59 | every position inside a non-word run has the same run end |
| Normalise.LastSpace | src/app.py:59 | finds the last space in a range (the point where `\W+ ` backtracks to), or reports that there is none |
| Normalise.LeadingSpace | src/app.py:59 | the rewritten suffix starts with a space only when the non-word run at that point contains a space |
| Normalise.SubPunctFromNoSpaceAfterPunct | src/app.py:59 | after `re.sub(r'\W+ ', ' ', ·)` no space follows a non-word character |
| Normalise.NoSpaceInRunAfterMatch | src/app.py:59 | after a match of `\W+ ` ends at a space, the rest of that non-word run holds no space |
| Normalise.SubPunctFromUnchanged | src/app.py:59 | a text in which no space follows a non-word character is left unchanged |
| Normalise.SubPunctIdempotent | src/app.py:59 | the substitution leaves nothing for `\W+ ` to match, so applying it twice equals applying it once |
| Normalise.SubPunctOfHashHeading | src/app.py:59 | `"## " + w` becomes `" " + w` when `w` starts with a word character and has no space after punctuation |
| Normalise.CleanHasNoUpper | src/app.py:58-63 | a normalised heading contains no ASCII capital |
| Normalise.MarkersHaveUniqueHead | src/app.py:60-61 | neither `[optional]` nor `model ` repeats its first character, so their occurrences cannot overlap |
| Normalise.CleanDropsEveryModelQualifier | src/app.py:61 | `model ` is removed at every occurrence in the lower-cased heading, not only at the start |
| NormaliseExamples.CleanOptionalHeading | src/app.py:58-63 | `## t [optional]` normalises to `t` lower-cased with `model ` removed, for a title `t` that starts and ends with a word character, has no `[` and no space right after a non-word character |
| NormaliseExamples.CleanPlainHeading | src/app.py:58-63 | `## t` normalises to `t` lower-cased with `model ` removed, for a title `t` that starts and ends with a word character, has no `[` and no space right after a non-word character |
| NormaliseExamples.CleanModelDetails | src/app.py:58-63 | `"## Model Details [optional]"` normalises to `"details"` |
| NormaliseExamples.CapitalisedMarkerStays | src/app.py:60 | the case-sensitive removal leaves a `[Optional]` in place |
| NormaliseExamples.CleanKeepsCapitalisedOptional | src/app.py:60 | `"## Uses [Optional]"` normalises to `"uses [optional]"`: the capitalised marker survives and is only lower-cased |
| NormaliseExamples.CleanOverview | src/app.py:58-63 | `"## Overview"` normalises to `"overview"` |
| NormaliseExamples.CleanLicense | src/app.py:58-63 | `"## License"` normalises to `"license"` |
| Coverage.CleanAll | src/app.py:69 | the list comprehension keeps the length |
| Coverage.CleanAllElements | src/app.py:69 | the `i`-th element of the list comprehension is the `i`-th heading, normalised |
| Coverage.FirstAppearanceSpec | src/app.py:67-71 | the dictionary's keys in insertion order: exactly the headings seen, each once |
| Coverage.FirstAppearanceSnoc | src/app.py:71 | a new heading is appended to the key order, and a known heading leaves the order unchanged |
| Coverage.CountsOfSnoc | src/app.py:71 | `headers_dict[h] = headers_dict[h] + 1` on the counts of the headings seen so far gives the counts of the headings with `h` appended (a missing key reads as 0) |
| Coverage.CountHeadings | src/app.py:70-71 | the inner loop turns the dictionary of the headings seen into the dictionary of those headings followed by one record's list |
| Coverage.Tally | src/app.py:65-73 | the key order is the order of first appearance across the corpus, and each count is the number of occurrences of the heading among all normalised headings |
| Coverage.AllCleanedLength | src/app.py:68-70 | the corpus has as many normalised headings as raw ones |
| Coverage.SumOccurrencesSnoc | src/app.py:71 | one more heading raises the sum of the counts of the distinct keys by one exactly when it is a key |
| Coverage.SumOfFirstAppearances | src/app.py:65-73 | summing the counts over the distinct headings gives the number of headings |
| Coverage.CountsSumToHeadings | src/app.py:65-73 | the keys are exactly the normalised headings, every count is at least 1, and the counts add up to the number of raw headings in the corpus |
| Coverage.ModelsWithCardsBound | src/app.py:83-84 | `total_models_with_cards <= total_models` |
| Coverage.OccurringHeadingHasCard | src/app.py:84 | if any heading occurs in the corpus, at least one record has a non-empty heading list |
| Coverage.DistinctOccursAtMostOnce | src/app.py:71 | in a list without repetition an element occurs once or not at all |
| Coverage.CountAtMostModelsWithCards | src/app.py:71-84 | when no record's normalised list repeats a heading, every count is at most `total_models_with_cards` |
| Ranking.Items | src/app.py:81 | `proportions.items()` pairs each key, in insertion order, with its count |
| Ranking.InsertByCountPermutes | src/app.py:81 | inserting an entry adds exactly that entry |
| Ranking.InsertByCountSorted | src/app.py:81 | inserting into a list sorted by descending count keeps it sorted |
| Ranking.InsertByCountStable | src/app.py:81 | the inserted entry comes before the entries with an equal count |
| Ranking.SortByCountSpec | src/app.py:81 | `sorted(..., key=count, reverse=True)` gives a non-increasing permutation of the items, and the entries of each count keep their original relative order |
| Ranking.Take | src/app.py:82 | `s[:k]` is a prefix of length `min(k, len)`, or `max(0, len+k)` for negative `k` |
| Ranking.RankedEntries | src/app.py:80-82 | an entry is ranked if and only if its heading occurs in the corpus and it carries that heading's count |
| Ranking.RankedTiesKeepFirstAppearance | src/app.py:81 | headings with equal counts are ranked in their order of first appearance |
| Ranking.RankedLength | src/app.py:81 | every distinct heading is ranked exactly once |
| Ranking.TakeOfSorted | src/app.py:82 | a prefix of a sorted list is sorted, and no entry after it has a higher count than any entry in it |
| Ranking.TopKSpec | src/app.py:81-82 | the top-k list has `min(k, distinct headings)` entries, is non-increasing in count, no ranked heading left out has a higher count than one kept, and the kept headings of each count are the first of that count in order of first appearance |
| Missing.FirstWithId | src/app.py:90 | the index of the first record with the selected identifier, or none when no record has it |
| Missing.SelectedHeadingsSpec | src/app.py:87-90 | the selection fails exactly when no record has the identifier (an empty corpus included), and otherwise returns the headings of the first record that has it |
| Missing.MissingFrom | src/app.py:96-97 | an entry is missing if and only if it is in the top-k list and its heading is not among the selected record's normalised headings |
| Missing.MissingFromKeepsTieOrder | src/app.py:95-97 | the missing entries of any one count are the top-k entries of that count whose heading is absent, in their order in the top-k list |
| Missing.MissingFromKeepsRankOrder | src/app.py:95-97 | the missing entries are non-increasing in count, and the entries of each count keep their relative order in the top-k list |
| Missing.Gaps | src/app.py:98 | each missing entry carries its count and the shared denominator |
| Missing.CollectMissing | src/app.py:95-98 | the loop fails with a zero division exactly when the denominator is 0 and some heading is missing, and otherwise returns the missing entries in rank order with their counts and the denominator |
| Missing.EmptyCorpusHasNoSelection | src/app.py:87-90 | with an empty corpus the top-k list is empty and the selection fails |
| Missing.TopKHasCards | src/app.py:82-84 | a non-empty top-k list implies `total_models_with_cards >= 1` |
| Missing.CoverageReport | src/app.py:75-98 | `_clean_model_headers` without display returns the selected record's normalised headings, the missing top-k headings and both denominators, and its only failure is a missing identifier; the division at line 98 never divides by zero |
| Missing.ReportGapsAreSound | src/app.py:96-98 | each reported gap is a top-k heading the selected record lacks, with a count of at least 1 and a denominator between 1 and `total_models` |
| Missing.ReportGapsInRankOrder | src/app.py:75-98 | the reported gaps come in non-increasing count order, and the gaps of each count are the absent top-k headings of that count, which are the first of that count in order of first appearance in the corpus |
| Missing.ReportShareAtMostWhole | src/app.py:84-98 | when no card repeats a normalised heading, each reported share is at most 100% |
| ReportExamples.TwoRecordReport | src/app.py:65-98 | over `a: [o, l]` and `b: [o]` with distinct normalised headings, the counts are 2 and 1, and `b` lacks the second heading with 1 in 2 |
| ReportExamples.OverviewLicenseReport | src/app.py:65-98 | the corpus `a: ["## Overview", "## License"]`, `b: ["## Overview"]` counts overview 2 and license 1, and selecting `b` reports license missing at 1 of 2 records (50.0%) |
| ReportExamples.RepeatedHeadingExceedsWhole | src/app.py:69-98 | a card listing one heading three times, beside a selected card without headings, is reported with count 3 over denominator 1 (300%) |
| Batches.FetchRecord | src/app.py:52-56 | a record is the card's identifier with the headings extracted from its text |
| Batches.Fetched | src/app.py:34-35 | one record per fetched card, in fetch order |
| Batches.FullBatches | src/app.py:40-43 | the `k`-th full batch holds records `[250k, 250k+250)` and is named `{tag}_{250k}_{250k+250}.json` |
| Batches.CounterStep | src/app.py:37-40 | how `model_id // 250` moves when `model_id` is incremented, with and without reaching a multiple of 250 |
| Batches.BufferStep | src/app.py:36-43 | one iteration appends the record to the buffer, and at a multiple of 250 the buffer becomes the next full batch and is emptied |
| Batches.SaveHeadings | src/app.py:32-46 | the files written, in order, are every full batch of 250 followed by the final `{tag}.json` with the remainder |
| Batches.FlattenFullBatches | src/app.py:40-43 | the full batches together hold the first `250·count` records in order |
| Batches.PartitionConcat | src/app.py:32-46 | concatenating all written batches in order gives the fetched records |
| Batches.PartitionShape | src/app.py:40-46 | `n // 250` intermediate files, each of 250 records, named by their range; the final file holds the last `n % 250` records and is empty when `n` is a multiple of 250 |
| Batches.DecimalThenUnderscore | src/app.py:41 | in a name `{lo}_…`, the decimal part and the rest are determined by the name |
| Batches.BatchNameNotFinal | src/app.py:41-45 | no intermediate file name equals the final file name |
| Batches.BatchNameInjective | src/app.py:41 | the range can be read back from an intermediate file name |
| Batches.BatchNamesDistinct | src/app.py:41-45 | intermediate file names with different ranges differ, and none equals the final file name |
| Batches.FiveHundredRecords | src/app.py:32-46 | 500 records for tag `x` give `x_0_250.json` and `x_250_500.json` with 250 records each, and an empty `x.json` |

## Left out

- Display (`st.set_page_config`, `selectbox`, `multiselect`, `columns`, `markdown`, `write`): the selected identifier is a parameter, and the report is returned rather than rendered.
- `huggingface_hub.list_models` and `ModelCard.load`: the fetched cards (identifier and text) are an input sequence. Fetch failures and the suppressed metadata errors are not modelled.
- JSON files, `open`, `glob.glob` and `os.path.exists`: each file write becomes a `Batch` in the result. `load_model_headers` and `create_dashboard` only read files and call the modelled code, so they are not part of this model, and glob order is unspecified.
- The float percentage `prop*100/total_models_with_cards`, its `.1f` formatting and `capitalize()` for display: a gap keeps the integer count and the denominator instead.
- Unicode: `\w`, `\s`, `str.strip()` and `str.lower()` follow an ASCII model. A non-ASCII character counts as a word character and is not case-mapped.
- `@st.cache_resource` on `save_model_headers`: a framework caching side effect.
- JSON records with more than one key: a record is one identifier with one list of headings, which is all the code ever writes.
- Batches.SaveHeadings: the fetch is not modelled as able to fail. An exception in the source aborts the loop after the earlier batches are written, while the model always completes.
