# Fuzzy article classification, modelled in Dafny

The articles-analysis tool reads a news article and reports which listed
companies it mentions or, if it mentions none, which industry sectors it is
about. Each report row carries a running number (`STT`), a company name, a
stock ticker and a sector name. Two CSV dictionaries drive this:

- the company dictionary has one record per company: ticker, official name,
  sector and a comma-separated keyword cell;
- the sector dictionary maps a sector name to its keywords.

This project models the routine that does the classification
(`analyze_article_fuzzy`), its similarity test (`is_similar`), and the
loaders' string handling: header cleaning, keyword-cell parsing, and the
insert-or-overwrite filling of the sector map. It then proves the
classification policy.

## Layout

- `wrappers.dfy`: the `Option` and `Result` datatypes.
- `text.dfy` (module `Text`): Python's `str.strip()` over the
  `str.isspace()` characters, `str.split(",")`, `",".join`, and the
  column-name cleaning of `clean_column_names`.
- `indices.dfy` (module `Indices`): `TrueIndices`, the ascending positions
  of a flag sequence. The keyword filter and both classification passes use
  it to say "exactly these elements, in order, each once".
- `fuzzy.dfy` (module `Fuzzy`): `is_similar` with default threshold 85.
  rapidfuzz's `partial_ratio` and Python's `str.lower()` are functions the
  caller supplies, bundled in a `Matcher`. The model assumes nothing about
  them, except where a lemma names a hypothesis in its `requires`.
- `dictionaries.dfy` (module `Dictionaries`): keyword-cell parsing, the
  company loader, and the sector loader. The sector map is a Python dict,
  modelled as its entries in insertion order. The sector loader is a method
  with a loop, proved equal to a fold of dict assignments.
- `classifier.dfy` (module `Classifier`): the specification function
  `Classify`, and the procedure as methods with loops, flags, a counter and
  `break`. `AnalyzeArticleFuzzy` runs the company pass, then the sector pass
  when the company pass found nothing. It is proved equal to `Classify`, and
  the policy is proved about `Classify` in lemmas.

## Where the model differs from a naive reading

- `load_sector_dictionary` parses its keyword cell without `fillna`, unlike
  the company loader. An empty sector or keyword cell is a float NaN, and
  `.strip()` / `.split()` on it raises. The model returns
  `Failure(MissingCell(i))` for the first such row. An empty keyword cell in
  the company loader gives an empty keyword list.
- Threshold monotonicity holds for company rows, and for sector rows only
  while the lower threshold still finds no company. A lower threshold can
  make a company match, and that suppresses the whole sector pass.
  `LowerThresholdCanDropSectorRow` gives a concrete input where a sector row
  at threshold 85 disappears at threshold 70. This follows from the
  precedence rule the code implements on purpose.
- `is_similar` lower-cases both of its arguments, and the article is already
  lower-cased by `analyze_article_fuzzy`, so the article is lower-cased
  twice. The model keeps both applications, because `lower` is abstract.
- The keyword parser strips a piece and then lower-cases it. The model
  proves a parsed keyword is the lower-cased form of a non-blank stripped
  piece. It also proves a parsed keyword is non-empty whenever `lower` keeps
  non-empty strings non-empty.

## Model

| member | source | states |
|---|---|---|
| Text.Strip | analyze.py:24-25 | Python's `strip()`: drop `isspace()` characters from either end until both ends are other characters (or nothing is left); never longer than its input |
| Text.StripInfix | analyze.py:15 | `strip()` keeps a contiguous infix and removes only white space around it; the result is empty exactly for an all-white-space string |
| Text.StripIsTrimmed | analyze.py:15 | the result of `strip()` has no white space at either end |
| Text.StripTrimmed | analyze.py:24 | stripping an already trimmed string leaves it unchanged |
| Text.Split | analyze.py:15 | `split(",")` yields at least one piece and no piece contains a comma |
| Text.JoinSplit | analyze.py:15 | joining the pieces of `split(",")` with commas gives back the cell |
| Text.SplitJoin | analyze.py:15 | splitting a comma-join of comma-free pieces gives back the pieces |
| Text.ReplaceSpaces | analyze.py:9 | every space becomes an underscore and every other character is kept in place |
| Text.NormalizeColumnName | analyze.py:9 | a cleaned column name is the stripped name with each space turned into an underscore, position by position; it has no space and no white space at its ends |
| Text.CleanColumnNames | analyze.py:8-10 | the cleaned headers are, position by position, the cleaned form of each original header, same count and order |
| Text.NormalizeIdempotent | analyze.py:9 | cleaning a cleaned column name changes nothing |
| Text.NormalizeKeywordHeader | analyze.py:14-15 | a padded "Từ khóa" header becomes the `Từ_khóa` key the loaders read |
| Indices.TrueIndices | analyze.py:15 | the selected positions are strictly ascending and every one of them is a set flag |
| Indices.TrueIndicesMembers | analyze.py:15 | a position is selected exactly when its flag is set |
| Fuzzy.IsSimilar | analyze.py:31-32 | `is_similar`: the score of the lower-cased texts is at least the threshold, 85 by default |
| Fuzzy.SimilarAtLowerThreshold | analyze.py:31-32 | a pair that reaches a threshold reaches every lower threshold |
| Dictionaries.ParseKeywordList | analyze.py:15 | there are never more keywords than comma-separated fields |
| Dictionaries.KeywordsInSourceOrder | analyze.py:15 | the keywords are exactly the non-blank fields, stripped and lower-cased, in source order, each once |
| Dictionaries.ParseJoinRoundTrip | analyze.py:15 | clean keywords written comma-separated parse back to themselves, lower-cased |
| Dictionaries.KeywordsNonEmpty | analyze.py:25 | when lower-casing keeps non-empty text non-empty, no parsed keyword is empty |
| Dictionaries.BlankCellNoKeywords | analyze.py:15 | an empty cell, or one of only white space and commas, gives no keywords |
| Dictionaries.CompanyKeywords | analyze.py:15 | a missing keyword cell gives no keywords; a present one is parsed |
| Dictionaries.LoadCompanyDictionary | analyze.py:12-17 | one company per record in record order, with its ticker, official name and sector, the lower-cased name for matching and the parsed keywords |
| Dictionaries.Put | analyze.py:26 | `sector_dict[sector] = keywords`: an existing key is overwritten in place, a new key goes at the end |
| Dictionaries.AssignAll | analyze.py:22-26 | the dict after assigning every row's sector to its keywords in row order, starting from `{}` |
| Dictionaries.PutNames | analyze.py:26 | assigning an existing sector keeps the key order; a new sector is appended |
| Dictionaries.PutLookup | analyze.py:26 | after the assignment the sector maps to the new keywords and every other key is unchanged |
| Dictionaries.PutUnique | analyze.py:26 | the assignment keeps the keys distinct |
| Dictionaries.AssignAllUnique | analyze.py:22-27 | the filled sector map has distinct keys |
| Dictionaries.AssignAllAbsent | analyze.py:22-27 | a sector that no row names is not a key |
| Dictionaries.AssignAllLastWins | analyze.py:23-26 | a repeated sector keeps the keywords of its last row |
| Dictionaries.AssignAllOrder | analyze.py:22-27 | keys are ordered by the first row naming them |
| Dictionaries.FirstOccurrences | analyze.py:26 | the first-occurrence list holds exactly the names of the rows |
| Dictionaries.LoadSectorDictionary | analyze.py:19-27 | succeeds iff no row has a missing cell, and then equals the row-by-row assignment of stripped sector to parsed keywords; otherwise reports the first bad row |
| Classifier.Classify | analyze.py:36-74 | rows are numbered 1..N; with a company match there are between 1 and as many rows as companies, otherwise at most as many rows as sectors |
| Classifier.ScanKeywords | analyze.py:48-51 | the scan with `break` reports a hit iff some keyword is similar to the article |
| Classifier.TestCompany | analyze.py:42-51 | the `matched` flag is set iff the lower-cased name or some keyword is similar to the article |
| Classifier.MatchCompanies | analyze.py:41-59 | the company loop yields the numbered rows of exactly the matching companies in dictionary order |
| Classifier.MatchSectors | analyze.py:62-73 | the sector loop yields the numbered rows of exactly the matching sectors in map order |
| Classifier.AnalyzeArticleFuzzy | analyze.py:36-74 | the procedure returns exactly the rows of the specification |
| Classifier.CompanyHits | analyze.py:52-62 | the company pass selects something iff some company matches |
| Classifier.SectorHits | analyze.py:63-73 | the sector pass selects something iff some sector matches |
| Classifier.CompanyMatchRule | analyze.py:41-59 | with a company match, the rows are exactly the matching companies (name or keyword similar), once each, in dictionary order, carrying official name, ticker and sector |
| Classifier.SectorFallback | analyze.py:61-73 | without a company match, the rows are exactly the sectors with a similar keyword, once each, in map order, with empty company name and ticker |
| Classifier.CompanyPrecedence | analyze.py:61-62 | with a company match the sectors play no part; without one the companies play no part |
| Classifier.EmptyResult | analyze.py:36-74 | the result is empty iff no company and no sector matches |
| Classifier.EmptyArticle | analyze.py:36-74 | an empty article gives no rows, provided its score against every text is below the threshold |
| Classifier.EmptyDictionaries | analyze.py:36-74 | with no companies and no sectors the result is empty |
| Classifier.SectorAtMostOnce | analyze.py:63-73 | a sector map with distinct keys yields each sector name at most once |
| Classifier.LoadedCompanyRows | analyze.py:53-58 | over loaded records each row shows a record's official name, ticker and sector, and that record matched on its lower-cased name or a keyword |
| Classifier.LoadedSectorRowsDistinct | analyze.py:22-27 | over a loaded sector map the fallback names each sector at most once |
| Classifier.CompanyMatchesAtLowerThreshold | analyze.py:44-51 | a company that matches at a threshold matches at every lower one |
| Classifier.SectorMatchesAtLowerThreshold | analyze.py:64-65 | a sector that matches at a threshold matches at every lower one |
| Classifier.ThresholdMonotoneCompanies | analyze.py:41-59 | every company row at a threshold appears, perhaps renumbered, at any lower threshold |
| Classifier.ThresholdMonotoneSectors | analyze.py:62-73 | while the lower threshold still finds no company, every sector row appears, perhaps renumbered, at the lower threshold |
| Classifier.LowerThresholdCanDropSectorRow | analyze.py:61-62 | a concrete input where a sector row at threshold 85 is replaced by a company row at threshold 70 |

## Left out

- `partial_ratio` from rapidfuzz is not reimplemented. It is a field of `Matcher`; only `EmptyArticle` states a hypothesis about it, and the real score is a float in [0, 100].
- `str.lower()` (Unicode and Vietnamese case mapping) is also a `Matcher` field. The properties hold for any such function, except `KeywordsNonEmpty` and `EmptyArticle`, whose `requires` name what they need of it.
- `pd.read_csv`, `to_dict` and `iterrows` are not modelled. The loaders take the parsed records, with a missing cell as `None`.
- Company records with a missing (NaN) official name, ticker or sector are not modelled, because `CompanyRecord` holds all three as strings. In the source a NaN official name makes `is_similar` raise at analyze.py:32 (the name is tested first, at analyze.py:44), so every classification run raises when the company loop reaches that record and returns no result, even if earlier records already matched; if the whole official-name column is empty, pandas reads it as floats and `.str.lower()` already raises in the loader at analyze.py:16. A NaN ticker or sector would reach the result row at analyze.py:56-57.
- `save_results_to_csv` and `read_article_from_txt` (analyze.py:78-96) are file I/O and printing.
- The `__main__` driver (analyze.py:100-113) only wires files to the routine.
- analyze_article.py is not part of this model. It is a call to a remote language-model service.
- data_extraction.py is not part of this model. It is HTTP scraping and pandas post-processing.
- remove_notes_column.py is not part of this model. It is a CSV read, a column drop and a write.
- Classifier.ThresholdMonotoneSectors: proved only while the lower threshold still finds no company, because without that proviso the property is false (see `LowerThresholdCanDropSectorRow`).
- Dictionaries.KeywordsNonEmpty: needs a `lower` that keeps non-empty strings non-empty, because `lower` is abstract. Likewise "trimmed" is proved for the stripped field before lower-casing.
- Classifier.EmptyArticle: proved only when the empty article scores below the threshold against every text, because the score is abstract (at threshold 0 every pair is similar).
- Classifier.AnalyzeArticleFuzzy: the result list is a value built by appending, not a Python list shared with the caller.
