# Legislative vote analyser — verified model

This project models the core of a small application that collects the roll-call
votes of the Argentine Chamber of Deputies and analyses them. The model has
four parts:

- **Block preference table** (`Analyzer`). For one votation, the raw rows are
  grouped by block (`BLOQUE`). The vote values (`¿CÓMO VOTÓ?`) of each block are
  counted. The five categories AFIRMATIVO, NEGATIVO, ABSTENCION, SIN VOTAR and
  AUSENTE are always present, with 0 where nobody voted that way. Each block
  also gets its total (`count`) and a 0/1 `preference`.
- **Cross-votation analysis** (`Aggregation`). Each stored votation is analysed
  separately. The presiding officer's rows (`PRESIDENTE`) are dropped. Each
  record is classified by the per-votation loyalty classifier, and the
  classified votations are concatenated. The result is grouped by
  (block, deputy) into means, sums and a participation count. With no votation
  there is nothing to concatenate, and the analysis fails.
- **The store** (`Database`). This class holds the `votation_metadata` table
  (keyed by id) and the `deputies_votes` table (in insertion order). It covers
  insert-if-new of scraped metadata, with the number of rows added as the
  result. It covers the loop that fetches the votes of every votation not
  loaded yet and then sets its `loaded` flag. It also runs the analysis over
  every stored votation.
- **Deputy list view** (`DeputiesView`, with string helpers in `Text`). This
  part holds the session variables the list page keeps: block filter, search
  term, page number and selected deputy. It models how the page's callbacks and
  buttons change them. It also models the filters, the ordering by average
  loyalty, the block-selector options and the pagination at 20 deputies per
  page.

`Records` holds the shared record shapes (`VotationMetadata`, `DeputyVote`,
the scraper's entries) and the `Option`/`Result` wrappers.

The vote scraper and the loyalty classifier are passed in as function
parameters. The scraper is `string -> seq<ScrapedVote>`, keyed by votation id.
The classifier is `(votation rows, record) -> Flags`, where every flag is 0
or 1. Their bodies are not modelled.

The source defines no error types of its own. Two edge cases follow from the
code:

- Zero votations is an error, because `pd.concat([])` raises at
  `main.py:109` (`Aggregation.AnalyzeVotations`).
- A votation with no stored rows contributes no records, provided the
  classifier returns one record per input row (the assumption stated under
  "## Left out"). Since every group then has at least one record, no mean is
  ever taken over an empty group.

## Model

| member | source | states |
|---|---|---|
| Records.NewVotationMetadata | src/database/models.py:4-13 | A new metadata row copies id, date, title, type and result; `loaded` and `analyzed` are true only when the entry sets them true, so they default to false |
| Records.TagVote | main.py:62-64 | The stored vote row carries the scraped deputy, block, province and vote, with `vote_id` set to the votation's id |
| Analyzer.GetBlocksData | src/processing/analyzer.py:4-32 | The table has exactly one row per block that occurs in the votation and no other rows |
| Analyzer.OtherValues | src/processing/analyzer.py:10 | The extra columns are the vote values outside the five categories that occur anywhere in the votation, each once |
| Analyzer.CountIsMultiplicity | src/processing/analyzer.py:10 | The count of a (block, vote) cell is the number of rows with that block and vote |
| Analyzer.BlockSizePositive | src/processing/analyzer.py:10 | Every block in the table has at least one row |
| Analyzer.SumCountsIsBlockSize | src/processing/analyzer.py:17 | Summing a block's counts over distinct columns that cover every vote value gives the block's row count |
| Analyzer.ColumnsCoverVotes | src/processing/analyzer.py:10-15 | The five categories plus the extra columns are distinct and cover every vote value of the votation |
| Analyzer.CountIsBlockSize | src/processing/analyzer.py:10-17 | A block's `count` equals its number of rows, which is positive |
| Analyzer.CategoryCounts | src/processing/analyzer.py:12-15 | Each of the five category columns is the number of the block's rows with that vote, and it is 0 exactly when no member voted that way |
| Analyzer.OtherColumns | src/processing/analyzer.py:10 | Every block row has every extra column, holding the number of its rows with that value (0 when none) |
| Analyzer.NoOtherValues | src/processing/analyzer.py:10-15 | When every vote is one of the five categories, there are no extra columns |
| Analyzer.CategoriesSumToCount | src/processing/analyzer.py:12-17 | When every vote is one of the five categories, affirmatives + negatives + abstentions + not voted + absents = count |
| Analyzer.PreferenceIsStrictMajority | src/processing/analyzer.py:18 | `preference` is 1 exactly when affirmatives > negatives, and 0 on any tie, including 0/0 |
| Analyzer.RowFromMultiset | src/processing/analyzer.py:10-18 | A block's row is determined by the multiset of (block, vote) rows, the set of vote values and the block's size |
| Analyzer.OrderIrrelevant | src/processing/analyzer.py:10-18 | Two votations with the same multiset of rows give the same table, so row order does not matter |
| Aggregation.Classify | main.py:103 | The classifier yields one classified record per input row, in the same order, carrying that row |
| Aggregation.VotationRowsMembers | main.py:96 | Querying a votation yields exactly the stored rows whose `vote_id` is that votation's id |
| Aggregation.VotationRowsConcat | main.py:96 | Querying a table that is the concatenation of two parts gives the concatenation of the two parts' query results |
| Aggregation.WithoutPresidentMembers | main.py:100 | Filtering keeps exactly the rows whose vote is not `PRESIDENTE` |
| Aggregation.MergedRecords | main.py:94-109 | The merged records are exactly the stored rows of the listed votations, except the `PRESIDENTE` rows |
| Aggregation.PresidentNeverAggregated | main.py:100-103 | No `PRESIDENTE` row reaches the classifier or the grouping, and every merged record is a stored row |
| Aggregation.GroupsNonEmpty | main.py:115 | Every (block, deputy) pair that occurs has a non-empty group |
| Aggregation.Aggregate | main.py:115-124 | The result's keys are the (block, deputy) pairs of the merged records, and each pair's `total_participation` is its number of records, which is positive |
| Aggregation.OneRowPerPair | main.py:115 | There is one output row per distinct (block, deputy) pair among the kept rows, so one deputy under two block names gets two rows |
| Aggregation.AnalyzeVotations | main.py:92-126 | The analysis fails exactly when there is no votation id; otherwise it is the grouping of the concatenated classified votations, in id order |
| Aggregation.SumAtMostSize | main.py:117-123 | A 0/1 column summed over a group is at most the group's size |
| Aggregation.SumExtremes | main.py:117-123 | A 0/1 column's sum is 0 exactly when every record has 0, and equals the size exactly when every record has 1 |
| Aggregation.VotesAtMostParticipation | main.py:112-123 | For every pair, `total_votes` and the sums `accerted`, `absent`, `not_voted` and `abstention` are each at most `total_participation` |
| Aggregation.TotalVotesCountsUpDown | main.py:112-117 | `total_votes`, the sum of the `vote_count` column (`VoteCount`: 1 for AFIRMATIVO or NEGATIVO, else 0), is 0 exactly when none of the pair's records is AFIRMATIVO or NEGATIVO, and equals participation exactly when all of them are |
| Aggregation.MeanBounds | main.py:116-119 | A mean of a 0/1 column lies in [0, 1]; it is 0 exactly when every record has 0, and 1 exactly when every record has 1 |
| Aggregation.MeansInUnitInterval | main.py:116-119 | `average_loyalty` and `officialism_support` lie in [0, 1]; average loyalty is 0 (or 1) exactly when no (or every) record of the pair is loyal |
| Aggregation.GroupConcat | main.py:109-115 | Grouping distributes over concatenation: a pair's group in a + b is its group in a followed by its group in b |
| Aggregation.GroupOfClassify | main.py:103-115 | The size of a pair's group after classification is the number of the pair's rows before it; the flags do not matter |
| Aggregation.ParticipationCountsRows | main.py:109-118 | For distinct ids, a pair's merged group has as many records as the pair has non-`PRESIDENTE` rows stored for those votations |
| Aggregation.AnalysisParticipation | main.py:109-118 | `total_participation` of a pair is the number of that pair's non-`PRESIDENTE` stored rows across all analysed votations |
| Database.NewEntries | src/database/crud.py:19-26 | The selected entries are exactly the input entries whose id is not stored yet, each as many times as it occurs in the input, kept in input order (a subsequence of the input) |
| Database.VotationDatabase.SaveVotationMetadata | src/database/crud.py:6-38 | It adds a row for each entry whose id is not stored and returns how many. An empty input, or one with no new id, returns 0 and changes nothing. Two new entries sharing an id fail the commit and leave the table unchanged |
| Database.SaveCountsAdded | src/database/crud.py:24-38 | The returned count is the number of rows the table grew by, and afterwards every incoming id is stored |
| Database.SaveKeepsStoredRows | src/database/crud.py:19-34 | Rows that were already stored are unchanged; each new row is built from its entry with the column defaults |
| Database.SaveIdempotent | src/database/crud.py:21-29 | Saving the same entries a second time selects nothing, so it returns 0 and changes nothing |
| Database.InsertAllKeys | src/database/crud.py:31-34 | After adding rows, the stored ids are the old ids plus the ids of the added entries |
| Database.InsertAllNew | src/database/crud.py:31-34 | Each added entry (with distinct ids) is stored under its id as the row built from it |
| Database.InsertAllKeeps | src/database/crud.py:31-34 | A stored id that no added entry uses keeps its row |
| Database.VotationDatabase.UpdateVotationMetadata | main.py:26-43 | It saves the scraped metadata list with the same outcome and count as the insert-if-new save |
| Database.TagAll | main.py:62-64 | One table row per scraped record, in scrape order, each tagged with the votation id |
| Database.VotationDatabase.AddVotationRows | main.py:62-65 | The vote table grows by exactly the tagged rows of the scraped records, appended in order |
| Database.VotationDatabase.LoadVotation | main.py:55-67 | The votation's rows are appended and the votation is marked loaded, even when the scrape returned nothing; no other metadata row changes |
| Database.VotationDatabase.UpdateVotationData | main.py:46-71 | Each votation with `loaded == False` is processed exactly once and no loaded one is scraped. Afterwards every votation is loaded and otherwise unchanged, and the vote table has gained exactly the tagged scraped rows of the processed votations |
| Database.ScrapedRowsByVotation | main.py:54-67 | After an update, querying the new rows for a votation yields exactly its scraped records tagged with its id; a votation that was not processed gets none |
| Database.VotationDatabase.AnalyzeVotations | main.py:86-126 | It lists every stored votation id exactly once, each the id of its own stored row; it fails exactly when no votation is stored, and otherwise returns the analysis of the vote table for those ids |
| Text.LowerChar | src/views/deputies.py:47 | The result is never an upper-case letter, and a character changes exactly when it is upper-case |
| Text.LowerIdempotent | src/views/deputies.py:47 | Case-folding twice is the same as folding once |
| Text.ContainsIff | src/views/deputies.py:47 | The substring search succeeds exactly when the term occurs at some position of the name |
| Text.ContainsEmpty | src/views/deputies.py:46-47 | The empty term occurs in every name |
| Text.LessIrreflexive | src/views/deputies.py:33 | No block name sorts before itself |
| Text.LessTransitive | src/views/deputies.py:33 | The order in which block names are sorted is transitive |
| Text.LessTotal | src/views/deputies.py:33 | Of two different block names, one sorts before the other |
| DeputiesView.Keep | src/views/deputies.py:44-47 | A filter keeps each row satisfying its condition as many times as it occurs, and no other row |
| DeputiesView.FilterByBlock | src/views/deputies.py:44-45 | 'All Blocks' keeps every row; any other choice keeps exactly the rows of that block |
| DeputiesView.FilterBySearch | src/views/deputies.py:46-47 | An empty term keeps every row; any other term keeps exactly the rows whose deputy name contains it, ignoring case |
| DeputiesView.FilteredMembers | src/views/deputies.py:43-47 | A row passes both filters exactly when its block is selected and its name matches the term |
| DeputiesView.NameMatchesIgnoresCase | src/views/deputies.py:47 | Changing the case of the name or of the term does not change whether they match |
| DeputiesView.EmptyTermMatchesAll | src/views/deputies.py:46-47 | Searching with the empty term would keep every row, so skipping the search for it changes nothing |
| DeputiesView.InsertByLoyalty | src/views/deputies.py:49 | Inserting into a list sorted by descending loyalty keeps it sorted and adds exactly that row |
| DeputiesView.SortByLoyalty | src/views/deputies.py:49 | The result is sorted by average loyalty, highest first, and is a permutation of the input |
| DeputiesView.InsertBlock | src/views/deputies.py:33 | Adding a name to a strictly ascending list keeps it strictly ascending, and the elements become the old ones plus that name |
| DeputiesView.SortedBlocks | src/views/deputies.py:33 | The blocks of the table, each once, in strictly ascending order |
| DeputiesView.BlockOptions | src/views/deputies.py:33 | The options are 'All Blocks' followed by every block of the table exactly once, in ascending order |
| DeputiesView.StrictlySortedNoDup | src/views/deputies.py:33 | A strictly ascending list has no repeated block |
| DeputiesView.TotalPages | src/views/deputies.py:66-67 | The page count is the ceiling of n / 20: it covers all n items, one page fewer would not, and it is 0 only for no items |
| DeputiesView.PageSlice | src/views/deputies.py:68-70 | Page p shows the items from position (p-1)*20 on, at most 20 of them. It is non-empty exactly when p <= the page count, and every page before the last is full |
| DeputiesView.PagesArePrefix | src/views/deputies.py:66-70 | Pages 1..k together are the first 20k items, clipped to the list |
| DeputiesView.PagesCoverList | src/views/deputies.py:66-70 | Pages 1..total_pages, one after the other, are exactly the sorted list, so the pages are disjoint and cover it in order |
| DeputiesView.PageOfItem | src/views/deputies.py:66-70 | Item i is on page i / 20 + 1, at position i % 20, and that page exists |
| DeputiesView.PageSliceOrdered | src/views/deputies.py:49-70 | A page of a loyalty-sorted list is itself sorted, and holds only items of the list |
| DeputiesView.ShownRowsQualify | src/views/deputies.py:43-70 | The rows shown on a page are at most 20 and sorted by loyalty, and each one is a table row that passes both filters |
| DeputiesView.InitializeFillsMissing | src/views/deputies.py:10-19 | Initialisation sets every variable, keeps those already set, and a second call changes nothing |
| DeputiesView.InitialSession | src/views/deputies.py:10-19 | A new session starts with 'All Blocks', an empty search, page 1 and no selected deputy |
| DeputiesView.FilterChangeResetsPage | src/views/deputies.py:21-40 | Choosing a different block or search term stores it and resets the page to 1; choosing the current one changes nothing; the other variables are untouched |
| DeputiesView.NavigationStaysInRange | src/views/deputies.py:87-98 | From a page in 1..total_pages, "Anterior" moves back one page only past page 1 and "Siguiente" forward one only before the last, so the page stays in 1..total_pages |
| DeputiesView.TransitionsKeepPageValid | src/views/deputies.py:10-98 | No callback or button ever makes the page number smaller than 1 |
| DeputiesView.DeputiesSession.constructor | src/views/deputies.py:10-19 | A new session has none of the view's variables set |
| DeputiesView.DeputiesSession.InitializeState | src/views/deputies.py:10-19 | The session becomes the initialised session: only missing variables get their defaults |
| DeputiesView.DeputiesSession.ResetPaginationState | src/views/deputies.py:21-23 | The page number becomes 1 and nothing else changes |
| DeputiesView.DeputiesSession.ChangeBlockFilter | src/views/deputies.py:37 | A different choice is stored and the page is reset to 1; the same choice changes nothing |
| DeputiesView.DeputiesSession.ChangeSearchTerm | src/views/deputies.py:40 | A different term is stored and the page is reset to 1; the same term changes nothing |
| DeputiesView.DeputiesSession.PressPrevious | src/views/deputies.py:87-93 | The page decreases by one only when there is more than one page and the page is past 1 |
| DeputiesView.DeputiesSession.PressNext | src/views/deputies.py:87-98 | The page increases by one only when there is more than one page and the page is before the last |
| DeputiesView.DeputiesSession.PressViewProfile | src/views/deputies.py:82-83 | The selected deputy becomes the deputy of the pressed row; nothing else changes |

## Left out

- Scraping (HTTP requests, HTML parsing, CSV files) is outside the model. The
  vote scraper is a function parameter. The metadata scraper's list is an
  argument of `UpdateVotationMetadata`.
- The body of the loyalty classifier `determine_loyalty_votation` is not part
  of this model. It is a function parameter returning six 0/1 flags per record.
  The model assumes the classifier returns one row per input row, with that
  row's block, deputy and vote.
- Reading a votation file and the read-only queries `analyze_votation`,
  `get_votations_metadata` and `get_votation_data` are not modelled. Neither are
  database sessions, connections or table creation. The two tables are an
  in-memory map and sequence.
- Means are exact reals, not floating point. The percentage formatting and
  the summary metrics of the list page are rendering and are left out.
- Aggregation.AnalyzeVotations: the ids are strings, and the conversion
  `int(row.id)` is not modelled. A non-numeric id, which would raise, and the
  comparison of the integer id with the text `vote_id` column are not
  captured.
- Analyzer.GetBlocksData, Aggregation.Aggregate: pandas drops rows whose group
  key is missing (NaN); such rows are not represented. A missing vote value is
  not represented either: `value_counts` skips it (analyzer.py:10), so that
  block's `count` would fall short and a block whose votes are all missing
  would vanish, and the `('vote', 'count')` column (main.py:118) skips it too. The pandas index and
  column order are not modelled either: the tables are maps.
- Database.VotationDatabase.UpdateVotationData: the order in which the query
  returns pending votations is not specified, so the model picks one and
  returns it. A scraper failure, which would abort before the commit, is not
  modelled. Neither is the single final commit: each votation's changes are
  applied as it is processed.
- Database.VotationDatabase.SaveVotationMetadata: entries carrying unknown
  keys, which the table constructor would reject, are not modelled.
- DeputiesView.FilterBySearch: the search term is matched as a literal
  substring, but the source's `str.contains` treats it as a regular
  expression. Case is folded only for ASCII and Latin-1 letters, not for all
  of Unicode.
- DeputiesView.SortByLoyalty: the source's sort is not stable, so the order of
  rows with equal loyalty is unspecified there. The model keeps their input
  order.
- DeputiesView.PageSlice: it requires page >= 1. Python's negative-index
  slicing for a page below 1 is not modelled; the session keeps the page at 1
  or above (`TransitionsKeepPageValid`).
- DeputiesView.DeputiesSession.PressPrevious and PressNext take the page count
  as a parameter. The caller computes it with `TotalPages` from the filtered
  list.
- The routing between the list and a deputy's profile page, the profile page
  itself, the dashboard and the predictions page are rendering and are left
  out.
