# offertanalys: a verified model of the quote pipeline

offertanalys is a Next.js application for a heating and plumbing contractor.
Suppliers' quotes (PDF or Excel) are uploaded into a procurement category of
a project. An LLM extracts the quote data, and the quotes of a category are
compared with one another. This project models the logic of that pipeline
and the record rules around it in Dafny, and proves properties about it:

- the recovery ladder that turns an LLM reply into JSON (`JsonRecovery`);
- the batch analysis of pending quotes, with its counters, error texts, derived totals and item replacement (`BatchAnalysis`, on the `QuoteTables` database object);
- the text a decoded workbook becomes (`ExcelText`);
- the saved comparisons of a category (`Comparisons`) and the comparison request (`Compare`);
- quote creation, patch, delete and listing (`QuotesRoute`);
- the tag matching of suppliers to generated categories (`CategoryMatching`);
- the category–supplier links (`CategorySuppliers`) and the request-email input (`EmailGenerate`);
- the file-type dispatch of the upload, process and view routes (`FileRoutes`);
- the client-side record logic of these components: the comparison view (`ComparisonView`), the supplier form (`SupplierForm`), the quote uploader (`QuoteUploader`), the supplier picker (`AddSupplierToCategory`), the supplier register page (`SuppliersPage`) and the project list (`Dashboard`).

Shared modules:

- `Js` models JavaScript values and operators: truthiness, `||`, `??`, property reads and `String(v)`.
- `Text` models the ASCII string functions: `trim`, `toLowerCase`, `indexOf`, `includes`, `lastIndexOf`.
- `Lists` models `filter` and `slice(0, k)` with its `+N` counter.
- `StringOrder` is the code-unit order used by `sort()`.
- `Search` holds the substring tests of the search boxes.

How things outside the application are modelled:

- Database tables are fields of classes: `QuoteDb` holds `quotes` and `quote_items`, `ComparisonsTable` the comparisons, and `LinkTable` the category–supplier links. The route handlers that write to them are methods.
- Each outcome of the outside world is a parameter of the operation that meets it: the LLM reply, the JSON parser, a failing database write, a storage download, the clock, and newly issued ids.
- Rendering is not modelled. Only the expressions that choose what is shown are.

## Model

| member | source | states |
|---|---|---|
| JsonRecovery.GroupStart | src/lib/claude.ts:156 | the capture group of the fence regex begins after the opening fence, after a `json` tag when one follows, and after all white space that follows; no backtick lies in between |
| JsonRecovery.FenceMatch | src/lib/claude.ts:156 | a found match is the leftmost opening fence, takes the optional `json` tag when present, is greedy on white space, and ends its lazy group at the first closing fence after it |
| JsonRecovery.FenceMatchComplete | src/lib/claude.ts:156 | whenever the text admits any match of the regex's shape, the match is found (none is missed) |
| JsonRecovery.FenceMatchNoneIff | src/lib/claude.ts:156-157 | the regex fails exactly when no fence is followed by a second fence starting at least three characters later |
| JsonRecovery.FenceGroup | src/lib/claude.ts:156-158 | `codeBlockMatch[1]` exists exactly when the regex matches, and is the text between the group start and the closing fence |
| JsonRecovery.FencedCandidate | src/lib/claude.ts:153-159 | the second candidate is the trimmed fenced body when the regex matches, and the raw text unchanged otherwise |
| JsonRecovery.OpeningOfReply | src/lib/claude.ts:156 | for text before a "```json" fence that has no backtick, the match starts at that fence and the group starts after the white space that follows it |
| JsonRecovery.ClosingOfGroup | src/lib/claude.ts:156 | the lazy group ends at the first fence after its start, so it spans exactly the backtick-free text before that fence |
| JsonRecovery.FencedCandidateOf | src/lib/claude.ts:156-158 | given where the opening fence, the group start and the closing fence lie, the second candidate is the trimmed text in between |
| JsonRecovery.FencedReplyYieldsBody | src/lib/claude.ts:153-159 | a reply of prose, then "```json", white space, a trimmed backtick-free body, white space and a closing fence yields exactly that body as the second candidate |
| JsonRecovery.BraceSpan | src/lib/claude.ts:165 | a found span is a slice of the candidate that starts at its first `{` and ends at its last `}`, with that `}` after the `{` |
| JsonRecovery.BraceSpanSomeIff | src/lib/claude.ts:165-166 | the brace regex matches exactly when some `{` is followed later by a `}` |
| JsonRecovery.FromBraces | src/lib/claude.ts:164-177 | the third stage: the brace span is tried exactly when one exists; success returns its parse without logging; failure throws 'Failed to parse Claude response as JSON' (or the comparison message) and logs as each route does |
| JsonRecovery.Climb | src/lib/claude.ts:148-177 | the three stages in order: the raw text first, then the fenced candidate, then the brace span; the first parse that succeeds is returned and no later stage is tried |
| JsonRecovery.Recover | src/lib/claude.ts:148-178 | the whole ladder on a reply text: its second candidate is `FencedCandidate` of the text, its third the brace span of that candidate |
| JsonRecovery.RawParsesFirst | src/lib/claude.ts:148-150 | when the raw text parses, its value is returned, nothing else is tried and nothing is logged |
| JsonRecovery.BraceSpanOnlyAfterFence | src/lib/claude.ts:161-168 | the brace span is tried exactly when both earlier candidates fail to parse and the second candidate has a span |
| JsonRecovery.FencedCandidateIsSlice | src/lib/claude.ts:153-159 | the second candidate is a contiguous slice of the raw reply |
| JsonRecovery.BraceSpanIsSlice | src/lib/claude.ts:165 | the brace span is a contiguous slice of the text it was found in |
| JsonRecovery.SpanCandidateIsSlice | src/lib/claude.ts:153-168 | the brace span of the second candidate is a slice of the raw reply |
| JsonRecovery.ClimbSlices | src/lib/claude.ts:148-169 | when the later candidates are slices of the raw text, every candidate the ladder tries is a slice of it |
| JsonRecovery.CandidatesAreSlices | src/lib/claude.ts:148-169 | every candidate tried, and hence every accepted value's source text, is a slice of the raw reply: the ladder never adds characters |
| JsonRecovery.ClimbLogging | src/lib/claude.ts:170-176 | whatever the second candidate, a failing extraction ladder logs the first 500 raw characters, a failing comparison ladder logs exactly when the brace span was tried, and a log line is always a prefix of at most 500 raw characters |
| JsonRecovery.FailureLogging | src/lib/claude.ts:170-176 | when the whole ladder fails, extraction logs the first 500 raw characters on both failure paths, and the comparison logs only when the brace span fails to parse |
| JsonRecovery.HandleReply | src/lib/claude.ts:142-178 | a failed call is passed on; a non-text first content block fails with 'Unexpected response type from Claude' before any parse; a text block goes through the ladder |
| JsonRecovery.SpecificationBlock | src/lib/claude.ts:262 | the specification block of the comparison prompt is present exactly when the specification text is truthy, and then holds that text under its heading |
| JsonRecovery.ComparisonContext | src/lib/claude.ts:257-262 | the prompt's context part states `quotes.length` as the count, followed by the specification block; without a specification it ends after the count |
| BatchAnalysis.EmptyToNull | src/app/api/quotes/analyze-batch/route.ts:7-10 | the result is `null` exactly for `''` and `undefined`; every other value, including 0 and false, passes through unchanged |
| BatchAnalysis.ItemAmount | src/app/api/quotes/analyze-batch/route.ts:70-71 | an item contributes its truthy `total`; without one, quantity × unit price when both are truthy, and 0 otherwise; a null item throws |
| BatchAnalysis.SumAmounts | src/app/api/quotes/analyze-batch/route.ts:69-72 | the reduce succeeds exactly when no item is null or undefined |
| BatchAnalysis.ItemAmounts | src/app/api/quotes/analyze-batch/route.ts:69-72 | for a list without null items, one amount per item, each the one `ItemAmount` gives |
| BatchAnalysis.SumAmountsIsSum | src/app/api/quotes/analyze-batch/route.ts:69-72 | the reduce yields the sum of every item's amount |
| BatchAnalysis.SumAmountsAppend | src/app/api/quotes/analyze-batch/route.ts:69-72 | the summed total is additive over any split of the item list |
| BatchAnalysis.SumOfTotals | src/app/api/quotes/analyze-batch/route.ts:69-72 | items that all carry a non-zero numeric `total` sum to the sum of those totals |
| BatchAnalysis.DerivedTotal | src/app/api/quotes/analyze-batch/route.ts:67-73 | a truthy extracted total is never replaced, and no sum is taken without items; otherwise the total is the sum of the item amounts |
| BatchAnalysis.DerivedTotalIsItemSum | src/app/api/quotes/analyze-batch/route.ts:67-73 | without a truthy stated total and with non-null items, the total is the sum of the items' amounts |
| BatchAnalysis.AnalysisUpdate | src/app/api/quotes/analyze-batch/route.ts:78-94 | the update marks the quote 'analyzed' with the current time, and never writes an `undefined` column |
| BatchAnalysis.UpdateContents | src/app/api/quotes/analyze-batch/route.ts:79-91 | the update stores the whole analysis, keeps the old supplier name unless the analysis names one, and writes the derived total with `''` as null |
| BatchAnalysis.SummaryText | src/app/api/quotes/analyze-batch/route.ts:90 | `ai_summary` is '<extracted name or Offert> - <item count> artiklar' |
| BatchAnalysis.ItemRow | src/app/api/quotes/analyze-batch/route.ts:103-111 | a new item row carries the quote id and its index as sort order; `total_price` comes from the item's own `total_price` key; a null item throws |
| BatchAnalysis.ItemRows | src/app/api/quotes/analyze-batch/route.ts:103-111 | the mapping succeeds exactly when no item is null, giving one row per item in order |
| BatchAnalysis.FailureReason | src/app/api/quotes/analyze-batch/route.ts:127-134 | the reason is an Error's message, a thrown string itself, String(message) of an object with a message, and 'Okänt fel' otherwise |
| BatchAnalysis.ExtractQuoteData | src/lib/claude.ts:142-178 | the extraction the route calls is the model reply for the quote text taken through the recovery ladder |
| BatchAnalysis.ErrorEntry | src/app/api/quotes/analyze-batch/route.ts:57-136 | a quote adds an error entry exactly when it does not succeed; a quote without text adds '<supplier_name>: Ingen text extraherad', and a failed extraction, update or item mapping adds '<supplier_name>: <reason>' |
| BatchAnalysis.Step | src/app/api/quotes/analyze-batch/route.ts:56-137 | processing one quote changes no other quote's row and no other quote's items |
| BatchAnalysis.NoTextFails | src/app/api/quotes/analyze-batch/route.ts:57-61 | a quote without extracted text fails with its 'Ingen text extraherad' entry, and nothing is written |
| BatchAnalysis.SuccessWrites | src/app/api/quotes/analyze-batch/route.ts:76-124 | a successful quote is marked 'analyzed', and its items stay as they were when the analysis has none |
| BatchAnalysis.NewItemsAreMapped | src/app/api/quotes/analyze-batch/route.ts:102-111 | the new rows of a successful quote are its extracted items mapped one by one, in order |
| BatchAnalysis.ItemsReplaced | src/app/api/quotes/analyze-batch/route.ts:101-122 | with both writes succeeding the items are exactly the new rows; a failed insert after the delete leaves none; a failed delete keeps the old rows first; the rows are numbered by position |
| BatchAnalysis.UpdateFailureWritesNothing | src/app/api/quotes/analyze-batch/route.ts:63-99 | a quote whose extraction, total or update fails leaves both tables unchanged |
| BatchAnalysis.TallyCounts | src/app/api/quotes/analyze-batch/route.ts:48-61 | success + failed equals the number of processed quotes, and there is one error entry per failure |
| BatchAnalysis.ErrorsInOrder | src/app/api/quotes/analyze-batch/route.ts:124-137 | the i-th error entry is the one the i-th failing quote of the batch produces on its own, and there is one per failing quote |
| BatchAnalysis.OthersUntouched | src/app/api/quotes/analyze-batch/route.ts:55-138 | a quote outside the batch keeps its row and its items |
| BatchAnalysis.QuotesIsolated | src/app/api/quotes/analyze-batch/route.ts:55-138 | in a batch of distinct ids each quote ends exactly as if it had been processed alone |
| BatchAnalysis.Selected | src/app/api/quotes/analyze-batch/route.ts:34-38 | the fetched quotes are the requested ids that name a pending quote, each once, with their stored rows |
| BatchAnalysis.SucceededNotReselected | src/app/api/quotes/analyze-batch/route.ts:38 | a quote that succeeded is no longer pending, so a later batch does not select it again |
| BatchAnalysis.AnalyzeOne | src/app/api/quotes/analyze-batch/route.ts:56-137 | the loop body writes the tables as `Step` says and returns the quote's error entry |
| BatchAnalysis.AnalyzeAll | src/app/api/quotes/analyze-batch/route.ts:48-138 | the loop's counters and errors are the tally of the batch, and the tables end as after processing each quote in turn |
| BatchAnalysis.Post | src/app/api/quotes/analyze-batch/route.ts:12-148 | 401 without the cookie, 500 without the API key, 400 for a missing, non-array or empty `quoteIds`, 500 when the fetch fails, 400 when no requested quote is pending; otherwise the tally; nothing is written on any error path |
| ExcelText.RowText | src/lib/parsers/excel.ts:28-31 | a row that is not an array or is empty yields nothing; any other row yields its cells joined by tabs and then a newline |
| ExcelText.SheetList | src/lib/parsers/excel.ts:21-24 | one entry per sheet, in order, with its name and the unmodified rows |
| ExcelText.AppendRows | src/lib/parsers/excel.ts:28-32 | the inner loop appends the text of the rows in order |
| ExcelText.ParseExcel | src/lib/parsers/excel.ts:11-43 | an undecodable workbook gives the one generic error; otherwise the text is the sheets' text trimmed and the sheet list is `SheetList` |
| ExcelText.SheetTextAt | src/lib/parsers/excel.ts:17-32 | each sheet's text, header first, occurs right after the text of the sheets before it, in sheet order |
| ExcelText.EmittedRows | src/lib/parsers/excel.ts:29 | the rows that produce output are exactly the non-empty array rows |
| ExcelText.SkippedRowsVanish | src/lib/parsers/excel.ts:28-31 | skipped rows leave no trace: the text equals that of the emitted rows alone |
| ExcelText.EmptySheetKeepsHeader | src/lib/parsers/excel.ts:27-32 | a sheet without an emitted row still contributes its header line |
| ExcelText.CellTexts | src/lib/parsers/excel.ts:30 | each cell is shown in place, with null and undefined cells as '' |
| ExcelText.SplitJoinCells | src/lib/parsers/excel.ts:30 | splitting an emitted row at tabs gives back the cell texts when no cell contains a tab |
| ExcelText.NoSheetsNoText | src/lib/parsers/excel.ts:36 | a workbook without sheets gives the empty text |
| ExcelText.TrimStartsAtFirstHeader | src/lib/parsers/excel.ts:27-36 | the trim removes the first header's leading newline, so the text starts with '=== <first sheet> ===' |
| ExcelText.EndsWithLastRow | src/lib/parsers/excel.ts:30 | when the last sheet's last row is emitted, the untrimmed text ends with that row and its newline |
| ExcelText.TrimEndsBeforeLastNewline | src/lib/parsers/excel.ts:30-36 | the trim removes the final row's newline, so the text ends with that row's cells |
| Comparisons.LatestIndex | src/app/api/comparisons/route.ts:17-23 | the newest row of the category, or none exactly when the category has no row |
| Comparisons.WithoutCategory | src/app/api/comparisons/route.ts:103-106 | the rows left after a delete are exactly the other categories' rows |
| Comparisons.SavedFields | src/app/api/comparisons/route.ts:62-70 | a falsy specification id is stored as null, `updated_at` is the current time, and category, quote ids and result are stored as sent |
| Comparisons.UpsertedOne | src/app/api/comparisons/route.ts:60-76 | after an upsert the category has exactly one comparison, holding this call's fields, and the other categories' rows are kept |
| Comparisons.SecondSaveReplaces | src/app/api/comparisons/route.ts:60-76 | a second save for the same category replaces the first |
| Comparisons.DeleteIdempotent | src/app/api/comparisons/route.ts:103-110 | deleting a category's comparisons twice leaves what one delete left |
| Comparisons.LatestOfSnoc | src/app/api/comparisons/route.ts:17-23 | a newly appended row of the category becomes its latest; one of another category changes nothing |
| Comparisons.DeleteKeepsOthers | src/app/api/comparisons/route.ts:103-106 | deleting one category does not change another category's latest comparison |
| Comparisons.WithoutKeepsOne | src/app/api/comparisons/route.ts:103-106 | a delete keeps at most one comparison per category |
| Comparisons.NewestFirst | src/app/api/compare/route.ts:98-101 | the listing order is the reverse of insertion order |
| Comparisons.OnlyCategory | src/app/api/compare/route.ts:103-105 | the filtered listing holds exactly the rows of the category |
| Comparisons.ComparisonsTable.constructor | src/app/api/comparisons/route.ts:60-76 | an empty table satisfies the one-row-per-category invariant |
| Comparisons.ComparisonsTable.GetLatest | src/app/api/comparisons/route.ts:5-39 | 401 without the cookie, 400 without categoryId, 500 on a failed query, and otherwise the newest comparison of the category or null |
| Comparisons.ComparisonsTable.Post | src/app/api/comparisons/route.ts:41-85 | 401 without the cookie, 400 unless category_id, quote_ids and result are present, 500 on a failed write; otherwise the table is upserted and the category's one comparison is returned; one comparison per category is kept |
| Comparisons.ComparisonsTable.Delete | src/app/api/comparisons/route.ts:87-115 | 401 without the cookie, 400 without categoryId, 500 on a failed query; otherwise success, whether or not a row existed, with the category's rows gone |
| Comparisons.ComparisonsTable.Insert | src/app/api/compare/route.ts:62-75 | the plain insert of the compare route appends the row with a fresh id, and fails when the write fails or the category already has a comparison |
| Comparisons.ComparisonsTable.List | src/app/api/compare/route.ts:94-113 | 500 on a failed query; otherwise the comparisons newest first, filtered by category only when one is given |
| Compare.AcceptableArray | src/app/api/compare/route.ts:9-14 | for an array of ids the request is accepted exactly when categoryId is truthy and at least two ids are requested |
| Compare.QuoteForComparison | src/app/api/compare/route.ts:40-51 | the entry sent for a quote has its supplier name, and its `ai_analysis`, or the fallback built from its total, items and terms when there is none |
| Compare.QuotesForComparison | src/app/api/compare/route.ts:40-51 | one entry per fetched quote, in fetch order |
| Compare.ProjectName | src/app/api/compare/route.ts:55 | the project name of the category, falling back to 'Okänt projekt' |
| Compare.SavedRow | src/app/api/compare/route.ts:62-75 | the stored row holds category, quote ids, the recommended supplier and the summary; building it throws exactly when the comparison or its recommendation is null |
| Compare.ResponseBody | src/app/api/compare/route.ts:77-84 | the response is the comparison's fields with the saved id added |
| Compare.UnsavedResponse | src/app/api/compare/route.ts:77-84 | after a failed save the comparison is still returned, with id undefined |
| Compare.EntriesTellQuotesApart | src/lib/claude.ts:264-265 | quotes that differ in a supplier name or a stored analysis give the prompt's `OFFERTER` block different entries |
| Compare.Post | src/app/api/compare/route.ts:5-91 | 400 when categoryId is missing or fewer than two ids are requested (counted before the fetch), 500 on a failed fetch or comparison; otherwise the comparison, whether or not the insert succeeds |
| QuotesRoute.NewQuote | src/app/api/quotes/route.ts:36-56 | currency defaults to 'SEK', vat_included to false and status to 'received' when the body's values are falsy |
| QuotesRoute.DefaultsApply | src/app/api/quotes/route.ts:45-54 | a body without these values gets exactly the three defaults |
| QuotesRoute.NewItem | src/app/api/quotes/route.ts:66-77 | an item row maps total to total_amount, type to item_type and category to product_category, with unit defaulting to 'ST'; a null item throws |
| QuotesRoute.NewItems | src/app/api/quotes/route.ts:63-78 | the mapping succeeds exactly when no item is null, giving one row per item in order |
| QuotesRoute.Post | src/app/api/quotes/route.ts:29-94 | a failed insert is a 500 with nothing written; otherwise the quote is created with its defaults, items are inserted only when `items` is non-empty, a failed item insert still returns the quote, and a null item gives a 500 after the quote was created |
| QuotesRoute.Updates | src/app/api/quotes/route.ts:98-104 | the patch writes every body field except id, plus a fresh `updated_at` |
| QuotesRoute.Patch | src/app/api/quotes/route.ts:96-118 | a failed update or an unknown id is a 500 with nothing changed; otherwise the quote is merged with the updates and returned, its items untouched |
| QuotesRoute.PatchKeepsRest | src/app/api/quotes/route.ts:98-104 | a column the body leaves undefined keeps its old value |
| QuotesRoute.Delete | src/app/api/quotes/route.ts:120-138 | 400 without an id, 500 on a failed delete, and otherwise the quote is removed |
| QuotesRoute.Listing | src/app/api/quotes/route.ts:9-18 | the listing holds the quotes of the category (all quotes when none is given), each with its items embedded |
| QuotesRoute.RowValues | src/app/api/quotes/route.ts:11 | the embedded items are the item rows as objects, in order |
| QuotesRoute.List | src/app/api/quotes/route.ts:4-27 | 500 on a failed query, and otherwise the listing |
| QuoteTables.QuoteDb.constructor | src/app/api/quotes/analyze-batch/route.ts:34-38 | the database object starts with the given `quotes` and `quote_items` tables |
| CategoryMatching.MatchesSome | src/app/api/categories/generate/route.ts:49-52 | a supplier tag matches when some suggested tag matches it |
| CategoryMatching.AnyTagMatches | src/app/api/categories/generate/route.ts:48-53 | a tag list matches when some of its tags matches some suggested tag |
| CategoryMatching.SupplierMatchesIff | src/app/api/categories/generate/route.ts:47-53 | a supplier matches exactly when it has tags and some tag t and suggested s have lower(t) containing lower(s) or lower(s) containing lower(t) |
| CategoryMatching.TagsMatchSymmetric | src/app/api/categories/generate/route.ts:49-51 | the tag test is symmetric in its two tags |
| CategoryMatching.EmptySuggestionMatchesAll | src/app/api/categories/generate/route.ts:49-51 | an empty suggested tag matches every supplier with at least one tag |
| CategoryMatching.SameTagMatches | src/app/api/categories/generate/route.ts:49-51 | tags equal up to case match |
| CategoryMatching.Matched | src/app/api/categories/generate/route.ts:47-54 | the matched list is never longer than the supplier list; what it holds is stated by MatchedMembers |
| CategoryMatching.MatchedAppend | src/app/api/categories/generate/route.ts:47-54 | matching goes supplier by supplier, so the query order is kept |
| CategoryMatching.MatchedSingle | src/app/api/categories/generate/route.ts:54 | a single supplier yields its id and name exactly when it matches |
| CategoryMatching.MatchedMembers | src/app/api/categories/generate/route.ts:47-54 | the matched list holds the id and name of exactly the matching suppliers |
| CategoryMatching.WithSuppliers | src/app/api/categories/generate/route.ts:46-63 | one entry per generated category, in order, with its fields unchanged plus its matched suppliers, which are [] when the supplier list is missing |
| CategoryMatching.UntaggedSkipped | src/app/api/categories/generate/route.ts:48 | a supplier without tags never matches, wherever it is in the list |
| CategoryMatching.Post | src/app/api/categories/generate/route.ts:7-79 | 401 without the cookie, 400 without specificationId, 404 for an unknown specification, 400 for one without text, 500 exactly when generation fails, and otherwise `Ok` with the specification's id and name and the generated categories with their matches |
| CategorySuppliers.OfCategory | src/app/api/category-suppliers/route.ts:19-27 | the listed links are exactly the links of the category |
| CategorySuppliers.OfCategoryAppend | src/app/api/category-suppliers/route.ts:19-27 | the listing keeps the table's creation order: it goes link by link |
| CategorySuppliers.NewLink | src/app/api/category-suppliers/route.ts:55-61 | a new link always starts as 'pending' and carries the category, supplier, deadline and notes sent |
| CategorySuppliers.Updates | src/app/api/category-suppliers/route.ts:98-110 | `updated_at` is always set; status only when truthy; `sent_at` exactly when status is 'sent'; deadline and notes exactly when not undefined, so null clears them |
| CategorySuppliers.UpdateWhere | src/app/api/category-suppliers/route.ts:112-117 | the link with that id is merged with the updates, and every other link is kept |
| CategorySuppliers.DeleteWhere | src/app/api/category-suppliers/route.ts:145-148 | the links left are exactly those with another id |
| CategorySuppliers.UpdateKeepsWellFormed | src/app/api/category-suppliers/route.ts:98-117 | an update keeps ids unique and every category–supplier pair once |
| CategorySuppliers.DeleteKeepsWellFormed | src/app/api/category-suppliers/route.ts:145-148 | a delete keeps ids unique and every pair once |
| CategorySuppliers.LinkTable.constructor | src/app/api/category-suppliers/route.ts:55-71 | an empty link table is well formed |
| CategorySuppliers.LinkTable.List | src/app/api/category-suppliers/route.ts:6-36 | 401 without the cookie, 400 without categoryId, 500 on a failed query, and otherwise the category's links |
| CategorySuppliers.LinkTable.Add | src/app/api/category-suppliers/route.ts:38-81 | 401 without the cookie, 400 unless category_id and supplier_id are given, 409 for a unique violation (a pair already linked or a taken id), 500 on another failed insert, and otherwise a new pending link appended; ids and pairs stay unique |
| CategorySuppliers.LinkTable.Patch | src/app/api/category-suppliers/route.ts:83-132 | 401 without the cookie, 400 without an id, 500 when the update fails or no link has the id, and otherwise that link merged with `Updates` and returned |
| CategorySuppliers.LinkTable.Remove | src/app/api/category-suppliers/route.ts:134-160 | 401 without the cookie, 400 without an id, 500 on a failed delete, and otherwise the link removed |
| CategorySuppliers.LinkTable.MarkReminderSent | src/app/api/category-suppliers/route.ts:162-172 | sets `reminder_sent_at` and `updated_at`, and reports true exactly when the update had no error |
| CategorySuppliers.LinkIndex | src/app/api/category-suppliers/route.ts:112-120 | the position of the link with that id, or none exactly when no link has it |
| CategorySuppliers.PatchedLink | src/app/api/category-suppliers/route.ts:98-117 | a patched link keeps its id, category and supplier, and is 'sent' with the current time when status 'sent' was sent |
| EmailGenerate.Excerpt | src/app/api/email/generate/route.ts:82-88 | a text of at most 2000 characters is kept whole; a longer one becomes its first 2000 characters followed by '\n\n[...]' |
| EmailGenerate.ExcerptBounds | src/app/api/email/generate/route.ts:82-88 | the excerpt is at most 2000 characters plus the marker, and longer than 2000 exactly when the text is |
| EmailGenerate.ExcerptKeepsPrefix | src/app/api/email/generate/route.ts:82-88 | the excerpt starts with the text's first 2000 characters, or all of it |
| EmailGenerate.ProjectOf | src/app/api/email/generate/route.ts:51-59 | the joined project is used when there is one; it is fetched separately only when there is none and project_id is set |
| EmailGenerate.SpecificationExcerpt | src/app/api/email/generate/route.ts:74-89 | there is no excerpt unless the category names a source specification and that specification has non-empty text |
| EmailGenerate.Request | src/app/api/email/generate/route.ts:91-101 | the mail input: project name defaulting to 'Okänt projekt', scope = scope_description, else description, else name, and the supplier's name and contact person |
| EmailGenerate.ScopeFallback | src/app/api/email/generate/route.ts:93 | the scope is the first truthy one of scope_description, description and name |
| EmailGenerate.ProjectFallback | src/app/api/email/generate/route.ts:97 | without a project the name is 'Okänt projekt' |
| EmailGenerate.Post | src/app/api/email/generate/route.ts:15-120 | 401 without the cookie, 400 unless categoryId, supplierId and deadline are given, 404 for an unknown category or supplier; then 500 exactly when the excerpt or the writer throws or the mail is null, and otherwise `Ok` with the mail's subject and body and the supplier's e-mail, contact person and name as recipient |
| EmailGenerate.FailuresAfterCheck | src/app/api/email/generate/route.ts:45-71 | once the input is complete, an unknown category or supplier gives 404 |
| FileRoutes.KindOf | src/app/api/quotes/upload/route.ts:16-28 | the lower-cased name ending in '.pdf' is a PDF, one ending in '.xlsx' or '.xls' is Excel, and anything else is unsupported |
| FileRoutes.KindIgnoresCase | src/app/api/quotes/upload/route.ts:16 | the dispatch ignores the case of the name |
| FileRoutes.UpperCaseExtensions | src/app/api/quotes/upload/route.ts:16-28 | '.XLS' and '.PDF' names are dispatched like lower-case ones |
| FileRoutes.WorkbookText | src/lib/parsers/excel.ts:11-43 | the route-side view of `parseExcel`'s text (the loop itself is the method `ExcelText.ParseExcel`): an undecodable workbook throws the generic Excel error; otherwise the text is the trimmed sheets' text, as ParseExcel's ensures promise |
| FileRoutes.UploadPost | src/app/api/quotes/upload/route.ts:5-42 | 400 without a file or for an unsupported type, 500 when the parser throws; success echoes the original file name, the size and the text |
| FileRoutes.ProcessPost | src/app/api/files/process/route.ts:10-79 | 401 without the session_id cookie, 400 unless filePath and fileName are given, 500 on a failed download before any parsing, 400 for an unsupported type; success returns fileName, filePath and the text |
| FileRoutes.RoutesAgree | src/app/api/files/process/route.ts:52-65 | for the same file the process route extracts the same text as the upload route |
| FileRoutes.ContentType | src/app/api/files/view/route.ts:32-40 | pdf, xlsx and xls after the last '.' map to their MIME types, exactly, and anything else to application/octet-stream |
| FileRoutes.DotlessPath | src/app/api/files/view/route.ts:32 | a path without a dot is its own extension: 'pdf' is a PDF, 'docs/report' is octet-stream |
| FileRoutes.DownloadName | src/app/api/files/view/route.ts:48 | the filename is the part of the path after its last '/' |
| FileRoutes.ViewGet | src/app/api/files/view/route.ts:5-55 | 401 without the cookie, 400 without a path, 404 on a failed download; otherwise the downloaded bytes unchanged, with that content type and filename |
| ComparisonView.DisplayTotal | src/components/analysis/ComparisonView.tsx:169 | adjusted_total ?? raw_total ?? total ?? 0 |
| ComparisonView.RawTotal | src/components/analysis/ComparisonView.tsx:170 | raw_total ?? total |
| ComparisonView.ZeroAdjustedKept | src/components/analysis/ComparisonView.tsx:169 | an adjusted total of 0 is shown as 0, not replaced |
| ComparisonView.OldFormat | src/components/analysis/ComparisonView.tsx:169-171 | a ranking entry without adjusted and raw totals shows its total and has no adjustment |
| ComparisonView.AdjustedDiffersFromRaw | src/components/analysis/ComparisonView.tsx:169-171 | with an adjustment, the adjusted total is shown and differs from the raw total |
| ComparisonView.RawLine | src/components/analysis/ComparisonView.tsx:206 | the raw-total line shows exactly when there is an adjustment and the raw total is truthy |
| ComparisonView.Ranking | src/components/analysis/ComparisonView.tsx:167-211 | one row per entry in the order received, numbered from 1, only the first highlighted, with its display total, raw-total line and the 'dyrare' line exactly when difference_from_lowest > 0; nothing is sorted |
| ComparisonView.OneHighlighted | src/components/analysis/ComparisonView.tsx:176-194 | exactly entry 0 is highlighted |
| ComparisonView.BadgeBand | src/components/analysis/ComparisonView.tsx:247-251 | a score of 80 or more is success, 60 to 79 warning, anything lower danger |
| ComparisonView.BarMatchesBadge | src/components/analysis/ComparisonView.tsx:261-267 | the bar's colour agrees with the badge's band |
| ComparisonView.BandMonotone | src/components/analysis/ComparisonView.tsx:247-251 | a higher score never gets a worse band |
| ComparisonView.WithCounter | src/components/analysis/ComparisonView.tsx:280-287 | the met and missing lists show the first 5 items and '+(n−5) till' when there are more |
| ComparisonView.WithoutCounter | src/components/analysis/ComparisonView.tsx:318 | the extras list shows the first 5 items with no counter |
| ComparisonView.ExtrasShowSameEntries | src/components/analysis/ComparisonView.tsx:280-318 | both lists show the same leading entries, and the counter accounts for the rest |
| ComparisonView.CategoryBadge | src/components/analysis/ComparisonView.tsx:111-114 | a category badge is 'info' exactly when the category is common to all quotes; otherwise it is a warning with ' (ej i alla)' |
| ComparisonView.CategoryBadges | src/components/analysis/ComparisonView.tsx:111-114 | one badge per found category, in order |
| ComparisonView.BadgesWhenAllCommon | src/components/analysis/ComparisonView.tsx:111-114 | when every found category is common, all badges are plain info badges |
| SupplierForm.TextOr | src/components/suppliers/SupplierForm.tsx:37-44 | a missing text field loads as '' |
| SupplierForm.Load | src/components/suppliers/SupplierForm.tsx:34-61 | the form loads the supplier's fields with '', 0 and [] defaults, or all-empty fields without a supplier |
| SupplierForm.AddTag | src/components/suppliers/SupplierForm.tsx:88-97 | the input is trimmed and lower-cased; an empty or present tag changes nothing and keeps the input; otherwise the tag is appended and the input cleared |
| SupplierForm.AddTagKeepsDistinct | src/components/suppliers/SupplierForm.tsx:90-95 | adding a tag never introduces a duplicate |
| SupplierForm.AddedTagIsNormal | src/components/suppliers/SupplierForm.tsx:89-95 | an added tag goes last and is stored trimmed and lower-cased |
| SupplierForm.RemoveTag | src/components/suppliers/SupplierForm.tsx:99-104 | every equal entry is deleted and the others are kept |
| SupplierForm.RemoveTagAppend | src/components/suppliers/SupplierForm.tsx:99-104 | removal works entry by entry, so the order of the rest is kept |
| SupplierForm.RemoveAbsent | src/components/suppliers/SupplierForm.tsx:99-104 | removing a tag that is not there changes nothing |
| SupplierForm.RemoveUndoesAdd | src/components/suppliers/SupplierForm.tsx:88-104 | removing a just-added tag restores the tag list |
| SupplierForm.Rate | src/components/suppliers/SupplierForm.tsx:229-237 | clicking the current star resets the rating to 0; any other star sets it |
| SupplierForm.RatingStaysInRange | src/components/suppliers/SupplierForm.tsx:229-237 | the rating stays within 0 to 5, and a second click on a star clears it |
| SupplierForm.SubmittedRating | src/components/suppliers/SupplierForm.tsx:78 | a rating of 0 is submitted as undefined, and any other as itself |
| SupplierForm.FormState.constructor | src/components/suppliers/SupplierForm.tsx:34-61 | the form starts as `Load` of the supplier, with no error and not saving |
| SupplierForm.FormState.Submit | src/components/suppliers/SupplierForm.tsx:65-86 | a blank trimmed name sets 'Namn krävs' and submits nothing; otherwise the form is submitted with its rating (0 as undefined), a save closes the form, a thrown Error shows its message and anything else 'Kunde inte spara', and saving ends false |
| SupplierForm.BlankNameRefused | src/components/suppliers/SupplierForm.tsx:67 | the name counts as blank exactly when it is all white space |
| QuoteUploader.NewEntries | src/components/quotes/QuoteUploader.tsx:50-67 | exactly the PDF and Excel files are kept, each as a pending entry |
| QuoteUploader.NewEntriesAppend | src/components/quotes/QuoteUploader.tsx:57-67 | the kept files stay in their selected order |
| QuoteUploader.FilenameStem | src/components/quotes/QuoteUploader.tsx:114 | the supplier name is the file name without a last extension of one or more characters that contain no '.' or '/' |
| QuoteUploader.StemCases | src/components/quotes/QuoteUploader.tsx:114 | the name is shortened exactly when its last '.' is followed by a non-empty, slash-free extension |
| QuoteUploader.StemExamples | src/components/quotes/QuoteUploader.tsx:114 | 'a.b.pdf' becomes 'a.b'; names without a dot, ending in a dot, or with a dot only in a folder are unchanged |
| QuoteUploader.QuoteBody | src/components/quotes/QuoteUploader.tsx:109-117 | each created quote carries the category, the file-name stem, the extracted text and status 'pending' |
| QuoteUploader.Attempt | src/components/quotes/QuoteUploader.tsx:91-124 | a thrown upload or a refused response is the entry's error, with the body's `error` or the fixed message; success needs both requests to succeed |
| QuoteUploader.Settled | src/components/quotes/QuoteUploader.tsx:84-139 | a complete entry is skipped; any other ends complete exactly when its attempt succeeds, and otherwise as an error |
| QuoteUploader.SucceededBound | src/components/quotes/QuoteUploader.tsx:80-129 | newly completed entries and already complete ones together do not exceed the list |
| QuoteUploader.RetryNeverClears | src/components/quotes/QuoteUploader.tsx:145 | when some entry was already complete, the success count stays below the list length |
| QuoteUploader.CompleteMeansCounted | src/components/quotes/QuoteUploader.tsx:84 | a complete entry in the prefix counts in `CompleteBefore` |
| QuoteUploader.Uploader.constructor | src/components/quotes/QuoteUploader.tsx:21-22 | the uploader starts with no files and not uploading |
| QuoteUploader.Uploader.HandleFiles | src/components/quotes/QuoteUploader.tsx:50-70 | the kept files are appended after the existing entries |
| QuoteUploader.Uploader.RemoveFile | src/components/quotes/QuoteUploader.tsx:72-74 | only the entry at that index is removed; an index outside the list changes nothing |
| QuoteUploader.Uploader.UploadOne | src/components/quotes/QuoteUploader.tsx:83-139 | only entry i changes, to its settled state, and the result says whether it completed |
| QuoteUploader.Uploader.UploadAll | src/components/quotes/QuoteUploader.tsx:76-151 | an empty list does nothing; otherwise the success count is the number of entries completed in this run, and the list clears exactly when that count is the list length |
| AddSupplierToCategory.Filtered | src/components/email/AddSupplierToCategory.tsx:59-71 | a supplier is listed exactly when it is not in the category and the search is empty or matches its name, contact person or a tag |
| AddSupplierToCategory.FilteredKeepsOrder | src/components/email/AddSupplierToCategory.tsx:59 | the fetched order is kept |
| AddSupplierToCategory.EmptySearchListsRemaining | src/components/email/AddSupplierToCategory.tsx:61-64 | an empty search lists every supplier not yet in the category |
| AddSupplierToCategory.SearchIgnoresCase | src/components/email/AddSupplierToCategory.tsx:65-70 | a lower-cased search lists the same suppliers |
| AddSupplierToCategory.EmptyStateMessage | src/components/email/AddSupplierToCategory.tsx:95-99 | none registered when nothing was fetched, else no match when a search is typed, else all already added |
| AddSupplierToCategory.EmptyStateIsAccurate | src/components/email/AddSupplierToCategory.tsx:93-100 | the message shown for an empty list is true of the fetched suppliers |
| AddSupplierToCategory.TagBadges | src/components/email/AddSupplierToCategory.tsx:120-131 | no badges without tags; the first 3 tags exactly when there are more, with '+N' for N = count − 3, and all of them otherwise |
| Search.EmptyQueryMentions | src/components/email/AddSupplierToCategory.tsx:66-69 | the empty query is contained in every present field and in every non-empty tag list |
| StringOrder.BelowIrreflexive | src/app/dashboard/suppliers/page.tsx:23 | no tag sorts before itself |
| StringOrder.BelowTransitive | src/app/dashboard/suppliers/page.tsx:23 | the sort order is transitive |
| StringOrder.BelowTotal | src/app/dashboard/suppliers/page.tsx:23 | any two different tags are ordered one way or the other |
| StringOrder.BelowAsymmetric | src/app/dashboard/suppliers/page.tsx:23 | no two tags sort before each other |
| StringOrder.AscendingDistinct | src/app/dashboard/suppliers/page.tsx:22-24 | a strictly ascending list has no duplicates |
| StringOrder.Insert | src/app/dashboard/suppliers/page.tsx:22-24 | inserting into an ascending list keeps it ascending and adds exactly the new tag |
| StringOrder.SortedDistinct | src/app/dashboard/suppliers/page.tsx:22-24 | the result is ascending and holds exactly the input's tags |
| StringOrder.AscendingUnique | src/app/dashboard/suppliers/page.tsx:22-24 | two ascending lists with the same members are equal |
| StringOrder.SortedDistinctSameSet | src/app/dashboard/suppliers/page.tsx:22-24 | inputs with the same members give the same sorted list |
| SuppliersPage.TagList | src/app/dashboard/suppliers/page.tsx:23 | a supplier's tags, or [] when it has none |
| SuppliersPage.TagsOf | src/app/dashboard/suppliers/page.tsx:23 | the flattened list holds exactly the tags some supplier carries |
| SuppliersPage.AllTags | src/app/dashboard/suppliers/page.tsx:22-24 | every tag some supplier carries, once each, in ascending order |
| SuppliersPage.AllTagsIgnoreOrder | src/app/dashboard/suppliers/page.tsx:22-24 | the tag list does not depend on the order the suppliers were fetched in |
| SuppliersPage.Filtered | src/app/dashboard/suppliers/page.tsx:89-99 | a supplier is shown exactly when the search is empty or matches its name, contact person, e-mail or a tag |
| SuppliersPage.EmptySearchShowsAll | src/app/dashboard/suppliers/page.tsx:90 | an empty search shows every supplier, in order |
| SuppliersPage.FoundByEmail | src/app/dashboard/suppliers/page.tsx:95 | a supplier is found by its e-mail address alone |
| SuppliersPage.SearchIgnoresCase | src/app/dashboard/suppliers/page.tsx:91-98 | a lower-cased search shows the same suppliers |
| SuppliersPage.TagBar | src/app/dashboard/suppliers/page.tsx:149-179 | no bar without tags; the first 10 tags exactly when there are more, with '+N till' for N = count − 10, and all of them otherwise |
| SuppliersPage.ToggleTag | src/app/dashboard/suppliers/page.tsx:165 | clicking the selected tag clears the selection; clicking any other selects it |
| SuppliersPage.SelectionIsATag | src/app/dashboard/suppliers/page.tsx:162-165 | a click on the bar only ever selects a tag some supplier carries |
| SuppliersPage.AfterDelete | src/app/dashboard/suppliers/page.tsx:69-77 | a failed delete keeps the list; a successful one removes exactly the suppliers with that id |
| SuppliersPage.DeleteIdempotent | src/app/dashboard/suppliers/page.tsx:69-77 | deleting the same id again changes nothing more |
| SuppliersPage.DeleteKeepsOrder | src/app/dashboard/suppliers/page.tsx:69-77 | the remaining suppliers keep their order |
| SuppliersPage.Save | src/app/dashboard/suppliers/page.tsx:48-67 | PUT with the edited id when editing and POST otherwise; a failed response throws the body's error or 'Kunde inte spara' (or the TypeError of reading `error` from a null body) and keeps the editing state; success clears it |
| SuppliersPage.EditSendsId | src/app/dashboard/suppliers/page.tsx:49-52 | an edit sends the supplier's id with the data's fields unchanged; an id in the data itself wins |
| SuppliersPage.FailureWithoutMessage | src/app/dashboard/suppliers/page.tsx:60-63 | a failure whose body has no error text shows 'Kunde inte spara' |
| Dashboard.Filtered | src/app/dashboard/page.tsx:92-97 | a project is shown exactly when the lower-cased search occurs in its lower-cased name, project number or client |
| Dashboard.EmptySearchKeepsAll | src/app/dashboard/page.tsx:92-97 | an empty search keeps every project, in order |
| Dashboard.MissingFieldsNeverMatch | src/app/dashboard/page.tsx:94-96 | a missing project number or client never matches |
| Dashboard.SearchIgnoresCase | src/app/dashboard/page.tsx:93-96 | a lower-cased search shows the same projects |
| Dashboard.Create | src/app/dashboard/page.tsx:68-90 | a blank trimmed name does nothing; otherwise the form is posted, a created project is prepended and the form reset and closed, and `creating` always ends false |
| Dashboard.CreatedShownFirst | src/app/dashboard/page.tsx:79-97 | a created project that matches the search is shown first, before the earlier projects |
| Dashboard.EmptyStateFor | src/app/dashboard/page.tsx:157-164 | the empty-state heading and hint depend only on whether a search is typed |
| Dashboard.NoProjectsYetIsAccurate | src/app/dashboard/page.tsx:153-170 | 'Inga projekt ännu' is shown only when there really are no projects |
| Lists.Filter | src/components/email/AddSupplierToCategory.tsx:59 | `filter` keeps exactly the elements that pass the test, and every kept element passes it |
| Lists.FilterAppend | src/components/email/AddSupplierToCategory.tsx:59 | `filter` works piece by piece, so kept elements keep their relative order |
| Lists.Truncate | src/app/dashboard/suppliers/page.tsx:162-179 | `slice(0, k)` shows the whole list when it has at most k entries, else the first k and a counter of the rest |
| Lists.TruncateAccountsForAll | src/components/analysis/ComparisonView.tsx:280-287 | the shown entries lead the list, and they with the counter account for every entry |
| Text.Take | src/lib/claude.ts:171 | `substring(0, 500)` is the prefix of at most that many characters |
| Text.IndexFrom | src/lib/claude.ts:156 | the first occurrence of a pattern at or after a position, or none exactly when there is no later occurrence |
| Text.NatToString | src/lib/claude.ts:260 | a count is written as decimal digits without a leading zero, whose decimal value is the count |
| Text.Trim | src/lib/parsers/excel.ts:36 | `trim` removes the leading and trailing white space and nothing else |
| Text.TrimEmptyIff | src/components/suppliers/SupplierForm.tsx:67 | a trimmed string is empty exactly when the string is all white space |
| Text.TrimIsSlice | src/lib/claude.ts:158 | a trimmed string is a slice of the string |
| Text.TrimOfPadded | src/lib/claude.ts:158 | trimming a trimmed body framed by white space gives the body |
| Text.TrimKeepsStart | src/lib/parsers/excel.ts:36 | trimming keeps a leading part that starts with a non-space character |
| Text.TrimKeepsEnd | src/lib/parsers/excel.ts:36 | trimming keeps a trailing part that ends with a non-space character |
| Text.ToLower | src/app/dashboard/page.tsx:93 | lower-casing maps each character, keeping the length |
| Text.LowerIdempotent | src/app/dashboard/page.tsx:93 | lower-casing twice is lower-casing once |
| Text.IndexOf | src/app/api/files/view/route.ts:32 | the first position at which the pattern occurs, or none exactly when it occurs nowhere |
| Text.ContainsIff | src/app/dashboard/page.tsx:94 | `includes` holds exactly when the pattern occurs at some position |
| Text.ContainsEmpty | src/app/dashboard/page.tsx:94 | every string contains the empty string |
| Text.LastIndexOf | src/app/api/files/view/route.ts:32 | the last position of the character, or none exactly when it does not occur |
| Text.AfterLast | src/app/api/files/view/route.ts:48 | the text after the last occurrence of a character, which contains no such character |

## Left out

- Model calls: the streaming request, the model name, token limits and the prompt wording are not modelled; the reply is an input (`reply` in `BatchAnalysis.ExtractQuoteData` and `Compare.Post`); of the prompt text only the comparison's count line and specification block are modelled. The `OFFERTER` block is handed to the reply as the quote entries themselves (`Compare.CompareQuotes`); their `JSON.stringify` layout is not modelled.
- `generateQuoteRequestEmail` and `generateCategoriesFromSpec` are not part of this model; they are the parameters `write` and `generate`.
- JSON parsing is a parameter `parse: string -> Option<J>`; `request.json()` is a body of type `Option<Value>`, where `None` means it threw. A body that is an array or a scalar is read through `Get` like any other value.
- Supabase: tables are maps and sequences in the classes; queries are these functions over them. Query and write failures are boolean parameters, and so are the error objects the batch update returns. PostgREST ordering, `ilike`, `overlaps`, joins and the PGRST116 code are reduced to "no row". Tables kept as sequences list rows in insertion order for `created_at` ordering; tables kept as maps (`QuotesRoute.Listing`) promise no order.
- Comparisons: the upsert on `category_id` needs a unique constraint there, so the table keeps at most one comparison per category, and the plain insert of the compare route fails (and is tolerated) for a category that already has one. The schema is not part of this model.
- The order in which the batch query returns quotes is unspecified; the model processes them in request order, each id once.
- The database's cascade of `quote_items` on a quote delete is not modelled; `QuotesRoute.Delete` leaves the item rows.
- pdfjs text extraction and XLSX decoding are parameters (`Parsers`); the Excel model starts from the decoded sheet list, with a cell as a string, a number, a boolean, null or undefined.
- Numbers are unbounded integers: IEEE-754 rounding, fractional amounts and JS coercion of strings in `quantity * unit_price` are not modelled; a non-number read as an amount counts as 0, `ComparisonView.Dearer` treats a numeric string as not above 0 where JS would convert it, and `String(n)` is written only for integers.
- Strings are sequences of characters: `trim`, `\s` and `toLowerCase` are ASCII-only, and UTF-16 surrogate pairs are single characters, so `sort()` on tags outside the Basic Multilingual Plane and the 500- and 2000-character cuts can differ from JS there.
- Cookies, the API-key check and the session check are booleans; PIN login, the health `GET` of email/generate and the `details` fields of error bodies are not modelled.
- React: state updates, effects, async ordering, loading and saving spinners and rendering are not modelled; the uploader's transient 'uploading' status and the one-second delay before clearing are not kept, only the settled status of each entry.
- Ids and timestamps (`new Date().toISOString()`) are arguments of the operations that issue them.
- Scope categorisation, adjusted totals, ranking order and recommendations are produced by the model reply, not by code, and are taken as given.
- After a save the suppliers page refetches the list; that refetch is not modelled. An error body that is not JSON makes `res.json()` throw, which is not modelled either.
- The supplier form's `open` dependency and the toasts and dialogs around the forms are presentation.
- CategoryMatching.Matched: its own contract bounds only the length; which suppliers it holds and in what order is stated by MatchedMembers, MatchedSingle and MatchedAppend.
