# Classified-ads search, modelled in Dafny

This project models the search subsystem of a Laravel classified-advertisements
API backed by a Meilisearch index. It covers three parts of the system:

- **The advertisement record** (`app/Models/Advertisement.php`):
  - its query scopes (`active`, `search`, `category`, `location`, `priceRange`) as predicates over one record;
  - the expiry test;
  - the weighted substring relevance score;
  - the Eloquent query those scopes extend one `where` group at a time.
- **The index gateway** (`app/Services/MeiliSearchService.php`):
  - the index settings;
  - the filter expression sent to the engine;
  - the merge of search options over the defaults;
  - the post-processing of suggestion hits;
  - the document stored for each record.
- **The search endpoints** (`app/Http/Controllers/AdvertisementController.php`):
  - `index` sends a search to the index and falls back to the database when the index fails;
  - `advancedSearch` filters in the database, ranks by relevance with a stable sort and paginates by hand;
  - `suggestions` falls back to three `LIKE` lists.

Files:

- `wrappers.dfy`: `Option` and `Result`.
- `text.dfy`: the PHP string functions the code relies on, with PHP 8 semantics:
  - `strtolower` (ASCII only);
  - `stripos` (an empty needle matches);
  - `explode(' ', …)` (keeps empty pieces);
  - `implode`;
  - `trim` (its default character set);
  - `empty` (`""` and `"0"` are empty);
  - integer rendering.
- `advertisement.dfy`: module `Listings`, the record, its scopes and the scorer, plus the class `AdQuery`.
- `index_gateway.dfy`: module `IndexGateway`.
- `collections.dfy`: module `Collections`, with Laravel's `sortByDesc` (stable), PHP's `array_slice`, and `ceil` of a quotient.
- `controller.dfy`: module `SearchController`.

Modelling choices:

- The database is a sequence of records.
- The current time is a parameter `now`.
- Prices are whole numbers (`int`).
- Every Meilisearch client call is a function-valued parameter (`SearchEngine`, `SuggestionEngine`). It answers either a reply or an `IndexError`, which stands for any exception the client throws. The controller's `try`/`catch` becomes a branch on that `Result`.
- A zero page size makes PHP raise `DivisionByZeroError`. That is an `Error`, not an `Exception`, so no handler catches it. It is modelled as the uncaught `ServerError.DivisionByZero`.
- Laravel's `orderBy` lower-cases the direction and throws `InvalidArgumentException` unless it is "asc" or "desc". `AdQuery.OrderBy` reports that refusal. On the plain listing, `index`'s handler catches it and runs the fallback search, which throws again with no handler left. Both database paths therefore end in `ServerError.InvalidOrderDirection`.
- `advancedSearch` sets `relevance_score` on every record before sorting. A record's score depends on that record alone, so the model sorts by the score and then attaches it to the records of the page, as `RankedRow`. The page carries the same records with the same attribute values.
- "Never consults the index" is stated on an out-parameter: `sent` in `Index` and `consulted` in `Suggestions` record whether the engine was called and with what.

Where the code and its documentation disagree, the model follows the code:

- An empty word, from a doubled or edge space in the query, matches every field in the scorer. This is because `stripos($h, '')` is 0 under PHP 8 (`Listings.EmptyWordHitsEverything`).
- The index path never filters on expiry, so it can return an active record past its expiry date (`SearchController.ExpiredListingOnIndexPath`).
- The index path matches the location exactly, while the database paths match a substring (`SearchController.LocationPathsDisagree`).

## Model

| member | source | states |
|---|---|---|
| Text.Lower | app/Models/Advertisement.php:142 | `strtolower` keeps the length and lower-cases each ASCII letter pointwise |
| Text.LowerIdempotent | app/Models/Advertisement.php:142 | lower-casing twice is lower-casing once |
| Text.ContainsIffOccurs | app/Models/Advertisement.php:147 | the substring test used for `stripos(...) !== false` holds iff the needle occurs at some offset |
| Text.SplitOnSpace | app/Models/Advertisement.php:143 | `explode(' ', s)` yields at least one piece and no piece contains a space |
| Text.ImplodeSplit | app/Models/Advertisement.php:54 | joining the exploded pieces with a space gives back the string |
| Text.SplitAppend | app/Models/Advertisement.php:143 | exploding `a + " " + b` is exploding `a` followed by exploding `b` |
| Text.Trim | app/Models/Advertisement.php:53 | `trim` returns the part of its input that lies between a run of trim characters at the start and a run at the end, and it neither starts nor ends with a trim character |
| Text.TrimBothEnds | app/Models/Advertisement.php:53 | the result of trimming the left and then the right end sits at offset |s| - |TrimLeft(s)| with only trim characters before and after it |
| Text.NatToStringRoundTrip | app/Services/MeiliSearchService.php:220-229 | the decimal rendering of a price reads back as the same number |
| Text.IntToString | app/Services/MeiliSearchService.php:220-229 | the rendering is non-empty and starts with '-' iff the number is negative |
| Text.IntToStringRoundTrip | app/Services/MeiliSearchService.php:220-229 | a non-negative number renders as its decimal digits and a negative one as "-" followed by the digits of its absolute value; those digits read back as the number |
| Listings.ActiveIsNotExpired | app/Models/Advertisement.php:35-42 | an admitted record is not expired; at `expires_at == now` it is neither active nor expired; an active-flagged record that is not expired and not at its instant is admitted (`isExpired` is at lines 131-134) |
| Listings.IsActiveAt | app/Models/Advertisement.php:35-42 | `scopeActive`: an admitted record is flagged active and not expired, and a record is not admitted at its expiry instant |
| Listings.IsExpired | app/Models/Advertisement.php:131-134 | `isExpired`: a record without expiry never expires, and a record is not yet expired at its expiry instant |
| Listings.WordHit | app/Models/Advertisement.php:58-70 | one `orWhere` group: the empty word hits every record, and a tag equal to the word hits |
| Listings.MatchesSearch | app/Models/Advertisement.php:47-74 | an empty term (PHP `empty`, so also "0") admits every record; otherwise some trimmed, space-split word must hit |
| Listings.SingleWordTermMatches | app/Models/Advertisement.php:47-74 | for a non-empty term that trims to one word, a record matches iff that word hits it |
| Listings.InCategory | app/Models/Advertisement.php:79-82 | a null category never matches, and a match carries exactly the requested category |
| Listings.InLocation | app/Models/Advertisement.php:87-90 | a null location never matches, and an empty value matches every non-null location |
| Listings.InPriceRange | app/Models/Advertisement.php:95-106 | with no bound every record passes; with any bound a null price fails; passing both bounds implies minimum <= maximum |
| Listings.TagHits | app/Models/Advertisement.php:172-178 | at most one point per tag |
| Listings.WordScore | app/Models/Advertisement.php:145-178 | one word's points, 10/5/3/3/3 for title, content, description, category and location plus one per matching tag; `WordScoreBound` caps it at 24 plus the number of tags |
| Listings.ScoreWords | app/Models/Advertisement.php:145-179 | the sum of the word scores of a list; `ScoreWordsAppend` and `ScoreWordsBound` state its additivity and bound |
| Listings.Score | app/Models/Advertisement.php:139-182 | the score of a term over its lower-cased exploded words; `RelevanceScore` computes it and `ScoreBound` and `ScoreIgnoresCase` state its properties |
| Listings.RelevanceScore | app/Models/Advertisement.php:139-182 | the nested loops compute the sum over the exploded lower-cased words of 10/5/3/3/3 field points plus one per matching tag |
| Listings.ScoreWordsAppend | app/Models/Advertisement.php:145-179 | the score of a word list is additive over concatenation |
| Listings.ScoreAdditive | app/Models/Advertisement.php:142-145 | score(a + " " + b) = score(a) + score(b) |
| Listings.WordScoreBound | app/Models/Advertisement.php:145-178 | a word earns at most 24 plus the number of tags |
| Listings.ScoreWordsBound | app/Models/Advertisement.php:145-178 | a list of n words scores at most n * (24 + number of tags) |
| Listings.ScoreBound | app/Models/Advertisement.php:143-178 | a query of n space-separated words scores at most n * (24 + number of tags) |
| Listings.SplitLower | app/Models/Advertisement.php:142-143 | lower-casing then exploding equals exploding then lower-casing each piece |
| Listings.EmptyWordHitsEverything | app/Models/Advertisement.php:143-178 | the empty word earns the full 24 plus every tag, even on null fields |
| Listings.TagHitsEmptyWord | app/Models/Advertisement.php:173-176 | every tag contains the empty word |
| Listings.NullFieldsAddNothing | app/Models/Advertisement.php:162-172 | for a non-empty word, a null category or location and non-array tags add no points |
| Listings.ScoreIgnoresCase | app/Models/Advertisement.php:142-174 | changing the ASCII case of the query or of any field leaves the score unchanged |
| Listings.TagHitsIgnoreCase | app/Models/Advertisement.php:173-176 | tag points ignore the case of the tags |
| Listings.ScoreWordsIgnoreCase | app/Models/Advertisement.php:145-179 | word scores ignore the case of the record's fields |
| Listings.WorkedExampleScore | app/Models/Advertisement.php:146-178 | "Vintage Guitar" / "old gibson" / tags ["music"], with no other field containing either word, scores 11 for "guitar music" |
| Listings.GuitarWordScore | app/Models/Advertisement.php:147-148 | in that example "guitar" earns the 10 title points only |
| Listings.MusicWordScore | app/Models/Advertisement.php:172-178 | in that example "music" earns one tag point only |
| Listings.ExampleWords | app/Models/Advertisement.php:142-143 | "guitar music" explodes to ["guitar", "music"] |
| Listings.TwoLowerWords | app/Models/Advertisement.php:142-143 | two lower-case words without spaces, joined by one space, are scored as exactly those two words |
| Listings.ScoreTwoWords | app/Models/Advertisement.php:145 | a two-word list scores the sum of its words |
| Listings.SearchMatchScoresPositive | app/Models/Advertisement.php:139-182 | for a trimmed non-empty term, every record the search scope admits scores above zero (the scope is at lines 47-74) |
| Listings.TagSubstringScoresWithoutMatching | app/Models/Advertisement.php:70-174 | a single lower-case word that only occurs inside the record's one tag (for example "music" in "Musical") earns a point, yet the search scope, which needs a tag equal to the word, rejects the record |
| Listings.ScoreWordsAtLeast | app/Models/Advertisement.php:145 | the total is at least any single word's score |
| Listings.TagHitsPositive | app/Models/Advertisement.php:172-178 | a tag containing the word, ignoring case, earns at least one point |
| Listings.WordHitScores | app/Models/Advertisement.php:147-178 | a word the search scope finds in a record earns that record points (the scope's test is at lines 60-70) |
| Listings.AdmitsAppend | app/Models/Advertisement.php:37-41 | a query's `where` groups are ANDed: admitted by xs + ys iff by both |
| Listings.Select | app/Http/Controllers/AdvertisementController.php:245 | `get()` returns exactly the table's records that satisfy every clause, no more rows than the table |
| Listings.SelectAgrees | app/Http/Controllers/AdvertisementController.php:245 | queries admitting the same records return the same rows in the same order |
| Listings.AdQuery.Active | app/Models/Advertisement.php:35-42 | the new query admits a record iff it is flagged active and has no expiry or expires after now |
| Listings.AdQuery.Where | app/Models/Advertisement.php:37 | appends one clause; admitted iff admitted before and the clause holds |
| Listings.AdQuery.Search | app/Models/Advertisement.php:47-74 | an empty term leaves the clauses unchanged; otherwise admitted iff admitted before and some trimmed, space-split word is a substring of title, content, description, category or location, or equals a tag |
| Listings.AdQuery.Category | app/Models/Advertisement.php:79-82 | admitted iff admitted before and the category equals the value |
| Listings.AdQuery.Location | app/Models/Advertisement.php:87-90 | admitted iff admitted before and the location contains the value |
| Listings.AdQuery.PriceRange | app/Models/Advertisement.php:95-106 | admitted iff admitted before and every supplied bound holds; with no bound the clauses are unchanged |
| Listings.AdQuery.OrderBy | app/Http/Controllers/AdvertisementController.php:56 | accepts iff the lower-cased direction is asc or desc, then records the column and that direction; a rejected direction leaves the order as it was; no clause changes |
| IndexGateway.PriceClause | app/Services/MeiliSearchService.php:220-229 | the price clause built from the optional bounds; its exact text is stated by `PriceClauseForms` |
| IndexGateway.PriceClauseForms | app/Services/MeiliSearchService.php:220-229 | with both bounds the clause is exactly `price >= m AND price <= M`, with a minimum only `price >= m`, with a maximum only `price <= M` |
| IndexGateway.BuildFilterString | app/Services/MeiliSearchService.php:208-236 | the step-by-step builder produces the present clauses in the order category, location, price, is_active, joined by " AND " |
| IndexGateway.FilterString | app/Services/MeiliSearchService.php:208-236 | the present clauses joined by " AND "; `BuildFilterString` computes it step by step |
| IndexGateway.FilterStringEmptyIff | app/Services/MeiliSearchService.php:208-236 | the expression is empty iff no filter is present |
| IndexGateway.ImplodeEmptyIff | app/Services/MeiliSearchService.php:235 | joining non-empty parts gives "" iff there are no parts |
| IndexGateway.SingleClauseRendering | app/Services/MeiliSearchService.php:212-233 | category and location render as `field = 'value'`, the flag as `is_active = true` or `is_active = false` |
| IndexGateway.FilterFieldsAreFilterable | app/Services/MeiliSearchService.php:208-236 | the builder emits one clause per present field, in order, each clause starting with its field name and a space, and every such field is a declared filterable attribute (the attribute list is at lines 47-53) |
| IndexGateway.FilterStringEndsWithActiveFlag | app/Services/MeiliSearchService.php:231-235 | a present is_active clause closes the expression |
| IndexGateway.UnescapedQuoteCollides | app/Services/MeiliSearchService.php:213-217 | for any a and b, the category `a' AND location = 'b` alone yields the same expression as category a with location b |
| IndexGateway.MergeSearchOptions | app/Services/MeiliSearchService.php:113-125 | the sent options hold the defaults overridden by the caller's options, plus `filter` exactly when filters are non-empty |
| IndexGateway.MergedDefaults | app/Services/MeiliSearchService.php:113-125 | limit defaults to 15 and offset to 0 unless overridden; `filter` is present iff filters are given or the caller passed one |
| IndexGateway.MergedOptions | app/Services/MeiliSearchService.php:113-125 | the key set is the defaults' keys, the caller's keys and `filter` when filters are present; the caller's values override the defaults, and `filter` carries the filter expression |
| IndexGateway.Search | app/Services/MeiliSearchService.php:111-136 | sends the merged options; fails iff the engine fails; otherwise returns its hits, total, the query, the time and the facets (empty when missing) |
| IndexGateway.UniqueByValueSound | app/Services/MeiliSearchService.php:158 | `unique('value')` keeps only input entries whose value was not seen before |
| IndexGateway.UniqueByValueDistinct | app/Services/MeiliSearchService.php:158 | no two kept entries share a value |
| IndexGateway.UniqueByValueComplete | app/Services/MeiliSearchService.php:158 | every value of the input is kept |
| IndexGateway.UniqueByValueKeepsFirst | app/Services/MeiliSearchService.php:158 | each kept entry is the first input entry carrying its value |
| IndexGateway.UniqueByValue | app/Services/MeiliSearchService.php:158 | `unique('value')` as a left-to-right scan remembering the values seen; its properties are the four lemmas around it |
| IndexGateway.UniqueByValueInOrder | app/Services/MeiliSearchService.php:158 | the kept entries are a subsequence of the input: they sit at strictly increasing input positions |
| IndexGateway.Take | app/Services/MeiliSearchService.php:158 | `take(n)` gives a prefix of the list of length min(n, length): the whole list when it is short enough, exactly n entries otherwise |
| IndexGateway.TitleEntries | app/Services/MeiliSearchService.php:151-157 | each hit maps to a title entry with its title, category and location |
| IndexGateway.SuggestionsFromHitsShape | app/Services/MeiliSearchService.php:151-158 | at most `limit` suggestions, pairwise distinct values, all of type title, each built from some hit |
| IndexGateway.SuggestionsFromHits | app/Services/MeiliSearchService.php:151-158 | the hits mapped to title entries, made unique by value, then cut to `limit`; its shape is stated by `SuggestionsFromHitsShape` |
| IndexGateway.GetSuggestions | app/Services/MeiliSearchService.php:141-161 | fails iff the engine fails; otherwise the post-processed hits |
| IndexGateway.ToDocument | app/Services/MeiliSearchService.php:185-203 | the document keeps the record id, and a null expiry stays null |
| IndexGateway.DocumentRoundTrip | app/Services/MeiliSearchService.php:185-203 | every field of the record is recoverable from its document |
| Collections.InsertPermutes | app/Http/Controllers/AdvertisementController.php:252 | inserting adds exactly one entry |
| Collections.InsertKeepsOrder | app/Http/Controllers/AdvertisementController.php:252 | inserting into a key-ordered list keeps it ordered |
| Collections.InsertKeepsTies | app/Http/Controllers/AdvertisementController.php:252 | the inserted entry goes after the entries with an equal key |
| Collections.SortByDescPermutes | app/Http/Controllers/AdvertisementController.php:252 | `sortByDesc` rearranges its input |
| Collections.SortByDescOrders | app/Http/Controllers/AdvertisementController.php:252 | keys never increase along the result |
| Collections.SortByDescStable | app/Http/Controllers/AdvertisementController.php:252 | for every key, the entries carrying it keep their original order |
| Collections.SortByDescSortedInput | app/Http/Controllers/AdvertisementController.php:252 | an input already in key order is returned unchanged |
| Collections.WithKeyAppend | app/Http/Controllers/AdvertisementController.php:252 | selecting a key distributes over concatenation |
| Collections.SortByDesc | app/Http/Controllers/AdvertisementController.php:252 | Laravel's stable `sortByDesc` as insertion of each entry after the entries with a greater or equal key; its properties are the `SortByDesc` lemmas |
| Collections.Slice | app/Http/Controllers/AdvertisementController.php:259 | `array_slice` returns the contiguous run of the list starting at the clamped offset (counted from the end when negative); its length is min(length, what remains) for a non-negative length, and stops -length entries before the end otherwise |
| Collections.CeilDivBounds | app/Http/Controllers/AdvertisementController.php:268 | for a positive page size, `ceil(n / p)` is the least c with n <= c * p |
| Collections.CeilDiv | app/Http/Controllers/AdvertisementController.php:268 | `ceil(a / b)` on whole numbers; `CeilDivBounds` states that it is the least c with a <= c * b |
| SearchController.PageSizeClamp | app/Http/Controllers/AdvertisementController.php:256 | the page size is at most 50, 15 without `per_page`, and `per_page` itself when at most 50 (the same `per_page` default is at line 60) |
| SearchController.PageSize | app/Http/Controllers/AdvertisementController.php:256 | `min(per_page, 50)` with `per_page` defaulting to 15; `PageSizeClamp` states its bounds |
| SearchController.DbSort | app/Http/Controllers/AdvertisementController.php:52-57 | the database paths order only by title, price, created_at or expires_at, and only when `orderBy` accepts the direction; the direction is the requested one lower-cased, so "asc" or "desc" |
| SearchController.DbSortRejected | app/Http/Controllers/AdvertisementController.php:52-57 | the request names an allowed column with a direction other than asc or desc in any case, which makes `orderBy` throw |
| SearchController.IndexSort | app/Http/Controllers/AdvertisementController.php:343-348 | the index path sends a sort only for price, created_at or expires_at, and the value is the field, a colon and the requested direction exactly as given: unlike the database paths, the direction is neither validated nor lower-cased |
| SearchController.SortAllowLists | app/Http/Controllers/AdvertisementController.php:346-348 | the index list is the database list without title, and within the index's sortable attributes (the database list is at lines 55-57) |
| SearchController.Eligible | app/Http/Controllers/AdvertisementController.php:222-245 | a record is returned iff it is in the table and passes active, the search when applied, category, location and price (the same filters on `index` are at lines 31-49) |
| SearchController.SelectEligible | app/Http/Controllers/AdvertisementController.php:245 | a query admitting exactly the eligible records returns the eligible rows in table order |
| SearchController.DbQuery | app/Http/Controllers/AdvertisementController.php:382-405 | the scope chain admits a record iff it is active, matches a non-empty search (when applied), a non-empty category and location, and the price bounds (the `advancedSearch` chain is at lines 222-242) |
| SearchController.DbListing | app/Http/Controllers/AdvertisementController.php:382-439 | fails with `InvalidOrderDirection` exactly when the sort direction is rejected; otherwise the listing holds the eligible rows, the allowed ORDER BY, the clamped page size and the fallback flag (the plain listing is at lines 31-61) |
| SearchController.DbPriceBounds | app/Http/Controllers/AdvertisementController.php:237-241 | a zero minimum imposes no bound on the database paths (likewise at lines 44-48 and 400-404) |
| SearchController.DbMinBound | app/Http/Controllers/AdvertisementController.php:237-241 | the database minimum: a falsy `min_price` (zero) imposes no bound; `DbPriceBounds` states the consequence |
| SearchController.DbAdmits | app/Http/Controllers/AdvertisementController.php:222-242 | a record passes the database filters: active, the search when applied, non-empty category and location, and the price bounds; `DbQuery` and `Eligible` are proved against it |
| SearchController.RankedOrder | app/Http/Controllers/AdvertisementController.php:248-253 | with a search, the list is a permutation of the eligible records in non-increasing score with ties in table order; without one it is unchanged |
| SearchController.RankedMembers | app/Http/Controllers/AdvertisementController.php:222-253 | a record is ranked iff it is in the table and passes every requested filter |
| SearchController.Ranked | app/Http/Controllers/AdvertisementController.php:248-253 | the eligible records sorted by descending relevance score when there is a search, unchanged otherwise; `RankedOrder` and `RankedMembers` state its properties |
| SearchController.AdvancedSearch | app/Http/Controllers/AdvertisementController.php:220-278 | fails iff the page size is 0; otherwise `data` is the slice at (page-1)*perPage of length perPage of the ranked list, each record carrying its `relevance_score` when there is a search (and none otherwise), with scores non-increasing along the page; the full count is the total and ceil(total/perPage) the last page |
| SearchController.ScoreRows | app/Http/Controllers/AdvertisementController.php:248-253 | the `map` setting `relevance_score`: the same records in the same order, each with its score for the search when one is given and with no score otherwise |
| SearchController.RankedPageOrdered | app/Http/Controllers/AdvertisementController.php:248-259 | on any page of a searched ranking the attached scores never increase |
| SearchController.SliceNonIncreasing | app/Http/Controllers/AdvertisementController.php:259 | a slice of a list sorted by descending key is itself sorted by descending key |
| SearchController.PageIsRun | app/Http/Controllers/AdvertisementController.php:256-259 | for page >= 1 and a positive size, the page is the run starting at the offset, at most one page long |
| SearchController.PagesPrefix | app/Http/Controllers/AdvertisementController.php:256-259 | pages 1..n laid end to end are the first n * perPage records |
| SearchController.PagesCoverAll | app/Http/Controllers/AdvertisementController.php:256-268 | pages 1..last_page cover the list exactly once, and the last page is not empty |
| SearchController.BuildIndexFilters | app/Http/Controllers/AdvertisementController.php:314-334 | always is_active = true, category and location only when non-empty, price bounds whenever present |
| SearchController.IndexFilters | app/Http/Controllers/AdvertisementController.php:314-334 | the filter map sent to the index; `BuildIndexFilters` computes it and states its fields |
| SearchController.BuildIndexOptions | app/Http/Controllers/AdvertisementController.php:337-348 | limit is the page size, offset is (page-1) * page size, and a sort is added only for an allowed field |
| SearchController.IndexOptions | app/Http/Controllers/AdvertisementController.php:337-348 | limit, offset and the optional sort sent to the index; `BuildIndexOptions` computes it and states its entries |
| SearchController.IndexFilterEndsActive | app/Http/Controllers/AdvertisementController.php:317-334 | the filter expression built from any request ends with `is_active = true` |
| SearchController.IndexFilterAdmits | app/Services/MeiliSearchService.php:208-236 | how the engine reads the filter expression: equality on category, location and the flag, bounds on price; `ExpiredListingOnIndexPath` and `LocationPathsDisagree` use it |
| SearchController.IndexRequestShape | app/Http/Controllers/AdvertisementController.php:317-350 | every index request carries a filter ending in `is_active = true`, the page's limit and offset, and a sort iff the field is allowed, whose value is the one-element list `["field:order"]` |
| SearchController.ZeroMinimumOnIndexPath | app/Http/Controllers/AdvertisementController.php:325-331 | a zero minimum reaches the index filter but not the database bound (the database bound is at lines 44-48) |
| SearchController.ExpiredListingOnIndexPath | app/Http/Controllers/AdvertisementController.php:334 | an active record past its expiry passes the index filter but neither database path |
| SearchController.LocationPathsDisagree | app/Services/MeiliSearchService.php:217 | a location that only contains the requested one passes the database filter but not the index's equality |
| SearchController.MeiliSearch | app/Http/Controllers/AdvertisementController.php:311-375 | fails iff the engine fails; with a zero page size, `DivisionByZero`; otherwise exactly the engine's hits, time and facets with pagination (page, size, total, ceil(total/size)) |
| SearchController.Index | app/Http/Controllers/AdvertisementController.php:22-89 | without a non-empty search the index is never consulted and the plain listing is served; an index failure serves the database search with `fallback` set; otherwise exactly the index page `MeiliSearch` builds, or `DivisionByZero` for a zero page size; a rejected sort direction on a database path ends in `InvalidOrderDirection`, since the handler's own fallback rejects it again |
| SearchController.EligibleAgrees | app/Http/Controllers/AdvertisementController.php:385-387 | without a search term the fallback search returns the same rows as the plain listing |
| SearchController.Matching | app/Http/Controllers/AdvertisementController.php:452-472 | a value is listed iff some active record carries it in the column and it contains the term |
| SearchController.Distinct | app/Http/Controllers/AdvertisementController.php:454-469 | `distinct` keeps each value once |
| SearchController.DropFalsy | app/Http/Controllers/AdvertisementController.php:463-471 | `filter()` drops exactly the values PHP treats as false |
| SearchController.Tagged | app/Http/Controllers/AdvertisementController.php:475-477 | each value is tagged with its source field |
| SearchController.TakeTenOfThree | app/Http/Controllers/AdvertisementController.php:474-481 | taking ten from three blocks of at most five each keeps the first two blocks whole and cuts only the third |
| SearchController.TakeTagged | app/Http/Controllers/AdvertisementController.php:474-481 | tagging the values and then taking n entries is taking n values and then tagging them |
| SearchController.MergeSuggestions | app/Http/Controllers/AdvertisementController.php:474-481 | the three tagged lists concatenated and cut to ten; `MergeKeepsTitlesAndCategories` states the result for blocks of at most five |
| SearchController.MergeKeepsTitlesAndCategories | app/Http/Controllers/AdvertisementController.php:474-481 | with at most five titles and five categories, the merge is all titles, all categories, then the first 10 - (titles + categories) locations, at most ten in all |
| SearchController.FallbackSuggestionsLayout | app/Http/Controllers/AdvertisementController.php:452-481 | titles, then categories, then locations, at most 5 each and 10 in all; every title and category survives and only locations are cut |
| SearchController.FallbackSuggestions | app/Http/Controllers/AdvertisementController.php:446-481 | up to five titles, categories and locations, tagged and merged; `FallbackSuggestionsLayout` and `FallbackSuggestionsSound` state its properties |
| SearchController.FallbackSuggestionsSound | app/Http/Controllers/AdvertisementController.php:452-472 | each entry is a value of its column on an active record that contains the term, categories and locations are non-empty, and titles do not repeat |
| SearchController.Suggestions | app/Http/Controllers/AdvertisementController.php:283-306 | a query shorter than 2 returns [] without consulting the index; otherwise the index's suggestions, or the flagged fallback ones when it fails |

## Left out

- Meilisearch client I/O is an opaque function parameter. This covers `initializeIndex`, `indexAllAdvertisements`, `indexAdvertisement`, `removeAdvertisement`, `getFacets` and `getStats`. The engine's own ranking and typo tolerance are also left out. The engine's reading of the filter expression is the predicate `IndexFilterAdmits`: equality on category, location and the flag, and bounds on price. It has no case folding.
- `paginate()` on the database listing paths is left out because it is framework behaviour. `DbListing` returns the eligible rows in table order, with the ORDER BY and the page size handed to `paginate`. The effect of ORDER BY on row order is not modelled, and neither is `paginate`'s treatment of a zero or negative page size.
- Prices are whole numbers. The `decimal:2` cast, fractional prices and PHP's float-to-string rendering are left out. `getFormattedPriceAttribute` (`number_format`) and `getExcerptAttribute` (`Str::limit`) are also left out.
- Timestamps are integers. The ISO-8601 rendering in `formatAdvertisementForIndexing` is not modelled, so documents carry the integer instants.
- SQL `LIKE` is modelled as an ASCII case-insensitive substring test. `%` and `_` inside a user's term are not treated as wildcards, and collations beyond ASCII case are not modelled.
- `strtolower`, `stripos` and the `suggestions` length check work on characters here; PHP works on bytes. For non-ASCII text, `strlen` counts bytes, so the two-character rule can differ.
- `unique('value')` and `in_array` use PHP's loose comparison, which would equate numeric strings such as "1" and "01". The model compares strings exactly.
- Fallback suggestion entries carry only a type and a value in PHP. Here they reuse the `Suggestion` record with null category and location.
- A request parameter that is present but empty (`?max_price=`) is not representable: a parameter is either absent or carries a value.
- The `filters` echo in every JSON response, the response envelope itself, and HTTP status codes are left out.
- How the engine treats an invalid sort direction in `sort` is part of the opaque engine parameter: it is one of the engine's failures.
- `store`, `show`, `update`, `destroy` and validation are ORM and framework plumbing and are left out.
- The SQL `DISTINCT` in fallback suggestions keeps the first occurrence in table order; a database may return distinct rows in any order.
