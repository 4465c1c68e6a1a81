# offsets-db: a Dafny model of the data service core

This project models the core of CarbonPlan's OffsetsDB service in Dafny. The service is a
FastAPI application that publishes a database of voluntary carbon-offset projects,
credit transactions and press clips, and that loads new data files into that
database. The model covers two generations of the service:

- **The current API** (`offsets_db_api`) is modelled across several modules:
  - query helpers: filters, sorting, pagination, next-page links and the `quote`-based URL encoding (`Filters`, `Predicates`, `Sorting`, `Pagination`, `QueryString`);
  - the response-cache key (`Cache`), with Python's `repr` of texts (`Repr`);
  - the chart binning endpoints (`Charts`);
  - the health endpoint (`Health`);
  - the file records and frame checks (`Models`);
  - the background ingest tasks (`Ingest`);
  - the `database_url` validator (`Settings`).
- **The legacy package** (`carbonplan_offsets_db`) is modelled across these modules:
  - its chart and statistics endpoints (`LegacyCharts`, `LegacyStats`);
  - its ingest tasks: chunked upserts, stale-record removal, project totals and daily statistics (`LegacyIngest`).
- **The daily trigger script** (`update_database.py`) is modelled in `Trigger`. It picks the newest data files in the bucket and posts them to the API.

Shared groundwork lives in these modules:

- `Base`: option and result types, distinctness, sums.
- `Strings`: Python string methods as used by the source.
- `Order`: a stable sort with its permutation and sortedness lemmas.
- `Calendar`: the proleptic Gregorian calendar, with day numbers, weekdays and month arithmetic.

Code that updates state step by step is modelled as classes and methods with loops. These methods are proved against specification functions. Pure code is modelled as functions, with lemmas about them.

## Model

| member | source | states |
|---|---|---|
| Settings.ReplaceFirst | offsets_db_api/settings.py:19 | `str.replace(..., 1)` leaves a string without the pattern unchanged |
| Settings.ReplaceFirstAt | offsets_db_api/settings.py:19 | `str.replace(..., 1)` replaces the first occurrence of the pattern and keeps the text before and after it |
| Settings.FixDatabaseUrl | offsets_db_api/settings.py:14-21 | `None` and URLs not starting with `postgres://` pass through; a `postgres://` URL becomes `postgresql://` followed by the rest of the URL |
| Settings.FixPreservesRest | carbonplan_offsets_db/settings.py:14-21 | the rewritten URL keeps everything after the scheme and is two characters longer |
| Settings.FixNeverLegacy | offsets_db_api/settings.py:18-19 | no URL comes out of the validator with the `postgres://` scheme |
| Settings.FixIdempotent | offsets_db_api/settings.py:14-21 | applying the validator twice equals applying it once |
| Cache.RequestKeyShape | offsets_db_api/cache.py:34-41 | the key is namespace, lower-cased method, path and the sorted dict as Python's `repr` prints it, joined by `:` |
| Repr.QuoteFor | offsets_db_api/cache.py:40 | `repr` quotes a text with `"` exactly when it holds `'` and no `"`, and with `'` otherwise |
| Repr.LowerHexDigit | offsets_db_api/cache.py:40 | the digit of a `\xhh` escape is a lower-case hex digit that reads back as its value |
| Repr.ReprTextRoundTrip | offsets_db_api/cache.py:40 | reading a text's `repr` back, with the quote choice and the backslash, letter and `\xhh` escapes undone, gives the text and leaves what follows untouched |
| Repr.ReprTextInjective | offsets_db_api/cache.py:40 | different texts have different `repr`s |
| Repr.EscapedPlain | offsets_db_api/cache.py:40 | a text with no quote, backslash or non-printable character is printed between the quotes as it is |
| Repr.ReprApostrophe | offsets_db_api/cache.py:40 | `repr("it's")` is `"it's"`: the apostrophe selects the double quote and is not escaped |
| Repr.ReprBothQuotes | offsets_db_api/cache.py:40 | a text with both quotes is quoted with `'`, and its `'` is escaped |
| Cache.ReprDictRoundTrip | offsets_db_api/cache.py:40 | reading the printed dict back gives the dict, for values that are texts or lists of texts |
| Cache.ReprDictInjective | offsets_db_api/cache.py:40 | two dicts of texts and lists of texts that print the same are equal |
| Cache.SortedParamsKeys | offsets_db_api/cache.py:29-32 | the sorted dict has exactly the request's distinct keys, ascending and each once |
| Cache.LookupSorted | offsets_db_api/cache.py:29-33 | a key of the sorted dict holds its single text, or the sorted list of its repeated values; a key the request does not give is absent |
| Cache.SortedParamsText | offsets_db_api/cache.py:29-33 | every value in the sorted dict is a text or a list of texts |
| Cache.SortedParamsDetermine | offsets_db_api/cache.py:29-33 | two requests with the same sorted dict list the same parameters, up to order |
| Cache.RequestKeyIdentifies | offsets_db_api/cache.py:21-41 | two requests to the same path get the same key exactly when they list the same parameters in any order, so different requests never share a key |
| Cache.ValuesForPermutation | offsets_db_api/cache.py:29-33 | two requests with the same parameters in any order give each key the same multiset of values |
| Cache.FirstKeysPermutation | offsets_db_api/cache.py:30-32 | reordering the query string leaves the same set of distinct keys |
| Cache.SortedValues | offsets_db_api/cache.py:31 | lists holding the same values in any order sort to the same list |
| Cache.SortedEntry | offsets_db_api/cache.py:30-33 | each key's sorted entry depends only on the multiset of its values |
| Cache.RequestKeyPermutation | offsets_db_api/cache.py:21-41 | reordering the query string, keys or repeated values, leaves the cache key unchanged |
| Pagination.TotalPagesCeiling | offsets_db_api/query_helpers.py:176 | `(total + per_page - 1) // per_page` is the ceiling of `total / per_page`, and zero exactly when there are no rows |
| Pagination.NextPageIff | offsets_db_api/query_helpers.py:181-184 | there is a page after `current_page` exactly when some row lies beyond it |
| Pagination.PageOfRows | offsets_db_api/query_helpers.py:186 | offset and limit give at most `per_page` rows, the `i`-th being row `(current_page - 1) * per_page + i` |
| Pagination.PageNonEmptyIff | offsets_db_api/query_helpers.py:186 | a page is empty exactly when it lies past the last page |
| Pagination.PagesUpToPrefix | offsets_db_api/query_helpers.py:176-186 | pages `1..k` together are the first `k * per_page` rows |
| Pagination.PagesCoverRows | offsets_db_api/query_helpers.py:176-186 | walking pages 1 to `total_pages` shows every row exactly once, in order |
| Pagination.CountDistinctUnique | offsets_db_api/query_helpers.py:165-175 | when primary keys are distinct, `count(distinct pk)` is the number of rows |
| Pagination.HandlePagination | offsets_db_api/query_helpers.py:125-192 | returns the distinct count, the page number, the page count, a next-page URL exactly when rows lie beyond the page (built from the request's parameters), and the page's rows |
| QueryString.Utf8Char | offsets_db_api/query_helpers.py:211-217 | a code point encodes to one to four bytes, and to itself exactly when it is ASCII |
| QueryString.Utf8 | offsets_db_api/query_helpers.py:211-217 | the UTF-8 encoding is at least as long as the text |
| QueryString.HexDigit | offsets_db_api/query_helpers.py:211-217 | an upper-case hex digit that reads back as its value |
| QueryString.HexValue | offsets_db_api/query_helpers.py:211-217 | the value of a hex digit lies in `0..15` |
| QueryString.QuoteByte | offsets_db_api/query_helpers.py:211-217 | one quoted byte is written in unreserved or `%XX` characters only, with no `/` when `/` is not safe |
| QueryString.QuoteBytesChars | offsets_db_api/query_helpers.py:211-217 | quoted bytes use only unreserved characters and `%XX` escapes |
| QueryString.QuoteChars | offsets_db_api/query_helpers.py:211-217 | `quote` never writes a bare `&` or `=`, and writes no `/` with `safe=''` |
| QueryString.DecodeQuoteBytes | offsets_db_api/query_helpers.py:211-217 | percent-decoding undoes quoting of any bytes |
| QueryString.QuoteRoundTrip | offsets_db_api/query_helpers.py:211-217 | percent-decoding `quote(s)` gives the UTF-8 bytes of `s` |
| QueryString.Keys | offsets_db_api/query_helpers.py:221-233 | the keys of a dict, in insertion order |
| QueryString.Lookup | offsets_db_api/query_helpers.py:225-230 | `d.get(k)` is present exactly when `k` is a key, and is that key's value |
| QueryString.Put | offsets_db_api/query_helpers.py:228-232 | `d[k] = v` keeps an existing key in place with the new value, appends a new key at the end, and leaves other entries alone |
| QueryString.PutUnique | offsets_db_api/query_helpers.py:257-258 | assignment keeps keys unique, makes `k` map to `v` and changes no other lookup |
| QueryString.FirstKeysDistinct | offsets_db_api/query_helpers.py:221-233 | the dict's keys are distinct |
| QueryString.FirstKeysValues | offsets_db_api/query_helpers.py:221-233 | a key is in the dict exactly when the request gives it some value |
| QueryString.Texts | offsets_db_api/query_helpers.py:221-233 | request values become text values, one for one |
| QueryString.ParamsDict | offsets_db_api/query_helpers.py:221-233 | the dict's keys are the request's distinct keys in order of first appearance |
| QueryString.ValuesForStep | offsets_db_api/query_helpers.py:224-232 | one more pair adds its value to its own key's values only |
| QueryString.FirstKeysStep | offsets_db_api/query_helpers.py:224-232 | one more pair adds its key at the end unless already present |
| QueryString.ParamsDictUnique | offsets_db_api/query_helpers.py:221-233 | the converted dict never repeats a key |
| QueryString.ParamsDictAt | offsets_db_api/query_helpers.py:221-233 | entry `j` is the `j`-th distinct key with all its values grouped |
| QueryString.ParamsDictStepAt | offsets_db_api/query_helpers.py:224-232 | one more pair leaves the entries of other keys unchanged |
| QueryString.ParamsDictStepNew | offsets_db_api/query_helpers.py:231-232 | a new key is stored as a single value |
| QueryString.ParamsDictLookup | offsets_db_api/query_helpers.py:221-233 | looking a key up gives its values, grouped |
| QueryString.GroupedStep | offsets_db_api/query_helpers.py:226-230 | a repeated key's value becomes a list, which later values extend |
| QueryString.ParamsDictStepRepeat | offsets_db_api/query_helpers.py:226-230 | a repeated key turns a scalar into a two-element list or appends to the list |
| QueryString.ConvertQueryParams | offsets_db_api/query_helpers.py:221-233 | the loop builds the grouped dict of the request's parameters |
| QueryString.ParamsDictValues | offsets_db_api/query_helpers.py:221-233 | an absent key has no entry, a key given once holds its value, and a repeated key holds all its values in order |
| QueryString.EntryPairs | offsets_db_api/query_helpers.py:210-217 | a scalar gives one `key=value` pair and a list gives one pair per element, in order |
| QueryString.CustomUrlencode | offsets_db_api/query_helpers.py:195-218 | the encoded pairs of every entry, in dict order, joined by `&` |
| QueryString.AppendEntry | offsets_db_api/query_helpers.py:210-217 | one entry adds its encoded pairs after those already collected: one pair per list item, in list order, or a single pair |
| QueryString.ParsePairsAppend | offsets_db_api/query_helpers.py:218 | parsing the pairs of two lists parses each list |
| QueryString.PairChars | offsets_db_api/query_helpers.py:211-217 | an encoded pair is non-empty and holds no `&` |
| QueryString.ParsePair | offsets_db_api/query_helpers.py:211-217 | one encoded pair parses back to the UTF-8 key and value |
| QueryString.ParseEntryPrefix | offsets_db_api/query_helpers.py:212-214 | every prefix of a list's pairs parses back to the list's values |
| QueryString.ParseEntry | offsets_db_api/query_helpers.py:210-217 | the pairs of one entry parse back to its key and values |
| QueryString.EncodedPairsChars | offsets_db_api/query_helpers.py:209-218 | no encoded pair is empty or holds `&` |
| QueryString.ParseEncodedPairs | offsets_db_api/query_helpers.py:209-218 | the pairs of a dict parse back to the pairs the dict transmits |
| QueryString.UrlencodeRoundTrip | offsets_db_api/query_helpers.py:195-218 | parsing what `custom_urlencode` writes gives back every key and value, in order |
| QueryString.JoinNonEmpty | offsets_db_api/query_helpers.py:218 | joining non-empty pairs gives a non-empty query |
| QueryString.NextPageUrl | offsets_db_api/query_helpers.py:236-264 | the link is scheme, `://`, host, path, `?` and the encoded next-page dict |
| QueryString.NextPageParamsSpec | offsets_db_api/query_helpers.py:255-260 | the next-page dict sets `current_page` to the next page and `per_page`, keeps every other parameter, and never repeats a key |
| Filters.Keep | offsets_db_api/common.py:36-37 | one `if name not in exclude_filters and field is not None: filters.append(...)` step adds the slot's filter exactly when it is active |
| Filters.ProjectBlock | offsets_db_api/common.py:35-62 | the project block appends the kept project filters, in source order |
| Filters.CreditBlock | offsets_db_api/common.py:65-82 | the credit block appends the kept credit filters, in source order |
| Filters.ClipBlock | offsets_db_api/common.py:84-97 | the clip block appends the kept clip filters, in source order |
| Filters.BuildFilters | offsets_db_api/common.py:4-99 | `build_filters` returns the kept project, then credit, then clip filters, treating a missing exclude list as empty |
| Filters.KeptStep | offsets_db_api/common.py:35-97 | the kept filters of `k + 1` slots extend those of `k` slots by the filter of slot `k` |
| Filters.KeptUnfold4 | offsets_db_api/common.py:65-82 | four slots give the four single-slot steps in order |
| Filters.KeptUnfold6 | offsets_db_api/common.py:84-97 | six slots give the six single-slot steps in order |
| Filters.KeptUnfold12 | offsets_db_api/common.py:35-62 | twelve slots give the twelve single-slot steps in order |
| Filters.OriginsLength | offsets_db_api/common.py:35-97 | there is one kept filter per active slot, so never more filters than slots |
| Filters.OriginsGive | offsets_db_api/common.py:35-97 | the `i`-th kept filter is the filter of the `i`-th active slot |
| Filters.OriginsIncreasing | offsets_db_api/common.py:35-97 | slots are taken in the order the code tests them |
| Filters.OriginsComplete | offsets_db_api/common.py:35-97 | every active slot gives a filter |
| Filters.KeptMembership | offsets_db_api/common.py:35-97 | a filter is kept exactly when some active slot gives it |
| Filters.KeptUpToSamePrefix | offsets_db_api/common.py:35-97 | the filters of the first `n` slots depend only on those slots |
| Filters.KeptOfAppendPrefix | offsets_db_api/common.py:35-97 | the first group's filters are unaffected by later groups |
| Filters.KeptAppend | offsets_db_api/common.py:35-97 | keeping filters distributes over concatenating slot groups |
| Filters.ExpectedIsKept | offsets_db_api/common.py:31-99 | the output is the kept filters of all slots of the three groups, in order |
| Filters.ExpectedEmpty | offsets_db_api/common.py:31-35 | with no filter objects there are no filters |
| Filters.ExpectedLength | offsets_db_api/common.py:35-97 | at most 12 + 4 + 6 filters come out |
| Filters.ExpectedMembership | offsets_db_api/common.py:35-97 | a filter comes out exactly when its field is set (a `False` flag counts) and its name is not excluded |
| Filters.ExpectedNotExcluded | offsets_db_api/common.py:31-97 | no filter carries an excluded name, so excluding a range name drops both bounds |
| Filters.ProjectShape | offsets_db_api/common.py:35-62 | each project slot pairs its attribute with the right operation and the project model |
| Filters.CreditShape | offsets_db_api/common.py:65-82 | each credit slot pairs its attribute with the right operation and the credit model |
| Filters.ClipShape | offsets_db_api/common.py:84-97 | each clip slot pairs its attribute with the right operation and the clip or clip-project model |
| Filters.AllSlotsShape | offsets_db_api/common.py:35-97 | every slot is well formed, and the groups come project, credit, clip |
| Filters.ExpectedShape | offsets_db_api/common.py:35-97 | every filter carries the operation and model that belong to its attribute |
| Filters.ExpectedGroupOrder | offsets_db_api/common.py:35-97 | project filters precede credit filters, which precede clip filters |
| Predicates.Elements | offsets_db_api/sql_helpers.py:89-91 | a scalar value stands for exactly one element |
| Predicates.LikeLiteral | offsets_db_api/sql_helpers.py:102-107 | an `ilike` pattern without wildcards matches only itself |
| Predicates.LikeSuffix | offsets_db_api/sql_helpers.py:102-107 | a leading `%` matches any prefix |
| Predicates.LikeAnything | offsets_db_api/sql_helpers.py:102-107 | the pattern `%` matches every string |
| Predicates.ApplyFilters | offsets_db_api/sql_helpers.py:55-127 | a `None` value leaves the statement unchanged; otherwise one or two conjuncts are appended and the old ones are kept |
| Predicates.CompareHolds | offsets_db_api/sql_helpers.py:102-125 | the comparison conjunct holds exactly when some element compares as asked, and an empty list restricts nothing |
| Predicates.SelectsAppend | offsets_db_api/sql_helpers.py:55-127 | a statement with one more conjunct selects the rows of the old statement that meet the new conjunct |
| Predicates.WithArraySelects | offsets_db_api/sql_helpers.py:92-100 | on an `ARRAY` column a list asks for every element with `ALL`, and for some element otherwise |
| Predicates.CompareMatchesHolds | offsets_db_api/sql_helpers.py:102-125 | the `ilike`, `==`, `>=` and `<=` conjuncts mean their cell-level reading; other operations add no comparison |
| Predicates.ApplyFiltersSelects | offsets_db_api/sql_helpers.py:55-127 | a row survives `apply_filters` exactly when it survived before and meets the filter |
| Sorting.ParseDescending | offsets_db_api/sql_helpers.py:29-33 | a leading `-` asks for descending order on the rest |
| Sorting.ParseAscending | offsets_db_api/sql_helpers.py:35-37 | a leading `+` asks for ascending order on the rest |
| Sorting.ParseBare | offsets_db_api/sql_helpers.py:38-40 | a bare field sorts ascending on itself |
| Sorting.SignedKey | offsets_db_api/sql_helpers.py:29-40 | `-f` and `+f` parse back to `f` with their direction |
| Sorting.AddOrdering | offsets_db_api/sql_helpers.py:28-52 | the loop adds one `ORDER BY` term per parameter and stops at the first invalid field |
| Sorting.OrderClausesOkIff | offsets_db_api/sql_helpers.py:42-47 | sorting succeeds exactly when every parameter names a column; proved for any reading of the parameters, so for `ParseSortParam` too |
| Sorting.OrderClausesValue | offsets_db_api/sql_helpers.py:28-52 | a successful sort is the statement's terms followed by exactly one term per parameter, in the order given (`Terms`), for any reading of the parameters |
| Sorting.OrderClausesErr | offsets_db_api/sql_helpers.py:43-47 | a failure is the 400 answer naming the first parameter whose field is not a column, every earlier one naming a column |
| Sorting.WithKey | offsets_db_api/sql_helpers.py:25-26 | the key is appended exactly when none of `pk`, `-pk` or `+pk` is present |
| Sorting.WithKeyNamesKey | offsets_db_api/sql_helpers.py:24-26 | afterwards the list always names the key |
| Sorting.KeySpellings | offsets_db_api/sql_helpers.py:29-40 | every spelling of the key parses to the key |
| Sorting.WithKeyOrdersByKey | offsets_db_api/sql_helpers.py:24-52 | a successful sort always has a term on the primary key |
| Sorting.WithKeyAsWritten | offsets_db_api/query_helpers.py:95-96 | the `or` test appends the key unless all three spellings are present |
| Sorting.WithKeyAsWrittenDuplicates | offsets_db_api/query_helpers.py:95-96 | `['id']` becomes `['id', 'id']` and `['-id']` gains an ascending `id` under the `or` test |
| Sorting.WithKeyNoDuplicate | offsets_db_api/sql_helpers.py:25-26 | the `and` test never names the key twice when the caller named it |
| Sorting.SortList.constructor | offsets_db_api/sql_helpers.py:17 | the caller's list holds the given parameters |
| Sorting.ApplySorting | offsets_db_api/sql_helpers.py:14-52 | appends the key to the caller's list when it is not named, then orders by each parameter with NULLs last, or fails with 400 |
| Sorting.ApplySortingQueryHelpers | offsets_db_api/query_helpers.py:91-122 | the same, with the `or` test as written |
| Sorting.ApplySortingLegacy | carbonplan_offsets_db/query_helpers.py:5-33 | succeeds exactly when every field is a column, adds one term per parameter without NULLS LAST, and leaves the list alone |
| Charts.CalculateEndDate | offsets_db_api/routers/charts.py:40-54 | the end is one day after the start for D, seven days for W, and a valid date not before the start for every frequency |
| Charts.AddOneMonth | offsets_db_api/routers/charts.py:50 | adding one month moves to the next month, rolling December over to January |
| Charts.EndOfMonthBin | offsets_db_api/routers/charts.py:46-52 | a monthly bin that starts on the first ends on the last day of that month |
| Charts.EndOfYearBin | offsets_db_api/routers/charts.py:47-52 | a yearly bin that starts on 1 January ends on 31 December |
| Charts.EndDateExamples | offsets_db_api/routers/charts.py:40-54 | the ends of bins starting 2020-01-01 are 01-02, 01-08, 01-31 and 12-31 |
| Charts.Step | offsets_db_api/routers/charts.py:103-109 | one period of the range is a valid later date |
| Charts.Snap | offsets_db_api/routers/charts.py:93-97 | `min_value` snaps to the first of its month for M, to 1 January for Y, and is otherwise kept |
| Charts.Anchor | offsets_db_api/routers/charts.py:103-109 | the weekly range starts on the first Sunday on or after the start, at most six days later; other ranges start at the start |
| Charts.Range | offsets_db_api/routers/charts.py:104-109 | the range yields valid dates |
| Charts.DateRange | offsets_db_api/routers/charts.py:104-109 | `pd.date_range` yields valid dates |
| Charts.LastBin | offsets_db_api/routers/charts.py:111-117 | the closing bin is a valid date |
| Charts.DateRangeOf | offsets_db_api/routers/charts.py:104-109 | the loop that steps through the periods yields exactly the range |
| Charts.RangeStep | offsets_db_api/routers/charts.py:104-109 | a range is its start followed by the range from the next period |
| Charts.AppendLastBin | offsets_db_api/routers/charts.py:119-120 | the closing bin is appended unless it is already the last one |
| Charts.GenerateDateBins | offsets_db_api/routers/charts.py:57-123 | returns the date bins, or the error for both `freq` and `num_bins` and for an empty range |
| Charts.RangeFirst | offsets_db_api/routers/charts.py:104-109 | a range is empty exactly when its start is after its end, and otherwise starts at the start |
| Charts.RangeBounds | offsets_db_api/routers/charts.py:104-109 | every date of a range lies between its start and its end |
| Charts.RangeIncreasing | offsets_db_api/routers/charts.py:104-109 | the dates of a range strictly increase |
| Charts.RangeEnd | offsets_db_api/routers/charts.py:104-109 | the range stops at the last period before the end is passed |
| Charts.RangeStarts | offsets_db_api/routers/charts.py:103-109 | monthly periods stay on the first of a month, and yearly periods stay on 1 January |
| Charts.LastBinFollows | offsets_db_api/routers/charts.py:111-120 | the closing bin is `max_value` for D and W and the next period for M and Y, never before the last start |
| Charts.BinsFromShape | offsets_db_api/routers/charts.py:99-123 | the bins start at the first period and increase; they end at `max_value` for D and W, and after it for M and Y |
| Charts.MatchFrom | offsets_db_api/routers/charts.py:211-219 | the matched `WHEN` holds the value, and no earlier `WHEN` does |
| Charts.AssignInterval | offsets_db_api/routers/charts.py:211-219 | with increasing bins, a value inside bin `i`'s interval gets bin `i` |
| Charts.MatchAt | offsets_db_api/routers/charts.py:211-219 | the first matching `WHEN` is the interval that holds the value |
| Charts.MatchCovered | offsets_db_api/routers/charts.py:211-219 | a value between the first and the last bin matches some `WHEN` |
| Charts.AssignBelow | offsets_db_api/routers/charts.py:219 | a value before the first bin gets the `ELSE` bin |
| Charts.NullTakesElse | offsets_db_api/routers/charts.py:211-220 | a NULL cell fails every `WHEN` and takes the `ELSE`, like a value at or after the last bin |
| Charts.CaseOfCorrectedAgrees | offsets_db_api/routers/charts.py:211-220 | the corrected `CASE` always has a `WHEN` and gives every value the bin the written one gives, whenever that one builds |
| Charts.DateBinCaseBuilds | offsets_db_api/routers/charts.py:211-220 | the date `CASE` builds exactly when the first bin comes before the last; the corrected one always builds and bins every value the same way |
| Charts.MatchOutside | offsets_db_api/routers/charts.py:211-219 | outside the span of the bins no `WHEN` matches |
| Charts.DayNumbers | offsets_db_api/routers/charts.py:214 | dates are compared through their day numbers, one per bin |
| Charts.BinsFromCover | offsets_db_api/routers/charts.py:208-219 | every value from the first bin to `max_value` gets a bin at or before it, the bin whose interval holds it when the value lies before the last bin |
| Charts.DateBinsCover | offsets_db_api/routers/charts.py:93-123 | for D, M and Y every value in range gets a bin at or before it; for M and Y it is the bin whose interval holds it; the query's `CASE` builds unless the frequency is D and `min_value == max_value`, and the corrected `CASE` bins the value the same way |
| Charts.SingleDayBinsAsWritten | offsets_db_api/routers/charts.py:208-220 | with D and a single listing day the range is one bin and the `CASE` has no `WHEN` |
| Charts.SingleDayBinsCorrected | offsets_db_api/routers/charts.py:208-220 | with the corrected `CASE` the single day is counted in its own bin |
| Charts.UndatedInLastBin | offsets_db_api/routers/charts.py:211-220 | a row with a NULL date is counted in the last bin, at or after `max_value`, like a row dated on or after that bin |
| Charts.WeeklyBinsAsWritten | offsets_db_api/routers/charts.py:103-109 | when `min_value` is not a Sunday, a row dated `min_value` falls in the `ELSE` bin, which is `max_value`, a later date; the `CASE` builds exactly when the first Sunday comes before `max_value` |
| Charts.WeeklyCaseBuilds | offsets_db_api/routers/charts.py:103-120 | with W, whatever weekday `min_value` falls on, the query's `CASE` builds exactly when the first Sunday on or after `min_value` comes before `max_value` |
| Charts.DateBinsCorrectedAgrees | offsets_db_api/routers/charts.py:93-123 | the corrected bins equal the written ones for D, M and Y |
| Charts.WeeklyBinsCorrected | offsets_db_api/routers/charts.py:103-123 | with the weekly range starting at `min_value`, every value gets a bin that starts at most six days before it, and the corrected `CASE` builds and bins it the same way |
| Charts.WeeklyGap | offsets_db_api/routers/charts.py:103-120 | consecutive weekly bins are at most seven days apart |
| Charts.RangeSteps | offsets_db_api/routers/charts.py:104-109 | each date of a range is one period after the one before |
| Charts.Multiples | offsets_db_api/routers/charts.py:141 | the multiples of the width from a start, `k + 1` of them |
| Charts.ARangeMultiples | offsets_db_api/routers/charts.py:141 | `np.arange(lo, hi + w, w)` is the multiples of `w` from `lo` to `hi` |
| Charts.FloorCeil | offsets_db_api/routers/charts.py:138-139 | the rounded bounds are the multiples of the width around `min_value` and `max_value` |
| Charts.NumericBinsShape | offsets_db_api/routers/charts.py:126-144 | with a positive width the bins run from the multiple at or below `min_value` to the one at or above `max_value`, at least two of them |
| Charts.MultiplesIncreasing | offsets_db_api/routers/charts.py:141 | numeric bins increase |
| Charts.QuotientBounds | offsets_db_api/routers/charts.py:138 | the multiple at or below a value in range lies between the bounds |
| Charts.NumericCaseShape | offsets_db_api/routers/charts.py:599-616 | the bins are `(f + i) * width`, and the `ELSE` is the bin before the top |
| Charts.NumericIndexBelow | offsets_db_api/routers/charts.py:604-614 | a value below the top multiple lies in the bin of the multiple at or below it |
| Charts.NumericTop | offsets_db_api/routers/charts.py:615 | the top bin is one width after the bin before it |
| Charts.NumericAssign | offsets_db_api/routers/charts.py:599-616 | every value in range gets the multiple of the width at or below it, and the top value gets the bin before the top |
| Charts.NumericCaseAsWritten | offsets_db_api/routers/charts.py:129-130 | when all values are equal there is a single bin, and `bins[-2]` fails |
| Charts.NumericCaseCorrectedAgrees | offsets_db_api/routers/charts.py:615 | the corrected `CASE` agrees wherever the written one succeeds, and also handles a single bin |
| Charts.NumericCaseCorrectedSingle | offsets_db_api/routers/charts.py:129-130 | the corrected `CASE` of a single bin has a `WHEN`, and the one value there is gets that bin |
| Charts.NumericNullTakesElse | offsets_db_api/routers/charts.py:604-616 | a NULL total takes the `ELSE`, the second-to-last bin |
| Charts.IndexOf | offsets_db_api/routers/charts.py:630 | `bins.index(x)` is the first position holding `x`, and is absent only when `x` is not a bin |
| Charts.BinEndNext | offsets_db_api/routers/charts.py:629-631 | with increasing bins each bin ends where the next begins, and the last has no end |
| Charts.NumericBinEnd | offsets_db_api/routers/charts.py:599-634 | with a positive width, the bin any value is assigned ends one width later |
| Charts.AutoFreqBinsOk | offsets_db_api/routers/charts.py:474-489 | the frequency picked for an ordered span always gives a non-empty range of bins |
| Charts.Formatted | offsets_db_api/routers/charts.py:237-251 | formatting never yields more results than rows |
| Charts.FormattedSound | offsets_db_api/routers/charts.py:239-251 | each result comes from a row whose year is not in the future |
| Charts.FormattedComplete | offsets_db_api/routers/charts.py:239-251 | each row whose year is not in the future gives a result |
| Charts.BinnedLeTotalPreorder | offsets_db_api/routers/charts.py:254 | the `(start, category)` key is a total preorder |
| Charts.FormatBinnedRows | offsets_db_api/routers/charts.py:236-264 | the response holds the formatted rows, as a permutation sorted by `(start, category)`, on a single page |
| Charts.NoRowsPage | offsets_db_api/routers/charts.py:236-264 | with no rows there are no results |
| LegacyCharts.YearOf | carbonplan_offsets_db/routers/charts.py:46 | the year of an instant is at least 1 |
| LegacyCharts.DivideAndRoundNearest | carbonplan_offsets_db/routers/charts.py:36 | `timedelta / n` is the nearest whole microsecond to the exact quotient, and exact when `n` divides the span |
| LegacyCharts.Conditions | carbonplan_offsets_db/routers/charts.py:40-49 | one condition per bin from `range(num_bins)`, none when `num_bins <= 0` |
| LegacyCharts.BinAt | carbonplan_offsets_db/routers/charts.py:42-46 | bin `i` runs from `min + i * width` for one width and is labelled with the years of both ends |
| LegacyCharts.AssignFirst | carbonplan_offsets_db/routers/charts.py:52 | a project gets the label of the first interval that holds it |
| LegacyCharts.AssignNone | carbonplan_offsets_db/routers/charts.py:52 | a project no interval holds is labelled `other` |
| LegacyCharts.QuotientBin | carbonplan_offsets_db/routers/charts.py:43-44 | bin `(t - min) / width` is the one whose interval holds `t` |
| LegacyCharts.QuotientBelow | carbonplan_offsets_db/routers/charts.py:43-48 | an instant inside the covered span has a bin index below `num_bins` |
| LegacyCharts.BinIndex | carbonplan_offsets_db/routers/charts.py:40-49 | the bin holding `t` is `(t - min) / width`, with the bounds that place it there |
| LegacyCharts.BelowBin | carbonplan_offsets_db/routers/charts.py:43-44 | every interval before bin `k` ends where bin `k` starts or earlier |
| LegacyCharts.LabelNotOther | carbonplan_offsets_db/routers/charts.py:46 | a year label is never `other` |
| LegacyCharts.BelowMisses | carbonplan_offsets_db/routers/charts.py:40-52 | no interval below bin `k` holds an instant of bin `k` |
| LegacyCharts.AssignInRange | carbonplan_offsets_db/routers/charts.py:40-52 | with a positive width, a project registered inside the bins' span gets the label of bin `(t - min) / width` |
| LegacyCharts.AssignOutside | carbonplan_offsets_db/routers/charts.py:40-52 | a project registered before `min` or at or after the bins' end is labelled `other` |
| LegacyCharts.RegisteredDates | carbonplan_offsets_db/routers/charts.py:31-33 | the registration instants that are not NULL, exactly |
| LegacyCharts.MinOf | carbonplan_offsets_db/routers/charts.py:32 | `min(registered_at)` is one of the instants and none is smaller |
| LegacyCharts.MaxOf | carbonplan_offsets_db/routers/charts.py:32 | `max(registered_at)` is one of the instants and none is larger |
| LegacyCharts.Keys | carbonplan_offsets_db/routers/charts.py:55-57 | each project's (label, category) key, in table order |
| LegacyCharts.AddKeyCounts | carbonplan_offsets_db/routers/charts.py:56-57 | counting one row raises its own group's count by one and the total by one |
| LegacyCharts.AddKeyKeys | carbonplan_offsets_db/routers/charts.py:56-57 | a new key is appended as a group, and a known key keeps the groups |
| LegacyCharts.GroupCountCorrect | carbonplan_offsets_db/routers/charts.py:55-59 | `GROUP BY` gives each distinct key once with its number of rows, and the counts add up to the rows |
| LegacyCharts.ParseLabelRoundTrip | carbonplan_offsets_db/routers/charts.py:73-75 | decoding a year label gives back its two years |
| LegacyCharts.ParseOther | carbonplan_offsets_db/routers/charts.py:73-75 | the `other` label decodes to `(None, None)` |
| LegacyCharts.FormatGroups | carbonplan_offsets_db/routers/charts.py:71-76 | on success there is one entry per group |
| LegacyCharts.AssignGood | carbonplan_offsets_db/routers/charts.py:52 | every label the `CASE` gives is a year label or `other` |
| LegacyCharts.FormatGood | carbonplan_offsets_db/routers/charts.py:71-76 | labels the `CASE` produces always decode |
| LegacyCharts.ConditionsGood | carbonplan_offsets_db/routers/charts.py:40-49 | every condition carries a year label |
| LegacyCharts.GroupsGood | carbonplan_offsets_db/routers/charts.py:52-59 | every group's label is one the `CASE` produces |
| LegacyCharts.BinnedDataErrors | carbonplan_offsets_db/routers/charts.py:31-79 | the call fails exactly when no project has a registration date or `num_bins` is not positive: 0 divides by zero, and a negative count leaves the `CASE` without a `WHEN`, which the database rejects; the count check never fails and every label decodes |
| LegacyCharts.BinnedDataSucceeds | carbonplan_offsets_db/routers/charts.py:31-79 | with a registration date and a positive `num_bins` the call returns a response |
| LegacyCharts.FormatGroupsEntries | carbonplan_offsets_db/routers/charts.py:71-76 | entry `i` carries group `i`'s category, its count and the years its label decodes to |
| LegacyCharts.SameCounts | carbonplan_offsets_db/routers/charts.py:63 | the response's counts sum to the groups' total |
| LegacyCharts.BinnedDataTotal | carbonplan_offsets_db/routers/charts.py:61-68 | the counts of a response add up to the number of projects, undated ones included |
| LegacyCharts.GetBinnedData | carbonplan_offsets_db/routers/charts.py:12-79 | the method computes the binned response, failing only where the source raises or the database rejects the query |
| LegacyCharts.FormatLoop | carbonplan_offsets_db/routers/charts.py:71-76 | the loop turns each group, in order, into its start year, end year, category and count; the first label that does not decode fails the whole call |
| LegacyCharts.FormatErrorSticks | carbonplan_offsets_db/routers/charts.py:72-75 | once a label fails to decode, the whole call fails with that error |
| LegacyCharts.LatestIsOther | carbonplan_offsets_db/routers/charts.py:36-49 | when the width divides the span exactly, the latest project is labelled `other` |
| LegacyCharts.LatestIsOtherExample | carbonplan_offsets_db/routers/charts.py:36-49 | with fifteen bins over fifteen days, the project registered on the last day gets no year label |
| LegacyCharts.ConditionsCorrected | carbonplan_offsets_db/routers/charts.py:40-49 | the same conditions, with the last interval closed at `max` |
| LegacyCharts.CorrectedCoversEarly | carbonplan_offsets_db/routers/charts.py:40-52 | below the last interval the corrected conditions give a year label |
| LegacyCharts.CorrectedCoversLate | carbonplan_offsets_db/routers/charts.py:40-52 | from the last interval's start to `max` the corrected conditions give a year label |
| LegacyCharts.CorrectedCovers | carbonplan_offsets_db/routers/charts.py:36-52 | with the last interval closed, every project registered between `min` and `max` gets a year label |
| LegacyCharts.CorrectedAgrees | carbonplan_offsets_db/routers/charts.py:40-52 | the corrected conditions agree with the written ones on every instant the written ones cover |
| LegacyCharts.SameTests | carbonplan_offsets_db/routers/charts.py:52 | conditions with the same labels and the same tests assign the same label |
| LegacyStats.Selected | carbonplan_offsets_db/routers/stats.py:23 | `isin(categories)` keeps exactly the rows whose category is listed, and a missing category is in no list |
| LegacyStats.KeepPassing | carbonplan_offsets_db/routers/stats.py:26-30 | keeps exactly the rows whose project passes the `nunique() == len(x)` test |
| LegacyStats.FilterValidMembers | carbonplan_offsets_db/routers/stats.py:18-30 | with no categories the frame is returned unchanged; otherwise a row survives exactly when its category is listed and no listed category repeats among its project's listed rows |
| LegacyStats.KeepPassingSubsequence | carbonplan_offsets_db/routers/stats.py:26-30 | the filter never adds rows and keeps every row of a passing project |
| LegacyStats.OutsideCategoryKept | carbonplan_offsets_db/routers/stats.py:23-30 | a project also listed under an unlisted category keeps its listed rows |
| LegacyStats.RepeatedCategoryDropped | carbonplan_offsets_db/routers/stats.py:26-30 | a project listed twice under one listed category loses all its rows |
| LegacyStats.PresentCategories | carbonplan_offsets_db/routers/stats.py:37 | the categories present among the rows, exactly |
| LegacyStats.Unique | carbonplan_offsets_db/routers/stats.py:37 | each element once, and nothing else |
| LegacyStats.GroupCategoriesShape | carbonplan_offsets_db/routers/stats.py:37 | `groupby('category')` gives every present category once, in strictly ascending order |
| LegacyStats.SortedPairs | carbonplan_offsets_db/routers/stats.py:37 | any two group keys are in order |
| LegacyStats.InCategory | carbonplan_offsets_db/routers/stats.py:37 | the rows of one category, exactly |
| LegacyStats.ProjectsByCategoryShape | carbonplan_offsets_db/routers/stats.py:33-38 | one entry per category of a surviving row, ascending, each counting that category's rows, and at least one |
| LegacyStats.CreditsByCategoryShape | carbonplan_offsets_db/routers/stats.py:41-51 | one entry per category of a surviving row, in strictly ascending order, the same categories as the counts, each summing its rows' issued and retired values with missing ones skipped |
| LegacyStats.SumPresentNonNegative | carbonplan_offsets_db/routers/stats.py:46 | sums of non-negative values, missing ones skipped, are non-negative |
| Models.File.constructor | offsets_db_api/models.py:12-21 | a new file is pending, with no error and no hash, stamped with the time of creation, and of unknown category unless one is given |
| Models.FirstFailing | offsets_db_api/models.py:122-171 | the first row that fails a check, or none exactly when every row passes |
| Models.Validate | offsets_db_api/models.py:122-171 | `schema.validate` returns the frame unchanged exactly when the required columns are present and every row passes; a failed check names a failing row |
| Models.ValidateProjectsIff | offsets_db_api/models.py:122-142 | a project frame passes exactly when it has the required columns, every row has a project id and a registry, and no total is negative; `listed_at` may be absent |
| Models.ValidateCreditsIff | offsets_db_api/models.py:145-156 | a credit frame passes exactly when every row has an id and a project id and no quantity is negative |
| Models.ValidateClipsIff | offsets_db_api/models.py:159-171 | a clip frame passes exactly when every row has an id and a project id |
| Models.ValidateIdempotent | offsets_db_api/models.py:122-171 | a frame that passes passes again, unchanged |
| Health.Successful | offsets_db_api/routers/health.py:19-28 | the `where` clause keeps exactly the successful project, credit and clip files |
| Health.RecentFirstPreorder | offsets_db_api/routers/health.py:29 | newest-first order is a total preorder |
| Health.Times | offsets_db_api/routers/health.py:33-35 | a category's times are exactly the times of its rows |
| Health.GroupByCategory | offsets_db_api/routers/health.py:33-35 | the grouping loop gives each category present its times, in result order |
| Health.Status | offsets_db_api/routers/health.py:16-45 | the response says `ok`, passes the staging flag, and reports each category present with the first time of its group |
| Health.TimesDescending | offsets_db_api/routers/health.py:29-35 | each category's times come newest first |
| Health.LatestIsMostRecent | offsets_db_api/routers/health.py:16-45 | a category is reported exactly when some file of it loaded successfully, and then with the most recent such load |
| Ingest.UpdateFileStatus | offsets_db_api/tasks.py:22-30 | the file takes the given status and error and is stamped with the current time; its id, url, category and hash are unchanged |
| Ingest.Reverse | offsets_db_api/tasks.py:307-313 | repeated `insert(0, …)` leaves the project files in reverse arrival order: element k is element n-1-k of the input |
| Ingest.WithCategory | offsets_db_api/tasks.py:315 | the comprehension keeps only files of the category, each drawn from the input |
| Ingest.WithoutCategory | offsets_db_api/tasks.py:316 | the comprehension keeps only files of other categories, each drawn from the input |
| Ingest.OrderFiles | offsets_db_api/tasks.py:307-313 | the ordering loop produces the ordering function's list |
| Ingest.OrderedShape | offsets_db_api/tasks.py:307-313 | the ordered list is the project files in reverse arrival order followed by all other files in arrival order |
| Ingest.ProjectsFirst | offsets_db_api/tasks.py:307-313 | no project file comes after a file of another category, so the delete cascade sees projects first |
| Ingest.FilterMultiset | offsets_db_api/tasks.py:315-316 | the two comprehensions split a list into parts that together hold every file exactly once |
| Ingest.ReverseMultiset | offsets_db_api/tasks.py:311 | reversal is a permutation |
| Ingest.OrderedPermutation | offsets_db_api/tasks.py:307-313 | ordering neither drops nor duplicates a file |
| Ingest.ClipPartition | offsets_db_api/tasks.py:307-316 | clip files and other files together are exactly the submitted files |
| Ingest.StatusAfter | offsets_db_api/tasks.py:320-418 | a file ends in failure with the raised message exactly when its load fails, in success with no error otherwise |
| Ingest.LoadOtherFiles | offsets_db_api/tasks.py:320-393 | every credit or project file ends in success or failure according to its load outcome, stamped now; files of other categories are skipped and keep their status |
| Ingest.LoadClipFiles | offsets_db_api/tasks.py:399-424 | every clip file ends in success or failure, the frames kept are those of the clip files that loaded, and none is kept exactly when every clip file failed |
| Ingest.ProcessFiles | offsets_db_api/tasks.py:301-450 | credit, project and clip files end with their load outcome, others keep their status; the call stops with no clip files exactly when none was submitted, and reaches the failing concatenation exactly when every clip file failed |
| Ingest.OrderAndSplit | offsets_db_api/tasks.py:307-316 | the clip list and the other list hold exactly the submitted files of, and not of, the clip category |
| Ingest.NotIn | offsets_db_api/tasks.py:405-418 | the frames kept come from exactly the files whose load did not fail |
| Ingest.ProcessedCover | offsets_db_api/tasks.py:315-316 | every submitted file lands in the clip list or the other list according to its category |
| Ingest.DropPrefix | offsets_db_api/tasks.py:68 | `project_id[3:]` drops the three-letter registry prefix, and is empty for shorter ids |
| Ingest.PlaceholderUrl | offsets_db_api/tasks.py:57-68 | a placeholder has a url exactly when its registry has a detail page, the page prefix followed by the id without its prefix |
| Ingest.Placeholder | offsets_db_api/tasks.py:69-77 | a placeholder project carries the id, the registry, unknown category, protocol and type, type source carbonplan and the registry's url |
| Ingest.MissingIds | offsets_db_api/tasks.py:41-51 | the missing ids are exactly the frame's ids that are not yet in the project table |
| Ingest.ProjectTable.constructor | offsets_db_api/tasks.py:44-48 | a new project table is empty |
| Ingest.Placeholders | offsets_db_api/tasks.py:65-79 | one placeholder project per missing id, each id exactly once, each built from that id and its registry |
| Ingest.ProjectTable.EnsureProjectsExist | offsets_db_api/tasks.py:33-88 | one placeholder per missing id is built and inserted, existing rows are untouched, and nothing is inserted when none is missing |
| Ingest.IdsOf | offsets_db_api/tasks.py:65-78 | the ids of the placeholders, in order |
| Ingest.EnsuredCovers | offsets_db_api/tasks.py:33-88 | afterwards every id of the frame has a project, existing projects are unchanged, and every new row is the placeholder of one of the frame's ids |
| Ingest.EnsureIdempotent | offsets_db_api/tasks.py:33-88 | a second call with the same ids finds nothing missing |
| Ingest.ArrayLiteral | offsets_db_api/tasks.py:107 | a list becomes a brace-delimited literal |
| Ingest.ArrayLiteralRoundTrip | offsets_db_api/tasks.py:107 | a non-empty list whose items hold no comma reads back from its literal unchanged |
| Ingest.EmptyArrayLiteral | offsets_db_api/tasks.py:107 | the empty list becomes `{}`, which reads back as one empty item rather than none |
| Ingest.ConvertCell | offsets_db_api/tasks.py:106-108 | a list cell becomes its array literal; any other cell is kept |
| Ingest.Frame.constructor | offsets_db_api/tasks.py:91-97 | a frame holds the given columns |
| Ingest.Frame.ConvertArrays | offsets_db_api/tasks.py:101-108 | the conversion loop leaves the frame equal to the conversion function of the old frame |
| Ingest.ConvertColumn | offsets_db_api/tasks.py:106-108 | `apply` converts every cell and keeps the column's length |
| Ingest.Converted | offsets_db_api/tasks.py:101-108 | the columns are kept; exactly the columns declared as arrays and present in the frame are converted, the rest are unchanged |
| Ingest.ConvertCellIdempotent | offsets_db_api/tasks.py:107 | converting a converted cell changes nothing |
| Ingest.ConvertColumnIdempotent | offsets_db_api/tasks.py:106-108 | converting a converted column changes nothing |
| Ingest.ConvertedStep | offsets_db_api/tasks.py:103-108 | one more declared column converts that column if it is an array column present in the frame, and changes nothing else |
| Ingest.Links | offsets_db_api/tasks.py:442-444 | one link row per project id of a clip, numbered consecutively from the running index |
| Ingest.ExpandClipProjects | offsets_db_api/tasks.py:436-444 | the nested loop produces the expansion function's rows |
| Ingest.ExpansionShape | offsets_db_api/tasks.py:436-444 | there is one row per (clip, project id) pair, the ids run 0, 1, 2, …, every clip id is a row of the frame and the rows follow the clips' order |
| Ingest.LinkedAppend | offsets_db_api/tasks.py:443 | a link is in a concatenation exactly when it is in one of its parts |
| Ingest.LinkedLinks | offsets_db_api/tasks.py:442-444 | a clip's rows link it to exactly its own project ids |
| Ingest.ExpansionMembers | offsets_db_api/tasks.py:436-444 | a clip and a project are linked exactly when the project is among that clip's project ids |
| LegacyIngest.KeyOf | carbonplan_offsets_db/tasks.py:207 | a row lacking the key column reads as NULL |
| LegacyIngest.ProtectedKeys | carbonplan_offsets_db/tasks.py:17-18 | an update never copies the row id or the file kind's key column |
| LegacyIngest.ChunkSize | carbonplan_offsets_db/tasks.py:126-133 | a positive chunk size of the file is used, 10 000 otherwise, and the result is always positive |
| LegacyIngest.BatchesCover | carbonplan_offsets_db/tasks.py:261-262 | the slices `[i : i + batch_size]` cover the list once and in order, each non-empty and at most the batch size, only the last shorter, and there are as many as the ceiling of the length over the batch size |
| LegacyIngest.Table.constructor | carbonplan_offsets_db/tasks.py:206-209 | a table holds the given rows |
| LegacyIngest.Table.InsertNewRecords | carbonplan_offsets_db/tasks.py:286-309 | the new records are appended to the table in order, sent in the slices of the batch size |
| LegacyIngest.Table.RemoveStaleRecords | carbonplan_offsets_db/tasks.py:312-346 | the table keeps exactly the rows `NOT IN` does not delete, or stays as it was when the database fails and the session is rolled back |
| LegacyIngest.Table.LoadChunk | carbonplan_offsets_db/tasks.py:148-173 | one chunk updates the matching rows and then inserts the records no row matches |
| LegacyIngest.Table.LoadFile | carbonplan_offsets_db/tasks.py:125-177 | every chunk of the file is merged in turn, keyed by the file kind's column |
| LegacyIngest.BatchStep | carbonplan_offsets_db/tasks.py:261-262 | taking one slice leaves the batches of the rest |
| LegacyIngest.Kept | carbonplan_offsets_db/tasks.py:335 | the rows left are at most the rows before |
| LegacyIngest.KeptRows | carbonplan_offsets_db/tasks.py:335-337 | a row survives exactly when the valid ids are not empty and its key is NULL, a NULL is among them, or its key is among them |
| LegacyIngest.KeptIdempotent | carbonplan_offsets_db/tasks.py:335-342 | removing stale rows twice removes nothing more |
| LegacyIngest.NullValidIdKeepsAll | carbonplan_offsets_db/tasks.py:335 | a NULL among the valid ids makes `NOT IN` unknown for every row, so nothing is deleted |
| LegacyIngest.EmptyValidIdsDeletesAll | carbonplan_offsets_db/tasks.py:335-337 | an empty list of valid ids makes `NOT IN` true for every row, NULL keys included, so every row is deleted |
| LegacyIngest.FirstMatch | carbonplan_offsets_db/tasks.py:247-254 | `next(…)` yields the first record of the chunk whose key equals the row's, and nothing exactly when none does |
| LegacyIngest.Updated | carbonplan_offsets_db/tasks.py:268-273 | the row keeps its columns; each column the record has and that is not protected takes the record's value, every other keeps its own |
| LegacyIngest.UpdatedIdempotent | carbonplan_offsets_db/tasks.py:268-273 | updating twice from the same record changes nothing more |
| LegacyIngest.Row.constructor | carbonplan_offsets_db/tasks.py:209 | a row holds the given fields |
| LegacyIngest.Row.UpdateRecord | carbonplan_offsets_db/tasks.py:268-273 | the loop over the record's items leaves the row equal to its updated fields |
| LegacyIngest.FieldsOf | carbonplan_offsets_db/tasks.py:258 | the fields of each row, in order |
| LegacyIngest.MergedIdempotent | carbonplan_offsets_db/tasks.py:245-258 | a row merged twice from the same chunk equals the row merged once, the key being protected |
| LegacyIngest.UpdateExistingRecords | carbonplan_offsets_db/tasks.py:215-265 | every existing row becomes its merge with its first matching record, the dicts sent are those of the rows with a non-empty match, in row order, and they are sent in slices of the batch size |
| LegacyIngest.MergeAll | carbonplan_offsets_db/tasks.py:245-258 | every existing row becomes its merge with its first matching record, and the list kept holds the new dicts of the rows whose match is not empty, in row order |
| LegacyIngest.MergeRow | carbonplan_offsets_db/tasks.py:246-258 | one row is updated from its first matching record, and its new dict is sent exactly when that record is not empty |
| LegacyIngest.SentAfterMerge | carbonplan_offsets_db/tasks.py:246-258 | what is sent for a merged row equals what is sent for the row before the merge |
| LegacyIngest.FindNewRecords | carbonplan_offsets_db/tasks.py:276-283 | the new records are exactly the chunk's records whose key no existing row has |
| LegacyIngest.FindExistingRecords | carbonplan_offsets_db/tasks.py:184-212 | the rows found are exactly the table rows with a non-NULL key equal to some record's key |
| LegacyIngest.KeysOf | carbonplan_offsets_db/tasks.py:280 | the set of the rows' keys |
| LegacyIngest.NewOrExisting | carbonplan_offsets_db/tasks.py:148-173 | a record is inserted exactly when its key is NULL or no table row has it |
| LegacyIngest.MergedRows | carbonplan_offsets_db/tasks.py:155-164 | the update step keeps the number of rows |
| LegacyIngest.MergedKeepsKeys | carbonplan_offsets_db/tasks.py:268-273 | an update never changes a row's key |
| LegacyIngest.MergeCovers | carbonplan_offsets_db/tasks.py:148-173 | after a chunk every non-NULL key it carries has a row in the table |
| LegacyIngest.MergeCoversOne | carbonplan_offsets_db/tasks.py:148-173 | after a chunk a given record's key has a row in the table |
| LegacyIngest.MergeKeepsRows | carbonplan_offsets_db/tasks.py:148-173 | loading a chunk keeps every existing row in place with its key, and never shrinks the table |
| LegacyIngest.ProjectRow.constructor | carbonplan_offsets_db/tasks.py:368 | a project row holds its id and totals |
| LegacyIngest.ProjectTotals | carbonplan_offsets_db/tasks.py:373-387 | the inner loop yields the sums of the project's issuance and retirement quantities, and fails with `TypeError` exactly when a credit of the project has no type, or is an issuance or a retirement with a NULL quantity |
| LegacyIngest.RaisesPrefix | carbonplan_offsets_db/tasks.py:382-387 | a credit that raises in a prefix raises in the whole list |
| LegacyIngest.CalculateTotals | carbonplan_offsets_db/tasks.py:359-404 | every project's totals are recomputed from its credits, or, when a credit of some project has no type or adds a NULL quantity, the change is rolled back and every project keeps its totals |
| LegacyIngest.Restore | carbonplan_offsets_db/tasks.py:397-401 | the rollback gives every project back the totals it had |
| LegacyIngest.TotalsAppend | carbonplan_offsets_db/tasks.py:382-387 | the totals of two lists of credits add up |
| LegacyIngest.TotalsNonNegative | carbonplan_offsets_db/tasks.py:382-387 | quantities that are NULL or non-negative give non-negative totals |
| LegacyIngest.RegistryCounts | carbonplan_offsets_db/tasks.py:414-416 | each registry with projects is counted by its number of projects, and no other registry appears |
| LegacyIngest.Joined | carbonplan_offsets_db/tasks.py:449-459 | the inner join keeps at most the credits |
| LegacyIngest.CreditGroups | carbonplan_offsets_db/tasks.py:449-459 | one group per (registry, transaction type) with transactions, holding the SQL sum of its quantities and the count of its credits |
| LegacyIngest.GroupTotalEmpty | carbonplan_offsets_db/tasks.py:453-454 | a group without transactions has a NULL sum |
| LegacyIngest.GroupSumNull | carbonplan_offsets_db/tasks.py:453-454 | `sum(quantity)` is NULL exactly when no credit of the group has a quantity, while `count(id)` still counts those credits |
| LegacyIngest.GroupTotalPositive | carbonplan_offsets_db/tasks.py:449-459 | a group has transactions exactly when some joined credit is of that registry and type |
| LegacyIngest.StatsTable.constructor | carbonplan_offsets_db/tasks.py:407-409 | both statistics tables start empty |
| LegacyIngest.StatsTable.UpdateProjectStats | carbonplan_offsets_db/tasks.py:407-440 | today's row of each registry with projects is created or set to its project count, and no other row changes |
| LegacyIngest.StatsTable.UpdateCreditStats | carbonplan_offsets_db/tasks.py:443-497 | today's row of each (registry, transaction type) group is created or set to the group's sum, NULL when no quantity is present, and its count; no other row changes |
| LegacyIngest.LegacyFile.constructor | carbonplan_offsets_db/tasks.py:66-78 | a new file is pending with no error and no hash |
| LegacyIngest.Settled | carbonplan_offsets_db/tasks.py:78-104 | a file of unknown category is untouched; a failed load marks failure with the traceback's last line and keeps the old hash; a successful load records the hash and marks success unless reading the valid ids then fails |
| LegacyIngest.SettledIdempotent | carbonplan_offsets_db/tasks.py:78-104 | settling a file twice with the same outcomes changes nothing more |
| LegacyIngest.Removals | carbonplan_offsets_db/tasks.py:83-91 | stale rows are removed only for files of a known category that loaded, carry a valid-ids file and whose ids were read |
| LegacyIngest.ProcessFile | carbonplan_offsets_db/tasks.py:78-104 | one file ends settled, and its stale rows are removed exactly when it loaded and its valid ids were read |
| LegacyIngest.ProcessFiles | carbonplan_offsets_db/tasks.py:66-104 | every file ends settled by its own outcomes and the removals are made in file order |
| Trigger.GeneratePath | update_database.py:12-14 | the path is the bucket without its trailing slashes, followed by `/final/<YYYY-MM-DD>/<name>.parquet` |
| Trigger.DailyEntry | update_database.py:35-47 | an item gets an entry exactly when today's or yesterday's file exists, filed under the item's category and pointing at today's file when that exists, at yesterday's otherwise |
| Trigger.DailyEntries | update_database.py:34-47 | at most one entry per item |
| Trigger.DailyEntriesShape | update_database.py:34-47 | the daily entries are those of the items whose file exists, in the items' order |
| Trigger.Found | update_database.py:39-45 | the items kept are exactly those that have an entry |
| Trigger.Tuesdays | update_database.py:50-54 | every date of the weekly range is a calendar date |
| Trigger.TuesdaysShape | update_database.py:50-54 | the range is empty exactly when the start is after the end; otherwise it starts at the start, steps by seven days, stays within the end and stops less than a week before it |
| Trigger.OnePerWeekSound | update_database.py:56-66 | every weekly entry kept is a present date of the range from a week not yet added, and no two kept dates share a week |
| Trigger.OnePerWeekComplete | update_database.py:56-66 | when no two dates share a week, every present date is kept |
| Trigger.StepsApart | update_database.py:52-54 | dates that step by seven days are at least seven days apart |
| Trigger.WeekApart | update_database.py:58-59 | dates at least a week apart lie in different ISO weeks |
| Trigger.TuesdaysDistinctWeeks | update_database.py:52-59 | no two dates of the weekly range share an ISO week |
| Trigger.WeeklyEntries | update_database.py:61-65 | each kept date becomes a clips entry pointing at its weekly summary |
| Trigger.DailyLatest | update_database.py:34-47 | the loop over the four items produces the daily entries |
| Trigger.WeeklySummaries | update_database.py:56-66 | the loop with its set of added weeks produces the entries of the dates one-per-week keeps |
| Trigger.GetLatest | update_database.py:22-68 | the list is the daily entries followed by the weekly summaries |
| Trigger.LatestOrder | update_database.py:22-68 | at most four daily entries come first, and every entry after them is filed as clips |
| Trigger.LatestWeeklySound | update_database.py:49-66 | each weekly entry is a date of the range whose summary exists, and no two fall in one ISO week |
| Trigger.RangeComplete | update_database.py:49-66 | every date of a weekly range whose summary exists is kept |
| Trigger.LatestWeeklyComplete | update_database.py:49-66 | every Tuesday from 2024-02-06 to today whose summary exists has its weekly entry |
| Trigger.KeyVariable | update_database.py:89-96 | the production environment reads the production key variable and any other the staging one |
| Trigger.ApiKey | update_database.py:88-96 | the key is found exactly when its variable is set, and otherwise the error names the variable |
| Trigger.ExitCode | update_database.py:109-179 | the script exits cleanly exactly on a dry run or when the API answered OK |
| Trigger.RunScript | update_database.py:119-179 | an unreadable file list or an empty list stops the script, a dry run lists the files and sends nothing, a missing key raises, and otherwise the whole list is posted with the key in its headers |
| Strings.StripRightChar | update_database.py:14 | `rstrip("/")` removes exactly the trailing run of the character, leaving a prefix that does not end with it |
| Strings.StripLeft | carbonplan_offsets_db/query_helpers.py:10 | `strip()` removes exactly the leading run of white space |
| Strings.StripRight | carbonplan_offsets_db/query_helpers.py:10 | `strip()` removes exactly the trailing run of white space |
| Calendar.PrevDay | update_database.py:17-19 | yesterday is the valid date one day before today |
| Calendar.AddDays | update_database.py:52-54 | a step of the weekly range is the valid date seven days on |
| Calendar.Weekday | update_database.py:58-59 | the weekday that names a date's ISO week by its Monday lies in 0..6 |

## Left out

- Database effects are modelled as their effect on rows: sessions, engines, commits, SQL text and its execution. The `COPY` bulk load, index and key rebuilds, `work_mem` and `ANALYZE` of `process_dataframe` are not part of this model.
- Reading parquet, CSV and JSON files, the S3 existence test, the HTTP request and its response, the clock, and the process environment are parameters. The watch-dog file write, logging, metrics and timings are left out.
- `generate_hash` is not part of this model. The hash a file load produces is part of the load outcome that `LegacyIngest.ProcessFiles` takes as a parameter.
- `get_registry_from_project_id` comes from a package that is not part of this model. It is the parameter `registryOf`.
- The `np.log10` automatic bin width and the `num_bins` date bins of the chart endpoints are left out, because both are floating point. Numeric bins take an integer width as given.
- `check_api_key`, `geo.py`, the key generator, the route handler bodies, the watchdog observer, background scheduling, migrations and application wiring are left out. They are I/O, randomness or framework glue.
- Pydantic and pandera behaviour is modelled only as far as the row checks of the three schemas. Schemas that the ingest tasks import from the data package are not part of this model; the checks in `models.py` stand in for them.
- Ingest.ProcessFiles: it takes each file's load outcome as a map from the failing files to their messages. It does not compose the clip frame's validation or the `process_dataframe` calls with the status updates. The metrics dictionary is left out.
- Ingest.ProjectTable.EnsureProjectsExist: the `IntegrityError` rollback on commit is not modelled. The placeholder category is `["unknown"]` although the source passes the text `'unknown'` to an array column.
- Ingest.UpdateFileStatus: a failing commit is not modelled.
- LegacyIngest.Table.LoadFile: a failure in the middle of a file leaves the batches already committed in the table. The model describes only a file that loads completely; a failed load is an outcome of `LegacyIngest.ProcessFiles`.
- LegacyIngest.FirstMatch: a chunk record that lacks the key column raises `KeyError` in the source; the model reads it as NULL. A record whose key is NULL is inserted as new.
- LegacyIngest.CalculateTotals: the optional session argument and the `finally: close()` are left out.
- The legacy `tasks.py` refers to `ProjectStats`, `CreditStats`, `File.chunksize`, `File.valid_records_file_url`, `Credit.transaction_serial_number` and `Project.id`. The legacy `models.py` defines none of these, so the model follows `tasks.py`.
- Health.Status: the rendering of the instant as text by `strftime` is left out.
- Sorting.ApplySorting: the caller's list is a class field that the method reassigns. Aliasing of that list with other callers is not modelled.
- The SQL `GROUP BY` result order is left out; grouped results are maps.
- Python's `strftime` of years below 1000, float precision of pandas sums and `LIKE` escape characters are left out. `repr` is modelled for texts, integers, booleans, `None` and lists of these; the cache key holds only texts and lists of texts.
- Repr.HexEscaped: characters above U+00FF are written as themselves. Python escapes the non-printable ones among them, such as U+2028, as `\uXXXX` or `\UXXXXXXXX`, because its printable table covers all of Unicode; that table is not modelled.
- Trigger: an ISO (year, week) pair is named by the Monday of that week. Two dates share the pair exactly when they share the Monday. `print` output and `argparse` are left out; the parsed arguments are parameters of `Trigger.RunScript`.
- LegacyStats: the frame is taken after `explode`, one row per (project, category).
- Charts.FormatBinnedRows: a row's category is text. In the project table it is a list that may be NULL, and the source's sort by `(start, category)` raises `TypeError` when two rows share a start and only one has a NULL category. That failure is not modelled.
- Strings.Lower: only ASCII letters are folded, whereas Python's `str.lower` folds every cased character. Predicates.ILikeCell inherits this: PostgreSQL's `ILIKE` folds case by the database's locale, which is not modelled.
- Models.Project: the `project_type` and `type_source` columns do not appear in the `Project` model of `offsets_db_api/models.py`. `offsets_db_api/tasks.py:76` and `offsets_db_api/tasks.py:363`, the routers (`offsets_db_api/routers/clips.py:62-63`) and the tests use them, so the model keeps them.

## Findings

| source | as written | input that shows it | evidently intended | confidence | as-written member | corrected member |
|---|---|---|---|---|---|---|
| offsets_db_api/query_helpers.py:95-96 | the key is appended unless all of `pk`, `-pk` and `+pk` are present (an `or` of `not in` tests) | `sort=['id']` becomes `['id', 'id']`, and `['-id']` becomes `['-id', 'id']` | append the key only when none of its spellings is present, as `sql_helpers.py` does | not executed | Sorting.WithKeyAsWrittenDuplicates | Sorting.WithKeyNoDuplicate |
| offsets_db_api/routers/charts.py:599-616 | the `CASE` uses `else_=bins[-2]`, but equal minimum and maximum give a single bin | `min_value == max_value == 5`: `bins == [5]`, and `bins[-2]` raises `IndexError` | a single bin that takes the one value | not executed | Charts.NumericCaseAsWritten | Charts.NumericCaseCorrectedSingle |
| offsets_db_api/routers/charts.py:103-109 | weekly bins from `pd.date_range(freq='W')` start at the first Sunday on or after `min_value`, and values before it fall to the `ELSE` bin, which is `max_value` | `min_value` on a Wednesday and `max_value` after the following Sunday: a row dated `min_value` is counted in the bin `max_value`, which starts after it | each value in the bin of the week that holds it | not executed | Charts.WeeklyBinsAsWritten | Charts.WeeklyBinsCorrected |
| carbonplan_offsets_db/routers/charts.py:40-49 | every interval is half open, so the latest project matches no bin when the width divides the span | 15 bins over 15 days: the project registered at `max_date` is labelled `other` | the last interval closed at `max_date` | not executed | LegacyCharts.LatestIsOtherExample | LegacyCharts.CorrectedCovers |
| offsets_db_api/routers/charts.py:208-220 | the `CASE` has one `WHEN` per consecutive pair of bins, so a single bin gives none, which the database rejects | `freq='D'` and every listing on one day: `date_bins` is that day alone and the query fails | the single bin counts every row | not executed | Charts.SingleDayBinsAsWritten | Charts.SingleDayBinsCorrected |
