# fintext-data: a verified model of the scrapers' data shaping

fintext-data builds a labelled dataset of Chinese financial headlines in four steps:
- `tools/fetch_universe_sina_hs300.py` pages a constituent listing into `universe.csv`;
- `tools/fetch_prices_sina_http.py` fetches daily K-line bars for every ticker;
- `fetch_news_eastmoney_http.py` collects headlines per ticker from a search API, and falls back to an HTML news list;
- `tools/ingest_multi_tickers.py` aligns each headline with the price series and labels it with the sign of the forward return.

This project models the deterministic logic inside those scripts in Dafny and proves properties about it. The network, the clock and the file system are parameters: each request is answered by an oracle function.

Modules, one per source file plus shared helpers:

| file | module | models |
|---|---|---|
| text.dfy | `Text` | the Python `str` operations used (`strip`, `lower`, `split(c)[0]`, `endswith`, string ordering) |
| dedupe.dfy | `Dedupe` | keep-first deduplication by a key, shared by `merge_dedupe` and the universe pager |
| lists.dfy | `Lists` | the filter-and-map pattern of the per-page extraction loops |
| universe.dfy | `Universe` | `normalize_symbol`, `get_page`'s guard, and the pager / dedupe / retry / seed loop of `main` |
| prices.dfy | `Prices` | symbol reconstruction, `sina_kline`'s filtering and stamping, the two CSV layouts, and the aggregation loop of `main` |
| news_parse.dfy | `NewsParse` | the field selection and time normalisation of `eastmoney_search`, and the tag stripping of `sina_company_news_html` |
| news_rows.dfy | `NewsRows` | `merge_dedupe` and the final stable sort by `dt` |
| news_fetch.dfy | `NewsFetch` | `fetch_one_ticker`: keywords, the per-page retry loop, paging, the fallback source, dedupe and sort |
| calendar.dfy | `Calendar` | `effective_timestamp` with its weekend-only business-day rule |
| alignment.dfy | `Alignment` | `load_concat_csvs` and the filter / forward-return / forward-match / label pipeline of `main` |

Each loop of the three fetch scripts is written as a Dafny method. Each method is proved equal to a recursive specification function:
- `MergeDedupe` to `DedupeBy` on the key it is given;
- `FetchSource` to `SourceRows`;
- `BuildUniverse` to `UniverseOf`;
- `CollectPrices` to `PriceRun`;
- and so on for the others.

The properties the scripts promise are proved as lemmas about those functions. The ingest script is modelled as functions over sequences of records. Its dataframe pipeline has no element loops. Its one loop, over the CSV files in `load_concat_csvs` (`tools/ingest_multi_tickers.py:27`), is the recursive function `Alignment.LoadAll`.

Where the code and its documentation differ, the model follows the code:
- **Search-page break.** In `fetch_one_ticker`, the `break` on an empty search page (`fetch_news_eastmoney_http.py:126`, and `:149` for the fallback) leaves only the `while True` retry loop. Paging continues up to `max_pages`; the keyword does not stop there.
- **Price filter.** `sina_kline` drops items without a `day`. Items without a `close` are kept.
- **Backoff upper bound.** `random.uniform(0, sleep)` may return `sleep`, so the backoff interval is closed at the top.
- **Universe pager exceptions.** The first request of a page catches only `URLError` and `HTTPError`. Any other exception ends the process, so no `universe.csv` is written. A failed retry ends the enumeration and keeps what was accumulated.
- **Dedupe key.** `merge_dedupe` keys on `(r[0], r[1])`, which is (dt, ticker) and not the (dt, title) its comment names. `OneTicker` and `FetchOneTicker` use the written (dt, ticker) key. `OneTickerIntended` is the (dt, title) variant the comment describes. See "## Findings".

Timestamps are integer seconds since 1970-01-01, with the weekday derived from the day number. Closes and returns are exact `real`s, plus explicit infinities and NaN for a division by a zero close.

The whole-frame `.shift(-h)` at `tools/ingest_multi_tickers.py:66` comes after a per-ticker `pct_change`. It gives the same values as the per-ticker shift the model uses, for any integer `h` (the `--horizon` argument may be negative):
- The frame is sorted by (ticker, dt), so each ticker's rows are contiguous.
- When row `i + h` belongs to the same ticker as row `i`, both forms give close[i+h]/close[i] − 1.
- For `h > 0`, when row `i + h` belongs to a later ticker, it lies among that ticker's first `h` rows. There `pct_change` is NaN, which is what the per-ticker shift gives.
- For `h < 0`, `pct_change` is NaN on each ticker's last |h| rows. When row `i + h` belongs to an earlier ticker, it lies among those rows; when it lies before the frame, the shift fills NaN. Both agree with the per-ticker shift.

## Model

| member | source | states |
|---|---|---|
| Text.Strip | tools/fetch_universe_sina_hs300.py:73 | the result is a contiguous slice of the input with only whitespace before and after it; it has no whitespace at either end, and is empty iff the input is all whitespace |
| Text.TrimmedMiddle | tools/fetch_universe_sina_hs300.py:73 | stripping the front and then the back leaves a slice of the input framed by whitespace |
| Text.TrimStart | fetch_news_eastmoney_http.py:97 | `lstrip`: the result is a suffix of the input, and every dropped character is whitespace |
| Text.TrimEnd | fetch_news_eastmoney_http.py:97 | `rstrip`: the result is a prefix of the input, and every dropped character is whitespace |
| Text.LowerIdempotent | tools/fetch_universe_sina_hs300.py:72 | `lower()` leaves no ASCII capital and keeps every other character, so the second `lower()` inside `normalize_symbol` (line 43) changes nothing |
| Text.BeforeFirst | fetch_news_eastmoney_http.py:119 | `split(c)[0]` is the longest prefix without `c`, followed in the input by `c` when shorter |
| Text.StrLeTotal | fetch_news_eastmoney_http.py:164 | Python string order (the sort key) is total |
| Text.StrLeTransitive | fetch_news_eastmoney_http.py:164 | Python string order is transitive |
| Text.StrLeAntisymmetric | fetch_news_eastmoney_http.py:164 | Python string order is antisymmetric |
| Text.StrLeReflexive | fetch_news_eastmoney_http.py:164 | Python string order is reflexive |
| Dedupe.DedupeAppend | fetch_news_eastmoney_http.py:104-107 | one loop step: an element is appended exactly when its key is not yet among the output's keys |
| Dedupe.DedupeKeys | fetch_news_eastmoney_http.py:102-108 | the output's key set equals the input's: every input key appears, and no other |
| Dedupe.DedupeDistinct | fetch_news_eastmoney_http.py:102-108 | no two output elements share a key |
| Dedupe.DedupeSubsequence | fetch_news_eastmoney_http.py:102-108 | the output is a subsequence of the input (order preserved, nothing invented) |
| Dedupe.DedupeKeepsFirst | fetch_news_eastmoney_http.py:102-108 | the first element carrying each key is in the output |
| Dedupe.DedupeOfDistinct | fetch_news_eastmoney_http.py:102-108 | an input with distinct keys is returned unchanged |
| Dedupe.DedupeIdempotent | fetch_news_eastmoney_http.py:102-108 | deduplicating twice equals deduplicating once |
| Dedupe.SubsequenceMembers | fetch_news_eastmoney_http.py:102-108 | every element of a subsequence is an element of the sequence |
| Dedupe.SubsequenceConcat | fetch_news_eastmoney_http.py:97 | subsequences of two texts concatenate to a subsequence of the concatenated text |
| Dedupe.DistinctOnce | fetch_news_eastmoney_http.py:163-164 | under distinct keys no element occurs twice |
| Dedupe.DistinctKeysPermutation | fetch_news_eastmoney_http.py:163-164 | reordering (the sort after dedupe) keeps the keys distinct |
| Dedupe.KeySetPermutation | fetch_news_eastmoney_http.py:163-164 | reordering keeps the key set |
| Lists.FilterMapStep | fetch_news_eastmoney_http.py:73-80 | one loop step: an element that yields a row appends it, any other adds nothing |
| Lists.FilterMapFrom | fetch_news_eastmoney_http.py:73-80 | every output row comes from some input element |
| Lists.FilterMapCovers | fetch_news_eastmoney_http.py:73-80 | every input element that yields a row has that row in the output |
| Lists.FilterMapCount | tools/ingest_multi_tickers.py:68-74 | an element whose row no other element yields gives that row as often as the element occurs |
| Lists.FilterMapNone | fetch_news_eastmoney_http.py:73-80 | when no element yields a row, the output is empty |
| Universe.PrefixCaseInsensitive | tools/fetch_universe_sina_hs300.py:40-51 | a symbol of 3 or more characters normalises iff it starts with `s`/`S` then `h`/`H`/`z`/`Z`; the ticker is the rest of the symbol + `.SS` for `h`, `.SZ` for `z` |
| Universe.NonListBodyEndsListing | tools/fetch_universe_sina_hs300.py:34-38 | a page whose body is not JSON, or JSON that is not a list, on the first call or the retry, ends the enumeration: the universe is the one built from the earlier pages |
| Universe.NormalizedTickerShape | tools/fetch_universe_sina_hs300.py:44-49 | a normalised ticker has at least 4 characters and ends with `.SS` or `.SZ` |
| Universe.EntryOf | tools/fetch_universe_sina_hs300.py:72-76 | an item gives a row iff its lower-cased symbol normalises; the row's ticker and name are non-empty (a blank name falls back to the ticker) |
| Universe.BuildUniverse | tools/fetch_universe_sina_hs300.py:53-85 | the pager loop with `out`, `seen` and the seed fallback writes exactly `UniverseOf(pages)` |
| Universe.ListingAdvance | tools/fetch_universe_sina_hs300.py:58-79 | per loop turn: an empty page (or a failed retry) ends the listing with the accumulated items, an uncaught exception crashes, and a non-empty page moves its items into the accumulator |
| Universe.AddItemStep | tools/fetch_universe_sina_hs300.py:71-77 | one listed item appends its entry exactly when it has a ticker not yet among the written tickers |
| Universe.AddItem | tools/fetch_universe_sina_hs300.py:72-77 | the loop body keeps `out` equal to the keep-first dedupe of the entries so far, and `seen` equal to `out`'s tickers |
| Universe.AddPage | tools/fetch_universe_sina_hs300.py:71-77 | the `for it in arr` loop extends that invariant over a whole page |
| Universe.EntriesFilled | tools/fetch_universe_sina_hs300.py:73-76 | every entry has a non-empty ticker and name |
| Universe.UniverseTickersDistinct | tools/fetch_universe_sina_hs300.py:75-77 | the written tickers are pairwise distinct |
| Universe.UniverseRowsFilled | tools/fetch_universe_sina_hs300.py:71-85 | the written universe is never empty, and every row has a non-empty ticker and name |
| Universe.UniverseKeepsFirstOfEachTicker | tools/fetch_universe_sina_hs300.py:71-77 | the first entry of each ticker in page order is the one written |
| Universe.EnumerationEndsAt | tools/fetch_universe_sina_hs300.py:65-70 | a page that is empty, or whose retry fails, ends the enumeration: later pages are never looked at |
| Universe.ListingBySteps | tools/fetch_universe_sina_hs300.py:58-79 | the listing depends only on what each page contributes |
| Universe.SingleUrlErrorIsInvisible | tools/fetch_universe_sina_hs300.py:59-65 | one URL error followed by a successful retry gives the same universe as a first-try success |
| Universe.OtherErrorCrashes | tools/fetch_universe_sina_hs300.py:59-61 | a first request raising anything but URLError/HTTPError, on a page the loop reaches, ends the process |
| Universe.CrashPropagates | tools/fetch_universe_sina_hs300.py:58-61 | such a crash propagates from every earlier page of the loop |
| Prices.NativeSymbolInvertsNormalize | tools/fetch_prices_sina_http.py:61-63 | for a code without `.`, `sh`/`sz` + code is reconstructed from code + `.SS`/`.SZ`, and `normalize_symbol` of it gives the ticker back |
| Prices.NormalizeThenNative | tools/fetch_prices_sina_http.py:61-63 | normalising a symbol whose code has no `.` and then reconstructing gives the symbol with its prefix lower-cased |
| Prices.BeforeFirstAt | tools/fetch_prices_sina_http.py:61 | `split('.')[0]` of code + a `.`-led suffix is the code |
| Prices.SinaKline | tools/fetch_prices_sina_http.py:35-47 | returns exactly the stamped bars of the items with a `day`, in order; none when the stripped body does not start with `[` |
| Prices.KeepDated | tools/fetch_prices_sina_http.py:38-46 | the item loop keeps exactly the items with a `day`, stamped, in order |
| Prices.RequestBars | tools/fetch_prices_sina_http.py:64-67 | a URL or HTTP error becomes no bars, any other exception escapes, and a reply yields exactly its stamped bars |
| Prices.KeptBarsFromDatedItems | tools/fetch_prices_sina_http.py:38-46 | every kept bar is `BarOf` an item with a non-empty `day`; its `dt` is `day + " 15:00:00"` |
| Prices.KeptBarsCoverDatedItems | tools/fetch_prices_sina_http.py:38-46 | every item with a non-empty `day` gives its bar |
| Prices.KeptBarsInOrder | tools/fetch_prices_sina_http.py:38-46 | the kept bars are a subsequence of the stamped items (response order kept) |
| Prices.NonListBodyYieldsNothing | tools/fetch_prices_sina_http.py:35-36 | a body whose stripped text does not start with `[` yields no bars |
| Prices.LayoutsAgreeByColumn | tools/fetch_prices_sina_http.py:53-55 | for each column of the aggregate header (line 71's layout), the per-ticker header has the same name, with the same value |
| Prices.AppendAggregate | tools/fetch_prices_sina_http.py:70-71 | the inner loop appends exactly the ticker's aggregate records |
| Prices.CollectPrices | tools/fetch_prices_sina_http.py:57-81 | the ticker loop produces exactly `PriceRun(tickers, fetch)`: the per-ticker files written and, when no ticker crashes, the aggregate |
| Prices.CrashSticks | tools/fetch_prices_sina_http.py:64-67 | an exception other than URLError/HTTPError ends the whole run: later tickers change nothing |
| Prices.CrashKeepsWrittenFiles | tools/fetch_prices_sina_http.py:64-81 | a crash on ticker `k` keeps exactly the per-ticker files written for the tickers before it, and no aggregate is written |
| Prices.AggregateIsFilesInOrder | tools/fetch_prices_sina_http.py:60-71 | the aggregate is exactly the per-ticker files' bars, file after file |
| Prices.FilesFollowTickerOrder | tools/fetch_prices_sina_http.py:60-69 | whether the run finished or crashed, the files' tickers are a subsequence of the universe's tickers |
| Prices.FilesAreTickerBars | tools/fetch_prices_sina_http.py:64-69 | whether the run finished or crashed, each file holds exactly the non-empty bars its ticker's reply yields |
| Prices.EmptyTickerLeavesNoTrace | tools/fetch_prices_sina_http.py:64-75 | a ticker whose request raises a URL error, or whose reply has no dated item, leaves the run as if it were not listed |
| NewsParse.FirstNonEmpty | fetch_news_eastmoney_http.py:74-76 | `a or b or ... or d`: the value of the first filled key, the default when none is filled |
| NewsParse.DeleteChar | fetch_news_eastmoney_http.py:79 | `replace("Z", "")` leaves no `Z`, is a subsequence of the input, and keeps the count of every other character |
| NewsParse.DeleteAbsent | fetch_news_eastmoney_http.py:79 | deleting an absent character changes nothing |
| NewsParse.BeforeFirstAbsent | fetch_news_eastmoney_http.py:79 | `split(".")[0]` of a text without `.` is the text |
| NewsParse.NormalizeTimeClean | fetch_news_eastmoney_http.py:79 | a normalised time has no `T`, `Z` or `.`; it is a prefix of the input with `T` as space and `Z` removed; normalising again changes nothing |
| NewsParse.FirstNonEmptyFilled | fetch_news_eastmoney_http.py:74-76 | the selected value is non-empty iff some key is filled or the default is non-empty |
| NewsParse.SearchHitCases | fetch_news_eastmoney_http.py:74-80 | an item yields a hit iff a title key and a time key are filled; the title is `Title`'s value, else `title`'s; the source is never empty |
| NewsParse.EastmoneyRows | fetch_news_eastmoney_http.py:73-81 | the extraction loop returns exactly the items' hits in result order |
| NewsParse.SearchHitsFilled | fetch_news_eastmoney_http.py:74-80 | every search hit has a non-empty title and source, and a time without `T`, `Z` or `.` |
| NewsParse.CloseAfter | fetch_news_eastmoney_http.py:97 | the lazy `.*?>` ends on the first `>` of the text, with no `>` or line break before it; when it fails, every `>` has a line break before it |
| NewsParse.StripKeepsUnclosed | fetch_news_eastmoney_http.py:97 | a text with no `>` before its first line break keeps that property after `re.sub(r"<.*?>", "", ...)` |
| NewsParse.StripTagsLeavesNoTag | fetch_news_eastmoney_http.py:97 | no match of `<.*?>` is left after the substitution |
| NewsParse.StripTagsFixesTagFree | fetch_news_eastmoney_http.py:97 | a text without a tag is left unchanged |
| NewsParse.StripTagsIdempotent | fetch_news_eastmoney_http.py:97 | stripping tags twice equals stripping once |
| NewsParse.StripLeftmostTag | fetch_news_eastmoney_http.py:97 | the text before the first `<` is kept as it is, the leftmost tag is removed, and stripping resumes after its closing `>` |
| NewsParse.StripTagsSubsequence | fetch_news_eastmoney_http.py:97 | stripping only removes characters: the result is a subsequence of the input |
| NewsParse.SinaRows | fetch_news_eastmoney_http.py:95-100 | the fallback's loop returns exactly the matches' hits in order |
| NewsParse.SinaHitShape | fetch_news_eastmoney_http.py:96-99 | a fallback hit has source `sina`, the match's time, and a non-empty title trimmed at both ends |
| NewsParse.SinaHitsTitled | fetch_news_eastmoney_http.py:97-99 | every fallback hit is tagged `sina` with a non-empty trimmed title |
| NewsParse.SinaHitsTimed | fetch_news_eastmoney_http.py:96-99 | every fallback hit carries the time of one of the matches |
| NewsParse.SinaHitsKeepNonBlank | fetch_news_eastmoney_http.py:97-99 | a match whose text is not only tags and whitespace gives its hit; if every match is blank there are no hits |
| NewsRows.AsWrittenOneRowPerTime | fetch_news_eastmoney_http.py:102-108 | with the written (dt, ticker) key, and one ticker per call, at most one headline per timestamp survives |
| NewsRows.AsWrittenDropsHeadline | fetch_news_eastmoney_http.py:105 | two different headlines with the same time: the written key drops the second, the (dt, title) key keeps both |
| NewsRows.MergeDedupe | fetch_news_eastmoney_http.py:102-108 | the `seen`/`out` loop returns exactly the keep-first dedupe on the key it is given ((dt, ticker) as written) |
| NewsRows.KeepIfNew | fetch_news_eastmoney_http.py:104-107 | one row is appended exactly when its key is not yet seen, keeping `out` the keep-first dedupe of the rows so far and `seen` its key set |
| NewsRows.MergeDedupeProperties | fetch_news_eastmoney_http.py:102-108 | the output has distinct (dt, title) keys, loses no key, is a subsequence of the input, keeps each key's first row, and is idempotent |
| NewsRows.InsertPermutes | fetch_news_eastmoney_http.py:164 | one insertion adds the row to the multiset and changes nothing else |
| NewsRows.InsertKeepsSorted | fetch_news_eastmoney_http.py:164 | inserting into rows sorted by `dt` keeps them sorted |
| NewsRows.InsertKeepsTies | fetch_news_eastmoney_http.py:164 | inserting keeps each timestamp's rows in order, the new row last |
| NewsRows.SortByDtSortsAndPermutes | fetch_news_eastmoney_http.py:164 | the sort's output is non-decreasing by the `dt` string and a permutation of the input |
| NewsRows.SortByDtStable | fetch_news_eastmoney_http.py:164 | the sort is stable: rows with equal `dt` keep their input order |
| NewsRows.InsertRow | fetch_news_eastmoney_http.py:164 | the backward scan inserts after the last row not later than the new one |
| NewsRows.SortRowsByDt | fetch_news_eastmoney_http.py:164 | the in-place sort computes exactly the stable insertion sort |
| NewsFetch.TryPageBounded | fetch_news_eastmoney_http.py:122-138 | a page that ends without an escaped exception took at least 1 and at most `retries + 1` requests |
| NewsFetch.TryPageAllFail | fetch_news_eastmoney_http.py:131-135 | when every try raises a caught exception, the page is abandoned with no rows after exactly `max(retries, 0) + 1` tries |
| NewsFetch.TryPageAnswered | fetch_news_eastmoney_http.py:123-133 | a page answering on try `k`, within the retry budget and after caught failures only, ends with that answer after `k + 1` requests |
| NewsFetch.BackoffBounds | fetch_news_eastmoney_http.py:136 | the pause after the `k`-th failure lies in [2^(k-1)·sleep, 2^k·sleep] for jitter in [0, sleep] |
| NewsFetch.TagRows | fetch_news_eastmoney_http.py:127-128 | the page's rows are its hits, one for one in order, each tagged with the ticker |
| NewsFetch.AppendTagged | fetch_news_eastmoney_http.py:127-128 | the append loop adds exactly the tagged hits after the rows so far |
| NewsFetch.Extract | fetch_news_eastmoney_http.py:125 | the page's hits: the parsed hits of the answer, none when the page was abandoned |
| NewsFetch.FetchPage | fetch_news_eastmoney_http.py:122-138 | the `while True` retry loop computes exactly `TryPage` from zero failures |
| NewsFetch.TagAllOfAnswers | fetch_news_eastmoney_http.py:121-138 | the rows built page by page equal the rows of the pages' answers |
| NewsFetch.SourceRowsOfPages | fetch_news_eastmoney_http.py:121-138 | a source's rows are the rows built from its pages' hits |
| NewsFetch.FetchNextPage | fetch_news_eastmoney_http.py:122-138 | one page either crashes the source or appends its answer, and returns that answer's hits |
| NewsFetch.FetchSource | fetch_news_eastmoney_http.py:121-138 | the page loop appends exactly `SourceRows` over pages 1..max_pages, or reports the escaped exception |
| NewsFetch.FetchKeyword | fetch_news_eastmoney_http.py:120-138 | an empty keyword adds nothing; any other keyword appends exactly its search rows over pages 1..max_pages, or reports the escaped exception |
| NewsFetch.FetchEachKeyword | fetch_news_eastmoney_http.py:119-138 | the keyword loop over any keyword list yields exactly the concatenated rows of each keyword in order, stopping at the first escaped exception |
| NewsFetch.SourceCrashSticks | fetch_news_eastmoney_http.py:121-138 | once a page lets an exception escape, the source has crashed whatever follows |
| NewsFetch.KeywordStep | fetch_news_eastmoney_http.py:119-120 | one more keyword adds nothing when empty, and that source's rows otherwise |
| NewsFetch.FetchKeywords | fetch_news_eastmoney_http.py:119-138 | the keyword loop yields exactly the search rows for [code before `.`, stripped name] |
| NewsFetch.KeywordCrashSticks | fetch_news_eastmoney_http.py:119-138 | a crash on some keyword crashes the whole search |
| NewsFetch.FetchOneTicker | fetch_news_eastmoney_http.py:116-165 | `fetch_one_ticker` computes exactly `OneTicker`: the search rows, or the fallback's when they are empty, deduplicated on the written (dt, ticker) key and sorted |
| NewsFetch.RowsOfTicker | fetch_news_eastmoney_http.py:127-128 | every row of the pages' answers carries the ticker |
| NewsFetch.SourceRowsTicker | fetch_news_eastmoney_http.py:150-151 | every row a source adds carries the ticker |
| NewsFetch.KeywordRowsTicker | fetch_news_eastmoney_http.py:119-128 | every row the keywords add carries the ticker |
| NewsFetch.CollectedRowsTicker | fetch_news_eastmoney_http.py:119-161 | every collected row, from the search or the fallback, carries the ticker |
| NewsFetch.OneTickerShape | fetch_news_eastmoney_http.py:163-164 | the result is sorted by `dt`, has at most one row per `dt`, keeps every collected (dt, ticker) key, and holds only collected rows of the ticker |
| NewsFetch.OneTickerIntendedShape | fetch_news_eastmoney_http.py:105 | with the (dt, title) key the comment names: sorted by `dt`, distinct (dt, title) keys covering every collected one, only collected rows of the ticker |
| NewsFetch.TryPageAgree | fetch_news_eastmoney_http.py:123-138 | a page's outcome depends only on the answers to that page's tries |
| NewsFetch.SourceAnswersAgree | fetch_news_eastmoney_http.py:121-138 | a source's pages depend only on that source's answers |
| NewsFetch.KeywordRowsAgree | fetch_news_eastmoney_http.py:119-138 | the search rows depend only on the search answers |
| NewsFetch.FallbackUnusedAfterHits | fetch_news_eastmoney_http.py:141 | when the search yields rows, the fallback's answers cannot change the result |
| NewsFetch.FallbackDecidesAfterNoHits | fetch_news_eastmoney_http.py:141-161 | when the search yields none, the result depends only on the fallback's answers for symbol `sh`/`sz` + code |
| Calendar.Cutoff | tools/ingest_multi_tickers.py:21 | `dtime(hh, mm)` exists iff 0 ≤ hh < 24 and 0 ≤ mm < 60; it is a whole minute within the day |
| Calendar.NextBusinessDayIsFirstWeekdayAfter | tools/ingest_multi_tickers.py:23 | `+ BDay(1)` gives the first weekday after the day; Friday, Saturday and Sunday go to Monday |
| Calendar.EffectiveDateCases | tools/ingest_multi_tickers.py:20-23 | the effective date is a midnight; strictly after the cutoff it is the first weekday after the day, otherwise the same day |
| Calendar.CutoffExample | tools/ingest_multi_tickers.py:20-23 | with cutoff 15:00 on a Tuesday: 14:59 and 15:00:00 stay on the day, 15:00:01 moves to Wednesday |
| Calendar.WeekendBeforeCutoff | tools/ingest_multi_tickers.py:23 | a weekend headline up to the cutoff keeps its weekend date |
| Calendar.EffectiveDateNotMonotone | tools/ingest_multi_tickers.py:20-23 | Friday 16:00 maps to Monday but Saturday 10:00 to Saturday: the rule is not monotone |
| Alignment.HaveMembers | tools/ingest_multi_tickers.py:60-62 | (ticker, midnight of day) is in `have` iff some bar of that ticker lies on that day |
| Alignment.WithBarExact | tools/ingest_multi_tickers.py:62-63 | the inner merge keeps each headline with a bar as often as it occurs, drops the rest, and keeps the order |
| Alignment.OfTickerMembers | tools/ingest_multi_tickers.py:66 | a ticker's group holds exactly that ticker's bars |
| Alignment.InsertBarPermutes | tools/ingest_multi_tickers.py:65 | one insertion adds the bar to the multiset |
| Alignment.InsertBarSorted | tools/ingest_multi_tickers.py:65 | inserting keeps the bars in ascending time |
| Alignment.SortBarsCorrect | tools/ingest_multi_tickers.py:65 | the sorted bars are in ascending time and a permutation of the input |
| Alignment.SeriesExact | tools/ingest_multi_tickers.py:65-66 | a ticker's series is in ascending time and holds exactly that ticker's bars |
| Alignment.FwdRetWithinTicker | tools/ingest_multi_tickers.py:65-66 | for any integer horizon (line 49 accepts a negative one), the return of bar `i` is close[i+h]/close[i] − 1 over the same ticker's bar `h` places away (not earlier for h ≥ 0, not later for h ≤ 0), and NaN when that bar does not exist |
| Alignment.FwdRetExample | tools/ingest_multi_tickers.py:66 | closes 10, 11, 9, 12 with horizon 1 give 0.1, −2/11, 1/3, NaN |
| Alignment.FirstAtOrAfter | tools/ingest_multi_tickers.py:70-74 | the index found is at or after `t0` and every earlier bar is before `t0`; none means every bar is before `t0` |
| Alignment.FirstIsEarliest | tools/ingest_multi_tickers.py:70-74 | in an ascending series, the bar found is not later than any bar at or after `t0` |
| Alignment.NoLookAhead | tools/ingest_multi_tickers.py:69-74 | the matched bar is a bar of the headline's ticker at or after `t0 = dt + delay`, no bar of that ticker lies in [t0, matched time), and the label's return is that bar's forward return |
| Alignment.UnmatchedDropped | tools/ingest_multi_tickers.py:70-74 | a headline with no bar of its ticker at or after `t0` gives no row |
| Alignment.LabelShape | tools/ingest_multi_tickers.py:69-77 | a row has the headline's title and ticker, `t0 = dt + 60·delay` seconds, a defined return, and `y = 1` iff the return is > 0 (0 gives 0) |
| Alignment.StemTicker | tools/ingest_multi_tickers.py:32 | the ticker from the stem is its prefix before the first `_`: a prefix without `_`, followed by `_` when shorter than the stem |
| Alignment.LoadAllFails | tools/ingest_multi_tickers.py:27-42 | loading fails iff some file misses a needed column, and then it names the first such file |
| Alignment.LoadAllFrom | tools/ingest_multi_tickers.py:27-42 | every loaded row is a row of a file that has the needed columns |
| Alignment.NewsOfFromFile | tools/ingest_multi_tickers.py:32 | every row of a news file is one of its records, with the ticker filled in from the stem when the column is absent |
| Alignment.LoadNewsTickers | tools/ingest_multi_tickers.py:29-34 | every loaded headline comes from a record of some file, ticker included |
| Alignment.AlignedExact | tools/ingest_multi_tickers.py:59-77 | the output rows are exactly the labels of the headlines that have a bar on their effective date and a matched bar with a defined return, each as often as its headline occurs (several may share a bar) |
| Alignment.AlignedFrom | tools/ingest_multi_tickers.py:62-77 | every output row is the label of a headline with a bar on its effective date |
| Alignment.AlignOneInjective | tools/ingest_multi_tickers.py:68-77 | two headlines giving the same row are the same headline |
| Alignment.AlignedCount | tools/ingest_multi_tickers.py:62-77 | a headline with a bar and a row gives that row once per occurrence |
| Alignment.IngestWritten | tools/ingest_multi_tickers.py:54-77 | rows are written only when both frames load and are non-empty and the cutoff is valid, and they are then the aligned labels |
| Alignment.EmptyAborts | tools/ingest_multi_tickers.py:56-57 | an empty news frame or an empty price frame aborts the run before alignment |

## Left out

- Network transport: the user agents, TLS context, proxies and timeouts. Every request is an oracle argument: `Oracle` for the news sources, `string -> KlineReply` for K-lines, `PageReplies` for the universe pager. An oracle answers by page and try number and does not depend on time.
- `time.sleep` and the random jitter draw. `Backoff` takes the jitter as a parameter; sleeping is not modelled.
- File I/O: CSV reading and writing, `mkdir`, the resume check that skips an existing per-ticker file, and logging. A CSV file is modelled as a stem, a header set and typed records.
- JSON decoding and UTF-8 decoding are not modelled. Their outcomes are part of the oracle's reply: a payload, a list of items, or an exception.
- The regex engine behind the fallback's HTML pattern (`fetch_news_eastmoney_http.py:95`) is not modelled. Its matches are inputs; only the post-processing of each match is modelled.
- `html.unescape` is taken as the identity on titles.
- `pd.to_datetime` string parsing is not modelled. Times arrive as integer seconds, so sub-second times cannot be represented: a headline at 15:00:00.5 is after a 15:00 cutoff in pandas (`tools/ingest_multi_tickers.py:23`), but the model has no such time.
- `pct_change`'s handling of missing closes is not modelled. Every bar has a close.
- Alignment.AlignOne: the model uses the intended per-ticker forward match. pandas `merge_asof` requires its `on` keys globally sorted. The frames here are sorted by (ticker, t0), so with several tickers pandas can raise; that is not modelled.
- Alignment.AlignOne: with several bars of one ticker at the same time, the model picks the first in its ascending order. pandas' choice among tied bars is not modelled.
- Alignment.AlignedExact: the output order is not stated. The source writes the rows in (ticker, t0) order, because the left frame of `merge_asof` is `feats.sort_values(["ticker","t0"])` (`tools/ingest_multi_tickers.py:70-71`). The model's `Aligned` keeps the headlines' order, so the statement is about membership and multiplicity.
- Alignment.Change: closes and returns are exact reals, not IEEE doubles. Division by a zero close gives ±inf or NaN explicitly.
- Text.Strip: only space, tab, newline, vertical tab, form feed and carriage return are stripped. Python's `str.strip` also strips the ASCII separators \x1c–\x1f and Unicode whitespace.
- Universe.Listing: pages past the scripted replies answer an empty list, so the modelled pager always ends. The source's `while True` (`tools/fetch_universe_sina_hs300.py:58`) keeps paging for as long as non-empty pages come.
- NewsFetch.Oracle: an oracle may answer a search request with an HTML page or the fallback with a search page. `PageHits` parses a payload by its own kind, which the real endpoints never mix.
- Text.Lower: only ASCII letters are lower-cased.
- NewsFetch.BackoffBounds: the upper bound is inclusive, because `random.uniform(0, sleep)` can return `sleep`.
- The `size` argument of `eastmoney_search` and the URL building are not modelled. They only shape requests, which the oracle abstracts.
- `main` of `fetch_news_eastmoney_http.py` (`load_universe`, the skip of existing files, the `news_all.csv` aggregate) is not modelled. Only `fetch_one_ticker` and what it calls are in the model.
- Trading holidays: the source has none, so business days are Monday to Friday.

## Findings

| source | as written | input that shows it | evidently intended | confidence | as-written member | corrected member |
|---|---|---|---|---|---|---|
| fetch_news_eastmoney_http.py:105 | the key is `(r[0], r[1])`; rows are `[dt, ticker, title, src]`, so this is (dt, ticker) | two different headlines of one ticker published at the same time, rows `("d","t","a","s")` and `("d","t","b","s")`: the second is dropped | key on (dt, title), as the comment on the line says | high; not executed | NewsRows.AsWrittenDropsHeadline | NewsFetch.OneTickerIntendedShape |
