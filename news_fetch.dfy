/** `fetch_one_ticker` of fetch_news_eastmoney_http.py: the search API is
    paged for each keyword with a bounded retry per page, the HTML news list
    is paged the same way only when the search found nothing, and the rows
    are deduplicated and sorted by time. */
module NewsFetch {
  import opened Text
  import opened Dedupe
  import opened NewsParse
  import opened NewsRows
  import Prices

  /** Who is asked: the search API with a keyword, or the HTML news list of
      an exchange symbol. */
  datatype Source = Eastmoney(keyword: string) | Sina(symbol: string)

  /** What a successful request returns. */
  datatype Payload = SearchPage(items: seq<SearchItem>) | HtmlPage(matches: seq<HtmlMatch>)

  /** One request: it raised one of the exceptions the retry loop catches
      (URLError, HTTPError, SSLError, OSError), raised another one (a body
      that is not JSON, a JSON value without `get`), or answered. */
  datatype Response = Transient | Fatal | Answer(payload: Payload)

  /** The response to try number `k` (from 0) of page `p` of a source. */
  type Oracle = (Source, nat, nat) -> Response

  /** How one page ends: an exception escaped, or the page ended after
      `attempts` requests with the payload that answered, None when it was
      abandoned. */
  datatype PageResult = PageCrashed | PageDone(answer: Option<Payload>, attempts: nat)

  function PageHits(payload: Payload): seq<Hit> {
    match payload
    case SearchPage(items) => SearchHits(items)
    case HtmlPage(ms) => SinaHits(ms)
  }

  /** The hits of a page: none when it was abandoned. */
  function AnswerHits(answer: Option<Payload>): seq<Hit> {
    match answer
    case None => []
    case Some(payload) => PageHits(payload)
  }

  /** The `while True` retry loop of one page, after `failures` failed
      tries: an answer ends it, a caught exception is counted and the page
      is abandoned once the count exceeds `retries`. */
  function TryPage(fetch: Oracle, src: Source, p: nat, retries: int, failures: nat): PageResult
    decreases retries - failures
  {
    match fetch(src, p, failures)
    case Answer(payload) => PageDone(Some(payload), failures + 1)
    case Fatal => PageCrashed
    case Transient =>
      if failures + 1 > retries then PageDone(None, failures + 1)
      else TryPage(fetch, src, p, retries, failures + 1)
  }

  function Max(a: int, b: int): int {
    if a < b then b else a
  }

  /** A page takes at least one request and at most `retries + 1` (one when
      `retries` is not positive). */
  lemma {:induction false} TryPageBounded(fetch: Oracle, src: Source, p: nat, retries: int, failures: nat)
    requires TryPage(fetch, src, p, retries, failures).PageDone?
    ensures failures < TryPage(fetch, src, p, retries, failures).attempts <= Max(retries, failures) + 1
    decreases retries - failures
  {
    if fetch(src, p, failures).Transient? && failures + 1 <= retries {
      TryPageBounded(fetch, src, p, retries, failures + 1);
    }
  }

  /** A page whose every try fails is abandoned without an answer after exactly
      `retries + 1` requests. */
  lemma {:induction false} TryPageAllFail(fetch: Oracle, src: Source, p: nat, retries: int, failures: nat)
    requires forall k :: failures <= k ==> fetch(src, p, k) == Transient
    ensures TryPage(fetch, src, p, retries, failures) == PageDone(None, Max(retries, failures) + 1)
    decreases retries - failures
  {
    if failures + 1 <= retries {
      TryPageAllFail(fetch, src, p, retries, failures + 1);
    }
  }

  /** A page that answers on try `k`, after `k` caught failures and within
      the retry budget, yields that answer. */
  lemma {:induction false} TryPageAnswered(fetch: Oracle, src: Source, p: nat, retries: int, failures: nat, k: nat)
    requires failures <= k && k <= Max(retries, failures)
    requires forall j :: failures <= j < k ==> fetch(src, p, j) == Transient
    requires fetch(src, p, k).Answer?
    ensures TryPage(fetch, src, p, retries, failures) == PageDone(Some(fetch(src, p, k).payload), k + 1)
    decreases retries - failures
  {
    var r := fetch(src, p, failures);
    if failures < k {
      assert r == Transient;
      assert failures + 1 <= retries;
      TryPageAnswered(fetch, src, p, retries, failures + 1, k);
      assert TryPage(fetch, src, p, retries, failures) == TryPage(fetch, src, p, retries, failures + 1);
    } else {
      assert r == fetch(src, p, k);
      assert TryPage(fetch, src, p, retries, failures) == PageDone(Some(r.payload), failures + 1);
    }
  }

  /** `2**(k-1)` */
  function Pow2(k: nat): (r: nat)
    ensures r >= 1
  {
    if k == 0 then 1 else 2 * Pow2(k - 1)
  }

  /** The pause after the `k`-th failure, `jitter` being the draw of
      `random.uniform(0, sleep)`. */
  function Backoff(k: nat, sleep: real, jitter: real): real
    requires k >= 1
  {
    Pow2(k - 1) as real * (sleep + jitter)
  }

  /** The pause lies between `2**(k-1) * sleep` and `2**k * sleep`. */
  lemma BackoffBounds(k: nat, sleep: real, jitter: real)
    requires k >= 1 && 0.0 <= jitter <= sleep
    ensures Pow2(k - 1) as real * sleep <= Backoff(k, sleep, jitter) <= Pow2(k) as real * sleep
  {
    var w := Pow2(k - 1) as real;
    assert w * jitter <= w * sleep;
    assert Pow2(k) as real == 2.0 * w;
  }

  /** The page's hits as rows of the ticker. */
  function Tag(hits: seq<Hit>, ticker: string): seq<NewsRow> {
    if hits == [] then []
    else
      var h := hits[|hits| - 1];
      Tag(hits[..|hits| - 1], ticker) + [NewsRow(h.dt, ticker, h.title, h.source)]
  }

  /** Row `i` is hit `i` with the ticker. */
  lemma {:induction false} TagRows(hits: seq<Hit>, ticker: string)
    ensures |Tag(hits, ticker)| == |hits|
    ensures forall i :: 0 <= i < |hits| ==>
      Tag(hits, ticker)[i] == NewsRow(hits[i].dt, ticker, hits[i].title, hits[i].source)
  {
    if hits != [] {
      TagRows(hits[..|hits| - 1], ticker);
    }
  }

  /** `range(1, max_pages + 1)` has this many pages. */
  function PageCount(maxPages: int): nat {
    if maxPages < 0 then 0 else maxPages
  }

  /** The answers of pages 1..n of a source, None once an exception
      escaped. An abandoned page has no answer, and paging goes on. */
  function SourceAnswers(fetch: Oracle, src: Source, retries: int, n: nat): Option<seq<Option<Payload>>> {
    if n == 0 then Some([])
    else
      match SourceAnswers(fetch, src, retries, n - 1)
      case None => None
      case Some(answers) =>
        match TryPage(fetch, src, n, retries, 0)
        case PageCrashed => None
        case PageDone(answer, _) => Some(answers + [answer])
  }

  /** The rows of the pages' answers, in page order; an empty or abandoned
      page adds nothing. */
  function RowsOf(answers: seq<Option<Payload>>, ticker: string): seq<NewsRow> {
    if answers == [] then []
    else RowsOf(answers[..|answers| - 1], ticker) + Tag(AnswerHits(answers[|answers| - 1]), ticker)
  }

  /** The rows pages 1..n of a source add, or None once an exception
      escaped. */
  function SourceRows(fetch: Oracle, src: Source, ticker: string, retries: int, n: nat): Option<seq<NewsRow>> {
    match SourceAnswers(fetch, src, retries, n)
    case None => None
    case Some(answers) => Some(RowsOf(answers, ticker))
  }

  /** `rows` followed by what a source adds, unless it crashed. */
  function Then(rows: seq<NewsRow>, more: Option<seq<NewsRow>>): Option<seq<NewsRow>> {
    match more
    case None => None
    case Some(m) => Some(rows + m)
  }

  /** The keywords: the code before the first `.`, then the stripped name. */
  function KeywordList(ticker: string, name: string): seq<string> {
    [BeforeFirst(ticker, '.'), Strip(name)]
  }

  /** The rows the search API adds for the keywords, an empty keyword
      skipped. */
  function KeywordRows(fetch: Oracle, kws: seq<string>, ticker: string, maxPages: int, retries: int): Option<seq<NewsRow>> {
    if kws == [] then Some([])
    else
      var kw := kws[|kws| - 1];
      match KeywordRows(fetch, kws[..|kws| - 1], ticker, maxPages, retries)
      case None => None
      case Some(rows) =>
        if kw == [] then Some(rows)
        else Then(rows, SourceRows(fetch, Eastmoney(kw), ticker, retries, PageCount(maxPages)))
  }

  /** The rows of the search API for a ticker. */
  function PrimaryRows(fetch: Oracle, ticker: string, name: string, maxPages: int, retries: int): Option<seq<NewsRow>> {
    KeywordRows(fetch, KeywordList(ticker, name), ticker, maxPages, retries)
  }

  /** The rows collected before deduplication: the search API's, or the
      HTML list's when the search gave none. */
  function CollectedRows(fetch: Oracle, ticker: string, name: string, maxPages: int, retries: int): Option<seq<NewsRow>> {
    match PrimaryRows(fetch, ticker, name, maxPages, retries)
    case None => None
    case Some(rows) =>
      if rows != [] then Some(rows)
      else SourceRows(fetch, Sina(Prices.NativeSymbol(ticker)), ticker, retries, PageCount(maxPages))
  }

  /** `fetch_one_ticker`: the collected rows deduplicated by `merge_dedupe`
      as written, on (time, ticker), and sorted by time; None when an
      exception escaped. */
  function OneTicker(fetch: Oracle, ticker: string, name: string, maxPages: int, retries: int): Option<seq<NewsRow>> {
    match CollectedRows(fetch, ticker, name, maxPages, retries)
    case None => None
    case Some(rows) => Some(SortByDt(MergeDedupeAsWritten(rows)))
  }

  /** `fetch_one_ticker` with the deduplication its comment describes, on
      (time, title). */
  function OneTickerIntended(fetch: Oracle, ticker: string, name: string, maxPages: int, retries: int): Option<seq<NewsRow>> {
    match CollectedRows(fetch, ticker, name, maxPages, retries)
    case None => None
    case Some(rows) => Some(SortByDt(DedupeBy(rows, DtTitle)))
  }

  /** The loop over a page's hits: each appended as a row of the ticker. */
  method AppendTagged(rows: seq<NewsRow>, hits: seq<Hit>, ticker: string) returns (out: seq<NewsRow>)
    ensures out == rows + Tag(hits, ticker)
  {
    out := rows;
    var i := 0;
    while i < |hits|
      invariant 0 <= i <= |hits|
      invariant out == rows + Tag(hits[..i], ticker)
    {
      assert hits[..i + 1][..i] == hits[..i];
      out := out + [NewsRow(hits[i].dt, ticker, hits[i].title, hits[i].source)];
      i := i + 1;
    }
    assert hits[..|hits|] == hits;
  }

  /** The extraction loop over what a request returned. */
  method Extract(answer: Option<Payload>) returns (hits: seq<Hit>)
    ensures hits == AnswerHits(answer)
  {
    hits := [];
    if answer.Some? {
      match answer.value {
        case SearchPage(items) =>
          hits := EastmoneyRows(items);
        case HtmlPage(ms) =>
          hits := SinaRows(ms);
      }
    }
  }

  /** The retry loop of one page. */
  method FetchPage(fetch: Oracle, src: Source, p: nat, retries: int) returns (r: PageResult)
    ensures r == TryPage(fetch, src, p, retries, 0)
  {
    var attempt: nat := 0;
    while true
      invariant TryPage(fetch, src, p, retries, 0) == TryPage(fetch, src, p, retries, attempt)
      decreases retries - attempt
    {
      match fetch(src, p, attempt) {
        case Answer(payload) =>
          return PageDone(Some(payload), attempt + 1);
        case Fatal =>
          return PageCrashed;
        case Transient =>
          attempt := attempt + 1;
          if attempt > retries {
            return PageDone(None, attempt);
          }
      }
    }
  }

  /** The pages' hits as rows of the ticker, in page order. */
  function TagAll(pages: seq<seq<Hit>>, ticker: string): seq<NewsRow> {
    if pages == [] then []
    else TagAll(pages[..|pages| - 1], ticker) + Tag(pages[|pages| - 1], ticker)
  }

  /** `pages` holds the hits of each answer. */
  ghost predicate HitsOf(answers: seq<Option<Payload>>, pages: seq<seq<Hit>>) {
    |pages| == |answers| && forall k {:trigger AnswerHits(answers[k])} :: 0 <= k < |answers| ==> pages[k] == AnswerHits(answers[k])
  }

  lemma HitsOfAppend(answers: seq<Option<Payload>>, pages: seq<seq<Hit>>, a: Option<Payload>, hits: seq<Hit>)
    requires HitsOf(answers, pages) && hits == AnswerHits(a)
    ensures HitsOf(answers + [a], pages + [hits])
  {
    forall k | 0 <= k < |answers| + 1 ensures (pages + [hits])[k] == AnswerHits((answers + [a])[k]) {
      if k < |answers| {
        assert (answers + [a])[k] == answers[k];
        assert pages[k] == AnswerHits(answers[k]);
      }
    }
  }

  lemma AppendAssociates(a: seq<NewsRow>, b: seq<NewsRow>, c: seq<NewsRow>)
    ensures a + (b + c) == (a + b) + c
  {
  }

  lemma TagAllAppend(pages: seq<seq<Hit>>, hits: seq<Hit>, ticker: string)
    ensures TagAll(pages + [hits], ticker) == TagAll(pages, ticker) + Tag(hits, ticker)
  {
    assert (pages + [hits])[..|pages|] == pages;
  }

  lemma HitsOfPrefix(answers: seq<Option<Payload>>, pages: seq<seq<Hit>>, k: nat)
    requires HitsOf(answers, pages) && k <= |answers|
    ensures HitsOf(answers[..k], pages[..k])
  {
    forall j | 0 <= j < k ensures pages[..k][j] == AnswerHits(answers[..k][j]) {
      assert pages[j] == AnswerHits(answers[j]);
    }
  }

  lemma RowsOfLast(answers: seq<Option<Payload>>, ticker: string)
    requires answers != []
    ensures RowsOf(answers, ticker) ==
      RowsOf(answers[..|answers| - 1], ticker) + Tag(AnswerHits(answers[|answers| - 1]), ticker)
  {
  }

  lemma TagAllLast(pages: seq<seq<Hit>>, ticker: string)
    requires pages != []
    ensures TagAll(pages, ticker) == TagAll(pages[..|pages| - 1], ticker) + Tag(pages[|pages| - 1], ticker)
  {
  }

  lemma {:induction false} TagAllOfAnswers(answers: seq<Option<Payload>>, pages: seq<seq<Hit>>, ticker: string)
    requires HitsOf(answers, pages)
    ensures TagAll(pages, ticker) == RowsOf(answers, ticker)
  {
    if answers != [] {
      var k := |answers| - 1;
      assert pages[k] == AnswerHits(answers[k]);
      HitsOfPrefix(answers, pages, k);
      TagAllOfAnswers(answers[..k], pages[..k], ticker);
      RowsOfLast(answers, ticker);
      TagAllLast(pages, ticker);
    }
  }

  /** The rows of a source whose answers and their hits are known. */
  lemma SourceRowsOfPages(fetch: Oracle, src: Source, ticker: string, retries: int, n: nat,
                          answers: seq<Option<Payload>>, pages: seq<seq<Hit>>)
    requires SourceAnswers(fetch, src, retries, n) == Some(answers) && HitsOf(answers, pages)
    ensures SourceRows(fetch, src, ticker, retries, n) == Some(TagAll(pages, ticker))
  {
    TagAllOfAnswers(answers, pages, ticker);
  }

  /** One page of the page loop: its retry loop and the extraction of its
      hits. */
  method FetchNextPage(fetch: Oracle, src: Source, retries: int, n: nat, ghost answers: seq<Option<Payload>>)
    returns (crashed: bool, hits: seq<Hit>, ghost a: Option<Payload>)
    requires SourceAnswers(fetch, src, retries, n) == Some(answers)
    ensures crashed ==> SourceAnswers(fetch, src, retries, n + 1) == None
    ensures !crashed ==> SourceAnswers(fetch, src, retries, n + 1) == Some(answers + [a]) && hits == AnswerHits(a)
  {
    var r := FetchPage(fetch, src, n + 1, retries);
    if r.PageCrashed? {
      return true, [], None;
    }
    a := r.answer;
    hits := Extract(r.answer);
    crashed := false;
  }

  /** The page loop of one source, appending to `rows`. */
  method FetchSource(fetch: Oracle, src: Source, ticker: string, maxPages: int, retries: int, rows: seq<NewsRow>)
    returns (res: Option<seq<NewsRow>>)
    ensures res == Then(rows, SourceRows(fetch, src, ticker, retries, PageCount(maxPages)))
  {
    var out := rows;
    var pages := PageCount(maxPages);
    var n: nat := 0;
    ghost var answers: seq<Option<Payload>> := [];
    ghost var got: seq<seq<Hit>> := [];
    assert rows + [] == rows;
    while n < pages
      invariant n <= pages
      invariant SourceAnswers(fetch, src, retries, n) == Some(answers)
      invariant HitsOf(answers, got)
      invariant out == rows + TagAll(got, ticker)
    {
      var crashed, hits, a := FetchNextPage(fetch, src, retries, n, answers);
      if crashed {
        SourceCrashSticks(fetch, src, retries, n + 1, pages);
        return None;
      }
      HitsOfAppend(answers, got, a, hits);
      TagAllAppend(got, hits, ticker);
      AppendAssociates(rows, TagAll(got, ticker), Tag(hits, ticker));
      out := AppendTagged(out, hits, ticker);
      answers := answers + [a];
      got := got + [hits];
      n := n + 1;
    }
    SourceRowsOfPages(fetch, src, ticker, retries, n, answers, got);
    return Some(out);
  }

  /** Once a page crashed, the source has. */
  lemma {:induction false} SourceCrashSticks(fetch: Oracle, src: Source, retries: int, m: nat, n: nat)
    requires m <= n && SourceAnswers(fetch, src, retries, m).None?
    ensures SourceAnswers(fetch, src, retries, n).None?
    decreases n
  {
    if m < n {
      SourceCrashSticks(fetch, src, retries, m, n - 1);
    }
  }

  /** One more keyword. */
  lemma KeywordStep(fetch: Oracle, kws: seq<string>, i: nat, ticker: string, maxPages: int, retries: int)
    requires i < |kws| && KeywordRows(fetch, kws[..i], ticker, maxPages, retries).Some?
    ensures KeywordRows(fetch, kws[..i + 1], ticker, maxPages, retries) ==
      var rows := KeywordRows(fetch, kws[..i], ticker, maxPages, retries).value;
      if kws[i] == [] then Some(rows)
      else Then(rows, SourceRows(fetch, Eastmoney(kws[i]), ticker, retries, PageCount(maxPages)))
  {
    assert kws[..i + 1][..i] == kws[..i];
  }

  /** One keyword of the keyword loop: skipped when empty, paged otherwise. */
  method FetchKeyword(fetch: Oracle, kw: string, ticker: string, maxPages: int, retries: int, rows: seq<NewsRow>)
    returns (res: Option<seq<NewsRow>>)
    ensures res == if kw == [] then Some(rows)
      else Then(rows, SourceRows(fetch, Eastmoney(kw), ticker, retries, PageCount(maxPages)))
  {
    if kw == [] {
      return Some(rows);
    }
    res := FetchSource(fetch, Eastmoney(kw), ticker, maxPages, retries, rows);
  }

  /** The `for kw in ...` loop of `fetch_one_ticker`, over any keywords. */
  method FetchEachKeyword(fetch: Oracle, kws: seq<string>, ticker: string, maxPages: int, retries: int)
    returns (res: Option<seq<NewsRow>>)
    ensures res == KeywordRows(fetch, kws, ticker, maxPages, retries)
  {
    var allRows: seq<NewsRow> := [];
    var i := 0;
    while i < |kws|
      invariant 0 <= i <= |kws|
      invariant KeywordRows(fetch, kws[..i], ticker, maxPages, retries) == Some(allRows)
    {
      KeywordStep(fetch, kws, i, ticker, maxPages, retries);
      var r := FetchKeyword(fetch, kws[i], ticker, maxPages, retries, allRows);
      if r.None? {
        KeywordCrashSticks(fetch, kws, i + 1, ticker, maxPages, retries);
        return None;
      }
      allRows := r.value;
      i := i + 1;
    }
    assert kws[..|kws|] == kws;
    return Some(allRows);
  }

  /** The keyword loop of `fetch_one_ticker`: the code before the first `.`,
      then the stripped name. */
  method FetchKeywords(fetch: Oracle, ticker: string, name: string, maxPages: int, retries: int)
    returns (res: Option<seq<NewsRow>>)
    ensures res == PrimaryRows(fetch, ticker, name, maxPages, retries)
  {
    res := FetchEachKeyword(fetch, KeywordList(ticker, name), ticker, maxPages, retries);
  }

  /** `fetch_one_ticker`. */
  method FetchOneTicker(fetch: Oracle, ticker: string, name: string, maxPages: int, retries: int)
    returns (res: Option<seq<NewsRow>>)
    ensures res == OneTicker(fetch, ticker, name, maxPages, retries)
  {
    var primary := FetchKeywords(fetch, ticker, name, maxPages, retries);
    if primary.None? {
      return None;
    }
    var collected := primary.value;
    if collected == [] {
      var r := FetchSource(fetch, Sina(Prices.NativeSymbol(ticker)), ticker, maxPages, retries, []);
      if r.None? {
        return None;
      }
      assert [] + SourceRows(fetch, Sina(Prices.NativeSymbol(ticker)), ticker, retries, PageCount(maxPages)).value ==
        SourceRows(fetch, Sina(Prices.NativeSymbol(ticker)), ticker, retries, PageCount(maxPages)).value;
      collected := r.value;
    }
    assert CollectedRows(fetch, ticker, name, maxPages, retries) == Some(collected);
    var deduped := MergeDedupe(collected, DtTicker);
    var sorted := SortRowsByDt(deduped);
    return Some(sorted);
  }

  lemma {:induction false} KeywordCrashSticks(fetch: Oracle, kws: seq<string>, m: nat, ticker: string, maxPages: int, retries: int)
    requires m <= |kws| && KeywordRows(fetch, kws[..m], ticker, maxPages, retries).None?
    ensures KeywordRows(fetch, kws, ticker, maxPages, retries).None?
    decreases |kws|
  {
    if m < |kws| {
      var init := kws[..|kws| - 1];
      assert init[..m] == kws[..m];
      KeywordCrashSticks(fetch, init, m, ticker, maxPages, retries);
    } else {
      assert kws[..m] == kws;
    }
  }

  /** Every row of the pages' answers is tagged with the ticker. */
  lemma {:induction false} RowsOfTicker(answers: seq<Option<Payload>>, ticker: string)
    ensures forall r :: r in RowsOf(answers, ticker) ==> r.ticker == ticker
  {
    if answers != [] {
      RowsOfTicker(answers[..|answers| - 1], ticker);
      var hits := AnswerHits(answers[|answers| - 1]);
      TagRows(hits, ticker);
    }
  }

  /** Every row a source adds is tagged with the ticker. */
  lemma SourceRowsTicker(fetch: Oracle, src: Source, ticker: string, retries: int, n: nat)
    requires SourceRows(fetch, src, ticker, retries, n).Some?
    ensures forall r :: r in SourceRows(fetch, src, ticker, retries, n).value ==> r.ticker == ticker
  {
    RowsOfTicker(SourceAnswers(fetch, src, retries, n).value, ticker);
  }

  /** Every row the keywords add is tagged with the ticker. */
  lemma {:induction false} KeywordRowsTicker(fetch: Oracle, kws: seq<string>, ticker: string, maxPages: int, retries: int)
    requires KeywordRows(fetch, kws, ticker, maxPages, retries).Some?
    ensures forall r :: r in KeywordRows(fetch, kws, ticker, maxPages, retries).value ==> r.ticker == ticker
  {
    if kws != [] {
      var kw := kws[|kws| - 1];
      KeywordRowsTicker(fetch, kws[..|kws| - 1], ticker, maxPages, retries);
      if kw != [] {
        SourceRowsTicker(fetch, Eastmoney(kw), ticker, retries, PageCount(maxPages));
      }
    }
  }

  /** Every collected row carries the ticker. */
  lemma CollectedRowsTicker(fetch: Oracle, ticker: string, name: string, maxPages: int, retries: int)
    requires CollectedRows(fetch, ticker, name, maxPages, retries).Some?
    ensures forall r :: r in CollectedRows(fetch, ticker, name, maxPages, retries).value ==> r.ticker == ticker
  {
    var primary := PrimaryRows(fetch, ticker, name, maxPages, retries).value;
    KeywordRowsTicker(fetch, KeywordList(ticker, name), ticker, maxPages, retries);
    if primary == [] {
      SourceRowsTicker(fetch, Sina(Prices.NativeSymbol(ticker)), ticker, retries, PageCount(maxPages));
    }
  }

  /** The result of `fetch_one_ticker`: rows of the ticker only, in
      ascending time, at most one per time (the written key is (time,
      ticker) and the ticker is fixed), every collected time represented,
      and each a collected row. */
  lemma OneTickerShape(fetch: Oracle, ticker: string, name: string, maxPages: int, retries: int)
    requires OneTicker(fetch, ticker, name, maxPages, retries).Some?
    ensures var out := OneTicker(fetch, ticker, name, maxPages, retries).value;
      var rows := CollectedRows(fetch, ticker, name, maxPages, retries).value;
      SortedByDt(out) && (forall i, j :: 0 <= i < j < |out| ==> out[i].dt != out[j].dt) &&
      KeySet(out, DtTicker) == KeySet(rows, DtTicker) &&
      (forall r :: r in out ==> r in rows && r.ticker == ticker)
  {
    var rows := CollectedRows(fetch, ticker, name, maxPages, retries).value;
    CollectedRowsTicker(fetch, ticker, name, maxPages, retries);
    var deduped := MergeDedupeAsWritten(rows);
    var out := SortByDt(deduped);
    DedupeDistinct(rows, DtTicker);
    DedupeKeys(rows, DtTicker);
    DedupeSubsequence(rows, DtTicker);
    SortByDtSortsAndPermutes(deduped);
    DistinctKeysPermutation(deduped, out, DtTicker);
    KeySetPermutation(deduped, out, DtTicker);
    forall r | r in out ensures r in rows && r.ticker == ticker {
      assert r in multiset(deduped);
      SubsequenceMembers(deduped, rows, r);
    }
    forall i, j | 0 <= i < j < |out| ensures out[i].dt != out[j].dt {
      assert out[i] in out && out[j] in out;
      assert DtTicker(out[i]) != DtTicker(out[j]);
    }
  }

  /** With the intended (time, title) key: rows of the ticker only, in
      ascending time, one per (time, title), covering every (time, title)
      collected, and each a collected row. */
  lemma OneTickerIntendedShape(fetch: Oracle, ticker: string, name: string, maxPages: int, retries: int)
    requires OneTickerIntended(fetch, ticker, name, maxPages, retries).Some?
    ensures var out := OneTickerIntended(fetch, ticker, name, maxPages, retries).value;
      var rows := CollectedRows(fetch, ticker, name, maxPages, retries).value;
      SortedByDt(out) && DistinctKeys(out, DtTitle) && KeySet(out, DtTitle) == KeySet(rows, DtTitle) &&
      (forall r :: r in out ==> r in rows && r.ticker == ticker)
  {
    var rows := CollectedRows(fetch, ticker, name, maxPages, retries).value;
    CollectedRowsTicker(fetch, ticker, name, maxPages, retries);
    var deduped := DedupeBy(rows, DtTitle);
    var out := SortByDt(deduped);
    MergeDedupeProperties(rows);
    SortByDtSortsAndPermutes(deduped);
    DistinctKeysPermutation(deduped, out, DtTitle);
    KeySetPermutation(deduped, out, DtTitle);
    forall r | r in out ensures r in rows && r.ticker == ticker {
      assert r in multiset(deduped);
      SubsequenceMembers(deduped, rows, r);
    }
  }

  /** Two oracles that answer every search request alike. */
  ghost predicate SameSearch(f: Oracle, g: Oracle) {
    forall kw, p, k :: f(Eastmoney(kw), p, k) == g(Eastmoney(kw), p, k)
  }

  lemma {:induction false} TryPageAgree(f: Oracle, g: Oracle, src: Source, p: nat, retries: int, failures: nat)
    requires forall k :: f(src, p, k) == g(src, p, k)
    ensures TryPage(f, src, p, retries, failures) == TryPage(g, src, p, retries, failures)
    decreases retries - failures
  {
    assert f(src, p, failures) == g(src, p, failures);
    if f(src, p, failures).Transient? && failures + 1 <= retries {
      TryPageAgree(f, g, src, p, retries, failures + 1);
    }
  }

  lemma {:induction false} SourceAnswersAgree(f: Oracle, g: Oracle, src: Source, retries: int, n: nat)
    requires forall p, k :: f(src, p, k) == g(src, p, k)
    ensures SourceAnswers(f, src, retries, n) == SourceAnswers(g, src, retries, n)
  {
    if n > 0 {
      SourceAnswersAgree(f, g, src, retries, n - 1);
      TryPageAgree(f, g, src, n, retries, 0);
    }
  }

  lemma {:induction false} KeywordRowsAgree(f: Oracle, g: Oracle, kws: seq<string>, ticker: string, maxPages: int, retries: int)
    requires SameSearch(f, g)
    ensures KeywordRows(f, kws, ticker, maxPages, retries) == KeywordRows(g, kws, ticker, maxPages, retries)
  {
    if kws != [] {
      var kw := kws[|kws| - 1];
      KeywordRowsAgree(f, g, kws[..|kws| - 1], ticker, maxPages, retries);
      if kw != [] {
        forall p, k ensures f(Eastmoney(kw), p, k) == g(Eastmoney(kw), p, k) {
        }
        SourceAnswersAgree(f, g, Eastmoney(kw), retries, PageCount(maxPages));
      }
    }
  }

  /** The HTML list is a fallback only: when the search rows are not empty,
      the result does not depend on anything the HTML list would answer. */
  lemma FallbackUnusedAfterHits(f: Oracle, g: Oracle, ticker: string, name: string, maxPages: int, retries: int)
    requires SameSearch(f, g)
    requires PrimaryRows(f, ticker, name, maxPages, retries).Some? && PrimaryRows(f, ticker, name, maxPages, retries).value != []
    ensures OneTicker(f, ticker, name, maxPages, retries) == OneTicker(g, ticker, name, maxPages, retries)
  {
    KeywordRowsAgree(f, g, KeywordList(ticker, name), ticker, maxPages, retries);
  }

  /** When the search rows are empty the HTML list of the exchange symbol
      decides alone: two oracles that answer it alike give the same result,
      whatever the search would have said on other pages. */
  lemma FallbackDecidesAfterNoHits(f: Oracle, g: Oracle, ticker: string, name: string, maxPages: int, retries: int)
    requires PrimaryRows(f, ticker, name, maxPages, retries) == Some([])
    requires PrimaryRows(g, ticker, name, maxPages, retries) == Some([])
    requires forall p, k :: f(Sina(Prices.NativeSymbol(ticker)), p, k) == g(Sina(Prices.NativeSymbol(ticker)), p, k)
    ensures OneTicker(f, ticker, name, maxPages, retries) == OneTicker(g, ticker, name, maxPages, retries)
  {
    SourceAnswersAgree(f, g, Sina(Prices.NativeSymbol(ticker)), retries, PageCount(maxPages));
  }
}
