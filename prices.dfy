/** The daily-bar fetcher of tools/fetch_prices_sina_http.py: each ticker of
    the universe is turned back into its native symbol, its K-line reply is
    reduced to the items that carry a `day`, each stamped with the session
    close, and the bars are written per ticker and in one aggregate. */
module Prices {
  import opened Text
  import opened Dedupe
  import Universe

  /** One element of the K-line JSON list: its fields, "" when absent (the
      csv writer prints a missing value as an empty cell). */
  datatype KlineItem = KlineItem(day: string, open: string, high: string, low: string, close: string, volume: string)

  /** One K-line request: it raised URLError or HTTPError, raised some other
      exception (a timeout, a body that does not decode or parse), or returned
      `text` together with what `json.loads` makes of it. */
  datatype KlineReply = UrlError | OtherError | Reply(text: string, items: seq<KlineItem>)

  /** One row of `sina_kline`'s result: dt, open, high, low, close, volume. */
  datatype Bar = Bar(dt: string, open: string, high: string, low: string, close: string, volume: string)

  /** A per-ticker file: the ticker and the bars written under
      `PerTickerHeader` (see `FileRecords`). */
  datatype TickerFile = TickerFile(ticker: string, bars: seq<Bar>)

  /** The run ends with the per-ticker files and the aggregate records, or an
      uncaught exception ends the process: the files written before it stay
      on disk, the aggregate is never written. `Finished(files, [])` means no
      `prices_all.csv` is written, since the aggregate is written only when
      it has rows. */
  datatype PricesRun = Crashed(files: seq<TickerFile>) | Finished(files: seq<TickerFile>, aggregate: seq<seq<string>>)

  const SessionClose := " 15:00:00"
  const PerTickerHeader := ["dt", "ticker", "open", "high", "low", "close", "volume"]
  const AggregateHeader := ["dt", "open", "high", "low", "close", "volume", "ticker"]

  /** The native symbol of a ticker: `sh` + code for `.SS`, `sz` + code for
      anything else, the code being the text before the first `.`. */
  function NativeSymbol(ticker: string): string {
    (if EndsWith(ticker, ".SS") then "sh" else "sz") + BeforeFirst(ticker, '.')
  }

  /** Reconstructing the native symbol undoes `normalize_symbol` for a
      non-empty code without a `.`. */
  lemma NativeSymbolInvertsNormalize(code: string, suffix: string)
    requires code != [] && '.' !in code && (suffix == ".SS" || suffix == ".SZ")
    ensures NativeSymbol(code + suffix) == (if suffix == ".SS" then "sh" else "sz") + code
    ensures Universe.NormalizeSymbol(NativeSymbol(code + suffix)) == Some(code + suffix)
  {
    BeforeFirstAt(code, suffix, '.');
    var sym := NativeSymbol(code + suffix);
    assert sym[..2] == (if suffix == ".SS" then "sh" else "sz") && sym[2..] == code;
  }

  /** And normalising then reconstructing gives back the symbol, with its
      exchange prefix in lower case. */
  lemma NormalizeThenNative(symbol: string)
    requires Universe.NormalizeSymbol(symbol).Some? && '.' !in symbol[2..]
    ensures NativeSymbol(Universe.NormalizeSymbol(symbol).value) == Lower(symbol[..2]) + symbol[2..]
  {
    var ex := Lower(symbol[..2]);
    var suffix := if ex == "sh" then ".SS" else ".SZ";
    BeforeFirstAt(symbol[2..], suffix, '.');
    assert ex == (if ex == "sh" then "sh" else "sz");
  }

  /** The code before a `.`-led suffix is what `split('.')[0]` returns. */
  lemma {:induction false} BeforeFirstAt(code: string, rest: string, c: char)
    requires c !in code && rest != [] && rest[0] == c
    ensures BeforeFirst(code + rest, c) == code
  {
    if code == [] {
      assert code + rest == rest;
    } else {
      assert (code + rest)[1..] == code[1..] + rest;
      BeforeFirstAt(code[1..], rest, c);
    }
  }

  /** The items `sina_kline` iterates over: the parsed list when the stripped
      body starts with `[`, none otherwise. */
  function KlineData(text: string, items: seq<KlineItem>): seq<KlineItem> {
    if StartsWith(Strip(text), "[") then items else []
  }

  function BarOf(it: KlineItem): Bar {
    Bar(it.day + SessionClose, it.open, it.high, it.low, it.close, it.volume)
  }

  /** The items that carry a day, stamped with the session close, in order. */
  function KeptBars(items: seq<KlineItem>): seq<Bar> {
    if items == [] then []
    else
      var last := items[|items| - 1];
      KeptBars(items[..|items| - 1]) + (if last.day != [] then [BarOf(last)] else [])
  }

  /** One more item of the reply. */
  lemma KeptBarsStep(items: seq<KlineItem>, i: nat)
    requires i < |items|
    ensures KeptBars(items[..i + 1]) == KeptBars(items[..i]) + (if items[i].day != [] then [BarOf(items[i])] else [])
  {
    assert items[..i + 1][..i] == items[..i];
  }

  /** `sina_kline` after the request: the loop that skips items without a
      day and stamps the others. */
  method SinaKline(text: string, items: seq<KlineItem>) returns (out: seq<Bar>)
    ensures out == KeptBars(KlineData(text, items))
  {
    if !StartsWith(Strip(text), "[") {
      return [];
    }
    out := KeepDated(items);
  }

  /** The `for` loop over the parsed items. */
  method KeepDated(data: seq<KlineItem>) returns (out: seq<Bar>)
    ensures out == KeptBars(data)
  {
    out := [];
    var i := 0;
    while i < |data|
      invariant 0 <= i <= |data|
      invariant out == KeptBars(data[..i])
    {
      KeptBarsStep(data, i);
      if data[i].day != [] {
        out := out + [BarOf(data[i])];
      }
      i := i + 1;
    }
    assert data[..|data|] == data;
  }

  /** Every kept bar comes from an item with a non-empty day, stamped with
      the session close. */
  lemma {:induction false} KeptBarsFromDatedItems(items: seq<KlineItem>)
    ensures forall b :: b in KeptBars(items) ==>
      exists it :: it in items && it.day != [] && b == BarOf(it)
  {
    if items != [] {
      var init, last := items[..|items| - 1], items[|items| - 1];
      KeptBarsFromDatedItems(init);
      forall b | b in KeptBars(items)
        ensures exists it :: it in items && it.day != [] && b == BarOf(it)
      {
        if b in KeptBars(init) {
          var it :| it in init && it.day != [] && b == BarOf(it);
          var k :| 0 <= k < |init| && init[k] == it;
          assert items[k] == it;
        } else {
          assert b == BarOf(last) && items[|items| - 1] == last;
        }
      }
    }
  }

  /** Every item with a day gives a bar. */
  lemma {:induction false} KeptBarsCoverDatedItems(items: seq<KlineItem>)
    ensures forall i :: 0 <= i < |items| && items[i].day != [] ==> BarOf(items[i]) in KeptBars(items)
  {
    if items != [] {
      var init := items[..|items| - 1];
      KeptBarsCoverDatedItems(init);
      forall i | 0 <= i < |items| && items[i].day != []
        ensures BarOf(items[i]) in KeptBars(items)
      {
        if i < |init| { assert items[i] == init[i]; }
      }
    }
  }

  /** The bars keep the response order. */
  lemma {:induction false} KeptBarsInOrder(items: seq<KlineItem>)
    ensures IsSubsequence(KeptBars(items), Stamped(items))
  {
    if items != [] {
      var init, last := items[..|items| - 1], items[|items| - 1];
      KeptBarsInOrder(init);
      var st := Stamped(items);
      assert st[..|st| - 1] == Stamped(init);
      var k, r := KeptBars(init), KeptBars(items);
      if last.day != [] {
        assert r == k + [BarOf(last)];
        assert r[..|r| - 1] == k && r[|r| - 1] == st[|st| - 1];
      } else {
        assert r == k;
      }
    }
  }

  /** Every item of the reply, stamped. */
  function Stamped(items: seq<KlineItem>): (r: seq<Bar>)
    ensures |r| == |items| && forall i :: 0 <= i < |items| ==> r[i] == BarOf(items[i])
  {
    seq(|items|, i requires 0 <= i < |items| => BarOf(items[i]))
  }

  /** A body that does not start with `[` yields no bars. */
  lemma NonListBodyYieldsNothing(text: string, items: seq<KlineItem>)
    requires Strip(text) == [] || Strip(text)[0] != '['
    ensures KeptBars(KlineData(text, items)) == []
  {
  }

  /** A per-ticker row as `save_price_csv` writes it. */
  function PerTickerRecord(b: Bar, ticker: string): seq<string> {
    [b.dt, ticker, b.open, b.high, b.low, b.close, b.volume]
  }

  /** An aggregate row as `main` builds it. */
  function AggregateRecord(b: Bar, ticker: string): seq<string> {
    [b.dt, b.open, b.high, b.low, b.close, b.volume, ticker]
  }

  /** For each aggregate column, the per-ticker column of the same name. */
  const AggregateColumn: seq<nat> := [0, 2, 3, 4, 5, 6, 1]

  /** The two layouts hold the same value under the same column name. */
  lemma LayoutsAgreeByColumn(b: Bar, ticker: string)
    ensures forall j :: 0 <= j < 7 ==>
      AggregateColumn[j] < 7 &&
      AggregateHeader[j] == PerTickerHeader[AggregateColumn[j]] &&
      AggregateRecord(b, ticker)[j] == PerTickerRecord(b, ticker)[AggregateColumn[j]]
  {
  }

  /** The bars one ticker's request yields, or None when it raises an
      exception that `main` does not catch. A URL error yields no bars. */
  function TickerBars(reply: KlineReply): Option<seq<Bar>> {
    match reply
    case UrlError => Some([])
    case OtherError => None
    case Reply(text, items) => Some(KeptBars(KlineData(text, items)))
  }

  /** The records of a per-ticker file. */
  function FileRecords(f: TickerFile): (rs: seq<seq<string>>)
    ensures |rs| == |f.bars|
    ensures forall i :: 0 <= i < |f.bars| ==> rs[i] == PerTickerRecord(f.bars[i], f.ticker)
  {
    seq(|f.bars|, i requires 0 <= i < |f.bars| => PerTickerRecord(f.bars[i], f.ticker))
  }

  function AggregateRecords(bars: seq<Bar>, ticker: string): (rs: seq<seq<string>>)
    ensures |rs| == |bars|
    ensures forall i :: 0 <= i < |bars| ==> rs[i] == AggregateRecord(bars[i], ticker)
  {
    seq(|bars|, i requires 0 <= i < |bars| => AggregateRecord(bars[i], ticker))
  }

  /** One more ticker: a crash ends the run with the files written so far,
      no bars change nothing, and bars add a file and the same bars to the
      aggregate. */
  function Extend(run: PricesRun, tic: string, reply: KlineReply): PricesRun {
    match run
    case Crashed(_) => run
    case Finished(files, agg) =>
      match TickerBars(reply)
      case None => Crashed(files)
      case Some(bars) =>
        if bars == [] then run
        else Finished(files + [TickerFile(tic, bars)], agg + AggregateRecords(bars, tic))
  }

  /** What `main` produces for the tickers, given the reply to each native
      symbol: a file for each ticker with bars, and the aggregate. */
  function PriceRun(tickers: seq<string>, fetch: string -> KlineReply): PricesRun {
    if tickers == [] then Finished([], [])
    else
      var tic := tickers[|tickers| - 1];
      Extend(PriceRun(tickers[..|tickers| - 1], fetch), tic, fetch(NativeSymbol(tic)))
  }

  /** Once a prefix of the tickers crashed, the whole run has, and no file
      is written after the crash. */
  lemma {:induction false} CrashSticks(tickers: seq<string>, n: nat, fetch: string -> KlineReply)
    requires n <= |tickers| && PriceRun(tickers[..n], fetch).Crashed?
    ensures PriceRun(tickers, fetch) == PriceRun(tickers[..n], fetch)
    decreases |tickers|
  {
    if n < |tickers| {
      var init := tickers[..|tickers| - 1];
      assert init[..n] == tickers[..n];
      CrashSticks(init, n, fetch);
    } else {
      assert tickers[..n] == tickers;
    }
  }

  /** An exception escaping the request of ticker `k` ends the run with the
      files of the tickers before it still written, and nothing else. */
  lemma {:induction false} CrashKeepsWrittenFiles(tickers: seq<string>, k: nat, fetch: string -> KlineReply)
    requires k < |tickers| && PriceRun(tickers[..k], fetch).Finished?
    requires TickerBars(fetch(NativeSymbol(tickers[k]))).None?
    ensures PriceRun(tickers, fetch) == Crashed(PriceRun(tickers[..k], fetch).files)
    decreases |tickers|
  {
    var init, last := tickers[..|tickers| - 1], tickers[|tickers| - 1];
    if k < |init| {
      assert init[..k] == tickers[..k] && init[k] == tickers[k];
      CrashKeepsWrittenFiles(init, k, fetch);
    } else {
      assert init == tickers[..k];
      ExtendCrash(PriceRun(init, fetch), last, fetch(NativeSymbol(last)));
    }
  }

  lemma ExtendCrash(run: PricesRun, tic: string, reply: KlineReply)
    requires run.Finished? && TickerBars(reply).None?
    ensures Extend(run, tic, reply) == Crashed(run.files)
  {
  }

  /** The inner loop of `main`: each bar appended in the aggregate layout. */
  method AppendAggregate(allRows: seq<seq<string>>, rows: seq<Bar>, tic: string) returns (out: seq<seq<string>>)
    ensures out == allRows + AggregateRecords(rows, tic)
  {
    out := allRows;
    var j := 0;
    while j < |rows|
      invariant 0 <= j <= |rows|
      invariant out == allRows + AggregateRecords(rows[..j], tic)
    {
      assert AggregateRecords(rows[..j + 1], tic) == AggregateRecords(rows[..j], tic) + [AggregateRecord(rows[j], tic)];
      out := out + [AggregateRecord(rows[j], tic)];
      j := j + 1;
    }
    assert rows[..|rows|] == rows;
  }

  /** The `try` around `sina_kline` in `main`: a URL error is recorded as no
      bars, any other exception escapes. */
  method RequestBars(reply: KlineReply) returns (bars: Option<seq<Bar>>)
    ensures bars == TickerBars(reply)
  {
    match reply {
      case UrlError =>
        bars := Some([]);
      case OtherError =>
        bars := None;
      case Reply(text, items) =>
        var rows := SinaKline(text, items);
        bars := Some(rows);
    }
  }

  /** One more ticker of the loop. */
  lemma PriceRunStep(tickers: seq<string>, n: nat, fetch: string -> KlineReply)
    requires n < |tickers|
    ensures PriceRun(tickers[..n + 1], fetch) == Extend(PriceRun(tickers[..n], fetch), tickers[n], fetch(NativeSymbol(tickers[n])))
  {
    assert tickers[..n + 1] == tickers[..n] + [tickers[n]];
    PriceRunSnoc(tickers[..n], tickers[n], fetch);
  }

  /** `main`: one request per ticker, a failed request recorded as no bars,
      each non-empty result written to its file and appended to the aggregate. */
  method CollectPrices(tickers: seq<string>, fetch: string -> KlineReply) returns (res: PricesRun)
    ensures res == PriceRun(tickers, fetch)
  {
    var files: seq<TickerFile> := [];
    var allRows: seq<seq<string>> := [];
    var n := 0;
    while n < |tickers|
      invariant 0 <= n <= |tickers|
      invariant PriceRun(tickers[..n], fetch) == Finished(files, allRows)
    {
      var tic := tickers[n];
      PriceRunStep(tickers, n, fetch);
      var bars := RequestBars(fetch(NativeSymbol(tic)));
      if bars.None? {
        CrashSticks(tickers, n + 1, fetch);
        return Crashed(files);
      }
      var rows := bars.value;
      if rows != [] {
        files := files + [TickerFile(tic, rows)];
        allRows := AppendAggregate(allRows, rows, tic);
      }
      n := n + 1;
    }
    assert tickers[..|tickers|] == tickers;
    return Finished(files, allRows);
  }

  /** The per-ticker files, in order, each bar in the aggregate layout. */
  function FilesAsAggregate(files: seq<TickerFile>): seq<seq<string>> {
    if files == [] then []
    else
      var f := files[|files| - 1];
      FilesAsAggregate(files[..|files| - 1]) + AggregateRecords(f.bars, f.ticker)
  }

  function FileTickers(files: seq<TickerFile>): (r: seq<string>)
    ensures |r| == |files| && forall i :: 0 <= i < |files| ==> r[i] == files[i].ticker
  {
    seq(|files|, i requires 0 <= i < |files| => files[i].ticker)
  }

  /** The aggregate is exactly the per-ticker files' bars, file after file. */
  lemma {:induction false} AggregateIsFilesInOrder(tickers: seq<string>, fetch: string -> KlineReply)
    requires PriceRun(tickers, fetch).Finished?
    ensures PriceRun(tickers, fetch).aggregate == FilesAsAggregate(PriceRun(tickers, fetch).files)
  {
    if tickers != [] {
      var init := tickers[..|tickers| - 1];
      AggregateIsFilesInOrder(init, fetch);
      var prev, run := PriceRun(init, fetch), PriceRun(tickers, fetch);
      if run.files != prev.files {
        assert run.files[..|prev.files|] == prev.files;
      }
    }
  }

  /** The files follow the order of the universe, one per ticker at most,
      whether the run finished or crashed. */
  lemma {:induction false} FilesFollowTickerOrder(tickers: seq<string>, fetch: string -> KlineReply)
    ensures IsSubsequence(FileTickers(PriceRun(tickers, fetch).files), tickers)
  {
    if tickers != [] {
      var init := tickers[..|tickers| - 1];
      FilesFollowTickerOrder(init, fetch);
      var prev, run := PriceRun(init, fetch), PriceRun(tickers, fetch);
      var before, names := FileTickers(prev.files), FileTickers(run.files);
      if run.files == prev.files {
        assert names == before;
      } else {
        assert run.files == prev.files + [TickerFile(tickers[|tickers| - 1], run.files[|run.files| - 1].bars)];
        assert names[..|names| - 1] == before;
        assert names[|names| - 1] == tickers[|tickers| - 1];
      }
    }
  }

  /** Each file, of a finished or a crashed run, holds exactly the non-empty
      bars its ticker's reply yields. */
  lemma {:induction false} FilesAreTickerBars(tickers: seq<string>, fetch: string -> KlineReply)
    ensures forall f :: f in PriceRun(tickers, fetch).files ==>
      f.bars != [] && TickerBars(fetch(NativeSymbol(f.ticker))) == Some(f.bars)
  {
    if tickers != [] {
      FilesAreTickerBars(tickers[..|tickers| - 1], fetch);
    }
  }

  /** One more ticker at the end of a run. */
  lemma PriceRunSnoc(tickers: seq<string>, tic: string, fetch: string -> KlineReply)
    ensures PriceRun(tickers + [tic], fetch) == Extend(PriceRun(tickers, fetch), tic, fetch(NativeSymbol(tic)))
  {
    assert (tickers + [tic])[..|tickers|] == tickers;
  }

  /** A ticker without bars leaves the run as it was. */
  lemma ExtendNothing(run: PricesRun, tic: string, reply: KlineReply)
    requires TickerBars(reply) == Some([])
    ensures Extend(run, tic, reply) == run
  {
  }

  /** Removing an element other than the last commutes with removing the last. */
  lemma DropInside<T>(s: seq<T>, k: nat)
    requires k + 1 < |s|
    ensures s[..k] + s[k + 1..] == (s[..|s| - 1][..k] + s[..|s| - 1][k + 1..]) + [s[|s| - 1]]
  {
    var init := s[..|s| - 1];
    assert s[k + 1..] == init[k + 1..] + [s[|s| - 1]];
    assert init[..k] == s[..k];
  }

  /** A ticker whose request fails with a URL error, or whose reply holds no
      dated item, leaves no trace: the run is the same without it. */
  lemma {:induction false} EmptyTickerLeavesNoTrace(tickers: seq<string>, k: nat, fetch: string -> KlineReply)
    requires k < |tickers| && TickerBars(fetch(NativeSymbol(tickers[k]))) == Some([])
    ensures PriceRun(tickers, fetch) == PriceRun(tickers[..k] + tickers[k + 1..], fetch)
    decreases |tickers|
  {
    var n := |tickers|;
    var init, last := tickers[..n - 1], tickers[n - 1];
    if k == n - 1 {
      assert tickers[..k] + tickers[k + 1..] == init;
      ExtendNothing(PriceRun(init, fetch), last, fetch(NativeSymbol(last)));
    } else {
      assert init[k] == tickers[k];
      EmptyTickerLeavesNoTrace(init, k, fetch);
      DropBeforeLast(tickers, k, fetch);
    }
  }

  /** The inductive step: dropping a ticker before the last one from the
      whole list is dropping it from the list without the last ticker. */
  lemma DropBeforeLast(tickers: seq<string>, k: nat, fetch: string -> KlineReply)
    requires k + 1 < |tickers|
    requires var init := tickers[..|tickers| - 1];
      PriceRun(init, fetch) == PriceRun(init[..k] + init[k + 1..], fetch)
    ensures PriceRun(tickers, fetch) == PriceRun(tickers[..k] + tickers[k + 1..], fetch)
  {
    var init, last := tickers[..|tickers| - 1], tickers[|tickers| - 1];
    DropInside(tickers, k);
    PriceRunSnoc(init[..k] + init[k + 1..], last, fetch);
  }

}
