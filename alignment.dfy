/** The pipeline of tools/ingest_multi_tickers.py: load the news and price
    files, keep the headlines whose effective date has a bar, compute each
    ticker's forward returns, match each headline forward in time to the
    first bar at or after its publication plus a delay, and label it by the
    sign of that bar's forward return. */
module Alignment {
  import opened Text
  import opened Dedupe
  import opened Lists
  import opened Calendar

  /** A row of the concatenated news frame: dt, ticker, title. */
  datatype NewsItem = NewsItem(dt: Instant, ticker: string, title: string)

  /** A row of the concatenated price frame, as far as alignment reads it. */
  datatype PriceBar = PriceBar(dt: Instant, ticker: string, close: real)

  /** A float result of `pct_change`: exact reals for the finite values, and
      the infinities and NaN that division by a zero close gives. */
  datatype Ret = Finite(value: real) | PosInf | NegInf | NaN

  /** One output row: title, y, ret, ticker, t0. */
  datatype Label = Label(title: string, y: int, ret: Ret, ticker: string, t0: Instant)

  /** `b / a - 1` */
  function Change(a: real, b: real): Ret {
    if a != 0.0 then Finite(b / a - 1.0)
    else if b > 0.0 then PosInf
    else if b < 0.0 then NegInf
    else NaN
  }

  /** `ret > 0`, which is false for NaN. */
  predicate Positive(r: Ret) {
    match r
    case Finite(v) => v > 0.0
    case PosInf => true
    case NegInf => false
    case NaN => false
  }

  // ---------------------------------------------------------------------
  // The existence filter (lines 59-63)

  /** `have`: the distinct (ticker, date) pairs of the bars. */
  function Have(prices: seq<PriceBar>): set<(string, Instant)> {
    set b | b in prices :: (b.ticker, Midnight(DayOf(b.dt)))
  }

  /** Some bar of the headline's ticker falls on its effective date. */
  predicate HasBar(x: NewsItem, prices: seq<PriceBar>, cutoff: int) {
    (x.ticker, EffectiveDate(x.dt, cutoff)) in Have(prices)
  }

  /** The inner merge with `have`: the headlines with a bar, in order. */
  function WithBar(news: seq<NewsItem>, prices: seq<PriceBar>, cutoff: int): seq<NewsItem> {
    if news == [] then []
    else
      var x := news[|news| - 1];
      WithBar(news[..|news| - 1], prices, cutoff) + (if HasBar(x, prices, cutoff) then [x] else [])
  }

  /** A pair is in `have` exactly when a bar of that ticker lies on that day. */
  lemma HaveMembers(prices: seq<PriceBar>, ticker: string, day: int)
    ensures (ticker, Midnight(day)) in Have(prices) <==>
      exists b :: b in prices && b.ticker == ticker && DayOf(b.dt) == day
  {
    if (ticker, Midnight(day)) in Have(prices) {
      var b :| b in prices && (b.ticker, Midnight(DayOf(b.dt))) == (ticker, Midnight(day));
      MidnightParts(DayOf(b.dt));
      MidnightParts(day);
    }
  }

  /** The merge keeps each headline with a bar exactly as often as it
      occurs, drops the others, and keeps the order. */
  lemma {:induction false} WithBarExact(news: seq<NewsItem>, prices: seq<PriceBar>, cutoff: int)
    ensures forall x ::
      multiset(WithBar(news, prices, cutoff))[x] == (if HasBar(x, prices, cutoff) then multiset(news)[x] else 0)
    ensures IsSubsequence(WithBar(news, prices, cutoff), news)
  {
    if news != [] {
      var init, x := news[..|news| - 1], news[|news| - 1];
      WithBarExact(init, prices, cutoff);
      assert news == init + [x];
      var w := WithBar(init, prices, cutoff);
      if HasBar(x, prices, cutoff) {
        assert (w + [x])[..|w|] == w;
      } else {
        assert w + [] == w;
      }
    }
  }

  // ---------------------------------------------------------------------
  // Forward returns (lines 65-66)

  /** The bars of one ticker, in frame order. */
  function OfTicker(prices: seq<PriceBar>, ticker: string): seq<PriceBar> {
    if prices == [] then []
    else
      var b := prices[|prices| - 1];
      OfTicker(prices[..|prices| - 1], ticker) + (if b.ticker == ticker then [b] else [])
  }

  lemma {:induction false} OfTickerMembers(prices: seq<PriceBar>, ticker: string)
    ensures forall b :: b in OfTicker(prices, ticker) <==> b in prices && b.ticker == ticker
  {
    if prices != [] {
      OfTickerMembers(prices[..|prices| - 1], ticker);
      assert prices == prices[..|prices| - 1] + [prices[|prices| - 1]];
    }
  }

  ghost predicate SortedByTime(s: seq<PriceBar>) {
    forall i, j :: 0 <= i < j < |s| ==> s[i].dt <= s[j].dt
  }

  /** `x` placed after every bar not later than it. */
  function InsertBar(s: seq<PriceBar>, x: PriceBar): (r: seq<PriceBar>)
    ensures |r| == |s| + 1
  {
    if s == [] || s[|s| - 1].dt <= x.dt then s + [x]
    else InsertBar(s[..|s| - 1], x) + [s[|s| - 1]]
  }

  /** Bars in ascending time. */
  function SortBars(s: seq<PriceBar>): (r: seq<PriceBar>)
    ensures |r| == |s|
  {
    if s == [] then [] else InsertBar(SortBars(s[..|s| - 1]), s[|s| - 1])
  }

  lemma {:induction false} InsertBarPermutes(s: seq<PriceBar>, x: PriceBar)
    ensures multiset(InsertBar(s, x)) == multiset(s) + multiset{x}
  {
    if !(s == [] || s[|s| - 1].dt <= x.dt) {
      InsertBarPermutes(s[..|s| - 1], x);
      assert s == s[..|s| - 1] + [s[|s| - 1]];
    }
  }

  lemma {:induction false} InsertBarSorted(s: seq<PriceBar>, x: PriceBar)
    requires SortedByTime(s)
    ensures SortedByTime(InsertBar(s, x))
  {
    if !(s == [] || s[|s| - 1].dt <= x.dt) {
      var t, y := s[..|s| - 1], s[|s| - 1];
      InsertBarSorted(t, x);
      InsertBarPermutes(t, x);
      var ins := InsertBar(t, x);
      forall i | 0 <= i < |ins| ensures ins[i].dt <= y.dt {
        assert ins[i] in multiset(ins);
        if ins[i] != x {
          assert ins[i] in multiset(t);
          var k :| 0 <= k < |t| && t[k] == ins[i];
          assert s[k] == t[k];
        }
      }
    }
  }

  /** The sorted bars are in ascending time and are a permutation of the
      input. */
  lemma {:induction false} SortBarsCorrect(s: seq<PriceBar>)
    ensures SortedByTime(SortBars(s)) && multiset(SortBars(s)) == multiset(s)
  {
    if s != [] {
      var t := s[..|s| - 1];
      SortBarsCorrect(t);
      InsertBarSorted(SortBars(t), s[|s| - 1]);
      InsertBarPermutes(SortBars(t), s[|s| - 1]);
      assert s == t + [s[|s| - 1]];
    }
  }

  /** One ticker's bars in ascending time: its group of `px`. */
  function Series(prices: seq<PriceBar>, ticker: string): seq<PriceBar> {
    SortBars(OfTicker(prices, ticker))
  }

  /** The series holds exactly the ticker's bars, in ascending time. */
  lemma SeriesExact(prices: seq<PriceBar>, ticker: string)
    ensures SortedByTime(Series(prices, ticker))
    ensures forall b :: b in Series(prices, ticker) <==> b in prices && b.ticker == ticker
  {
    SortBarsCorrect(OfTicker(prices, ticker));
    OfTickerMembers(prices, ticker);
    forall b ensures b in Series(prices, ticker) <==> b in OfTicker(prices, ticker) {
      assert b in Series(prices, ticker) <==> b in multiset(Series(prices, ticker));
    }
  }

  /** `pct_change(periods=h).shift(-h)` at position `i` of a series: the
      change to the bar `h` places later (earlier for a negative `h`), NaN
      when there is no such bar. */
  function FwdRet(s: seq<PriceBar>, i: nat, h: int): Ret
    requires i < |s|
  {
    if 0 <= i + h < |s| then Change(s[i].close, s[i + h].close) else NaN
  }

  /** The return of a ticker's bar is the change from that bar to the bar
      of the same ticker `h` places away, not earlier for `h >= 0` and not
      later for `h < 0`; no other ticker's bar takes part. */
  lemma FwdRetWithinTicker(prices: seq<PriceBar>, ticker: string, i: nat, h: int)
    requires i < |Series(prices, ticker)|
    ensures var s := Series(prices, ticker);
      (0 <= i + h < |s| ==>
        FwdRet(s, i, h) == Change(s[i].close, s[i + h].close) &&
        s[i].ticker == ticker && s[i + h].ticker == ticker &&
        (h >= 0 ==> s[i].dt <= s[i + h].dt) && (h <= 0 ==> s[i + h].dt <= s[i].dt)) &&
      (!(0 <= i + h < |s|) ==> FwdRet(s, i, h) == NaN)
  {
    var s := Series(prices, ticker);
    SeriesExact(prices, ticker);
    if 0 <= i + h < |s| {
      assert s[i] in s && s[i + h] in s;
      if h > 0 { assert s[i].dt <= s[i + h].dt; }
      if h < 0 { assert s[i + h].dt <= s[i].dt; }
    }
  }

  /** Closes 10, 11, 9, 12 with horizon 1. */
  lemma FwdRetExample()
    ensures var s := [PriceBar(0, "t", 10.0), PriceBar(1, "t", 11.0), PriceBar(2, "t", 9.0), PriceBar(3, "t", 12.0)];
      FwdRet(s, 0, 1) == Finite(0.1) && FwdRet(s, 1, 1) == Finite(-2.0 / 11.0) &&
      FwdRet(s, 2, 1) == Finite(1.0 / 3.0) && FwdRet(s, 3, 1) == NaN
  {
  }

  // ---------------------------------------------------------------------
  // Forward matching and labels (lines 68-77)

  /** The first bar of a series at or after `t0`. */
  function FirstAtOrAfter(s: seq<PriceBar>, t0: Instant): (r: Option<nat>)
    ensures r.Some? ==> r.value < |s| && s[r.value].dt >= t0 && forall k :: 0 <= k < r.value ==> s[k].dt < t0
    ensures r.None? ==> forall k :: 0 <= k < |s| ==> s[k].dt < t0
  {
    if s == [] then None
    else
      var init := s[..|s| - 1];
      match FirstAtOrAfter(init, t0)
      case Some(j) => Some(j)
      case None => if s[|s| - 1].dt >= t0 then Some(|s| - 1) else None
  }

  /** In a series in ascending time, the first bar at or after `t0` is
      not later than any bar at or after `t0`. */
  lemma FirstIsEarliest(s: seq<PriceBar>, t0: Instant)
    requires SortedByTime(s) && FirstAtOrAfter(s, t0).Some?
    ensures forall c :: c in s && t0 <= c.dt ==> s[FirstAtOrAfter(s, t0).value].dt <= c.dt
  {
    var j := FirstAtOrAfter(s, t0).value;
    forall c | c in s && t0 <= c.dt ensures s[j].dt <= c.dt {
      var k :| 0 <= k < |s| && s[k] == c;
      if j < k {
        assert s[j].dt <= s[k].dt;
      }
    }
  }

  /** `t0 = dt + delay_minutes` */
  function T0(x: NewsItem, delay: int): Instant {
    x.dt + 60 * delay
  }

  /** The row `merge_asof(direction="forward")` and `dropna` leave for a
      headline, if any. */
  function AlignOne(x: NewsItem, prices: seq<PriceBar>, h: int, delay: int): Option<Label> {
    var s := Series(prices, x.ticker);
    var t0 := T0(x, delay);
    match FirstAtOrAfter(s, t0)
    case None => None
    case Some(j) =>
      var r := FwdRet(s, j, h);
      if r == NaN then None
      else Some(Label(x.title, if Positive(r) then 1 else 0, r, x.ticker, t0))
  }

  /** The matched bar is a bar of the headline's ticker at or after `t0`,
      and no bar of that ticker lies in [t0, matched time): nothing later
      than the first available bar is used. */
  lemma NoLookAhead(x: NewsItem, prices: seq<PriceBar>, h: int, delay: int)
    requires AlignOne(x, prices, h, delay).Some?
    ensures var s := Series(prices, x.ticker);
      var j := FirstAtOrAfter(s, T0(x, delay)).value;
      s[j] in prices && s[j].ticker == x.ticker && s[j].dt >= T0(x, delay) &&
      (forall c :: c in prices && c.ticker == x.ticker && T0(x, delay) <= c.dt ==> s[j].dt <= c.dt) &&
      AlignOne(x, prices, h, delay).value.ret == FwdRet(s, j, h)
  {
    var s := Series(prices, x.ticker);
    var t0 := T0(x, delay);
    var j := FirstAtOrAfter(s, t0).value;
    SeriesExact(prices, x.ticker);
    FirstIsEarliest(s, t0);
    assert s[j] in s;
    forall c | c in prices && c.ticker == x.ticker && t0 <= c.dt ensures s[j].dt <= c.dt {
      assert c in s;
    }
  }

  /** A headline with no bar of its ticker at or after `t0` gives no row. */
  lemma UnmatchedDropped(x: NewsItem, prices: seq<PriceBar>, h: int, delay: int)
    requires forall c :: c in prices && c.ticker == x.ticker ==> c.dt < T0(x, delay)
    ensures AlignOne(x, prices, h, delay) == None
  {
    var s := Series(prices, x.ticker);
    SeriesExact(prices, x.ticker);
    if FirstAtOrAfter(s, T0(x, delay)).Some? {
      assert false;
    }
  }

  /** A labelled row carries the headline's title and ticker and its `t0`,
      a defined return, and `y` is 1 exactly when the return is positive; a
      return of exactly 0 gives 0 and the row is kept. */
  lemma LabelShape(x: NewsItem, prices: seq<PriceBar>, h: int, delay: int)
    requires AlignOne(x, prices, h, delay).Some?
    ensures var l := AlignOne(x, prices, h, delay).value;
      l.title == x.title && l.ticker == x.ticker && l.t0 == x.dt + 60 * delay &&
      l.ret != NaN && (l.y == 1 <==> Positive(l.ret)) && (l.y == 0 <==> !Positive(l.ret)) &&
      (l.ret == Finite(0.0) ==> l.y == 0)
  {
  }

  // ---------------------------------------------------------------------
  // Loading (lines 25-42) and the whole run

  /** One CSV file: its stem, its header and its rows. A row holds the
      fields the pipeline reads; `ticker` is meaningful only when the header
      has that column. */
  datatype CsvFile<R> = CsvFile(stem: string, columns: set<string>, rows: seq<R>)

  datatype NewsRecord = NewsRecord(dt: Instant, ticker: string, title: string)
  datatype PriceRecord = PriceRecord(dt: Instant, ticker: string, close: real)

  /** The ticker of a file without a `ticker` column: the stem up to the
      first `_`. */
  function StemTicker(stem: string): (t: string)
    ensures t <= stem && '_' !in t
    ensures |t| < |stem| ==> stem[|t|] == '_'
  {
    BeforeFirst(stem, '_')
  }

  function NewsOf(f: CsvFile<NewsRecord>): (items: seq<NewsItem>)
    ensures |items| == |f.rows|
    ensures forall i :: 0 <= i < |f.rows| ==>
      items[i] == NewsItem(f.rows[i].dt, if "ticker" in f.columns then f.rows[i].ticker else StemTicker(f.stem), f.rows[i].title)
  {
    seq(|f.rows|, i requires 0 <= i < |f.rows| =>
      NewsItem(f.rows[i].dt, if "ticker" in f.columns then f.rows[i].ticker else StemTicker(f.stem), f.rows[i].title))
  }

  function PricesOf(f: CsvFile<PriceRecord>): (bars: seq<PriceBar>)
    ensures |bars| == |f.rows|
    ensures forall i :: 0 <= i < |f.rows| ==>
      bars[i] == PriceBar(f.rows[i].dt, if "ticker" in f.columns then f.rows[i].ticker else StemTicker(f.stem), f.rows[i].close)
  {
    seq(|f.rows|, i requires 0 <= i < |f.rows| =>
      PriceBar(f.rows[i].dt, if "ticker" in f.columns then f.rows[i].ticker else StemTicker(f.stem), f.rows[i].close))
  }

  /** A load either raises for the first file that misses a column, or
      gives the concatenated rows. */
  datatype Loaded<T> = MissingColumns(stem: string) | Rows(rows: seq<T>)

  const NewsNeed: set<string> := {"dt", "title"}
  const PriceNeed: set<string> := {"dt", "close"}

  /** `load_concat_csvs` over the files in name order: the first file
      without the needed columns raises, otherwise the rows of every file,
      converted by `conv`, are concatenated. */
  function LoadAll<R, T>(files: seq<CsvFile<R>>, need: set<string>, conv: CsvFile<R> -> seq<T>): Loaded<T> {
    if files == [] then Rows([])
    else
      var f := files[|files| - 1];
      match LoadAll(files[..|files| - 1], need, conv)
      case MissingColumns(stem) => MissingColumns(stem)
      case Rows(rows) => if need <= f.columns then Rows(rows + conv(f)) else MissingColumns(f.stem)
  }

  /** `load_concat_csvs(..., "news")` */
  function LoadNews(files: seq<CsvFile<NewsRecord>>): Loaded<NewsItem> {
    LoadAll(files, NewsNeed, NewsOf)
  }

  /** `load_concat_csvs(..., "prices")` */
  function LoadPrices(files: seq<CsvFile<PriceRecord>>): Loaded<PriceBar> {
    LoadAll(files, PriceNeed, PricesOf)
  }

  /** Loading fails exactly when some file misses a needed column, and then
      it names the first such file. */
  lemma {:induction false} LoadAllFails<R, T>(files: seq<CsvFile<R>>, need: set<string>, conv: CsvFile<R> -> seq<T>)
    ensures LoadAll(files, need, conv).MissingColumns? <==> exists i :: 0 <= i < |files| && !(need <= files[i].columns)
    ensures LoadAll(files, need, conv).MissingColumns? ==>
      exists i :: 0 <= i < |files| && !(need <= files[i].columns) && LoadAll(files, need, conv).stem == files[i].stem &&
        forall k :: 0 <= k < i ==> need <= files[k].columns
  {
    if files != [] {
      var init := files[..|files| - 1];
      LoadAllFails(init, need, conv);
      if LoadAll(init, need, conv).MissingColumns? {
        var i :| 0 <= i < |init| && !(need <= init[i].columns) && LoadAll(init, need, conv).stem == init[i].stem &&
          forall k :: 0 <= k < i ==> need <= init[k].columns;
        assert files[i] == init[i];
        forall k | 0 <= k < i ensures need <= files[k].columns {
          assert files[k] == init[k];
        }
      } else {
        forall i | 0 <= i < |init| ensures need <= files[i].columns {
          assert files[i] == init[i];
        }
      }
    }
  }

  /** Every loaded row is a converted row of a file that has the needed
      columns. */
  lemma {:induction false} LoadAllFrom<R, T>(files: seq<CsvFile<R>>, need: set<string>, conv: CsvFile<R> -> seq<T>)
    requires LoadAll(files, need, conv).Rows?
    ensures forall x :: x in LoadAll(files, need, conv).rows ==> exists f :: f in files && need <= f.columns && x in conv(f)
  {
    if files != [] {
      var init, f := files[..|files| - 1], files[|files| - 1];
      LoadAllFrom(init, need, conv);
      forall x | x in LoadAll(files, need, conv).rows ensures exists g :: g in files && need <= g.columns && x in conv(g) {
        if x in LoadAll(init, need, conv).rows {
          var g :| g in init && need <= g.columns && x in conv(g);
          assert g in files;
        } else {
          assert f in files;
        }
      }
    }
  }

  /** `x` is row `r` of file `f`, the ticker filled in from the stem when
      the file has no `ticker` column. */
  predicate RowOf(x: NewsItem, f: CsvFile<NewsRecord>, r: NewsRecord) {
    x.dt == r.dt && x.title == r.title &&
    x.ticker == (if "ticker" in f.columns then r.ticker else StemTicker(f.stem))
  }

  ghost predicate FromFile(x: NewsItem, f: CsvFile<NewsRecord>) {
    exists r :: r in f.rows && RowOf(x, f, r)
  }

  ghost predicate FromFiles(x: NewsItem, files: seq<CsvFile<NewsRecord>>) {
    exists f :: f in files && FromFile(x, f)
  }

  lemma NewsOfFromFile(f: CsvFile<NewsRecord>, x: NewsItem)
    requires x in NewsOf(f)
    ensures FromFile(x, f)
  {
    var i :| 0 <= i < |NewsOf(f)| && NewsOf(f)[i] == x;
    assert f.rows[i] in f.rows && RowOf(x, f, f.rows[i]);
  }

  /** Every loaded headline comes from a row of some file, with the ticker
      of its row or, when the file has no `ticker` column, of its stem. */
  lemma LoadNewsTickers(files: seq<CsvFile<NewsRecord>>)
    requires LoadNews(files).Rows?
    ensures forall x :: x in LoadNews(files).rows ==> FromFiles(x, files)
  {
    LoadAllFrom(files, NewsNeed, NewsOf);
    forall x | x in LoadNews(files).rows ensures FromFiles(x, files) {
      var f :| f in files && NewsNeed <= f.columns && x in NewsOf(f);
      NewsOfFromFile(f, x);
    }
  }

  /** How a run of `main` ends. */
  datatype Run = LoadError(stem: string) | Empty | BadCutoff | Written(labels: seq<Label>)

  /** The labelled rows of the loaded frames. */
  function Aligned(news: seq<NewsItem>, prices: seq<PriceBar>, cutoff: int, h: int, delay: int): seq<Label> {
    FilterMap(WithBar(news, prices, cutoff), (x: NewsItem) => AlignOne(x, prices, h, delay))
  }

  /** `main`: load, abort when either frame is empty, then filter, match and
      label. `hh` and `mm` are the parsed parts of `session_close`. */
  function Ingest(newsFiles: seq<CsvFile<NewsRecord>>, priceFiles: seq<CsvFile<PriceRecord>>,
                  hh: int, mm: int, h: int, delay: int): Run {
    match LoadNews(newsFiles)
    case MissingColumns(stem) => LoadError(stem)
    case Rows(news) =>
      match LoadPrices(priceFiles)
      case MissingColumns(stem) => LoadError(stem)
      case Rows(prices) =>
        if news == [] || prices == [] then Empty
        else
          match Cutoff(hh, mm)
          case None => BadCutoff
          case Some(c) => Written(Aligned(news, prices, c, h, delay))
  }

  /** The output rows are exactly the labels of the headlines that have a
      bar on their effective date and a defined forward return: every row
      comes from such a headline, and every such headline gives its row. */
  lemma AlignedExact(news: seq<NewsItem>, prices: seq<PriceBar>, c: int, h: int, delay: int)
    ensures forall l :: l in Aligned(news, prices, c, h, delay) ==>
      exists x :: x in news && HasBar(x, prices, c) && AlignOne(x, prices, h, delay) == Some(l)
    ensures forall x :: x in news && HasBar(x, prices, c) && AlignOne(x, prices, h, delay).Some? ==>
      AlignOne(x, prices, h, delay).value in Aligned(news, prices, c, h, delay)
    ensures forall x :: HasBar(x, prices, c) && AlignOne(x, prices, h, delay).Some? ==>
      multiset(Aligned(news, prices, c, h, delay))[AlignOne(x, prices, h, delay).value] == multiset(news)[x]
  {
    AlignedFrom(news, prices, c, h, delay);
    forall x | HasBar(x, prices, c) && AlignOne(x, prices, h, delay).Some?
      ensures multiset(Aligned(news, prices, c, h, delay))[AlignOne(x, prices, h, delay).value] == multiset(news)[x]
    {
      AlignedCount(news, prices, c, h, delay, x);
    }
  }

  /** Every row comes from a headline with a bar. */
  lemma AlignedFrom(news: seq<NewsItem>, prices: seq<PriceBar>, c: int, h: int, delay: int)
    ensures forall l :: l in Aligned(news, prices, c, h, delay) ==>
      exists x :: x in news && HasBar(x, prices, c) && AlignOne(x, prices, h, delay) == Some(l)
  {
    var kept := WithBar(news, prices, c);
    var f := (x: NewsItem) => AlignOne(x, prices, h, delay);
    WithBarExact(news, prices, c);
    FilterMapFrom(kept, f);
    forall l | l in FilterMap(kept, f)
      ensures exists x :: x in news && HasBar(x, prices, c) && AlignOne(x, prices, h, delay) == Some(l)
    {
      var x :| x in kept && f(x) == Some(l);
      assert multiset(kept)[x] > 0;
    }
  }

  /** A row determines its headline: the title and ticker are the
      headline's, and `t0` fixes its time. */
  lemma AlignOneInjective(x: NewsItem, y: NewsItem, prices: seq<PriceBar>, h: int, delay: int)
    requires AlignOne(x, prices, h, delay).Some? && AlignOne(y, prices, h, delay) == AlignOne(x, prices, h, delay)
    ensures y == x
  {
    LabelShape(x, prices, h, delay);
    LabelShape(y, prices, h, delay);
  }

  /** A headline with a bar and a row gives that row once per occurrence. */
  lemma AlignedCount(news: seq<NewsItem>, prices: seq<PriceBar>, c: int, h: int, delay: int, x: NewsItem)
    requires HasBar(x, prices, c) && AlignOne(x, prices, h, delay).Some?
    ensures multiset(Aligned(news, prices, c, h, delay))[AlignOne(x, prices, h, delay).value] == multiset(news)[x]
  {
    var f := (y: NewsItem) => AlignOne(y, prices, h, delay);
    forall y | f(y) == f(x) ensures y == x {
      AlignOneInjective(x, y, prices, h, delay);
    }
    FilterMapCount(WithBar(news, prices, c), f, x);
    WithBarExact(news, prices, c);
  }

  /** A run writes rows only when both frames are non-empty and the cutoff
      is a valid time, and then they are the aligned rows of the frames. */
  lemma IngestWritten(newsFiles: seq<CsvFile<NewsRecord>>, priceFiles: seq<CsvFile<PriceRecord>>,
                      hh: int, mm: int, h: int, delay: int)
    requires Ingest(newsFiles, priceFiles, hh, mm, h, delay).Written?
    ensures LoadNews(newsFiles).Rows? && LoadNews(newsFiles).rows != []
    ensures LoadPrices(priceFiles).Rows? && LoadPrices(priceFiles).rows != []
    ensures Cutoff(hh, mm).Some?
    ensures Ingest(newsFiles, priceFiles, hh, mm, h, delay).labels ==
      Aligned(LoadNews(newsFiles).rows, LoadPrices(priceFiles).rows, Cutoff(hh, mm).value, h, delay)
  {
  }

  /** An empty news or price frame stops the run before any alignment. */
  lemma EmptyAborts(newsFiles: seq<CsvFile<NewsRecord>>, priceFiles: seq<CsvFile<PriceRecord>>,
                    hh: int, mm: int, h: int, delay: int)
    requires LoadNews(newsFiles).Rows? && LoadPrices(priceFiles).Rows?
    requires LoadNews(newsFiles).rows == [] || LoadPrices(priceFiles).rows == []
    ensures Ingest(newsFiles, priceFiles, hh, mm, h, delay) == Empty
  {
  }
}
