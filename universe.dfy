/** The index-constituent pager of tools/fetch_universe_sina_hs300.py: pages of
    a listing are fetched in turn until one is empty, each native symbol
    (`sh600000`) is normalised to an exchange-qualified ticker (`600000.SS`),
    tickers are deduplicated keeping the first, and a fixed seed list stands
    in when nothing was collected. */
module Universe {
  import opened Text
  import opened Dedupe

  /** One element of a listing page: its `symbol` and `name` fields, "" when
      the field is absent or null. */
  datatype ListingItem = ListingItem(symbol: string, name: string)

  /** What `json.loads` made of a page's body. */
  datatype PageBody = NotJson | JsonList(items: seq<ListingItem>) | OtherJson

  /** One call of `get_page`: it raised URLError or HTTPError, raised some
      other exception, or returned a decoded body. */
  datatype Attempt = UrlError | OtherError | Answered(body: PageBody)

  /** The network's answers for one page: the first call and the retry that
      follows a URL error. */
  datatype PageReplies = PageReplies(first: Attempt, retry: Attempt)

  /** A row of universe.csv. */
  datatype Entry = Entry(ticker: string, name: string)

  /** The run ends by writing the universe, or an exception ends the process. */
  datatype Outcome = Crashed | Written(entries: seq<Entry>)

  /** What one page contributes: the process dies, enumeration stops, or the
      page's items are processed and the next page is fetched. */
  datatype PageStep = Crash | Stop | Continue(items: seq<ListingItem>)

  function TickerOf(e: Entry): string {
    e.ticker
  }

  /** `get_page`'s guard: anything but a JSON list reads as an empty page. */
  function GetPage(body: PageBody): (items: seq<ListingItem>)
    ensures body.JsonList? ==> items == body.items
    ensures !body.JsonList? ==> items == []
  {
    match body
    case JsonList(items) => items
    case _ => []
  }

  /** `normalize_symbol`: `sh` + code gives code + `.SS`, `sz` + code gives
      code + `.SZ` (prefix compared case-insensitively); anything shorter than
      three characters or with another prefix gives no ticker. */
  function NormalizeSymbol(symbol: string): (r: Option<string>)
    ensures |symbol| < 3 ==> r == None
    ensures r.Some? <==> |symbol| >= 3 && Lower(symbol[..2]) in {"sh", "sz"}
    ensures r.Some? && Lower(symbol[..2]) == "sh" ==> r.value == symbol[2..] + ".SS"
    ensures r.Some? && Lower(symbol[..2]) == "sz" ==> r.value == symbol[2..] + ".SZ"
  {
    if |symbol| < 3 then None
    else
      var ex := Lower(symbol[..2]);
      var code := symbol[2..];
      if ex == "sh" then Some(code + ".SS")
      else if ex == "sz" then Some(code + ".SZ")
      else None
  }

  /** The exchange prefix is compared without regard to case: a symbol of
      three or more characters normalises exactly when it starts with `s`
      or `S` followed by one of `h`, `H` (Shanghai, `.SS`) or `z`, `Z`
      (Shenzhen, `.SZ`), and the code after the prefix is kept as it is. */
  lemma PrefixCaseInsensitive(symbol: string)
    requires |symbol| >= 3
    ensures NormalizeSymbol(symbol).Some? <==> symbol[0] in "sS" && symbol[1] in "hHzZ"
    ensures NormalizeSymbol(symbol).Some? ==>
      NormalizeSymbol(symbol).value == symbol[2..] + (if symbol[1] in "hH" then ".SS" else ".SZ")
  {
    var ex := Lower(symbol[..2]);
    assert ex == [LowerChar(symbol[0]), LowerChar(symbol[1])];
  }

  /** A normalised ticker is never empty: it ends with a three-letter suffix
      after a non-empty code. */
  lemma NormalizedTickerShape(symbol: string)
    requires NormalizeSymbol(symbol).Some?
    ensures var t := NormalizeSymbol(symbol).value;
      |t| >= 4 && (EndsWith(t, ".SS") || EndsWith(t, ".SZ"))
  {
  }

  /** The loop body's treatment of one listing item: lower-case the symbol,
      strip the name, and fall back to the ticker when the name is blank. */
  function EntryOf(it: ListingItem): (r: Option<Entry>)
    ensures r.Some? ==> r.value.name != [] && r.value.ticker != []
    ensures r.Some? <==> NormalizeSymbol(Lower(it.symbol)).Some?
  {
    var name := Strip(it.name);
    match NormalizeSymbol(Lower(it.symbol))
    case None => None
    case Some(t) => Some(Entry(t, if name != [] then name else t))
  }

  /** The entries of the listed items, in listing order. */
  function Entries(items: seq<ListingItem>): (es: seq<Entry>)
  {
    if items == [] then []
    else
      var last := EntryOf(items[|items| - 1]);
      Entries(items[..|items| - 1]) + (if last.Some? then [last.value] else [])
  }

  /** What one page contributes, given the two answers the network gives for it. */
  function Step(r: PageReplies): PageStep {
    match r.first
    case OtherError => Crash
    case Answered(b) => if GetPage(b) == [] then Stop else Continue(GetPage(b))
    case UrlError =>
      match r.retry
      case Answered(b) => if GetPage(b) == [] then Stop else Continue(GetPage(b))
      case _ => Stop
  }

  function Prepend<T>(xs: seq<T>, rest: Option<seq<T>>): Option<seq<T>> {
    match rest
    case None => None
    case Some(ys) => Some(xs + ys)
  }

  /** The items of pages `p`, `p + 1`, ... up to the page that ends the
      enumeration; None when a page raises an exception that is not caught.
      Pages past the end of `pages` answer an empty list. */
  function Listing(pages: seq<PageReplies>, p: nat): Option<seq<ListingItem>>
    requires p >= 1
    decreases |pages| + 1 - p
  {
    if p > |pages| then Some([])
    else
      match Step(pages[p - 1])
      case Crash => None
      case Stop => Some([])
      case Continue(items) => Prepend(items, Listing(pages, p + 1))
  }

  function Seed(): seq<Entry> {
    [Entry("000001.SZ", "平安银行"), Entry("600036.SS", "招商银行"), Entry("600519.SS", "贵州茅台")]
  }

  /** The universe `main` writes for the given network answers. */
  function UniverseOf(pages: seq<PageReplies>): Outcome {
    match Listing(pages, 1)
    case None => Crashed
    case Some(items) =>
      var out := DedupeBy(Entries(items), TickerOf);
      Written(if out == [] then Seed() else out)
  }

  /** `main`: the pager loop with its `out` list and `seen` set, then the
      seed fallback. */
  method BuildUniverse(pages: seq<PageReplies>) returns (res: Outcome)
    ensures res == UniverseOf(pages)
  {
    var page := 1;
    var out: seq<Entry> := [];
    var seen: set<string> := {};
    ghost var acc: seq<ListingItem> := [];
    if Listing(pages, 1).Some? {
      assert [] + Listing(pages, 1).value == Listing(pages, 1).value;
    }
    while true
      invariant 1 <= page <= |pages| + 1
      invariant Listing(pages, 1) == Prepend(acc, Listing(pages, page))
      invariant out == DedupeBy(Entries(acc), TickerOf)
      invariant seen == KeySet(out, TickerOf)
      decreases |pages| + 1 - page
    {
      // Past the end of `pages` the listing answers an empty list.
      var step := if page > |pages| then Stop else Step(pages[page - 1]);
      ListingAdvance(pages, page, acc);
      if step.Crash? {
        return Crashed;
      } else if step.Stop? {
        break;
      }
      out, seen := AddPage(out, seen, step.items, acc);
      acc := acc + step.items;
      page := page + 1;
    }
    if out == [] {
      out := Seed();
    }
    return Written(out);
  }

  /** One turn of the pager loop, seen from the listing: a stop leaves the
      accumulated items as the whole listing, a crash ends it, and a
      non-empty page moves its items into the accumulator. */
  lemma ListingAdvance(pages: seq<PageReplies>, page: nat, acc: seq<ListingItem>)
    requires 1 <= page <= |pages| + 1
    requires Listing(pages, 1) == Prepend(acc, Listing(pages, page))
    ensures var step := if page > |pages| then Stop else Step(pages[page - 1]);
      && (step.Stop? ==> Listing(pages, 1) == Some(acc))
      && (step.Crash? ==> Listing(pages, 1) == None)
      && (step.Continue? ==> Listing(pages, 1) == Prepend(acc + step.items, Listing(pages, page + 1)))
  {
    assert acc + [] == acc;
    if page <= |pages| && Step(pages[page - 1]).Continue? && Listing(pages, page + 1).Some? {
      var arr, ys := Step(pages[page - 1]).items, Listing(pages, page + 1).value;
      assert acc + (arr + ys) == (acc + arr) + ys;
    }
  }

  /** Every entry has a ticker and a name. */
  lemma {:induction false} EntriesFilled(items: seq<ListingItem>)
    ensures forall e :: e in Entries(items) ==> e.name != [] && e.ticker != []
  {
    if items != [] {
      EntriesFilled(items[..|items| - 1]);
    }
  }

  lemma EntriesAppend(items: seq<ListingItem>, it: ListingItem)
    ensures Entries(items + [it]) ==
      Entries(items) + (if EntryOf(it).Some? then [EntryOf(it).value] else [])
  {
    assert (items + [it])[..|items|] == items;
  }

  /** What one more listed item does to the deduplicated entries `out`. */
  lemma AddItemStep(items: seq<ListingItem>, it: ListingItem, out: seq<Entry>, ticker: Option<string>, name: string)
    requires out == DedupeBy(Entries(items), TickerOf)
    requires ticker == NormalizeSymbol(Lower(it.symbol)) && name == Strip(it.name)
    ensures DedupeBy(Entries(items + [it]), TickerOf) ==
      if ticker.Some? && ticker.value !in KeySet(out, TickerOf)
      then out + [Entry(ticker.value, if name != [] then name else ticker.value)]
      else out
  {
    EntriesAppend(items, it);
    match EntryOf(it)
    case None =>
      assert Entries(items) + [] == Entries(items);
    case Some(e) =>
      DedupeAppend(Entries(items), e, TickerOf);
  }

  /** The body of the `for it in arr` loop: an item whose symbol normalises
      to a ticker not yet in `seen` is appended to `out`. */
  method AddItem(out0: seq<Entry>, seen0: set<string>, it: ListingItem, ghost items: seq<ListingItem>)
    returns (out: seq<Entry>, seen: set<string>)
    requires out0 == DedupeBy(Entries(items), TickerOf) && seen0 == KeySet(out0, TickerOf)
    ensures out == DedupeBy(Entries(items + [it]), TickerOf) && seen == KeySet(out, TickerOf)
  {
    out, seen := out0, seen0;
    var symbol := Lower(it.symbol);
    var name := Strip(it.name);
    var ticker := NormalizeSymbol(symbol);
    AddItemStep(items, it, out, ticker, name);
    if ticker.Some? && ticker.value !in seen {
      var e := Entry(ticker.value, if name != [] then name else ticker.value);
      KeySetAppend(out, e, TickerOf);
      out := out + [e];
      seen := seen + {ticker.value};
    }
  }

  /** The `for it in arr` loop of `main`, over one page's items. */
  method AddPage(out0: seq<Entry>, seen0: set<string>, arr: seq<ListingItem>, ghost acc: seq<ListingItem>)
    returns (out: seq<Entry>, seen: set<string>)
    requires out0 == DedupeBy(Entries(acc), TickerOf) && seen0 == KeySet(out0, TickerOf)
    ensures out == DedupeBy(Entries(acc + arr), TickerOf) && seen == KeySet(out, TickerOf)
  {
    out, seen := out0, seen0;
    var j := 0;
    WholePrefix(acc, arr);
    while j < |arr|
      invariant 0 <= j <= |arr|
      invariant out == DedupeBy(Entries(acc + arr[..j]), TickerOf)
      invariant seen == KeySet(out, TickerOf)
    {
      PrefixStep(acc, arr, j);
      out, seen := AddItem(out, seen, arr[j], acc + arr[..j]);
      j := j + 1;
    }
  }

  /** No ticker appears twice in the written universe. */
  lemma UniverseTickersDistinct(pages: seq<PageReplies>)
    requires UniverseOf(pages).Written?
    ensures DistinctKeys(UniverseOf(pages).entries, TickerOf)
  {
    var items := Listing(pages, 1).value;
    DedupeDistinct(Entries(items), TickerOf);
  }

  /** Every written row has a non-empty ticker and a non-empty name, and the
      universe is never empty. */
  lemma UniverseRowsFilled(pages: seq<PageReplies>)
    requires UniverseOf(pages).Written?
    ensures UniverseOf(pages).entries != []
    ensures forall e :: e in UniverseOf(pages).entries ==> e.ticker != [] && e.name != []
  {
    var items := Listing(pages, 1).value;
    var out := DedupeBy(Entries(items), TickerOf);
    DedupeSubsequence(Entries(items), TickerOf);
    EntriesFilled(items);
    forall e | e in out ensures e.ticker != [] && e.name != [] {
      SubsequenceMembers(out, Entries(items), e);
    }
  }

  /** Every ticker the listing yields is written, and the row written for it
      is the one built from the first listed item with that ticker. */
  lemma UniverseKeepsFirstOfEachTicker(pages: seq<PageReplies>, k: nat)
    requires Listing(pages, 1).Some?
    requires var es := Entries(Listing(pages, 1).value);
      k < |es| && FirstOccurrence(es, k, TickerOf)
    ensures Entries(Listing(pages, 1).value)[k] in UniverseOf(pages).entries
  {
    var es := Entries(Listing(pages, 1).value);
    DedupeKeepsFirst(es, TickerOf, k);
  }

  /** A page that answers an empty list, or fails twice, ends the
      enumeration: the pages after it are never looked at. */
  lemma {:induction false} EnumerationEndsAt(pages: seq<PageReplies>, k: nat, p: nat)
    requires 1 <= p <= k <= |pages| && Step(pages[k - 1]) == Stop
    ensures Listing(pages, p) == Listing(pages[..k - 1], p)
    decreases k - p
  {
    if p < k {
      assert pages[..k - 1][p - 1] == pages[p - 1];
      EnumerationEndsAt(pages, k, p + 1);
    }
  }

  /** The enumeration only depends on what each page contributes. */
  lemma {:induction false} ListingBySteps(pages: seq<PageReplies>, pages': seq<PageReplies>, p: nat)
    requires |pages| == |pages'| && p >= 1
    requires forall i :: 0 <= i < |pages| ==> Step(pages[i]) == Step(pages'[i])
    ensures Listing(pages, p) == Listing(pages', p)
    decreases |pages| + 1 - p
  {
    if p <= |pages| {
      ListingBySteps(pages, pages', p + 1);
    }
  }

  /** One URL error on a page followed by a successful retry leaves the
      universe exactly as if the first call had succeeded. */
  lemma SingleUrlErrorIsInvisible(pages: seq<PageReplies>, k: nat, b: PageBody, other: Attempt)
    requires k < |pages|
    ensures UniverseOf(pages[k := PageReplies(UrlError, Answered(b))]) ==
            UniverseOf(pages[k := PageReplies(Answered(b), other)])
  {
    ListingBySteps(pages[k := PageReplies(UrlError, Answered(b))], pages[k := PageReplies(Answered(b), other)], 1);
  }

  /** A page whose body is not a JSON list, on the first call or on the retry
      after a URL error, reads as an empty page: the enumeration ends there
      and the universe is built from the pages before it. */
  lemma NonListBodyEndsListing(pages: seq<PageReplies>, k: nat, b: PageBody)
    requires k < |pages| && !b.JsonList?
    requires pages[k].first == Answered(b) || (pages[k].first == UrlError && pages[k].retry == Answered(b))
    ensures UniverseOf(pages) == UniverseOf(pages[..k])
  {
    assert Step(pages[k]) == Stop;
    EnumerationEndsAt(pages, k + 1, 1);
  }

  /** A first call that raises anything other than a URL error ends the
      process, unless an earlier page already ended the enumeration. */
  lemma {:induction false} OtherErrorCrashes(pages: seq<PageReplies>, k: nat)
    requires k < |pages| && pages[k].first == OtherError
    requires forall i :: 0 <= i < k ==> Step(pages[i]).Continue?
    ensures UniverseOf(pages) == Crashed
  {
    CrashPropagates(pages, k, 1);
  }

  lemma {:induction false} CrashPropagates(pages: seq<PageReplies>, k: nat, p: nat)
    requires 1 <= p <= k + 1 && k < |pages| && pages[k].first == OtherError
    requires forall i :: 0 <= i < k ==> Step(pages[i]).Continue?
    ensures Listing(pages, p) == None
    decreases k + 1 - p
  {
    if p <= k {
      CrashPropagates(pages, k, p + 1);
    }
  }
}
