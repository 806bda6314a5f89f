/** The rows `fetch_one_ticker` collects, `merge_dedupe` and the final sort
    by time of fetch_news_eastmoney_http.py. */
module NewsRows {
  import opened Text
  import opened Dedupe

  /** One output row: dt, ticker, title, source. */
  datatype NewsRow = NewsRow(dt: string, ticker: string, title: string, source: string)

  /** The key `merge_dedupe` builds, `(r[0], r[1])`: time and ticker. */
  function DtTicker(r: NewsRow): (string, string) {
    (r.dt, r.ticker)
  }

  /** The key its comment names and the rows call for: time and title. */
  function DtTitle(r: NewsRow): (string, string) {
    (r.dt, r.title)
  }

  /** `merge_dedupe` as written: keep-first on time and ticker. */
  function MergeDedupeAsWritten(rows: seq<NewsRow>): seq<NewsRow> {
    DedupeBy(rows, DtTicker)
  }

  /** Since every row of one call carries the same ticker, the written key
      leaves at most one headline per timestamp. */
  lemma AsWrittenOneRowPerTime(rows: seq<NewsRow>, ticker: string)
    requires forall r :: r in rows ==> r.ticker == ticker
    ensures forall i, j :: 0 <= i < j < |MergeDedupeAsWritten(rows)| ==>
      MergeDedupeAsWritten(rows)[i].dt != MergeDedupeAsWritten(rows)[j].dt
  {
    var out := MergeDedupeAsWritten(rows);
    DedupeDistinct(rows, DtTicker);
    DedupeSubsequence(rows, DtTicker);
    forall i | 0 <= i < |out| ensures out[i].ticker == ticker {
      SubsequenceMembers(out, rows, out[i]);
    }
  }

  /** Two different headlines published in the same minute: the written
      key drops the second, the (time, title) key keeps both. */
  lemma AsWrittenDropsHeadline()
    ensures var rows := [NewsRow("d", "t", "a", "s"), NewsRow("d", "t", "b", "s")];
      MergeDedupeAsWritten(rows) == rows[..1] && DedupeBy(rows, DtTitle) == rows
  {
    var rows := [NewsRow("d", "t", "a", "s"), NewsRow("d", "t", "b", "s")];
    assert rows[..1] == [rows[0]];
    assert DedupeBy(rows[..1], DtTicker) == [rows[0]];
    assert DedupeBy(rows[..1], DtTitle) == [rows[0]];
    assert DtTitle(rows[0]) != DtTitle(rows[1]) by {
      assert rows[0].title[0] != rows[1].title[0];
    }
  }

  /** The body of `merge_dedupe`'s loop: the row is appended, and its key
      recorded, when the key is new. */
  method KeepIfNew(out0: seq<NewsRow>, seen0: set<(string, string)>, r: NewsRow,
                   key: NewsRow -> (string, string), ghost prefix: seq<NewsRow>)
    returns (out: seq<NewsRow>, seen: set<(string, string)>)
    requires out0 == DedupeBy(prefix, key) && seen0 == KeySet(out0, key)
    ensures out == DedupeBy(prefix + [r], key) && seen == KeySet(out, key)
  {
    out, seen := out0, seen0;
    var k := key(r);
    DedupeAppend(prefix, r, key);
    if k !in seen {
      KeySetAppend(out, r, key);
      seen := seen + {k};
      out := out + [r];
    }
  }

  /** `merge_dedupe`: a `seen` set and an output list, each row appended
      when its key is new. The program runs it with `DtTicker`; `DtTitle`
      gives the deduplication its comment describes. */
  method MergeDedupe(rows: seq<NewsRow>, key: NewsRow -> (string, string)) returns (out: seq<NewsRow>)
    ensures out == DedupeBy(rows, key)
  {
    var seen: set<(string, string)> := {};
    out := [];
    var i := 0;
    while i < |rows|
      invariant 0 <= i <= |rows|
      invariant out == DedupeBy(rows[..i], key)
      invariant seen == KeySet(out, key)
    {
      TakeStep(rows, i);
      out, seen := KeepIfNew(out, seen, rows[i], key, rows[..i]);
      i := i + 1;
    }
    assert rows[..|rows|] == rows;
  }

  /** The deduplicated rows have pairwise distinct (time, title) keys, lose
      no key, keep the input order, keep the first row of each key, and a
      second pass changes nothing. */
  lemma MergeDedupeProperties(rows: seq<NewsRow>)
    ensures DistinctKeys(DedupeBy(rows, DtTitle), DtTitle)
    ensures KeySet(DedupeBy(rows, DtTitle), DtTitle) == KeySet(rows, DtTitle)
    ensures IsSubsequence(DedupeBy(rows, DtTitle), rows)
    ensures forall i :: 0 <= i < |rows| && FirstOccurrence(rows, i, DtTitle) ==> rows[i] in DedupeBy(rows, DtTitle)
    ensures DedupeBy(DedupeBy(rows, DtTitle), DtTitle) == DedupeBy(rows, DtTitle)
  {
    DedupeDistinct(rows, DtTitle);
    DedupeKeys(rows, DtTitle);
    DedupeSubsequence(rows, DtTitle);
    forall i | 0 <= i < |rows| && FirstOccurrence(rows, i, DtTitle) ensures rows[i] in DedupeBy(rows, DtTitle) {
      DedupeKeepsFirst(rows, DtTitle, i);
    }
    DedupeIdempotent(rows, DtTitle);
  }

  /** Non-decreasing by the `dt` string. */
  ghost predicate SortedByDt(s: seq<NewsRow>) {
    forall i, j :: 0 <= i < j < |s| ==> StrLe(s[i].dt, s[j].dt)
  }

  /** `x` placed after every row whose time is not later than its own. */
  function InsertByDt(s: seq<NewsRow>, x: NewsRow): (r: seq<NewsRow>)
    ensures |r| == |s| + 1
  {
    if s == [] || StrLe(s[|s| - 1].dt, x.dt) then s + [x]
    else InsertByDt(s[..|s| - 1], x) + [s[|s| - 1]]
  }

  /** `sorted(s, key=dt)`: a stable sort, by insertion. */
  function SortByDt(s: seq<NewsRow>): (r: seq<NewsRow>)
    ensures |r| == |s|
  {
    if s == [] then [] else InsertByDt(SortByDt(s[..|s| - 1]), s[|s| - 1])
  }

  /** The rows with time `d`, in order. */
  function WithDt(s: seq<NewsRow>, d: string): seq<NewsRow> {
    if s == [] then []
    else WithDt(s[..|s| - 1], d) + (if s[|s| - 1].dt == d then [s[|s| - 1]] else [])
  }

  lemma WithDtAppend(s: seq<NewsRow>, x: NewsRow, d: string)
    ensures WithDt(s + [x], d) == WithDt(s, d) + (if x.dt == d then [x] else [])
  {
    assert (s + [x])[..|s|] == s;
  }

  lemma {:induction false} InsertPermutes(s: seq<NewsRow>, x: NewsRow)
    ensures multiset(InsertByDt(s, x)) == multiset(s) + multiset{x}
  {
    if !(s == [] || StrLe(s[|s| - 1].dt, x.dt)) {
      var t := s[..|s| - 1];
      InsertPermutes(t, x);
      assert s == t + [s[|s| - 1]];
    }
  }

  lemma {:induction false} InsertKeepsSorted(s: seq<NewsRow>, x: NewsRow)
    requires SortedByDt(s)
    ensures SortedByDt(InsertByDt(s, x))
  {
    if s != [] {
      var t, y := s[..|s| - 1], s[|s| - 1];
      if StrLe(y.dt, x.dt) {
        forall i | 0 <= i < |s| ensures StrLe(s[i].dt, x.dt) {
          if i < |s| - 1 { StrLeTransitive(s[i].dt, y.dt, x.dt); }
        }
      } else {
        InsertKeepsSorted(t, x);
        var ins := InsertByDt(t, x);
        InsertPermutes(t, x);
        StrLeTotal(x.dt, y.dt);
        forall i | 0 <= i < |ins| ensures StrLe(ins[i].dt, y.dt) {
          assert ins[i] in multiset(ins);
          if ins[i] != x {
            assert ins[i] in multiset(t);
            var k :| 0 <= k < |t| && t[k] == ins[i];
            assert s[k] == t[k];
          }
        }
      }
    }
  }

  /** Inserting keeps the rows of every time in their order, `x` last. */
  lemma {:induction false} InsertKeepsTies(s: seq<NewsRow>, x: NewsRow, d: string)
    ensures WithDt(InsertByDt(s, x), d) == WithDt(s, d) + (if x.dt == d then [x] else [])
  {
    if s == [] || StrLe(s[|s| - 1].dt, x.dt) {
      WithDtAppend(s, x, d);
    } else {
      var t, y := s[..|s| - 1], s[|s| - 1];
      var ins := InsertByDt(t, x);
      assert InsertByDt(s, x) == ins + [y];
      InsertKeepsTies(t, x, d);
      WithDtAppend(ins, y, d);
      assert s == t + [y];
      WithDtAppend(t, y, d);
      StrLeReflexive(x.dt);
      var w := WithDt(t, d);
      if x.dt == d {
        assert y.dt != d;
        assert WithDt(ins + [y], d) == w + [x];
        assert WithDt(s, d) == w + [];
      } else {
        assert WithDt(ins + [y], d) == (w + []) + (if y.dt == d then [y] else []);
      }
    }
  }

  /** The sorted rows are in order of time and are a permutation of the
      input. */
  lemma {:induction false} SortByDtSortsAndPermutes(s: seq<NewsRow>)
    ensures SortedByDt(SortByDt(s))
    ensures multiset(SortByDt(s)) == multiset(s)
  {
    if s != [] {
      var t := s[..|s| - 1];
      SortByDtSortsAndPermutes(t);
      InsertKeepsSorted(SortByDt(t), s[|s| - 1]);
      InsertPermutes(SortByDt(t), s[|s| - 1]);
      assert s == t + [s[|s| - 1]];
    }
  }

  /** The sort is stable: rows with equal times keep their input order. */
  lemma {:induction false} SortByDtStable(s: seq<NewsRow>, d: string)
    ensures WithDt(SortByDt(s), d) == WithDt(s, d)
  {
    if s != [] {
      var t := s[..|s| - 1];
      SortByDtStable(t, d);
      InsertKeepsTies(SortByDt(t), s[|s| - 1], d);
    }
  }

  /** One insertion step: scan back past the rows with a later time. */
  method InsertRow(sorted: seq<NewsRow>, x: NewsRow) returns (r: seq<NewsRow>)
    ensures r == InsertByDt(sorted, x)
  {
    var j := |sorted|;
    assert sorted[..j] == sorted && sorted[j..] == [];
    while j > 0 && !StrLe(sorted[j - 1].dt, x.dt)
      invariant 0 <= j <= |sorted|
      invariant InsertByDt(sorted, x) == InsertByDt(sorted[..j], x) + sorted[j..]
    {
      assert sorted[..j][..j - 1] == sorted[..j - 1];
      assert sorted[j - 1..] == [sorted[j - 1]] + sorted[j..];
      j := j - 1;
    }
    r := sorted[..j] + [x] + sorted[j..];
  }

  /** `all_rows.sort(key=lambda x: x[0])`, each row inserted after the
      sorted rows whose time is not later than its own. */
  method SortRowsByDt(rows: seq<NewsRow>) returns (sorted: seq<NewsRow>)
    ensures sorted == SortByDt(rows)
  {
    sorted := [];
    var i := 0;
    while i < |rows|
      invariant 0 <= i <= |rows|
      invariant sorted == SortByDt(rows[..i])
    {
      assert rows[..i + 1][..i] == rows[..i];
      sorted := InsertRow(sorted, rows[i]);
      i := i + 1;
    }
    assert rows[..|rows|] == rows;
  }
}
