/** What fetch_news_eastmoney_http.py does with one page of each source: the
    first-hit field selection and time normalisation of `eastmoney_search`,
    and the tag stripping of `sina_company_news_html`. */
module NewsParse {
  import opened Text
  import opened Lists
  import opened Dedupe

  /** One element of the search API's result list, each field with its
      string value; a field that is absent or null is simply not in the map. */
  type SearchItem = map<string, string>

  /** One extracted headline: time, title and source. */
  datatype Hit = Hit(dt: string, title: string, source: string)

  /** One match of the HTML pattern: the bracketed time and the raw inner
      text of the link. */
  datatype HtmlMatch = HtmlMatch(stamp: string, raw: string)

  /** `it.get(k)` is truthy. */
  predicate Filled(item: SearchItem, k: string) {
    k in item && item[k] != []
  }

  /** `it.get(k1) or it.get(k2) or ... or dflt`: the value of the first key
      with a non-empty value, or the default when there is none. */
  function FirstNonEmpty(item: SearchItem, keys: seq<string>, dflt: string): (r: string)
    ensures (forall k :: k in keys ==> !Filled(item, k)) ==> r == dflt
    ensures forall i :: 0 <= i < |keys| && Filled(item, keys[i]) && (forall j :: 0 <= j < i ==> !Filled(item, keys[j])) ==>
      r == item[keys[i]]
  {
    if keys == [] then dflt
    else if Filled(item, keys[0]) then item[keys[0]]
    else
      var r := FirstNonEmpty(item, keys[1..], dflt);
      assert forall i :: 1 <= i < |keys| ==> keys[1..][i - 1] == keys[i];
      r
  }

  const TitleKeys := ["Title", "title"]
  const TimeKeys := ["ShowTime", "showtime", "PublishTime"]
  const SourceKeys := ["MediaName", "mediaName"]
  const DefaultSource := "eastmoney"

  /** `s.replace(a, b)` for single characters. */
  function ReplaceChar(s: string, a: char, b: char): (r: string)
    ensures |r| == |s|
    ensures forall i :: 0 <= i < |s| ==> r[i] == (if s[i] == a then b else s[i])
  {
    seq(|s|, i requires 0 <= i < |s| => if s[i] == a then b else s[i])
  }

  /** `s.replace(a, "")` for a single character: every `a` removed, every
      other character kept as often as it occurs, in its order. */
  function DeleteChar(s: string, a: char): (r: string)
    ensures a !in r
    ensures forall c :: c in r ==> c in s
    ensures forall c :: c != a ==> multiset(r)[c] == multiset(s)[c]
    ensures IsSubsequence(r, s)
  {
    if s == [] then []
    else
      var init, last := s[..|s| - 1], s[|s| - 1];
      var p := DeleteChar(init, a);
      assert s == init + [last];
      if last == a then p
      else
        assert (p + [last])[..|p|] == p;
        p + [last]
  }

  /** `time_str.replace("T", " ").replace("Z", "").split(".")[0]` */
  function NormalizeTime(s: string): string {
    BeforeFirst(DeleteChar(ReplaceChar(s, 'T', ' '), 'Z'), '.')
  }

  lemma {:induction false} DeleteAbsent(s: string, a: char)
    requires a !in s
    ensures DeleteChar(s, a) == s
  {
    if s != [] {
      DeleteAbsent(s[..|s| - 1], a);
      assert s == s[..|s| - 1] + [s[|s| - 1]];
    }
  }

  lemma {:induction false} BeforeFirstAbsent(s: string, c: char)
    requires c !in s
    ensures BeforeFirst(s, c) == s
  {
    if s != [] {
      BeforeFirstAbsent(s[1..], c);
      assert s == [s[0]] + s[1..];
    }
  }

  /** A normalised time has no `T`, `Z` or `.` left, is a prefix of the
      input with `T` read as a space and `Z` deleted, and normalising it
      again changes nothing. */
  lemma NormalizeTimeClean(s: string)
    ensures var r := NormalizeTime(s);
      && 'T' !in r && 'Z' !in r && '.' !in r
      && r <= DeleteChar(ReplaceChar(s, 'T', ' '), 'Z')
      && NormalizeTime(r) == r
  {
    var u := ReplaceChar(s, 'T', ' ');
    var d := DeleteChar(u, 'Z');
    var r := BeforeFirst(d, '.');
    assert 'T' !in u;
    assert 'T' !in d;
    assert forall c :: c in r ==> c in d by {
      forall c | c in r ensures c in d {
        var i :| 0 <= i < |r| && r[i] == c;
        assert d[i] == c;
      }
    }
    var u2 := ReplaceChar(r, 'T', ' ');
    assert u2 == r;
    DeleteAbsent(r, 'Z');
    BeforeFirstAbsent(r, '.');
  }

  /** The body of the `for it in items` loop of `eastmoney_search`: the
      first-hit fields, the item dropped when its title or time is empty. */
  function SearchHit(item: SearchItem): Option<Hit> {
    var title := FirstNonEmpty(item, TitleKeys, "");
    var time := FirstNonEmpty(item, TimeKeys, "");
    var src := FirstNonEmpty(item, SourceKeys, DefaultSource);
    if title == [] || time == [] then None else Some(Hit(NormalizeTime(time), title, src))
  }

  /** The first-hit value is non-empty iff some key is filled or the
      default is non-empty. */
  lemma {:induction false} FirstNonEmptyFilled(item: SearchItem, keys: seq<string>, dflt: string)
    ensures FirstNonEmpty(item, keys, dflt) != [] <==> (exists k :: k in keys && Filled(item, k)) || dflt != []
  {
    if keys != [] && !Filled(item, keys[0]) {
      FirstNonEmptyFilled(item, keys[1..], dflt);
      assert forall k :: k in keys && k != keys[0] ==> k in keys[1..];
    }
  }

  /** An item yields a hit iff one of its title keys and one of its time
      keys is filled; the hit's title is the value of `Title`, or of `title`
      when `Title` is empty, and its source is never empty. */
  lemma SearchHitCases(item: SearchItem)
    ensures SearchHit(item).Some? <==>
      (exists k :: k in TitleKeys && Filled(item, k)) && (exists k :: k in TimeKeys && Filled(item, k))
    ensures SearchHit(item).Some? ==>
      SearchHit(item).value.title == (if Filled(item, "Title") then item["Title"] else item["title"])
    ensures SearchHit(item).Some? ==> SearchHit(item).value.source != []
  {
    FirstNonEmptyFilled(item, TitleKeys, "");
    FirstNonEmptyFilled(item, TimeKeys, "");
    FirstNonEmptyFilled(item, SourceKeys, DefaultSource);
  }

  /** The hits of a search page, in result order. */
  function SearchHits(items: seq<SearchItem>): seq<Hit> {
    FilterMap(items, SearchHit)
  }

  /** The extraction loop of `eastmoney_search`. */
  method EastmoneyRows(items: seq<SearchItem>) returns (rows: seq<Hit>)
    ensures rows == SearchHits(items)
  {
    rows := [];
    var i := 0;
    while i < |items|
      invariant 0 <= i <= |items|
      invariant rows == FilterMap(items[..i], SearchHit)
    {
      FilterMapStep(items, SearchHit, i);
      var it := items[i];
      var title := FirstNonEmpty(it, TitleKeys, "");
      var time := FirstNonEmpty(it, TimeKeys, "");
      var src := FirstNonEmpty(it, SourceKeys, DefaultSource);
      assert SearchHit(it) == if title == [] || time == [] then None else Some(Hit(NormalizeTime(time), title, src));
      if title != [] && time != [] {
        rows := rows + [Hit(NormalizeTime(time), title, src)];
      }
      i := i + 1;
    }
    FilterMapWhole(items, SearchHit);
  }

  /** Every search hit has a non-empty title, source and a time free of
      `T`, `Z` and `.`. */
  lemma SearchHitsFilled(items: seq<SearchItem>)
    ensures forall h :: h in SearchHits(items) ==>
      h.title != [] && h.source != [] && 'T' !in h.dt && 'Z' !in h.dt && '.' !in h.dt
  {
    FilterMapFrom(items, SearchHit);
    forall h | h in SearchHits(items)
      ensures h.title != [] && h.source != [] && 'T' !in h.dt && 'Z' !in h.dt && '.' !in h.dt
    {
      var it :| it in items && SearchHit(it) == Some(h);
      SearchHitCases(it);
      NormalizeTimeClean(FirstNonEmpty(it, TimeKeys, ""));
    }
  }

  /** Where the lazy `.*?` of `<.*?>` ends when it starts on `t`: the index
      of the first `>`, unless a line break (which `.` does not match without
      `re.S`) or the end of the text comes first. */
  function CloseAfter(t: string): (r: Option<nat>)
    ensures r.Some? ==> r.value < |t| && t[r.value] == '>'
    ensures r.Some? ==> forall k :: 0 <= k < r.value ==> t[k] != '>' && t[k] != '\n'
    ensures r.None? ==> forall k :: 0 <= k < |t| && t[k] == '>' ==> '\n' in t[..k]
  {
    if t == [] || t[0] == '\n' then None
    else if t[0] == '>' then Some(0)
    else
      match CloseAfter(t[1..])
      case None => None
      case Some(j) => Some(j + 1)
  }

  /** `re.sub(r"<.*?>", "", s)`: each tag, leftmost first, removed. */
  function StripTags(s: string): string
    decreases |s|
  {
    if s == [] then []
    else if s[0] == '<' && CloseAfter(s[1..]).Some? then StripTags(s[CloseAfter(s[1..]).value + 2..])
    else [s[0]] + StripTags(s[1..])
  }

  /** No match of `<.*?>` is left in `s`. */
  predicate NoTag(s: string) {
    forall i :: 0 <= i < |s| && s[i] == '<' ==> CloseAfter(s[i + 1..]).None?
  }

  /** A text with no closing `>` before its first line break keeps that
      property when its tags are stripped. */
  lemma {:induction false} StripKeepsUnclosed(t: string)
    requires CloseAfter(t).None?
    ensures CloseAfter(StripTags(t)).None?
    decreases |t|
  {
    if t != [] && t[0] != '\n' {
      StripKeepsUnclosed(t[1..]);
    }
  }

  /** Stripping leaves no tag behind. */
  lemma {:induction false} StripTagsLeavesNoTag(s: string)
    ensures NoTag(StripTags(s))
    decreases |s|
  {
    if s != [] {
      if s[0] == '<' && CloseAfter(s[1..]).Some? {
        StripTagsLeavesNoTag(s[CloseAfter(s[1..]).value + 2..]);
      } else {
        var rest := StripTags(s[1..]);
        StripTagsLeavesNoTag(s[1..]);
        var r := [s[0]] + rest;
        forall i | 0 <= i < |r| && r[i] == '<' ensures CloseAfter(r[i + 1..]).None? {
          if i == 0 {
            StripKeepsUnclosed(s[1..]);
            assert r[1..] == rest;
          } else {
            assert r[i + 1..] == rest[i..];
          }
        }
      }
    }
  }

  /** A text without a tag is left as it is. */
  lemma {:induction false} StripTagsFixesTagFree(s: string)
    requires NoTag(s)
    ensures StripTags(s) == s
    decreases |s|
  {
    if s != [] {
      var t := s[1..];
      forall i | 0 <= i < |t| && t[i] == '<' ensures CloseAfter(t[i + 1..]).None? {
        assert s[i + 1] == '<' && s[i + 2..] == t[i + 1..];
      }
      StripTagsFixesTagFree(t);
      assert s == [s[0]] + t;
    }
  }

  /** The leftmost tag goes: text before the first `<` is kept as it is, and
      stripping resumes after the `>` that closes the tag. */
  lemma {:induction false} StripLeftmostTag(p: string, q: string, j: nat)
    requires '<' !in p && CloseAfter(q) == Some(j)
    ensures StripTags(p + ['<'] + q) == p + StripTags(q[j + 1..])
    decreases |p|
  {
    var s := p + ['<'] + q;
    if p == [] {
      assert s[1..] == q && s[j + 2..] == q[j + 1..];
    } else {
      assert s[0] == p[0] && s[1..] == p[1..] + ['<'] + q;
      StripLeftmostTag(p[1..], q, j);
      assert p == [p[0]] + p[1..];
    }
  }

  /** Stripping tags only removes characters: what is left is the text
      outside the tags, in order. */
  lemma {:induction false} StripTagsSubsequence(s: string)
    ensures IsSubsequence(StripTags(s), s)
    decreases |s|
  {
    if s != [] {
      if s[0] == '<' && CloseAfter(s[1..]).Some? {
        var k := CloseAfter(s[1..]).value + 2;
        StripTagsSubsequence(s[k..]);
        assert IsSubsequence([], s[..k]);
        SubsequenceConcat([], s[..k], StripTags(s[k..]), s[k..]);
        assert [] + StripTags(s[k..]) == StripTags(s) && s[..k] + s[k..] == s;
      } else {
        StripTagsSubsequence(s[1..]);
        assert IsSubsequence([s[0]], [s[0]]) by {
          assert [s[0]][..0] == [];
        }
        SubsequenceConcat([s[0]], [s[0]], StripTags(s[1..]), s[1..]);
        assert [s[0]] + s[1..] == s;
      }
    }
  }

  /** Stripping tags is idempotent. */
  lemma StripTagsIdempotent(s: string)
    ensures StripTags(StripTags(s)) == StripTags(s)
  {
    StripTagsLeavesNoTag(s);
    StripTagsFixesTagFree(StripTags(s));
  }

  /** The body of the `for m in ...` loop of `sina_company_news_html`: the
      link text without tags, trimmed, kept when non-empty. */
  function SinaHit(m: HtmlMatch): Option<Hit> {
    var title := Strip(StripTags(m.raw));
    if title != [] then Some(Hit(m.stamp, title, "sina")) else None
  }

  function SinaHits(ms: seq<HtmlMatch>): seq<Hit> {
    FilterMap(ms, SinaHit)
  }

  /** The extraction loop of `sina_company_news_html`. */
  method SinaRows(ms: seq<HtmlMatch>) returns (rows: seq<Hit>)
    ensures rows == SinaHits(ms)
  {
    rows := [];
    var i := 0;
    while i < |ms|
      invariant 0 <= i <= |ms|
      invariant rows == FilterMap(ms[..i], SinaHit)
    {
      FilterMapStep(ms, SinaHit, i);
      var title := Strip(StripTags(ms[i].raw));
      if title != [] {
        rows := rows + [Hit(ms[i].stamp, title, "sina")];
      }
      i := i + 1;
    }
    FilterMapWhole(ms, SinaHit);
  }

  /** A title as the fallback keeps it: non-empty, no whitespace at
      either end. */
  predicate Trimmed(t: string) {
    t != [] && !IsSpace(t[0]) && !IsSpace(t[|t| - 1])
  }

  /** One fallback hit: tagged `sina`, a trimmed title, the time of its
      match. */
  lemma SinaHitShape(m: HtmlMatch, h: Hit)
    requires SinaHit(m) == Some(h)
    ensures h.source == "sina" && Trimmed(h.title) && h.dt == m.stamp
  {
  }

  /** Every fallback hit is tagged `sina` and has a non-empty title without
      surrounding whitespace. */
  lemma SinaHitsTitled(ms: seq<HtmlMatch>)
    ensures forall h :: h in SinaHits(ms) ==> h.source == "sina" && Trimmed(h.title)
  {
    forall h | h in SinaHits(ms) ensures h.source == "sina" && Trimmed(h.title) {
      FilterMapFrom(ms, SinaHit);
      var m :| m in ms && SinaHit(m) == Some(h);
      SinaHitShape(m, h);
    }
  }

  /** Every fallback hit carries the time of one of the matches. */
  lemma SinaHitsTimed(ms: seq<HtmlMatch>)
    ensures forall h :: h in SinaHits(ms) ==> exists m :: m in ms && h.dt == m.stamp
  {
    forall h | h in SinaHits(ms) ensures exists m :: m in ms && h.dt == m.stamp {
      FilterMapFrom(ms, SinaHit);
      var m :| m in ms && SinaHit(m) == Some(h);
      SinaHitShape(m, h);
    }
  }

  /** A match whose link text has something besides tags and whitespace
      gives a hit; one whose text is only tags and whitespace gives none. */
  lemma SinaHitsKeepNonBlank(ms: seq<HtmlMatch>)
    ensures forall i :: 0 <= i < |ms| && !AllSpace(StripTags(ms[i].raw)) ==>
      Hit(ms[i].stamp, Strip(StripTags(ms[i].raw)), "sina") in SinaHits(ms)
    ensures (forall m :: m in ms ==> AllSpace(StripTags(m.raw))) ==> SinaHits(ms) == []
  {
    FilterMapCovers(ms, SinaHit);
    if forall m :: m in ms ==> AllSpace(StripTags(m.raw)) {
      FilterMapNone(ms, SinaHit);
    }
  }
}
