/** The filter-and-map loop every scraper runs over a page: each element is
    turned into at most one row, and the rows keep the page's order. */
module Lists {
  import opened Text

  /** `[f(x).value for x in s if f(x) is not None]` */
  function FilterMap<A, B>(s: seq<A>, f: A -> Option<B>): (r: seq<B>)
    ensures |r| <= |s|
  {
    if s == [] then []
    else
      var y := f(s[|s| - 1]);
      FilterMap(s[..|s| - 1], f) + (if y.Some? then [y.value] else [])
  }

  /** One more element of the prefix: the loop step. */
  lemma FilterMapStep<A, B>(s: seq<A>, f: A -> Option<B>, i: nat)
    requires i < |s|
    ensures FilterMap(s[..i + 1], f) == FilterMap(s[..i], f) + (if f(s[i]).Some? then [f(s[i]).value] else [])
  {
    assert s[..i + 1][..i] == s[..i];
  }

  lemma FilterMapWhole<A, B>(s: seq<A>, f: A -> Option<B>)
    ensures FilterMap(s[..|s|], f) == FilterMap(s, f)
  {
    assert s[..|s|] == s;
  }

  /** Every row comes from an element of the input. */
  lemma {:induction false} FilterMapFrom<A, B>(s: seq<A>, f: A -> Option<B>)
    ensures forall y :: y in FilterMap(s, f) ==> exists x :: x in s && f(x) == Some(y)
  {
    if s != [] {
      var init := s[..|s| - 1];
      FilterMapFrom(init, f);
      forall y | y in FilterMap(s, f) ensures exists x :: x in s && f(x) == Some(y) {
        if y in FilterMap(init, f) {
          var x :| x in init && f(x) == Some(y);
          var k :| 0 <= k < |init| && init[k] == x;
          assert s[k] == x;
        } else {
          assert s[|s| - 1] in s;
        }
      }
    }
  }

  /** Every element that yields a row is represented in the output. */
  lemma {:induction false} FilterMapCovers<A, B>(s: seq<A>, f: A -> Option<B>)
    ensures forall i :: 0 <= i < |s| && f(s[i]).Some? ==> f(s[i]).value in FilterMap(s, f)
  {
    if s != [] {
      var init := s[..|s| - 1];
      FilterMapCovers(init, f);
      forall i | 0 <= i < |s| && f(s[i]).Some? ensures f(s[i]).value in FilterMap(s, f) {
        if i < |init| {
          assert s[i] == init[i];
        }
      }
    }
  }

  /** When no other element yields the row of `x`, that row occurs exactly
      as often as `x` does. */
  lemma {:induction false} FilterMapCount<A, B>(s: seq<A>, f: A -> Option<B>, x: A)
    requires f(x).Some?
    requires forall y :: f(y) == f(x) ==> y == x
    ensures multiset(FilterMap(s, f))[f(x).value] == multiset(s)[x]
  {
    if s != [] {
      var init, last := s[..|s| - 1], s[|s| - 1];
      FilterMapCount(init, f, x);
      assert s == init + [last];
      if f(last).Some? && f(last).value == f(x).value {
        assert f(last) == f(x);
      }
    }
  }

  /** A page where no element yields a row gives no rows. */
  lemma {:induction false} FilterMapNone<A, B>(s: seq<A>, f: A -> Option<B>)
    requires forall x :: x in s ==> f(x).None?
    ensures FilterMap(s, f) == []
  {
    if s != [] {
      assert s[|s| - 1] in s;
      assert forall x :: x in s[..|s| - 1] ==> x in s;
      FilterMapNone(s[..|s| - 1], f);
    }
  }
}
