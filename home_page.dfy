/**
 * The home page's capped listings (HomePageController, and the
 * SilverStripe 3 HomePage_Controller, whose LatestArticles is the same
 * query): the featured properties, at most six, and the latest articles
 * of the whole site, newest first, three by default.
 */
module HomePage {
  import opened Common
  import opened Records

  const NumFeaturedProperties: nat := 6
  const NumLatestArticles: nat := 3

  function Featured(): Property -> bool {
    (p: Property) => p.featuredOnHomepage
  }

  /** `FeaturedProperties`: the featured properties, in table order, at most six. */
  function FeaturedProperties(all: seq<Property>): (r: seq<Property>)
    ensures |r| <= NumFeaturedProperties
    ensures forall p :: p in r ==> p in all && p.featuredOnHomepage
  {
    Limit(Filter(all, Featured()), NumFeaturedProperties)
  }

  /**
   * The listing is the first featured properties in table order: all of
   * them when there are at most six, exactly six otherwise.
   */
  lemma FeaturedPropertiesFacts(all: seq<Property>)
    ensures SubsequenceOf(FeaturedProperties(all), all)
    ensures |Filter(all, Featured())| >= NumFeaturedProperties ==> |FeaturedProperties(all)| == NumFeaturedProperties
    ensures |Filter(all, Featured())| < NumFeaturedProperties ==> FeaturedProperties(all) == Filter(all, Featured())
  {
    FilterPrefixIsSubsequence(all, Featured(), |FeaturedProperties(all)|);
  }

  /** Unfeatured properties never show, however many there are. */
  lemma NoFeaturedNoListing(all: seq<Property>)
    requires forall p :: p in all ==> !p.featuredOnHomepage
    ensures FeaturedProperties(all) == []
  {
    FilterNone(all, Featured());
  }

  /** A prefix of a filtered list is a subsequence of the list. */
  lemma {:induction false} FilterPrefixIsSubsequence<T(!new)>(s: seq<T>, p: T -> bool, n: nat)
    requires n <= |Filter(s, p)|
    ensures SubsequenceOf(Filter(s, p)[..n], s)
  {
    if s != [] && n > 0 {
      var r := Filter(s, p)[..n];
      if p(s[0]) {
        FilterPrefixIsSubsequence(s[1..], p, n - 1);
        assert r[1..] == Filter(s[1..], p)[..n - 1];
      } else {
        FilterPrefixIsSubsequence(s[1..], p, n);
        assert r[0] in Filter(s, p);
      }
    }
  }

  // ---------------------------------------------------------------------
  // Latest articles
  // ---------------------------------------------------------------------

  function Created(a: Article): int {
    a.created
  }

  /**
   * `LatestArticles($count = 3)`: every article of the site, whatever its
   * holder, newest creation first, cut to `count` (0 lifts the cut).
   */
  function LatestArticles(all: seq<Article>, count: nat := NumLatestArticles): (r: seq<Article>)
    ensures count > 0 ==> |r| == if count < |all| then count else |all|
    ensures count == 0 ==> |r| == |all|
  {
    SortByDescFacts(all, Created);
    assert |SortByDesc(all, Created)| == |all| by {
      assert |multiset(SortByDesc(all, Created))| == |multiset(all)|;
    }
    Limit(SortByDesc(all, Created), count)
  }

  /**
   * The listing is newest first, draws each shown article from the site's
   * articles, and no article left out is newer than one shown.
   */
  lemma LatestArticlesFacts(all: seq<Article>, count: nat)
    ensures DescendingBy(LatestArticles(all, count), Created)
    ensures multiset(LatestArticles(all, count)) <= multiset(all)
    ensures forall a, b :: a in LatestArticles(all, count) && b in multiset(all) - multiset(LatestArticles(all, count))
              ==> b.created <= a.created
  {
    var sorted := SortByDesc(all, Created);
    SortByDescFacts(all, Created);
    var r := LatestArticles(all, count);
    var k := |r|;
    assert r == sorted[..k];
    DescendingSplit(sorted, k);
    assert multiset(all) - multiset(r) == multiset(sorted[k..]);
  }

  /**
   * Cutting a newest-first list: the head is newest first, and nothing in
   * the tail is newer than anything in the head.
   */
  lemma DescendingSplit(sorted: seq<Article>, k: nat)
    requires DescendingBy(sorted, Created) && k <= |sorted|
    ensures DescendingBy(sorted[..k], Created)
    ensures multiset(sorted[..k]) <= multiset(sorted)
    ensures multiset(sorted) - multiset(sorted[..k]) == multiset(sorted[k..])
    ensures forall a, b :: a in sorted[..k] && b in multiset(sorted[k..]) ==> b.created <= a.created
  {
    assert sorted == sorted[..k] + sorted[k..];
    var head, tail := sorted[..k], sorted[k..];
    forall a: Article, b: Article | a in head && b in multiset(tail) ensures b.created <= a.created {
      var j :| 0 <= j < |tail| && tail[j] == b;
      var i :| 0 <= i < k && head[i] == a;
      assert sorted[k + j] == b && sorted[i] == a;
    }
  }

  /** By default three articles show, when the site has at least three. */
  lemma LatestArticlesDefault(all: seq<Article>)
    requires |all| >= NumLatestArticles
    ensures |LatestArticles(all)| == 3
  {
  }

  /**
   * Four articles with distinct creation times: the listing shows three
   * and leaves out the oldest.
   */
  lemma NewestThreeOfFour(all: seq<Article>, oldest: Article)
    requires |all| == 4 && oldest in all
    requires forall i, j :: 0 <= i < j < |all| ==> all[i].created != all[j].created
    requires forall a :: a in all ==> oldest.created <= a.created
    ensures |LatestArticles(all)| == 3 && oldest !in LatestArticles(all)
    ensures forall a :: a in all && a != oldest ==> a in LatestArticles(all)
  {
    var r := LatestArticles(all);
    LatestArticlesFacts(all, NumLatestArticles);
    var rest := multiset(all) - multiset(r);
    assert |rest| == 1 by {
      assert |multiset(all)| == |multiset(r)| + |rest|;
    }
    if oldest in r {
      var b :| b in rest;
      assert b in all;
      assert b.created <= oldest.created;
      assert b == oldest;
      assert multiset(all)[oldest] == 1 by {
        MultiplicityOne(all, oldest);
      }
      assert false;
    }
    assert oldest in rest;
    forall a | a in all && a != oldest ensures a in r {
      if a !in r {
        assert a in rest;
        assert rest == multiset{oldest} by {
          assert |rest| == 1;
          SingletonMultiset(rest, oldest);
        }
      }
    }
  }

  lemma MultiplicityOne(all: seq<Article>, x: Article)
    requires x in all
    requires forall i, j :: 0 <= i < j < |all| ==> all[i].created != all[j].created
    ensures multiset(all)[x] == 1
  {
    var i :| 0 <= i < |all| && all[i] == x;
    assert all == all[..i] + [x] + all[i + 1..];
    assert x !in all[..i];
    var tail := all[i + 1..];
    assert x !in tail by {
      forall j | 0 <= j < |tail| ensures tail[j] != x {
        assert tail[j] == all[i + 1 + j];
      }
    }
  }

  lemma SingletonMultiset(m: multiset<Article>, x: Article)
    requires |m| == 1 && x in m
    ensures m == multiset{x}
  {
    assert m - multiset{x} == multiset{} by {
      assert |m - multiset{x}| == 0;
    }
  }
}
