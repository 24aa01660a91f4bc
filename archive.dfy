/**
 * The article holder's sidebar data (ArticleHolder): the archive of months
 * that have articles, one bucket per distinct "%Y_%M_%m" string, each with
 * its link and the number of this holder's articles in that month; and
 * the regions of the first regions page.
 */
module Archive {
  import opened Common
  import opened Dates
  import opened Records
  import opened ArticleBrowse

  /** A DATE column holds a valid day of the years 1000 to 9999. */
  predicate StoredDate(d: Date) {
    d.Valid() && 1000 <= d.year <= 9999
  }

  predicate StoredDates(pages: seq<Article>) {
    forall a :: a in pages ==> StoredDate(a.date)
  }

  // ---------------------------------------------------------------------
  // The query: DISTINCT DATE_FORMAT(Date, '%Y_%M_%m') ORDER BY Date ASC
  // ---------------------------------------------------------------------

  /** `DATE_FORMAT(Date, '%Y_%M_%m')`, e.g. "2017_March_03". */
  function DateString(d: Date): string
    requires StoredDate(d)
  {
    YearString(d.year) + "_" + MonthName(d.month) + "_" + MonthNumberString(d.month)
  }

  function DateStrings(pages: seq<Article>): (r: seq<string>)
    requires StoredDates(pages)
    ensures |r| == |pages| && forall i :: 0 <= i < |pages| ==> r[i] == DateString(pages[i].date)
  {
    if pages == [] then [] else [DateString(pages[0].date)] + DateStrings(pages[1..])
  }

  /** The rows of the query, oldest month first, each month once. */
  function ArchiveRows(pages: seq<Article>): seq<string>
    requires StoredDates(pages)
  {
    Dedupe(DateStrings(SortedPages(pages)))
  }

  // ---------------------------------------------------------------------
  // explode('_', ...) and the bucket built from one row
  // ---------------------------------------------------------------------

  /** PHP's explode: the pieces of `s` between the separators. */
  function Explode(sep: char, s: string): (r: seq<string>)
    ensures |r| >= 1
  {
    if s == [] then [""]
    else
      var rest := Explode(sep, s[1..]);
      if s[0] == sep then [""] + rest else [[s[0]] + rest[0]] + rest[1..]
  }

  lemma {:induction false} ExplodeNoSeparator(sep: char, s: string)
    requires sep !in s
    ensures Explode(sep, s) == [s]
  {
    if s != [] {
      ExplodeNoSeparator(sep, s[1..]);
      assert [s[0]] + s[1..] == s;
    }
  }

  lemma {:induction false} ExplodeJoin(sep: char, a: string, b: string)
    requires sep !in a
    ensures Explode(sep, a + [sep] + b) == [a] + Explode(sep, b)
  {
    if a != [] {
      assert (a + [sep] + b)[1..] == a[1..] + [sep] + b;
      ExplodeJoin(sep, a[1..], b);
      var rest := Explode(sep, a[1..] + [sep] + b);
      assert rest[0] == a[1..] && rest[1..] == Explode(sep, b);
      assert [a[0]] + a[1..] == a;
    } else {
      assert (a + [sep] + b)[1..] == b;
    }
  }

  /** `list($a, $b, $c) = ...`: a missing piece is null, which prints as "". */
  function Piece(parts: seq<string>, k: nat): string {
    if k < |parts| then parts[k] else ""
  }

  /** One entry of the archive list. */
  datatype ArchiveBucket = ArchiveBucket(
    year: string,
    monthName: string,
    monthNumber: string,
    link: string,
    articleCount: nat)

  /** `DATE_FORMAT(Date, '%Y%m') = '{year}{monthNumber}' AND ParentID = {ID}`. */
  function InMonthOfHolder(yearMonth: string, holderId: int): Article -> bool {
    (a: Article) => StoredDate(a.date) && YearString(a.date.year) + MonthNumberString(a.date.month) == yearMonth
                    && a.parentId == holderId
  }

  /** `$this->Link("date/$year/$monthNumber")`: the holder's own link ends in a slash. */
  function DateLink(holderLink: string, year: string, monthNumber: string): string {
    holderLink + "date/" + year + "/" + monthNumber
  }

  /** The bucket the loop pushes for one row of the query. */
  function BucketOf(row: string, holderId: int, holderLink: string, countPages: seq<Article>): ArchiveBucket {
    var parts := Explode('_', row);
    var year, monthName, monthNumber := Piece(parts, 0), Piece(parts, 1), Piece(parts, 2);
    ArchiveBucket(year, monthName, monthNumber, DateLink(holderLink, year, monthNumber),
                  |Filter(countPages, InMonthOfHolder(year + monthNumber, holderId))|)
  }

  /** The loop over the query's rows: one bucket per row, in the rows' order. */
  method BucketList(rows: seq<string>, holderId: int, holderLink: string, countPages: seq<Article>)
    returns (list: seq<ArchiveBucket>)
    ensures |list| == |rows|
    ensures forall k :: 0 <= k < |list| ==> list[k] == BucketOf(rows[k], holderId, holderLink, countPages)
  {
    list := [];
    var i := 0;
    while i < |rows|
      invariant 0 <= i <= |rows| && |list| == i
      invariant forall k :: 0 <= k < i ==> list[k] == BucketOf(rows[k], holderId, holderLink, countPages)
    {
      var parts := Explode('_', rows[i]);
      var year, monthName, monthNumber := Piece(parts, 0), Piece(parts, 1), Piece(parts, 2);
      var count := |Filter(countPages, InMonthOfHolder(year + monthNumber, holderId))|;
      list := list + [ArchiveBucket(year, monthName, monthNumber, DateLink(holderLink, year, monthNumber), count)];
      i := i + 1;
    }
  }

  /**
   * `ArchiveDates`: the query reads the draft table `ArticlePage`
   * (`bucketPages`), while `ArticlePage::get()` counts in the current
   * stage (`countPages`).
   */
  method ArchiveDates(holderId: int, holderLink: string, bucketPages: seq<Article>, countPages: seq<Article>)
    returns (list: seq<ArchiveBucket>)
    requires StoredDates(bucketPages)
    ensures |list| == |ArchiveRows(bucketPages)|
    ensures forall k :: 0 <= k < |list| ==> list[k] == BucketOf(ArchiveRows(bucketPages)[k], holderId, holderLink, countPages)
  {
    list := BucketList(ArchiveRows(bucketPages), holderId, holderLink, countPages);
  }

  // ---------------------------------------------------------------------
  // What the buckets are
  // ---------------------------------------------------------------------

  lemma MonthNameHasNoUnderscore(m: int)
    requires 1 <= m <= 12
    ensures '_' !in MonthName(m)
  {
  }

  lemma DigitsHaveNoUnderscore(s: string)
    requires AllDigits(s)
    ensures '_' !in s
  {
  }

  /** explode('_') gives back the three parts of the formatted date. */
  lemma ExplodeDateString(d: Date)
    requires StoredDate(d)
    ensures Explode('_', DateString(d)) == [YearString(d.year), MonthName(d.month), MonthNumberString(d.month)]
  {
    var y, n, m := YearString(d.year), MonthName(d.month), MonthNumberString(d.month);
    DigitsHaveNoUnderscore(y);
    DigitsHaveNoUnderscore(m);
    MonthNameHasNoUnderscore(d.month);
    assert DateString(d) == y + ['_'] + (n + ['_'] + m);
    ExplodeJoin('_', y, n + ['_'] + m);
    ExplodeJoin('_', n, m);
    ExplodeNoSeparator('_', m);
  }

  /** The number of a formatted month: year * 100 + month. */
  function RowMonth(row: string): int {
    var parts := Explode('_', row);
    var y, m := Piece(parts, 0), Piece(parts, 2);
    (if AllDigits(y) then DigitsValue(y) else 0) * 100 + (if AllDigits(m) then DigitsValue(m) else 0)
  }

  lemma RowMonthOfDateString(d: Date)
    requires StoredDate(d)
    ensures RowMonth(DateString(d)) == d.year * 100 + d.month
  {
    ExplodeDateString(d);
    YearStringValue(d.year);
    MonthNumberStringValue(d.month);
  }

  /**
   * The bucket of a month: its Year, MonthName and MonthNumber are the
   * date's parts, its link is date/<Year>/<MonthNumber>, and its count is
   * the number of this holder's articles dated in that year and month.
   */
  lemma BucketOfDate(d: Date, holderId: int, holderLink: string, countPages: seq<Article>)
    requires StoredDate(d)
    ensures var b := BucketOf(DateString(d), holderId, holderLink, countPages);
      b.year == YearString(d.year) && b.monthName == MonthName(d.month) &&
      b.monthNumber == MonthNumberString(d.month) &&
      b.link == holderLink + "date/" + YearString(d.year) + "/" + MonthNumberString(d.month) &&
      b.articleCount == |Filter(countPages, InMonth(d.year, d.month, holderId))|
  {
    ExplodeDateString(d);
    var ym := YearString(d.year) + MonthNumberString(d.month);
    forall a | a in countPages
      ensures InMonthOfHolder(ym, holderId)(a) <==> InMonth(d.year, d.month, holderId)(a)
    {
      if StoredDate(a.date) {
        YearMonthStringInjective(a.date.year, a.date.month, d.year, d.month);
      }
    }
    FilterExt(countPages, InMonthOfHolder(ym, holderId), InMonth(d.year, d.month, holderId));
  }

  /** This holder's articles dated in year `y`, month `m`. */
  function InMonth(y: int, m: int, holderId: int): Article -> bool {
    (a: Article) => StoredDate(a.date) && a.date.year == y && a.date.month == m && a.parentId == holderId
  }

  lemma DateKeyMonthOrder(a: Article, b: Article)
    requires StoredDate(a.date) && StoredDate(b.date) && DateKey(a) <= DateKey(b)
    ensures a.date.year * 100 + a.date.month <= b.date.year * 100 + b.date.month
  {
  }

  /** The query's input in ascending date order. */
  function SortedPages(pages: seq<Article>): (r: seq<Article>)
    requires StoredDates(pages)
    ensures StoredDates(r) && multiset(r) == multiset(pages)
    ensures forall a :: a in r <==> a in pages
    ensures forall i, j :: 0 <= i < j < |r| ==> DateKey(r[i]) <= DateKey(r[j])
  {
    var sorted := SortBy(pages, DateKey);
    SortByFacts(pages, DateKey);
    forall a ensures a in sorted <==> a in pages {
      assert a in sorted <==> a in multiset(sorted);
      assert a in pages <==> a in multiset(pages);
    }
    sorted
  }

  /** Every month that has an article, whichever holder it belongs to, has a row. */
  lemma ArchiveRowsCover(pages: seq<Article>, a: Article)
    requires StoredDates(pages) && a in pages
    ensures DateString(a.date) in ArchiveRows(pages)
  {
    var sorted := SortedPages(pages);
    var i :| 0 <= i < |sorted| && sorted[i] == a;
    assert DateStrings(sorted)[i] == DateString(a.date);
  }

  /** Every row names the month of some article. */
  lemma ArchiveRowsFromArticles(pages: seq<Article>, row: string)
    requires StoredDates(pages) && row in ArchiveRows(pages)
    ensures exists a :: a in pages && row == DateString(a.date)
  {
    var sorted := SortedPages(pages);
    var strings := DateStrings(sorted);
    var i :| 0 <= i < |strings| && strings[i] == row;
    assert sorted[i] in pages;
  }

  lemma DateStringMonthOrder(a: Article, b: Article)
    requires StoredDate(a.date) && StoredDate(b.date) && DateKey(a) <= DateKey(b)
    ensures RowMonth(DateString(a.date)) <= RowMonth(DateString(b.date))
  {
    RowMonthOfDateString(a.date);
    RowMonthOfDateString(b.date);
    DateKeyMonthOrder(a, b);
  }

  lemma SameMonthNumber(d: Date, e: Date)
    requires StoredDate(d) && StoredDate(e) && d.year * 100 + d.month == e.year * 100 + e.month
    ensures d.year == e.year && d.month == e.month
  {
  }

  lemma DateStringMonthInjective(d: Date, e: Date)
    requires StoredDate(d) && StoredDate(e) && RowMonth(DateString(d)) == RowMonth(DateString(e))
    ensures DateString(d) == DateString(e)
  {
    RowMonthOfDateString(d);
    RowMonthOfDateString(e);
    SameMonthNumber(d, e);
  }

  /** The rows are in strictly ascending month order, so each month comes once. */
  lemma ArchiveRowsAscending(pages: seq<Article>)
    requires StoredDates(pages)
    ensures forall k, l :: 0 <= k < l < |ArchiveRows(pages)| ==>
      RowMonth(ArchiveRows(pages)[k]) < RowMonth(ArchiveRows(pages)[l])
  {
    var sorted := SortedPages(pages);
    DateStringsAscending(sorted);
    DateStringsMonthInjective(sorted);
    DedupeAscending(DateStrings(sorted), RowMonth);
  }

  /** Rows of articles in ascending date order are in ascending month order. */
  lemma DateStringsAscending(sorted: seq<Article>)
    requires StoredDates(sorted)
    requires forall i, j :: 0 <= i < j < |sorted| ==> DateKey(sorted[i]) <= DateKey(sorted[j])
    ensures forall i, j :: 0 <= i < j < |DateStrings(sorted)| ==>
      RowMonth(DateStrings(sorted)[i]) <= RowMonth(DateStrings(sorted)[j])
  {
    var strings := DateStrings(sorted);
    forall i, j | 0 <= i < j < |strings| ensures RowMonth(strings[i]) <= RowMonth(strings[j]) {
      DateStringMonthOrder(sorted[i], sorted[j]);
    }
  }

  /** Two rows of the same month are the same row. */
  lemma DateStringsMonthInjective(sorted: seq<Article>)
    requires StoredDates(sorted)
    ensures forall x, y :: x in DateStrings(sorted) && y in DateStrings(sorted) && RowMonth(x) == RowMonth(y) ==> x == y
  {
    var strings := DateStrings(sorted);
    forall x, y | x in strings && y in strings && RowMonth(x) == RowMonth(y) ensures x == y {
      var i :| 0 <= i < |strings| && strings[i] == x;
      var j :| 0 <= j < |strings| && strings[j] == y;
      DateStringMonthInjective(sorted[i].date, sorted[j].date);
    }
  }

  /**
   * A month in which only other holders have articles still gets a bucket,
   * with a count of 0 for this holder.
   */
  lemma ForeignMonthCountsZero(pages: seq<Article>, other: Article, holderId: int, holderLink: string)
    requires StoredDates(pages) && other in pages && other.parentId != holderId
    requires forall a :: a in pages && a.parentId == holderId ==>
      a.date.year != other.date.year || a.date.month != other.date.month
    ensures DateString(other.date) in ArchiveRows(pages)
    ensures BucketOf(DateString(other.date), holderId, holderLink, pages).articleCount == 0
  {
    ArchiveRowsCover(pages, other);
    BucketOfDate(other.date, holderId, holderLink, pages);
    FilterNone(pages, InMonth(other.date.year, other.date.month, holderId));
  }

  /** The date action on a bucket's link filters the list by the month's first day and the next month's. */
  lemma MonthLinkListing(list: seq<Article>, d: Date, strtotime: DateParser, version: Version)
    requires StoredDate(d)
    requires ReadsAs(strtotime, StartText(YearString(d.year), Some(MonthNumberString(d.month))), Date(d.year, d.month, 1))
    requires ReadsAs(strtotime, DateText(Date(d.year, d.month, 1)), Date(d.year, d.month, 1))
    requires var next := if d.month < 12 then Date(d.year, d.month + 1, 1) else Date(d.year + 1, 1, 1);
      ReadsAs(strtotime, DateText(next), next)
    ensures DateStep(list, Some(YearString(d.year)), Some(MonthNumberString(d.month)), strtotime, version).list
            == Filter(list, InRange(DayValue(Date(d.year, d.month, 1)), DayValue(AddOneMonth(Date(d.year, d.month, 1)))))
  {
    var year, month := YearString(d.year), MonthNumberString(d.month);
    var start := Date(d.year, d.month, 1);
    YearStringValue(d.year);
    MonthNumberStringValue(d.month);
    PositiveDigitsTruthy(month);
    StartReading(version, strtotime, year, Some(month));
    AddOneMonthFromFirst(start);
    EndReading(version, strtotime, AddOneMonth(start));
    DateStepOfReadings(list, Some(year), Some(month), strtotime, version, start, start, AddOneMonth(start));
  }

  /**
   * A bucket's count is the length of the list its link shows: the date
   * action on the holder's initial list keeps exactly that many articles,
   * in both versions, where strtotime reads "<Year>-<MonthNumber>-01" and
   * the 'Y-m-d' texts of the first of the month and of the next month as
   * those days.
   */
  lemma BucketCountIsDateListing(pages: seq<Article>, d: Date, holderId: int, holderLink: string,
                                 strtotime: DateParser, version: Version)
    requires StoredDates(pages) && StoredDate(d)
    requires ReadsAs(strtotime, StartText(YearString(d.year), Some(MonthNumberString(d.month))), Date(d.year, d.month, 1))
    requires ReadsAs(strtotime, DateText(Date(d.year, d.month, 1)), Date(d.year, d.month, 1))
    requires var next := if d.month < 12 then Date(d.year, d.month + 1, 1) else Date(d.year + 1, 1, 1);
      ReadsAs(strtotime, DateText(next), next)
    ensures BucketOf(DateString(d), holderId, holderLink, pages).articleCount
            == |DateStep(InitialList(pages, holderId), Some(YearString(d.year)), Some(MonthNumberString(d.month)), strtotime, version).list|
  {
    var start := Date(d.year, d.month, 1);
    var end := AddOneMonth(start);
    var children := Filter(pages, ChildOf(holderId));
    var initial := InitialList(pages, holderId);
    BucketOfDate(d, holderId, holderLink, pages);
    MonthLinkListing(initial, d, strtotime, version);
    var inRange := InRange(DayValue(start), DayValue(end));
    SortByDescFacts(children, DateKey);
    FilterCountPermutation(initial, children, inRange);
    FilterFilter(pages, ChildOf(holderId), inRange);
    forall a | a in pages
      ensures And(ChildOf(holderId), inRange)(a) <==> InMonth(d.year, d.month, holderId)(a)
    {
      MonthInterval(d.year, d.month, a.date);
    }
    FilterExt(pages, And(ChildOf(holderId), inRange), InMonth(d.year, d.month, holderId));
  }

  // ---------------------------------------------------------------------
  // Regions
  // ---------------------------------------------------------------------

  /** A regions page and the ids of its regions. */
  datatype RegionsPage = RegionsPage(id: int, regionIds: seq<int>)

  /** `Regions`: the regions of the first regions page, or nothing (null) without one. */
  function Regions(regionsPages: seq<RegionsPage>): (r: Option<seq<int>>)
    ensures r.None? <==> regionsPages == []
    ensures r.Some? ==> r.value == regionsPages[0].regionIds
  {
    if regionsPages == [] then None else Some(regionsPages[0].regionIds)
  }

  /**
   * A region's `ArticlesLink` is the holder's `region/<ID>`: every region
   * `Regions` lists, once stored, is found by the region action through
   * that link, which then keeps exactly that region's articles.
   */
  lemma RegionsLinksResolve(regionsPages: seq<RegionsPage>, stored: set<int>, list: seq<Article>, id: nat, a: Article)
    requires Regions(regionsPages).Some? && id in Regions(regionsPages).value && id in stored
    ensures RegionStep(list, RouteRecord(Some(NatToString(id)), stored)).result == SelectedRegion(id)
    ensures a in RegionStep(list, RouteRecord(Some(NatToString(id)), stored)).list <==> a in list && a.regionId == id
  {
    RouteRecordOfLink(id, stored);
    RegionStepKeeps(list, id, a);
  }
}
