/**
 * The SilverStripe 3 article holder (ArticleHolder and
 * ArticleHolder_Controller). The controller is ArticleHolderController
 * with SilverStripe 3's `byID`, which casts the route's ID with `(int)`.
 * The archive differs: its query reads the table "ArticlePage_<stage>"
 * named after `Versioned::current_stage()`. On the live site that is
 * `ArticlePage_Live`; on the draft site the stage is "Stage", while the
 * draft table is plain `ArticlePage`, so the query names a table that
 * does not exist.
 */
module LegacyArticleHolder {
  import opened Common
  import opened Dates
  import opened Records
  import opened ArticleBrowse
  import opened Archive

  // ---------------------------------------------------------------------
  // The archive and the versioned tables
  // ---------------------------------------------------------------------

  /** The reading mode of `Versioned`: the draft site or the live site. */
  datatype Stage = Draft | Live

  /** `Versioned::current_stage()`. */
  function CurrentStageName(stage: Stage): string {
    match stage
    case Draft => "Stage"
    case Live => "Live"
  }

  /** The table `Versioned` keeps a stage's rows in: the base table for the draft, a suffixed one for live. */
  function StageTable(stage: Stage): (t: string)
    ensures t == "ArticlePage" <==> stage == Draft
  {
    match stage
    case Draft => "ArticlePage"
    case Live => "ArticlePage_Live"
  }

  /** The rows of a named table, or None where no such table exists. */
  function TableRows(table: string, draftPages: seq<Article>, livePages: seq<Article>): (r: Option<seq<Article>>)
    ensures r.Some? <==> table == StageTable(Draft) || table == StageTable(Live)
  {
    if table == StageTable(Draft) then Some(draftPages)
    else if table == StageTable(Live) then Some(livePages)
    else None
  }

  /** `setFrom("ArticlePage_{$stage}")` as written. */
  function ArchiveTable(stage: Stage): string {
    "ArticlePage_" + CurrentStageName(stage)
  }

  /** The table the archive query names exists on the live site only. */
  lemma ArchiveTableExistsOnlyLive(stage: Stage, draftPages: seq<Article>, livePages: seq<Article>)
    ensures TableRows(ArchiveTable(stage), draftPages, livePages).Some? <==> stage == Live
    ensures stage == Live ==> TableRows(ArchiveTable(stage), draftPages, livePages) == Some(livePages)
  {
    assert ArchiveTable(Draft)[..12] == "ArticlePage_";
    assert ArchiveTable(Draft) != StageTable(Live) by {
      assert ArchiveTable(Draft)[12] == 'S' && StageTable(Live)[12] == 'L';
    }
    assert |ArchiveTable(Draft)| != |StageTable(Draft)|;
    assert ArchiveTable(Live) == StageTable(Live);
  }

  /**
   * `ArchiveDates` as written: on the draft site the query fails (None); on
   * the live site the buckets come from the live rows, and
   * `ArticlePage::get()` counts in the same live rows.
   */
  method LegacyArchiveDates(stage: Stage, holderId: int, holderLink: string,
                            draftPages: seq<Article>, livePages: seq<Article>)
    returns (list: Option<seq<ArchiveBucket>>)
    requires StoredDates(draftPages) && StoredDates(livePages)
    ensures list.None? <==> stage == Draft
    ensures list.Some? ==> |list.value| == |ArchiveRows(livePages)|
    ensures list.Some? ==> forall k :: 0 <= k < |list.value| ==>
      list.value[k] == BucketOf(ArchiveRows(livePages)[k], holderId, holderLink, livePages)
  {
    ArchiveTableExistsOnlyLive(stage, draftPages, livePages);
    var rows := TableRows(ArchiveTable(stage), draftPages, livePages);
    if rows.None? {
      return None;
    }
    var buckets := BucketList(ArchiveRows(rows.value), holderId, holderLink, livePages);
    return Some(buckets);
  }

  /** The rows of the current stage, as `ArticlePage::get()` reads them. */
  function StageRows(stage: Stage, draftPages: seq<Article>, livePages: seq<Article>): (r: seq<Article>)
    ensures TableRows(StageTable(stage), draftPages, livePages) == Some(r)
  {
    if stage == Draft then draftPages else livePages
  }

  /**
   * `ArchiveDates` reading the current stage's own table: it answers on
   * both sites, with buckets and counts from the same rows.
   */
  method StageArchiveDates(stage: Stage, holderId: int, holderLink: string,
                           draftPages: seq<Article>, livePages: seq<Article>)
    returns (list: seq<ArchiveBucket>)
    requires StoredDates(draftPages) && StoredDates(livePages)
    ensures var rows := StageRows(stage, draftPages, livePages);
      |list| == |ArchiveRows(rows)| &&
      forall k :: 0 <= k < |list| ==> list[k] == BucketOf(ArchiveRows(rows)[k], holderId, holderLink, rows)
  {
    var rows := TableRows(StageTable(stage), draftPages, livePages);
    list := BucketList(ArchiveRows(rows.value), holderId, holderLink, rows.value);
  }

  /**
   * With buckets and counts read from the same rows, a bucket's count is
   * positive exactly when this holder has an article in that month.
   */
  lemma LegacyBucketCountPositive(stagePages: seq<Article>, d: Date, holderId: int, holderLink: string)
    requires StoredDates(stagePages) && StoredDate(d)
    ensures BucketOf(DateString(d), holderId, holderLink, stagePages).articleCount > 0
            <==> exists a :: a in stagePages && a.parentId == holderId && a.date.year == d.year && a.date.month == d.month
  {
    BucketOfDate(d, holderId, holderLink, stagePages);
    var p := InMonth(d.year, d.month, holderId);
    var f := Filter(stagePages, p);
    if exists a :: a in stagePages && a.parentId == holderId && a.date.year == d.year && a.date.month == d.month {
      var a :| a in stagePages && a.parentId == holderId && a.date.year == d.year && a.date.month == d.month;
      assert a in f;
    } else {
      FilterNone(stagePages, p);
    }
    if |f| > 0 {
      assert f[0] in f;
    }
  }

  // ---------------------------------------------------------------------
  // The controller: SilverStripe 3's byID
  // ---------------------------------------------------------------------

  /**
   * SilverStripe 3's `byID($id)`: the stored record whose ID equals
   * `(int)$id`; a missing parameter is null, which casts to 0.
   */
  function LegacyRouteRecord(param: Option<string>, ids: set<int>): (r: Option<int>)
    ensures r.Some? ==> r.value in ids
    ensures IntCast(param.GetOr("")) in ids ==> r == Some(IntCast(param.GetOr("")))
  {
    var id := IntCast(param.GetOr(""));
    if id in ids then Some(id) else None
  }

  /** On the links the site prints, `/<ID>`, both versions of `byID` find the same record. */
  lemma RouteLookupsAgreeOnLinks(id: nat, ids: set<int>)
    ensures LegacyRouteRecord(Some(NatToString(id)), ids) == RouteRecord(Some(NatToString(id)), ids)
  {
    DigitsReading(NatToString(id));
    NatToStringValue(id);
  }

  /** A fractional ID: SilverStripe 3 truncates "3.5" to record 3, SilverStripe 4 finds no record. */
  lemma {:induction false} FractionalRouteIdDiffers(w: string, ids: set<int>)
    requires AllDigits(w) && w != [] && DigitsValue(w) in ids
    ensures LegacyRouteRecord(Some(w + ".5"), ids) == Some(DigitsValue(w))
    ensures RouteRecord(Some(w + ".5"), ids) == None
  {
    HalfReadings(w);
    var x := SqlNumber(w + ".5");
    assert x.Floor == DigitsValue(w);
  }

  /**
   * `date/<year>/<month name>` ("/date/2017/mar"): where strtotime reads
   * the start text as the first of month M and the 'Y-m-d' text of the
   * next month's first as that day, SilverStripe 3 lists exactly the
   * articles of month M, where SilverStripe 4's Date field throws on the
   * same start text (`DateStepMonthName`).
   */
  lemma LegacyMonthNameListsItsMonth(list: seq<Article>, year: string, month: string, m: int, strtotime: DateParser)
    requires ValidDates(list)
    requires AllDigits(year) && 1000 <= DigitsValue(year) < 32767
    requires month != [] && !IsDigit(month[0]) && 1 <= m <= 12
    requires ReadsAs(strtotime, year + "-" + month + "-01", Date(DigitsValue(year), m, 1))
    requires var next := if m < 12 then Date(DigitsValue(year), m + 1, 1) else Date(DigitsValue(year) + 1, 1, 1);
      ReadsAs(strtotime, DateText(next), next)
    ensures forall a :: a in DateStep(list, Some(year), Some(month), strtotime, SilverStripe3).list
              <==> a in list && a.date.year == DigitsValue(year) && a.date.month == m
  {
    var first := Date(DigitsValue(year), m, 1);
    var end := AddOneMonth(first);
    MonthNameRange(list, year, month, m, strtotime);
    var inRange := InRange(DayValue(first), DayValue(end));
    assert forall a :: a in Filter(list, inRange) <==> a in list && inRange(a);
    forall a | a in list
      ensures AtOrBefore(first, a.date) && Before(a.date, end) <==> a.date.year == DigitsValue(year) && a.date.month == m
    {
      MonthInterval(DigitsValue(year), m, a.date);
    }
  }

  /** SilverStripe 3 filters the list from the first of month M up to the first of the next month. */
  lemma MonthNameRange(list: seq<Article>, year: string, month: string, m: int, strtotime: DateParser)
    requires AllDigits(year) && 1000 <= DigitsValue(year) < 32767
    requires month != [] && !IsDigit(month[0]) && 1 <= m <= 12
    requires ReadsAs(strtotime, year + "-" + month + "-01", Date(DigitsValue(year), m, 1))
    requires var next := if m < 12 then Date(DigitsValue(year), m + 1, 1) else Date(DigitsValue(year) + 1, 1, 1);
      ReadsAs(strtotime, DateText(next), next)
    ensures DateStep(list, Some(year), Some(month), strtotime, SilverStripe3).list
            == Filter(list, InRange(DayValue(Date(DigitsValue(year), m, 1)), DayValue(AddOneMonth(Date(DigitsValue(year), m, 1)))))
  {
    var first := Date(DigitsValue(year), m, 1);
    var end := AddOneMonth(first);
    PositiveDigitsTruthy(year);
    MonthNameStart(strtotime, year, month);
    AddOneMonthFromFirst(first);
    EndReading(SilverStripe3, strtotime, end);
    DateStepOfReadings(list, Some(year), Some(month), strtotime, SilverStripe3, first, first, end);
  }

  /** SilverStripe 3 reads a month-name start text as strtotime reads it. */
  lemma MonthNameStart(strtotime: DateParser, year: string, month: string)
    requires AllDigits(year) && year != [] && month != [] && !IsDigit(month[0])
    ensures Truthy(Some(month)) && StartText(year, Some(month)) == year + "-" + month + "-01"
    ensures DateFieldValue(SilverStripe3, strtotime, StartText(year, Some(month)))
            == LenientReading(strtotime(StartText(year, Some(month))))
  {
    var text := year + "-" + month + "-01";
    assert StartText(year, Some(month)) == text by { assert month != "0" by { assert "0"[0] == '0'; } }
    assert month != "0" by { assert "0"[0] == '0'; }
    assert text == year + ("-" + month + "-01");
    DigitsThenTextNotNumeric(year, "-" + month + "-01");
    assert text[|year|] == '-' && text[|text| - 1] == '1';
    LegacyDateOfText(strtotime, text, |year|);
  }

  /**
   * `category/<ID>` on the SilverStripe 3 site: a category `(int)` of the
   * ID names lists exactly the holder's children tagged with it, newest
   * first, ten to a page; any other ID answers 404.
   */
  method LegacyServeCategory(holderId: int, pages: seq<Article>, param: Option<string>, categories: set<int>)
    returns (page: Page)
    ensures page.Some? <==> IntCast(param.GetOr("")) in categories
    ensures page.Some? ==> page.value.pageLength == 10 && DescendingBy(page.value.list, DateKey)
    ensures page.Some? ==> forall a :: (a in page.value.list
              <==> a in pages && a.parentId == holderId && IntCast(param.GetOr("")) in a.categoryIds)
  {
    page := ServeCategory(holderId, pages, LegacyRouteRecord, param, categories);
  }

  /**
   * `region/<ID>` on the SilverStripe 3 site: a region `(int)` of the ID
   * names lists exactly the holder's children in it, newest first.
   */
  method LegacyServeRegion(holderId: int, pages: seq<Article>, param: Option<string>, regions: set<int>)
    returns (page: Page)
    ensures page.Some? <==> IntCast(param.GetOr("")) in regions
    ensures page.Some? ==> page.value.pageLength == 10 && DescendingBy(page.value.list, DateKey)
    ensures page.Some? ==> forall a :: (a in page.value.list
              <==> a in pages && a.parentId == holderId && a.regionId == IntCast(param.GetOr("")))
  {
    page := ServeRegion(holderId, pages, LegacyRouteRecord, param, regions);
  }
}
