/**
 * Browsing the articles of one article holder (ArticleHolderController):
 * `init` lists the holder's children newest first, and the `category`,
 * `region` and `date` actions narrow that list or answer 404.
 */
module ArticleBrowse {
  import opened Common
  import opened Dates
  import opened Records

  const CategoryNotFound: string := "That category was not found"
  const RegionNotFound: string := "That region was not found"
  const InvalidDate: string := "Invalid date"

  /** `PaginatedArticles`' default page length. */
  const DefaultArticlesPerPage: nat := 10

  /**
   * What an action answers: an HTTP error, the data handed to the
   * template, or the text a Date field's `setValue` threw on, which no
   * code of the site catches.
   */
  datatype ActionResult =
    | HttpError(code: int, message: string)
    | SelectedCategory(categoryId: int)
    | SelectedRegion(regionId: int)
    | DateRange(startDate: string, endDate: Date)
    | InvalidArgument(value: string)

  /** An action's answer together with the article list it leaves behind. */
  datatype Step = Step(result: ActionResult, list: seq<Article>)

  // ---------------------------------------------------------------------
  // init: the holder's children, newest first
  // ---------------------------------------------------------------------

  /** A sort key on dates: on valid dates it orders as the calendar does. */
  function DateKey(a: Article): int {
    a.date.year * 10000 + a.date.month * 100 + a.date.day
  }

  lemma DateKeyOrder(a: Article, b: Article)
    requires a.date.Valid() && b.date.Valid()
    ensures Before(a.date, b.date) <==> DateKey(a) < DateKey(b)
    ensures a.date == b.date <==> DateKey(a) == DateKey(b)
  {
  }

  function ChildOf(holderId: int): Article -> bool {
    (a: Article) => a.parentId == holderId
  }

  /** `ArticlePage::get()->filter('ParentID', ID)->sort('Date DESC')`. */
  function InitialList(pages: seq<Article>, holderId: int): seq<Article> {
    SortByDesc(Filter(pages, ChildOf(holderId)), DateKey)
  }

  /** The initial list holds exactly the holder's children, each once per row, newest first. */
  lemma InitialListFacts(pages: seq<Article>, holderId: int)
    ensures multiset(InitialList(pages, holderId)) == multiset(Filter(pages, ChildOf(holderId)))
    ensures forall a :: a in InitialList(pages, holderId) <==> a in pages && a.parentId == holderId
    ensures DescendingBy(InitialList(pages, holderId), DateKey)
  {
    var children := Filter(pages, ChildOf(holderId));
    SortByDescFacts(children, DateKey);
    forall a ensures a in InitialList(pages, holderId) <==> a in children {
      assert a in InitialList(pages, holderId) <==> a in multiset(InitialList(pages, holderId));
      assert a in children <==> a in multiset(children);
    }
  }

  // ---------------------------------------------------------------------
  // category and region
  // ---------------------------------------------------------------------

  /** How `byID` turns the route's ID parameter into the stored record it finds, if any. */
  type RecordLookup = (Option<string>, set<int>) -> Option<int>

  /**
   * SilverStripe 4's `byID($id)`: `filter('ID', $id)->first()`. The database
   * compares each stored ID with the parameter read as a number, so
   * "3abc" finds record 3 and "3.5" finds none; without the parameter the
   * filter is `ID IS NULL` and finds nothing.
   */
  function RouteRecord(param: Option<string>, ids: set<int>): (r: Option<int>)
    ensures r.Some? ==> param.Some? && r.value in ids && r.value as real == SqlNumber(param.value)
    ensures param.Some? ==> forall k :: k in ids && k as real == SqlNumber(param.value) ==> r == Some(k)
  {
    if param.None? then None
    else
      var x := SqlNumber(param.value);
      if x == x.Floor as real && x.Floor in ids then Some(x.Floor) else None
  }

  /** A parameter that starts with digits finds the record those digits number, whatever follows them. */
  lemma RouteRecordReadsLeadingDigits(ds: string, rest: string, ids: set<int>)
    requires AllDigits(ds) && ds != []
    requires rest == [] || (!IsDigit(rest[0]) && rest[0] != '.' && rest[0] != 'e' && rest[0] != 'E')
    ensures RouteRecord(Some(ds + rest), ids) == if DigitsValue(ds) in ids then Some(DigitsValue(ds)) else None
  {
    DigitsThenText(ds, rest);
  }

  /** The link `.../<ID>` of a stored record finds that record. */
  lemma RouteRecordOfLink(id: nat, ids: set<int>)
    requires id in ids
    ensures RouteRecord(Some(NatToString(id)), ids) == Some(id)
  {
    DigitsReading(NatToString(id));
    NatToStringValue(id);
  }

  function InCategory(id: int): Article -> bool {
    (a: Article) => id in a.categoryIds
  }

  function InRegion(id: int): Article -> bool {
    (a: Article) => a.regionId == id
  }

  /**
   * `category`: the route's ID must find a stored category; otherwise 404
   * and the list is left as it was.
   */
  function CategoryStep(list: seq<Article>, found: Option<int>): (r: Step)
    ensures r.result.HttpError? <==> found.None?
    ensures r.result.HttpError? ==> r == Step(HttpError(404, CategoryNotFound), list)
    ensures r.result.SelectedCategory? || r.result.HttpError?
    ensures r.result.SelectedCategory? ==> r.result.categoryId == found.value && |r.list| <= |list|
  {
    match found
    case None => Step(HttpError(404, CategoryNotFound), list)
    case Some(id) => Step(SelectedCategory(id), Filter(list, InCategory(id)))
  }

  /** `region`: the same pattern over the stored regions. */
  function RegionStep(list: seq<Article>, found: Option<int>): (r: Step)
    ensures r.result.HttpError? <==> found.None?
    ensures r.result.HttpError? ==> r == Step(HttpError(404, RegionNotFound), list)
    ensures r.result.SelectedRegion? || r.result.HttpError?
    ensures r.result.SelectedRegion? ==> r.result.regionId == found.value && |r.list| <= |list|
  {
    match found
    case None => Step(HttpError(404, RegionNotFound), list)
    case Some(id) => Step(SelectedRegion(id), Filter(list, InRegion(id)))
  }

  /** A found category keeps exactly the listed articles tagged with it, in order. */
  lemma CategoryStepKeeps(list: seq<Article>, id: int, a: Article)
    ensures SubsequenceOf(CategoryStep(list, Some(id)).list, list)
    ensures a in CategoryStep(list, Some(id)).list <==> a in list && id in a.categoryIds
  {
    FilterIsSubsequence(list, InCategory(id));
  }

  /** A found region keeps exactly the listed articles of that region, in order. */
  lemma RegionStepKeeps(list: seq<Article>, id: int, a: Article)
    ensures SubsequenceOf(RegionStep(list, Some(id)).list, list)
    ensures a in RegionStep(list, Some(id)).list <==> a in list && a.regionId == id
  {
    FilterIsSubsequence(list, InRegion(id));
  }

  // ---------------------------------------------------------------------
  // date: a year, or a year and a month, as a half-open interval
  // ---------------------------------------------------------------------

  /** "{year}-{month}-01", or "{year}-01-01" without a month. */
  function StartText(year: string, month: Option<string>): string {
    if Truthy(month) then year + "-" + month.value + "-01" else year + "-01-01"
  }

  /**
   * `Date:GreaterThanOrEqual` and `Date:LessThan` the values the Date field
   * makes of the start and end texts.
   */
  function InRange(low: DateValue, high: DateValue): Article -> bool {
    (a: Article) => OnOrAfterValue(a.date, low) && BeforeValue(a.date, high)
  }

  /** "+1 month" or "+1 year" from the day strtotime reads the start text as. */
  function EndDate(start: ValidDate, month: Option<string>): (r: Date)
    ensures r.Valid()
  {
    if Truthy(month) then AddOneMonth(start) else AddOneYear(start)
  }

  /**
   * `date`: 404 without a (truthy) year, 404 'Invalid date' where strtotime
   * rejects the start text; otherwise the filter hands the start text and
   * the 'Y-m-d' text of the end strtotime computes to the Date field, which
   * throws on the first it rejects (the list stays as it was); the articles
   * kept are those on or after the first value and before the second.
   */
  function DateStep(list: seq<Article>, year: Option<string>, month: Option<string>,
                    strtotime: DateParser, version: Version): (r: Step)
    ensures !Truthy(year) ==> r == Step(HttpError(404, ""), list)
    ensures Truthy(year) && strtotime(StartText(year.value, month)).None? ==> r == Step(HttpError(404, InvalidDate), list)
    ensures r.result.DateRange? || r.result.InvalidArgument? ==> Truthy(year) && strtotime(StartText(year.value, month)).Some?
    ensures r.result.InvalidArgument? ==> r.list == list
    ensures r.result.DateRange? ==> r.result.startDate == StartText(year.value, month) && SubsequenceOf(r.list, list)
  {
    if !Truthy(year) then Step(HttpError(404, ""), list)
    else
      var text := StartText(year.value, month);
      match strtotime(text)
      case None => Step(HttpError(404, InvalidDate), list)
      case Some(start) =>
        var end := EndDate(start, month);
        var low := DateFieldValue(version, strtotime, text);
        var high := DateFieldValue(version, strtotime, DateText(end));
        if low.Rejected? then Step(InvalidArgument(text), list)
        else if high.Rejected? then Step(InvalidArgument(DateText(end)), list)
        else
          FilterIsSubsequence(list, InRange(low, high));
          Step(DateRange(text, end), Filter(list, InRange(low, high)))
  }

  predicate ValidDates(list: seq<Article>) {
    forall a :: a in list ==> a.date.Valid()
  }

  /**
   * Where the Date field reads the start text and the end's text as days,
   * the action keeps exactly the listed articles from the first day up to
   * the second, in order.
   */
  lemma DateStepOfReadings(list: seq<Article>, year: Option<string>, month: Option<string>,
                           strtotime: DateParser, version: Version, start: ValidDate, low: Date, high: Date)
    requires Truthy(year) && ReadsAs(strtotime, StartText(year.value, month), start)
    requires DateFieldValue(version, strtotime, StartText(year.value, month)) == DayValue(low)
    requires DateFieldValue(version, strtotime, DateText(EndDate(start, month))) == DayValue(high)
    ensures DateStep(list, year, month, strtotime, version).result
            == DateRange(StartText(year.value, month), EndDate(start, month))
    ensures DateStep(list, year, month, strtotime, version).list == Filter(list, InRange(DayValue(low), DayValue(high)))
    ensures forall a :: a in DateStep(list, year, month, strtotime, version).list
              <==> a in list && AtOrBefore(low, a.date) && Before(a.date, high)
  {
  }

  /** The month of a route: its number, or 1 (January) without one. */
  function RouteMonth(month: Option<string>): int
    requires !Truthy(month) || AllDigits(month.value)
  {
    if Truthy(month) then DigitsValue(month.value) else 1
  }

  /** A route of digits with a real month: the year and month are truthy and the start text is three digit groups. */
  predicate DigitRoute(year: string, month: Option<string>) {
    AllDigits(year) && 1000 <= DigitsValue(year) <= 32767 &&
    (month.Some? ==> AllDigits(month.value) && 1 <= DigitsValue(month.value) <= 12)
  }

  /** A digit text worth at least 1 is neither empty nor "0". */
  lemma PositiveDigitsTruthy(s: string)
    requires AllDigits(s) && DigitsValue(s) >= 1
    ensures Truthy(Some(s))
  {
  }

  /**
   * strtotime reads the start text of a route, and the 'Y-m-d' texts of the
   * first of its month (or year) and of the route's end, as those days.
   */
  predicate ReadsRoute(strtotime: DateParser, year: string, month: Option<string>)
    requires DigitRoute(year, month)
  {
    var first := Date(DigitsValue(year), RouteMonth(month), 1);
    ReadsAs(strtotime, StartText(year, month), first) && ReadsAs(strtotime, DateText(first), first) &&
    ReadsAs(strtotime, DateText(RouteEnd(year, month)), RouteEnd(year, month))
  }

  /**
   * Three digit groups with a year of 1000 to 32767: both versions read
   * the text as that day wherever strtotime reads the text (and, in
   * SilverStripe 4, its 'Y-m-d' form) as that day.
   */
  lemma DigitTextReading(version: Version, strtotime: DateParser, first: string, second: string, third: string, d: Date)
    requires AllDigits(first) && first != [] && AllDigits(second) && second != [] && AllDigits(third) && third != []
    requires d == Date(DigitsValue(first), DigitsValue(second), DigitsValue(third)) && d.Valid() && 1000 <= d.year <= 32767
    requires ReadsAs(strtotime, first + "-" + second + "-" + third, d) && ReadsAs(strtotime, DateText(d), d)
    ensures DateFieldValue(version, strtotime, first + "-" + second + "-" + third) == DayValue(d)
  {
    match version
    case SilverStripe4 =>
      DBDateOfDigitParts(strtotime, first, second, third);
    case SilverStripe3 =>
      var text := first + "-" + second + "-" + third;
      DigitPartsSplit(first, second, third);
      assert text[|first|] == '-' && text[|text| - 1] == third[|third| - 1];
      LegacyDateOfText(strtotime, text, |first|);
  }

  /** The month digits of a route's start text: the route's month, or "01". */
  function RouteDigits(month: Option<string>): string {
    if Truthy(month) then month.value else "01"
  }

  /**
   * On a route of digits, both versions read the start text as the first
   * of the route's month wherever strtotime reads the text (and, in
   * SilverStripe 4, its 'Y-m-d' form) as that day.
   */
  lemma StartReading(version: Version, strtotime: DateParser, year: string, month: Option<string>)
    requires DigitRoute(year, month)
    requires var first := Date(DigitsValue(year), RouteMonth(month), 1);
      ReadsAs(strtotime, StartText(year, month), first) && ReadsAs(strtotime, DateText(first), first)
    ensures Truthy(Some(year))
    ensures DateFieldValue(version, strtotime, StartText(year, month)) == DayValue(Date(DigitsValue(year), RouteMonth(month), 1))
  {
    var digits := RouteDigits(month);
    assert DigitsValue("01") == 1 by {
      assert "01"[..1] == "0";
    }
    PositiveDigitsTruthy(year);
    if month.Some? {
      PositiveDigitsTruthy(month.value);
    }
    assert StartText(year, month) == year + "-" + digits + "-" + "01";
    DigitTextReading(version, strtotime, year, digits, "01", Date(DigitsValue(year), RouteMonth(month), 1));
  }

  /** Both versions read the 'Y-m-d' text of a day of the years 1000 to 32767 as strtotime does. */
  lemma EndReading(version: Version, strtotime: DateParser, d: Date)
    requires d.Valid() && 1000 <= d.year <= 32767 && ReadsAs(strtotime, DateText(d), d)
    ensures DateFieldValue(version, strtotime, DateText(d)) == DayValue(d)
  {
    var year, month, day := NatToString(d.year), MonthNumberString(d.month), DayString(d.day);
    NatToStringValue(d.year);
    MonthNumberStringValue(d.month);
    DayStringValue(d.day);
    assert DateText(d) == year + "-" + month + "-" + day;
    DigitTextReading(version, strtotime, year, month, day, d);
  }

  /** The day after a route's interval: the first of the next month, or of the next year. */
  function RouteEnd(year: string, month: Option<string>): Date
    requires DigitRoute(year, month)
  {
    var y, m := DigitsValue(year), RouteMonth(month);
    if Truthy(month) && m < 12 then Date(y, m + 1, 1) else Date(y + 1, 1, 1)
  }

  /** On a route of digits, both versions read the start text and the end's 'Y-m-d' text as the first of the route and its end. */
  lemma RouteReadings(list: seq<Article>, year: string, month: Option<string>, strtotime: DateParser, version: Version)
    requires DigitRoute(year, month) && DigitsValue(year) < 32767
    requires ReadsRoute(strtotime, year, month)
    ensures Truthy(Some(year))
    ensures var first := Date(DigitsValue(year), RouteMonth(month), 1);
      first.Valid() && EndDate(first, month) == RouteEnd(year, month) &&
      DateFieldValue(version, strtotime, StartText(year, month)) == DayValue(first) &&
      DateFieldValue(version, strtotime, DateText(RouteEnd(year, month))) == DayValue(RouteEnd(year, month))
  {
    var first := Date(DigitsValue(year), RouteMonth(month), 1);
    StartReading(version, strtotime, year, month);
    if Truthy(month) {
      AddOneMonthFromFirst(first);
    } else {
      NewYearPlusOneYear(first.year);
    }
    EndReading(version, strtotime, RouteEnd(year, month));
  }

  /** On a route of digits, the action filters the list from the first of the month (or year) up to the route's end. */
  lemma DigitRouteRange(list: seq<Article>, year: string, month: Option<string>, strtotime: DateParser, version: Version)
    requires DigitRoute(year, month) && DigitsValue(year) < 32767
    requires ReadsRoute(strtotime, year, month)
    ensures DateStep(list, Some(year), month, strtotime, version)
            == Step(DateRange(StartText(year, month), RouteEnd(year, month)),
                    Filter(list, InRange(DayValue(Date(DigitsValue(year), RouteMonth(month), 1)), DayValue(RouteEnd(year, month)))))
  {
    var first := Date(DigitsValue(year), RouteMonth(month), 1);
    RouteReadings(list, year, month, strtotime, version);
    DateStepOfReadings(list, Some(year), month, strtotime, version, first, first, RouteEnd(year, month));
  }

  /**
   * A route of digits: where strtotime reads the start text and the
   * 'Y-m-d' texts of the first of the month (or year) and of the end as
   * those days, the action keeps exactly the listed articles dated in the
   * route's month (or year), in order, in both versions.
   */
  lemma DateStepOfDigitRoute(list: seq<Article>, year: string, month: Option<string>,
                             strtotime: DateParser, version: Version)
    requires ValidDates(list) && DigitRoute(year, month) && DigitsValue(year) < 32767
    requires ReadsRoute(strtotime, year, month)
    ensures DateStep(list, Some(year), month, strtotime, version).result == DateRange(StartText(year, month), RouteEnd(year, month))
    ensures forall a :: a in DateStep(list, Some(year), month, strtotime, version).list
              <==> a in list && a.date.year == DigitsValue(year) && (Truthy(month) ==> a.date.month == DigitsValue(month.value))
  {
    DigitRouteRange(list, year, month, strtotime, version);
    RouteInterval(list, year, month);
  }

  /** The interval of a route of digits holds exactly the days of its month (or year). */
  lemma RouteInterval(list: seq<Article>, year: string, month: Option<string>)
    requires ValidDates(list) && DigitRoute(year, month)
    ensures forall a :: a in Filter(list, InRange(DayValue(Date(DigitsValue(year), RouteMonth(month), 1)), DayValue(RouteEnd(year, month))))
              <==> a in list && a.date.year == DigitsValue(year) && (Truthy(month) ==> a.date.month == DigitsValue(month.value))
  {
    var y, m := DigitsValue(year), RouteMonth(month);
    var inRange := InRange(DayValue(Date(y, m, 1)), DayValue(RouteEnd(year, month)));
    if Truthy(month) {
      AddOneMonthFromFirst(Date(y, m, 1));
    } else {
      NewYearPlusOneYear(y);
    }
    forall a
      ensures a in Filter(list, inRange) <==> a in list && a.date.year == y && (Truthy(month) ==> a.date.month == DigitsValue(month.value))
    {
      if a in list {
        if Truthy(month) {
          MonthInterval(y, m, a.date);
        } else {
          YearInterval(y, a.date);
        }
      }
    }
  }

  /**
   * A month name ("/date/2017/mar"): wherever strtotime reads the start
   * text, SilverStripe 4's Date field throws on it.
   */
  lemma DateStepMonthName(list: seq<Article>, year: string, month: string, strtotime: DateParser)
    requires AllDigits(year) && year != [] && Truthy(Some(year))
    requires month != [] && !IsDigit(month[0])
    requires strtotime(year + "-" + month + "-01").Some?
    ensures DateStep(list, Some(year), Some(month), strtotime, SilverStripe4)
            == Step(InvalidArgument(year + "-" + month + "-01"), list)
  {
    assert year + "-" + month + "-01" == year + "-" + (month + "-01");
    DBDateRejectsLetters(strtotime, year, month + "-01");
  }

  /**
   * A year of one to three digits ("/date/999/3"): wherever strtotime
   * reads the start text, SilverStripe 4's Date field throws on it.
   */
  lemma DateStepEarlyYear(list: seq<Article>, year: string, month: Option<string>, strtotime: DateParser)
    requires AllDigits(year) && 1 <= DigitsValue(year) < 1000
    requires month.Some? ==> AllDigits(month.value)
    requires strtotime(StartText(year, month)).Some?
    ensures DateStep(list, Some(year), month, strtotime, SilverStripe4)
            == Step(InvalidArgument(StartText(year, month)), list)
  {
    PositiveDigitsTruthy(year);
    var digits := if Truthy(month) then month.value else "01";
    assert StartText(year, month) == year + "-" + digits + "-" + "01";
    assert DigitsValue("01") == 1 by {
      assert "01"[..1] == "0";
    }
    DBDateRejectsEarlyYear(strtotime, year, digits, "01");
  }

  /** Whenever strtotime reads the start text as a first of a month, the end is a first of a month too. */
  lemma DateStepEndIsFirst(list: seq<Article>, year: Option<string>, month: Option<string>,
                           strtotime: DateParser, version: Version)
    requires DateStep(list, year, month, strtotime, version).result.DateRange?
    requires strtotime(StartText(year.value, month)).value.day == 1
    ensures DateStep(list, year, month, strtotime, version).result.endDate.day == 1
  {
    var start := strtotime(StartText(year.value, month)).value;
    if Truthy(month) {
      AddOneMonthFromFirst(start);
    } else {
      assert AddOneYear(start) == AddDays(Date(start.year + 1, start.month, 1), 0);
    }
  }

  // ---------------------------------------------------------------------
  // What every action keeps
  // ---------------------------------------------------------------------

  /**
   * The controller's invariant: the list is drawn from the list `init`
   * built, holds only the holder's children and stays newest first.
   */
  ghost predicate Narrowed(list: seq<Article>, initial: seq<Article>, holderId: int) {
    (forall a :: a in list ==> a in initial) &&
    (forall a :: a in list ==> a.parentId == holderId) &&
    DescendingBy(list, DateKey)
  }

  lemma InitialListNarrowed(pages: seq<Article>, holderId: int)
    ensures Narrowed(InitialList(pages, holderId), InitialList(pages, holderId), holderId)
  {
    InitialListFacts(pages, holderId);
  }

  lemma FilterNarrowed(list: seq<Article>, initial: seq<Article>, holderId: int, p: Article -> bool)
    requires Narrowed(list, initial, holderId)
    ensures Narrowed(Filter(list, p), initial, holderId)
  {
    FilterKeepsDescending(list, p, DateKey);
  }

  /** The category action keeps the invariant, whatever it answers. */
  lemma CategoryStepNarrowed(list: seq<Article>, initial: seq<Article>, holderId: int, found: Option<int>)
    requires Narrowed(list, initial, holderId)
    ensures Narrowed(CategoryStep(list, found).list, initial, holderId)
  {
    if found.Some? {
      FilterNarrowed(list, initial, holderId, InCategory(found.value));
    }
  }

  /** The region action keeps the invariant, whatever it answers. */
  lemma RegionStepNarrowed(list: seq<Article>, initial: seq<Article>, holderId: int, found: Option<int>)
    requires Narrowed(list, initial, holderId)
    ensures Narrowed(RegionStep(list, found).list, initial, holderId)
  {
    if found.Some? {
      FilterNarrowed(list, initial, holderId, InRegion(found.value));
    }
  }

  /** The date action keeps the invariant, whatever it answers. */
  lemma DateStepNarrowed(list: seq<Article>, initial: seq<Article>, holderId: int,
                         year: Option<string>, month: Option<string>, strtotime: DateParser, version: Version)
    requires Narrowed(list, initial, holderId)
    ensures Narrowed(DateStep(list, year, month, strtotime, version).list, initial, holderId)
  {
    if Truthy(year) {
      var text := StartText(year.value, month);
      if strtotime(text).Some? {
        var end := EndDate(strtotime(text).value, month);
        var p := InRange(DateFieldValue(version, strtotime, text), DateFieldValue(version, strtotime, DateText(end)));
        DateStepList(list, year, month, strtotime, version);
        FilterNarrowed(list, initial, holderId, p);
      }
    }
  }

  /** Past the 404s, the date action leaves the list as it was or filters it by the two Date field values. */
  lemma DateStepList(list: seq<Article>, year: Option<string>, month: Option<string>, strtotime: DateParser, version: Version)
    requires Truthy(year) && strtotime(StartText(year.value, month)).Some?
    ensures var text := StartText(year.value, month);
      var end := EndDate(strtotime(text).value, month);
      DateStep(list, year, month, strtotime, version).list
        in {list, Filter(list, InRange(DateFieldValue(version, strtotime, text), DateFieldValue(version, strtotime, DateText(end))))}
  {
    var text := StartText(year.value, month);
    var end := EndDate(strtotime(text).value, month);
    var low, high := DateFieldValue(version, strtotime, text), DateFieldValue(version, strtotime, DateText(end));
    var r := DateStep(list, year, month, strtotime, version);
    if low.Rejected? || high.Rejected? {
      assert r.list == list;
    } else {
      assert r.list == Filter(list, InRange(low, high));
    }
  }

  // ---------------------------------------------------------------------
  // The controller
  // ---------------------------------------------------------------------

  /**
   * ArticleHolderController: the list of articles an action narrows, held
   * between calls, and the framework's `byID` its actions look records up with.
   */
  class ArticleHolderController {
    const holderId: int
    const byId: RecordLookup
    var articleList: seq<Article>
    /** The list `init` built; every later list is drawn from it. */
    ghost const initial: seq<Article>

    ghost predicate Valid()
      reads this
    {
      Narrowed(articleList, initial, holderId)
    }

    /** `init`. */
    constructor (holderId: int, pages: seq<Article>, byId: RecordLookup)
      ensures this.holderId == holderId && this.byId == byId
      ensures articleList == InitialList(pages, holderId) && initial == articleList
      ensures Valid()
    {
      this.holderId := holderId;
      this.byId := byId;
      articleList := SortByDesc(Filter(pages, ChildOf(holderId)), DateKey);
      initial := InitialList(pages, holderId);
      new;
      InitialListNarrowed(pages, holderId);
    }

    /** `category`, with the route's ID parameter and the stored category ids. */
    method Category(param: Option<string>, categories: set<int>) returns (result: ActionResult)
      requires Valid()
      modifies this
      ensures Step(result, articleList) == CategoryStep(old(articleList), byId(param, categories))
      ensures Valid()
    {
      var found := byId(param, categories);
      CategoryStepNarrowed(articleList, initial, holderId, found);
      if found.None? {
        return HttpError(404, CategoryNotFound);
      }
      articleList := Filter(articleList, InCategory(found.value));
      return SelectedCategory(found.value);
    }

    /** `region`, with the route's ID parameter and the stored region ids. */
    method Region(param: Option<string>, regions: set<int>) returns (result: ActionResult)
      requires Valid()
      modifies this
      ensures Step(result, articleList) == RegionStep(old(articleList), byId(param, regions))
      ensures Valid()
    {
      var found := byId(param, regions);
      RegionStepNarrowed(articleList, initial, holderId, found);
      if found.None? {
        return HttpError(404, RegionNotFound);
      }
      articleList := Filter(articleList, InRegion(found.value));
      return SelectedRegion(found.value);
    }

    /** `date`, with the year and month route parameters. */
    method DateAction(year: Option<string>, month: Option<string>, strtotime: DateParser, version: Version)
      returns (result: ActionResult)
      requires Valid()
      modifies this
      ensures Step(result, articleList) == DateStep(old(articleList), year, month, strtotime, version)
      ensures Valid()
    {
      DateStepNarrowed(articleList, initial, holderId, year, month, strtotime, version);
      if !Truthy(year) {
        return HttpError(404, "");
      }
      var startDate := StartText(year.value, month);
      var parsed := strtotime(startDate);
      if parsed.None? {
        return HttpError(404, InvalidDate);
      }
      var endDate := EndDate(parsed.value, month);
      var low := DateFieldValue(version, strtotime, startDate);
      if low.Rejected? {
        return InvalidArgument(startDate);
      }
      var high := DateFieldValue(version, strtotime, DateText(endDate));
      if high.Rejected? {
        return InvalidArgument(DateText(endDate));
      }
      articleList := Filter(articleList, InRange(low, high));
      return DateRange(startDate, endDate);
    }

    /** `PaginatedArticles($num = 10)`: the current list, `num` to a page. */
    function PaginatedArticles(num: nat := DefaultArticlesPerPage): (r: PaginatedList<Article>)
      reads this
      ensures r.list == articleList && r.pageLength == num && r.getVar == DefaultPaginationVar
    {
      PaginatedList(articleList, num, DefaultPaginationVar)
    }
  }

  // ---------------------------------------------------------------------
  // A request: init, one action, then the template's PaginatedArticles
  // ---------------------------------------------------------------------

  /** The page of a request, or None where the action answered an HTTP error and nothing was rendered. */
  type Page = Option<PaginatedList<Article>>

  /**
   * `category/<ID>`: a category `byID` finds lists exactly the holder's
   * children tagged with it, newest first, ten to a page.
   */
  method ServeCategory(holderId: int, pages: seq<Article>, byId: RecordLookup, param: Option<string>, categories: set<int>)
    returns (page: Page)
    ensures page.Some? <==> byId(param, categories).Some?
    ensures page.Some? ==> page.value.pageLength == 10 && DescendingBy(page.value.list, DateKey)
    ensures page.Some? ==> forall a :: (a in page.value.list
              <==> a in pages && a.parentId == holderId && byId(param, categories).value in a.categoryIds)
  {
    var c := new ArticleHolderController(holderId, pages, byId);
    InitialListFacts(pages, holderId);
    var initial := c.articleList;
    var result := c.Category(param, categories);
    if result.HttpError? {
      return None;
    }
    forall a ensures a in c.articleList <==> a in pages && a.parentId == holderId && byId(param, categories).value in a.categoryIds {
      CategoryStepKeeps(initial, byId(param, categories).value, a);
    }
    page := Some(c.PaginatedArticles());
  }

  /**
   * `region/<ID>`: a region `byID` finds lists exactly the holder's
   * children in it, newest first, ten to a page.
   */
  method ServeRegion(holderId: int, pages: seq<Article>, byId: RecordLookup, param: Option<string>, regions: set<int>)
    returns (page: Page)
    ensures page.Some? <==> byId(param, regions).Some?
    ensures page.Some? ==> page.value.pageLength == 10 && DescendingBy(page.value.list, DateKey)
    ensures page.Some? ==> forall a :: (a in page.value.list
              <==> a in pages && a.parentId == holderId && a.regionId == byId(param, regions).value)
  {
    var c := new ArticleHolderController(holderId, pages, byId);
    InitialListFacts(pages, holderId);
    var initial := c.articleList;
    var result := c.Region(param, regions);
    if result.HttpError? {
      return None;
    }
    forall a ensures a in c.articleList <==> a in pages && a.parentId == holderId && a.regionId == byId(param, regions).value {
      RegionStepKeeps(initial, byId(param, regions).value, a);
    }
    page := Some(c.PaginatedArticles());
  }

  /**
   * `date/<year>/<month>` with digit parts: where strtotime reads the start
   * text and the 'Y-m-d' texts of the first of the month and of the next
   * month as those days, the page lists exactly the holder's children
   * dated in that month, newest first, ten to a page, in both versions.
   */
  method ServeMonth(holderId: int, pages: seq<Article>, byId: RecordLookup, year: string, month: string,
                    strtotime: DateParser, version: Version)
    returns (page: Page)
    requires ValidDates(pages)
    requires DigitRoute(year, Some(month)) && DigitsValue(year) < 32767
    requires ReadsRoute(strtotime, year, Some(month))
    ensures page.Some? && page.value.pageLength == 10 && DescendingBy(page.value.list, DateKey)
    ensures forall a :: a in page.value.list <==>
              (a in pages && a.parentId == holderId && a.date.year == DigitsValue(year) && a.date.month == DigitsValue(month))
  {
    var c := new ArticleHolderController(holderId, pages, byId);
    InitialListFacts(pages, holderId);
    var initial := c.articleList;
    assert ValidDates(initial);
    var result := c.DateAction(Some(year), Some(month), strtotime, version);
    PositiveDigitsTruthy(month);
    DateStepOfDigitRoute(initial, year, Some(month), strtotime, version);
    page := Some(c.PaginatedArticles());
  }
}
