# One Ring Rentals: a Dafny model of the site's decision rules

One Ring Rentals is a SilverStripe holiday-rental site. This project models the rules it applies beneath the framework glue:

- the property search filter chain, in both the SilverStripe 4 controller and the older SilverStripe 3 page, together with the search form's option lists;
- the article holder's browsing actions (`init`, `category`, `region`, `date`, `PaginatedArticles`), the record lookup `byID` of SilverStripe 4 and of SilverStripe 3, and the month archive of both versions, including the versioned tables the older one reads;
- comment handling on an article page: the form, the duplicate rule, the notification of earlier commenters, and the session cache;
- the home page's capped listings of featured properties and latest articles;
- the GraphQL endpoint's Basic-auth applicability check, its authentication outcome, and the `readProperties` resolver;
- the two blog extensions that narrow a list of posts to the featured ones.

How the framework is represented:

- An ORM `DataList` is a Dafny `seq` of records.
- `filter`, `sort` and `limit` are order-preserving sequence functions, defined in `Common`.
- PHP truthiness of a request variable is `Common.Truthy`: absent, `""` and `"0"` are falsy.
- Controllers whose fields the actions overwrite are classes whose methods are proved against specification functions. These are the article list of the article-holder controller, and the session, comment table, outbox and message of the article page. The two versions of the article-holder controller differ in `byID` and in how their Date field reads the `date` action's filter values (`Dates.DateFieldValue`), so one class serves both, given the lookup and the version as parameters.
- `PropertySearchForm` and `ArchiveDates` fill their lists in loops, so they are methods with loop invariants.
- The pure rules are functions with lemmas.

Modules, one per component:

- `Common`: helpers;
- `Dates`: the calendar;
- `Records`: the entities;
- `PropertySearch`, `LegacyPropertySearch` and `SearchForm`;
- `ArticleBrowse`, `Archive` and `LegacyArticleHolder`;
- `Comments`;
- `HomePage`;
- `GraphQL`;
- `Blog`.

## Model

| member | source | states |
|---|---|---|
| PropertySearch.ApplyCriteriaIsConjunction | mysite/code/Controllers/PropertySearchPageController.php:111-152 | a chain of filter calls keeps exactly the properties that pass every criterion: it equals one filter by their conjunction, in the original order |
| PropertySearch.KeywordsPiece | mysite/code/Controllers/PropertySearchPageController.php:112-116 | a truthy Keywords value requires the title to match LIKE '%<keywords>%', the keywords unescaped, so `%` and `_` in them are wildcards and a backslash escapes; letter case is ignored; a falsy value imposes nothing |
| PropertySearch.StayPiece | mysite/code/Controllers/PropertySearchPageController.php:118-128 | a truthy ArrivalDate requires AvailableStart on or before the arrival day and AvailableEnd on or after the end strtotime gives for "+<(int) Nights> days"; a falsy one imposes nothing |
| PropertySearch.BedroomsPiece | mysite/code/Controllers/PropertySearchPageController.php:130-134 | a truthy Bedrooms value requires Bedrooms >= its (int) cast, which reads a sign, digits, a fraction and an exponent; the threshold is inclusive, not an exact match |
| PropertySearch.BathroomsPiece | mysite/code/Controllers/PropertySearchPageController.php:136-140 | a truthy Bathrooms value requires Bathrooms >= its (int) cast |
| PropertySearch.MinPricePiece | mysite/code/Controllers/PropertySearchPageController.php:142-146 | a truthy MinPrice requires PricePerNight >= its (int) cast, inclusive |
| PropertySearch.MaxPricePiece | mysite/code/Controllers/PropertySearchPageController.php:148-152 | a truthy MaxPrice requires PricePerNight <= its (int) cast, inclusive, independently of MinPrice |
| PropertySearch.SearchCriteriaMeaning | mysite/code/Controllers/PropertySearchPageController.php:111-152 | a property passes the request's criteria iff it passes exactly the tests whose request variable is truthy |
| PropertySearch.FilterQueryKeeps | mysite/code/Controllers/PropertySearchPageController.php:109-161 | filterQuery's list is a subsequence of all properties and holds a property iff it is stored and wanted by the request |
| PropertySearch.Index | mysite/code/Controllers/PropertySearchPageController.php:31-45 | the result is rendered with Includes/PropertySearchResults iff the request is AJAX; the Results are the same either way and are paginated 15 to a page with cursor variable "s" |
| PropertySearch.EmptySearchListsAll | mysite/code/Controllers/PropertySearchPageController.php:111-152 | with no truthy search variable, every property is listed in order |
| PropertySearch.UnmatchedKeywordsListNothing | mysite/code/Controllers/PropertySearchPageController.php:112-116 | keywords that occur in no title give an empty list, not an error |
| PropertySearch.OneDayTooShortForAStay | mysite/code/Controllers/PropertySearchPageController.php:118-128 | a property available on a single day is not offered for a stay of 1 to 10^13 - 1 nights from that day |
| PropertySearch.ShorterStayStillAvailable | mysite/code/Controllers/PropertySearchPageController.php:118-128 | below 10^13 nights, a property that passes the stay test for m nights passes it for any n <= m nights from the same day |
| PropertySearch.StayEndMeaning | mysite/code/Controllers/PropertySearchPageController.php:120-122 | the stay ends (int) Nights days after the arrival when the count has at most 13 digits; beyond that strtotime fails and the end is 1970-01-01 |
| PropertySearch.HugeStayPassesOneDay | mysite/code/Controllers/PropertySearchPageController.php:118-128 | with 10^13 nights or more the end is 1970-01-01, so a property available on the arrival day alone passes the stay test |
| PropertySearch.PlainKeywordsMatchSubstring | mysite/code/Controllers/PropertySearchPageController.php:112-116 | keywords without `%`, `_` or a backslash match iff they occur in the title, ignoring letter case |
| PropertySearch.PercentMatchesEverything | mysite/code/Controllers/PropertySearchPageController.php:112-116 | the keywords "%" match every title |
| PropertySearch.UnderscoreMatchesAnyTitle | mysite/code/Controllers/PropertySearchPageController.php:112-116 | the keywords "_" match every non-empty title |
| PropertySearch.EscapedPercentMatchesPercent | mysite/code/Controllers/PropertySearchPageController.php:112-116 | the keywords "\%" match exactly the titles that contain a percent sign |
| SearchForm.NightOptions | mysite/code/Controllers/PropertySearchPageController.php:52-55 | the loop yields keys 1..14 in order, each labelled "N night", plus "s" for N > 1 |
| SearchForm.PriceOptions | mysite/code/Controllers/PropertySearchPageController.php:57-60 | the loop yields keys 100, 150, ..., 1000 in order, each labelled "$N" |
| SearchForm.RoomOptions | mysite/code/Controllers/PropertySearchPageController.php:76-81 | five entries; entry k has key k + 1 and the one-digit label k + 1 |
| SearchForm.PropertySearchForm | mysite/code/Controllers/PropertySearchPageController.php:62-100 | the seven fields in order, with their names, titles, sources and "-- any --" empty entries; each is loaded from the GET variable of its own name |
| SearchForm.NightLabelPlural | mysite/code/PropertySearchPage.php:77-79 | a nights label ends in "s" iff it is for more than one night |
| SearchForm.PriceKeysAreSteps | mysite/code/PropertySearchPage.php:81-84 | the price keys are exactly the multiples of 50 from 100 to 1000 |
| SearchForm.NightsOptionSubmitted | mysite/code/Controllers/PropertySearchPageController.php:120 | submitting the k-th nights entry makes the (int) Nights cast k + 1 |
| SearchForm.MinPriceOptionSubmitted | mysite/code/Controllers/PropertySearchPageController.php:142-146 | submitting a price entry as MinPrice sets exactly that lower bound |
| SearchForm.MaxPriceOptionSubmitted | mysite/code/Controllers/PropertySearchPageController.php:148-152 | submitting a price entry as MaxPrice sets exactly that upper bound |
| SearchForm.AnyPriceSetsNoBound | mysite/code/Controllers/PropertySearchPageController.php:82-88 | the "-- any --" entry submits "", which sets no price bound |
| LegacyPropertySearch.LegacyIndex | mysite/code/PropertySearchPage.php:56-71 | the result is rendered with PropertySearchResults iff the request is AJAX; the Results are the same either way and are paginated 15 to a page with cursor "s" |
| LegacyPropertySearch.LegacyKeywordsPiece | mysite/code/PropertySearchPage.php:14-18 | a truthy Keywords GET variable requires the title to match LIKE '%<keywords>%', with `%` and `_` as wildcards and letter case ignored |
| LegacyPropertySearch.LegacyStayPiece | mysite/code/PropertySearchPage.php:20-30 | a truthy ArrivalDate requires availability from the arrival day to the end that strtotime gives "+<raw Nights> days" |
| LegacyPropertySearch.LegacyBedroomsPiece | mysite/code/PropertySearchPage.php:32-36 | a truthy Bedrooms value requires Bedrooms >= the database's reading of the raw text: sign, digits, fraction and exponent |
| LegacyPropertySearch.LegacyBathroomsPiece | mysite/code/PropertySearchPage.php:38-42 | a truthy Bathrooms value requires Bathrooms >= the decimal reading of the raw text |
| LegacyPropertySearch.LegacyMinPricePiece | mysite/code/PropertySearchPage.php:44-48 | a truthy MinPrice requires PricePerNight >= the database's reading of the value the Currency column's setValue makes of the text |
| LegacyPropertySearch.LegacyMaxPricePiece | mysite/code/PropertySearchPage.php:50-54 | a truthy MaxPrice requires PricePerNight <= the database's reading of the value the Currency column's setValue makes of the text |
| LegacyPropertySearch.NumericPriceKept | mysite/code/PropertySearchPage.php:44-54 | setValue keeps a numeric price text as it is, so the database reads the text itself |
| LegacyPropertySearch.DollarPrice | mysite/code/PropertySearchPage.php:44-54 | "$<digits>" compares with the digits' value: setValue drops the dollar sign |
| LegacyPropertySearch.GroupedPrice | mysite/code/PropertySearchPage.php:44-54 | "<a>,<b>" compares with the value of the digits a b: setValue drops the thousands separator, so "1,000" is 1000, not 1 |
| LegacyPropertySearch.TextBeforePrice | mysite/code/PropertySearchPage.php:44-54 | text that can hold no amount before the digits is skipped: "abc150" compares with 150 |
| LegacyPropertySearch.NoAmountIsZero | mysite/code/PropertySearchPage.php:44-54 | a text with no digit, point, comma or exponent letter holds no amount and compares with 0 |
| LegacyPropertySearch.LegacyCriteriaMeaning | mysite/code/PropertySearchPage.php:14-54 | a property passes the six legacy criteria, in their order, iff it passes exactly the tests of the truthy GET variables |
| LegacyPropertySearch.LegacyResultsKeep | mysite/code/PropertySearchPage.php:12-60 | the Results list is a subsequence of all properties and holds a property iff it is stored and wanted |
| LegacyPropertySearch.LegacyIgnoresPost | mysite/code/PropertySearchPage.php:14-54 | POST variables play no part: only GET variables are read |
| LegacyPropertySearch.LegacyAgreesOnPlainNumbers | mysite/code/PropertySearchPage.php:14-54 | on GET requests whose numeric values are plain digits, the legacy page applies the same criteria as the new controller |
| LegacyPropertySearch.IntCastTruncatesSqlNumber | mysite/code/PropertySearchPage.php:32-54 | the (int) cast of a text is the database's decimal reading of it, truncated toward zero |
| LegacyPropertySearch.SqlNumberOfDigits | mysite/code/PropertySearchPage.php:32-54 | on a plain run of digits the database reading and the (int) cast agree |
| LegacyPropertySearch.PlainNightsAgree | mysite/code/PropertySearchPage.php:20-30 | a Nights value of 1 to 13 digits gives the legacy page and the new controller the same stay test |
| Dates.RelativeDaysOfDigits | mysite/code/PropertySearchPage.php:22-24 | a Nights text of 1 to 13 digits spliced into "+N days" reads back as that count; a longer one is unreadable |
| Dates.RelativeDaysOfNegative | mysite/code/PropertySearchPage.php:22-24 | a minus sign before the digits negates the count, within the same 13-digit limit |
| Dates.RelativeDaysOfInt | mysite/code/Controllers/PropertySearchPageController.php:120-122 | "+" . (int) Nights . " days" reads back as the integer iff it has at most 13 digits |
| Dates.RelativeDaysOfNothing | mysite/code/PropertySearchPage.php:22-24 | without Nights the adder "+ days" is unreadable to strtotime |
| Common.DigitsReading | mysite/code/Controllers/PropertySearchPageController.php:130-134 | a plain run of digits is read as its value by the (int) cast and by the database |
| Common.FractionReading | mysite/code/PropertySearchPage.php:44-48 | the database reads "w.f" with its fraction, whereas the (int) cast keeps only w |
| Common.ExponentReading | mysite/code/Controllers/PropertySearchPageController.php:130-134 | the (int) cast and the database both read "w e x" as w times 10^x |
| Common.DigitsThenText | mysite/code/Controllers/ArticleHolderController.php:29-31 | digits followed by text that starts no fraction or exponent read as the digits alone ("3abc" is 3) |
| Common.HalfReadings | mysite/code/PropertySearchPage.php:44-48 | the database reads "w.5" as w + 0.5, the (int) cast as w |
| LegacyPropertySearch.FractionalMinPriceDiffers | mysite/code/PropertySearchPage.php:44-48 | a MinPrice of "w.5" lets a property priced w through the new controller's test, but the legacy page drops it |
| LegacyPropertySearch.MissingNightsEndsAtEpoch | mysite/code/PropertySearchPage.php:22-24 | without Nights the legacy stay end is 1970-01-01, while the new controller ends the stay on the arrival day |
| Dates.AddDays | mysite/code/Controllers/PropertySearchPageController.php:120-122 | "+N days" gives a valid date, later for N > 0, earlier for N < 0, and the same date for N = 0 |
| Dates.AddOneMonthFromFirst | mysite/code/Controllers/ArticleHolderController.php:80-84 | "+1 month" from the first of a month is the first of the next month, rolling over the year after December |
| Dates.MonthInterval | mysite/code/Controllers/ArticleHolderController.php:86-89 | the half-open interval [Y-M-01, +1 month) holds exactly the days of month M of year Y |
| Dates.YearInterval | mysite/code/Controllers/ArticleHolderController.php:86-89 | the half-open interval [Y-01-01, +1 year) holds exactly the days of year Y |
| Dates.YearMonthStringInjective | mysite/code/Model/ArticleHolder.php:68-71 | equal '%Y%m' texts mean the same year and month |
| Dates.DBDateOfDigitParts | mysite/code/Controllers/ArticleHolderController.php:86-88 | in SilverStripe 4, a filter text of three digit groups with a year of 1000 to 32767 and a real month and day is read as strtotime reads its 'Y-m-d' form; where strtotime cannot, setValue throws |
| Dates.DBDateOfDateText | mysite/code/Controllers/ArticleHolderController.php:81-88 | in SilverStripe 4, the 'Y-m-d' end text of a year from 1000 to 32767 is read as strtotime reads it |
| Dates.DBDateRejectsEarlyYear | mysite/code/Controllers/ArticleHolderController.php:74-88 | in SilverStripe 4, a start text whose year has one to three digits (not 0) makes setValue throw |
| Dates.DBDateRejectsLetters | mysite/code/Controllers/ArticleHolderController.php:74-88 | in SilverStripe 4, a start text whose month does not start with a digit ("2017-mar-01") makes setValue throw |
| Dates.LegacyDateOfText | mysite/code/ArticleHolder.php:142-145 | in SilverStripe 3, a text that is not numeric, has a character other than a digit or '/' and does not end in a newline is read as strtotime reads it, and as NULL where strtotime cannot |
| ArticleBrowse.InitialListFacts | mysite/code/Controllers/ArticleHolderController.php:22-24 | the initial list holds exactly the holder's children, once per row, ordered by Date descending |
| ArticleBrowse.RouteRecord | mysite/code/Controllers/ArticleHolderController.php:29-31 | byID finds the stored record whose ID equals the database's numeric reading of the parameter, and finds it whenever it exists; without a parameter it finds nothing |
| ArticleBrowse.RouteRecordReadsLeadingDigits | mysite/code/Controllers/ArticleHolderController.php:29-31 | a parameter of digits followed by other text ("3abc") finds the record those digits number, if stored |
| ArticleBrowse.RouteRecordOfLink | mysite/code/Controllers/ArticleHolderController.php:48-50 | the link "<ID>" of a stored record finds that record |
| ArticleBrowse.CategoryStep | mysite/code/Controllers/ArticleHolderController.php:27-44 | when byID finds no category the step answers 404 'That category was not found' and leaves the list as it was; otherwise it selects the category found and the list only shrinks |
| ArticleBrowse.RegionStep | mysite/code/Controllers/ArticleHolderController.php:46-63 | when byID finds no region the step answers 404 'That region was not found' and leaves the list as it was; otherwise it selects the region found and the list only shrinks |
| ArticleBrowse.CategoryStepKeeps | mysite/code/Controllers/ArticleHolderController.php:37-39 | a known category keeps exactly the listed articles tagged with it, in order |
| ArticleBrowse.RegionStepKeeps | mysite/code/Controllers/ArticleHolderController.php:56-58 | a known region keeps exactly the listed articles of that region, in order |
| ArticleBrowse.DateStep | mysite/code/Controllers/ArticleHolderController.php:65-96 | a falsy year answers 404; a start text strtotime rejects answers 404 'Invalid date'; in both cases the list is unchanged. Where the Date field's setValue throws on the start text or on the end's 'Y-m-d' text, the action fails with that text and the list is unchanged. Otherwise the answer carries the start text and the end strtotime computes, and the list only shrinks |
| ArticleBrowse.DateStepOfReadings | mysite/code/Controllers/ArticleHolderController.php:74-89 | where the Date field reads the start text and the end's text as days, the answer is that range and the list keeps exactly the listed articles from the first day up to the second, in order |
| ArticleBrowse.StartReading | mysite/code/Controllers/ArticleHolderController.php:74-88 | on a route of digits (a year of 1000 to 32767, a month 1 to 12 or none) both versions read the start text as the first of the route's month, wherever strtotime reads the text and its 'Y-m-d' form as that day |
| ArticleBrowse.EndReading | mysite/code/Controllers/ArticleHolderController.php:80-88 | both versions read the 'Y-m-d' end text of a year from 1000 to 32767 as the day strtotime reads it as |
| ArticleBrowse.DigitTextReading | mysite/code/Controllers/ArticleHolderController.php:86-88 | both versions read three digit groups with a year of 1000 to 32767 as the day strtotime reads them as, where strtotime reads the text and its 'Y-m-d' form alike |
| ArticleBrowse.DigitRouteRange | mysite/code/Controllers/ArticleHolderController.php:74-89 | on a route of digits that strtotime reads, the answer is the range from the start text to the next month's (or year's) first, and the list is filtered by that interval |
| ArticleBrowse.RouteInterval | mysite/code/Controllers/ArticleHolderController.php:80-89 | the interval of a route of digits holds exactly the days of its month, or of its year without a month |
| ArticleBrowse.DateStepOfDigitRoute | mysite/code/Controllers/ArticleHolderController.php:65-96 | on a route of digits that strtotime reads, in both versions, the end is the first of the next month (or year) and the list keeps exactly the articles dated in the route's month (or year) |
| ArticleBrowse.DateStepMonthName | mysite/code/Controllers/ArticleHolderController.php:74-89 | "/date/<year>/<month name>" that strtotime reads: in SilverStripe 4 the Date field throws on the start text and the action fails with it, the list unchanged |
| ArticleBrowse.DateStepEarlyYear | mysite/code/Controllers/ArticleHolderController.php:74-89 | a year of one to three digits (not 0) that strtotime reads: in SilverStripe 4 the action fails with the start text, the list unchanged |
| ArticleBrowse.DateStepEndIsFirst | mysite/code/Controllers/ArticleHolderController.php:80-84 | whenever strtotime reads the start text as a first of a month, the end date is a first of a month too |
| ArticleBrowse.InitialListNarrowed | mysite/code/Controllers/ArticleHolderController.php:18-25 | the list init builds satisfies the controller's invariant: it is drawn from that list, holds only the holder's children, and is newest first |
| ArticleBrowse.CategoryStepNarrowed | mysite/code/Controllers/ArticleHolderController.php:27-44 | the category action keeps the invariant, whatever it answers |
| ArticleBrowse.RegionStepNarrowed | mysite/code/Controllers/ArticleHolderController.php:46-63 | the region action keeps the invariant, whatever it answers |
| ArticleBrowse.DateStepNarrowed | mysite/code/Controllers/ArticleHolderController.php:65-96 | the date action keeps the invariant, whatever it answers |
| ArticleBrowse.ArticleHolderController.constructor | mysite/code/Controllers/ArticleHolderController.php:18-25 | init sets the article list to the holder's children by Date descending, and keeps the record lookup its actions use |
| ArticleBrowse.ArticleHolderController.Category | mysite/code/Controllers/ArticleHolderController.php:27-44 | the answer and the new article list are those of the category step on the old list, with the record the lookup finds; the invariant is kept |
| ArticleBrowse.ArticleHolderController.Region | mysite/code/Controllers/ArticleHolderController.php:46-63 | the answer and the new article list are those of the region step on the old list, with the record the lookup finds; the invariant is kept |
| ArticleBrowse.ArticleHolderController.DateAction | mysite/code/Controllers/ArticleHolderController.php:65-96 | the answer and the new article list are those of the date step on the old list, with the Date field's readings of the start and end texts in the given version, failing where setValue throws; the invariant is kept |
| ArticleBrowse.ServeCategory | mysite/code/Controllers/ArticleHolderController.php:18-105 | init, category and PaginatedArticles(): a page iff byID finds the category; it lists exactly the holder's children tagged with it, newest first, ten to a page |
| ArticleBrowse.ServeRegion | mysite/code/Controllers/ArticleHolderController.php:46-63 | init, region and PaginatedArticles(): a page iff byID finds the region; it lists exactly the holder's children in it, newest first, ten to a page |
| ArticleBrowse.ServeMonth | mysite/code/Controllers/ArticleHolderController.php:65-105 | init, date and PaginatedArticles() for a digit year (1000 to 32766) and month that strtotime reads, in either version: the page lists exactly the holder's children dated in that month, newest first, ten to a page |
| Archive.SortedPages | mysite/code/Model/ArticleHolder.php:52-55 | the query's input reordered by Date ascending: a permutation of the rows |
| Archive.ArchiveRowsCover | mysite/code/Model/ArticleHolder.php:51-55 | every month that has an article, whichever holder it belongs to, has a row |
| Archive.ArchiveRowsFromArticles | mysite/code/Model/ArticleHolder.php:51-55 | every row is the '%Y_%M_%m' text of some article's date |
| Archive.ArchiveRowsAscending | mysite/code/Model/ArticleHolder.php:51-55 | the distinct rows come in strictly ascending month order, so each month appears once |
| Archive.ExplodeDateString | mysite/code/Model/ArticleHolder.php:61 | explode('_') gives back the year, the month name and the two-digit month number |
| Archive.BucketList | mysite/code/Model/ArticleHolder.php:60-73 | the while loop pushes one bucket per row, in the rows' order |
| Archive.ArchiveDates | mysite/code/Model/ArticleHolder.php:47-77 | the list holds one bucket per distinct month row, in ascending order |
| Archive.BucketOfDate | mysite/code/Model/ArticleHolder.php:61-71 | a bucket's Year, MonthName and MonthNumber are the date's parts, its Link is "date/<Year>/<MonthNumber>", and its ArticleCount is the number of this holder's articles in that month |
| Archive.ForeignMonthCountsZero | mysite/code/Model/ArticleHolder.php:53-70 | a month in which only other holders have articles still gets a bucket, with count 0 |
| Archive.BucketCountIsDateListing | mysite/code/Model/ArticleHolder.php:67-71 | in either version, a bucket's count equals the length of the list its link shows through the date action, where strtotime reads the link's start text and the 'Y-m-d' texts of the month's first and the next month's first as those days |
| Archive.MonthLinkListing | mysite/code/Model/ArticleHolder.php:69 | the date action on a bucket's link filters the list from the month's first day up to the next month's first |
| Archive.RegionsLinksResolve | mysite/code/Model/Region.php:75-82 | every stored region Regions lists is found by the region action through its ArticlesLink "region/<ID>", which then keeps exactly that region's articles |
| LegacyArticleHolder.ArchiveTableExistsOnlyLive | mysite/code/ArticleHolder.php:37-41 | the table "ArticlePage_<current stage>" the query reads exists on the live site only; on the draft site it is ArticlePage_Stage, while the draft table is ArticlePage |
| LegacyArticleHolder.LegacyArchiveDates | mysite/code/ArticleHolder.php:35-65 | on the draft site the query names a missing table and nothing is listed; on the live site, one bucket per distinct month of ArticlePage_Live, with the same split and link, and counts taken in the live rows |
| LegacyArticleHolder.StageArchiveDates | mysite/code/ArticleHolder.php:35-65 | reading the current stage's own table, the archive answers on both sites, with buckets and counts from the same rows |
| LegacyArticleHolder.LegacyBucketCountPositive | mysite/code/ArticleHolder.php:48-60 | with buckets and counts from the same rows, a bucket's count is positive iff this holder has an article in that month |
| LegacyArticleHolder.LegacyRouteRecord | mysite/code/ArticleHolder.php:89-91 | SilverStripe 3 byID finds the stored record whose ID is the (int) cast of the parameter; a missing parameter casts to 0 |
| LegacyArticleHolder.RouteLookupsAgreeOnLinks | mysite/code/ArticleHolder.php:89-91 | on the links the site prints, "<ID>", both versions of byID find the same record |
| LegacyArticleHolder.LegacyMonthNameListsItsMonth | mysite/code/ArticleHolder.php:124-152 | in SilverStripe 3, "/date/<year>/<month name>" that strtotime reads as the first of month M lists exactly the articles of month M, where SilverStripe 4 fails (DateStepMonthName) |
| LegacyArticleHolder.MonthNameRange | mysite/code/ArticleHolder.php:130-145 | in SilverStripe 3, a month-name route filters from the first of month M up to the first of the next month |
| LegacyArticleHolder.MonthNameStart | mysite/code/ArticleHolder.php:130-145 | SilverStripe 3 reads a month-name start text as strtotime reads it |
| LegacyArticleHolder.FractionalRouteIdDiffers | mysite/code/ArticleHolder.php:89-91 | a fractional ID "w.5": SilverStripe 3 finds record w, SilverStripe 4 finds none |
| LegacyArticleHolder.LegacyServeCategory | mysite/code/ArticleHolder.php:80-104 | category/<ID> on the SilverStripe 3 site: a page iff the (int) cast names a stored category; it lists exactly the holder's children tagged with it, newest first, ten to a page |
| LegacyArticleHolder.LegacyServeRegion | mysite/code/ArticleHolder.php:106-122 | region/<ID>: a page iff the (int) cast names a stored region; it lists exactly the holder's children in it, newest first, ten to a page |
| Comments.CommentFormOf | mysite/code/Controllers/ArticlePageController.php:19-45 | the form is named CommentForm and has the three fields with "*" placeholders; its required list is the one written, Name, the Email class name and Comment; the session's cached data is loaded iff present |
| Comments.EmailNotRequiredAsWritten | mysite/code/Controllers/ArticlePageController.php:34 | with Email::class in the required list, an empty email passes validation, where requiring "Email" rejects it |
| Comments.RequiredFieldsMeaning | mysite/code/Controllers/ArticlePageController.php:34 | with the three field names required, validation demands Name, Email and Comment all filled in, and a well-formed email |
| Comments.StrLen | mysite/code/Controllers/ArticlePageController.php:54 | strlen counts UTF-8 bytes: between one and four per character |
| Comments.StrLenAscii | mysite/code/Controllers/ArticlePageController.php:54 | on ASCII text strlen counts characters |
| Comments.NewTextAccepted | mysite/code/Controllers/ArticlePageController.php:51-54 | a text that no comment on the page has is never turned away |
| Comments.ShortDuplicateAccepted | mysite/code/Controllers/ArticlePageController.php:54 | a duplicate of at most 20 bytes is accepted |
| Comments.LongAsciiDuplicateRejected | mysite/code/Controllers/ArticlePageController.php:51-58 | an ASCII duplicate of more than 20 characters is turned away |
| Comments.SevenEuroSignsRejected | mysite/code/Controllers/ArticlePageController.php:54 | the limit counts bytes: a duplicate of seven euro signs, 21 bytes, is turned away |
| Comments.RejectedByFilter | mysite/code/Controllers/ArticlePageController.php:51-54 | the filter-and-exists test finds exactly the rejected submissions |
| Comments.EmailMapFacts | mysite/code/Controllers/ArticlePageController.php:79 | map("Email") read as an array holds each address once, with the name of its last comment |
| Comments.EmailMapKeys | mysite/code/Controllers/ArticlePageController.php:79 | the array's keys are exactly the commenters' addresses |
| Comments.EmailMapMoreThanOne | mysite/code/Controllers/ArticlePageController.php:79-82 | the array has more than one key iff two comments come from different addresses |
| Comments.NotificationsFacts | mysite/code/Controllers/ArticlePageController.php:76-100 | under the intended rule, emails go out iff there is more than one distinct earlier address; then each address gets exactly one, from admin@one-ring-rentals.com with the fixed subject and template, naming its latest author |
| Comments.OneAddressSendsNothing | mysite/code/Controllers/ArticlePageController.php:78-82 | under the intended rule (distinct addresses, more than one), comments from a single address send nothing |
| Comments.RepeatCommenterEmailedTwice | mysite/code/Controllers/ArticlePageController.php:79-83 | with the framework's Map, two comments from one address send that address two emails; one email per distinct address sends none |
| Comments.OneAddressEmailedPerComment | mysite/code/Controllers/ArticlePageController.php:79-83 | as written, two or more comments from a single address send it one email per comment, each naming that comment's author |
| Comments.PerCommentAgreesOnDistinctAddresses | mysite/code/Controllers/ArticlePageController.php:79-83 | where no two earlier comments share an address, the loop as written sends exactly the intended notifications |
| Comments.PerCommentSentToCommenters | mysite/code/Controllers/ArticlePageController.php:83-97 | every email the loop as written sends goes from the site's address to an author of one of the page's comments |
| Comments.NotificationsSentToCommenters | mysite/code/Controllers/ArticlePageController.php:83-97 | every notification goes from the site's address to an author of one of the page's comments |
| Comments.ArticlePageController.constructor | mysite/code/Controllers/ArticlePageController.php:13-17 | the controller starts with the given session and comments, an empty outbox and no message |
| Comments.ArticlePageController.Form | mysite/code/Controllers/ArticlePageController.php:42-44 | the form loads the session's cached data iff there is any |
| Comments.ArticlePageController.NotifyOfNewComment | mysite/code/Controllers/ArticlePageController.php:76-100 | with more than one earlier comment, the loop appends one email per comment to the outbox, to its address and naming its author, and changes nothing else |
| Comments.ArticlePageController.HandleComment | mysite/code/Controllers/ArticlePageController.php:48-71 | the data is cached in the session first. A rejected submission writes nothing, keeps the cache and sets the 'bad' duplicate message. An accepted one first sends the per-comment emails for the prior comments, then writes exactly one comment for this page, clears the cache and sets 'good' |
| Comments.FirstCommentsSendNothing | mysite/code/Controllers/ArticlePageController.php:60-65 | the first comment on a page, and the second, send no email, under the loop as written and under the intended rule alike |
| HomePage.FeaturedProperties | mysite/code/Controllers/HomePageController.php:32-39 | at most six properties, each a stored property featured on the home page |
| HomePage.FeaturedPropertiesFacts | mysite/code/Controllers/HomePageController.php:8-39 | the listing is a subsequence of all properties: exactly six when there are at least six featured ones, otherwise all featured ones |
| HomePage.NoFeaturedNoListing | mysite/code/Controllers/HomePageController.php:34-38 | with nothing featured, nothing is listed |
| HomePage.LatestArticles | mysite/code/Controllers/HomePageController.php:20-25 | the length is min(count, number of articles); a count of 0 sets no limit |
| HomePage.LatestArticlesFacts | mysite/code/Controllers/HomePageController.php:20-25 | ordered by Created descending, drawn from all articles of any holder, and no article left out is newer than one shown |
| HomePage.LatestArticlesDefault | mysite/code/HomePage.php:9-13 | the count defaults to 3 |
| HomePage.NewestThreeOfFour | mysite/code/Controllers/HomePageController.php:13-25 | of four articles with distinct creation times, the default listing shows three and leaves out the oldest |
| GraphQL.BasicSchemeMatches | mysite/code/GraphQL/OneRingAuthenticator.php:73 | "Basic <credentials>" matches /Basic\s+(.*)$/i when the credentials are on one line |
| GraphQL.MatchesAfterAnyPrefix | mysite/code/GraphQL/OneRingAuthenticator.php:73 | the match is not anchored: any text before the scheme keeps it matching |
| GraphQL.NoSpaceNoMatch | mysite/code/GraphQL/OneRingAuthenticator.php:73 | "basic" not followed by whitespace does not match |
| GraphQL.NoLetterCNoMatch | mysite/code/GraphQL/OneRingAuthenticator.php:73 | a value without "c" or "C" cannot match |
| GraphQL.DevAlwaysApplicable | mysite/code/GraphQL/OneRingAuthenticator.php:50-52 | in development mode the authenticator applies whatever the headers |
| GraphQL.BasicHeaderApplicable | mysite/code/GraphQL/OneRingAuthenticator.php:54-58 | an HTTP_AUTHORIZATION of "Basic <credentials>" makes it apply |
| GraphQL.RedirectHeaderApplicable | mysite/code/GraphQL/OneRingAuthenticator.php:54-58 | so does REDIRECT_HTTP_AUTHORIZATION, with any prefix before the scheme |
| GraphQL.BearerAndUserAloneNotApplicable | mysite/code/GraphQL/OneRingAuthenticator.php:48-63 | a "Bearer x" header with a user name and no password does not apply |
| GraphQL.CredentialsNeedBoth | mysite/code/GraphQL/OneRingAuthenticator.php:59-62 | without a Basic header it applies iff PHP_AUTH_USER and PHP_AUTH_PW are both set |
| GraphQL.Authenticate | mysite/code/GraphQL/OneRingAuthenticator.php:27-40 | the default admin iff in development mode; any validation error has code 401 |
| GraphQL.FailedLoginIs401 | mysite/code/GraphQL/OneRingAuthenticator.php:33-39 | outside development mode, a refused login becomes a 401 validation error carrying the response body, and a successful one returns the member |
| GraphQL.Resolve | mysite/code/GraphQL/ReadPropertiesQueryCreator.php:34-51 | without view permission the call is refused with 'Property view access not permitted'; otherwise it returns all properties, or, when ID is set, exactly those whose ID is the given one |
| GraphQL.ResolveReadsDeclaredArgs | mysite/code/GraphQL/ReadPropertiesQueryCreator.php:22-27 | resolve reads only the arguments the schema declares (readProperties, one Int argument ID): calls whose arguments agree on them resolve alike |
| GraphQL.ResolveUsesDeclaredArg | mysite/code/GraphQL/ReadPropertiesQueryCreator.php:46-48 | the declared argument ID narrows the list to that ID; a null or missing ID lists everything |
| GraphQL.ResolveById | mysite/code/GraphQL/ReadPropertiesQueryCreator.php:46-48 | with unique IDs, an ID lists at most one property, and exactly one when it exists |
| Blog.FeaturedBlogPosts | mysite/code/BlogExtension.php:8-24 | a post is listed iff it is a featured child of the blog and, when the route names a Category, is filed under a category with that URL segment |
| Blog.FeaturedBlogPostsOrder | mysite/code/BlogExtension.php:12-21 | the listing keeps the posts' order |
| Blog.CategoryCoveringAllChangesNothing | mysite/code/BlogExtension.php:16-21 | a Category that every featured post of the blog is filed under leaves the listing as it is |
| Blog.FeaturedViewFacts | mysite/code/BlogExtension.php:36-38 | a truthy filter keeps exactly the featured posts, in order; a falsy one leaves the list unchanged |
| Blog.FeaturedViewIdempotent | mysite/code/BlogExtension.php:36-38 | applying the featured view twice is the same as applying it once |
| Blog.AllFeaturedUnchanged | mysite/code/BlogCategoryExtension.php:19-21 | a list of featured posts only is left as it is |
| Blog.UpdateGetBlogPosts | mysite/code/BlogExtension.php:31-39 | the by-reference list becomes its featured view under the request's `featured` variable |
| Blog.BlogFeatured | mysite/code/BlogExtension.php:46-54 | the flag is true or null, never false |
| Blog.BlogFeaturedMatchesView | mysite/code/BlogExtension.php:34-53 | the flag is true iff `featured` is present and neither "" nor "0", which is exactly when the hook narrows the list to featured posts |
| Blog.CategoryUpdateGetBlogPosts | mysite/code/BlogCategoryExtension.php:10-24 | the list is unchanged without a current controller or without a request; otherwise it becomes its featured view, which narrows only for a non-empty `featured` |
## Left out

- The ORM's SQL generation is not modelled: filters are sequence predicates, and a sort over equal keys keeps the table order.
- `DATE_FORMAT` is modelled only for the English month names and the DATE column's range of years 1000 to 9999.
- Comments.Rejected: compares comment texts exactly. The database's collation, which may ignore letter case and trailing spaces, is not modelled.
- PropertySearch.KeywordsPiece: letters are folded for ASCII only. The column collation's folding of accents and of non-ASCII case is not modelled.
- LegacyPropertySearch.LegacyKeywordsPiece: the same ASCII-only folding as KeywordsPiece.
- Common.IntCast: reads a sign, digits, a fraction and an exponent exactly. PHP's float rounding of long mantissas and its saturation at the 64-bit integer range are not modelled; neither is the older reading of PHP before 7.1, which ignores exponents.
- Common.SqlNumber: the database's reading is an exact decimal; its double-precision rounding is not modelled.
- The strtotime date grammar is not modelled. Callers pass a `DateParser` function that returns the parsed day, or nothing where strtotime returns false. A failed parse formats as 1970-01-01.
- Dates.RelativeDays: "+<Nights> days" is read only as optional signs and blanks, 1 to 13 digits and blanks. Any other Nights text counts as unreadable.
- PropertySearch.OneDayTooShortForAStay: stated for fewer than 10^13 nights only, because beyond that strtotime fails and the end is 1970-01-01, which HugeStayPassesOneDay states.
- PropertySearch.ShorterStayStillAvailable: stated for fewer than 10^13 nights only, for the same reason.
- The framework's field classes are not part of this model's sources. `Dates.DBDateValue` (SilverStripe 4's `DBDate::setValue`), `Dates.LegacyDateValue` (SilverStripe 3's `Date::setValue`) and `LegacyPropertySearch.CurrencyValue` (`Currency::setValue`) follow those classes' published behaviour. The date pattern's `\d` is read as the ASCII digits.
- Dates.LegacyDateValue: in SilverStripe 3 a text the `DateTime` constructor rejects leaves the field's value false. The model reads that as NULL, which no row passes; how the query builder quotes false is not modelled. `DateTime` is assumed to read a text as strtotime does.
- Dates.TimestampDay: a numeric filter text is a Unix timestamp, read in UTC. The server's time zone is not modelled.
- ArticleBrowse.DateStep: the exception setValue throws is the answer `InvalidArgument`. How the framework turns it into an error page is not modelled.
- ArticleBrowse.DateStep: the `StartDate` and `EndDate` template values, which `DBField::create_field('SS_DateTime', ...)` makes of the two texts, are the texts themselves. Their formatting is not modelled.
- ArticleBrowse.ServeMonth: stated for years 1000 to 32766 only. Earlier years throw in SilverStripe 4 (DateStepEarlyYear), and the December route of 32767 ends in 32768, past what `DBDate` accepts.
- PropertySearch.StayPiece: the arrival and stay-end texts also pass through `DBDate::setValue`. Where strtotime gives a day before the year 1000 or after 32767, SilverStripe 4 throws instead of comparing; that case is not modelled.
- Blog.FeaturedBlogPosts: the URLSegment comparison is exact. The column collation, which ignores letter case, is not modelled.
- Prices and room counts are integers. The readings of the request texts are exact decimals.
- PaginatedList paging is not modelled: the offset and the page slices are left out. A paginated list is its full list, its page length and its offset variable.
- Template rendering is not modelled: `customise(...)->renderWith(...)` is reduced to the template's name and the data.
- Session storage is a map, sent email is an outbox sequence, and the form's session message is a field. `redirectBack` is left out.
- The EmailField format check is a parameter of `Comments.Validates`.
- The read-then-insert race in the duplicate check is left out, because it is a matter of concurrency.
- `canView`, `BasicAuth::requireLogin` and `DefaultAdminService` are inputs. Their decisions are parameters: `canView`, the login outcome, and the development-mode flag.
- A failing archive query on the draft site is an absent list (`None`). How the framework reports the missing table to the visitor is not modelled.
- The legacy controller's `date` action and `PaginatedArticles` (mysite/code/ArticleHolder.php:124-160) are those of `ArticleBrowse.ArticleHolderController`, used with the legacy lookup and the version `SilverStripe3`.
- The legacy `ArticleHolder::Regions` (mysite/code/ArticleHolder.php:27-33) is the same function as `Archive.Regions`.
- Blog.UpdateGetBlogPosts: takes the current controller's request as given. In BlogExtension a missing controller is a fatal error, which is not modelled.
- Array-valued GET variables (`featured[]=1`) are not modelled: `featured` in Blog.FeaturedViewFacts, Blog.UpdateGetBlogPosts and Blog.CategoryUpdateGetBlogPosts is a string or absent.
- HomePage.LatestArticles: the count is a natural number. A negative count is not modelled; the ORM refuses one.
- The GraphQL type registration (`type()`), the CMS field builders, asset registration and the `show` actions are not modelled. They hold no decision rule.

## Findings

| source | as written | input that shows it | evidently intended | confidence | as-written member | corrected member |
|---|---|---|---|---|---|---|
| mysite/code/Controllers/ArticlePageController.php:34 | `RequiredFields::create('Name', Email::class, 'Comment')` names the class `SilverStripe\Control\Email\Email`, not the field `Email`, so RequiredFields skips it | Name "Ann", Email "", Comment "Nice place" passes validation | Name, Email and Comment are all required | medium, not executed | Comments.EmailNotRequiredAsWritten | Comments.RequiredFieldsMeaning |
| mysite/code/Controllers/ArticlePageController.php:79-83 | `map("Email")->count()` counts comments and `foreach` visits one pair per comment | two earlier comments from a@x.com: the test `count() > 1` passes and a@x.com gets two emails | one email per distinct address, and only when there is more than one address, as the comment at line 78 says | medium, not executed | Comments.RepeatCommenterEmailedTwice | Comments.NotificationsFacts |
| mysite/code/ArticleHolder.php:37-41 | `setFrom("ArticlePage_{$stage}")` with `$stage = Versioned::current_stage()` | viewing the archive on the draft site: the stage is "Stage" and the query names ArticlePage_Stage, which is no table | read the current stage's table: ArticlePage on the draft site, ArticlePage_Live on the live site | medium, not executed | LegacyArticleHolder.ArchiveTableExistsOnlyLive | LegacyArticleHolder.StageArchiveDates |
