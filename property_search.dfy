/**
 * The property search page (PropertySearchPageController): each request
 * variable that is PHP-truthy adds one filter to the list of all
 * properties, and the result is paginated 15 to a page.
 */
module PropertySearch {
  import opened Common
  import opened Dates
  import opened Records

  const NumPropertiesPerPage: nat := 15
  const PaginationVar: string := "s"
  const ResultsTemplate: string := "Includes/PropertySearchResults"

  /** The request variables the search reads. */
  const Keywords: string := "Keywords"
  const ArrivalDate: string := "ArrivalDate"
  const Nights: string := "Nights"
  const Bedrooms: string := "Bedrooms"
  const Bathrooms: string := "Bathrooms"
  const MinPrice: string := "MinPrice"
  const MaxPrice: string := "MaxPrice"

  /** The GET and POST variables of a request. */
  datatype Vars = Vars(getVars: map<string, string>, postVars: map<string, string>)

  /** An HTTP request: its variables and whether it came by XMLHttpRequest. */
  datatype Request = Request(vars: Vars, isAjax: bool)

  function GetVar(v: Vars, name: string): Option<string> {
    if name in v.getVars then Some(v.getVars[name]) else None
  }

  /** `requestVar`: a POST value wins over a GET value of the same name. */
  function RequestVar(v: Vars, name: string): Option<string> {
    if name in v.postVars then Some(v.postVars[name]) else GetVar(v, name)
  }

  // ---------------------------------------------------------------------
  // The criteria and how each one tests a property
  // ---------------------------------------------------------------------

  function Lower(c: char): char {
    if 'A' <= c <= 'Z' then (c as int + 32) as char else c
  }

  function Fold(s: string): string {
    seq(|s|, i requires 0 <= i < |s| => Lower(s[i]))
  }

  predicate MatchesAt(text: string, part: string, i: nat)
    requires i + |part| <= |text|
  {
    Fold(text[i..i + |part|]) == Fold(part)
  }

  /** The keywords occur in the title, ignoring the case of ASCII letters. */
  predicate ContainsIgnoringCase(text: string, part: string) {
    exists i: nat :: i + |part| <= |text| && MatchesAt(text, part, i)
  }

  /** One element of a LIKE pattern: `%`, `_`, or a character to compare. */
  datatype PatternItem = AnyRun | AnyOne | Literal(c: char)

  /**
   * How LIKE reads its pattern: `%` is any run of characters, `_` any one
   * character, and a backslash makes the character after it literal.
   */
  function Pattern(p: string): seq<PatternItem>
    decreases |p|
  {
    if p == [] then []
    else if p[0] == '%' then [AnyRun] + Pattern(p[1..])
    else if p[0] == '_' then [AnyOne] + Pattern(p[1..])
    else if p[0] == '\\' && |p| >= 2 then [Literal(p[1])] + Pattern(p[2..])
    else [Literal(p[0])] + Pattern(p[1..])
  }

  /** Whether the whole text matches the pattern, letters compared without case. */
  predicate MatchItems(text: string, items: seq<PatternItem>)
    decreases |items|, |text|
  {
    if items == [] then text == []
    else match items[0]
      case AnyRun => MatchItems(text, items[1..]) || (text != [] && MatchItems(text[1..], items))
      case AnyOne => text != [] && MatchItems(text[1..], items[1..])
      case Literal(c) => text != [] && Lower(text[0]) == Lower(c) && MatchItems(text[1..], items[1..])
  }

  predicate Like(text: string, pattern: string) {
    MatchItems(text, Pattern(pattern))
  }

  /** `Title:PartialMatch`: `Title LIKE '%<keywords>%'`, the keywords passed unescaped. */
  predicate PartialMatch(title: string, keywords: string) {
    Like(title, "%" + keywords + "%")
  }

  /** One `filter` call of the chain; numeric bounds are compared as numbers. */
  datatype Criterion =
    | TitleContains(keywords: string)
    | StayWithin(start: Date, end: Date)
    | MinBedrooms(bedrooms: real)
    | MinBathrooms(bathrooms: real)
    | MinPricePerNight(minPrice: real)
    | MaxPricePerNight(maxPrice: real)

  predicate Holds(c: Criterion, p: Property) {
    match c
    case TitleContains(k) => PartialMatch(p.title, k)
    case StayWithin(start, end) =>
      p.availableStart.Some? && AtOrBefore(p.availableStart.value, start) &&
      p.availableEnd.Some? && AtOrBefore(end, p.availableEnd.value)
    case MinBedrooms(b) => p.bedrooms as real >= b
    case MinBathrooms(b) => p.bathrooms as real >= b
    case MinPricePerNight(b) => p.pricePerNight as real >= b
    case MaxPricePerNight(b) => p.pricePerNight as real <= b
  }

  predicate AllHold(cs: seq<Criterion>, p: Property) {
    forall i :: 0 <= i < |cs| ==> Holds(cs[i], p)
  }

  function Test(c: Criterion): Property -> bool {
    p => Holds(c, p)
  }

  function AllTest(cs: seq<Criterion>): Property -> bool {
    p => AllHold(cs, p)
  }

  lemma AllHoldAppend(a: seq<Criterion>, b: seq<Criterion>, p: Property)
    ensures AllHold(a + b, p) <==> AllHold(a, p) && AllHold(b, p)
  {
    if AllHold(a, p) && AllHold(b, p) {
      forall i | 0 <= i < |a + b| ensures Holds((a + b)[i], p) {
        if i >= |a| {
          assert (a + b)[i] == b[i - |a|];
        }
      }
    }
    if AllHold(a + b, p) {
      forall i | 0 <= i < |a| ensures Holds(a[i], p) {
        assert (a + b)[i] == a[i];
      }
      forall i | 0 <= i < |b| ensures Holds(b[i], p) {
        assert (a + b)[i + |a|] == b[i];
      }
    }
  }

  lemma AllHoldSingle(c: Criterion, p: Property)
    ensures AllHold([c], p) <==> Holds(c, p)
  {
    assert [c][0] == c;
  }

  /** The filter chain: one `filter` per criterion, in order. */
  function ApplyCriteria(props: seq<Property>, cs: seq<Criterion>): seq<Property>
    decreases |cs|
  {
    if cs == [] then props
    else ApplyCriteria(Filter(props, Test(cs[0])), cs[1..])
  }

  /** A chain of filters keeps exactly the properties that pass every criterion. */
  lemma {:induction false} ApplyCriteriaIsConjunction(props: seq<Property>, cs: seq<Criterion>)
    ensures ApplyCriteria(props, cs) == Filter(props, AllTest(cs))
    decreases |cs|
  {
    if cs == [] {
      FilterAll(props, AllTest(cs));
    } else {
      var head, rest := Test(cs[0]), AllTest(cs[1..]);
      ApplyCriteriaIsConjunction(Filter(props, head), cs[1..]);
      FilterFilter(props, head, rest);
      forall p | p in props ensures (head(p) && rest(p)) <==> AllTest(cs)(p) {
        assert cs == [cs[0]] + cs[1..];
        AllHoldAppend([cs[0]], cs[1..], p);
      }
      FilterExt(props, And(head, rest), AllTest(cs));
    }
  }

  // ---------------------------------------------------------------------
  // filterQuery
  // ---------------------------------------------------------------------

  /** `(int) requestVar('Nights')`: an absent value casts to 0. */
  function NightsOf(r: Vars): int {
    match RequestVar(r, Nights)
    case None => 0
    case Some(s) => IntCast(s)
  }

  /** `date('Y-m-d', strtotime('+' . $nights . ' days', $arrivalStamp))`. */
  function StayEnd(start: ValidDate, nights: int): ValidDate {
    RelativeEnd(start, IntToString(nights))
  }

  /**
   * The stay ends that many days after the arrival when the count has at
   * most thirteen digits; otherwise strtotime fails and the end is 1970-01-01.
   */
  lemma {:induction false} StayEndMeaning(start: ValidDate, nights: int)
    ensures -(Pow10(13) as int) < nights < Pow10(13) ==> StayEnd(start, nights) == AddDays(start, nights)
    ensures (nights <= -(Pow10(13) as int) || Pow10(13) <= nights) ==> StayEnd(start, nights) == Epoch
  {
    RelativeDaysOfInt(nights);
  }

  /** The day strtotime reads from the arrival text; a failed parse is 1970-01-01. */
  function ArrivalDay(arrival: string, strtotime: DateParser): ValidDate {
    strtotime(arrival).GetOr(Epoch)
  }

  // One piece of the chain per request variable: empty when the variable is falsy.

  function KeywordsCriterion(r: Vars): seq<Criterion> {
    var keywords := RequestVar(r, Keywords);
    if Truthy(keywords) then [TitleContains(keywords.value)] else []
  }

  function StayCriterion(r: Vars, strtotime: DateParser): seq<Criterion> {
    var arrival := RequestVar(r, ArrivalDate);
    if Truthy(arrival) then
      var start := ArrivalDay(arrival.value, strtotime);
      [StayWithin(start, StayEnd(start, NightsOf(r)))]
    else []
  }

  function BedroomsCriterion(r: Vars): seq<Criterion> {
    var bedrooms := RequestVar(r, Bedrooms);
    if Truthy(bedrooms) then [MinBedrooms(IntCast(bedrooms.value) as real)] else []
  }

  function BathroomsCriterion(r: Vars): seq<Criterion> {
    var bathrooms := RequestVar(r, Bathrooms);
    if Truthy(bathrooms) then [MinBathrooms(IntCast(bathrooms.value) as real)] else []
  }

  function MinPriceCriterion(r: Vars): seq<Criterion> {
    var minPrice := RequestVar(r, MinPrice);
    if Truthy(minPrice) then [MinPricePerNight(IntCast(minPrice.value) as real)] else []
  }

  function MaxPriceCriterion(r: Vars): seq<Criterion> {
    var maxPrice := RequestVar(r, MaxPrice);
    if Truthy(maxPrice) then [MaxPricePerNight(IntCast(maxPrice.value) as real)] else []
  }

  /** The criteria of one request, in the order of the filter chain. */
  function SearchCriteria(r: Vars, strtotime: DateParser): seq<Criterion> {
    KeywordsCriterion(r) + StayCriterion(r, strtotime) + BedroomsCriterion(r)
    + BathroomsCriterion(r) + MinPriceCriterion(r) + MaxPriceCriterion(r)
  }

  /** `filterQuery`: all properties narrowed by the request's criteria, 15 to a page. */
  function FilterQuery(r: Request, all: seq<Property>, strtotime: DateParser): PaginatedList<Property> {
    PaginatedList(ApplyCriteria(all, SearchCriteria(r.vars, strtotime)), NumPropertiesPerPage, PaginationVar)
  }

  /** What `index` returns: the template data, or the results fragment for an AJAX request. */
  datatype SearchResponse =
    | Data(results: PaginatedList<Property>)
    | Rendered(template: string, results: PaginatedList<Property>)

  /** `index`: the same Results whether or not the request is AJAX. */
  function Index(r: Request, all: seq<Property>, strtotime: DateParser): (resp: SearchResponse)
    ensures resp.Rendered? <==> r.isAjax
    ensures resp.Rendered? ==> resp.template == ResultsTemplate
    ensures resp.results == FilterQuery(r.(isAjax := false), all, strtotime)
    ensures resp.results == FilterQuery(r.(isAjax := true), all, strtotime)
    ensures resp.results.pageLength == 15 && resp.results.getVar == "s"
  {
    var results := FilterQuery(r, all, strtotime);
    if r.isAjax then Rendered(ResultsTemplate, results) else Data(results)
  }

  // ---------------------------------------------------------------------
  // What a search keeps
  // ---------------------------------------------------------------------

  /** The stay test: availability starts by the arrival day and lasts to the end of the stay. */
  predicate AvailableFor(p: Property, start: Date, end: Date) {
    p.availableStart.Some? && p.availableEnd.Some? &&
    AtOrBefore(p.availableStart.value, start) && AtOrBefore(end, p.availableEnd.value)
  }

  /**
   * What a search asks of a property, stated on integers: each truthy
   * variable imposes its test and a falsy one imposes none.
   */
  predicate Wanted(r: Vars, strtotime: DateParser, p: Property) {
    var keywords := RequestVar(r, Keywords);
    var arrival := RequestVar(r, ArrivalDate);
    var bedrooms := RequestVar(r, Bedrooms);
    var bathrooms := RequestVar(r, Bathrooms);
    var minPrice := RequestVar(r, MinPrice);
    var maxPrice := RequestVar(r, MaxPrice);
    (Truthy(keywords) ==> PartialMatch(p.title, keywords.value)) &&
    (Truthy(arrival) ==>
       var start := ArrivalDay(arrival.value, strtotime);
       AvailableFor(p, start, StayEnd(start, NightsOf(r)))) &&
    (Truthy(bedrooms) ==> p.bedrooms >= IntCast(bedrooms.value)) &&
    (Truthy(bathrooms) ==> p.bathrooms >= IntCast(bathrooms.value)) &&
    (Truthy(minPrice) ==> p.pricePerNight >= IntCast(minPrice.value)) &&
    (Truthy(maxPrice) ==> p.pricePerNight <= IntCast(maxPrice.value))
  }

  // Each piece of the chain imposes its test exactly when its variable is truthy.

  lemma KeywordsPiece(r: Vars, p: Property)
    ensures var keywords := RequestVar(r, Keywords);
      AllHold(KeywordsCriterion(r), p) <==> (Truthy(keywords) ==> PartialMatch(p.title, keywords.value))
  {
    if Truthy(RequestVar(r, Keywords)) {
      AllHoldSingle(KeywordsCriterion(r)[0], p);
    }
  }

  lemma StayPiece(r: Vars, strtotime: DateParser, p: Property)
    ensures var arrival := RequestVar(r, ArrivalDate);
      AllHold(StayCriterion(r, strtotime), p) <==> (Truthy(arrival) ==>
        var start := ArrivalDay(arrival.value, strtotime);
        AvailableFor(p, start, StayEnd(start, NightsOf(r))))
  {
    if Truthy(RequestVar(r, ArrivalDate)) {
      AllHoldSingle(StayCriterion(r, strtotime)[0], p);
    }
  }

  lemma BedroomsPiece(r: Vars, p: Property)
    ensures var bedrooms := RequestVar(r, Bedrooms);
      AllHold(BedroomsCriterion(r), p) <==> (Truthy(bedrooms) ==> p.bedrooms >= IntCast(bedrooms.value))
  {
    if Truthy(RequestVar(r, Bedrooms)) {
      AllHoldSingle(BedroomsCriterion(r)[0], p);
    }
  }

  lemma BathroomsPiece(r: Vars, p: Property)
    ensures var bathrooms := RequestVar(r, Bathrooms);
      AllHold(BathroomsCriterion(r), p) <==> (Truthy(bathrooms) ==> p.bathrooms >= IntCast(bathrooms.value))
  {
    if Truthy(RequestVar(r, Bathrooms)) {
      AllHoldSingle(BathroomsCriterion(r)[0], p);
    }
  }

  lemma MinPricePiece(r: Vars, p: Property)
    ensures var minPrice := RequestVar(r, MinPrice);
      AllHold(MinPriceCriterion(r), p) <==> (Truthy(minPrice) ==> p.pricePerNight >= IntCast(minPrice.value))
  {
    if Truthy(RequestVar(r, MinPrice)) {
      AllHoldSingle(MinPriceCriterion(r)[0], p);
    }
  }

  lemma MaxPricePiece(r: Vars, p: Property)
    ensures var maxPrice := RequestVar(r, MaxPrice);
      AllHold(MaxPriceCriterion(r), p) <==> (Truthy(maxPrice) ==> p.pricePerNight <= IntCast(maxPrice.value))
  {
    if Truthy(RequestVar(r, MaxPrice)) {
      AllHoldSingle(MaxPriceCriterion(r)[0], p);
    }
  }

  lemma SearchCriteriaMeaning(r: Vars, strtotime: DateParser, p: Property)
    ensures AllHold(SearchCriteria(r, strtotime), p) <==> Wanted(r, strtotime, p)
  {
    var a, b, c := KeywordsCriterion(r), StayCriterion(r, strtotime), BedroomsCriterion(r);
    var d, e, f := BathroomsCriterion(r), MinPriceCriterion(r), MaxPriceCriterion(r);
    KeywordsPiece(r, p);
    StayPiece(r, strtotime, p);
    BedroomsPiece(r, p);
    BathroomsPiece(r, p);
    MinPricePiece(r, p);
    MaxPricePiece(r, p);
    AllHoldAppend(a, b, p);
    AllHoldAppend(a + b, c, p);
    AllHoldAppend(a + b + c, d, p);
    AllHoldAppend(a + b + c + d, e, p);
    AllHoldAppend(a + b + c + d + e, f, p);
  }

  /**
   * filterQuery keeps a property iff it is one of all the properties and
   * passes exactly the tests whose request variable is truthy; the order of
   * all properties is kept.
   */
  lemma FilterQueryKeeps(r: Request, all: seq<Property>, strtotime: DateParser, p: Property)
    ensures SubsequenceOf(FilterQuery(r, all, strtotime).list, all)
    ensures p in FilterQuery(r, all, strtotime).list <==> p in all && Wanted(r.vars, strtotime, p)
  {
    var cs := SearchCriteria(r.vars, strtotime);
    ApplyCriteriaIsConjunction(all, cs);
    FilterIsSubsequence(all, AllTest(cs));
    SearchCriteriaMeaning(r.vars, strtotime, p);
  }

  /** A request with no truthy search variable lists every property, in order. */
  lemma EmptySearchListsAll(r: Request, all: seq<Property>, strtotime: DateParser)
    requires !Truthy(RequestVar(r.vars, Keywords)) && !Truthy(RequestVar(r.vars, ArrivalDate))
    requires !Truthy(RequestVar(r.vars, Bedrooms)) && !Truthy(RequestVar(r.vars, Bathrooms))
    requires !Truthy(RequestVar(r.vars, MinPrice)) && !Truthy(RequestVar(r.vars, MaxPrice))
    ensures FilterQuery(r, all, strtotime).list == all
  {
    assert SearchCriteria(r.vars, strtotime) == [];
  }

  /** Keywords that occur in no title leave no result. */
  lemma UnmatchedKeywordsListNothing(r: Request, all: seq<Property>, strtotime: DateParser)
    requires Truthy(RequestVar(r.vars, Keywords))
    requires forall p :: p in all ==> !PartialMatch(p.title, RequestVar(r.vars, Keywords).value)
    ensures FilterQuery(r, all, strtotime).list == []
  {
    var list := FilterQuery(r, all, strtotime).list;
    if list != [] {
      FilterQueryKeeps(r, all, strtotime, list[0]);
      assert false;
    }
  }

  /**
   * A property available on a single day is not offered for an arrival on
   * that day with a stay of one night or more (and under 10^13 nights).
   */
  lemma {:induction false} OneDayTooShortForAStay(r: Request, all: seq<Property>, strtotime: DateParser, p: Property, day: Date)
    requires p.availableStart == Some(day) && p.availableEnd == Some(day)
    requires Truthy(RequestVar(r.vars, ArrivalDate))
    requires strtotime(RequestVar(r.vars, ArrivalDate).value).Some?
    requires strtotime(RequestVar(r.vars, ArrivalDate).value).value == day
    requires 0 < NightsOf(r.vars) < Pow10(13)
    ensures p !in FilterQuery(r, all, strtotime).list
  {
    FilterQueryKeeps(r, all, strtotime, p);
    var start := strtotime(RequestVar(r.vars, ArrivalDate).value).value;
    StayEndMeaning(start, NightsOf(r.vars));
    assert Before(day, AddDays(day, NightsOf(r.vars)));
  }

  /**
   * A count of 10^13 nights or more is past what strtotime reads: the stay
   * then ends on 1970-01-01, and a property available on the arrival day
   * alone passes the stay test.
   */
  lemma {:induction false} HugeStayPassesOneDay(r: Vars, strtotime: DateParser, p: Property, day: ValidDate)
    requires p.availableStart.Some? && p.availableStart.value == day
    requires p.availableEnd.Some? && p.availableEnd.value == day
    requires AtOrBefore(Epoch, day)
    requires Truthy(RequestVar(r, ArrivalDate))
    requires strtotime(RequestVar(r, ArrivalDate).value) == Some(day)
    requires NightsOf(r) >= Pow10(13)
    ensures AllHold(StayCriterion(r, strtotime), p)
  {
    StayEndMeaning(day, NightsOf(r));
    StayPiece(r, strtotime, p);
  }

  /** A property available for a stay is available for any shorter stay from the same day. */
  lemma {:induction false} ShorterStayStillAvailable(p: Property, start: ValidDate, n: nat, m: nat)
    requires n <= m < Pow10(13)
    requires AvailableFor(p, start, StayEnd(start, m))
    ensures AvailableFor(p, start, StayEnd(start, n))
  {
    StayEndMeaning(start, n);
    StayEndMeaning(start, m);
    AddDaysMonotone(start, n, m);
  }

  // ---------------------------------------------------------------------
  // What LIKE '%<keywords>%' matches
  // ---------------------------------------------------------------------

  /** The pattern items that compare the characters of `k` one by one. */
  function LiteralItems(k: string): (items: seq<PatternItem>)
    ensures |items| == |k|
  {
    seq(|k|, i requires 0 <= i < |k| => Literal(k[i]))
  }

  /** Keywords with no `%`, `_` or backslash. */
  predicate PlainKeywords(k: string) {
    forall i :: 0 <= i < |k| ==> k[i] != '%' && k[i] != '_' && k[i] != '\\'
  }

  lemma {:induction false} PatternOfPlain(k: string, tail: string)
    requires PlainKeywords(k)
    ensures Pattern(k + tail) == LiteralItems(k) + Pattern(tail)
    decreases |k|
  {
    if k != [] {
      assert (k + tail)[1..] == k[1..] + tail;
      PatternOfPlain(k[1..], tail);
      assert LiteralItems(k) == [Literal(k[0])] + LiteralItems(k[1..]);
    } else {
      assert k + tail == tail;
    }
  }

  /** The pattern of plain keywords: any run, the keywords literally, any run. */
  lemma {:induction false} PatternOfPlainKeywords(k: string)
    requires PlainKeywords(k)
    ensures Pattern("%" + k + "%") == [AnyRun] + LiteralItems(k) + [AnyRun]
  {
    var p := "%" + k + "%";
    assert p[1..] == k + "%";
    PatternOfPlain(k, "%");
    var q: string := "%";
    assert Pattern(q) == [AnyRun] by {
      assert q[1..] == [];
    }
  }

  /** A trailing run: the text starts with the literal characters. */
  lemma {:induction false} MatchLiteralsThenRun(t: string, k: string)
    ensures MatchItems(t, LiteralItems(k) + [AnyRun]) <==> |k| <= |t| && MatchesAt(t, k, 0)
    decreases |k|
  {
    var items := LiteralItems(k) + [AnyRun];
    if k == [] {
      assert items == [AnyRun];
      AnyRunMatchesAll(t);
      assert Fold(t[0..0]) == Fold(k);
    } else {
      assert items[1..] == LiteralItems(k[1..]) + [AnyRun];
      if t != [] {
        MatchLiteralsThenRun(t[1..], k[1..]);
        if |k| <= |t| {
          FoldCons(t[..|k|], k);
          assert t[0..|k|] == t[..|k|] && t[..|k|][1..] == t[1..][0..|k| - 1];
        }
      }
    }
  }

  /** A run alone matches any text. */
  lemma {:induction false} AnyRunMatchesAll(t: string)
    ensures MatchItems(t, [AnyRun])
    decreases |t|
  {
    assert [AnyRun][1..] == [];
    if t != [] {
      AnyRunMatchesAll(t[1..]);
    }
  }

  /** Two strings fold alike iff their first letters and their rests fold alike. */
  lemma {:induction false} FoldCons(a: string, b: string)
    requires |a| == |b| && a != []
    ensures Fold(a) == Fold(b) <==> Lower(a[0]) == Lower(b[0]) && Fold(a[1..]) == Fold(b[1..])
  {
    if Lower(a[0]) == Lower(b[0]) && Fold(a[1..]) == Fold(b[1..]) {
      forall i | 0 <= i < |a| ensures Fold(a)[i] == Fold(b)[i] {
        if i > 0 {
          assert Fold(a[1..])[i - 1] == Fold(b[1..])[i - 1];
        }
      }
    }
    if Fold(a) == Fold(b) {
      assert Fold(a)[0] == Fold(b)[0];
      forall i | 0 <= i < |a| - 1 ensures Fold(a[1..])[i] == Fold(b[1..])[i] {
        assert Fold(a)[i + 1] == Fold(b)[i + 1];
      }
    }
  }

  /** A leading run: the rest of the pattern matches some suffix. */
  lemma {:induction false} MatchRunThen(t: string, rest: seq<PatternItem>)
    ensures MatchItems(t, [AnyRun] + rest) <==> exists i :: 0 <= i <= |t| && MatchItems(t[i..], rest)
    decreases |t|
  {
    var items := [AnyRun] + rest;
    assert items[1..] == rest;
    assert t[0..] == t;
    if t != [] {
      MatchRunThen(t[1..], rest);
      if exists i :: 0 <= i <= |t| && MatchItems(t[i..], rest) {
        var i :| 0 <= i <= |t| && MatchItems(t[i..], rest);
        if i > 0 {
          assert t[1..][i - 1..] == t[i..];
        }
      }
      if MatchItems(t[1..], items) {
        var i :| 0 <= i <= |t| - 1 && MatchItems(t[1..][i..], rest);
        assert t[1..][i..] == t[i + 1..];
      }
    }
  }

  /** Any run, the keywords literally, any run: the keywords occur somewhere in the text. */
  lemma {:induction false} RunLiteralsRun(title: string, k: string)
    ensures MatchItems(title, [AnyRun] + (LiteralItems(k) + [AnyRun])) <==> ContainsIgnoringCase(title, k)
  {
    var rest := LiteralItems(k) + [AnyRun];
    MatchRunThen(title, rest);
    if MatchItems(title, [AnyRun] + rest) {
      var i :| 0 <= i <= |title| && MatchItems(title[i..], rest);
      MatchLiteralsThenRun(title[i..], k);
      assert title[i..][0..|k|] == title[i..i + |k|];
      assert MatchesAt(title, k, i);
    }
    if ContainsIgnoringCase(title, k) {
      var i: nat :| i + |k| <= |title| && MatchesAt(title, k, i);
      MatchLiteralsThenRun(title[i..], k);
      assert title[i..][0..|k|] == title[i..i + |k|];
      assert MatchItems(title[i..], rest);
    }
  }

  /** Keywords without wildcards or backslashes match as a substring, ignoring ASCII case. */
  lemma {:induction false} PlainKeywordsMatchSubstring(title: string, k: string)
    requires PlainKeywords(k)
    ensures PartialMatch(title, k) <==> ContainsIgnoringCase(title, k)
  {
    PatternOfPlainKeywords(k);
    assert [AnyRun] + LiteralItems(k) + [AnyRun] == [AnyRun] + (LiteralItems(k) + [AnyRun]);
    RunLiteralsRun(title, k);
  }

  /** The keyword "%" matches every title. */
  lemma {:induction false} PercentMatchesEverything(title: string)
    ensures PartialMatch(title, "%")
  {
    var p: string := "%%%";
    assert "%" + "%" + "%" == p;
    assert Pattern(p) == [AnyRun, AnyRun, AnyRun] by {
      assert p[1..] == "%%" && p[1..][1..] == "%" && p[1..][1..][1..] == [];
    }
    AnyRunMatchesAll(title);
    MatchRunThen(title, [AnyRun, AnyRun]);
    assert [AnyRun] + [AnyRun, AnyRun] == [AnyRun, AnyRun, AnyRun];
    MatchRunThen(title, [AnyRun]);
    assert [AnyRun] + [AnyRun] == [AnyRun, AnyRun];
    assert title[0..] == title;
  }

  /** The keyword "_" matches every title with at least one character. */
  lemma {:induction false} UnderscoreMatchesAnyTitle(title: string)
    ensures PartialMatch(title, "_") <==> title != []
  {
    var p: string := "%_%";
    assert "%" + "_" + "%" == p;
    assert Pattern(p) == [AnyRun, AnyOne, AnyRun] by {
      assert p[1..] == "_%" && p[1..][1..] == "%" && p[1..][1..][1..] == [];
    }
    var rest := [AnyOne, AnyRun];
    assert [AnyRun] + rest == [AnyRun, AnyOne, AnyRun];
    assert rest[1..] == [AnyRun];
    MatchRunThen(title, rest);
    if title != [] {
      AnyRunMatchesAll(title[1..]);
      assert title[0..] == title;
    } else {
      assert forall i :: 0 <= i <= |title| ==> title[i..] == [];
    }
  }

  /** The keyword "\%" matches the titles that contain a percent sign. */
  lemma {:induction false} EscapedPercentMatchesPercent(title: string)
    ensures PartialMatch(title, "\\%") <==> '%' in title
  {
    var p: string := "%\\%%";
    assert "%" + "\\%" + "%" == p;
    var k: string := "%";
    assert Pattern(p) == [AnyRun] + LiteralItems(k) + [AnyRun] by {
      assert p[1..] == "\\%%" && p[1..][2..] == "%" && p[1..][2..][1..] == [];
      assert LiteralItems(k) == [Literal('%')];
    }
    assert [AnyRun] + LiteralItems(k) + [AnyRun] == [AnyRun] + (LiteralItems(k) + [AnyRun]);
    RunLiteralsRun(title, k);
    if ContainsIgnoringCase(title, k) {
      var i: nat :| i + 1 <= |title| && MatchesAt(title, k, i);
      assert Fold(title[i..i + 1])[0] == Fold(k)[0];
      assert title[i] == '%';
    }
    if '%' in title {
      var i :| 0 <= i < |title| && title[i] == '%';
      assert Fold(title[i..i + 1]) == Fold(k);
      assert MatchesAt(title, k, i);
    }
  }

}
