/**
 * The SilverStripe 3 property search (PropertySearchPage_Controller::index).
 * It reads GET variables only and splices the raw Nights text into the
 * relative date "+<Nights> days". A filter value passes through its
 * column's field before it reaches the database: the Int fields Bedrooms
 * and Bathrooms keep the raw text, the Currency field PricePerNight
 * rewrites a text that is not numeric (`Currency::setValue`). The database
 * compares a number column with a string by reading the string as a
 * decimal number.
 */
module LegacyPropertySearch {
  import opened Common
  import opened Dates
  import opened Records
  import opened PropertySearch

  /** The template the AJAX branch renders. */
  const LegacyResultsTemplate: string := "PropertySearchResults"

  /** Whether the text, after its leading white space, starts with a minus sign. */
  predicate NegativeText(s: string) {
    var t := SkipSpace(s);
    t != [] && t[0] == '-'
  }

  /** PHP's (int) cast is the database's reading of the same text, truncated toward zero. */
  lemma IntCastTruncatesSqlNumber(s: string)
    ensures !NegativeText(s) ==> IntCast(s) as real <= SqlNumber(s) < IntCast(s) as real + 1.0
    ensures NegativeText(s) ==> IntCast(s) as real - 1.0 < SqlNumber(s) <= IntCast(s) as real
  {
    assert NumericPrefix(s).negative == NegativeText(s);
    TruncateBounds(NumericPrefix(s));
  }

  /** On a plain string of digits the two readings agree. */
  lemma SqlNumberOfDigits(s: string)
    requires AllDigits(s)
    ensures SqlNumber(s) == IntCast(s) as real
  {
    DigitsReading(s);
  }

  // ---------------------------------------------------------------------
  // The Currency field's reading of a filter value
  // ---------------------------------------------------------------------

  predicate IsAmountChar(c: char) { IsDigit(c) || c == ',' }

  /** The length of the run of digits and commas at the head of `s`. */
  function RunLength(s: string): (n: nat)
    ensures n <= |s|
  {
    if s != [] && IsAmountChar(s[0]) then 1 + RunLength(s[1..]) else 0
  }

  /** The length of `.[0-9]+` at the head of `s`, or 0 (`.` is any character but a newline). */
  function FractionLength(s: string): (n: nat)
    ensures n <= |s|
  {
    if |s| >= 2 && s[0] != '\n' && IsDigit(s[1]) then 1 + |LeadingDigits(s[1..])| else 0
  }

  /** The length of `[Ee][0-9]+` at the head of `s`, or 0. */
  function ExponentLength(s: string): (n: nat)
    ensures n <= |s|
  {
    if |s| >= 2 && (s[0] == 'e' || s[0] == 'E') && IsDigit(s[1]) then 1 + |LeadingDigits(s[1..])| else 0
  }

  /**
   * The length of the match of Currency's pattern
   * `-?\$?[0-9,]+(.[0-9]+)?([Ee][0-9]+)?` that starts at the head of `s`,
   * or 0 when the pattern does not match there.
   */
  function AmountLength(s: string): (n: nat)
    ensures n <= |s|
  {
    var sign := if s != [] && s[0] == '-' then 1 else 0;
    var dollar := if |s| > sign && s[sign] == '$' then 1 else 0;
    var run := RunLength(s[sign + dollar..]);
    if run == 0 then 0
    else
      var k := sign + dollar + run;
      var fraction := FractionLength(s[k..]);
      k + fraction + ExponentLength(s[k + fraction..])
  }

  /** `preg_match`'s match: the leftmost place the pattern matches at. */
  function FirstAmount(s: string): Option<string> {
    if s == [] then None
    else if AmountLength(s) > 0 then Some(s[..AmountLength(s)])
    else FirstAmount(s[1..])
  }

  /** The text with every '$' and ',' removed. */
  function WithoutSymbols(s: string): string {
    if s == [] then []
    else (if s[0] == '$' || s[0] == ',' then [] else [s[0]]) + WithoutSymbols(s[1..])
  }

  /**
   * `Currency::setValue`: a numeric text is kept as it is; any other text
   * becomes its first amount without '$' and ',', or 0 when it has none.
   */
  function CurrencyValue(s: string): string {
    if IsNumeric(s) then s
    else
      match FirstAmount(s)
      case Some(amount) => WithoutSymbols(amount)
      case None => "0"
  }

  /** What the database compares PricePerNight with, for a price variable's text. */
  function PriceBound(s: string): real {
    SqlNumber(CurrencyValue(s))
  }

  lemma {:induction false} WithoutSymbolsOfDigits(ds: string)
    requires AllDigits(ds)
    ensures WithoutSymbols(ds) == ds
  {
    if ds != [] {
      WithoutSymbolsOfDigits(ds[1..]);
      assert ds == [ds[0]] + ds[1..];
    }
  }

  lemma {:induction false} RunOfAmountChars(s: string)
    requires forall i :: 0 <= i < |s| ==> IsAmountChar(s[i])
    ensures RunLength(s) == |s|
  {
    if s != [] {
      RunOfAmountChars(s[1..]);
    }
  }

  /**
   * A text made of an optional dollar sign and then digits and commas to
   * its end is one whole amount.
   */
  lemma WholeAmount(s: string, dollar: nat)
    requires dollar <= 1 && dollar < |s| && s[0] != '-'
    requires dollar == 1 <==> s[0] == '$'
    requires forall i :: dollar <= i < |s| ==> IsAmountChar(s[i])
    ensures AmountLength(s) == |s| && FirstAmount(s) == Some(s)
  {
    RunOfAmountChars(s[dollar..]);
    assert s[|s|..] == [];
    assert s[..|s|] == s;
  }

  /** A numeric text is what the database compares with. */
  lemma NumericPriceKept(s: string)
    requires IsNumeric(s)
    ensures PriceBound(s) == SqlNumber(s)
  {
  }

  /** "$<digits>": the dollar sign is dropped ("$150" is 150). */
  lemma DollarPrice(ds: string)
    requires AllDigits(ds) && ds != []
    ensures PriceBound("$" + ds) == DigitsValue(ds) as real
  {
    var s := "$" + ds;
    assert s[1..] == ds;
    NoDigitAtHeadNotNumeric(s);
    WholeAmount(s, 1);
    assert WithoutSymbols(s) == WithoutSymbols(ds);
    WithoutSymbolsOfDigits(ds);
    DigitsReading(ds);
  }

  /** "<a>,<b>": the thousands separator is dropped ("1,000" is 1000, not 1). */
  lemma GroupedPrice(a: string, b: string)
    requires AllDigits(a) && a != [] && AllDigits(b) && b != []
    ensures AllDigits(a + b)
    ensures PriceBound(a + "," + b) == DigitsValue(a + b) as real
  {
    GroupedCurrency(a, b);
    AllDigitsAppend(a, b);
    DigitsReading(a + b);
  }

  /** `Currency::setValue` keeps the digits of "<a>,<b>" without the comma. */
  lemma GroupedCurrency(a: string, b: string)
    requires AllDigits(a) && a != [] && AllDigits(b) && b != []
    ensures CurrencyValue(a + "," + b) == a + b
  {
    var s := a + ("," + b);
    assert s == a + "," + b;
    DigitsThenTextNotNumeric(a, "," + b);
    assert forall i :: 0 <= i < |s| ==> IsAmountChar(s[i]) by {
      forall i | 0 <= i < |s| ensures IsAmountChar(s[i]) {
        if i >= |a| + 1 {
          assert s[i] == b[i - |a| - 1];
        }
      }
    }
    WholeAmount(s, 0);
    GroupedWithoutSymbols(a, b);
  }

  lemma {:induction false} GroupedWithoutSymbols(a: string, b: string)
    requires AllDigits(a) && AllDigits(b)
    ensures WithoutSymbols(a + ("," + b)) == a + b
  {
    if a == [] {
      assert a + ("," + b) == "," + b && ("," + b)[1..] == b;
      WithoutSymbolsOfDigits(b);
    } else {
      assert (a + ("," + b))[1..] == a[1..] + ("," + b);
      GroupedWithoutSymbols(a[1..], b);
      assert a + b == [a[0]] + (a[1..] + b);
    }
  }

  /** Characters that cannot start or extend an amount. */
  predicate NoAmountChar(c: char) {
    !IsAmountChar(c) && c != '-' && c != '$'
  }

  /** Text that cannot hold an amount is skipped: "abc150" is 150. */
  lemma TextBeforePrice(pre: string, ds: string)
    requires pre != [] && !IsPhpSpace(pre[0]) && pre[0] != '+' && pre[0] != '.'
    requires forall i :: 0 <= i < |pre| ==> NoAmountChar(pre[i])
    requires AllDigits(ds) && ds != []
    ensures PriceBound(pre + ds) == DigitsValue(ds) as real
  {
    var s := pre + ds;
    assert s[0] == pre[0];
    NoDigitAtHeadNotNumeric(s);
    SkipToAmount(pre, ds);
    WithoutSymbolsOfDigits(ds);
    DigitsReading(ds);
  }

  lemma {:induction false} SkipToAmount(pre: string, ds: string)
    requires forall i :: 0 <= i < |pre| ==> NoAmountChar(pre[i])
    requires AllDigits(ds) && ds != []
    ensures FirstAmount(pre + ds) == Some(ds)
  {
    if pre == [] {
      assert pre + ds == ds;
      WholeAmount(ds, 0);
    } else {
      var s := pre + ds;
      assert s[0] == pre[0] && s[1..] == pre[1..] + ds;
      assert AmountLength(s) == 0;
      SkipToAmount(pre[1..], ds);
    }
  }

  /** A text without an amount compares with 0. */
  lemma NoAmountIsZero(s: string)
    requires forall i :: 0 <= i < |s| ==> !IsAmountChar(s[i])
    ensures PriceBound(s) == 0.0
  {
    NoDigitNotNumeric(s);
    NoAmountAnywhere(s);
    DigitsReading("0");
  }

  lemma {:induction false} NoAmountAnywhere(s: string)
    requires forall i :: 0 <= i < |s| ==> !IsAmountChar(s[i])
    ensures FirstAmount(s) == None
  {
    if s != [] {
      var sign := if s[0] == '-' then 1 else 0;
      var dollar := if |s| > sign && s[sign] == '$' then 1 else 0;
      var t := s[sign + dollar..];
      assert t == [] || !IsAmountChar(t[0]);
      assert AmountLength(s) == 0;
      NoAmountAnywhere(s[1..]);
    }
  }

  // ---------------------------------------------------------------------
  // index
  // ---------------------------------------------------------------------

  function LegacyKeywordsCriterion(v: Vars): seq<Criterion> {
    var keywords := GetVar(v, Keywords);
    if Truthy(keywords) then [TitleContains(keywords.value)] else []
  }

  function LegacyStayCriterion(v: Vars, strtotime: DateParser): seq<Criterion> {
    var arrival := GetVar(v, ArrivalDate);
    if Truthy(arrival) then
      var start := ArrivalDay(arrival.value, strtotime);
      [StayWithin(start, RelativeEnd(start, GetVar(v, Nights).GetOr("")))]
    else []
  }

  function LegacyBedroomsCriterion(v: Vars): seq<Criterion> {
    var bedrooms := GetVar(v, Bedrooms);
    if Truthy(bedrooms) then [MinBedrooms(SqlNumber(bedrooms.value))] else []
  }

  function LegacyBathroomsCriterion(v: Vars): seq<Criterion> {
    var bathrooms := GetVar(v, Bathrooms);
    if Truthy(bathrooms) then [MinBathrooms(SqlNumber(bathrooms.value))] else []
  }

  function LegacyMinPriceCriterion(v: Vars): seq<Criterion> {
    var minPrice := GetVar(v, MinPrice);
    if Truthy(minPrice) then [MinPricePerNight(PriceBound(minPrice.value))] else []
  }

  function LegacyMaxPriceCriterion(v: Vars): seq<Criterion> {
    var maxPrice := GetVar(v, MaxPrice);
    if Truthy(maxPrice) then [MaxPricePerNight(PriceBound(maxPrice.value))] else []
  }

  /** The criteria of one request, in the order of the filter chain. */
  function LegacyCriteria(v: Vars, strtotime: DateParser): seq<Criterion> {
    LegacyKeywordsCriterion(v) + LegacyStayCriterion(v, strtotime) + LegacyBedroomsCriterion(v)
    + LegacyBathroomsCriterion(v) + LegacyMinPriceCriterion(v) + LegacyMaxPriceCriterion(v)
  }

  /** The Results list: the filtered properties, 15 to a page, offset in `s`. */
  function LegacyResults(r: Request, all: seq<Property>, strtotime: DateParser): PaginatedList<Property> {
    PaginatedList(ApplyCriteria(all, LegacyCriteria(r.vars, strtotime)), NumPropertiesPerPage, PaginationVar)
  }

  /** `index`: the same Results whether or not the request is AJAX. */
  function LegacyIndex(r: Request, all: seq<Property>, strtotime: DateParser): (resp: SearchResponse)
    ensures resp.Rendered? <==> r.isAjax
    ensures resp.Rendered? ==> resp.template == LegacyResultsTemplate
    ensures resp.results == LegacyResults(r.(isAjax := false), all, strtotime)
    ensures resp.results == LegacyResults(r.(isAjax := true), all, strtotime)
    ensures resp.results.pageLength == 15 && resp.results.getVar == "s"
  {
    var results := LegacyResults(r, all, strtotime);
    if r.isAjax then Rendered(LegacyResultsTemplate, results) else Data(results)
  }

  // ---------------------------------------------------------------------
  // What a legacy search keeps
  // ---------------------------------------------------------------------

  /** What a legacy search asks of a property, with the numeric texts read as decimals. */
  predicate LegacyWanted(v: Vars, strtotime: DateParser, p: Property) {
    var keywords := GetVar(v, Keywords);
    var arrival := GetVar(v, ArrivalDate);
    var bedrooms := GetVar(v, Bedrooms);
    var bathrooms := GetVar(v, Bathrooms);
    var minPrice := GetVar(v, MinPrice);
    var maxPrice := GetVar(v, MaxPrice);
    (Truthy(keywords) ==> PartialMatch(p.title, keywords.value)) &&
    (Truthy(arrival) ==>
       var start := ArrivalDay(arrival.value, strtotime);
       AvailableFor(p, start, RelativeEnd(start, GetVar(v, Nights).GetOr("")))) &&
    (Truthy(bedrooms) ==> p.bedrooms as real >= SqlNumber(bedrooms.value)) &&
    (Truthy(bathrooms) ==> p.bathrooms as real >= SqlNumber(bathrooms.value)) &&
    (Truthy(minPrice) ==> p.pricePerNight as real >= PriceBound(minPrice.value)) &&
    (Truthy(maxPrice) ==> p.pricePerNight as real <= PriceBound(maxPrice.value))
  }

  // Each piece of the chain imposes its test exactly when its variable is truthy.

  lemma LegacyKeywordsPiece(v: Vars, p: Property)
    ensures var keywords := GetVar(v, Keywords);
      AllHold(LegacyKeywordsCriterion(v), p) <==> (Truthy(keywords) ==> PartialMatch(p.title, keywords.value))
  {
    if Truthy(GetVar(v, Keywords)) {
      AllHoldSingle(LegacyKeywordsCriterion(v)[0], p);
    }
  }

  lemma LegacyStayPiece(v: Vars, strtotime: DateParser, p: Property)
    ensures var arrival := GetVar(v, ArrivalDate);
      AllHold(LegacyStayCriterion(v, strtotime), p) <==> (Truthy(arrival) ==>
        var start := ArrivalDay(arrival.value, strtotime);
        AvailableFor(p, start, RelativeEnd(start, GetVar(v, Nights).GetOr(""))))
  {
    if Truthy(GetVar(v, ArrivalDate)) {
      AllHoldSingle(LegacyStayCriterion(v, strtotime)[0], p);
    }
  }

  lemma LegacyBedroomsPiece(v: Vars, p: Property)
    ensures var bedrooms := GetVar(v, Bedrooms);
      AllHold(LegacyBedroomsCriterion(v), p) <==> (Truthy(bedrooms) ==> p.bedrooms as real >= SqlNumber(bedrooms.value))
  {
    if Truthy(GetVar(v, Bedrooms)) {
      AllHoldSingle(LegacyBedroomsCriterion(v)[0], p);
    }
  }

  lemma LegacyBathroomsPiece(v: Vars, p: Property)
    ensures var bathrooms := GetVar(v, Bathrooms);
      AllHold(LegacyBathroomsCriterion(v), p) <==> (Truthy(bathrooms) ==> p.bathrooms as real >= SqlNumber(bathrooms.value))
  {
    if Truthy(GetVar(v, Bathrooms)) {
      AllHoldSingle(LegacyBathroomsCriterion(v)[0], p);
    }
  }

  /** A price criterion that is present imposes its bound, and an absent one nothing. */
  lemma MinPriceShape(cs: seq<Criterion>, present: bool, b: real, p: Property)
    requires cs == if present then [MinPricePerNight(b)] else []
    ensures AllHold(cs, p) <==> (present ==> p.pricePerNight as real >= b)
  {
    if present {
      AllHoldSingle(MinPricePerNight(b), p);
    }
  }

  lemma MaxPriceShape(cs: seq<Criterion>, present: bool, b: real, p: Property)
    requires cs == if present then [MaxPricePerNight(b)] else []
    ensures AllHold(cs, p) <==> (present ==> p.pricePerNight as real <= b)
  {
    if present {
      AllHoldSingle(MaxPricePerNight(b), p);
    }
  }

  lemma LegacyMinPricePiece(v: Vars, p: Property)
    ensures var minPrice := GetVar(v, MinPrice);
      AllHold(LegacyMinPriceCriterion(v), p) <==> (Truthy(minPrice) ==> p.pricePerNight as real >= PriceBound(minPrice.value))
  {
    var price := GetVar(v, MinPrice);
    if Truthy(price) {
      MinPriceShape(LegacyMinPriceCriterion(v), true, PriceBound(price.value), p);
    } else {
      MinPriceShape(LegacyMinPriceCriterion(v), false, 0.0, p);
    }
  }

  lemma LegacyMaxPricePiece(v: Vars, p: Property)
    ensures var maxPrice := GetVar(v, MaxPrice);
      AllHold(LegacyMaxPriceCriterion(v), p) <==> (Truthy(maxPrice) ==> p.pricePerNight as real <= PriceBound(maxPrice.value))
  {
    var price := GetVar(v, MaxPrice);
    if Truthy(price) {
      MaxPriceShape(LegacyMaxPriceCriterion(v), true, PriceBound(price.value), p);
    } else {
      MaxPriceShape(LegacyMaxPriceCriterion(v), false, 0.0, p);
    }
  }

  lemma LegacyCriteriaMeaning(v: Vars, strtotime: DateParser, p: Property)
    ensures AllHold(LegacyCriteria(v, strtotime), p) <==> LegacyWanted(v, strtotime, p)
  {
    var a, b, c := LegacyKeywordsCriterion(v), LegacyStayCriterion(v, strtotime), LegacyBedroomsCriterion(v);
    var d, e, f := LegacyBathroomsCriterion(v), LegacyMinPriceCriterion(v), LegacyMaxPriceCriterion(v);
    LegacyKeywordsPiece(v, p);
    LegacyStayPiece(v, strtotime, p);
    LegacyBedroomsPiece(v, p);
    LegacyBathroomsPiece(v, p);
    LegacyMinPricePiece(v, p);
    LegacyMaxPricePiece(v, p);
    AllHoldAppend(a, b, p);
    AllHoldAppend(a + b, c, p);
    AllHoldAppend(a + b + c, d, p);
    AllHoldAppend(a + b + c + d, e, p);
    AllHoldAppend(a + b + c + d + e, f, p);
  }

  /**
   * The legacy search keeps a property iff it is one of all the properties
   * and passes the tests of the truthy GET variables; the order is kept.
   */
  lemma LegacyResultsKeep(r: Request, all: seq<Property>, strtotime: DateParser, p: Property)
    ensures SubsequenceOf(LegacyResults(r, all, strtotime).list, all)
    ensures p in LegacyResults(r, all, strtotime).list <==> p in all && LegacyWanted(r.vars, strtotime, p)
  {
    var cs := LegacyCriteria(r.vars, strtotime);
    ApplyCriteriaIsConjunction(all, cs);
    FilterIsSubsequence(all, AllTest(cs));
    LegacyCriteriaMeaning(r.vars, strtotime, p);
  }

  /** POST variables play no part in a legacy search. */
  lemma LegacyIgnoresPost(g: map<string, string>, p1: map<string, string>, p2: map<string, string>, strtotime: DateParser)
    ensures LegacyCriteria(Vars(g, p1), strtotime) == LegacyCriteria(Vars(g, p2), strtotime)
  {
    assert forall name :: GetVar(Vars(g, p1), name) == GetVar(Vars(g, p2), name);
  }

  /**
   * On a GET request whose numeric variables are plain digits and whose
   * Nights is a count of at most thirteen digits, the legacy page and the
   * new controller apply the same criteria.
   */
  lemma {:induction false} LegacyAgreesOnPlainNumbers(g: map<string, string>, strtotime: DateParser)
    requires Nights in g && AllDigits(g[Nights]) && 1 <= |g[Nights]| <= 13
    requires Bedrooms in g ==> AllDigits(g[Bedrooms])
    requires Bathrooms in g ==> AllDigits(g[Bathrooms])
    requires MinPrice in g ==> AllDigits(g[MinPrice])
    requires MaxPrice in g ==> AllDigits(g[MaxPrice])
    ensures LegacyCriteria(Vars(g, map[]), strtotime) == SearchCriteria(Vars(g, map[]), strtotime)
  {
    var v := Vars(g, map[]);
    assert forall name :: RequestVar(v, name) == GetVar(v, name);
    PlainNightsAgree(v, g[Nights], strtotime);
    assert LegacyBedroomsCriterion(v) == BedroomsCriterion(v) by {
      if Bedrooms in g { SqlNumberOfDigits(g[Bedrooms]); }
    }
    assert LegacyBathroomsCriterion(v) == BathroomsCriterion(v) by {
      if Bathrooms in g { SqlNumberOfDigits(g[Bathrooms]); }
    }
    assert LegacyMinPriceCriterion(v) == MinPriceCriterion(v) by {
      if MinPrice in g && g[MinPrice] != [] {
        DigitsAreNumeric(g[MinPrice]);
        SqlNumberOfDigits(g[MinPrice]);
      }
    }
    assert LegacyMaxPriceCriterion(v) == MaxPriceCriterion(v) by {
      if MaxPrice in g && g[MaxPrice] != [] {
        DigitsAreNumeric(g[MaxPrice]);
        SqlNumberOfDigits(g[MaxPrice]);
      }
    }
  }

  /** A count of nights of one to thirteen digits ends both stays on the same day. */
  lemma {:induction false} PlainNightsAgree(v: Vars, nights: string, strtotime: DateParser)
    requires AllDigits(nights) && 1 <= |nights| <= 13
    requires GetVar(v, Nights) == Some(nights) && RequestVar(v, Nights) == Some(nights)
    requires RequestVar(v, ArrivalDate) == GetVar(v, ArrivalDate)
    ensures LegacyStayCriterion(v, strtotime) == StayCriterion(v, strtotime)
  {
    var n := IntCast(nights);
    RelativeDaysOfDigits(nights);
    DigitsReading(nights);
    DigitsValueBound(nights);
    Pow10Monotone(|nights|, 13);
    RelativeDaysOfInt(n);
    assert NightsOf(v) == n;
    assert RelativeDays(nights) == RelativeDays(IntToString(n));
  }


  /**
   * Where the two differ: a minimum price with a fraction, "<w>.5", lets a
   * property priced exactly <w> through the new controller's price test,
   * which casts the text to <w>, while the legacy page, which compares with
   * <w>.5, drops it whatever the other variables say.
   */
  lemma {:induction false} FractionalMinPriceDiffers(v: Vars, w: string, p: Property, strtotime: DateParser)
    requires AllDigits(w) && w != [] && p.pricePerNight == DigitsValue(w)
    requires MinPrice !in v.postVars && GetVar(v, MinPrice) == Some(w + ".5")
    ensures AllHold(MinPriceCriterion(v), p)
    ensures !LegacyWanted(v, strtotime, p)
  {
    assert Truthy(GetVar(v, MinPrice)) by {
      assert |w + ".5"| >= 3;
    }
    HalfReadings(w);
    MinPricePiece(v, p);
  }

  /**
   * Where the two differ: without a Nights variable the legacy stay ends on
   * 1970-01-01, so only the arrival day is checked; the new controller ends
   * the stay on the arrival day itself.
   */
  lemma MissingNightsEndsAtEpoch(v: Vars, strtotime: DateParser, start: ValidDate)
    requires GetVar(v, Nights).None?
    ensures RelativeEnd(start, GetVar(v, Nights).GetOr("")) == Epoch
    ensures NightsOf(v) == 0 ==> StayEnd(start, NightsOf(v)) == start
  {
    RelativeDaysOfNothing();
    RelativeDaysOfInt(0);
  }
}
