/**
 * The property search form (PropertySearchForm, the same in the new
 * controller and the SilverStripe 3 page): a GET form whose dropdowns
 * offer 1 to 14 nights, 1 to 5 bedrooms or bathrooms and prices from 100
 * to 1000 in steps of 50, loaded with the request's GET variables.
 */
module SearchForm {
  import opened Common
  import opened PropertySearch

  /** One dropdown entry: the submitted key and the label shown. */
  type OptionEntry = (int, string)

  /** "N night", with an "s" for more than one night. */
  function NightLabel(n: nat): string {
    NatToString(n) + " night" + (if n > 1 then "s" else "")
  }

  /** "$N". */
  function PriceLabel(n: nat): string {
    "$" + NatToString(n)
  }

  /** The nights source: keys 1..14 in order, each with its label. */
  predicate IsNightOptions(opts: seq<OptionEntry>) {
    |opts| == 14 && forall k :: 0 <= k < 14 ==> opts[k] == (k + 1, NightLabel(k + 1))
  }

  /** The prices source: keys 100, 150, ..., 1000 in order, each with its label. */
  predicate IsPriceOptions(opts: seq<OptionEntry>) {
    |opts| == 19 && forall k :: 0 <= k < 19 ==> opts[k] == (100 + 50 * k, PriceLabel(100 + 50 * k))
  }

  /** The `foreach (range(1, 14) ...)` loop that fills the nights source. */
  method NightOptions() returns (opts: seq<OptionEntry>)
    ensures IsNightOptions(opts)
  {
    opts := [];
    var i := 1;
    while i <= 14
      invariant 1 <= i <= 15 && |opts| == i - 1
      invariant forall k :: 0 <= k < i - 1 ==> opts[k] == (k + 1, NightLabel(k + 1))
    {
      var text := NatToString(i) + " night" + (if i > 1 then "s" else "");
      opts := opts + [(i, text)];
      i := i + 1;
    }
  }

  /** The `foreach (range(100, 1000, 50) ...)` loop that fills the prices source. */
  method PriceOptions() returns (opts: seq<OptionEntry>)
    ensures IsPriceOptions(opts)
  {
    opts := [];
    var i := 100;
    while i <= 1000
      invariant i == 100 + 50 * |opts| && i <= 1050
      invariant forall k :: 0 <= k < |opts| ==> opts[k] == (100 + 50 * k, PriceLabel(100 + 50 * k))
    {
      opts := opts + [(i, "$" + NatToString(i))];
      i := i + 50;
    }
  }

  /** `ArrayLib::valuekey(range(1, 5))`: each of 1..5 is both key and label. */
  function RoomOptions(): (opts: seq<OptionEntry>)
    ensures |opts| == 5
    ensures forall k :: 0 <= k < 5 ==> opts[k].0 == k + 1 && IntCast(opts[k].1) == k + 1
    ensures forall k :: 0 <= k < 5 ==> opts[k].1 == [DigitChar(k + 1)]
  {
    var opts := seq(5, k requires 0 <= k < 5 => (k + 1, NatToString(k + 1)));
    forall k | 0 <= k < 5 ensures IntCast(opts[k].1) == k + 1 {
      IntCastOfNatToString(k + 1);
    }
    opts
  }

  /** The fields of the form: a text box, or a dropdown with an optional empty entry. */
  datatype Field =
    | TextField(name: string, title: string, value: Option<string>)
    | DropdownField(name: string, title: string, emptyString: Option<string>,
                    source: seq<OptionEntry>, value: Option<string>)

  /** The label of the dropdowns' empty entry, whose submitted key is "". */
  const AnyLabel: string := "-- any --"

  /**
   * PropertySearchForm: the seven fields in order, each loaded from the GET
   * variable of its own name (`loadDataFrom($this->request->getVars())`).
   */
  method PropertySearchForm(request: Vars) returns (fields: seq<Field>)
    ensures |fields| == 7
    ensures fields[0] == TextField(Keywords, "Keywords", GetVar(request, Keywords))
    ensures fields[1] == TextField(ArrivalDate, "Arrive on...", GetVar(request, ArrivalDate))
    ensures fields[2].DropdownField? && fields[2].name == Nights && fields[2].title == "Stay for..."
    ensures fields[2].emptyString.None? && IsNightOptions(fields[2].source)
    ensures fields[3] == DropdownField(Bedrooms, "Bedrooms", None, RoomOptions(), GetVar(request, Bedrooms))
    ensures fields[4] == DropdownField(Bathrooms, "Bathrooms", None, RoomOptions(), GetVar(request, Bathrooms))
    ensures fields[5].DropdownField? && fields[5].name == MinPrice && fields[5].title == "Min. price"
    ensures fields[6].DropdownField? && fields[6].name == MaxPrice && fields[6].title == "Max. price"
    ensures forall k :: 5 <= k < 7 ==> fields[k].emptyString == Some(AnyLabel) && IsPriceOptions(fields[k].source)
    ensures forall k :: 0 <= k < 7 ==> fields[k].value == GetVar(request, fields[k].name)
  {
    var nights := NightOptions();
    var prices := PriceOptions();
    fields := [
      TextField(Keywords, "Keywords", GetVar(request, Keywords)),
      TextField(ArrivalDate, "Arrive on...", GetVar(request, ArrivalDate)),
      DropdownField(Nights, "Stay for...", None, nights, GetVar(request, Nights)),
      DropdownField(Bedrooms, "Bedrooms", None, RoomOptions(), GetVar(request, Bedrooms)),
      DropdownField(Bathrooms, "Bathrooms", None, RoomOptions(), GetVar(request, Bathrooms)),
      DropdownField(MinPrice, "Min. price", Some(AnyLabel), prices, GetVar(request, MinPrice)),
      DropdownField(MaxPrice, "Max. price", Some(AnyLabel), prices, GetVar(request, MaxPrice))
    ];
  }

  // ---------------------------------------------------------------------
  // What the options mean to the search
  // ---------------------------------------------------------------------

  /** A nights label ends in "s" exactly when it is for more than one night. */
  lemma NightLabelPlural(n: nat)
    ensures NightLabel(n)[|NightLabel(n)| - 1] == 's' <==> n > 1
  {
  }

  /** The price keys are exactly the multiples of 50 from 100 to 1000. */
  lemma PriceKeysAreSteps(opts: seq<OptionEntry>, n: int)
    requires IsPriceOptions(opts)
    ensures (exists k :: 0 <= k < |opts| && opts[k].0 == n) <==> 100 <= n <= 1000 && n % 50 == 0
  {
    if 100 <= n <= 1000 && n % 50 == 0 {
      var k := (n - 100) / 50;
      assert opts[k].0 == n;
    }
  }

  /** A positive number's text is truthy: it is neither "" nor "0". */
  lemma PositiveTextTruthy(n: nat)
    requires n > 0
    ensures Truthy(Some(NatToString(n)))
  {
    IntCastOfNatToString(n);
    IntCastOfNatToString(0);
  }

  /** Choosing a nights entry makes the stay that many nights long. */
  lemma NightsOptionSubmitted(opts: seq<OptionEntry>, k: int, v: Vars)
    requires IsNightOptions(opts) && 0 <= k < |opts|
    requires RequestVar(v, Nights) == Some(NatToString(opts[k].0))
    ensures NightsOf(v) == k + 1
  {
    IntCastOfNatToString(k + 1);
  }

  /** Choosing a price entry as the minimum sets exactly that lower bound. */
  lemma MinPriceOptionSubmitted(opts: seq<OptionEntry>, k: int, v: Vars)
    requires IsPriceOptions(opts) && 0 <= k < |opts|
    requires RequestVar(v, MinPrice) == Some(NatToString(opts[k].0))
    ensures MinPriceCriterion(v) == [MinPricePerNight(opts[k].0 as real)]
  {
    PositiveTextTruthy(opts[k].0);
    IntCastOfNatToString(opts[k].0);
  }

  /** Choosing a price entry as the maximum sets exactly that upper bound. */
  lemma MaxPriceOptionSubmitted(opts: seq<OptionEntry>, k: int, v: Vars)
    requires IsPriceOptions(opts) && 0 <= k < |opts|
    requires RequestVar(v, MaxPrice) == Some(NatToString(opts[k].0))
    ensures MaxPriceCriterion(v) == [MaxPricePerNight(opts[k].0 as real)]
  {
    PositiveTextTruthy(opts[k].0);
    IntCastOfNatToString(opts[k].0);
  }

  /** The "-- any --" entry submits "", which sets no price bound. */
  lemma AnyPriceSetsNoBound(v: Vars)
    requires RequestVar(v, MinPrice) == Some("") && RequestVar(v, MaxPrice) == Some("")
    ensures MinPriceCriterion(v) == [] && MaxPriceCriterion(v) == []
  {
  }
}
