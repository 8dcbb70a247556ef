/**
 * The Elsewhere add-on's wording for a region: whether it has any service
 * worth listing (`hasAnyServices`), the title above the list
 * (`getAvailabilityText`), and the German list of regions without services
 * (`createUnavailableRegionsDisplay`).
 */
module ElsewhereText {
  import opened Common
  import opened Text
  import opened ElsewhereProviders

  predicate Has(rd: RegionData, c: Category) {
    Included(c) && ListOf(rd, c) != []
  }

  /** `hasAnyServices`: a region without data has none; otherwise some included category must list a provider. */
  function HasAnyServices(rd: Option<RegionData>): (r: bool)
    ensures r <==> rd.Some? && exists c :: Has(rd.value, c)
  {
    match rd
    case None => false
    case Some(d) =>
      HasSomeCategory(d);
      Has(d, Flatrate) || Has(d, Free) || Has(d, Ads) || Has(d, Rent) || Has(d, Buy)
  }

  lemma HasSomeCategory(d: RegionData)
    ensures (exists c :: Has(d, c)) <==> Has(d, Flatrate) || Has(d, Free) || Has(d, Ads) || Has(d, Rent) || Has(d, Buy)
  {
    if exists c :: Has(d, c) {
      var c :| Has(d, c);
      assert c in {Flatrate, Free, Ads, Rent, Buy};
    }
  }

  /** A region has services exactly when `getAllProvidersFromRegion` finds a provider in it. */
  lemma ServicesIffProviders(rd: RegionData)
    ensures HasAnyServices(Some(rd)) <==> AllProviders(rd) != []
  {
    if HasAnyServices(Some(rd)) {
      var c :| Has(rd, c);
      ProvidersComplete(rd, c, ListOf(rd, c)[0]);
    }
    if AllProviders(rd) != [] {
      var m := AllProviders(rd)[0];
      ProviderCategories(rd, m);
      var c := m.categories[0];
      assert c in m.categories;
      assert Has(rd, c);
    }
  }

  /** The title `getAvailabilityText` picks. */
  datatype Heading =
    | AlsoOn          // "Auch verfügbar in … auf:"
    | RentOrBuyOn     // "Zum Leihen/Kaufen in … auf:"
    | RentOn          // "Zum Leihen in … auf:"
    | BuyOn           // "Zum Kaufen in … auf:"
    | NotOnServices   // "Nicht auf Streaming-Diensten in … verfügbar"
    | NoData          // "Nicht verfügbar in …"

  /** The words before and after the region name in each title. */
  function Frame(a: Heading): (string, string) {
    match a
    case AlsoOn => ("Auch verfügbar in ", " auf:")
    case RentOrBuyOn => ("Zum Leihen/Kaufen in ", " auf:")
    case RentOn => ("Zum Leihen in ", " auf:")
    case BuyOn => ("Zum Kaufen in ", " auf:")
    case NotOnServices => ("Nicht auf Streaming-Diensten in ", " verfügbar")
    case NoData => ("Nicht verfügbar in ", "")
  }

  /** The title text for a choice and a region name: the region name always appears in it. */
  function Title(a: Heading, region: string): (r: string)
    ensures Includes(r, region)
  {
    var (p, q) := Frame(a);
    InMiddle(p, region, q);
    p + region + q
  }

  lemma InMiddle(p: string, s: string, q: string)
    ensures OccursAt(p + s + q, |p|, s)
    ensures Includes(p + s + q, s)
  {
    var r := p + s + q;
    assert forall k :: 0 <= k < |s| ==> r[|p| + k] == s[k];
    assert r[|p|..|p| + |s|] == s;
    assert 0 <= |p| <= |r| && OccursAt(r, |p|, s);
  }

  /** `getAvailabilityText` as written: the `ads` list is not consulted. */
  function AvailabilityAsWritten(rd: Option<RegionData>): (r: Heading)
    ensures r == NoData <==> rd.None?
    ensures rd.Some? ==> (r == AlsoOn <==> Has(rd.value, Flatrate) || Has(rd.value, Free))
    ensures rd.Some? && r != AlsoOn ==>
              (r == RentOrBuyOn <==> Has(rd.value, Rent) && Has(rd.value, Buy))
              && (r == RentOn <==> Has(rd.value, Rent) && !Has(rd.value, Buy))
              && (r == BuyOn <==> !Has(rd.value, Rent) && Has(rd.value, Buy))
  {
    match rd
    case None => NoData
    case Some(d) =>
      if Has(d, Flatrate) || Has(d, Free) then AlsoOn
      else if Has(d, Rent) && Has(d, Buy) then RentOrBuyOn
      else if Has(d, Rent) then RentOn
      else if Has(d, Buy) then BuyOn
      else NotOnServices
  }

  /** A region listing only ad-supported providers is shown with its providers under a title saying it has none. */
  lemma AdsOnlyTitleContradicts(ads: seq<Provider>)
    requires ads != []
    ensures HasAnyServices(Some(RegionData([], [], ads, [], [])))
    ensures AvailabilityAsWritten(Some(RegionData([], [], ads, [], []))) == NotOnServices
  {
    assert Has(RegionData([], [], ads, [], []), Ads);
  }

  /** `getAvailabilityText` with `ads` counted as a streaming category, like `hasAnyServices` counts it. */
  function Availability(rd: Option<RegionData>): (r: Heading)
    ensures r == NoData <==> rd.None?
    ensures rd.Some? ==> (r == AlsoOn <==> Has(rd.value, Flatrate) || Has(rd.value, Free) || Has(rd.value, Ads))
    ensures rd.Some? && r != AlsoOn ==>
              (r == RentOrBuyOn <==> Has(rd.value, Rent) && Has(rd.value, Buy))
              && (r == RentOn <==> Has(rd.value, Rent) && !Has(rd.value, Buy))
              && (r == BuyOn <==> !Has(rd.value, Rent) && Has(rd.value, Buy))
  {
    match rd
    case None => NoData
    case Some(d) =>
      if Has(d, Flatrate) || Has(d, Free) || Has(d, Ads) then AlsoOn
      else if Has(d, Rent) && Has(d, Buy) then RentOrBuyOn
      else if Has(d, Rent) then RentOn
      else if Has(d, Buy) then BuyOn
      else NotOnServices
  }

  /** With the correction, the title says "no services" exactly when `hasAnyServices` is false for present data. */
  lemma TitleAgreesWithServices(rd: Option<RegionData>)
    ensures Availability(rd) == NotOnServices <==> rd.Some? && !HasAnyServices(rd)
  {
    if rd.Some? && !HasAnyServices(rd) {
      assert !Has(rd.value, Flatrate) && !Has(rd.value, Free) && !Has(rd.value, Ads);
      assert !Has(rd.value, Rent) && !Has(rd.value, Buy);
    }
  }

  /** The two versions differ only for a region whose only streaming offers are ad-supported. */
  lemma CorrectionOnlyForAds(rd: Option<RegionData>)
    ensures Availability(rd) != AvailabilityAsWritten(rd) <==>
              rd.Some? && Has(rd.value, Ads) && !Has(rd.value, Flatrate) && !Has(rd.value, Free)
  {
  }

  // ------------------------------------------------ the list of regions without services

  /** `availableRegions[region] || region`: the display name, falling back to the code. */
  function RegionName(names: map<string, string>, code: string): (r: string)
    ensures code in names && names[code] != "" ==> r == names[code]
    ensures !(code in names && names[code] != "") ==> r == code
    ensures r == [] ==> code == []
  {
    if code in names && names[code] != "" then names[code] else code
  }

  /**
   * The German list of region names: one name alone, two joined by " und ",
   * more as "A, B, … und Z". The caller only builds it for a non-empty list.
   */
  function RegionList(names: seq<string>): (r: string)
    requires names != []
    ensures |names| == 1 ==> r == names[0]
  {
    if |names| == 1 then names[0]
    else if |names| == 2 then Join(names, " und ")
    else Join(names[..|names| - 1], ", ") + " und " + names[|names| - 1]
  }

  /** The two-name case is the general rule: all but the last joined by commas, then " und " and the last. */
  lemma RegionListUniform(names: seq<string>)
    requires |names| >= 2
    ensures RegionList(names) == Join(names[..|names| - 1], ", ") + " und " + names[|names| - 1]
  {
    if |names| == 2 {
      assert Join(names[1..], " und ") == names[1];
      assert names[..1] == [names[0]];
    }
  }

  /** Adding a region to a list of two or more turns the old " und " into a comma. */
  lemma RegionListSnoc(names: seq<string>, x: string)
    requires |names| >= 2
    ensures RegionList(names + [x]) ==
            Join(names[..|names| - 1], ", ") + ", " + names[|names| - 1] + " und " + x
  {
    var n := |names|;
    assert (names + [x])[..n] == names;
    assert names == names[..n - 1] + [names[n - 1]];
    JoinSnoc(names[..n - 1], names[n - 1], ", ");
  }
}
