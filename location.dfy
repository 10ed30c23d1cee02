/**
 * The records the two `onClientRequest` handlers build from the host's user-location
 * object. Each field is the host's value when that value is truthy (present and
 * non-empty) and the sentinel 'N/A' otherwise. The geolocation handler then derives a
 * flag and a greeting from the defaulted country.
 */
module Location {
  import opened JsText
  import Flag
  import Greeting

  const NotAvailable: string := "N/A"

  /** The host's `request.userLocation`: each field is `undefined` or a string. */
  datatype UserLocation = UserLocation(
    city: Option<string>,
    zipCode: Option<string>,
    region: Option<string>,
    country: Option<string>,
    continent: Option<string>)

  /** JavaScript truthiness of a field that is a string or `undefined`. */
  predicate Truthy(v: Option<string>) {
    v.Some? && v.value != ""
  }

  /** `r` is what `v ? v : 'N/A'` gives. */
  predicate DefaultsTo(v: Option<string>, r: string) {
    if Truthy(v) then r == v.value else r == NotAvailable
  }

  /** `v ? v : 'N/A'`. */
  function OrNotAvailable(v: Option<string>): (r: string)
    ensures DefaultsTo(v, r) && r != ""
  {
    match v
    case Some(s) => if s != "" then s else NotAvailable
    case None => NotAvailable
  }

  /** The `geo` object of the geolocation handler. */
  datatype Geo = Geo(city: string, zipCode: string, region: string, country: string, continent: string)

  /** The `info` object of the location handler: only these three fields. */
  datatype Info = Info(country: string, region: string, city: string)

  function GeoOf(loc: UserLocation): (g: Geo)
    ensures DefaultsTo(loc.city, g.city) && DefaultsTo(loc.zipCode, g.zipCode)
    ensures DefaultsTo(loc.region, g.region) && DefaultsTo(loc.country, g.country)
    ensures DefaultsTo(loc.continent, g.continent)
  {
    Geo(
      OrNotAvailable(loc.city),
      OrNotAvailable(loc.zipCode),
      OrNotAvailable(loc.region),
      OrNotAvailable(loc.country),
      OrNotAvailable(loc.continent))
  }

  function InfoOf(loc: UserLocation): (info: Info)
    ensures DefaultsTo(loc.country, info.country)
    ensures DefaultsTo(loc.region, info.region)
    ensures DefaultsTo(loc.city, info.city)
  {
    Info(OrNotAvailable(loc.country), OrNotAvailable(loc.region), OrNotAvailable(loc.city))
  }

  /** What the geolocation handler computes before rendering its page. */
  datatype GeoPage = GeoPage(geo: Geo, flag: string, greeting: string)

  /** The host supplies country codes in ASCII. */
  predicate AsciiCountry(loc: UserLocation) {
    Truthy(loc.country) ==> IsAscii(loc.country.value)
  }

  function GeolocationRequest(loc: UserLocation): (p: GeoPage)
    requires AsciiCountry(loc)
    ensures p.geo == GeoOf(loc)
    ensures IsAscii(p.geo.country)
    ensures p.flag == Flag.GeolocationFlagEmoji(p.geo.country)
    ensures p.greeting == Greeting.GetGreetingFromCountry(p.geo.country)
  {
    var geo := GeoOf(loc);
    assert IsAscii(geo.country);
    GeoPage(geo, Flag.GeolocationFlagEmoji(geo.country), Greeting.GetGreetingFromCountry(geo.country))
  }

  /** Both handlers default country, region and city the same way. */
  lemma InfoAgreesWithGeo(loc: UserLocation)
    ensures InfoOf(loc).country == GeoOf(loc).country
    ensures InfoOf(loc).region == GeoOf(loc).region
    ensures InfoOf(loc).city == GeoOf(loc).city
  {
  }

  /** With no location at all, every field reads 'N/A'. */
  lemma AllAbsent()
    ensures GeoOf(UserLocation(None, None, None, None, None)) == Geo("N/A", "N/A", "N/A", "N/A", "N/A")
    ensures InfoOf(UserLocation(None, None, None, None, None)) == Info("N/A", "N/A", "N/A")
  {
  }

  /** The sentinel's flag: 'N', '/' and 'A' are each shifted by 127397. */
  lemma NotAvailableFlag()
    ensures Flag.GeolocationFlagEmoji(NotAvailable) == "\U{1F1F3}\U{1F1D4}\U{1F1E6}"
  {
    var f := Flag.GeolocationFlagEmoji(NotAvailable);
    assert !IsLineTerminator(NotAvailable[0]) && !IsLineTerminator(NotAvailable[1]);
    assert !IsLineTerminator(NotAvailable[2]);
    assert f[0] as int == 0x1F1F3 && f[1] as int == 0x1F1D4 && f[2] as int == 0x1F1E6;
  }

  /**
   * A missing or empty country becomes 'N/A': it is greeted with "Hello", and its flag
   * has three code points, because '/' is shifted along with the letters.
   */
  lemma MissingCountry(loc: UserLocation)
    requires !Truthy(loc.country)
    ensures GeolocationRequest(loc).greeting == Greeting.DefaultGreeting
    ensures GeolocationRequest(loc).flag == "\U{1F1F3}\U{1F1D4}\U{1F1E6}"
  {
    assert GeoOf(loc).country == NotAvailable;
    Greeting.NonTwoCharacterCodeUnmapped(NotAvailable);
    NotAvailableFlag();
  }

  /** A present two-letter country code yields its regional-indicator flag. */
  lemma PresentCountryFlag(loc: UserLocation)
    requires loc.country.Some? && |loc.country.value| == 2
    requires IsAsciiLetter(loc.country.value[0]) && IsAsciiLetter(loc.country.value[1])
    ensures |GeolocationRequest(loc).flag| == 2
    ensures Flag.IsRegionalIndicator(GeolocationRequest(loc).flag[0])
    ensures Flag.IsRegionalIndicator(GeolocationRequest(loc).flag[1])
  {
    Flag.TwoLetterCodeGivesFlag(loc.country.value, Undefined);
  }
}
