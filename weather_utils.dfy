/** `WeatherUtils` of utils/weather.py: the emoji and the description of a MET Norway
    symbol code, and the precedence of the places the coordinates come from.

    The environment, the HTTP lookup of the IP provider and Python's `float()` are
    inputs: the variables as read, the provider's answer, and the parser. */
module WeatherUtils {
  import opened Common

  /** The emoji shown for an unknown or missing code. */
  const DefaultEmoji := "🌡️"

  /** The description of an unknown or missing code. */
  const DefaultDescription := "Unknown conditions"

  /** The emoji table of `get_weather_emoji`. */
  const EmojiTable: map<string, string> := map[
    "clearsky_day" := "☀️",
    "clearsky_night" := "🌙",
    "fair_day" := "🌤️",
    "fair_night" := "🌤️",
    "partlycloudy_day" := "⛅",
    "partlycloudy_night" := "☁️",
    "cloudy" := "☁️",
    "rainshowers_day" := "🌦️",
    "rainshowers_night" := "🌧️",
    "rain" := "🌧️",
    "thunder" := "⛈️",
    "sleet" := "🌨️",
    "snow" := "❄️",
    "fog" := "🌫️",
    "lightrain" := "🌦️",
    "heavyrain" := "🌧️",
    "lightsleet" := "🌨️",
    "heavysleet" := "🌨️",
    "lightsnow" := "🌨️",
    "heavysnow" := "❄️",
    "lightrainshowers_day" := "🌦️",
    "heavyrainshowers_day" := "🌧️",
    "lightrainshowers_night" := "🌧️",
    "heavyrainshowers_night" := "🌧️"
  ]

  /** The description table of `get_weather_description`. */
  const DescriptionTable: map<string, string> := map[
    "clearsky_day" := "Clear sky",
    "clearsky_night" := "Clear night",
    "fair_day" := "Fair",
    "fair_night" := "Fair",
    "partlycloudy_day" := "Partly cloudy",
    "partlycloudy_night" := "Partly cloudy",
    "cloudy" := "Cloudy",
    "rainshowers_day" := "Rain showers",
    "rainshowers_night" := "Rain showers",
    "rain" := "Rain",
    "thunder" := "Thunderstorm",
    "sleet" := "Sleet",
    "snow" := "Snow",
    "fog" := "Fog",
    "lightrain" := "Light rain",
    "heavyrain" := "Heavy rain",
    "lightsleet" := "Light sleet",
    "heavysleet" := "Heavy sleet",
    "lightsnow" := "Light snow",
    "heavysnow" := "Heavy snow",
    "lightrainshowers_day" := "Light rain showers",
    "heavyrainshowers_day" := "Heavy rain showers",
    "lightrainshowers_night" := "Light rain showers",
    "heavyrainshowers_night" := "Heavy rain showers"
  ]

  /** `(weather_code or "").lower()`: a missing code is the empty string. */
  function CodeKey(code: Option<string>): string
  {
    Lower(if code.Some? then code.value else "")
  }

  /** `get_weather_emoji`. */
  function WeatherEmoji(code: Option<string>): string
  {
    var key := CodeKey(code);
    if key in EmojiTable then EmojiTable[key] else DefaultEmoji
  }

  /** `get_weather_description`. */
  function WeatherDescription(code: Option<string>): string
  {
    var key := CodeKey(code);
    if key in DescriptionTable then DescriptionTable[key] else DefaultDescription
  }

  /** A missing or empty code gets the thermometer and "Unknown conditions". */
  lemma MissingCodeDefaults()
    ensures WeatherEmoji(None) == DefaultEmoji && WeatherDescription(None) == DefaultDescription
    ensures WeatherEmoji(Some("")) == DefaultEmoji && WeatherDescription(Some("")) == DefaultDescription
  {
    assert CodeKey(None) == "" && CodeKey(Some("")) == "";
    SameCodes();
  }

  /** The lookups ignore the case of ASCII letters: a code and its lower-case form
      get the same emoji and the same description. */
  lemma CaseInsensitive(code: string)
    ensures WeatherEmoji(Some(code)) == WeatherEmoji(Some(Lower(code)))
    ensures WeatherDescription(Some(code)) == WeatherDescription(Some(Lower(code)))
  {
    LowerIdempotent(code);
  }

  /** Both tables know the same codes, none of them empty. */
  lemma SameCodes()
    ensures EmojiTable.Keys == DescriptionTable.Keys
    ensures forall k :: k in EmojiTable ==> |k| > 0
  {
  }

  /** No known code maps to a default. */
  lemma NoDefaultValues()
    ensures forall k :: k in EmojiTable ==> EmojiTable[k] != DefaultEmoji
    ensures forall k :: k in DescriptionTable ==> DescriptionTable[k] != DefaultDescription
  {
  }

  /** A code gets its own emoji exactly when it gets its own description, and that
      is exactly when its lower-case form is one of the table's codes. */
  lemma KnownIffDescribed(code: Option<string>)
    ensures WeatherEmoji(code) != DefaultEmoji <==> CodeKey(code) in EmojiTable
    ensures WeatherDescription(code) != DefaultDescription <==> CodeKey(code) in EmojiTable
  {
    SameCodes();
    NoDefaultValues();
  }

  // ---------------------------------------------------------------------------
  // `get_coordinates`

  /** A place: latitude, longitude, city. */
  datatype Location = Location(lat: real, lon: real, city: string)

  /** The answer of the IP provider (ipapi.co): `None` when the request fails, the
      status is not ok or the fields do not parse; otherwise the coordinates and
      the raw "city" field. */
  datatype ProviderAnswer = NoAnswer | Answer(lat: real, lon: real, city: Option<string>)

  /** `_try_ip_provider`: a missing or empty city becomes "Unknown Location". */
  function ProviderLocation(a: ProviderAnswer): (r: Option<Location>)
    ensures a.NoAnswer? <==> r.None?
    ensures r.Some? ==> r.value.city != "" && r.value.lat == a.lat && r.value.lon == a.lon
    ensures r.Some? && a.city.Some? && a.city.value != "" ==> r.value.city == a.city.value
    ensures r.Some? && !(a.city.Some? && a.city.value != "") ==> r.value.city == "Unknown Location"
  {
    match a
    case NoAnswer => None
    case Answer(lat, lon, city) =>
      Some(Location(lat, lon, if city.Some? && city.value != "" then city.value else "Unknown Location"))
  }

  /** The fixed fallback, New York. */
  const Fallback := Location(40.7128, -74.0060, "Unknown Location")

  /** Python's truthiness of an optional string: set and not empty. */
  predicate Truthy(s: Option<string>)
  {
    s.Some? && s.value != ""
  }

  /** `get_coordinates` given `AX_SHELL_LAT`, `AX_SHELL_LON`, `AX_SHELL_CITY`, the
      parser `float` (`None` where it raises) and the provider's answer. */
  function Coordinates(envLat: Option<string>, envLon: Option<string>, envCity: Option<string>,
                       float: string -> Option<real>, provider: ProviderAnswer): Location
  {
    if Truthy(envLat) && Truthy(envLon) && float(envLat.value).Some? && float(envLon.value).Some? then
      Location(float(envLat.value).value, float(envLon.value).value,
               if Truthy(envCity) then envCity.value else "Custom Location")
    else
      match ProviderLocation(provider)
      case Some(found) => found
      case None => Fallback
  }

  /** The environment wins when both coordinates are set and parse, with the city
      from the environment or "Custom Location"; otherwise the provider's place,
      otherwise the fallback. The city is never empty. */
  lemma CoordinatesPrecedence(envLat: Option<string>, envLon: Option<string>, envCity: Option<string>,
                              float: string -> Option<real>, provider: ProviderAnswer)
    ensures var r := Coordinates(envLat, envLon, envCity, float, provider);
      r.city != ""
    ensures var r := Coordinates(envLat, envLon, envCity, float, provider);
      Truthy(envLat) && Truthy(envLon) && float(envLat.value).Some? && float(envLon.value).Some? ==>
        r.lat == float(envLat.value).value && r.lon == float(envLon.value).value &&
        (Truthy(envCity) ==> r.city == envCity.value) && (!Truthy(envCity) ==> r.city == "Custom Location")
    ensures var r := Coordinates(envLat, envLon, envCity, float, provider);
      !(Truthy(envLat) && Truthy(envLon) && float(envLat.value).Some? && float(envLon.value).Some?) ==>
        (provider.Answer? ==> r.lat == provider.lat && r.lon == provider.lon) &&
        (provider.NoAnswer? ==> r == Fallback)
  {
  }
}
