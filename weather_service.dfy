/** `MockWeatherService` of frontend/src/services/weatherService.ts: the city table,
    the input sanitizer, the validation guards of the three lookups, the exact and
    the fuzzy city match, reading generation with its humidity clamp, and the
    mapping of geolocation error codes to messages. Every random draw, the simulated
    faults, the clock and the browser's geolocation answer are parameters. Readings
    keep temperature and wind speed in tenths, as the source rounds them. */
module WeatherService {
  import opened Wrappers
  import opened Tasks
  import opened JsText

  /** One row of the city table. */
  datatype CityData = CityData(
    name: string, country: string, temp: int, desc: string, icon: string,
    humidity: int, wind: int, pressure: int)

  /** `WeatherData`, with temperature and wind speed in tenths of a unit. */
  datatype Reading = Reading(
    location: string, temperatureTenths: int, description: string, icon: string,
    humidity: int, windSpeedTenths: int, pressure: int, timestamp: nat)

  /** The random variations of `generateWeatherData`, already scaled to tenths and
      rounded. */
  datatype Variation = Variation(tempTenths: int, humidity: int, windTenths: int)

  /** The random draws that build a made-up city when no table row matches. */
  datatype MockDraw = MockDraw(
    temp: int, descIndex: nat, iconIndex: nat, humidity: int, wind: int, pressure: int)

  const Cities: seq<CityData> := [
    CityData("北京", "中国", 22, "晴朗", "☀️", 45, 12, 1013),
    CityData("上海", "中国", 26, "多云", "⛅", 68, 8, 1015),
    CityData("广州", "中国", 29, "小雨", "🌧️", 78, 15, 1008),
    CityData("深圳", "中国", 28, "阴天", "☁️", 72, 10, 1012),
    CityData("杭州", "中国", 24, "晴朗", "☀️", 55, 6, 1016),
    CityData("成都", "中国", 20, "雾", "🌫️", 85, 4, 1010),
    CityData("纽约", "美国", 18, "多云", "⛅", 60, 14, 1012),
    CityData("伦敦", "英国", 15, "小雨", "🌧️", 80, 18, 1008),
    CityData("东京", "日本", 23, "晴朗", "☀️", 65, 8, 1015),
    CityData("巴黎", "法国", 19, "阴天", "☁️", 70, 12, 1010),
    CityData("悉尼", "澳大利亚", 25, "晴朗", "☀️", 55, 10, 1018)
  ]

  const MockDescs: seq<string> := ["晴朗", "多云", "阴天", "小雨"]
  const MockIcons: seq<string> := ["☀️", "⛅", "☁️", "🌧️"]

  const UnsupportedMsg: string := "浏览器不支持地理定位"
  const PermissionDeniedMsg: string := "用户拒绝了地理定位请求"
  const PositionUnavailableMsg: string := "位置信息不可用"
  const PositionTimeoutMsg: string := "获取位置超时"
  const UnknownPositionMsg: string := "获取位置时发生未知错误"
  const InvalidLocationMsg: string := "请选择有效的国家和城市"
  const LocationNetworkMsg: string := "网络连接失败，请检查网络后重试"
  const LocationSlowMsg: string := "请求超时，服务器响应缓慢"
  const InvalidCityMsg: string := "请输入有效的城市名称"
  const SearchNetworkMsg: string := "网络连接失败，请稍后重试"
  const GeolocationFaultMsg: string := "定位服务暂时不可用，请稍后重试"
  const HereSuffix: string := " (当前位置)"
  const UnknownCountry: string := "未知"

  const PermissionDenied: int := 1
  const PositionUnavailable: int := 2
  const PositionTimeout: int := 3

  // ---- sanitizeInput ------------------------------------------------------------

  /** Position of the first `>` at or after `i`. */
  function FindClose(s: string, i: nat): (r: Option<nat>)
    requires i <= |s|
    ensures r.Some? ==> i <= r.value < |s| && s[r.value] == '>'
    ensures r.None? ==> forall k :: i <= k < |s| ==> s[k] != '>'
    decreases |s| - i
  {
    if i == |s| then None else if s[i] == '>' then Some(i) else FindClose(s, i + 1)
  }

  /** `replace(/<[^>]*>/g, '')`: each `<` that has a `>` somewhere after it is removed
      together with everything up to the first such `>`; a `<` with no `>` after it
      stays. No complete tag survives, and nothing new is introduced. */
  function StripTags(s: string): (r: string)
    ensures |r| <= |s|
    ensures (forall k :: 0 <= k < |s| ==> s[k] != '>') ==> forall k :: 0 <= k < |r| ==> r[k] != '>'
    ensures forall i, j :: 0 <= i < j < |r| && r[i] == '<' ==> r[j] != '>'
    ensures (forall k :: 0 <= k < |s| ==> s[k] != '<') ==> r == s
    decreases |s|
  {
    if s == [] then []
    else
      var rest := StripTags(s[1..]);
      if s[0] == '<' then
        match FindClose(s, 1)
        case Some(j) => StripTags(s[j + 1..])
        case None => [s[0]] + rest
      else
        [s[0]] + rest
  }

  /** The characters the second `replace` removes. */
  predicate IsDangerous(c: char) {
    c == '<' || c == '>' || c == '\'' || c == '"' || c == '&'
  }

  /** `replace(/[<>'"&]/g, '')`: the other characters, in order. */
  function RemoveDangerous(s: string): (r: string)
    ensures |r| <= |s|
    ensures forall i :: 0 <= i < |r| ==> !IsDangerous(r[i])
    ensures (forall i :: 0 <= i < |s| ==> !IsDangerous(s[i])) ==> r == s
  {
    if s == [] then []
    else if IsDangerous(s[0]) then RemoveDangerous(s[1..])
    else [s[0]] + RemoveDangerous(s[1..])
  }

  const MaxInputLength: nat := 50

  /** `substring(0, 50)`. */
  function Truncate(t: string): (r: string)
    ensures |r| <= MaxInputLength && |r| <= |t| && r == t[..|r|]
    ensures |t| <= MaxInputLength ==> r == t
    ensures |r| == if |t| <= MaxInputLength then |t| else MaxInputLength
  {
    if |t| <= MaxInputLength then t else t[..MaxInputLength]
  }

  /** `sanitizeInput`: strip tags, drop dangerous characters, trim, keep the first 50
      characters. */
  function Sanitize(s: string): (r: string)
    ensures |r| <= MaxInputLength
    ensures forall i :: 0 <= i < |r| ==> !IsDangerous(r[i])
    ensures r != [] ==> !IsJsSpace(r[0])
    ensures |r| <= |JsTrim(RemoveDangerous(StripTags(s)))|
    ensures r == JsTrim(RemoveDangerous(StripTags(s)))[..|r|]
    ensures var t := JsTrim(RemoveDangerous(StripTags(s)));
      |r| == if |t| <= MaxInputLength then |t| else MaxInputLength
  {
    var u := RemoveDangerous(StripTags(s));
    TrimKeepsProperty(u, IsJsSpace, (c: char) => !IsDangerous(c));
    Truncate(JsTrim(u))
  }

  /** Sanitizing leaves nothing exactly when, once tags and dangerous characters are
      gone, only whitespace is left. */
  lemma SanitizeEmpty(s: string)
    ensures Sanitize(s) == [] <==> Blank(RemoveDangerous(StripTags(s)), IsJsSpace)
  {
    TrimEmptyIffBlank(RemoveDangerous(StripTags(s)), IsJsSpace);
  }

  /** Input that is already clean (no markup characters, no surrounding whitespace, at
      most 50 characters) passes through unchanged. */
  lemma SanitizeKeepsClean(s: string)
    requires forall i :: 0 <= i < |s| ==> !IsDangerous(s[i])
    requires s != [] ==> !IsJsSpace(s[0]) && !IsJsSpace(s[|s| - 1])
    requires |s| <= MaxInputLength
    ensures Sanitize(s) == s
  {
    assert RemoveDangerous(StripTags(s)) == s;
    assert TrimStart(s, IsJsSpace) == s;
    assert TrimEnd(s, IsJsSpace) == s;
  }

  // ---- readings -----------------------------------------------------------------

  /** `Math.max(0, Math.min(100, h))`. */
  function ClampHumidity(h: int): (r: int)
    ensures 0 <= r <= 100
    ensures 0 <= h <= 100 ==> r == h
    ensures h < 0 ==> r == 0
    ensures h > 100 ==> r == 100
  {
    if h > 100 then 100 else if h < 0 then 0 else h
  }

  /** `generateWeatherData`: the row's name, description, icon and pressure, varied
      temperature and wind (wind never negative), and humidity clamped into 0..100. */
  function Generate(c: CityData, v: Variation, now: nat): (r: Reading)
    ensures r.location == c.name && r.description == c.desc && r.icon == c.icon
    ensures r.pressure == c.pressure && r.timestamp == now
    ensures 0 <= r.humidity <= 100 && r.windSpeedTenths >= 0
    ensures 0 <= c.humidity + v.humidity <= 100 ==> r.humidity == c.humidity + v.humidity
  {
    var wind := c.wind * 10 + v.windTenths;
    Reading(c.name, c.temp * 10 + v.tempTenths, c.desc, c.icon,
            ClampHumidity(c.humidity + v.humidity), if wind < 0 then 0 else wind, c.pressure, now)
  }

  /** The ranges of the random draws that make up a city. */
  predicate DrawInRange(d: MockDraw) {
    5 <= d.temp < 35 && d.descIndex < 4 && d.iconIndex < 4 && 30 <= d.humidity < 90
    && 3 <= d.wind < 18 && 1005 <= d.pressure < 1025
  }

  /** The made-up city of an unmatched lookup. */
  function MockCity(name: string, country: string, d: MockDraw): (c: CityData)
    requires DrawInRange(d)
    ensures c.name == name && c.country == country && c.desc in MockDescs && c.icon in MockIcons
    ensures 30 <= c.humidity < 90
  {
    CityData(name, country, d.temp, MockDescs[d.descIndex], MockIcons[d.iconIndex], d.humidity, d.wind, d.pressure)
  }

  // ---- lookups ------------------------------------------------------------------

  /** `Array.prototype.find`: the index of the first row satisfying `p`. */
  function FindFirst(cs: seq<CityData>, p: CityData -> bool): (r: Option<nat>)
    ensures r.Some? ==> r.value < |cs| && p(cs[r.value])
    ensures r.Some? ==> forall i :: 0 <= i < r.value ==> !p(cs[i])
    ensures r.None? ==> forall i :: 0 <= i < |cs| ==> !p(cs[i])
  {
    if cs == [] then None
    else if p(cs[0]) then Some(0)
    else match FindFirst(cs[1..], p)
      case None => None
      case Some(i) => Some(i + 1)
  }

  /** The exact test of `getWeatherByLocation`. */
  predicate ExactMatch(c: CityData, country: string, city: string) {
    c.name == city && c.country == country
  }

  /** The fuzzy test of `searchWeatherByCity`: either lower-cased name contains the
      other. */
  predicate FuzzyMatch(c: CityData, q: string) {
    Includes(Lower(c.name), Lower(q)) || Includes(Lower(q), Lower(c.name))
  }

  /** `getWeatherByLocation`: both sanitized inputs must be non-empty, then the
      simulated network fault and the slow response are reported in that order; an
      exact (city, country) row yields that row's reading, otherwise a made-up city
      under the sanitized names. */
  function WeatherByLocation(country: string, city: string, networkFault: bool, slow: bool,
                             draw: MockDraw, v: Variation, now: nat): (r: Result<Reading>)
    requires DrawInRange(draw)
    ensures Sanitize(country) == [] || Sanitize(city) == [] ==> r == Err(InvalidLocationMsg)
    ensures Sanitize(country) != [] && Sanitize(city) != [] && networkFault ==> r == Err(LocationNetworkMsg)
    ensures Sanitize(country) != [] && Sanitize(city) != [] && !networkFault && slow ==> r == Err(LocationSlowMsg)
    ensures r.Ok? <==> Sanitize(country) != [] && Sanitize(city) != [] && !networkFault && !slow
    ensures r.Ok? ==> r.value.location == Sanitize(city) && 0 <= r.value.humidity <= 100
    ensures r.Ok? && (exists i :: 0 <= i < |Cities| && ExactMatch(Cities[i], Sanitize(country), Sanitize(city))) ==>
      exists k :: 0 <= k < |Cities| && ExactMatch(Cities[k], Sanitize(country), Sanitize(city))
        && r.value == Generate(Cities[k], v, now)
  {
    var sc := Sanitize(country);
    var sn := Sanitize(city);
    if sc == [] || sn == [] then Err(InvalidLocationMsg)
    else if networkFault then Err(LocationNetworkMsg)
    else if slow then Err(LocationSlowMsg)
    else Ok(LocationReading(sc, sn, draw, v, now))
  }

  /** The successful end of `getWeatherByLocation`: the first row matching the
      sanitized (country, city) exactly, or a made-up city under those names. */
  function LocationReading(country: string, city: string, draw: MockDraw, v: Variation, now: nat): (r: Reading)
    requires DrawInRange(draw)
    ensures r.location == city && 0 <= r.humidity <= 100
    ensures (exists i :: 0 <= i < |Cities| && ExactMatch(Cities[i], country, city)) ==>
      exists k :: 0 <= k < |Cities| && ExactMatch(Cities[k], country, city) && r == Generate(Cities[k], v, now)
  {
    match FindFirst(Cities, (c: CityData) => ExactMatch(c, country, city))
      case Some(i) => Generate(Cities[i], v, now)
      case None => Generate(MockCity(city, country, draw), v, now)
  }

  /** `searchWeatherByCity`: a sanitized name shorter than two characters is refused
      before anything else, then the simulated network fault; otherwise the first row
      the fuzzy test accepts, or a made-up city of unknown country under the
      sanitized name. */
  function SearchByCity(cityName: string, networkFault: bool, draw: MockDraw, v: Variation, now: nat): (r: Result<Reading>)
    requires DrawInRange(draw)
    ensures |Sanitize(cityName)| < 2 ==> r == Err(InvalidCityMsg)
    ensures |Sanitize(cityName)| >= 2 && networkFault ==> r == Err(SearchNetworkMsg)
    ensures r.Ok? <==> |Sanitize(cityName)| >= 2 && !networkFault
    ensures r.Ok? ==> 0 <= r.value.humidity <= 100
    ensures r.Ok? && FindFirst(Cities, (c: CityData) => FuzzyMatch(c, Sanitize(cityName))).Some? ==>
      var i := FindFirst(Cities, (c: CityData) => FuzzyMatch(c, Sanitize(cityName))).value;
      FuzzyMatch(Cities[i], Sanitize(cityName)) && r.value == Generate(Cities[i], v, now)
    ensures r.Ok? && FindFirst(Cities, (c: CityData) => FuzzyMatch(c, Sanitize(cityName))).None? ==>
      (forall i :: 0 <= i < |Cities| ==> !FuzzyMatch(Cities[i], Sanitize(cityName)))
      && r.value.location == Sanitize(cityName)
  {
    var q := Sanitize(cityName);
    if |q| < 2 then Err(InvalidCityMsg)
    else if networkFault then Err(SearchNetworkMsg)
    else match FindFirst(Cities, (c: CityData) => FuzzyMatch(c, q))
      case Some(i) => Ok(Generate(Cities[i], v, now))
      case None => Ok(Generate(MockCity(q, UnknownCountry, draw), v, now))
  }

  /** `getCurrentWeather`: the reading of the table row the random index picks. */
  function CurrentWeather(index: nat, v: Variation, now: nat): (r: Reading)
    requires index < |Cities|
    ensures exists i :: 0 <= i < |Cities| && r.location == Cities[i].name
    ensures 0 <= r.humidity <= 100
  {
    Generate(Cities[index], v, now)
  }

  // ---- geolocation --------------------------------------------------------------

  /** What the browser reports: no geolocation API, a position, or an error code. */
  datatype GeoAnswer = Unsupported | Position | PositionError(code: int)

  /** The message of a `GeolocationPositionError` code. */
  function GeoErrorMessage(code: int): (m: string)
    ensures code == PermissionDenied ==> m == PermissionDeniedMsg
    ensures code == PositionUnavailable ==> m == PositionUnavailableMsg
    ensures code == PositionTimeout ==> m == PositionTimeoutMsg
    ensures !(1 <= code <= 3) ==> m == UnknownPositionMsg
  {
    if code == PermissionDenied then PermissionDeniedMsg
    else if code == PositionUnavailable then PositionUnavailableMsg
    else if code == PositionTimeout then PositionTimeoutMsg
    else UnknownPositionMsg
  }

  /** The three known codes get three different messages, none of them the message
      for unknown codes: the mapping is one-to-one on the codes it distinguishes. */
  lemma GeoErrorMessageInjective(a: int, b: int)
    ensures GeoErrorMessage(a) == GeoErrorMessage(b) <==> a == b || (!(1 <= a <= 3) && !(1 <= b <= 3))
  {
    assert PermissionDeniedMsg[0] != PositionUnavailableMsg[0];
    assert PermissionDeniedMsg[0] != PositionTimeoutMsg[0];
    assert PositionUnavailableMsg[0] != PositionTimeoutMsg[0];
    assert PositionTimeoutMsg[4] != UnknownPositionMsg[4];
    assert PermissionDeniedMsg[0] != UnknownPositionMsg[0];
    assert PositionUnavailableMsg[0] != UnknownPositionMsg[0];
  }

  /** `getCurrentPosition`: `None` when a position arrives, else the rejection's
      message. */
  function CurrentPosition(answer: GeoAnswer): (err: Option<string>)
    ensures err.None? <==> answer.Position?
    ensures answer.Unsupported? ==> err == Some(UnsupportedMsg)
    ensures answer.PositionError? ==> err == Some(GeoErrorMessage(answer.code))
  {
    match answer
    case Unsupported => Some(UnsupportedMsg)
    case Position => None
    case PositionError(code) => Some(GeoErrorMessage(code))
  }

  /** `getWeatherByGeolocation`: a position error is passed on unchanged, then the
      simulated service fault; otherwise the reading of one of the first six rows
      (the Chinese cities), its name marked as the current position. */
  function WeatherByGeolocation(answer: GeoAnswer, fault: bool, nearby: nat, v: Variation, now: nat): (r: Result<Reading>)
    requires nearby < 6
    ensures CurrentPosition(answer).Some? ==> r == Err(CurrentPosition(answer).value)
    ensures answer.Position? && fault ==> r == Err(GeolocationFaultMsg)
    ensures r.Ok? <==> answer.Position? && !fault
    ensures r.Ok? ==> r.value.location == Cities[nearby].name + HereSuffix && Cities[nearby].country == "中国"
  {
    match CurrentPosition(answer)
    case Some(msg) => Err(msg)
    case None =>
      if fault then Err(GeolocationFaultMsg)
      else
        var c := Cities[nearby];
        Ok(Generate(c.(name := c.name + HereSuffix), v, now))
  }
}
