/** The `useWeather` hook of frontend/src/hooks/useWeather.ts as a state machine. The
    hook's state record is the field `state` of `WeatherHook`; each setter is a
    method that replaces one part of it, and each of the three loaders is split into
    the step that runs when it starts (`BeginLoad`) and the step that runs when its
    race between the service call and the timeout settles (`Settle`). Between the
    two, other events may run: there is no guard against a stale answer, so
    whichever request settles last decides the state. */
module UseWeather {
  import opened Wrappers
  import opened Tasks
  import opened JsText
  import W = WeatherService

  datatype LocationMethod = Default | Search | Manual | Geolocation

  /** `WeatherState`. */
  datatype WeatherState = WeatherState(
    weather: Option<W.Reading>, loading: bool, error: Option<string>,
    searchQuery: string, locationMethod: LocationMethod)

  /** The state `useState` starts from. */
  const InitialState: WeatherState := WeatherState(None, true, None, "", Default)

  /** Which loader runs: `loadWeather(query?)`, `loadWeatherByLocation(country,
      city)` or `loadWeatherByGeolocation()`. */
  datatype Loader = Plain(query: Option<string>) | ByLocation(country: string, city: string) | ByGeolocation

  /** How a loader's `Promise.race` ends: the service's reading, the service's error
      message, a rejection that is not an `Error`, or the loader's own timer. */
  datatype Settlement = Resolved(reading: W.Reading) | Rejected(message: string) | RejectedNonError | TimedOut

  const PlainTimeoutMsg: string := "请求超时，请检查网络连接"
  const LocationTimeoutMsg: string := "请求超时，服务器响应缓慢"
  const GeolocationTimeoutMsg: string := "定位超时，请检查位置权限"
  const WeatherFallbackMsg: string := "获取天气信息失败"
  const GeolocationFallbackMsg: string := "获取位置天气失败"

  /** The timer's message of each loader (after 8000, 8000 and 10000 ms). */
  function TimeoutMessage(kind: Loader): string {
    match kind
    case Plain(_) => PlainTimeoutMsg
    case ByLocation(_, _) => LocationTimeoutMsg
    case ByGeolocation => GeolocationTimeoutMsg
  }

  /** The message of each loader for a rejection that is not an `Error`. */
  function FallbackMessage(kind: Loader): string {
    if kind.ByGeolocation? then GeolocationFallbackMsg else WeatherFallbackMsg
  }

  /** The message a failed settlement leaves in `error`. */
  function FailureMessage(kind: Loader, outcome: Settlement): (m: string)
    requires !outcome.Resolved?
    ensures outcome.Rejected? ==> m == outcome.message
    ensures outcome.TimedOut? ==> m == TimeoutMessage(kind)
    ensures outcome.RejectedNonError? ==> m == FallbackMessage(kind)
  {
    match outcome
    case Rejected(msg) => msg
    case RejectedNonError => FallbackMessage(kind)
    case TimedOut => TimeoutMessage(kind)
  }

  /** The service result a loader awaits, as a settlement (when it wins the race). */
  function FromService(r: Result<W.Reading>): (o: Settlement)
    ensures r.Ok? <==> o.Resolved?
    ensures r.Ok? ==> o == Resolved(r.value)
    ensures r.Err? ==> o == Rejected(r.message)
  {
    match r
    case Ok(reading) => Resolved(reading)
    case Err(msg) => Rejected(msg)
  }

  /** The test that opens the error dialog with its retry button: the message names a
      timeout or the network, or, for the first two loaders, slowness, and for the
      geolocation loader, positioning. */
  predicate ShowsModal(kind: Loader, message: string) {
    Includes(message, "超时") || Includes(message, "网络")
    || (if kind.ByGeolocation? then Includes(message, "定位") else Includes(message, "缓慢"))
  }

  // ---- the state transitions --------------------------------------------------

  /** What a loader does before it awaits: `loading` on, `error` cleared, and the
      location method set by the location and geolocation loaders only. */
  function BeginStep(s: WeatherState, kind: Loader): (r: WeatherState)
    ensures r.loading && r.error.None?
    ensures r.weather == s.weather && r.searchQuery == s.searchQuery
    ensures kind.Plain? ==> r.locationMethod == s.locationMethod
    ensures kind.ByLocation? ==> r.locationMethod == Manual
    ensures kind.ByGeolocation? ==> r.locationMethod == Geolocation
  {
    var r := s.(loading := true).(error := None);
    match kind
    case Plain(_) => r
    case ByLocation(_, _) => r.(locationMethod := Manual)
    case ByGeolocation => r.(locationMethod := Geolocation)
  }

  /** What a loader does when its race settles: a reading replaces `weather`, a
      failure sets `error` to its message; `loading` goes off either way. The search
      text and the location method stay as they are at that moment. */
  function SettleStep(s: WeatherState, kind: Loader, outcome: Settlement): (r: WeatherState)
    ensures !r.loading
    ensures r.searchQuery == s.searchQuery && r.locationMethod == s.locationMethod
    ensures outcome.Resolved? ==> r.weather == Some(outcome.reading) && r.error == s.error
    ensures !outcome.Resolved? ==> r.weather == s.weather && r.error == Some(FailureMessage(kind, outcome))
  {
    match outcome
    case Resolved(reading) => s.(weather := Some(reading)).(loading := false)
    case _ => s.(error := Some(FailureMessage(kind, outcome))).(loading := false)
  }

  /** `searchWeather(q)`, through `setSearchQuery`: records the text and switches to
      the search method; nothing else changes. */
  function SearchStep(s: WeatherState, q: string): (r: WeatherState)
    ensures r.searchQuery == q && r.locationMethod == Search
    ensures r.weather == s.weather && r.loading == s.loading && r.error == s.error
  {
    s.(searchQuery := q, locationMethod := Search)
  }

  /** `clearSearch`: empties the text and returns to the default method; the reading
      and any error stay. */
  function ClearStep(s: WeatherState): (r: WeatherState)
    ensures r.searchQuery == [] && r.locationMethod == Default
    ensures r.weather == s.weather && r.loading == s.loading && r.error == s.error
  {
    SearchStep(s, "").(locationMethod := Default)
  }

  /** The loader `refetch` (and the dialog's retry button) starts: a search repeats the
      text search, or fetches the default reading when the text is empty; the
      geolocation method repeats the geolocation fetch; the manual and default
      methods fetch the default reading (the chosen country and city are not kept). */
  function RefetchLoader(s: WeatherState): (kind: Loader)
    ensures s.locationMethod == Search && s.searchQuery != [] ==> kind == Plain(Some(s.searchQuery))
    ensures s.locationMethod == Search && s.searchQuery == [] ==> kind == Plain(None)
    ensures s.locationMethod == Geolocation <==> kind == ByGeolocation
    ensures s.locationMethod in {Manual, Default} ==> kind == Plain(None)
  {
    match s.locationMethod
    case Search => Plain(if s.searchQuery != [] then Some(s.searchQuery) else None)
    case Geolocation => ByGeolocation
    case _ => Plain(None)
  }

  /** The debounced-search effect: a debounced text that is not blank starts a text
      search with it as it is; an empty debounced text while the live text is empty
      too fetches the default reading; otherwise nothing runs. */
  function EffectLoader(debounced: string, live: string): (kind: Option<Loader>)
    ensures kind.None? <==> Blank(debounced, IsJsSpace) && (debounced != [] || live != [])
    ensures !Blank(debounced, IsJsSpace) ==> kind == Some(Plain(Some(debounced)))
    ensures debounced == [] && live == [] ==> kind == Some(Plain(None))
  {
    TrimEmptyIffBlank(debounced, IsJsSpace);
    if JsTrim(debounced) != [] then Some(Plain(Some(debounced)))
    else if debounced == [] && live == [] then Some(Plain(None))
    else None
  }

  // ---- properties across steps --------------------------------------------------

  /** `refetch` never changes the location method by itself. */
  lemma RefetchKeepsMethod(s: WeatherState)
    ensures BeginStep(s, RefetchLoader(s)).locationMethod == s.locationMethod
  {
  }

  /** Every loader, from start to settlement, leaves `loading` off and the search
      text as it found it, whatever happened in between. */
  lemma LoaderEndsNotLoading(s: WeatherState, kind: Loader, between: WeatherState -> WeatherState, outcome: Settlement)
    requires forall t :: between(t).searchQuery == t.searchQuery
    ensures !SettleStep(between(BeginStep(s, kind)), kind, outcome).loading
    ensures SettleStep(between(BeginStep(s, kind)), kind, outcome).searchQuery == s.searchQuery
  {
  }

  /** No stale-answer guard: when an older request settles after a newer one, the
      older reading is what remains, and `loading` is already off although the older
      request was still pending when the newer one settled. */
  lemma LastSettleWins(s: WeatherState, older: Loader, newer: Loader, olderReading: W.Reading, newerReading: W.Reading)
    ensures var started := BeginStep(BeginStep(s, older), newer);
            var newerDone := SettleStep(started, newer, Resolved(newerReading));
            !newerDone.loading
            && SettleStep(newerDone, older, Resolved(olderReading)).weather == Some(olderReading)
  {
  }

  /** A text that includes none of the three words never opens the dialog. */
  lemma NoKeyword(kind: Loader, m: string)
    requires forall i :: 0 <= i < |m| ==> m[i] != '超' && m[i] != '网' && m[i] != '定' && m[i] != '缓'
    ensures !ShowsModal(kind, m)
  {
    NotIncluded(m, "超时");
    NotIncluded(m, "网络");
    NotIncluded(m, "定位");
    NotIncluded(m, "缓慢");
  }

  /** Every loader's own timeout message opens the dialog, as does every network
      failure of the service. */
  lemma ModalOnTimeoutAndNetwork(kind: Loader)
    ensures ShowsModal(kind, TimeoutMessage(kind))
    ensures ShowsModal(kind, W.LocationNetworkMsg) && ShowsModal(kind, W.SearchNetworkMsg)
  {
    if kind.ByGeolocation? {
      IncludedAt(GeolocationTimeoutMsg, "超时", 2);
    } else {
      IncludedAt(TimeoutMessage(kind), "超时", 2);
    }
    IncludedAt(W.LocationNetworkMsg, "网络", 0);
    IncludedAt(W.SearchNetworkMsg, "网络", 0);
  }

  /** A rejection that is not an `Error` does not open the dialog. */
  lemma NoModalOnFallback(kind: Loader)
    ensures !ShowsModal(kind, FallbackMessage(kind))
  {
    if kind.ByGeolocation? {
      NoKeyword(kind, GeolocationFallbackMsg);
    } else {
      NoKeyword(kind, WeatherFallbackMsg);
    }
  }

  /** An invalid city name does not open the dialog. */
  lemma NoModalOnInvalidCity(kind: Loader)
    ensures !ShowsModal(kind, W.InvalidCityMsg)
  {
    NoKeyword(kind, W.InvalidCityMsg);
  }

  /** An invalid country and city choice does not open the dialog. */
  lemma NoModalOnInvalidLocation(kind: Loader)
    ensures !ShowsModal(kind, W.InvalidLocationMsg)
  {
    NoKeyword(kind, W.InvalidLocationMsg);
  }

  /** Of the geolocation failures, a refusal, an unsupported browser, a position
      timeout and the service fault open the dialog. */
  lemma GeolocationModal()
    ensures ShowsModal(ByGeolocation, W.PermissionDeniedMsg) && ShowsModal(ByGeolocation, W.UnsupportedMsg)
    ensures ShowsModal(ByGeolocation, W.PositionTimeoutMsg) && ShowsModal(ByGeolocation, W.GeolocationFaultMsg)
  {
    IncludedAt(W.PermissionDeniedMsg, "定位", 7);
    IncludedAt(W.UnsupportedMsg, "定位", 8);
    IncludedAt(W.PositionTimeoutMsg, "超时", 4);
    IncludedAt(W.GeolocationFaultMsg, "定位", 0);
  }

  /** An unavailable position and an unknown error code do not open the dialog. */
  lemma GeolocationNoModal()
    ensures !ShowsModal(ByGeolocation, W.PositionUnavailableMsg) && !ShowsModal(ByGeolocation, W.UnknownPositionMsg)
  {
    NoKeyword(ByGeolocation, W.PositionUnavailableMsg);
    NoKeyword(ByGeolocation, W.UnknownPositionMsg);
  }

  // ---- the hook -----------------------------------------------------------------

  class WeatherHook {
    var state: WeatherState

    /** The state the hook starts with. */
    constructor ()
      ensures state == InitialState
    {
      state := InitialState;
    }

    /** `setLoading`: replaces only `loading`. */
    method SetLoading(loading: bool)
      modifies this
      ensures state == old(state).(loading := loading)
    {
      state := state.(loading := loading);
    }

    /** `setError`: replaces only `error`. */
    method SetError(error: Option<string>)
      modifies this
      ensures state == old(state).(error := error)
    {
      state := state.(error := error);
    }

    /** `setWeather`: replaces only `weather`. */
    method SetWeather(weather: Option<W.Reading>)
      modifies this
      ensures state == old(state).(weather := weather)
    {
      state := state.(weather := weather);
    }

    /** `setSearchQuery` also selects the search method. */
    method SetSearchQuery(q: string)
      modifies this
      ensures state == old(state).(searchQuery := q, locationMethod := Search)
    {
      state := state.(searchQuery := q, locationMethod := Search);
    }

    /** `setLocationMethod`: replaces only `locationMethod`. */
    method SetLocationMethod(m: LocationMethod)
      modifies this
      ensures state == old(state).(locationMethod := m)
    {
      state := state.(locationMethod := m);
    }

    /** The start of a loader, setter by setter. */
    method BeginLoad(kind: Loader)
      modifies this
      ensures state == BeginStep(old(state), kind)
    {
      SetLoading(true);
      SetError(None);
      match kind {
        case Plain(_) =>
        case ByLocation(_, _) => SetLocationMethod(Manual);
        case ByGeolocation => SetLocationMethod(Geolocation);
      }
    }

    /** The end of a loader: the `try` branch or the `catch` branch, then `finally`.
        The result says whether the error dialog opens. */
    method Settle(kind: Loader, outcome: Settlement) returns (showModal: bool)
      modifies this
      ensures state == SettleStep(old(state), kind, outcome)
      ensures showModal <==> !outcome.Resolved? && ShowsModal(kind, FailureMessage(kind, outcome))
    {
      showModal := false;
      if outcome.Resolved? {
        SetWeather(Some(outcome.reading));
      } else {
        var message := FailureMessage(kind, outcome);
        SetError(Some(message));
        showModal := ShowsModal(kind, message);
      }
      SetLoading(false);
    }

    /** `searchWeather`. */
    method SearchWeather(q: string)
      modifies this
      ensures state == SearchStep(old(state), q)
    {
      SetSearchQuery(q);
    }

    /** `clearSearch`. */
    method ClearSearch()
      modifies this
      ensures state == ClearStep(old(state))
    {
      SetSearchQuery("");
      SetLocationMethod(Default);
    }

    /** `refetch` and the dialog's retry button: start the loader the current method
        selects. */
    method Refetch() returns (kind: Loader)
      modifies this
      ensures kind == RefetchLoader(old(state))
      ensures state == BeginStep(old(state), kind) && state.locationMethod == old(state).locationMethod
    {
      kind := RefetchLoader(state);
      RefetchKeepsMethod(state);
      BeginLoad(kind);
    }

    /** The debounced-search effect, given the debounced text. */
    method RunEffect(debounced: string) returns (kind: Option<Loader>)
      modifies this
      ensures kind == EffectLoader(debounced, old(state).searchQuery)
      ensures kind.Some? ==> state == BeginStep(old(state), kind.value)
      ensures kind.None? ==> state == old(state)
    {
      kind := EffectLoader(debounced, state.searchQuery);
      if kind.Some? {
        BeginLoad(kind.value);
      }
    }
  }
}
