/**
 * The component's state and how each event changes it, as pure values.
 *
 * The component keeps five pieces of state. Its two asynchronous operations
 * (the geolocation request made once at start-up, and the holidays request
 * made whenever the selected country changes) are split into the events at
 * which they touch that state: a request being issued and its outcome
 * arriving. The outcomes of the network are the events' arguments.
 *
 * Besides the five fields the state records what the runtime around the
 * component knows: whether the geolocation answer is still awaited, whether
 * the holidays effect is due to run after a change of selection, how many
 * holidays requests are in flight and the last one issued. These say which
 * events can happen next (Enabled); they are not stored by the component.
 */
module AppState {
  import opened Wrappers
  import opened Catalog
  import opened Holidays
  import opened View

  /** The parameters of one holidays request: the year and the country code. */
  datatype Request = Request(year: int, country: string)

  datatype State = State(
    countryCode: string,
    holidays: seq<Holiday>,
    loading: bool,
    error: Option<string>,
    selectedCountry: Option<CountryOption>,
    geoPending: bool,
    fetchDue: bool,
    inFlight: nat,
    requested: Option<Request>)

  /**
   * The state on mount: nothing fetched, loading, no error, no selection; the
   * geolocation answer is awaited and the holidays effect is due (it runs once
   * on mount as well).
   */
  const Initial: State := State("", [], true, None, None, true, true, 0, None)

  datatype Event =
    | GeoSucceeded(code: string)
    | GeoFailed(message: string)
    | FetchStarted(year: int)
    | FetchSucceeded(response: seq<Holiday>)
    | FetchFailed(message: string)
    | CountryChanged(option: CountryOption)

  /** The screen the state renders to. */
  function ScreenOfState(s: State): Screen
  {
    ScreenOf(s.loading, s.error, SortByDate(s.holidays))
  }

  /**
   * Whether `e` can happen in `s`: an outcome only for a request in flight, the
   * holidays effect only when due, and a choice of country only from a visible
   * selector once the effects of the previous choice have run.
   */
  predicate Enabled(s: State, e: Event)
  {
    match e
    case GeoSucceeded(_) => s.geoPending
    case GeoFailed(_) => s.geoPending
    case FetchStarted(_) => s.fetchDue
    case FetchSucceeded(_) => s.inFlight > 0
    case FetchFailed(_) => s.inFlight > 0
    case CountryChanged(o) => o in CountryOptions && !s.fetchDue && OffersCountrySelect(ScreenOfState(s))
  }

  /** The request the holidays effect issues, if any: none without a selected country. */
  function RequestFor(s: State, year: int): (r: Option<Request>)
    ensures r.Some? <==> s.selectedCountry.Some?
    ensures r.Some? ==> r.value.year == year && r.value.country == s.selectedCountry.value.value
  {
    if s.selectedCountry.Some? then Some(Request(year, s.selectedCountry.value.value)) else None
  }

  /**
   * The state after event `e`. Each field has its own writers: only a
   * geolocation answer stores a code, only a holidays outcome replaces the
   * list, only a geolocation answer or a choice changes the selection, only
   * the holidays effect turns loading on, and only a failure sets an error.
   */
  function Next(s: State, e: Event): (t: State)
    ensures t.countryCode != s.countryCode ==> e.GeoSucceeded?
    ensures t.holidays != s.holidays ==> e.FetchSucceeded? || e.FetchFailed?
    ensures t.selectedCountry != s.selectedCountry ==> e.GeoSucceeded? || e.CountryChanged?
    ensures t.loading && !s.loading ==> e.FetchStarted? && s.selectedCountry.Some?
    ensures t.error.Some? && t.error != s.error ==> e.GeoFailed? || e.FetchFailed?
  {
    match e
    case GeoSucceeded(code) =>
      var found := Find(CountryOptions, code);
      s.(countryCode := code, selectedCountry := found, loading := false,
         geoPending := false, fetchDue := s.fetchDue || found.Some?)
    case GeoFailed(message) =>
      s.(error := Some(message), loading := false, geoPending := false)
    case FetchStarted(year) =>
      if s.selectedCountry.Some? then
        s.(loading := true, fetchDue := false, inFlight := s.inFlight + 1, requested := RequestFor(s, year))
      else
        s.(fetchDue := false)
    case FetchSucceeded(response) =>
      s.(holidays := response, error := None, loading := false,
         inFlight := if s.inFlight > 0 then s.inFlight - 1 else 0)
    case FetchFailed(message) =>
      s.(error := Some(message), holidays := [], loading := false,
         inFlight := if s.inFlight > 0 then s.inFlight - 1 else 0)
    case CountryChanged(o) =>
      s.(selectedCountry := Some(o), fetchDue := true)
  }

  /** Whether every event of `es` is enabled when it happens, starting from `s`. */
  predicate ValidRun(s: State, es: seq<Event>)
    decreases es
  {
    es == [] || (Enabled(s, es[0]) && ValidRun(Next(s, es[0]), es[1..]))
  }

  /** The state after the events `es`, in order. */
  function Run(s: State, es: seq<Event>): (t: State)
    decreases es
  {
    if es == [] then s else Run(Next(s, es[0]), es[1..])
  }

  /**
   * What holds in every state the component can reach: it is loading exactly
   * while some request is in flight; at most one holidays request is in
   * flight, and it is for the selected country; a selection is a catalog
   * entry; before geolocation answers nothing else has happened; and a choice
   * whose fetch has not yet started was made with no error displayed.
   */
  predicate Inv(s: State)
  {
    && (s.loading <==> s.geoPending || s.inFlight > 0)
    && s.inFlight <= 1
    && (s.geoPending ==>
          s.inFlight == 0 && s.selectedCountry.None? && s.holidays == [] && s.error.None?)
    && (s.inFlight > 0 ==>
          !s.fetchDue && s.selectedCountry.Some? && s.requested.Some?
          && s.requested.value.country == s.selectedCountry.value.value)
    && (s.selectedCountry.Some? ==> s.selectedCountry.value in CountryOptions)
    && (s.fetchDue && s.selectedCountry.Some? ==> !ErrorShown(s.error))
  }

  lemma InitialInv()
    ensures Inv(Initial)
    ensures Initial.loading && Initial.error.None? && Initial.selectedCountry.None? && Initial.holidays == []
  {
  }

  /** Every enabled event keeps the invariant. */
  lemma NextKeepsInv(s: State, e: Event)
    requires Inv(s) && Enabled(s, e)
    ensures Inv(Next(s, e))
  {
  }

  /** The invariant holds after every valid run. */
  lemma {:induction false} RunKeepsInv(s: State, es: seq<Event>)
    requires Inv(s) && ValidRun(s, es)
    ensures Inv(Run(s, es))
    decreases es
  {
    if es != [] {
      NextKeepsInv(s, es[0]);
      RunKeepsInv(Next(s, es[0]), es[1..]);
    }
  }

  /**
   * No stale overwrite: in every state where the invariant holds (every
   * reachable state, by RunKeepsInv) at most one holidays request is in
   * flight, and an outcome that arrives answers the request issued for the
   * country selected at that moment.
   */
  lemma OutcomeAnswersSelection(s: State, e: Event)
    requires Inv(s) && Enabled(s, e)
    requires e.FetchSucceeded? || e.FetchFailed?
    ensures s.inFlight == 1
    ensures s.selectedCountry.Some?
    ensures s.requested.Some? && s.requested.value.country == s.selectedCountry.value.value
    ensures Next(s, e).selectedCountry == s.selectedCountry && Next(s, e).inFlight == 0
  {
  }

  /**
   * Geolocation success: a code in the catalog selects exactly the entry with
   * that code; an unmapped code leaves no selection and sets no error; either
   * way loading ends, and only a selection makes the holidays effect due.
   */
  lemma GeoSuccessSelects(s: State, code: string)
    ensures var t := Next(s, GeoSucceeded(code));
      && !t.loading
      && t.error == s.error
      && t.countryCode == code
      && (forall o :: o in CountryOptions ==> (t.selectedCountry == Some(o) <==> o.value == code))
      && ((forall o :: o in CountryOptions ==> o.value != code) ==> t.selectedCountry.None?)
      && t.holidays == s.holidays
  {
    LookupSelectsExactly(code);
  }

  /** Geolocation failure: the message becomes the error, nothing is selected, loading ends. */
  lemma GeoFailureSetsError(s: State, message: string)
    ensures var t := Next(s, GeoFailed(message));
      && !t.loading
      && t.error == Some(message)
      && t.selectedCountry == s.selectedCountry
      && t.holidays == s.holidays
  {
  }

  /**
   * The holidays effect does nothing without a selected country; with one it
   * sets loading and issues a request for that country and the given year,
   * leaving the error and the list as they were until the outcome.
   */
  lemma FetchStartGuard(s: State, year: int)
    ensures var t := Next(s, FetchStarted(year));
      && (s.selectedCountry.None? ==>
            t.loading == s.loading && t.error == s.error && t.holidays == s.holidays
            && t.selectedCountry == s.selectedCountry && t.inFlight == s.inFlight)
      && (s.selectedCountry.Some? ==>
            t.loading && t.error == s.error && t.holidays == s.holidays
            && t.inFlight == s.inFlight + 1
            && t.requested == Some(Request(year, s.selectedCountry.value.value)))
  {
  }

  /**
   * A successful fetch replaces the list wholesale with the response in
   * response order and clears the error; a failed one sets the error and
   * empties the list. Both end loading once no other request is in flight.
   */
  lemma FetchOutcome(s: State, response: seq<Holiday>, message: string)
    requires Inv(s) && s.inFlight > 0
    ensures var t := Next(s, FetchSucceeded(response));
      t.holidays == response && t.error.None? && !t.loading && t.selectedCountry == s.selectedCountry
    ensures var t := Next(s, FetchFailed(message));
      t.holidays == [] && t.error == Some(message) && !t.loading && t.selectedCountry == s.selectedCountry
  {
  }

  /** Choosing a country selects it and makes the holidays effect due, and nothing else. */
  lemma CountryChangeSelects(s: State, o: CountryOption)
    ensures var t := Next(s, CountryChanged(o));
      t.selectedCountry == Some(o) && t.fetchDue
      && t.loading == s.loading && t.error == s.error && t.holidays == s.holidays
  {
  }

  /**
   * The error screen is final: the error screen offers no selector, and with
   * nothing in flight no other event can change what is shown, so every valid
   * run from it keeps the same error, selection and list.
   */
  lemma {:induction false} ErrorScreenIsFinal(s: State, es: seq<Event>)
    requires Inv(s) && ScreenOfState(s) == ErrorScreen
    requires ValidRun(s, es)
    ensures var t := Run(s, es);
      && ScreenOfState(t) == ErrorScreen
      && t.error == s.error && t.selectedCountry == s.selectedCountry && t.holidays == s.holidays
    decreases es
  {
    if es != [] {
      var t := Next(s, es[0]);
      assert t.error == s.error && t.selectedCountry == s.selectedCountry && t.holidays == s.holidays;
      NextKeepsInv(s, es[0]);
      ErrorScreenIsFinal(t, es[1..]);
    }
  }

  /**
   * A geolocation failure with a message leaves the component on the error
   * screen for good: no country is ever selected, so no holidays request is
   * ever issued and the list stays empty.
   */
  lemma GeoFailureIsFinal(s: State, message: string, es: seq<Event>)
    requires Inv(s) && s.geoPending && message != ""
    requires ValidRun(s, [GeoFailed(message)] + es)
    ensures var t := Run(s, [GeoFailed(message)] + es);
      && ScreenOfState(t) == ErrorScreen
      && t.error == Some(message) && t.selectedCountry.None? && t.holidays == [] && t.inFlight == 0
  {
    var s1 := Next(s, GeoFailed(message));
    assert ([GeoFailed(message)] + es)[1..] == es;
    NextKeepsInv(s, GeoFailed(message));
    ErrorScreenIsFinal(s1, es);
    RunKeepsInv(s1, es);
  }

  /**
   * A geolocation failure whose message is empty sets the error but, the
   * empty string being falsy, shows the empty screen with its selector.
   */
  lemma EmptyGeoMessageShowsSelector(s: State)
    requires Inv(s) && s.geoPending
    ensures var t := Next(s, GeoFailed(""));
      t.error == Some("") && ScreenOfState(t) == EmptyScreen && OffersCountrySelect(ScreenOfState(t))
  {
  }

  /**
   * A whole session: geolocation answers "US", the effect requests the 2024
   * holidays for it, and the service answers Christmas Day before New Year's
   * Day (dates as UTC midnight instants); the table then lists New Year's Day
   * first.
   */
  lemma UnitedStatesSession(now: int)
    ensures var christmas := Holiday(1735084800000, "Christmas Day");
      var newYear := Holiday(1704067200000, "New Year's Day");
      var es := [GeoSucceeded("US"), FetchStarted(2024), FetchSucceeded([christmas, newYear])];
      var s := Run(Initial, es);
      && ValidRun(Initial, es)
      && Run(Initial, es[..2]).requested == Some(Request(2024, "US"))
      && s.holidays == [christmas, newYear]
      && Render(s.loading, s.error, s.holidays, now).TableView?
      && |Render(s.loading, s.error, s.holidays, now).rows| == 2
      && Render(s.loading, s.error, s.holidays, now).rows[0].name == "New Year's Day"
      && Render(s.loading, s.error, s.holidays, now).rows[1].name == "Christmas Day"
  {
    var christmas := Holiday(1735084800000, "Christmas Day");
    var newYear := Holiday(1704067200000, "New Year's Day");
    var us := CountryOption("US", "United States");
    FindReturnsFirst(CountryOptions, "US", 0);
    var s1 := Next(Initial, GeoSucceeded("US"));
    assert s1.selectedCountry == Some(us);
    var s2 := Next(s1, FetchStarted(2024));
    assert s2.requested == Some(Request(2024, "US"));
    var es := [GeoSucceeded("US"), FetchStarted(2024), FetchSucceeded([christmas, newYear])];
    assert es[1..][1..][1..] == [];
    assert ValidRun(s2, es[1..][1..]);
    assert ValidRun(s1, es[1..]);
    assert es[..2][1..][1..] == [];
    assert Run(s1, es[..2][1..]) == s2;
    var s3 := Next(s2, FetchSucceeded([christmas, newYear]));
    assert Run(s2, es[1..][1..]) == s3;
    assert Run(s1, es[1..]) == s3;
    assert SortByDate([christmas, newYear]) == [newYear, christmas];
  }

  /**
   * A holidays answer with no holidays shows the empty screen, not the
   * error screen, whatever error was shown before.
   */
  lemma EmptyResponseShowsEmptyScreen(s: State)
    requires Inv(s) && s.inFlight > 0
    ensures ScreenOfState(Next(s, FetchSucceeded([]))) == EmptyScreen
  {
    FetchOutcome(s, [], "");
  }
}
