/**
 * The component as an object: its state fields, updated in place by one
 * method per event, in the order the component's setters run. Each method
 * leaves the object in the state that AppState.Next gives for its event, so
 * every property proved of Next and of runs holds of the object.
 */
module App {
  import opened Wrappers
  import opened Catalog
  import opened Holidays
  import opened AppState

  class HolidayApp {
    // the component's state
    var countryCode: string
    var holidays: seq<Holiday>
    var loading: bool
    var error: Option<string>
    var selectedCountry: Option<CountryOption>
    // what the runtime around the component knows (see AppState)
    var geoPending: bool
    var fetchDue: bool
    var inFlight: nat
    var requested: Option<Request>

    /** The object's fields as a state value. */
    function Snapshot(): State
      reads this
    {
      State(countryCode, holidays, loading, error, selectedCountry, geoPending, fetchDue, inFlight, requested)
    }

    ghost predicate Valid()
      reads this
    {
      Inv(Snapshot())
    }

    /** Mounting: the initial values of the five state hooks. */
    constructor ()
      ensures Valid() && Snapshot() == Initial
    {
      countryCode := "";
      holidays := [];
      loading := true;
      error := None;
      selectedCountry := None;
      geoPending, fetchDue, inFlight, requested := true, true, 0, None;
    }

    /** The geolocation request answered with `code`. */
    method CountryCodeResolved(code: string)
      requires Valid() && Enabled(Snapshot(), GeoSucceeded(code))
      modifies this
      ensures Valid() && Snapshot() == Next(old(Snapshot()), GeoSucceeded(code))
    {
      countryCode := code;
      selectedCountry := Find(CountryOptions, code);
      loading := false;
      geoPending := false;
      fetchDue := fetchDue || selectedCountry.Some?;
      NextKeepsInv(old(Snapshot()), GeoSucceeded(code));
    }

    /** The geolocation request failed with `message`. */
    method CountryCodeFailed(message: string)
      requires Valid() && Enabled(Snapshot(), GeoFailed(message))
      modifies this
      ensures Valid() && Snapshot() == Next(old(Snapshot()), GeoFailed(message))
    {
      error := Some(message);
      loading := false;
      geoPending := false;
      NextKeepsInv(old(Snapshot()), GeoFailed(message));
    }

    /**
     * The holidays effect runs in `year`: with a selected country it sets
     * loading and returns the request it issues; without one it does nothing.
     */
    method FetchHolidays(year: int) returns (request: Option<Request>)
      requires Valid() && Enabled(Snapshot(), FetchStarted(year))
      modifies this
      ensures request == RequestFor(old(Snapshot()), year)
      ensures Valid() && Snapshot() == Next(old(Snapshot()), FetchStarted(year))
    {
      fetchDue := false;
      if selectedCountry.Some? {
        loading := true;
        request := Some(Request(year, selectedCountry.value.value));
        inFlight := inFlight + 1;
        requested := request;
      } else {
        request := None;
      }
      NextKeepsInv(old(Snapshot()), FetchStarted(year));
    }

    /** The holidays request answered with `response`. */
    method HolidaysReceived(response: seq<Holiday>)
      requires Valid() && Enabled(Snapshot(), FetchSucceeded(response))
      modifies this
      ensures Valid() && Snapshot() == Next(old(Snapshot()), FetchSucceeded(response))
    {
      holidays := response;
      error := None;
      loading := false;
      inFlight := inFlight - 1;
      NextKeepsInv(old(Snapshot()), FetchSucceeded(response));
    }

    /** The holidays request failed with `message`. */
    method HolidaysFailed(message: string)
      requires Valid() && Enabled(Snapshot(), FetchFailed(message))
      modifies this
      ensures Valid() && Snapshot() == Next(old(Snapshot()), FetchFailed(message))
    {
      error := Some(message);
      holidays := [];
      loading := false;
      inFlight := inFlight - 1;
      NextKeepsInv(old(Snapshot()), FetchFailed(message));
    }

    /** The user picked `option` in the country selector. */
    method HandleChangeCountry(option: CountryOption)
      requires Valid() && Enabled(Snapshot(), CountryChanged(option))
      modifies this
      ensures Valid() && Snapshot() == Next(old(Snapshot()), CountryChanged(option))
    {
      selectedCountry := Some(option);
      fetchDue := true;
      NextKeepsInv(old(Snapshot()), CountryChanged(option));
    }
  }
}
