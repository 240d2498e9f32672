# Public holidays widget — a Dafny model

This project models the logic of a single-page widget that finds the
visitor's country with a geolocation service, lets the visitor pick another
country from a fixed list of ten, fetches that country's public holidays
for the current year, and shows them sorted by date with a countdown to
each one. The component (`src/App.jsx`) is modelled as:

- `Catalog` — the ten `{value, label}` country options and the first-match
  lookup of a geolocation country code (`find(...) || null`).
- `Holidays` — a holiday record (date as an integer instant in milliseconds,
  name) and the copy-and-sort that orders the list chronologically, as a
  stable insertion sort written as functions.
- `Countdown` — the countdown cell: "Passed" when the holiday lies before
  now, otherwise whole days, hours modulo 24 and minutes modulo 60, with the
  date library's round-toward-zero unit difference and JavaScript's `%`
  written out.
- `View` — the choice among the loading, error, table and empty screens, and
  the table rows.
- `AppState` — the five pieces of component state as a value, the events
  that change them (geolocation succeeded/failed, holidays fetch started/
  succeeded/failed, country changed), the transition function `Next`, which
  events can occur in which state (`Enabled`), the reachable-state
  invariant `Inv`, and runs of events.
- `App` — the component as a class `HolidayApp` with the state fields and one
  method per event; each method updates the fields in the source's order and
  ends in the state `Next` gives.

The awaited network answers are the events' arguments; the calendar year of
a fetch and the clock reading `now` are parameters.

Besides the five state fields, the state records four facts about the
runtime around the component: whether the geolocation answer is awaited,
whether the holidays effect is due after a change of selection, how many
holidays requests are in flight, and the last request issued. A choice of
country is possible only from a visible selector (table or empty screen) and
only after the effect of the previous choice has run, as the UI runtime
flushes effects before it handles the next discrete input.

Three behaviours of the code a reader may not expect:

- The error screen is chosen by `if (error)`, a truthiness test: an error whose
  message is the empty string shows the table or empty screen, with the
  selector (`AppState.EmptyGeoMessageShowsSelector`).
- "Passed" is shown only for a holiday strictly before now (`isBefore`); a
  holiday at exactly now shows 0 days, 0 hours, 0 minutes
  (`Countdown.CountdownAtNow`).
- A slow holidays answer cannot overwrite a newer selection's in the
  model: the
  selector is not rendered while loading, so at most one holidays request is
  ever in flight and its answer is for the country still selected
  (`AppState.OutcomeAnswersSelection`).

## Model

| member | source | states |
|---|---|---|
| `Catalog.Find` | src/App.jsx:32 | a found option is in the list and carries the code; no option is found only when no option carries the code |
| `Catalog.FindReturnsFirst` | src/App.jsx:32 | the lookup returns the first option, in list order, whose value is the code |
| `Catalog.CatalogCodesDistinct` | src/App.jsx:14-25 | the ten catalog entries have pairwise different country codes |
| `Catalog.LookupSelectsExactly` | src/App.jsx:14-32 | looking a code up in the catalog yields exactly the entry with that code, and nothing iff no entry has it |
| `Catalog.LookupFrance` | src/App.jsx:19 | the code "FR" resolves to the France entry |
| `Catalog.LookupUnmapped` | src/App.jsx:32 | the unmapped code "ZZ" resolves to no selection |
| `Holidays.Insert` | src/App.jsx:65 | inserting into a date-sorted list gives a date-sorted list holding the same holidays plus the new one |
| `Holidays.SortByDate` | src/App.jsx:64-66 | the sorted copy is non-decreasing by date and a permutation of the list |
| `Holidays.SortIsStable` | src/App.jsx:65 | for every date, the holidays on that date keep their relative input order in the sorted copy |
| `Holidays.SortedDeterminedByDates` | src/App.jsx:65 | two date-sorted sequences holding the same holidays, in the same order, on every date are equal |
| `Holidays.StableSortIsUnique` | src/App.jsx:64-66 | any date-sorted sequence that keeps each date's holidays in input order is the sorted copy |
| `Countdown.TruncDivRoundsTowardZero` | src/App.jsx:111-113 | the unit difference rounds toward zero: for a non-negative duration the largest whole count of units not exceeding it, for a negative one the smallest whole count not below it |
| `Countdown.TruncDiv` | src/App.jsx:111-113 | the date library's whole-unit quotient: the floor quotient for a non-negative duration, never positive for a negative one; its rounding toward zero is stated by TruncDivRoundsTowardZero |
| `Countdown.Diff` | src/App.jsx:111-113 | `moment(t).diff(now, unit)`: for a holiday not before now the non-negative whole units until it, otherwise not positive; the figures built from it are bounded and recomposed by CountdownBounds and CountdownRecomposes |
| `Countdown.JsRem` | src/App.jsx:112-113 | the remainder has the dividend's sign, is smaller than the divisor in magnitude, and recomposes the dividend with the truncated quotient |
| `Countdown.CountdownAt` | src/App.jsx:107-113 | the cell is "Passed" exactly when the holiday's instant is before now |
| `Countdown.CountdownBounds` | src/App.jsx:111-113 | for a holiday not passed: days >= 0, 0 <= hours < 24, 0 <= minutes < 60 |
| `Countdown.CountdownRecomposes` | src/App.jsx:111-113 | days*24 + hours is the whole hours and days*1440 + hours*60 + minutes the whole minutes until the holiday |
| `Countdown.CountdownAtNow` | src/App.jsx:107-113 | a holiday at exactly now is not passed and shows 0 days, 0 hours, 0 minutes |
| `View.ScreenOf` | src/App.jsx:72-122 | exactly one screen: loading iff loading; error iff not loading and the error is truthy; table iff neither and the sorted list is non-empty; empty otherwise (RenderPriority restates it for the rendered view) |
| `View.Render` | src/App.jsx:72-123 | the loading view iff loading; an error view shows the non-empty error message; a table has one row per holiday; order and countdowns of the rows by TableListsHolidaysChronologically |
| `View.RenderPriority` | src/App.jsx:72-123 | loading shows the loading screen whatever else holds; else a truthy error shows the error; else the table exactly when there are holidays, the empty message otherwise |
| `View.TableListsHolidaysChronologically` | src/App.jsx:92-118 | the table has one row per holiday, rows non-decreasing by date, each row the sorted holiday at its position with its countdown |
| `AppState.InitialInv` | src/App.jsx:8-12 | on mount the component is loading with no error, no selection and no holidays, and the invariant holds |
| `AppState.Next` | src/App.jsx:29-70 | each field changes only through its own setters: the code only on a geolocation answer, the list only on a holidays outcome, the selection only on a geolocation answer or a choice, loading turned on only by the holidays effect with a selection, an error set only by a failure; invariant by NextKeepsInv and RunKeepsInv, per event by the lemmas below |
| `AppState.RequestFor` | src/App.jsx:45-49 | a request is issued exactly when a country is selected, for that country's code and the given year |
| `AppState.NextKeepsInv` | src/App.jsx:27-70 | every event that can occur keeps the invariant: loading exactly while a request is in flight, at most one holidays request in flight and it is for the selected country, selections from the catalog |
| `AppState.RunKeepsInv` | src/App.jsx:27-70 | the invariant holds after every sequence of events that can occur |
| `AppState.OutcomeAnswersSelection` | src/App.jsx:43-62 | in every state satisfying the invariant (every reachable one), a holidays answer arrives for the single request in flight, which was issued for the country still selected, and leaves the selection unchanged |
| `AppState.GeoSuccessSelects` | src/App.jsx:30-36 | a geolocation answer selects exactly the catalog entry with its code, or nothing for an unmapped code, without touching the error; loading ends |
| `AppState.GeoFailureSetsError` | src/App.jsx:33-36 | a geolocation failure sets the error to its message, leaves the selection and the list, and ends loading |
| `AppState.FetchStartGuard` | src/App.jsx:45-49 | without a selected country the holidays effect changes nothing; with one it sets loading and issues a request for that country and year, keeping error and list |
| `AppState.FetchOutcome` | src/App.jsx:50-56 | a successful fetch replaces the list with the response in response order and clears the error; a failed one sets the error and empties the list; both end loading |
| `AppState.EmptyResponseShowsEmptyScreen` | src/App.jsx:50-56 | a holidays answer with no holidays shows the empty screen, not the error screen |
| `AppState.CountryChangeSelects` | src/App.jsx:68-70 | choosing a country selects it and makes the holidays effect due, changing nothing else shown |
| `AppState.ErrorScreenIsFinal` | src/App.jsx:76-90 | from the error screen no event changes what is shown: every run keeps the error screen, the error, the selection and the list |
| `AppState.GeoFailureIsFinal` | src/App.jsx:33-45 | after a geolocation failure with a message, the component stays on the error screen, never selects a country and its list stays empty |
| `AppState.EmptyGeoMessageShowsSelector` | src/App.jsx:76-90 | a geolocation failure with an empty message sets the error yet shows the empty screen with the selector |
| `AppState.UnitedStatesSession` | src/App.jsx:29-122 | geolocation "US", a 2024 request for "US", and an answer of Christmas then New Year's Day give a table listing New Year's Day first |
| `App.HolidayApp.constructor` | src/App.jsx:8-12 | the new component holds the initial state |
| `App.HolidayApp.CountryCodeResolved` | src/App.jsx:30-36 | stores the code, the looked-up selection and loading false, ending in the state Next gives, invariant kept |
| `App.HolidayApp.CountryCodeFailed` | src/App.jsx:33-36 | stores the error message and loading false, ending in the state Next gives, invariant kept |
| `App.HolidayApp.FetchHolidays` | src/App.jsx:44-49 | returns the request for the selected country and year, or none without a selection, and ends in the state Next gives |
| `App.HolidayApp.HolidaysReceived` | src/App.jsx:50-56 | stores the response, clears the error, ends loading, as Next gives |
| `App.HolidayApp.HolidaysFailed` | src/App.jsx:52-56 | stores the error, empties the list, ends loading, as Next gives |
| `App.HolidayApp.HandleChangeCountry` | src/App.jsx:68-70 | stores the chosen option and makes the holidays effect due, as Next gives |

## Left out

- The two HTTP requests and their endpoints: only their outcomes are modelled, as event arguments.
- Malformed answers: a geolocation answer without a country code is an unmapped code; a holidays answer that is not a list, and date strings the date library cannot parse, are not modelled (the list is a list of records with integer instants).
- Parsing of the date strings and the "Month DD, YYYY" formatting of the date column: a date is an opaque integer instant; the row carries it unformatted.
- The date library's correction of the day difference for a change of UTC offset, and the fact that the three countdown figures read the clock separately: `now` is one parameter.
- The wall clock: the request year and `now` are parameters.
- Hook scheduling, memoisation of the sorted list, markup, styling and the dropdown widget's internals. The sorted list is recomputed from the state by a function, so the stored list is never reordered.
- Identity of option objects: every pick in the selector is taken to change the selection and refetch, as the option objects differ between renders.
- Out-of-order completion of overlapping holidays requests: the model admits one request in flight at a time, which is what the hidden selector allows; answers are applied in the order the events arrive.
- The React keys of the table rows (duplicate dates only draw a warning in the UI library).
