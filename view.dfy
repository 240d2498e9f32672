/**
 * What the component renders: exactly one of the loading message, the error
 * message, the holidays table or the "no holidays" message, chosen in that
 * order of priority from the loading flag, the error and the sorted list.
 */
module View {
  import opened Wrappers
  import opened Holidays
  import opened Countdown

  /** The four mutually exclusive screens. */
  datatype Screen = LoadingScreen | ErrorScreen | TableScreen | EmptyScreen

  /** One table row: the holiday's date, its name and its countdown cell. */
  datatype Row = Row(date: int, name: string, countdown: Countdown)

  /** A rendered screen together with what it displays. */
  datatype View = LoadingView | ErrorView(message: string) | TableView(rows: seq<Row>) | EmptyView

  /**
   * `if (error)`: the error takes effect only when it is truthy, so a failure
   * whose message is the empty string does not count as an error here.
   */
  predicate ErrorShown(error: Option<string>)
  {
    error.Some? && error.value != ""
  }

  /** The render branches, in the order the component tests them. */
  function ScreenOf(loading: bool, error: Option<string>, sorted: seq<Holiday>): (r: Screen)
    ensures r == LoadingScreen <==> loading
    ensures r == ErrorScreen <==> !loading && ErrorShown(error)
    ensures r == TableScreen <==> !loading && !ErrorShown(error) && sorted != []
    ensures r == EmptyScreen <==> !loading && !ErrorShown(error) && sorted == []
  {
    if loading then LoadingScreen
    else if ErrorShown(error) then ErrorScreen
    else if |sorted| > 0 then TableScreen
    else EmptyScreen
  }

  /** The country selector is part of the table and the empty screens only. */
  predicate OffersCountrySelect(s: Screen)
  {
    s == TableScreen || s == EmptyScreen
  }

  /** One row per holiday of the sorted list, in its order, each with its countdown at `now`. */
  function Rows(sorted: seq<Holiday>, now: int): (rows: seq<Row>)
  {
    seq(|sorted|, i requires 0 <= i < |sorted| => Row(sorted[i].date, sorted[i].name, CountdownAt(sorted[i].date, now)))
  }

  /** The component's output for the given state and clock reading. */
  function Render(loading: bool, error: Option<string>, holidays: seq<Holiday>, now: int): (v: View)
    ensures v.LoadingView? <==> loading
    ensures v.ErrorView? ==> error.Some? && v.message == error.value != ""
    ensures v.TableView? ==> |v.rows| == |holidays| > 0
  {
    var sorted := SortByDate(holidays);
    match ScreenOf(loading, error, sorted)
    case LoadingScreen => LoadingView
    case ErrorScreen => ErrorView(error.value)
    case TableScreen => TableView(Rows(sorted, now))
    case EmptyScreen => EmptyView
  }

  /**
   * The render priority: loading overrides everything; otherwise a truthy
   * error shows the error; otherwise the table is shown exactly when there
   * are holidays, and the empty message otherwise.
   */
  lemma RenderPriority(loading: bool, error: Option<string>, holidays: seq<Holiday>, now: int)
    ensures loading ==> Render(loading, error, holidays, now) == LoadingView
    ensures !loading && ErrorShown(error) ==> Render(loading, error, holidays, now) == ErrorView(error.value)
    ensures !loading && !ErrorShown(error) ==>
      (Render(loading, error, holidays, now).TableView? <==> |holidays| > 0)
    ensures !loading && !ErrorShown(error) ==>
      (Render(loading, error, holidays, now) == EmptyView <==> holidays == [])
  {
  }

  /**
   * The table lists the holidays in chronological order, one row per
   * holiday, no holiday lost or repeated, equal dates in service order.
   */
  lemma TableListsHolidaysChronologically(loading: bool, error: Option<string>, holidays: seq<Holiday>, now: int)
    requires !loading && !ErrorShown(error) && holidays != []
    ensures Render(loading, error, holidays, now).TableView?
    ensures var rows := Render(loading, error, holidays, now).rows;
      && |rows| == |holidays|
      && (forall i, j :: 0 <= i < j < |rows| ==> rows[i].date <= rows[j].date)
      && (forall i :: 0 <= i < |rows| ==> rows[i].countdown == CountdownAt(rows[i].date, now))
      && (forall i :: 0 <= i < |rows| ==> Holiday(rows[i].date, rows[i].name) == SortByDate(holidays)[i])
  {
  }
}
