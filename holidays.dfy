/**
 * Holiday records and the chronological view of them: the list is copied and
 * sorted ascending by date with a stable sort, so holidays on the same date
 * keep the order in which the holidays service returned them.
 */
module Holidays {

  /**
   * One holiday as returned by the holidays service. The date is the instant
   * the date string denotes, in milliseconds; the service's other fields are
   * never read and are not modelled.
   */
  datatype Holiday = Holiday(date: int, name: string)

  /** Non-decreasing by date. */
  predicate SortedByDate(hs: seq<Holiday>)
  {
    forall i, j :: 0 <= i < j < |hs| ==> hs[i].date <= hs[j].date
  }

  /** The holidays dated `k`, in the order they appear in `hs`. */
  function OnDate(hs: seq<Holiday>, k: int): (r: seq<Holiday>)
    ensures forall h :: h in r ==> h in hs && h.date == k
  {
    if hs == [] then []
    else if hs[0].date == k then [hs[0]] + OnDate(hs[1..], k)
    else OnDate(hs[1..], k)
  }

  /**
   * Places `h` in front of the first element of the sorted `hs` whose date is
   * not earlier than its own, so that it precedes every equal-dated element.
   */
  function Insert(h: Holiday, hs: seq<Holiday>): (r: seq<Holiday>)
    requires SortedByDate(hs)
    ensures SortedByDate(r)
    ensures multiset(r) == multiset(hs) + multiset{h}
    ensures |r| == |hs| + 1 && (r[0] == h || (hs != [] && r[0] == hs[0]))
  {
    if hs == [] || h.date <= hs[0].date then
      ConsSorted(h, hs);
      [h] + hs
    else
      var rest := Insert(h, hs[1..]);
      ConsSorted(hs[0], rest);
      assert hs == [hs[0]] + hs[1..];
      [hs[0]] + rest
  }

  /** Putting a holiday no later than the head in front of a sorted list keeps it sorted. */
  lemma ConsSorted(h: Holiday, hs: seq<Holiday>)
    requires SortedByDate(hs) && (hs == [] || h.date <= hs[0].date)
    ensures SortedByDate([h] + hs)
  {
    forall i, j | 0 <= i < j < |[h] + hs|
      ensures ([h] + hs)[i].date <= ([h] + hs)[j].date
    {
      if i == 0 && j > 1 {
        assert hs[0].date <= hs[j - 1].date;
      }
    }
  }

  /**
   * `[...holidays].sort((a, b) => a.date - b.date)`: a sorted copy, the
   * argument itself being a value that is left as it was.
   */
  function SortByDate(hs: seq<Holiday>): (r: seq<Holiday>)
    ensures SortedByDate(r)
    ensures multiset(r) == multiset(hs)
    ensures |r| == |hs|
  {
    if hs == [] then []
    else
      assert hs == [hs[0]] + hs[1..];
      Insert(hs[0], SortByDate(hs[1..]))
  }

  /** Inserting `h` adds it in front of the holidays already on its date. */
  lemma {:induction false} InsertOnDate(h: Holiday, hs: seq<Holiday>, k: int)
    requires SortedByDate(hs)
    ensures OnDate(Insert(h, hs), k) == if h.date == k then [h] + OnDate(hs, k) else OnDate(hs, k)
  {
    if hs == [] || h.date <= hs[0].date {
      assert ([h] + hs)[1..] == hs;
    } else {
      InsertOnDate(h, hs[1..], k);
      assert ([hs[0]] + Insert(h, hs[1..]))[1..] == Insert(h, hs[1..]);
    }
  }

  /**
   * Stability: for every date, the holidays on that date appear in the sorted
   * copy in the same relative order as in the input.
   */
  lemma {:induction false} SortIsStable(hs: seq<Holiday>, k: int)
    ensures OnDate(SortByDate(hs), k) == OnDate(hs, k)
  {
    if hs != [] {
      SortIsStable(hs[1..], k);
      InsertOnDate(hs[0], SortByDate(hs[1..]), k);
    }
  }

  /** A non-empty sequence holds its first holiday on that holiday's date. */
  lemma OnOwnDate(hs: seq<Holiday>)
    ensures hs != [] ==> OnDate(hs, hs[0].date) != []
  {
  }

  /**
   * A sorted sequence is determined by what it holds on each date: two sorted
   * sequences that agree on every date are equal.
   */
  lemma {:induction false} SortedDeterminedByDates(a: seq<Holiday>, b: seq<Holiday>)
    requires SortedByDate(a) && SortedByDate(b)
    requires forall k :: OnDate(a, k) == OnDate(b, k)
    ensures a == b
  {
    if a == [] && b == [] {
    } else if a == [] {
      OnOwnDate(b);
      assert false;
    } else if b == [] {
      OnOwnDate(a);
      assert false;
    } else {
      var ka, kb := a[0].date, b[0].date;
      assert OnDate(b, ka) == OnDate(a, ka) != [];
      var x := OnDate(b, ka)[0];
      assert x in OnDate(b, ka);
      assert ka >= kb;
      assert OnDate(a, kb) == OnDate(b, kb) != [];
      var y := OnDate(a, kb)[0];
      assert y in OnDate(a, kb);
      assert kb >= ka;
      assert a[0] == b[0];
      forall k
        ensures OnDate(a[1..], k) == OnDate(b[1..], k)
      {
        if ka == k {
          assert OnDate(a[1..], k) == OnDate(a, k)[1..];
          assert OnDate(b[1..], k) == OnDate(b, k)[1..];
        } else {
          assert OnDate(a[1..], k) == OnDate(a, k);
          assert OnDate(b[1..], k) == OnDate(b, k);
        }
      }
      SortedDeterminedByDates(a[1..], b[1..]);
      assert a == [a[0]] + a[1..];
      assert b == [b[0]] + b[1..];
    }
  }

  /**
   * The sorted copy is THE stable chronological order: any sequence that is
   * sorted by date and keeps each date's holidays in input order equals it.
   */
  lemma StableSortIsUnique(hs: seq<Holiday>, r: seq<Holiday>)
    requires SortedByDate(r)
    requires forall k :: OnDate(r, k) == OnDate(hs, k)
    ensures r == SortByDate(hs)
  {
    forall k
      ensures OnDate(r, k) == OnDate(SortByDate(hs), k)
    {
      SortIsStable(hs, k);
    }
    SortedDeterminedByDates(r, SortByDate(hs));
  }
}
