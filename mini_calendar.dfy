/**
 * The dashboard's mini calendar: it marks every month-view tile whose day
 * falls in the inclusive date-only range of a fetched day-off, and refetches
 * the day-offs of the visible month, replacing the list.
 */
module MiniCalendar {
  import opened Wrappers
  import opened Instants
  import opened DayOffTypes

  /** The views a calendar tile can belong to. */
  datatype View = MonthView | YearView | DecadeView | CenturyView

  /**
   * The test inside `dayOffs.some(...)`: the tile's midnight lies between the
   * midnights of the day-off's start and end, bounds included.
   */
  predicate Covers(d: DayOff, tile: Instant) {
    var dDate := Midnight(tile);
    var sDate := Midnight(d.init_hour);
    var eDate := Midnight(d.end_hour);
    InstantLe(sDate, dDate) && InstantLe(dDate, eDate)
  }

  /** `dayOffs.some(covers tile)`. */
  function SomeCovers(dayOffs: seq<DayOff>, tile: Instant): (found: bool)
    ensures found <==> exists i :: 0 <= i < |dayOffs| && DayLe(dayOffs[i].init_hour, tile) && DayLe(tile, dayOffs[i].end_hour)
  {
    if dayOffs == [] then false
    else
      MidnightOrder(dayOffs[0].init_hour, tile);
      MidnightOrder(tile, dayOffs[0].end_hour);
      var rest := SomeCovers(dayOffs[1..], tile);
      assert rest <==> exists i :: 1 <= i < |dayOffs| && DayLe(dayOffs[i].init_hour, tile) && DayLe(tile, dayOffs[i].end_hour) by {
        assert forall i :: 1 <= i < |dayOffs| ==> dayOffs[1..][i - 1] == dayOffs[i];
      }
      Covers(dayOffs[0], tile) || rest
  }

  /**
   * `tileClassName` returns the day-off class name (true) or null (false):
   * a tile is marked iff the view is the month view and some day-off has
   * start day <= tile day <= end day.
   */
  function TileMarked(dayOffs: seq<DayOff>, tile: Instant, view: View): (marked: bool)
    ensures marked <==> (view == MonthView &&
      exists i :: 0 <= i < |dayOffs| && DayLe(dayOffs[i].init_hour, tile) && DayLe(tile, dayOffs[i].end_hour))
  {
    view == MonthView && SomeCovers(dayOffs, tile)
  }

  /** Views other than the month view are never marked. */
  lemma OtherViewsUnmarked(dayOffs: seq<DayOff>, tile: Instant, view: View)
    requires view != MonthView
    ensures !TileMarked(dayOffs, tile, view)
  {
  }

  /**
   * Only calendar days matter: replacing the start, end and tile instants by
   * any instants on the same days (other hours, minutes, seconds) keeps the marking.
   */
  lemma MarkingIgnoresTimeOfDay(dayOffs: seq<DayOff>, shifted: seq<DayOff>, tile: Instant, tile': Instant, view: View)
    requires |shifted| == |dayOffs|
    requires forall i :: 0 <= i < |dayOffs| ==>
      SameDate(shifted[i].init_hour, dayOffs[i].init_hour) && SameDate(shifted[i].end_hour, dayOffs[i].end_hour)
    requires SameDate(tile', tile)
    ensures TileMarked(shifted, tile', view) == TileMarked(dayOffs, tile, view)
  {
    if TileMarked(dayOffs, tile, view) {
      var i :| 0 <= i < |dayOffs| && DayLe(dayOffs[i].init_hour, tile) && DayLe(tile, dayOffs[i].end_hour);
      assert DayLe(shifted[i].init_hour, tile') && DayLe(tile', shifted[i].end_hour);
    }
    if TileMarked(shifted, tile', view) {
      var i :| 0 <= i < |shifted| && DayLe(shifted[i].init_hour, tile') && DayLe(tile', shifted[i].end_hour);
      assert DayLe(dayOffs[i].init_hour, tile) && DayLe(tile, dayOffs[i].end_hour);
    }
  }

  /** A day-off whose end day is before its start day covers no tile. */
  lemma InvertedRangeCoversNothing(d: DayOff, tile: Instant)
    requires !DayLe(d.init_hour, d.end_hour)
    ensures !TileMarked([d], tile, MonthView)
  {
    if TileMarked([d], tile, MonthView) {
      DayLeTotalPreorder(d.init_hour, tile, d.end_hour);
    }
  }

  /**
   * Appending a day-off marks exactly the tiles marked before plus the days
   * it covers; in particular no marked tile becomes unmarked.
   */
  lemma AppendMarks(dayOffs: seq<DayOff>, d: DayOff, tile: Instant, view: View)
    ensures TileMarked(dayOffs + [d], tile, view) <==>
      TileMarked(dayOffs, tile, view) || TileMarked([d], tile, view)
    ensures TileMarked(dayOffs, tile, view) ==> TileMarked(dayOffs + [d], tile, view)
  {
    var all := dayOffs + [d];
    if TileMarked(all, tile, view) {
      var i :| 0 <= i < |all| && DayLe(all[i].init_hour, tile) && DayLe(tile, all[i].end_hour);
      if i < |dayOffs| {
        assert all[i] == dayOffs[i];
      } else {
        assert [d][0] == all[i];
      }
    }
    if TileMarked(dayOffs, tile, view) {
      var i :| 0 <= i < |dayOffs| && DayLe(dayOffs[i].init_hour, tile) && DayLe(tile, dayOffs[i].end_hour);
      assert all[i] == dayOffs[i];
    }
    if TileMarked([d], tile, view) {
      assert all[|dayOffs|] == d;
    }
  }

  /** The query parameters of a month fetch. */
  datatype MonthQuery = MonthQuery(year: int, month: int)

  /**
   * `year = date.getFullYear()`, `month = date.getMonth() + 1`: the query names
   * the visible date's year and its month numbered from 1 to 12.
   */
  function MonthQueryOf(date: Instant): (q: MonthQuery)
    ensures q.year == date.year
    ensures 0 <= date.monthIndex < 12 ==> 1 <= q.month <= 12
    ensures q.month - 1 == date.monthIndex
  {
    MonthQuery(date.year, date.monthIndex + 1)
  }

  /** The component's state: the day-offs of the last successful month fetch. */
  class Calendar {
    var dayOffs: seq<DayOff>
    /** Every month query sent, in order. */
    var queries: seq<MonthQuery>

    /** Mounting starts from the empty list; the initial fetch is FetchDayOffs. */
    constructor ()
      ensures dayOffs == [] && queries == []
    {
      dayOffs := [];
      queries := [];
    }

    /**
     * `fetchDayOffs(date)`: queries the month of `date`; on success the list
     * is replaced by the body (empty for a null body), on failure it is kept.
     */
    method FetchDayOffs(date: Instant, response: ListResponse) returns (query: MonthQuery)
      modifies this
      ensures query == MonthQueryOf(date)
      ensures queries == old(queries) + [query]
      ensures dayOffs == AfterFetch(old(dayOffs), response)
    {
      query := MonthQuery(date.year, date.monthIndex + 1);
      queries := queries + [query];
      match response {
        case Failed =>
        case Received(body) =>
          dayOffs := if body.Some? then body.value else [];
      }
    }

    /** `onActiveStartDateChange`: fetch the newly visible month, when a start date is given. */
    method ActiveStartDateChange(activeStartDate: Option<Instant>, response: ListResponse)
      modifies this
      ensures activeStartDate.None? ==> dayOffs == old(dayOffs) && queries == old(queries)
      ensures activeStartDate.Some? ==>
        && queries == old(queries) + [MonthQueryOf(activeStartDate.value)]
        && dayOffs == AfterFetch(old(dayOffs), response)
    {
      if activeStartDate.Some? {
        var _ := FetchDayOffs(activeStartDate.value, response);
      }
    }
  }
}
