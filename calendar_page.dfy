/**
 * The calendar page: a click on a day deletes the day-off starting on that
 * day (after confirmation) or creates an 08:00-18:00 day-off for it, and a
 * month-view tile is highlighted when some day-off starts on its day.
 */
module CalendarPage {
  import opened Wrappers
  import opened Instants
  import opened DayOffTypes
  import opened MiniCalendar

  /** `isSameDay`: getDate, getMonth and getFullYear all agree. */
  predicate IsSameDay(d1: Instant, d2: Instant) {
    SameDate(d1, d2)
  }

  /**
   * isSameDay is an equivalence, and it is exactly the equality of the
   * midnight truncations the mini calendar compares.
   */
  lemma IsSameDayIsEquivalence(a: Instant, b: Instant, c: Instant)
    ensures IsSameDay(a, a)
    ensures IsSameDay(a, b) ==> IsSameDay(b, a)
    ensures IsSameDay(a, b) && IsSameDay(b, c) ==> IsSameDay(a, c)
    ensures IsSameDay(a, b) <==> Midnight(a) == Midnight(b)
  {
    SameDateIffSameMidnight(a, b);
  }

  /** `dayOffs.find(d => isSameDay(start of d, value))`: the first day-off starting on that day. */
  function FindStartingOn(dayOffs: seq<DayOff>, value: Instant): (r: Option<DayOff>)
    ensures r.None? <==> forall i :: 0 <= i < |dayOffs| ==> !IsSameDay(dayOffs[i].init_hour, value)
    ensures r.Some? ==> exists i :: 0 <= i < |dayOffs| && dayOffs[i] == r.value && FirstStartingOn(dayOffs, value, i)
  {
    if dayOffs == [] then None
    else if IsSameDay(dayOffs[0].init_hour, value) then
      assert FirstStartingOn(dayOffs, value, 0);
      Some(dayOffs[0])
    else
      var r := FindStartingOn(dayOffs[1..], value);
      assert forall i :: 1 <= i < |dayOffs| ==> dayOffs[1..][i - 1] == dayOffs[i];
      if r.Some? then
        var i :| 0 <= i < |dayOffs[1..]| && dayOffs[1..][i] == r.value && FirstStartingOn(dayOffs[1..], value, i);
        assert FirstStartingOn(dayOffs, value, i + 1);
        r
      else r
  }

  /** Index i holds a day-off starting on `value`, and no earlier one does. */
  predicate FirstStartingOn(dayOffs: seq<DayOff>, value: Instant, i: int) {
    && 0 <= i < |dayOffs|
    && IsSameDay(dayOffs[i].init_hour, value)
    && forall j :: 0 <= j < i ==> !IsSameDay(dayOffs[j].init_hour, value)
  }

  /**
   * The page's `tileClassName`: a tile is highlighted iff the view is the
   * month view and some day-off starts on the tile's day.
   */
  function Highlighted(dayOffs: seq<DayOff>, tile: Instant, view: View): (h: bool)
    ensures h <==> (view == MonthView && exists i :: 0 <= i < |dayOffs| && IsSameDay(dayOffs[i].init_hour, tile))
  {
    view == MonthView && FindStartingOn(dayOffs, tile).Some?
  }

  /** When no day-off ends before it starts, every highlighted tile is also marked by the mini calendar. */
  lemma HighlightedImpliesMarked(dayOffs: seq<DayOff>, tile: Instant, view: View)
    requires forall i :: 0 <= i < |dayOffs| ==> DayLe(dayOffs[i].init_hour, dayOffs[i].end_hour)
    ensures Highlighted(dayOffs, tile, view) ==> TileMarked(dayOffs, tile, view)
  {
    if Highlighted(dayOffs, tile, view) {
      var i :| 0 <= i < |dayOffs| && IsSameDay(dayOffs[i].init_hour, tile);
      assert DayLe(dayOffs[i].init_hour, tile) && DayLe(tile, dayOffs[i].end_hour);
    }
  }

  /**
   * Unlike the mini calendar, the page highlights only the first day of a
   * multi-day range: a day-off from 15/03/2024 08:00 to 16/03/2024 18:00
   * marks 16/03/2024 in the mini calendar but does not highlight it here.
   */
  lemma MultiDayRangeHighlightsStartOnly()
    ensures var d := DayOff(Some(1), None, Instant(2024, 2, 15, 8, 0, 0, 0), Instant(2024, 2, 16, 18, 0, 0, 0),
                            Some(false), None, None, None, None);
      var second := Instant(2024, 2, 16, 0, 0, 0, 0);
      TileMarked([d], second, MonthView) && !Highlighted([d], second, MonthView)
  {
    var d := DayOff(Some(1), None, Instant(2024, 2, 15, 8, 0, 0, 0), Instant(2024, 2, 16, 18, 0, 0, 0),
                    Some(false), None, None, None, None);
    var second := Instant(2024, 2, 16, 0, 0, 0, 0);
    assert DayLe([d][0].init_hour, second) && DayLe(second, [d][0].end_hour);
  }

  /** `prev.filter(p => p.id !== id)`. */
  function RemoveId(dayOffs: seq<DayOff>, id: int): (r: seq<DayOff>)
    ensures |r| <= |dayOffs|
    ensures forall i :: 0 <= i < |r| ==> r[i].id != Some(id)
  {
    if dayOffs == [] then []
    else (if dayOffs[0].id == Some(id) then [] else [dayOffs[0]]) + RemoveId(dayOffs[1..], id)
  }

  /** An entry survives the filter iff it was there and carries another id (or none). */
  lemma {:induction false} RemoveIdMembership(dayOffs: seq<DayOff>, id: int, x: DayOff)
    ensures x in RemoveId(dayOffs, id) <==> x in dayOffs && x.id != Some(id)
  {
    if dayOffs != [] {
      RemoveIdMembership(dayOffs[1..], id, x);
      assert dayOffs == [dayOffs[0]] + dayOffs[1..];
    }
  }

  /** The filter distributes over concatenation, so the kept entries stay in their order. */
  lemma {:induction false} RemoveIdConcat(a: seq<DayOff>, b: seq<DayOff>, id: int)
    ensures RemoveId(a + b, id) == RemoveId(a, id) + RemoveId(b, id)
  {
    if a == [] {
      assert a + b == b;
    } else {
      assert (a + b)[1..] == a[1..] + b;
      RemoveIdConcat(a[1..], b, id);
    }
  }

  /** Without an entry carrying the id, the filter keeps the list as it is. */
  lemma {:induction false} RemoveIdAbsent(dayOffs: seq<DayOff>, id: int)
    requires forall i :: 0 <= i < |dayOffs| ==> dayOffs[i].id != Some(id)
    ensures RemoveId(dayOffs, id) == dayOffs
  {
    if dayOffs != [] {
      RemoveIdAbsent(dayOffs[1..], id);
    }
  }

  /** The day-off a click creates: the clicked day from 08:00:00.000 to 18:00:00.000, not repeating. */
  function NewDayOff(value: Instant): (p: DayOff)
    ensures IsSameDay(p.init_hour, value) && IsSameDay(p.end_hour, value)
    ensures p.init_hour.hour == 8 && p.init_hour.minute == 0 && p.init_hour.second == 0 && p.init_hour.millis == 0
    ensures p.end_hour.hour == 18 && p.end_hour.minute == 0 && p.end_hour.second == 0 && p.end_hour.millis == 0
    ensures Valid(value) ==> Valid(p.init_hour) && Valid(p.end_hour) && InstantLe(p.init_hour, p.end_hour)
    ensures p.repeat == Some(false) && p.repeat_type.None? && p.repeat_value.None? && p.id.None?
    ensures p.user_id.None? && p.created_at.None? && p.updated_at.None?
  {
    DayOff(None, None, SetHours(value, 8, 0, 0, 0), SetHours(value, 18, 0, 0, 0), Some(false), None, None, None, None)
  }

  /** `existing.id` as a condition: JavaScript treats a missing id and the id 0 alike as false. */
  predicate HasTruthyId(d: DayOff) {
    d.id.Some? && d.id.value != 0
  }

  /** A request sent to the day-off store, with the busy flag at that moment; `mode` is the delete URL's query value. */
  datatype Request =
    | DeleteRequest(id: int, mode: string, busy: bool)
    | CreateRequest(payload: DayOff, busy: bool)

  /** What a click leaves behind: the new list, the request sent (if any), and whether an alert was shown. */
  datatype ClickOutcome = ClickOutcome(dayOffs: seq<DayOff>, request: Option<Request>, alerted: bool)

  /**
   * `handleDayClick` as a function of the list, the clicked day, the answer to
   * the confirm prompt and the outcomes of the store's delete and create calls.
   */
  function Click(dayOffs: seq<DayOff>, value: Instant, confirmed: bool,
                 deleteSucceeds: bool, created: Option<DayOff>): (o: ClickOutcome)
    ensures o.request.Some? && o.request.value.DeleteRequest? ==> o.request.value.mode == "single"
    ensures o.request.Some? ==> o.request.value.busy
    ensures o.alerted ==> o.request.Some? && o.dayOffs == dayOffs
    ensures o.alerted <==>
      && o.request.Some?
      && (o.request.value.DeleteRequest? ==> !deleteSucceeds)
      && (o.request.value.CreateRequest? ==> created.None?)
  {
    var existing := FindStartingOn(dayOffs, value);
    if existing.Some? && HasTruthyId(existing.value) then
      var id := existing.value.id.value;
      if !confirmed then ClickOutcome(dayOffs, None, false)
      else if deleteSucceeds then ClickOutcome(RemoveId(dayOffs, id), Some(DeleteRequest(id, "single", true)), false)
      else ClickOutcome(dayOffs, Some(DeleteRequest(id, "single", true)), true)
    else
      var request := Some(CreateRequest(NewDayOff(value), true));
      if created.Some? then ClickOutcome(dayOffs + [created.value], request, false)
      else ClickOutcome(dayOffs, request, true)
  }

  /**
   * A confirmed, successful delete removes every entry with the id of the
   * first day-off starting on the clicked day, and keeps every other entry in
   * its original order.
   */
  lemma ClickDeleteRemovesId(dayOffs: seq<DayOff>, value: Instant, created: Option<DayOff>, x: DayOff)
    requires FindStartingOn(dayOffs, value).Some? && HasTruthyId(FindStartingOn(dayOffs, value).value)
    ensures var id := FindStartingOn(dayOffs, value).value.id.value;
      var o := Click(dayOffs, value, true, true, created);
      && o.request == Some(DeleteRequest(id, "single", true))
      && o.dayOffs == RemoveId(dayOffs, id)
      && (x in o.dayOffs <==> x in dayOffs && x.id != Some(id))
  {
    RemoveIdMembership(dayOffs, FindStartingOn(dayOffs, value).value.id.value, x);
  }

  /**
   * A confirmed delete that the store rejects sends the request, alerts and
   * leaves the list exactly as it was.
   */
  lemma ClickDeleteFailsKeepsList(dayOffs: seq<DayOff>, value: Instant, created: Option<DayOff>)
    requires FindStartingOn(dayOffs, value).Some? && HasTruthyId(FindStartingOn(dayOffs, value).value)
    ensures var id := FindStartingOn(dayOffs, value).value.id.value;
      Click(dayOffs, value, true, false, created) == ClickOutcome(dayOffs, Some(DeleteRequest(id, "single", true)), true)
  {
  }

  /** Declining the confirm prompt leaves the list unchanged and sends nothing. */
  lemma ClickDeclinedKeepsList(dayOffs: seq<DayOff>, value: Instant, deleteSucceeds: bool, created: Option<DayOff>)
    requires FindStartingOn(dayOffs, value).Some? && HasTruthyId(FindStartingOn(dayOffs, value).value)
    ensures Click(dayOffs, value, false, deleteSucceeds, created) == ClickOutcome(dayOffs, None, false)
  {
  }

  /**
   * When the first day-off starting on the clicked day has no id, or the id
   * 0, the click takes the create branch, even if a later day-off on that day
   * has a usable id.
   */
  lemma ClickFirstMatchWithoutIdCreates(dayOffs: seq<DayOff>, value: Instant, k: int, confirmed: bool,
                                        deleteSucceeds: bool, created: Option<DayOff>)
    requires FirstStartingOn(dayOffs, value, k) && !HasTruthyId(dayOffs[k])
    ensures Click(dayOffs, value, confirmed, deleteSucceeds, created).request == Some(CreateRequest(NewDayOff(value), true))
  {
    var r := FindStartingOn(dayOffs, value);
    var i :| 0 <= i < |dayOffs| && dayOffs[i] == r.value && FirstStartingOn(dayOffs, value, i);
    assert i == k;
  }

  /**
   * When no day-off starts on the clicked day, or the first one that does has
   * no usable id, the click asks the store to create the 08:00-18:00 day-off.
   * On success it appends the returned entry after the untouched earlier
   * entries; on failure it alerts and keeps the list.
   */
  lemma ClickCreateAppends(dayOffs: seq<DayOff>, value: Instant, confirmed: bool, deleteSucceeds: bool, created: Option<DayOff>)
    requires !(FindStartingOn(dayOffs, value).Some? && HasTruthyId(FindStartingOn(dayOffs, value).value))
    ensures var o := Click(dayOffs, value, confirmed, deleteSucceeds, created);
      && o.request == Some(CreateRequest(NewDayOff(value), true))
      && o.dayOffs == dayOffs + (if created.Some? then [created.value] else [])
      && |o.dayOffs| == |dayOffs| + (if created.Some? then 1 else 0)
      && o.dayOffs[..|dayOffs|] == dayOffs
      && (created.Some? ==> o.dayOffs[|dayOffs|] == created.value)
      && (o.alerted <==> created.None?)
  {
    var o := Click(dayOffs, value, confirmed, deleteSucceeds, created);
    if created.Some? {
      assert (dayOffs + [created.value])[..|dayOffs|] == dayOffs;
    } else {
      assert dayOffs + [] == dayOffs;
    }
  }

  /**
   * Clicking twice toggles: when the first click creates an entry that comes
   * back with an id and starts on the clicked day, a confirmed and successful
   * second click on the same day deletes it again.
   */
  lemma ClickTwiceToggles(dayOffs: seq<DayOff>, value: Instant, entry: DayOff, again: Option<DayOff>)
    requires forall i :: 0 <= i < |dayOffs| ==> !IsSameDay(dayOffs[i].init_hour, value)
    requires HasTruthyId(entry) && IsSameDay(entry.init_hour, value)
    ensures var first := Click(dayOffs, value, true, true, Some(entry));
      var second := Click(first.dayOffs, value, true, true, again);
      && first.dayOffs == dayOffs + [entry]
      && second.request == Some(DeleteRequest(entry.id.value, "single", true))
      && second.dayOffs == RemoveId(dayOffs, entry.id.value)
  {
    var first := Click(dayOffs, value, true, true, Some(entry));
    var list := dayOffs + [entry];
    assert first.dayOffs == list;
    assert FirstStartingOn(list, value, |dayOffs|);
    var r := FindStartingOn(list, value);
    var i :| 0 <= i < |list| && list[i] == r.value && FirstStartingOn(list, value, i);
    assert i == |dayOffs|;
    RemoveIdConcat(dayOffs, [entry], entry.id.value);
    assert RemoveId([entry], entry.id.value) == [];
  }

  /** The page's state. */
  class Page {
    var dayOffs: seq<DayOff>
    var loading: bool
    /** Every request sent to the store, in order. */
    var requests: seq<Request>
    /** Number of error alerts shown. */
    var alerts: nat

    constructor ()
      ensures dayOffs == [] && !loading && requests == [] && alerts == 0
    {
      dayOffs, loading, requests, alerts := [], false, [], 0;
    }

    /** `fetchDayOffs`: the whole list is replaced on success and kept on failure. */
    method FetchDayOffs(response: ListResponse)
      modifies this`dayOffs
      ensures dayOffs == AfterFetch(old(dayOffs), response)
    {
      match response {
        case Failed =>
        case Received(body) =>
          dayOffs := if body.Some? then body.value else [];
      }
    }

    /**
     * `handleDayClick`: sets the busy flag, deletes or creates, and clears the
     * busy flag on every path; requests are sent while busy.
     */
    method HandleDayClick(value: Instant, confirmed: bool, deleteSucceeds: bool, created: Option<DayOff>)
      modifies this
      ensures !loading
      ensures var o := Click(old(dayOffs), value, confirmed, deleteSucceeds, created);
        && dayOffs == o.dayOffs
        && requests == old(requests) + (if o.request.Some? then [o.request.value] else [])
        && alerts == old(alerts) + (if o.alerted then 1 else 0)
    {
      var existing := FindStartingOn(dayOffs, value);
      loading := true;
      if existing.Some? && HasTruthyId(existing.value) {
        if confirmed {
          var id := existing.value.id.value;
          requests := requests + [DeleteRequest(id, "single", loading)];
          if deleteSucceeds {
            dayOffs := RemoveId(dayOffs, id);
          } else {
            alerts := alerts + 1;
          }
        }
      } else {
        var init := SetHours(value, 8, 0, 0, 0);
        var end := SetHours(value, 18, 0, 0, 0);
        var payload := DayOff(None, None, init, end, Some(false), None, None, None, None);
        requests := requests + [CreateRequest(payload, loading)];
        if created.Some? {
          dayOffs := dayOffs + [created.value];
        } else {
          alerts := alerts + 1;
        }
      }
      loading := false;
    }
  }
}
