/**
 * The day-off record exchanged with the REST store, and the outcome of a list
 * request against it.
 */
module DayOffTypes {
  import opened Wrappers
  import opened Instants

  /** The recurrence kinds the day-off modal offers and submits. */
  datatype RepeatType = Daily | Weekly | Monthly | Yearly

  /** The recurrence kinds the stored day-off type declares. */
  datatype StoredRepeatType = StoredWeekly | StoredMonthly | StoredDaily | StoredNone

  /**
   * A day-off. Optional fields are `None` when the record leaves them out.
   * `repeat_type` uses the modal's enumeration, which the stored type does
   * not fully cover (see Stored).
   */
  datatype DayOff = DayOff(
    id: Option<int>,
    user_id: Option<int>,
    init_hour: Instant,
    end_hour: Instant,
    repeat: Option<bool>,
    repeat_type: Option<RepeatType>,
    repeat_value: Option<string>,
    created_at: Option<string>,
    updated_at: Option<string>)

  /**
   * The stored value a submitted recurrence kind corresponds to, if any:
   * `yearly` has none, and `none` is never submitted.
   */
  function Stored(t: RepeatType): (s: Option<StoredRepeatType>)
    ensures s.None? <==> t == Yearly
    ensures s != Some(StoredNone)
  {
    match t
    case Daily => Some(StoredDaily)
    case Weekly => Some(StoredWeekly)
    case Monthly => Some(StoredMonthly)
    case Yearly => None
  }

  /** Outcome of a GET on the day-off list: a rejected request, or a body that may be null. */
  datatype ListResponse = Failed | Received(body: Option<seq<DayOff>>)

  /**
   * The list after `setDayOffs(response.data || [])` inside a try whose catch
   * only logs: replaced wholesale on success (a null body gives the empty
   * list), unchanged on failure.
   */
  function AfterFetch(current: seq<DayOff>, response: ListResponse): (r: seq<DayOff>)
    ensures response.Failed? ==> r == current
    ensures response.Received? && response.body.None? ==> r == []
    ensures response.Received? && response.body.Some? ==> r == response.body.value
  {
    match response
    case Failed => current
    case Received(body) => if body.Some? then body.value else []
  }
}
