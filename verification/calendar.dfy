/**
 * The appointment calendar: the fixed template of bookable windows for a day,
 * the filter by period, and the availability decision. Times are whole local
 * hours at the fixed -06:00 offset the template is written in.
 */
module Calendar {
  import opened Wrappers
  import opened Json
  import Seqs

  const BusinessStart: int := 7
  const BusinessEnd: int := 19
  const SlotHours: int := 3
  const MaxSlotsPerDay: nat := 4

  /** A bookable window on day `day` (the `YYYY-MM-DD` text), from `startHour` to `endHour`. */
  datatype Slot = Slot(day: string, startHour: int, endHour: int, title: string, period: string, displayName: string)

  /** Two windows overlap when each starts before the other ends. */
  predicate Overlap(a: Slot, b: Slot) {
    a.startHour < b.endHour && b.startHour < a.endHour
  }

  /** The day's four windows: two in the morning, two in the afternoon, the last two overlapping by an hour. */
  function GenerateBusinessHours(day: string): (slots: seq<Slot>)
    ensures |slots| == MaxSlotsPerDay
    ensures forall i :: 0 <= i < |slots| ==>
              && slots[i].day == day
              && slots[i].endHour - slots[i].startHour == SlotHours
              && BusinessStart <= slots[i].startHour && slots[i].endHour <= BusinessEnd
    ensures forall i :: 0 <= i < |slots| ==> slots[i].period == (if i < 2 then "morning" else "afternoon")
    ensures forall i, j :: 0 <= i < j < |slots| ==> slots[i].startHour < slots[j].startHour
  {
    [ Slot(day, 7, 10, "Early Morning Appointment", "morning", "7:00 AM - 10:00 AM"),
      Slot(day, 10, 13, "Late Morning Appointment", "morning", "10:00 AM - 1:00 PM"),
      Slot(day, 14, 17, "Early Afternoon Appointment", "afternoon", "2:00 PM - 5:00 PM"),
      Slot(day, 16, 19, "Late Afternoon Appointment", "afternoon", "4:00 PM - 7:00 PM") ]
  }

  /** The 16:00 window overlaps the one ending at 17:00, and no other two windows overlap. */
  lemma OnlyAfternoonSlotsOverlap(day: string)
    ensures var slots := GenerateBusinessHours(day);
            forall i, j :: 0 <= i < j < |slots| ==> (Overlap(slots[i], slots[j]) <==> i == 2 && j == 3)
  {
  }

  /** Every window lies inside the business day and the day's windows cover it except the 13:00-14:00 break. */
  lemma SlotsCoverBusinessDay(day: string, hour: int)
    requires BusinessStart <= hour < BusinessEnd
    ensures var slots := GenerateBusinessHours(day);
            (exists i :: 0 <= i < |slots| && slots[i].startHour <= hour < slots[i].endHour) <==> hour != 13
  {
    var slots := GenerateBusinessHours(day);
    if hour < 10 {
      assert slots[0].startHour <= hour < slots[0].endHour;
    } else if hour < 13 {
      assert slots[1].startHour <= hour < slots[1].endHour;
    } else if hour >= 14 {
      assert slots[2].startHour <= hour < slots[2].endHour || slots[3].startHour <= hour < slots[3].endHour;
    }
  }

  /** `slot => slot.period === period`. */
  function PeriodIs(period: string): Slot -> bool {
    (slot: Slot) => slot.period == period
  }

  /** `slots.filter(slot => slot.period === period)`: the windows of that period, in order. */
  function WithPeriod(slots: seq<Slot>, period: string): (r: seq<Slot>)
    ensures forall k :: 0 <= k < |r| ==> r[k].period == period && r[k] in slots
    ensures forall i :: 0 <= i < |slots| && slots[i].period == period ==> slots[i] in r
    ensures |r| == Seqs.Count(slots, PeriodIs(period))
    ensures Seqs.Subsequence(r, slots)
  {
    Seqs.Filter(slots, PeriodIs(period))
  }

  /** The day's windows of one period. */
  function GetSlotsByPeriod(day: string, period: string): (r: seq<Slot>)
    ensures forall k :: 0 <= k < |r| ==> r[k].period == period && r[k] in GenerateBusinessHours(day)
    ensures forall i :: 0 <= i < MaxSlotsPerDay && GenerateBusinessHours(day)[i].period == period
              ==> GenerateBusinessHours(day)[i] in r
  {
    WithPeriod(GenerateBusinessHours(day), period)
  }

  /** Morning gives the first two windows, afternoon the last two, in template order; any other period gives none. */
  lemma SlotsByPeriod(day: string, period: string)
    ensures var all := GenerateBusinessHours(day);
            GetSlotsByPeriod(day, period)
            == if period == "morning" then all[..2] else if period == "afternoon" then all[2..] else []
  {
    var all := GenerateBusinessHours(day);
    assert all[3..][1..] == [];
    assert all[2..][1..] == all[3..];
    assert all[1..][1..] == all[2..];
    assert WithPeriod(all[3..], period) == if period == "afternoon" then all[3..] else [];
    assert WithPeriod(all[2..], period) == if period == "afternoon" then all[2..] else [];
    assert WithPeriod(all[1..], period)
           == if period == "morning" then all[1..2] else if period == "afternoon" then all[2..] else [];
  }

  /** Morning and afternoon windows together are the whole template, in order. */
  lemma PeriodsPartitionDay(day: string)
    ensures GetSlotsByPeriod(day, "morning") + GetSlotsByPeriod(day, "afternoon") == GenerateBusinessHours(day)
  {
    SlotsByPeriod(day, "morning");
    SlotsByPeriod(day, "afternoon");
  }

  // ---------------------------------------------------------------------
  // checkAvailability
  // ---------------------------------------------------------------------

  /** The outcome of the free/busy query: the call threw, or its `data.calendars` value (`None` when absent). */
  datatype FreeBusyReply = ApiError | Answered(calendars: Option<JsonValue>)

  /**
   * `.length` of a value when it is a number: arrays and strings have one, an
   * object may carry its own numeric `length` property; anything else reads
   * `undefined` or a non-number, which is never `=== 0`.
   */
  function Length(v: JsonValue): Option<int> {
    match v
    case JArr(items) => Some(|items|)
    case JStr(s) => Some(|s|)
    case JObj(fields) => if "length" in fields && fields["length"].JNum? then Some(fields["length"].n) else None
    case _ => None
  }

  /** `calendars[calendarId]?.busy || []`. */
  function BusyTimes(calendars: JsonValue, calendarId: string): JsonValue {
    var entry := Prop(calendars, calendarId);
    var busy := if entry.Some? && entry.value != JNull then Prop(entry.value, "busy") else None;
    if Truthy(busy) then busy.value else JArr([])
  }

  /**
   * Whether the slot is free. Offline (fallback mode) and a failed query both count
   * as free; reading `.calendars` of a missing or null value throws, which is the
   * failed-query path.
   */
  function CheckAvailability(fallbackMode: bool, calendarId: string, reply: FreeBusyReply): (free: bool)
    ensures fallbackMode ==> free
    ensures reply.ApiError? ==> free
    ensures reply.Answered? && (reply.calendars.None? || reply.calendars.value == JNull) ==> free
    ensures !fallbackMode && reply.Answered? && reply.calendars.Some? && reply.calendars.value != JNull ==>
              (free <==> Length(BusyTimes(reply.calendars.value, calendarId)) == Some(0))
  {
    if fallbackMode then true
    else match reply
      case ApiError => true
      case Answered(calendars) =>
        if calendars.None? || calendars.value == JNull then true
        else Length(BusyTimes(calendars.value, calendarId)) == Some(0)
  }

  /** A calendar that reports any busy interval makes the slot unavailable; one that reports none leaves it free. */
  lemma BusyIntervalsBlock(calendarId: string, busy: seq<JsonValue>)
    ensures var calendars := JObj(map[calendarId := JObj(map["busy" := JArr(busy)])]);
            CheckAvailability(false, calendarId, Answered(Some(calendars))) <==> |busy| == 0
  {
  }

  /** `busyTimes.length === 0` also holds for an object whose own `length` is 0, which leaves the slot free. */
  lemma ZeroLengthObjectIsFree(calendarId: string, other: map<string, JsonValue>)
    ensures var busy := JObj(other["length" := JNum(0)]);
            var calendars := JObj(map[calendarId := JObj(map["busy" := busy])]);
            CheckAvailability(false, calendarId, Answered(Some(calendars)))
  {
  }

  /** A calendar missing from the reply, or without a `busy` list, leaves the slot free. */
  lemma MissingCalendarIsFree(calendarId: string, calendars: map<string, JsonValue>)
    requires calendarId !in calendars
    ensures CheckAvailability(false, calendarId, Answered(Some(JObj(calendars))))
  {
  }
}
