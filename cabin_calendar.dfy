/**
 * The weekly slot-occupancy grid of the cabin calendar view.
 *
 * The grid maps a day (an ISO date string) to a map from a half-hour label to
 * a flag; a missing day or label reads as free. Booking and cancelling walk a
 * run of consecutive labels from the selected start slot, silently skipping
 * indices past the last label, and write the whole grid back to the browser's
 * local storage under a per-cabin key.
 */
module CabinCalendar {

  type Grid = map<string, map<string, bool>>

  /** The sixteen half-hour labels of a business day, 9:00 AM to 4:30 PM. */
  const TimeSlots: seq<string> := [
    "9:00 AM", "9:30 AM", "10:00 AM", "10:30 AM", "11:00 AM", "11:30 AM",
    "12:00 PM", "12:30 PM", "1:00 PM", "1:30 PM", "2:00 PM", "2:30 PM",
    "3:00 PM", "3:30 PM", "4:00 PM", "4:30 PM"
  ]

  /** The local-storage key under which a cabin's grid is saved. */
  function StorageKey(cabinId: string): (r: string)
    ensures |r| == |cabinId| + 22
  {
    "cabin_" + cabinId + "_weekly_bookings"
  }

  /** The cabin id can be read back from its key, between the fixed prefix and suffix. */
  lemma StorageKeyDecodes(cabinId: string)
    ensures StorageKey(cabinId)[..6] == "cabin_"
    ensures StorageKey(cabinId)[|cabinId| + 6..] == "_weekly_bookings"
    ensures StorageKey(cabinId)[6..|cabinId| + 6] == cabinId
  {
    var r := StorageKey(cabinId);
    assert r == "cabin_" + cabinId + "_weekly_bookings";
  }

  /** Different cabins save their grids under different keys. */
  lemma StorageKeyInjective(a: string, b: string)
    ensures StorageKey(a) == StorageKey(b) ==> a == b
  {
    if StorageKey(a) == StorageKey(b) {
      StorageKeyDecodes(a);
      StorageKeyDecodes(b);
    }
  }

  /** Occupancy lookup: a missing day or a missing label counts as free. */
  function Occupied(g: Grid, day: string, time: string): (r: bool)
    ensures day !in g || time !in g[day] ==> !r
    ensures day in g && time in g[day] ==> r == g[day][time]
  {
    if day in g && time in g[day] then g[day][time] else false
  }

  /** The day's entry, or a fresh empty one (`schedules[day] || {}`). */
  function DayOf(g: Grid, day: string): map<string, bool>
  {
    if day in g then g[day] else map[]
  }

  /** One step of the booking loop at absolute slot index j. */
  function Mark(g: Grid, day: string, j: nat): Grid
  {
    if j < |TimeSlots| then g[day := DayOf(g, day)[TimeSlots[j] := true]] else g
  }

  /** The grid after the booking loop has run k steps from slot index start. */
  function Booked(g: Grid, day: string, start: nat, k: nat): (r: Grid)
    ensures g.Keys <= r.Keys
    ensures start < |TimeSlots| && 0 < k ==> day in r
    decreases k
  {
    if k == 0 then g else Mark(Booked(g, day, start, k - 1), day, start + k - 1)
  }

  /**
   * True when the cancel loop would dereference a missing day entry: its first
   * step is in range and the day has no entry.
   */
  predicate CancelFails(g: Grid, day: string, start: nat, k: nat)
  {
    day !in g && 0 < k && start < |TimeSlots|
  }

  /** One step of the cancel loop at absolute slot index j. */
  function Unmark(g: Grid, day: string, j: nat): Grid
    requires day in g || j >= |TimeSlots|
  {
    if j < |TimeSlots| then g[day := g[day] - {TimeSlots[j]}] else g
  }

  /** The grid after the cancel loop has run k steps from slot index start. */
  function Freed(g: Grid, day: string, start: nat, k: nat): (r: Grid)
    requires !CancelFails(g, day, start, k)
    ensures day in g ==> day in r
    ensures day !in g ==> r == g
    decreases k
  {
    if k == 0 then g else Unmark(Freed(g, day, start, k - 1), day, start + k - 1)
  }

  /** The labels of the in-range indices of [start, start + k). */
  function RangeLabels(start: nat, k: nat): set<string>
    decreases k
  {
    if k == 0 then {}
    else RangeLabels(start, k - 1)
         + (if start + k - 1 < |TimeSlots| then {TimeSlots[start + k - 1]} else {})
  }

  /** A day's entry with every label of ls set to true. */
  function MarkAll(m: map<string, bool>, ls: set<string>): map<string, bool>
  {
    m + map t | t in ls :: true
  }

  lemma TimeSlotsDistinct()
    ensures |TimeSlots| == 16
    ensures forall a, b :: 0 <= a < b < |TimeSlots| ==> TimeSlots[a] != TimeSlots[b]
  {
  }

  /** A slot label lies in the range's labels exactly when its index does. */
  lemma {:induction false} InRangeLabels(start: nat, k: nat, j: nat)
    requires j < |TimeSlots|
    ensures TimeSlots[j] in RangeLabels(start, k) <==> start <= j < start + k
  {
    if k > 0 {
      InRangeLabels(start, k - 1, j);
      TimeSlotsDistinct();
    }
  }

  /** The range has labels exactly when its first step is in range. */
  lemma {:induction false} RangeLabelsEmpty(start: nat, k: nat)
    ensures RangeLabels(start, k) == {} <==> k == 0 || start >= |TimeSlots|
  {
    if k > 0 {
      RangeLabelsEmpty(start, k - 1);
    }
  }

  /** Labels past the last slot add nothing to a range. */
  lemma {:induction false} RangeLabelsTruncate(start: nat, k: nat)
    requires start <= |TimeSlots| <= start + k
    ensures RangeLabels(start, k) == RangeLabels(start, |TimeSlots| - start)
  {
    if k > |TimeSlots| - start {
      RangeLabelsTruncate(start, k - 1);
    }
  }

  /** Every label of a range is the label of one of its in-range indices. */
  lemma {:induction false} RangeLabelIndex(start: nat, k: nat, t: string) returns (j: nat)
    requires t in RangeLabels(start, k)
    ensures start <= j < start + k && j < |TimeSlots| && TimeSlots[j] == t
  {
    if t in RangeLabels(start, k - 1) {
      j := RangeLabelIndex(start, k - 1, t);
    } else {
      j := start + k - 1;
    }
  }

  lemma MarkAllAdd(m: map<string, bool>, ls: set<string>, t: string)
    ensures MarkAll(m, ls)[t := true] == MarkAll(m, ls + {t})
  {
  }

  lemma RemoveAdd(m: map<string, bool>, ls: set<string>, t: string)
    ensures (m - ls) - {t} == m - (ls + {t})
  {
  }

  /**
   * Closed form of the booking loop: when any index is in range, the selected
   * day's entry gains every in-range label set to true, and nothing else
   * changes; otherwise the grid is untouched.
   */
  lemma {:induction false} BookedClosedForm(g: Grid, day: string, start: nat, k: nat)
    ensures Booked(g, day, start, k)
         == if RangeLabels(start, k) == {} then g
            else g[day := MarkAll(DayOf(g, day), RangeLabels(start, k))]
  {
    if k > 0 && start + k - 1 < |TimeSlots| {
      var t := TimeSlots[start + k - 1];
      var ls := RangeLabels(start, k - 1);
      BookedClosedForm(g, day, start, k - 1);
      if ls == {} {
        assert RangeLabels(start, k) == {t};
        assert MarkAll(DayOf(g, day), {}) == DayOf(g, day);
        MarkAllAdd(DayOf(g, day), {}, t);
      } else {
        MarkAllAdd(DayOf(g, day), ls, t);
      }
    } else if k > 0 {
      assert RangeLabels(start, k) == RangeLabels(start, k - 1);
      BookedClosedForm(g, day, start, k - 1);
    }
  }

  /**
   * Closed form of the cancel loop: when any index is in range, the selected
   * day's entry loses every in-range label; otherwise the grid is untouched.
   */
  lemma {:induction false} FreedClosedForm(g: Grid, day: string, start: nat, k: nat)
    requires !CancelFails(g, day, start, k)
    ensures RangeLabels(start, k) != {} ==> day in g
    ensures Freed(g, day, start, k)
         == if RangeLabels(start, k) == {} then g
            else g[day := g[day] - RangeLabels(start, k)]
  {
    RangeLabelsEmpty(start, k);
    if k > 0 && start + k - 1 < |TimeSlots| {
      var t := TimeSlots[start + k - 1];
      var ls := RangeLabels(start, k - 1);
      FreedClosedForm(g, day, start, k - 1);
      if ls == {} {
        assert RangeLabels(start, k) == {t};
        assert g[day] - {} == g[day];
        RemoveAdd(g[day], {}, t);
      } else {
        RemoveAdd(g[day], ls, t);
      }
    } else if k > 0 {
      assert RangeLabels(start, k) == RangeLabels(start, k - 1);
      FreedClosedForm(g, day, start, k - 1);
    }
  }

  /**
   * After a booking of k half-hour units from slot index start, a slot of the
   * selected day is occupied exactly when it lies in the booked range or was
   * occupied before; slots past the last label are skipped without error.
   */
  lemma {:induction false} BookedSlot(g: Grid, day: string, start: nat, k: nat, j: nat)
    requires j < |TimeSlots|
    ensures Occupied(Booked(g, day, start, k), day, TimeSlots[j])
        <==> (start <= j < start + k) || Occupied(g, day, TimeSlots[j])
  {
    BookedClosedForm(g, day, start, k);
    InRangeLabels(start, k, j);
  }

  /** Booking leaves every other day's entry exactly as it was. */
  lemma {:induction false} BookedOtherDays(g: Grid, day: string, start: nat, k: nat, d: string)
    requires d != day
    ensures d in Booked(g, day, start, k) <==> d in g
    ensures d in g ==> Booked(g, day, start, k)[d] == g[d]
  {
    BookedClosedForm(g, day, start, k);
  }

  /**
   * Only labels are touched: a key of the selected day that is not a label of
   * the range keeps its value, and every label of the range reads true.
   */
  lemma BookedDayEntry(g: Grid, day: string, start: nat, k: nat, t: string)
    requires start < |TimeSlots| && 0 < k
    ensures day in Booked(g, day, start, k)
    ensures t in RangeLabels(start, k) ==> t in Booked(g, day, start, k)[day] && Booked(g, day, start, k)[day][t]
    ensures t !in RangeLabels(start, k) ==>
              (t in Booked(g, day, start, k)[day] <==> t in DayOf(g, day)) &&
              (t in DayOf(g, day) ==> Booked(g, day, start, k)[day][t] == DayOf(g, day)[t])
  {
    BookedClosedForm(g, day, start, k);
    RangeLabelsEmpty(start, k);
  }

  /**
   * Booking the same range twice gives the same grid as booking it once:
   * re-setting an occupied slot to true changes nothing.
   */
  lemma BookedIdempotent(g: Grid, day: string, start: nat, k: nat)
    ensures Booked(Booked(g, day, start, k), day, start, k) == Booked(g, day, start, k)
  {
    var once := Booked(g, day, start, k);
    BookedClosedForm(g, day, start, k);
    BookedClosedForm(once, day, start, k);
    var ls := RangeLabels(start, k);
    if ls != {} {
      assert MarkAll(DayOf(once, day), ls) == MarkAll(DayOf(g, day), ls);
    }
  }

  /**
   * Silent truncation: asking for more units than there are labels left from
   * the start slot books exactly the labels up to the last one.
   */
  lemma BookedTruncates(g: Grid, day: string, start: nat, k: nat)
    requires start <= |TimeSlots| <= start + k
    ensures Booked(g, day, start, k) == Booked(g, day, start, |TimeSlots| - start)
  {
    BookedClosedForm(g, day, start, k);
    BookedClosedForm(g, day, start, |TimeSlots| - start);
    RangeLabelsTruncate(start, k);
  }

  /**
   * After a cancel of k units from slot index start, a slot of the selected
   * day is occupied exactly when it lies outside the range and was occupied
   * before.
   */
  lemma {:induction false} FreedSlot(g: Grid, day: string, start: nat, k: nat, j: nat)
    requires !CancelFails(g, day, start, k)
    requires j < |TimeSlots|
    ensures Occupied(Freed(g, day, start, k), day, TimeSlots[j])
        <==> !(start <= j < start + k) && Occupied(g, day, TimeSlots[j])
  {
    FreedClosedForm(g, day, start, k);
    InRangeLabels(start, k, j);
  }

  /** Cancelling leaves every other day's entry exactly as it was. */
  lemma {:induction false} FreedOtherDays(g: Grid, day: string, start: nat, k: nat, d: string)
    requires !CancelFails(g, day, start, k)
    requires d != day
    ensures d in Freed(g, day, start, k) <==> d in g
    ensures d in g ==> Freed(g, day, start, k)[d] == g[d]
  {
    FreedClosedForm(g, day, start, k);
  }

  /**
   * Book then cancel of the same range restores every slot's occupancy when
   * none of the range's slots was occupied before.
   */
  lemma BookThenCancel(g: Grid, day: string, start: nat, k: nat, d: string, t: string)
    requires forall j :: start <= j < start + k && j < |TimeSlots| ==> !Occupied(g, day, TimeSlots[j])
    ensures !CancelFails(Booked(g, day, start, k), day, start, k)
    ensures Occupied(Freed(Booked(g, day, start, k), day, start, k), d, t) == Occupied(g, d, t)
  {
    var b := Booked(g, day, start, k);
    BookedClosedForm(g, day, start, k);
    RangeLabelsEmpty(start, k);
    FreedClosedForm(b, day, start, k);
    var ls := RangeLabels(start, k);
    if ls != {} && d == day && t in ls {
      var j := RangeLabelIndex(start, k, t);
      assert !Occupied(g, day, TimeSlots[j]);
    }
  }

  /**
   * Book then cancel is not an exact inverse on the grid itself: on a day
   * without an entry it leaves an empty entry for that day behind.
   */
  lemma BookThenCancelLeavesEmptyDay(g: Grid, day: string, start: nat, k: nat)
    requires day !in g && start < |TimeSlots| && 0 < k
    ensures Freed(Booked(g, day, start, k), day, start, k) == g[day := map[]]
  {
    var b := Booked(g, day, start, k);
    BookedClosedForm(g, day, start, k);
    RangeLabelsEmpty(start, k);
    FreedClosedForm(b, day, start, k);
    var ls := RangeLabels(start, k);
    assert MarkAll(map[], ls) - ls == map[];
  }

  /**
   * Only the start slot is checked for a conflict, so a booking whose start
   * slot is free may run over a later slot that another booking already
   * holds; cancelling it then frees that slot too.
   */
  lemma CancelFreesOverlappedSlot(g: Grid, day: string, start: nat, k: nat, j: nat)
    requires start < j < start + k && j < |TimeSlots|
    requires !Occupied(g, day, TimeSlots[start])
    requires Occupied(g, day, TimeSlots[j])
    ensures Occupied(Booked(g, day, start, k), day, TimeSlots[j])
    ensures !CancelFails(Booked(g, day, start, k), day, start, k)
    ensures !Occupied(Freed(Booked(g, day, start, k), day, start, k), day, TimeSlots[j])
  {
    BookedSlot(g, day, start, k, j);
    FreedSlot(Booked(g, day, start, k), day, start, k, j);
  }

  /**
   * The popup offers Cancel only when the selected slot is occupied; an
   * occupied start slot means the day has an entry, so a cancel reached that
   * way never dereferences a missing day.
   */
  lemma CancelFromOccupiedSlotSucceeds(g: Grid, day: string, start: nat, k: nat)
    requires start < |TimeSlots| && Occupied(g, day, TimeSlots[start])
    ensures !CancelFails(g, day, start, k)
  {
  }

  /**
   * The first index of x in s, or -1 (`Array.prototype.indexOf` on strings).
   */
  function IndexOf(s: seq<string>, x: string): (r: int)
    ensures -1 <= r < |s|
    ensures r == -1 <==> x !in s
    ensures 0 <= r ==> s[r] == x && forall j :: 0 <= j < r ==> s[j] != x
  {
    if |s| == 0 then -1
    else if s[0] == x then 0
    else
      var r' := IndexOf(s[1..], x);
      if r' == -1 then -1 else r' + 1
  }

  /** The browser's local storage, holding saved grids by key. */
  class LocalStorage {
    var items: map<string, Grid>

    constructor ()
      ensures items == map[]
    {
      items := map[];
    }
  }

  class CabinCalendarComponent {
    const storage: LocalStorage
    var cabinId: string
    var selectedDate: string
    var selectedStartTime: string
    var daysOfWeek: seq<string>
    var cabinSchedules: Grid
    var showBookingPopup: bool
    var selectedDay: string
    var selectedSlot: string
    var selectedSlotIndex: int
    /** The chosen duration in half-hour units: floor(hours / 0.5), at least 0. */
    var selectedDuration: nat
    var bookingConflict: bool

    /**
     * The selection is either unset (index -1, popup closed) or a slot index
     * together with its own label.
     */
    ghost predicate Valid()
      reads this
    {
      && -1 <= selectedSlotIndex < |TimeSlots|
      && (0 <= selectedSlotIndex ==> selectedSlot == TimeSlots[selectedSlotIndex])
      && (showBookingPopup ==> 0 <= selectedSlotIndex)
    }

    /** `today` stands for the date the browser's clock gives. */
    constructor (storage: LocalStorage, today: string)
      ensures Valid()
      ensures this.storage == storage
      ensures cabinId == "" && selectedDate == today && selectedStartTime == ""
      ensures daysOfWeek == [] && cabinSchedules == map[]
      ensures !showBookingPopup && selectedDay == "" && selectedSlot == ""
      ensures selectedSlotIndex == -1 && selectedDuration == 1 && !bookingConflict
    {
      this.storage := storage;
      cabinId := "";
      selectedDate := today;
      selectedStartTime := "";
      daysOfWeek := [];
      cabinSchedules := map[];
      showBookingPopup := false;
      selectedDay := "";
      selectedSlot := "";
      selectedSlotIndex := -1;
      selectedDuration := 1;
      bookingConflict := false;
    }

    /**
     * Route activation: records the cabin id and shows the week. The seven
     * day strings come from the browser's date library.
     */
    method OnInit(id: string, week: seq<string>)
      requires Valid() && |week| == 7
      modifies this`cabinId, this`daysOfWeek, this`cabinSchedules
      ensures Valid()
      ensures cabinId == id && daysOfWeek == week
      ensures cabinSchedules
           == if StorageKey(id) in storage.items then storage.items[StorageKey(id)] else map[]
    {
      cabinId := id;
      UpdateWeekFromDate(week);
    }

    /** Shows the seven days from the selected date and reloads the grid. */
    method UpdateWeekFromDate(week: seq<string>)
      requires Valid() && |week| == 7
      modifies this`daysOfWeek, this`cabinSchedules
      ensures Valid()
      ensures daysOfWeek == week
      ensures cabinSchedules
           == if StorageKey(cabinId) in storage.items then storage.items[StorageKey(cabinId)] else map[]
    {
      daysOfWeek := week;
      LoadBookings();
    }

    /** Replaces the grid by the saved one, or by an empty grid. */
    method LoadBookings()
      requires Valid()
      modifies this`cabinSchedules
      ensures Valid()
      ensures cabinSchedules
           == if StorageKey(cabinId) in storage.items then storage.items[StorageKey(cabinId)] else map[]
      ensures StorageKey(cabinId) !in storage.items ==> forall d, t :: !IsOccupied(d, t)
    {
      var key := StorageKey(cabinId);
      cabinSchedules := if key in storage.items then storage.items[key] else map[];
    }

    function IsOccupied(day: string, time: string): (r: bool)
      reads this
      ensures day !in cabinSchedules || time !in cabinSchedules[day] ==> !r
      ensures day in cabinSchedules && time in cabinSchedules[day] ==> r == cabinSchedules[day][time]
    {
      Occupied(cabinSchedules, day, time)
    }

    function GetSlotStatus(day: string, time: string): (r: string)
      reads this
      ensures r == "Occupied" <==> IsOccupied(day, time)
      ensures r == "Available" <==> !IsOccupied(day, time)
    {
      if IsOccupied(day, time) then "Occupied" else "Available"
    }

    /** A click on a grid cell: records the selection and opens the popup. */
    method OnSlotClick(day: string, time: string, index: int)
      requires 0 <= index < |TimeSlots| && time == TimeSlots[index]
      modifies this`selectedDay, this`selectedSlot, this`selectedSlotIndex,
               this`bookingConflict, this`showBookingPopup
      ensures Valid()
      ensures selectedDay == day && selectedSlot == time && selectedSlotIndex == index
      ensures bookingConflict == Occupied(cabinSchedules, day, time)
      ensures showBookingPopup
    {
      selectedDay := day;
      selectedSlot := time;
      selectedSlotIndex := index;
      bookingConflict := IsOccupied(day, time);
      showBookingPopup := true;
    }

    /**
     * Books the selected run of slots unless the click found its start slot
     * occupied, saves the grid and closes the popup.
     */
    method ConfirmBooking()
      requires Valid() && showBookingPopup
      modifies this`cabinSchedules, this`showBookingPopup, storage
      ensures Valid()
      ensures old(bookingConflict) ==>
                && cabinSchedules == old(cabinSchedules)
                && storage.items == old(storage.items)
                && showBookingPopup == old(showBookingPopup)
      ensures !old(bookingConflict) ==>
                && cabinSchedules == Booked(old(cabinSchedules), selectedDay, selectedSlotIndex, selectedDuration)
                && storage.items == old(storage.items)[StorageKey(cabinId) := cabinSchedules]
                && !showBookingPopup
    {
      if bookingConflict {
        return;
      }
      var day, start, slotsToOccupy := selectedDay, selectedSlotIndex, selectedDuration;
      var schedules := cabinSchedules;
      var i := 0;
      while i < slotsToOccupy
        invariant 0 <= i <= slotsToOccupy
        invariant schedules == Booked(cabinSchedules, day, start, i)
        modifies {}
      {
        if start + i < |TimeSlots| {
          var timeSlot := TimeSlots[start + i];
          schedules := schedules[day := DayOf(schedules, day)];
          schedules := schedules[day := schedules[day][timeSlot := true]];
        }
        i := i + 1;
      }
      cabinSchedules := schedules;
      storage.items := storage.items[StorageKey(cabinId) := cabinSchedules];
      showBookingPopup := false;
    }

    /**
     * Frees the selected run of slots, saves the grid and closes the popup.
     * The day entry is dereferenced without a guard: when it is missing the
     * first step raises a TypeError (typeError) and nothing changes.
     */
    method CancelBooking() returns (typeError: bool)
      requires Valid() && showBookingPopup
      modifies this`cabinSchedules, this`showBookingPopup, storage
      ensures Valid()
      ensures typeError <==> CancelFails(old(cabinSchedules), selectedDay, selectedSlotIndex, selectedDuration)
      ensures typeError ==>
                && cabinSchedules == old(cabinSchedules)
                && storage.items == old(storage.items)
                && showBookingPopup == old(showBookingPopup)
      ensures !typeError ==>
                && cabinSchedules == Freed(old(cabinSchedules), selectedDay, selectedSlotIndex, selectedDuration)
                && storage.items == old(storage.items)[StorageKey(cabinId) := cabinSchedules]
                && !showBookingPopup
    {
      var day, start, slotsToFree := selectedDay, selectedSlotIndex, selectedDuration;
      var schedules := cabinSchedules;
      typeError := false;
      var i := 0;
      while i < slotsToFree
        invariant 0 <= i <= slotsToFree
        invariant 0 < i ==> day in cabinSchedules
        invariant schedules == Freed(cabinSchedules, day, start, i)
        modifies {}
      {
        if start + i < |TimeSlots| {
          var timeSlot := TimeSlots[start + i];
          if day !in schedules {
            typeError := true;
            return;
          }
          schedules := schedules[day := schedules[day] - {timeSlot}];
          assert schedules == Unmark(Freed(cabinSchedules, day, start, i), day, start + i);
        }
        i := i + 1;
      }
      cabinSchedules := schedules;
      storage.items := storage.items[StorageKey(cabinId) := cabinSchedules];
      showBookingPopup := false;
    }

    /**
     * The Submit button: selects the chosen start time on the selected date
     * when it is one of the labels, at its first index; otherwise nothing.
     */
    method SubmitBooking()
      requires Valid()
      modifies this`selectedDay, this`selectedSlot, this`selectedSlotIndex,
               this`bookingConflict, this`showBookingPopup
      ensures Valid()
      ensures selectedStartTime in TimeSlots ==>
                && selectedDay == selectedDate
                && selectedSlot == selectedStartTime
                && 0 <= selectedSlotIndex
                && TimeSlots[selectedSlotIndex] == selectedStartTime
                && (forall j :: 0 <= j < selectedSlotIndex ==> TimeSlots[j] != selectedStartTime)
                && bookingConflict == Occupied(cabinSchedules, selectedDate, selectedStartTime)
                && showBookingPopup
      ensures selectedStartTime !in TimeSlots ==>
                && selectedDay == old(selectedDay)
                && selectedSlot == old(selectedSlot)
                && selectedSlotIndex == old(selectedSlotIndex)
                && bookingConflict == old(bookingConflict)
                && showBookingPopup == old(showBookingPopup)
    {
      var index := IndexOf(TimeSlots, selectedStartTime);
      if index != -1 {
        OnSlotClick(selectedDate, selectedStartTime, index);
      }
    }
  }
}
