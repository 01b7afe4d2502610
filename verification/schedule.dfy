/** The weekly working-hours template: reading the default schedule from
    Monday's entry and writing one schedule into all seven weekdays. */
module Schedule {
  import opened Seqs
  import opened Records

  /** `workingHours.findIndex(w => w.day_of_week === day)`, written out on the
      weekday (the week's save runs it once per day, and a first-order search
      keeps those proofs small). */
  function DayIndex(wh: seq<WorkingHours>, day: int): (r: Option<nat>)
    ensures r.Some? ==> r.value < |wh| && wh[r.value].dayOfWeek == day
  {
    DayIndexFrom(wh, day, 0)
  }

  /** The search from position `i` on. */
  function DayIndexFrom(wh: seq<WorkingHours>, day: int, i: nat): (r: Option<nat>)
    ensures r.Some? ==> i <= r.value < |wh| && wh[r.value].dayOfWeek == day
    decreases |wh| - i
  {
    if i >= |wh| then None
    else if wh[i].dayOfWeek == day then Some(i)
    else DayIndexFrom(wh, day, i + 1)
  }

  /** The search from `i` finds the first entry of `day` at or after `i`, and
      nothing only when there is none. */
  lemma {:induction false} DayIndexFromSpec(wh: seq<WorkingHours>, day: int, i: nat)
    ensures DayIndexFrom(wh, day, i).None? <==> forall j :: i <= j < |wh| ==> wh[j].dayOfWeek != day
    ensures DayIndexFrom(wh, day, i).Some? ==>
      forall j :: i <= j < DayIndexFrom(wh, day, i).value ==> wh[j].dayOfWeek != day
    decreases |wh| - i
  {
    if i < |wh| && wh[i].dayOfWeek != day {
      DayIndexFromSpec(wh, day, i + 1);
    }
  }

  /** `DayIndex` finds the first entry of `day`, and nothing only when there is none. */
  lemma DayIndexSpec(wh: seq<WorkingHours>, day: int)
    ensures DayIndex(wh, day).None? <==> forall j :: 0 <= j < |wh| ==> wh[j].dayOfWeek != day
    ensures DayIndex(wh, day).Some? ==>
      forall j :: 0 <= j < DayIndex(wh, day).value ==> wh[j].dayOfWeek != day
  {
    DayIndexFromSpec(wh, day, 0);
  }

  const FallbackOpen: string := "08:00"
  const FallbackClose: string := "18:00"
  const FallbackDuration: int := 30

  /** `getDefaultSchedule`: Monday's entry, with `||` fallbacks for a missing
      or empty open time, close time and a missing or zero slot duration. */
  function DefaultScheduleOf(wh: seq<WorkingHours>): (d: DefaultSchedule)
    ensures d.openTime != "" && d.closeTime != "" && d.slotDuration != 0
    ensures DayIndex(wh, Monday).None? ==>
      d == DefaultSchedule(FallbackOpen, FallbackClose, FallbackDuration, None, None)
  {
    match DayIndex(wh, Monday)
    case None => DefaultSchedule(FallbackOpen, FallbackClose, FallbackDuration, None, None)
    case Some(i) =>
      var m := wh[i];
      DefaultSchedule(
        OrElse(m.openTime, FallbackOpen),
        OrElse(m.closeTime, FallbackClose),
        if m.slotDuration.Some? && m.slotDuration.value != 0 then m.slotDuration.value else FallbackDuration,
        m.breakStart,
        m.breakEnd)
  }

  /** The record `saveDefaultSchedule` writes for `day`: Sunday closed, every other day open. */
  function DayEntry(id: Id, day: int, s: DefaultSchedule, createdAt: Stamp, now: Stamp): WorkingHours
  {
    WorkingHours(id, day, day != Sunday, Some(s.openTime), Some(s.closeTime),
                 s.breakStart, s.breakEnd, Some(s.slotDuration), createdAt, now)
  }

  /** One iteration of `saveDefaultSchedule`'s loop: replace the first entry of
      `day`, keeping its id and creation time, or append one with a fresh id. */
  function SaveDay(wh: seq<WorkingHours>, next: Id, s: DefaultSchedule, day: int, now: Stamp)
    : (seq<WorkingHours>, Id)
  {
    match DayIndex(wh, day)
    case Some(i) => (wh[i := DayEntry(wh[i].id, day, s, wh[i].createdAt, now)], next)
    case None => (wh + [DayEntry(next, day, s, now, now)], next + 1)
  }

  /** Days 0 .. n - 1 saved in turn. */
  function SaveDays(wh: seq<WorkingHours>, next: Id, s: DefaultSchedule, n: nat, now: Stamp)
    : (r: (seq<WorkingHours>, Id))
    ensures |wh| <= |r.0| <= |wh| + n
    ensures r.1 == next + (|r.0| - |wh|)
  {
    if n == 0 then (wh, next)
    else
      var w := SaveDays(wh, next, s, n - 1, now);
      SaveDay(w.0, w.1, s, n - 1, now)
  }

  /** What one iteration does to sizes, ids and the positions it leaves alone. */
  lemma SaveDayFrame(w: seq<WorkingHours>, k: Id, s: DefaultSchedule, day: int, now: Stamp)
    ensures var r := SaveDay(w, k, s, day, now);
      && |r.0| >= |w| && r.1 >= k && r.1 - k == |r.0| - |w|
      && (forall j :: 0 <= j < |w| ==> r.0[j].dayOfWeek == w[j].dayOfWeek && r.0[j].id == w[j].id)
      && (forall j :: 0 <= j < |w| && DayIndex(w, day) != Some(j) ==> r.0[j] == w[j])
      && (forall j :: |w| <= j < |r.0| ==> k <= r.0[j].id < r.1 && r.0[j].dayOfWeek == day)
  {
  }

  /** One iteration leaves the first entry of every other day where it was. */
  lemma SaveDayOthers(w: seq<WorkingHours>, k: Id, s: DefaultSchedule, day: int, now: Stamp, d: int)
    requires d != day
    ensures DayIndex(SaveDay(w, k, s, day, now).0, d) == DayIndex(w, d)
  {
    var r := SaveDay(w, k, s, day, now).0;
    SaveDayFrame(w, k, s, day, now);
    DayIndexSpec(w, d);
    DayIndexSpec(r, d);
    if DayIndex(w, d).Some? {
      var i := DayIndex(w, d).value;
      assert r[i].dayOfWeek == d;
    } else {
      assert forall j :: 0 <= j < |r| ==> r[j].dayOfWeek != d;
    }
  }

  /** One iteration sets the first entry of its own day. */
  lemma SaveDaySets(w: seq<WorkingHours>, k: Id, s: DefaultSchedule, day: int, now: Stamp)
    ensures var r := SaveDay(w, k, s, day, now).0;
      && DayIndex(r, day).Some?
      && (DayIndex(w, day).Some? ==>
            && DayIndex(r, day) == DayIndex(w, day)
            && r[DayIndex(w, day).value] == DayEntry(w[DayIndex(w, day).value].id, day, s,
                                                     w[DayIndex(w, day).value].createdAt, now))
      && (DayIndex(w, day).None? ==>
            DayIndex(r, day) == Some(|w|) && r[|w|] == DayEntry(k, day, s, now, now))
  {
    var r := SaveDay(w, k, s, day, now).0;
    DayIndexSpec(w, day);
    DayIndexSpec(r, day);
    if DayIndex(w, day).None? {
      assert r[|w|].dayOfWeek == day;
      assert forall j :: 0 <= j < |w| ==> r[j] == w[j];
    } else {
      var i := DayIndex(w, day).value;
      assert r[i].dayOfWeek == day;
      assert forall j :: 0 <= j < i ==> r[j] == w[j];
    }
  }

  /** `j` holds the first entry of one of the days 0 .. n - 1. */
  ghost predicate FirstOfDay(wh: seq<WorkingHours>, j: nat, n: nat)
    requires j < |wh|
  {
    0 <= wh[j].dayOfWeek < n && DayIndex(wh, wh[j].dayOfWeek) == Some(j)
  }

  lemma SaveDaysStep(wh: seq<WorkingHours>, next: Id, s: DefaultSchedule, n: nat, now: Stamp)
    requires n > 0
    ensures var w := SaveDays(wh, next, s, n - 1, now);
      SaveDays(wh, next, s, n, now) == SaveDay(w.0, w.1, s, n - 1, now)
  {
  }

  /** After n iterations: the sizes, and ids and weekdays of existing positions kept. */
  lemma {:induction false} SaveDaysShape(wh: seq<WorkingHours>, next: Id, s: DefaultSchedule, n: nat, now: Stamp)
    ensures var r := SaveDays(wh, next, s, n, now);
      && |r.0| >= |wh| && r.1 >= next && r.1 - next == |r.0| - |wh|
      && (forall j :: 0 <= j < |wh| ==> r.0[j].dayOfWeek == wh[j].dayOfWeek && r.0[j].id == wh[j].id)
      && (forall j :: |wh| <= j < |r.0| ==> next <= r.0[j].id < r.1)
    decreases n
  {
    if n > 0 {
      var w := SaveDays(wh, next, s, n - 1, now);
      SaveDaysStep(wh, next, s, n, now);
      SaveDaysShape(wh, next, s, n - 1, now);
      SaveDayFrame(w.0, w.1, s, n - 1, now);
    }
  }

  /** After n iterations, only the first entries of days 0 .. n - 1 were replaced. */
  lemma {:induction false} SaveDaysKeeps(wh: seq<WorkingHours>, next: Id, s: DefaultSchedule, n: nat, now: Stamp, j: nat)
    requires j < |wh| && !FirstOfDay(wh, j, n)
    ensures j < |SaveDays(wh, next, s, n, now).0| && SaveDays(wh, next, s, n, now).0[j] == wh[j]
    decreases n
  {
    if n > 0 {
      var w := SaveDays(wh, next, s, n - 1, now);
      SaveDaysStep(wh, next, s, n, now);
      NotFirstOfDay(wh, j, n);
      SaveDaysOthers(wh, next, s, n - 1, now, n - 1);
      assert DayIndex(w.0, n - 1) != Some(j);
      SaveDaysKeeps(wh, next, s, n - 1, now, j);
      SaveDayKeeps(w.0, w.1, s, n - 1, now, j);
    }
  }

  /** A position that holds no first entry of days 0 .. n - 1 is not the first entry of day n - 1. */
  lemma NotFirstOfDay(wh: seq<WorkingHours>, j: nat, n: nat)
    requires n > 0 && j < |wh| && !FirstOfDay(wh, j, n)
    ensures DayIndex(wh, n - 1) != Some(j)
  {
  }

  /** One iteration leaves every position but the first entry of its day alone. */
  lemma SaveDayKeeps(w: seq<WorkingHours>, k: Id, s: DefaultSchedule, day: int, now: Stamp, j: nat)
    requires j < |w| && DayIndex(w, day) != Some(j)
    ensures j < |SaveDay(w, k, s, day, now).0| && SaveDay(w, k, s, day, now).0[j] == w[j]
  {
    SaveDayFrame(w, k, s, day, now);
  }

  /** After n iterations, days outside 0 .. n - 1 keep their first entry. */
  lemma {:induction false} SaveDaysOthers(wh: seq<WorkingHours>, next: Id, s: DefaultSchedule, n: nat, now: Stamp, d: int)
    requires !(0 <= d < n)
    ensures DayIndex(SaveDays(wh, next, s, n, now).0, d) == DayIndex(wh, d)
    decreases n
  {
    if n > 0 {
      var w := SaveDays(wh, next, s, n - 1, now);
      SaveDaysStep(wh, next, s, n, now);
      SaveDaysOthers(wh, next, s, n - 1, now, d);
      SaveDayOthers(w.0, w.1, s, n - 1, now, d);
    }
  }

  /** The first entry of `d` as written by the save of day `d` itself. */
  ghost predicate WrittenFrom(wh: seq<WorkingHours>, r: seq<WorkingHours>, s: DefaultSchedule, now: Stamp, d: int)
  {
    && DayIndex(r, d).Some?
    && (DayIndex(wh, d).Some? ==>
          && DayIndex(r, d) == DayIndex(wh, d)
          && r[DayIndex(wh, d).value] == DayEntry(wh[DayIndex(wh, d).value].id, d, s,
                                                  wh[DayIndex(wh, d).value].createdAt, now))
    && (DayIndex(wh, d).None? ==>
          && |wh| <= DayIndex(r, d).value
          && r[DayIndex(r, d).value] == DayEntry(r[DayIndex(r, d).value].id, d, s, now, now))
  }

  /** After n iterations, each day 0 .. n - 1 has its first entry written. */
  lemma {:induction false} SaveDaysSets(wh: seq<WorkingHours>, next: Id, s: DefaultSchedule, n: nat, now: Stamp, d: int)
    requires 0 <= d < n
    ensures WrittenFrom(wh, SaveDays(wh, next, s, n, now).0, s, now, d)
    decreases n
  {
    if d == n - 1 {
      SaveDaysSetsLast(wh, next, s, n, now);
    } else {
      SaveDaysSets(wh, next, s, n - 1, now, d);
      SaveDaysSetsStep(wh, next, s, n, now, d);
    }
  }

  /** The save of day n - 1 writes its first entry. */
  lemma SaveDaysSetsLast(wh: seq<WorkingHours>, next: Id, s: DefaultSchedule, n: nat, now: Stamp)
    requires n > 0
    ensures WrittenFrom(wh, SaveDays(wh, next, s, n, now).0, s, now, n - 1)
  {
    var d := n - 1;
    var w := SaveDays(wh, next, s, d, now);
    SaveDaysStep(wh, next, s, n, now);
    SaveDaysOthers(wh, next, s, d, now, d);
    SaveDaySets(w.0, w.1, s, d, now);
    if DayIndex(wh, d).Some? {
      SaveDaysKeeps(wh, next, s, d, now, DayIndex(wh, d).value);
    } else {
      SaveDaysShape(wh, next, s, d, now);
    }
  }

  /** The save of day n - 1 keeps what the earlier saves wrote for day d. */
  lemma SaveDaysSetsStep(wh: seq<WorkingHours>, next: Id, s: DefaultSchedule, n: nat, now: Stamp, d: int)
    requires 0 <= d < n - 1
    requires WrittenFrom(wh, SaveDays(wh, next, s, n - 1, now).0, s, now, d)
    ensures WrittenFrom(wh, SaveDays(wh, next, s, n, now).0, s, now, d)
  {
    var w := SaveDays(wh, next, s, n - 1, now);
    SaveDaysStep(wh, next, s, n, now);
    SaveDayWrittenKept(wh, w.0, w.1, s, n - 1, now, d);
  }

  /** Saving another day keeps what was written for day d. */
  lemma SaveDayWrittenKept(wh: seq<WorkingHours>, w: seq<WorkingHours>, k: Id, s: DefaultSchedule,
                           day: int, now: Stamp, d: int)
    requires d != day && WrittenFrom(wh, w, s, now, d)
    ensures WrittenFrom(wh, SaveDay(w, k, s, day, now).0, s, now, d)
  {
    SaveDayOthers(w, k, s, day, now, d);
    var i := DayIndex(w, d).value;
    assert w[i].dayOfWeek == d;
    SaveDayKeeps(w, k, s, day, now, i);
  }

  /** After `saveDefaultSchedule`, every weekday 0..6 has its first entry set to
      the given times and duration, closed on Sunday and open otherwise; an entry
      that existed keeps its place, id and creation time, a missing one is added
      with a fresh id, and entries of no weekday, or behind a weekday's first
      entry, are untouched. */
  lemma SaveWeekResult(wh: seq<WorkingHours>, next: Id, s: DefaultSchedule, now: Stamp, d: int)
    requires 0 <= d <= 6
    ensures var r := SaveDays(wh, next, s, 7, now);
      DayIndex(r.0, d).Some? &&
      var e := r.0[DayIndex(r.0, d).value];
      && e.dayOfWeek == d && e.isOpen == (d != Sunday)
      && e.openTime == Some(s.openTime) && e.closeTime == Some(s.closeTime)
      && e.breakStart == s.breakStart && e.breakEnd == s.breakEnd
      && e.slotDuration == Some(s.slotDuration) && e.updatedAt == now
      && (DayIndex(wh, d).Some? ==> DayIndex(r.0, d) == DayIndex(wh, d) &&
                                    e.id == wh[DayIndex(wh, d).value].id &&
                                    e.createdAt == wh[DayIndex(wh, d).value].createdAt)
      && (DayIndex(wh, d).None? ==> next <= e.id < r.1)
  {
    SaveDaysSets(wh, next, s, 7, now, d);
    SaveDaysShape(wh, next, s, 7, now);
  }

  /** Reading the default schedule back after saving one gives what was saved,
      up to the `||` fallbacks for empty times and a zero duration. */
  lemma ScheduleRoundTrip(wh: seq<WorkingHours>, next: Id, s: DefaultSchedule, now: Stamp)
    ensures var d := DefaultScheduleOf(SaveDays(wh, next, s, 7, now).0);
      && d.openTime == (if s.openTime != "" then s.openTime else FallbackOpen)
      && d.closeTime == (if s.closeTime != "" then s.closeTime else FallbackClose)
      && d.slotDuration == (if s.slotDuration != 0 then s.slotDuration else FallbackDuration)
      && d.breakStart == s.breakStart && d.breakEnd == s.breakEnd
  {
    SaveWeekResult(wh, next, s, now, Monday);
  }
}
