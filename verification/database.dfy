/** The `LocalDatabase` store: its collections are fields that each operation
    updates in place, and every operation is proved to leave the store as the
    pure function of the same name in the other modules describes. */
module Database {
  import opened Seqs
  import opened Clock
  import opened Records
  import opened Schedule
  import opened SlotStore
  import opened Generator
  import opened Bookings

  class LocalDatabase {
    var slots: seq<Slot>
    var bookings: seq<Booking>
    var customers: seq<Customer>
    var services: seq<Service>
    var workingHours: seq<WorkingHours>
    var bookingServices: seq<BookingService>
    /** The fresh-id supply that stands for `generateId`. */
    var nextId: Id

    /** What every operation keeps: one slot per (date, time) pair, slot ids
        unique, one customer per phone, and the id supply ahead of every id
        already handed out. */
    ghost predicate Valid()
      reads this
    {
      Consistent(slots, bookings, customers, workingHours, nextId)
    }

    /** An empty store over a service catalogue. */
    constructor(services: seq<Service>)
      ensures Valid()
      ensures slots == [] && bookings == [] && customers == [] && workingHours == [] && bookingServices == []
      ensures this.services == services
    {
      slots := [];
      bookings := [];
      customers := [];
      this.services := services;
      workingHours := [];
      bookingServices := [];
      nextId := 0;
    }

    /** `updateSlot(id, { status, booking_id })` */
    method UpdateSlot(id: Id, status: SlotStatus, bookingId: Option<Id>, now: Stamp)
      requires Valid()
      modifies this
      ensures Valid()
      ensures slots == PatchSlot(old(slots), id, status, bookingId, now)
      ensures bookings == old(bookings) && customers == old(customers) && services == old(services)
      ensures workingHours == old(workingHours) && bookingServices == old(bookingServices) && nextId == old(nextId)
    {
      PatchSlotKeeps(slots, id, status, bookingId, now);
      var index := IdIndex(slots, id);
      if index.Some? {
        var i := index.value;
        slots := slots[i := slots[i].(status := status, bookingId := bookingId, updatedAt := now)];
      }
    }

    /** `findOrCreateCustomer` */
    method FindOrCreateCustomer(info: CustomerInfo, now: Stamp) returns (customer: Customer)
      requires Valid()
      modifies this
      ensures Valid()
      ensures var r := FindOrCreate(old(customers), old(nextId), info, now);
        customers == r.0 && customer == r.1 && nextId == r.2
      ensures slots == old(slots) && bookings == old(bookings) && services == old(services)
      ensures workingHours == old(workingHours) && bookingServices == old(bookingServices)
    {
      FindOrCreateEffect(customers, nextId, info, now);
      var existing := CustomerIndex(customers, info.phone);
      if existing.Some? {
        customer := customers[existing.value];
        return;
      }
      customer := Customer(nextId, info.name, info.phone, info.email, now, now);
      nextId := nextId + 1;
      customers := customers + [customer];
    }

    /** `createBooking`: the customer is found or created, a confirmed booking with
        the totals of the stored services requested is stored, its line items are
        built (and only returned), and the slot at its date and time, if any, is
        booked by it. */
    method CreateBooking(req: BookingRequest, now: Stamp) returns (booking: Booking, items: seq<BookingService>)
      requires Valid()
      modifies this
      ensures Valid()
      ensures var c := FindOrCreate(old(customers), old(nextId), req.customer, now);
        var selected := Selected(old(services), req.services);
        && customers == c.0
        && booking == NewBooking(c.2, c.1.id, req, selected, now)
        && bookings == old(bookings) + [booking]
        && items == LineItems(c.2 + 1, booking.id, selected, now)
        && nextId == c.2 + 1 + |selected|
        && slots == ReserveSlot(old(slots), req.date, req.time, booking.id, now)
      ensures services == old(services) && workingHours == old(workingHours)
      ensures bookingServices == old(bookingServices)
    {
      var customer := FindOrCreateCustomer(req.customer, now);
      var selected := Selected(services, req.services);
      var id := nextId;
      booking := NewBooking(id, customer.id, req, selected, now);
      nextId := id + 1;
      BookingStored(slots, bookings, customers, workingHours, id, booking, id + 1 + |selected|);
      bookings := bookings + [booking];
      items := LineItems(nextId, booking.id, selected, now);
      nextId := nextId + |selected|;
      var slot := FindSlot(slots, req.date, req.time);
      if slot.Some? {
        UpdateSlot(slot.value.id, Booked, Some(booking.id), now);
      }
    }

    /** `updateBookingStatus`: returns the updated booking, or nothing for an
        unknown id. */
    method UpdateBookingStatus(id: Id, status: BookingStatus, now: Stamp) returns (result: Option<Booking>)
      requires Valid()
      modifies this
      ensures Valid()
      ensures (result, bookings, slots) == UpdateStatus(old(bookings), old(slots), id, status, now)
      ensures customers == old(customers) && services == old(services) && workingHours == old(workingHours)
      ensures bookingServices == old(bookingServices) && nextId == old(nextId)
    {
      var index := BookingIndex(bookings, id);
      if index.None? {
        return None;
      }
      var i := index.value;
      bookings := bookings[i := bookings[i].(status := status, updatedAt := now)];
      if status == Completed || status == NoShow {
        var linked := LinkedIndex(slots, id);
        if linked.Some? {
          UpdateSlot(slots[linked.value].id, Available, None, now);
        }
      }
      result := Some(bookings[i]);
    }

    /** `saveBlockedSlots(date, times, reason)` */
    method SaveBlockedSlots(date: Date, times: seq<Time>, reason: string, now: Stamp)
      requires Valid()
      modifies this
      ensures Valid()
      ensures (slots, nextId) == BlockAll(old(slots), old(nextId), date, times, reason, now)
      ensures bookings == old(bookings) && customers == old(customers) && services == old(services)
      ensures workingHours == old(workingHours) && bookingServices == old(bookingServices)
    {
      var ss, next := slots, nextId;
      var k := 0;
      while k < |times|
        invariant 0 <= k <= |times| && unchanged(this)
        invariant BlockAll(ss, next, date, times[k..], reason, now) == BlockAll(slots, nextId, date, times, reason, now)
      {
        var time := times[k];
        ghost var before := (ss, next);
        var existing := SlotIndex(ss, date, time);
        if existing.Some? {
          var i := existing.value;
          ss := ss[i := Slot(ss[i].id, date, time, Blocked, None, Some(reason), ss[i].createdAt, now)];
        } else {
          ss := ss + [Slot(next, date, time, Blocked, None, Some(reason), now, now)];
          next := next + 1;
        }
        assert (ss, next) == BlockOne(before.0, before.1, date, time, reason, now);
        assert times[k..][0] == time && times[k..][1..] == times[k + 1..];
        k := k + 1;
      }
      BlockAllEffect(slots, nextId, date, times, reason, now);
      BlockedIds(slots, nextId, ss, next, date, times, reason, now);
      slots, nextId := ss, next;
    }

    /** `saveDefaultSchedule(schedule)` */
    method SaveDefaultSchedule(s: DefaultSchedule, now: Stamp)
      requires Valid()
      modifies this
      ensures Valid()
      ensures (workingHours, nextId) == SaveDays(old(workingHours), old(nextId), s, 7, now)
      ensures slots == old(slots) && bookings == old(bookings) && customers == old(customers)
      ensures services == old(services) && bookingServices == old(bookingServices)
    {
      var wh, next := workingHours, nextId;
      for day := 0 to 7
        invariant unchanged(this)
        invariant (wh, next) == SaveDays(workingHours, nextId, s, day, now)
      {
        SaveDaysStep(workingHours, nextId, s, day + 1, now);
        ghost var before := (wh, next);
        var index := DayIndex(wh, day);
        if index.Some? {
          var i := index.value;
          wh := wh[i := DayEntry(wh[i].id, day, s, wh[i].createdAt, now)];
        } else {
          wh := wh + [DayEntry(next, day, s, now, now)];
          next := next + 1;
        }
        assert (wh, next) == SaveDay(before.0, before.1, s, day, now);
      }
      SaveDaysShape(workingHours, nextId, s, 7, now);
      SavedIds(workingHours, nextId, s, now);
      workingHours, nextId := wh, next;
    }

    /** `generateSlots(startDate, endDate)` over the dates `start` .. `end`. */
    method GenerateSlots(start: Date, end: Date, now: Stamp)
      requires Valid() && Generable(DefaultScheduleOf(workingHours))
      modifies this
      ensures Valid()
      ensures (slots, nextId) == Generate(old(slots), old(nextId), DefaultScheduleOf(old(workingHours)), start, end, now)
      ensures bookings == old(bookings) && customers == old(customers) && services == old(services)
      ensures workingHours == old(workingHours) && bookingServices == old(bookingServices)
    {
      var schedule := DefaultScheduleOf(workingHours);
      var ss, next := GenerateDates(slots, nextId, schedule, start, end, now);
      GeneratedValid(slots, nextId, schedule, start, end, now);
      slots, nextId := ss, next;
    }

    /** `deleteAllSlots` */
    method DeleteAllSlots()
      requires Valid()
      modifies this
      ensures Valid()
      ensures slots == KeepBooked(old(slots))
      ensures bookings == old(bookings) && customers == old(customers) && services == old(services)
      ensures workingHours == old(workingHours) && bookingServices == old(bookingServices) && nextId == old(nextId)
    {
      KeepBookedUnique(slots);
      KeptIds(slots, nextId);
      slots := KeepBooked(slots);
    }
  }

  /** The invariant of the store, over its collections and its id supply. */
  ghost predicate Consistent(slots: seq<Slot>, bookings: seq<Booking>, customers: seq<Customer>,
                             workingHours: seq<WorkingHours>, next: Id)
  {
    && KeysUnique(slots) && IdsUnique(slots) && IdsBelow(slots, next)
    && PhonesUnique(customers)
    && (forall j :: 0 <= j < |bookings| ==> bookings[j].id < next)
    && (forall j :: 0 <= j < |customers| ==> customers[j].id < next)
    && (forall j :: 0 <= j < |workingHours| ==> workingHours[j].id < next)
  }

  /** Storing a booking under an id below a larger supply keeps the store consistent. */
  lemma BookingStored(slots: seq<Slot>, bookings: seq<Booking>, customers: seq<Customer>,
                      workingHours: seq<WorkingHours>, next: Id, booking: Booking, later: Id)
    requires Consistent(slots, bookings, customers, workingHours, next)
    requires booking.id < later && next <= later
    ensures Consistent(slots, bookings + [booking], customers, workingHours, later)
  {
  }

  /** The outer loop of `generateSlots`: every date from `start` to `end`, Sundays skipped. */
  method GenerateDates(slots: seq<Slot>, next: Id, schedule: DefaultSchedule, start: Date, end: Date, now: Stamp)
    returns (ss: seq<Slot>, nx: Id)
    requires Generable(schedule)
    ensures (ss, nx) == Generate(slots, next, schedule, start, end, now)
  {
    ghost var goal := Generate(slots, next, schedule, start, end, now);
    ss, nx := slots, next;
    var d := start;
    while d <= end
      invariant d == start || d <= end + 1
      invariant AddAll(ss, nx, RangeKeys(schedule, d, end), now) == goal
      decreases end + 1 - d
    {
      ghost var rest := RangeKeys(schedule, d + 1, end);
      if Weekday(d) != Sunday {
        assert RangeKeys(schedule, d, end)
            == Walk(schedule, d, Minutes(schedule.openTime), Minutes(schedule.closeTime)) + rest;
        ss, nx := GenerateDay(ss, nx, schedule, d, rest, now);
      } else {
        assert RangeKeys(schedule, d, end) == [] + rest;
        assert [] + rest == rest;
      }
      d := d + 1;
    }
    assert RangeKeys(schedule, d, end) == [];
  }

  /** The body of `generateSlots` for one date that is not a Sunday: the
      opening and closing times split into hours and minutes, then the inner loop. */
  method GenerateDay(slots: seq<Slot>, next: Id, schedule: DefaultSchedule, d: Date, ghost rest: seq<Key>, now: Stamp)
    returns (ss: seq<Slot>, nx: Id)
    requires Generable(schedule)
    ensures AddAll(ss, nx, rest, now) == AddAll(slots, next, Walk(schedule, d, Minutes(schedule.openTime), Minutes(schedule.closeTime)) + rest, now)
  {
    var openHour, openMin := Hour(schedule.openTime), Minute(schedule.openTime);
    var closeHour, closeMin := Hour(schedule.closeTime), Minute(schedule.closeTime);
    ss, nx := GenerateFrom(slots, next, schedule, d, openHour, openMin, closeHour, closeMin, Minutes(schedule.closeTime), rest, now);
  }

  /** The inner loop of `generateSlots`: from `hour:minute` in steps of the slot
      duration, minutes carried into hours, while strictly before the closing
      time `closeHour:closeMinute`. */
  method GenerateFrom(slots: seq<Slot>, next: Id, schedule: DefaultSchedule, d: Date, hour: nat, minute: nat,
                      closeHour: nat, closeMinute: nat, ghost close: nat, ghost rest: seq<Key>, now: Stamp)
    returns (ss: seq<Slot>, nx: Id)
    requires schedule.slotDuration > 0 && minute < 60 && closeMinute < 60
    requires close == closeHour * 60 + closeMinute && close <= 24 * 60
    ensures AddAll(ss, nx, rest, now) == AddAll(slots, next, Walk(schedule, d, hour * 60 + minute, close) + rest, now)
  {
    ss, nx := slots, next;
    var currentHour: nat, currentMin: nat := hour, minute;
    ghost var cur: nat := hour * 60 + minute;
    ghost var goal := AddAll(slots, next, Walk(schedule, d, cur, close) + rest, now);
    while currentHour < closeHour || (currentHour == closeHour && currentMin < closeMinute)
      invariant currentMin < 60 && cur == currentHour * 60 + currentMin
      invariant AddAll(ss, nx, Walk(schedule, d, cur, close) + rest, now) == goal
      decreases close - cur
    {
      ClockBefore(currentHour, currentMin, closeHour, closeMinute);
      ss, nx, currentHour, currentMin := GenerateTime(ss, nx, schedule, d, currentHour, currentMin, cur, close, rest, goal, now);
      cur := cur + schedule.slotDuration;
    }
    ClockBefore(currentHour, currentMin, closeHour, closeMinute);
    WalkDone(schedule, d, cur, close, rest);
    assert AddAll(ss, nx, rest, now) == goal;
  }

  /** The body of the inner loop at `hour:minute`: the time text, outside the
      break a new available slot under the next id unless a slot already sits at
      that date and time, and the clock step. It is one step through the day's
      remaining pairs. */
  method GenerateTime(slots: seq<Slot>, next: Id, schedule: DefaultSchedule, d: Date, hour: nat, minute: nat,
                      ghost cur: nat, ghost close: nat, ghost rest: seq<Key>, ghost goal: (seq<Slot>, Id), now: Stamp)
    returns (ss: seq<Slot>, nx: Id, h: nat, m: nat)
    requires schedule.slotDuration > 0 && close <= 24 * 60
    requires minute < 60 && cur == hour * 60 + minute && cur < close
    requires AddAll(slots, next, Walk(schedule, d, cur, close) + rest, now) == goal
    ensures m < 60 && h * 60 + m == cur + schedule.slotDuration
    ensures AddAll(ss, nx, Walk(schedule, d, cur + schedule.slotDuration, close) + rest, now) == goal
  {
    var timeStr := Format(hour, minute);
    FormatIsTimeAt(hour, minute);
    ss, nx := slots, next;
    var isDuringBreak := InBreak(schedule, timeStr);
    if !isDuringBreak {
      var found := FindSlot(ss, d, timeStr);
      if found.None? {
        ss := ss + [Slot(nx, d, timeStr, Available, None, None, now, now)];
        nx := nx + 1;
      }
    }
    GeneratorStep(slots, next, schedule, d, cur, close, rest, now, timeStr, ss, nx);
    h, m := Advance(hour, minute, schedule.slotDuration);
  }

  /** The working hours after saving keep their ids below the supply. */
  lemma SavedIds(wh: seq<WorkingHours>, next: Id, s: DefaultSchedule, now: Stamp)
    requires forall j :: 0 <= j < |wh| ==> wh[j].id < next
    ensures var r := SaveDays(wh, next, s, 7, now);
      r.1 >= next && forall j :: 0 <= j < |r.0| ==> r.0[j].id < r.1
  {
    SaveDaysShape(wh, next, s, 7, now);
  }

  /** The clock step at the end of the inner loop: add the slot duration to the
      minutes and, once they reach 60, carry whole hours into the hour. The
      minute total grows by exactly the step. */
  method Advance(hour: nat, minute: nat, step: nat) returns (h: nat, m: nat)
    requires minute < 60
    ensures m < 60 && h * 60 + m == hour * 60 + minute + step
  {
    h, m := hour, minute + step;
    if m >= 60 {
      h := h + m / 60;
      m := m % 60;
    }
  }

  /** One pass of the generator's inner loop, as a step through the remaining pairs. */
  lemma GeneratorStep(slots: seq<Slot>, next: Id, s: DefaultSchedule, date: Date, cur: nat, close: nat,
                      rest: seq<Key>, now: Stamp, t: Time, after: seq<Slot>, afterNext: Id)
    requires s.slotDuration > 0 && cur < close <= 24 * 60 && t == TimeAt(cur)
    requires (after, afterNext) == if InBreak(s, t) then (slots, next) else AddSlot(slots, next, (date, t), now)
    ensures AddAll(slots, next, Walk(s, date, cur, close) + rest, now)
         == AddAll(after, afterNext, Walk(s, date, cur + s.slotDuration, close) + rest, now)
  {
    WalkFirst(s, date, cur, close);
    var w := Walk(s, date, cur + s.slotDuration, close);
    if InBreak(s, t) {
      assert Walk(s, date, cur, close) == w;
    } else {
      assert Walk(s, date, cur, close) + rest == [(date, t)] + (w + rest);
      AddAllCons(slots, next, (date, t), w + rest, now);
    }
  }

  /** The slots after blocking keep ids unique and below the supply. */
  lemma BlockedIds(slots: seq<Slot>, next: Id, r: seq<Slot>, rnext: Id,
                   date: Date, times: seq<Time>, reason: string, now: Stamp)
    requires IdsUnique(slots) && IdsBelow(slots, next)
    requires Blocks(slots, next, r, rnext, date, times, reason, now)
    ensures IdsUnique(r) && IdsBelow(r, rnext)
  {
    assert forall j :: 0 <= j < |slots| ==> r[j].id == slots[j].id;
    FreshIds(slots, next, r);
  }

  /** The slots after generating keep keys and ids unique and ids below the supply. */
  lemma GeneratedValid(slots: seq<Slot>, next: Id, s: DefaultSchedule, start: Date, end: Date, now: Stamp)
    requires Generable(s)
    requires KeysUnique(slots) && IdsUnique(slots) && IdsBelow(slots, next)
    ensures var r := Generate(slots, next, s, start, end, now);
      KeysUnique(r.0) && IdsUnique(r.0) && IdsBelow(r.0, r.1) && next <= r.1
  {
    var r := Generate(slots, next, s, start, end, now);
    AddAllEffect(slots, next, RangeKeys(s, start, end), now);
    assert forall j :: 0 <= j < |slots| ==> r.0[j] == r.0[..|slots|][j];
    FreshIds(slots, next, r.0);
  }

  /** The purge keeps ids below the supply. */
  lemma KeptIds(slots: seq<Slot>, next: Id)
    requires IdsBelow(slots, next)
    ensures IdsBelow(KeepBooked(slots), next)
  {
    var r := KeepBooked(slots);
    forall j | 0 <= j < |r| ensures r[j].id < next {
      assert r[j] in multiset(r);
      assert r[j] in multiset(slots);
    }
  }
}
