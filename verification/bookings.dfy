/** The booking engine: customers found or created by phone, price and duration
    totals over the requested services, the slot a booking takes and the slot a
    finished booking gives back, status changes and the sorted booking list. */
module Bookings {
  import opened Seqs
  import opened Clock
  import opened Records
  import opened SlotStore

  /** `customers.find(c => c.phone === phone)`, as a position. */
  function CustomerIndex(customers: seq<Customer>, phone: string): (r: Option<nat>)
    ensures r.Some? ==> r.value < |customers| && customers[r.value].phone == phone
  {
    FindIndex(customers, (c: Customer) => c.phone == phone)
  }

  /** `findOrCreateCustomer`: the first customer with the phone, or a new one with a
      fresh id appended. Returns the customers, the customer and the next fresh id. */
  function FindOrCreate(customers: seq<Customer>, next: Id, info: CustomerInfo, now: Stamp)
    : (r: (seq<Customer>, Customer, Id))
    ensures r.1 in r.0 && r.1.phone == info.phone
    ensures |customers| <= |r.0| <= |customers| + 1 && r.0[..|customers|] == customers
    ensures r.2 == next + (|r.0| - |customers|)
  {
    match CustomerIndex(customers, info.phone)
    case Some(i) => (customers, customers[i], next)
    case None =>
      var c := Customer(next, info.name, info.phone, info.email, now, now);
      (customers + [c], c, next + 1)
  }

  predicate PhonesDiffer(a: Customer, b: Customer)
  {
    a.phone != b.phone
  }

  /** No two customers share a phone number. */
  predicate PhonesUnique(customers: seq<Customer>)
  {
    forall i, j :: 0 <= i < j < |customers| ==> PhonesDiffer(customers[i], customers[j])
  }

  /** A known phone returns the first customer with it and changes nothing; an unknown
      phone appends a customer with the request's details and a fresh id. Either way
      the customer returned has the phone and is stored, and phones stay unique. */
  lemma FindOrCreateEffect(customers: seq<Customer>, next: Id, info: CustomerInfo, now: Stamp)
    ensures var r := FindOrCreate(customers, next, info, now);
      && r.1.phone == info.phone && r.1 in r.0
      && ((exists j :: 0 <= j < |customers| && customers[j].phone == info.phone) ==>
            && r.0 == customers && r.2 == next
            && exists i :: 0 <= i < |customers| && r.1 == customers[i]
                 && forall j :: 0 <= j < i ==> customers[j].phone != info.phone)
      && ((forall j :: 0 <= j < |customers| ==> customers[j].phone != info.phone) ==>
            && r.1 == Customer(next, info.name, info.phone, info.email, now, now)
            && r.0 == customers + [r.1] && r.2 == next + 1)
      && (PhonesUnique(customers) ==> PhonesUnique(r.0))
  {
    var r := FindOrCreate(customers, next, info, now);
    FindIndexSpec(customers, (c: Customer) => c.phone == info.phone);
    if CustomerIndex(customers, info.phone).None? && PhonesUnique(customers) {
      forall a, b | 0 <= a < b < |r.0| ensures PhonesDiffer(r.0[a], r.0[b]) {
        if b < |customers| {
          assert PhonesDiffer(customers[a], customers[b]);
        }
      }
    }
  }

  /** Asking again for the same phone, under any name, finds the customer the first
      call returned and changes nothing. */
  lemma FindOrCreateStable(customers: seq<Customer>, next: Id, info: CustomerInfo, now: Stamp,
                           again: CustomerInfo, later: Stamp)
    requires again.phone == info.phone
    ensures var r := FindOrCreate(customers, next, info, now);
      FindOrCreate(r.0, r.2, again, later) == r
  {
    var r := FindOrCreate(customers, next, info, now);
    FindIndexSpec(customers, (c: Customer) => c.phone == info.phone);
    FindIndexSpec(r.0, (c: Customer) => c.phone == info.phone);
    if CustomerIndex(customers, info.phone).None? {
      assert r.0[|customers|].phone == info.phone;
    } else {
      assert CustomerIndex(r.0, info.phone) == CustomerIndex(customers, info.phone);
    }
  }

  /** `services.filter(s => ids.includes(s.id))`: the stored services requested. */
  function Selected(services: seq<Service>, ids: seq<Id>): (r: seq<Service>)
    ensures |r| <= |services|
    ensures forall j :: 0 <= j < |r| ==> r[j].id in ids
  {
    Filter(services, (s: Service) => s.id in ids)
  }

  /** A service is selected exactly when it is stored and its id is requested, and
      it is selected as often as it is stored. */
  lemma SelectedMembers(services: seq<Service>, ids: seq<Id>, x: Service)
    ensures x in Selected(services, ids) <==> x in services && x.id in ids
    ensures multiset(Selected(services, ids))[x] == if x.id in ids then multiset(services)[x] else 0
  {
    FilterMembers(services, (s: Service) => s.id in ids, x);
    FilterCount(services, (s: Service) => s.id in ids);
  }

  /** `reduce((sum, s) => sum + s.price, 0)` */
  function TotalPrice(ss: seq<Service>): int
  {
    if |ss| == 0 then 0 else ss[0].price + TotalPrice(ss[1..])
  }

  /** `reduce((sum, s) => sum + s.duration_minutes, 0)` */
  function TotalDuration(ss: seq<Service>): int
  {
    if |ss| == 0 then 0 else ss[0].durationMinutes + TotalDuration(ss[1..])
  }

  /** The totals add up over a concatenation. */
  lemma {:induction false} TotalsConcat(a: seq<Service>, b: seq<Service>)
    ensures TotalPrice(a + b) == TotalPrice(a) + TotalPrice(b)
    ensures TotalDuration(a + b) == TotalDuration(a) + TotalDuration(b)
    decreases |a|
  {
    if |a| == 0 {
      assert a + b == b;
    } else {
      assert (a + b)[1..] == a[1..] + b;
      TotalsConcat(a[1..], b);
    }
  }

  /** Only which stored ids are requested matters: ids of no stored service and
      repeated ids change neither the selection nor the totals. */
  lemma SelectedSameIds(services: seq<Service>, ids: seq<Id>, other: seq<Id>)
    requires forall j :: 0 <= j < |services| ==> (services[j].id in ids <==> services[j].id in other)
    ensures Selected(services, ids) == Selected(services, other)
  {
    FilterAgrees(services, (s: Service) => s.id in ids, (s: Service) => s.id in other);
  }

  /** Adding a service to the catalogue adds its price and duration to a booking's
      totals exactly when the request names it. */
  lemma SelectedAppend(services: seq<Service>, x: Service, ids: seq<Id>)
    ensures Selected(services + [x], ids) == Selected(services, ids) + (if x.id in ids then [x] else [])
    ensures TotalPrice(Selected(services + [x], ids)) ==
      TotalPrice(Selected(services, ids)) + (if x.id in ids then x.price else 0)
    ensures TotalDuration(Selected(services + [x], ids)) ==
      TotalDuration(Selected(services, ids)) + (if x.id in ids then x.durationMinutes else 0)
  {
    FilterConcat(services, [x], (s: Service) => s.id in ids);
    assert Filter([x], (s: Service) => s.id in ids) == if x.id in ids then [x] else [];
    TotalsConcat(Selected(services, ids), if x.id in ids then [x] else []);
    assert TotalPrice([x]) == x.price;
    assert TotalDuration([x]) == x.durationMinutes;
  }

  /** Requesting no stored service gives zero totals. */
  lemma {:induction false} SelectedNothing(services: seq<Service>, ids: seq<Id>)
    requires forall j :: 0 <= j < |services| ==> services[j].id !in ids
    ensures Selected(services, ids) == []
    ensures TotalPrice(Selected(services, ids)) == 0 && TotalDuration(Selected(services, ids)) == 0
    decreases |services|
  {
    if |services| > 0 {
      SelectedNothing(services[1..], ids);
    }
  }

  /** A cut at 120 and a colour at 80, taking 60 and 45 minutes: a request for both
      and for an id that is not stored comes to 200 and 105 minutes. */
  lemma TotalsExample()
    ensures var services := [Service(1, "Cut", 120, 60), Service(2, "Colour", 80, 45)];
      var selected := Selected(services, [1, 2, 99]);
      TotalPrice(selected) == 200 && TotalDuration(selected) == 105
  {
    var services := [Service(1, "Cut", 120, 60), Service(2, "Colour", 80, 45)];
    KeepAllRequested(services, [1, 2, 99]);
  }

  /** A request naming every stored service selects all of them, in order. */
  lemma KeepAllRequested(services: seq<Service>, ids: seq<Id>)
    requires forall j :: 0 <= j < |services| ==> services[j].id in ids
    ensures Selected(services, ids) == services
  {
    FilterKeepsAll(services, (s: Service) => s.id in ids);
  }

  /** The booking `createBooking` stores: confirmed, with the totals of the selected
      services and the notes or an empty string. */
  function NewBooking(id: Id, customerId: Id, req: BookingRequest, selected: seq<Service>, now: Stamp): Booking
  {
    Booking(id, customerId, req.date, req.time, Confirmed, TotalPrice(selected), TotalDuration(selected),
            OrElse(req.notes, ""), now, now)
  }

  /** `services.map(...)`: one line item per selected service, with consecutive
      fresh ids from `firstId` and the price at booking time. */
  function LineItems(firstId: Id, bookingId: Id, selected: seq<Service>, now: Stamp): (r: seq<BookingService>)
    ensures |r| == |selected|
  {
    seq(|selected|, k requires 0 <= k < |selected| =>
      BookingService(firstId + k, bookingId, selected[k].id, selected[k].price, now))
  }

  function ItemsTotal(items: seq<BookingService>): int
  {
    if |items| == 0 then 0 else items[0].price + ItemsTotal(items[1..])
  }

  /** The line items belong to the booking, name the selected services in order, and
      their prices add up to the booking's total price. */
  lemma {:induction false} LineItemsTotal(firstId: Id, bookingId: Id, selected: seq<Service>, now: Stamp)
    ensures var items := LineItems(firstId, bookingId, selected, now);
      && (forall k :: 0 <= k < |items| ==> items[k].bookingId == bookingId && items[k].serviceId == selected[k].id)
      && ItemsTotal(items) == TotalPrice(selected)
    decreases |selected|
  {
    if |selected| > 0 {
      LineItemsTotal(firstId + 1, bookingId, selected[1..], now);
      assert LineItems(firstId, bookingId, selected, now)[1..] == LineItems(firstId + 1, bookingId, selected[1..], now);
    }
  }

  /** `createBooking`'s slot step: the slot at the booking's date and time, if any,
      becomes booked by it, whatever its status was. */
  function ReserveSlot(slots: seq<Slot>, date: Date, time: Time, bookingId: Id, now: Stamp): (r: seq<Slot>)
    ensures |r| == |slots|
    ensures forall j :: 0 <= j < |r| ==> r[j].id == slots[j].id && At(r[j], slots[j].date, slots[j].time)
  {
    match FindSlot(slots, date, time)
    case None => slots
    case Some(s) =>
      PatchSlotKeeps(slots, s.id, Booked, Some(bookingId), now);
      PatchSlot(slots, s.id, Booked, Some(bookingId), now)
  }

  /** On a consistent store, the slot at the pair becomes booked by the booking and
      nothing else changes; with no slot there, nothing changes at all. There is no
      check of the slot's status: an available, blocked or already booked slot is
      taken alike. */
  lemma ReserveSlotEffect(slots: seq<Slot>, date: Date, time: Time, bookingId: Id, now: Stamp)
    requires KeysUnique(slots) && IdsUnique(slots)
    ensures var r := ReserveSlot(slots, date, time, bookingId, now);
      && (forall j :: 0 <= j < |slots| && At(slots[j], date, time) ==>
            r == slots[j := slots[j].(status := Booked, bookingId := Some(bookingId), updatedAt := now)])
      && ((forall j :: 0 <= j < |slots| ==> !At(slots[j], date, time)) ==> r == slots)
  {
    FindSlotSpec(slots, date, time);
    forall j | 0 <= j < |slots| && At(slots[j], date, time)
      ensures ReserveSlot(slots, date, time, bookingId, now) ==
              slots[j := slots[j].(status := Booked, bookingId := Some(bookingId), updatedAt := now)]
    {
      PatchSlotEffect(slots, j, Booked, Some(bookingId), now);
    }
  }

  /** Reserving keeps status and booking link in step: the slot becomes booked
      together with its link. */
  lemma ReserveSlotLinks(slots: seq<Slot>, date: Date, time: Time, bookingId: Id, now: Stamp)
    requires KeysUnique(slots) && IdsUnique(slots) && LinkIffBooked(slots)
    ensures LinkIffBooked(ReserveSlot(slots, date, time, bookingId, now))
  {
    ReserveSlotEffect(slots, date, time, bookingId, now);
  }

  /** A slot already booked by one booking is taken over by the next booking for
      the same date and time. */
  lemma DoubleBooking()
    ensures var slots := [Slot(1, 0, "10:00", Booked, Some(7), None, "", "")];
      var r := ReserveSlot(slots, 0, "10:00", 8, "");
      r[0].status == Booked && r[0].bookingId == Some(8)
  {
    var slots := [Slot(1, 0, "10:00", Booked, Some(7), None, "", "")];
    assert At(slots[0], 0, "10:00");
    ReserveSlotEffect(slots, 0, "10:00", 8, "");
  }

  /** `slots.find(s => s.booking_id === bookingId)`, as a position. */
  function LinkedIndex(slots: seq<Slot>, bookingId: Id): (r: Option<nat>)
    ensures r.Some? ==> r.value < |slots| && slots[r.value].bookingId == Some(bookingId)
  {
    FindIndex(slots, (s: Slot) => s.bookingId == Some(bookingId))
  }

  /** The slot step of `updateBookingStatus`: the first slot linked to the booking
      becomes available and unlinked. */
  function ReleaseSlot(slots: seq<Slot>, bookingId: Id, now: Stamp): (r: seq<Slot>)
    ensures |r| == |slots|
    ensures forall j :: 0 <= j < |r| ==> r[j].id == slots[j].id && At(r[j], slots[j].date, slots[j].time)
  {
    match LinkedIndex(slots, bookingId)
    case None => slots
    case Some(j) =>
      PatchSlotKeeps(slots, slots[j].id, Available, None, now);
      PatchSlot(slots, slots[j].id, Available, None, now)
  }

  /** Slot `j` is the first one linked to the booking. */
  predicate FirstLinked(slots: seq<Slot>, bookingId: Id, j: nat)
    requires j < |slots|
  {
    slots[j].bookingId == Some(bookingId) && forall i :: 0 <= i < j ==> slots[i].bookingId != Some(bookingId)
  }

  /** With unique ids, the first slot linked to the booking is freed and nothing else
      changes; with no linked slot nothing changes. */
  lemma ReleaseSlotEffect(slots: seq<Slot>, bookingId: Id, now: Stamp)
    requires IdsUnique(slots)
    ensures var r := ReleaseSlot(slots, bookingId, now);
      && (forall j :: 0 <= j < |slots| && FirstLinked(slots, bookingId, j) ==>
            r == slots[j := slots[j].(status := Available, bookingId := None, updatedAt := now)])
      && ((forall j :: 0 <= j < |slots| ==> slots[j].bookingId != Some(bookingId)) ==> r == slots)
  {
    FindIndexSpec(slots, (s: Slot) => s.bookingId == Some(bookingId));
    if LinkedIndex(slots, bookingId).Some? {
      PatchSlotEffect(slots, LinkedIndex(slots, bookingId).value, Available, None, now);
    }
  }

  /** Releasing keeps status and booking link in step: the slot becomes available
      and loses its link together. */
  lemma ReleaseSlotLinks(slots: seq<Slot>, bookingId: Id, now: Stamp)
    requires IdsUnique(slots) && LinkIffBooked(slots)
    ensures LinkIffBooked(ReleaseSlot(slots, bookingId, now))
  {
    ReleaseSlotEffect(slots, bookingId, now);
  }

  /** The statuses that give the slot back. */
  predicate Frees(status: BookingStatus)
  {
    status == Completed || status == NoShow
  }

  /** `bookings.findIndex(b => b.id === id)` */
  function BookingIndex(bookings: seq<Booking>, id: Id): (r: Option<nat>)
    ensures r.Some? ==> r.value < |bookings| && bookings[r.value].id == id
  {
    FindIndex(bookings, (b: Booking) => b.id == id)
  }

  /** Booking `i` is the first one with the id. */
  predicate FirstWithId(bookings: seq<Booking>, id: Id, i: nat)
    requires i < |bookings|
  {
    bookings[i].id == id && forall j :: 0 <= j < i ==> bookings[j].id != id
  }

  /** `updateBookingStatus(id, status)`: the updated booking (or nothing), the
      bookings and the slots afterwards. */
  function UpdateStatus(bookings: seq<Booking>, slots: seq<Slot>, id: Id, status: BookingStatus, now: Stamp)
    : (r: (Option<Booking>, seq<Booking>, seq<Slot>))
    ensures |r.1| == |bookings| && |r.2| == |slots|
    ensures r.0.None? ==> r.1 == bookings && r.2 == slots
    ensures r.0.Some? ==> r.0.value in r.1 && r.0.value.id == id && r.0.value.status == status
  {
    match BookingIndex(bookings, id)
    case None => (None, bookings, slots)
    case Some(i) =>
      var b := bookings[i].(status := status, updatedAt := now);
      assert bookings[i := b][i] == b;
      (Some(b), bookings[i := b], if Frees(status) then ReleaseSlot(slots, id, now) else slots)
  }

  /** An unknown id returns nothing and changes nothing. Otherwise the first booking
      with the id takes the status and is returned; the slots change only for
      `completed` and `no_show`, and `cancelled` in particular keeps its slot. */
  lemma UpdateStatusEffect(bookings: seq<Booking>, slots: seq<Slot>, id: Id, status: BookingStatus, now: Stamp)
    ensures var r := UpdateStatus(bookings, slots, id, status, now);
      && ((forall j :: 0 <= j < |bookings| ==> bookings[j].id != id) ==> r == (None, bookings, slots))
      && (forall i :: 0 <= i < |bookings| && FirstWithId(bookings, id, i) ==>
            && r.0 == Some(bookings[i].(status := status, updatedAt := now))
            && r.1 == bookings[i := r.0.value]
            && (!Frees(status) ==> r.2 == slots)
            && (Frees(status) ==> r.2 == ReleaseSlot(slots, id, now)))
  {
    FindIndexSpec(bookings, (b: Booking) => b.id == id);
  }

  /** A status update keeps every slot's status and booking link in step. */
  lemma UpdateStatusLinks(bookings: seq<Booking>, slots: seq<Slot>, id: Id, status: BookingStatus, now: Stamp)
    requires IdsUnique(slots) && LinkIffBooked(slots)
    ensures LinkIffBooked(UpdateStatus(bookings, slots, id, status, now).2)
  {
    ReleaseSlotLinks(slots, id, now);
  }

  /** The comparator of `getBookings`: by date, then by time. */
  predicate ByDateTime(a: Booking, b: Booking)
  {
    a.date < b.date || (a.date == b.date && Less(a.time, b.time))
  }

  lemma ByDateTimeOrder()
    ensures StrictOrder(ByDateTime)
  {
    forall a: Booking ensures !ByDateTime(a, a) {
      LessIrreflexive(a.time);
    }
    forall a: Booking, b: Booking, c: Booking | ByDateTime(a, b) && ByDateTime(b, c)
      ensures ByDateTime(a, c)
    {
      if a.date == b.date == c.date {
        LessTransitive(a.time, b.time, c.time);
      }
    }
  }

  /** `getBookings(date?)` without the joined customer and services: the bookings
      of the date (all of them without one), ordered by date and then time. */
  function BookingsOn(bookings: seq<Booking>, date: Option<Date>): (r: seq<Booking>)
    ensures SortedBy(r, ByDateTime)
    ensures forall b :: multiset(r)[b] == (if date.None? || b.date == date.value then multiset(bookings)[b] else 0)
  {
    ByDateTimeOrder();
    var onDate := (b: Booking) => date.Some? && b.date == date.value;
    FilterCount(bookings, onDate);
    var kept := if date.Some? then Filter(bookings, onDate) else bookings;
    SortBy(kept, ByDateTime)
  }

  /** The list comes out in calendar order, and bookings of one date with valid
      times come out in clock order. */
  lemma BookingsOnOrder(bookings: seq<Booking>, date: Option<Date>)
    ensures var r := BookingsOn(bookings, date);
      forall i, j :: 0 <= i < j < |r| ==>
        && r[i].date <= r[j].date
        && (r[i].date == r[j].date && WellFormed(r[i].time) && WellFormed(r[j].time) ==>
              Minutes(r[i].time) <= Minutes(r[j].time))
  {
    var r := BookingsOn(bookings, date);
    forall i, j | 0 <= i < j < |r| && r[i].date == r[j].date && WellFormed(r[i].time) && WellFormed(r[j].time)
      ensures Minutes(r[i].time) <= Minutes(r[j].time)
    {
      assert !ByDateTime(r[j], r[i]);
      LessIsEarlier(r[j].time, r[i].time);
    }
  }
}
