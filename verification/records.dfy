/** The records the scheduling engine stores: slots, bookings, customers,
    services, booking line items and the weekly working-hours template. */
module Records {
  import opened Seqs
  import opened Clock

  /** Record identifiers, drawn from the store's fresh-id supply. */
  type Id = nat

  /** A calendar date as a day number; day 0 is 1970-01-01, a Thursday. */
  type Date = int

  /** An opaque wall-clock timestamp (`new Date().toISOString()`). */
  type Stamp = string

  /** `Date.prototype.getDay`: 0 is Sunday, 6 is Saturday. */
  function Weekday(d: Date): (w: nat)
    ensures w < 7
  {
    (d + 4) % 7
  }

  /** JavaScript truthiness of an optional string: present and not empty. */
  predicate Truthy(s: Option<string>)
  {
    s.Some? && s.value != ""
  }

  /** `s || fallback` on an optional string. */
  function OrElse(s: Option<string>, fallback: string): string
  {
    if Truthy(s) then s.value else fallback
  }

  const Sunday: nat := 0
  const Monday: nat := 1

  datatype SlotStatus = Available | Blocked | Booked

  datatype Slot = Slot(
    id: Id,
    date: Date,
    time: Time,
    status: SlotStatus,
    bookingId: Option<Id>,
    blockedReason: Option<string>,
    createdAt: Stamp,
    updatedAt: Stamp)

  datatype BookingStatus = Pending | Confirmed | Cancelled | Completed | NoShow

  datatype Booking = Booking(
    id: Id,
    customerId: Id,
    date: Date,
    time: Time,
    status: BookingStatus,
    totalPrice: int,
    totalDuration: int,
    notes: string,
    createdAt: Stamp,
    updatedAt: Stamp)

  /** A line item: one service of a booking with its price at booking time. */
  datatype BookingService = BookingService(
    id: Id,
    bookingId: Id,
    serviceId: Id,
    price: int,
    createdAt: Stamp)

  datatype Service = Service(id: Id, name: string, price: int, durationMinutes: int)

  datatype Customer = Customer(
    id: Id,
    name: string,
    phone: string,
    email: Option<string>,
    createdAt: Stamp,
    updatedAt: Stamp)

  /** What a booking request says about its customer. */
  datatype CustomerInfo = CustomerInfo(name: string, phone: string, email: Option<string>)

  /** The argument of `createBooking`. */
  datatype BookingRequest = BookingRequest(
    customer: CustomerInfo,
    date: Date,
    time: Time,
    services: seq<Id>,
    notes: Option<string>)

  /** One weekday of the working-hours template; every time field is optional. */
  datatype WorkingHours = WorkingHours(
    id: Id,
    dayOfWeek: int,
    isOpen: bool,
    openTime: Option<string>,
    closeTime: Option<string>,
    breakStart: Option<string>,
    breakEnd: Option<string>,
    slotDuration: Option<int>,
    createdAt: Stamp,
    updatedAt: Stamp)

  /** The single open/close/break/duration set the generator works from. */
  datatype DefaultSchedule = DefaultSchedule(
    openTime: string,
    closeTime: string,
    slotDuration: int,
    breakStart: Option<string>,
    breakEnd: Option<string>)
}
