# Scheduling engine of the therapy-centre `LocalDatabase`

This project models the slot-and-booking engine of the `LocalDatabase` class in
`src/lib/localDatabase.ts`, a browser-side store for a therapy centre. It keeps
appointment slots, bookings, customers, a service catalogue and the weekly
working hours. The model covers the following operations:

- generating the slot grid for a range of dates from the default schedule;
- finding, listing, patching, blocking and purging slots;
- finding or creating a customer by phone;
- creating a booking and changing its status;
- listing bookings by date and time;
- reading and saving the default schedule.

Layout:

- `seqs.dfy` (`Seqs`): generic `find`, `findIndex`, `filter` and an insertion sort,
  with their laws.
- `clock.dfy` (`Clock`): zero-padded `"HH:MM"` texts. It covers JavaScript's
  string order on them, formatting, parsing and minutes since midnight.
- `records.dfy` (`Records`): the stored records and the weekday of a date.
- `slots.dfy` (`SlotStore`): the slot collection and the pure slot operations.
- `generator.dfy` (`Generator`): what `generateSlots` computes, as functions
  over the slot collection.
- `schedule.dfy` (`Schedule`): `getDefaultSchedule` and what `saveDefaultSchedule`
  computes.
- `bookings.dfy` (`Bookings`): customers, service selection and totals, the slot
  side effects of bookings, and the booking listing.
- `database.dfy` (`Database`): the store itself, as the class `LocalDatabase`.
  - Its collections are fields.
  - Each mutating operation is a method with the source's loops. Each is proved
    to leave the fields as the matching pure function describes.
  - Each method also keeps the store invariant `Valid`: one slot per date and
    time, unique slot ids, one customer per phone, and an id supply ahead of
    every id handed out.

Modelling choices:

- Dates are day numbers, with day 0 = 1970-01-01, a Thursday. The weekday is
  `(d + 4) % 7`, where 0 is Sunday.
- Times are the strings the source stores, compared character by character in
  the order of Unicode scalar values (code points).
- `generateId` is a counter `nextId` that the store advances wherever the source
  calls it.
- Wall-clock timestamps are an opaque `now` argument.

## Model

| member | source | states |
|---|---|---|
| Clock.LessIsEarlier | src/lib/localDatabase.ts:477-478 | on valid "HH:MM" times the string comparison the break test uses is exactly the order of minutes since midnight, both directions |
| Clock.ParseFormat | src/lib/localDatabase.ts:475 | the zero-padded text of an hour below 24 and a minute below 60 is a valid time that parses back to that hour and minute |
| Clock.FormatParse | src/lib/localDatabase.ts:465-466 | parsing a valid time with `split(':').map(Number)` and padding it again gives the same text |
| Clock.TimeAtInjective | src/lib/localDatabase.ts:475 | two minute totals give the same text only when they are equal |
| Clock.TimeAtOfMinutes | src/lib/localDatabase.ts:465-475 | every valid time is the text of its own minute total |
| Clock.ClockBefore | src/lib/localDatabase.ts:471-474 | the loop test on hour and minute is the strict order of minute totals when minutes are below 60 |
| Clock.LessTotal | src/lib/localDatabase.ts:335-339 | the string order used by the sorts relates any two different strings one way or the other |
| Seqs.FindIndexSpec | src/lib/localDatabase.ts:243 | a search returns the first match and returns nothing exactly when nothing matches |
| Seqs.FilterCount | src/lib/localDatabase.ts:507 | a filter keeps every satisfying element exactly as often as it occurs and drops the rest |
| Seqs.FilterConcat | src/lib/localDatabase.ts:507 | a filter distributes over concatenation, so kept elements stay in their original order |
| Seqs.SortBy | src/lib/localDatabase.ts:335-339 | the sort returns a permutation of its input ordered by the comparator |
| SlotStore.FindSlot | src/lib/localDatabase.ts:374-377 | a slot found is stored and sits at the requested date and time |
| SlotStore.FindSlotSpec | src/lib/localDatabase.ts:374-377 | `findSlot` returns nothing exactly when no slot sits at the pair; with unique pairs it returns the slot there |
| SlotStore.SlotIndexSpec | src/lib/localDatabase.ts:392 | the index lookup finds the first slot at the pair, and nothing only when there is none |
| SlotStore.PatchSlot | src/lib/localDatabase.ts:379-386 | `updateSlot`: the patch never adds or removes a slot |
| SlotStore.PatchSlotEffect | src/lib/localDatabase.ts:379-386 | with unique ids, patching slot j's id changes only slot j's status, booking link and `updated_at` |
| SlotStore.PatchSlotUnknown | src/lib/localDatabase.ts:381-382 | an id no slot carries changes nothing |
| SlotStore.PatchSlotKeeps | src/lib/localDatabase.ts:379-386 | a patch never moves a slot or changes its id or creation time, so unique pairs and ids stay unique |
| SlotStore.AllSlots | src/lib/localDatabase.ts:368-372 | `getAllSlots` is ordered by time and holds each slot of the date exactly as often as it is stored, and no other slot |
| SlotStore.AvailableSlots | src/lib/localDatabase.ts:362-366 | `getAvailableSlots` is ordered by time and holds exactly the available slots of the date |
| SlotStore.ListingMembers | src/lib/localDatabase.ts:362-372 | a slot is listed exactly when it is stored on the date (and, for the available listing, is available) |
| SlotStore.ListingStrict | src/lib/localDatabase.ts:362-372 | with unique pairs both listings of a date are in strictly increasing time order, so the comparator never meets a tie |
| SlotStore.ListingClockOrder | src/lib/localDatabase.ts:365 | a listing of valid times comes out in clock order |
| SlotStore.KeepBooked | src/lib/localDatabase.ts:505-509 | `deleteAllSlots` keeps each booked slot exactly as often as it was stored and nothing else |
| SlotStore.KeepBookedOrder | src/lib/localDatabase.ts:507 | the purge keeps booked slots in their original order |
| SlotStore.KeepBookedAllBooked | src/lib/localDatabase.ts:507 | a collection of booked slots is left as it is |
| SlotStore.KeepBookedIdempotent | src/lib/localDatabase.ts:505-509 | purging twice is purging once |
| SlotStore.KeepBookedUnique | src/lib/localDatabase.ts:505-509 | the purge keeps pairs and ids unique |
| SlotStore.KeepBookedLinks | src/lib/localDatabase.ts:505-509 | the purge keeps every slot's booking link present exactly when the slot is booked |
| SlotStore.BlockAll | src/lib/localDatabase.ts:388-411 | `saveBlockedSlots`: at most one slot is appended per given time, one id is drawn per appended slot, and every existing slot keeps its id and pair |
| SlotStore.BlockOneEffect | src/lib/localDatabase.ts:390-408 | one `forEach` step blocks the slot at the pair in place or appends one with a fresh id, and pairs stay unique |
| SlotStore.BlockAllEffect | src/lib/localDatabase.ts:388-411 | existing slots at a given time are blocked in place with their id and `created_at`; other slots are untouched; new slots get fresh ids; every time ends up with a slot; pairs stay unique |
| SlotStore.BlockedAt | src/lib/localDatabase.ts:393-401 | the slot found at each given time afterwards is blocked with the reason and has no booking link |
| SlotStore.BlockAllLinks | src/lib/localDatabase.ts:388-411 | with unique pairs, blocking keeps every slot's booking link present exactly when the slot is booked: blocked slots lose their link |
| SlotStore.FreshIds | src/lib/localDatabase.ts:118-120 | kept ids plus ids counted up from the supply are unique and below the advanced supply |
| Generator.InBreakWindow | src/lib/localDatabase.ts:477-478 | with valid break times, the break test on a time is the half-open window `[break_start, break_end)` in minutes |
| Generator.OnGridStep | src/lib/localDatabase.ts:494-497 | the grid from a minute before closing is that minute followed by the grid from the next step |
| Generator.WalkMembers | src/lib/localDatabase.ts:471-498 | one day's inner loop visits exactly the valid times on the grid from the opening time, before closing, outside the break |
| Generator.RangeMembers | src/lib/localDatabase.ts:460-500 | the whole run visits exactly the emitted times of the dates in the range that are not Sundays |
| Generator.AddSlotEffect | src/lib/localDatabase.ts:480-491 | one loop body adds nothing when the pair already has a slot, keeps pairs unique, and leaves the pair with a slot |
| Generator.AddAllEffect | src/lib/localDatabase.ts:480-491 | a run of loop bodies keeps existing slots, appends available unlinked slots with consecutive fresh ids at visited pairs, keeps pairs unique and covers every visited pair |
| Generator.AddAllIdempotent | src/lib/localDatabase.ts:481-482 | repeating the same pairs adds nothing and returns the same supply, whatever the second run's timestamp |
| Generator.Generate | src/lib/localDatabase.ts:454-503 | `generateSlots`: existing slots are kept as a prefix and one id is drawn per appended slot |
| Generator.GenerateEffect | src/lib/localDatabase.ts:454-503 | existing slots, blocked and booked ones included, stay as they were; each new slot is available and unlinked, with a fresh id, on a non-Sunday date of the range at an emitted time; pairs stay unique; every emitted time of every such date has a slot afterwards |
| Generator.GenerateIdempotent | src/lib/localDatabase.ts:454-503 | generating twice over the same range gives the store and supply of generating once, even when the second run has a different timestamp |
| Generator.GenerateLinks | src/lib/localDatabase.ts:480-491 | generating keeps every slot's booking link present exactly when the slot is booked, since new slots are available and unlinked |
| Schedule.DayIndexSpec | src/lib/localDatabase.ts:430 | the weekday lookup finds the first entry of the day, and nothing only when there is none |
| Schedule.DefaultScheduleOf | src/lib/localDatabase.ts:413-424 | the schedule read always has non-empty times and a non-zero duration; without a Monday entry it is 08:00, 18:00, 30 minutes with no break |
| Schedule.SaveDays | src/lib/localDatabase.ts:429-449 | the save loop over days 0..n-1 appends at most one entry per day and draws one id per appended entry |
| Schedule.SaveDaysShape | src/lib/localDatabase.ts:429-449 | the save loop only appends, keeps each existing entry's id and weekday, and gives appended entries fresh ids |
| Schedule.SaveDaysKeeps | src/lib/localDatabase.ts:443-448 | entries that are not the first entry of a saved weekday are untouched |
| Schedule.SaveWeekResult | src/lib/localDatabase.ts:426-452 | after saving, every weekday 0..6 has its first entry carrying the given times, break and duration, closed on Sunday and open otherwise; an existing entry keeps its place, id and `created_at`, a missing one gets a fresh id |
| Schedule.ScheduleRoundTrip | src/lib/localDatabase.ts:413-452 | reading the default schedule back after saving one gives what was saved, up to the `\|\|` fallbacks |
| Bookings.FindOrCreate | src/lib/localDatabase.ts:241-256 | `findOrCreateCustomer`: the customer returned is stored and has the phone; at most one customer is appended, drawing one id, and the others are kept |
| Bookings.FindOrCreateEffect | src/lib/localDatabase.ts:241-256 | a known phone returns the first customer with it and changes nothing; an unknown phone appends a new customer with a fresh id; phones stay unique |
| Bookings.FindOrCreateStable | src/lib/localDatabase.ts:241-256 | a second call with the same phone, under any name, returns the same customer and changes nothing |
| Bookings.Selected | src/lib/localDatabase.ts:265-267 | the selection is no longer than the catalogue and holds only requested services |
| Bookings.SelectedMembers | src/lib/localDatabase.ts:265-267 | a service is selected exactly when it is stored and its id is requested, as often as it is stored |
| Bookings.SelectedSameIds | src/lib/localDatabase.ts:265-267 | unknown and repeated ids in the request change nothing |
| Bookings.SelectedAppend | src/lib/localDatabase.ts:265-271 | a catalogue entry adds its price and duration to the totals exactly when the request names it |
| Bookings.SelectedNothing | src/lib/localDatabase.ts:265-271 | a request naming no stored service gives zero totals |
| Bookings.KeepAllRequested | src/lib/localDatabase.ts:265-267 | a request naming every stored service selects them all, in catalogue order |
| Bookings.TotalsConcat | src/lib/localDatabase.ts:270-271 | the price and duration sums add up over concatenation |
| Bookings.TotalsExample | src/lib/localDatabase.ts:265-271 | a worked example: two stored services and one unknown id total 200 and 105 minutes |
| Bookings.LineItemsTotal | src/lib/localDatabase.ts:291-300 | the line items belong to the booking, name the selected services in order, and their prices sum to the booking's total price |
| Bookings.ReserveSlot | src/lib/localDatabase.ts:302-305 | `createBooking`'s slot step never adds, removes, moves or renames a slot |
| Bookings.ReserveSlotEffect | src/lib/localDatabase.ts:302-305 | the slot at the booking's date and time becomes booked by it whatever its status was, and nothing else changes; with no slot there nothing changes |
| Bookings.ReserveSlotLinks | src/lib/localDatabase.ts:302-305 | with unique pairs and ids, reserving a slot keeps every booking link present exactly when its slot is booked |
| Bookings.DoubleBooking | src/lib/localDatabase.ts:302-305 | a slot already booked by one booking is taken over by the next booking for the same date and time |
| Bookings.ReleaseSlot | src/lib/localDatabase.ts:350-355 | `updateBookingStatus`'s slot step never adds, removes, moves or renames a slot |
| Bookings.ReleaseSlotEffect | src/lib/localDatabase.ts:350-355 | with unique ids the first slot linked to the booking becomes available and unlinked, and nothing else changes |
| Bookings.ReleaseSlotLinks | src/lib/localDatabase.ts:350-355 | with unique ids, releasing a slot keeps every booking link present exactly when its slot is booked |
| Bookings.UpdateStatus | src/lib/localDatabase.ts:342-360 | `updateBookingStatus` keeps the number of bookings and slots; nothing returned means nothing changed; a returned booking is stored, has the id and the new status |
| Bookings.UpdateStatusEffect | src/lib/localDatabase.ts:342-360 | an unknown id returns nothing and changes nothing; otherwise the first booking with the id takes the status and is returned; slots change only for `completed` and `no_show` |
| Bookings.UpdateStatusLinks | src/lib/localDatabase.ts:342-360 | with unique slot ids, a status update keeps every booking link present exactly when its slot is booked |
| Bookings.BookingsOn | src/lib/localDatabase.ts:310-340 | the listing holds exactly the bookings of the date (all of them without a date), each as often as stored, ordered by date and then time |
| Bookings.BookingsOnOrder | src/lib/localDatabase.ts:335-339 | the listing is in calendar order, and bookings of one date with valid times are in clock order |
| Database.LocalDatabase.UpdateSlot | src/lib/localDatabase.ts:379-386 | the slots become the patch of the old slots; no other field changes; the invariant holds |
| Database.LocalDatabase.FindOrCreateCustomer | src/lib/localDatabase.ts:241-256 | the customers, the customer returned and the id supply are those of the find-or-create function; nothing else changes |
| Database.LocalDatabase.CreateBooking | src/lib/localDatabase.ts:258-308 | the customer is found or created; one confirmed booking with the selected services' totals is appended; line items with fresh ids are returned but not stored; the slot at the date and time is reserved; the invariant holds |
| Database.LocalDatabase.UpdateBookingStatus | src/lib/localDatabase.ts:342-360 | the result, bookings and slots are those of the status-update function; nothing else changes |
| Database.LocalDatabase.SaveBlockedSlots | src/lib/localDatabase.ts:388-411 | the `forEach` loop leaves the slots and supply of blocking the times in order; the invariant holds |
| Database.LocalDatabase.SaveDefaultSchedule | src/lib/localDatabase.ts:426-452 | the day loop leaves the working hours and supply of saving days 0..6 in turn; the invariant holds |
| Database.LocalDatabase.GenerateSlots | src/lib/localDatabase.ts:454-503 | the slots and supply become those of the generator over the default schedule; the invariant holds |
| Database.LocalDatabase.DeleteAllSlots | src/lib/localDatabase.ts:505-509 | the slots become the booked ones; the invariant holds |
| Database.GenerateDates | src/lib/localDatabase.ts:460-500 | the date loop, Sundays skipped, computes the generator's result |
| Database.GenerateDay | src/lib/localDatabase.ts:465-499 | one date's pass, from the opening and closing times split into hours and minutes, adds exactly the pairs of that day's walk from the opening time |
| Database.GenerateFrom | src/lib/localDatabase.ts:468-499 | the inner loop, with its hour and minute carry, adds exactly the pairs of the walk from its starting minute total up to closing |
| Database.GenerateTime | src/lib/localDatabase.ts:475-497 | one loop body: nothing inside the break, otherwise a slot unless one is there; the minute total then grows by exactly the slot duration, and what is left to add is the walk from the next step |
| Database.Advance | src/lib/localDatabase.ts:494-497 | after the carry the minute is below 60 and the minute total has grown by exactly the slot duration |
| Database.GeneratorStep | src/lib/localDatabase.ts:475-497 | one pass of the inner loop is one step through the remaining pairs |
| Database.GeneratedValid | src/lib/localDatabase.ts:454-503 | generating keeps pairs and ids unique and ids below the advanced supply |
| Database.BookingStored | src/lib/localDatabase.ts:287-289 | storing a booking with an id from the supply keeps the store invariant |
| Database.BlockedIds | src/lib/localDatabase.ts:388-411 | blocking keeps ids unique and below the supply |
| Database.KeptIds | src/lib/localDatabase.ts:505-509 | the purge keeps ids below the supply |

## Left out

- Storage: `getItem`/`setItem` read and write JSON in `localStorage`. Each collection is a field of the class instead, and the (de)serialisation is not modelled.
- `generateId` uses the clock and `Math.random`. Here it is a counter, so ids are fresh by construction. The uniqueness of random ids is not modelled.
- Timestamps from `new Date().toISOString()` are an opaque `now` argument, one value per call.
- JavaScript `Date` arithmetic is left out: `new Date(string)`, `setDate`, `getDay` in local time and `toISOString` in UTC. Dates are day numbers with a fixed weekday rule, and time zones are not modelled. This matters: `new Date("YYYY-MM-DD")` is UTC midnight, so where the local offset is negative `getDay` reads the previous day's weekday while `dateStr` keeps the UTC date. There the source skips the dates that are Mondays and generates slots on the dates that are Sundays. The model's "no slot on a Sunday" holds for UTC and for positive offsets only.
- `split(':').map(Number)` is modelled only on well-formed `"HH:MM"` times: two digits, a colon, two digits, an hour below 24. `GenerateSlots` requires such opening and closing times and a positive slot duration. The source also walks texts the model excludes, such as `"8:00"`, `"08:00:00"` or `"24:00"`. A part that does not parse becomes `NaN` (or `undefined` when the colon is missing), with effects that depend on where it sits. An opening or closing hour that does not parse makes the loop test fail at once, so no slots are added. An opening minute that does not parse, with the opening hour before the closing hour, keeps the minute `NaN`, so the hour never advances and the loop runs forever. A closing minute that does not parse ends the loop when the hour reaches the closing hour, so that date gets its slots up to the last step before that hour. A zero duration never reaches the loop, because the `|| 30` fallback of `getDefaultSchedule` turns it into 30. A negative duration also makes the loop run forever.
- `localeCompare` and the `<` of the break test are modelled as code-point order (Unicode scalar values). JavaScript's `<` compares UTF-16 code units, which differs from code-point order only for characters above U+FFFF. Locale order agrees with both on zero-padded `"HH:MM"` texts, where the colon always sits at the same place. It can differ on unpadded texts such as `"1:30"` against `"10:00"`, since collation may put the colon before the digits. Booking dates are compared as day numbers.
- Seqs.SortBy: JavaScript's sort is modelled as an insertion sort whose contract states that the result is ordered by the comparator and is a permutation of the input. It does not state stability, the order `Array.prototype.sort` keeps among equal keys. For the slot listings this does not matter when pairs are unique, since `SlotStore.ListingStrict` shows that no two listed slots tie.
- Prices and durations are integers. Floating-point sums are not modelled.
- `updateSlot` is modelled with the one update shape its callers pass: a status and a booking link. A general `Partial<Slot>` merge is not modelled.
- `getBookings` is modelled as the date filter and the date-then-time sort. Attaching customers and line items is a lookup join, and it is not modelled.
- `createBooking` returns its line items but does not store them in `bookingServices`, as the source does. The source stores a copy of the customer inside each booking (`customer` is in the record before it is written), while `booking_services` is attached only after the write. The model's `Booking` holds the customer id and leaves out both embedded objects.
- Seed data: `initializeData` (lines 122-196) fills empty collections with a salon, a service catalogue and a working-hours template of one entry per weekday: 08:00 to 18:00, a 12:00 to 13:00 break, 30-minute slots, open every day but Sunday. The model's constructor takes the services as an argument and starts with no working hours, so until a week is saved the schedule read is the 08:00 to 18:00 fallback with no break, where the seeded source would read the template with its break.
- Not part of this model: the salon, service create/update/delete, and the review functions. None of them touches slots, bookings or the schedule.
