/** The slot collection: lookup by (date, time), the per-date listings,
    the in-place patch by id, blocking, and the purge that keeps booked slots. */
module SlotStore {
  import opened Seqs
  import opened Clock
  import opened Records

  /** The slot sits at `(date, time)`. */
  predicate At(s: Slot, date: Date, time: Time)
  {
    s.date == date && s.time == time
  }

  predicate KeysDiffer(a: Slot, b: Slot)
  {
    !At(b, a.date, a.time)
  }

  predicate IdsDiffer(a: Slot, b: Slot)
  {
    a.id != b.id
  }

  /** No two slots share a `(date, time)` pair. */
  predicate KeysUnique(slots: seq<Slot>)
  {
    forall i, j :: 0 <= i < j < |slots| ==> KeysDiffer(slots[i], slots[j])
  }

  /** No two slots share an id. */
  predicate IdsUnique(slots: seq<Slot>)
  {
    forall i, j :: 0 <= i < j < |slots| ==> IdsDiffer(slots[i], slots[j])
  }

  /** A slot carries a booking link exactly when it is booked. */
  predicate Linked(s: Slot)
  {
    s.bookingId.Some? <==> s.status == Booked
  }

  /** Every slot of the collection keeps status and booking link in step. */
  predicate LinkIffBooked(slots: seq<Slot>)
  {
    forall j :: 0 <= j < |slots| ==> Linked(slots[j])
  }

  /** Every slot id was handed out before the supply reached `next`. */
  predicate IdsBelow(slots: seq<Slot>, next: Id)
  {
    forall j :: 0 <= j < |slots| ==> slots[j].id < next
  }

  /** Slots that keep their ids, followed by slots numbered upward from the fresh
      id `next`, have unique ids, all below the advanced supply. */
  lemma FreshIds(slots: seq<Slot>, next: Id, r: seq<Slot>)
    requires IdsUnique(slots) && IdsBelow(slots, next)
    requires |slots| <= |r|
    requires forall j :: 0 <= j < |slots| ==> r[j].id == slots[j].id
    requires forall j :: |slots| <= j < |r| ==> r[j].id == next + (j - |slots|)
    ensures IdsUnique(r) && IdsBelow(r, next + (|r| - |slots|))
  {
    forall a, b | 0 <= a < b < |r| ensures IdsDiffer(r[a], r[b]) {
      if b < |slots| {
        assert IdsDiffer(slots[a], slots[b]);
      }
    }
  }

  /** `slots.findIndex(s => s.date === date && s.time_slot === time)`, written
      out on the pair (the generator and the blocking loop call it once per step,
      and a first-order search keeps those proofs small). */
  function SlotIndex(slots: seq<Slot>, date: Date, time: Time): (r: Option<nat>)
    ensures r.Some? ==> r.value < |slots| && At(slots[r.value], date, time)
  {
    SlotIndexFrom(slots, date, time, 0)
  }

  /** The search from position `i` on. */
  function SlotIndexFrom(slots: seq<Slot>, date: Date, time: Time, i: nat): (r: Option<nat>)
    ensures r.Some? ==> i <= r.value < |slots| && At(slots[r.value], date, time)
    decreases |slots| - i
  {
    if i >= |slots| then None
    else if At(slots[i], date, time) then Some(i)
    else SlotIndexFrom(slots, date, time, i + 1)
  }

  /** The search from `i` finds the first slot at the pair at or after `i`, and
      nothing only when there is none. */
  lemma {:induction false} SlotIndexFromSpec(slots: seq<Slot>, date: Date, time: Time, i: nat)
    ensures SlotIndexFrom(slots, date, time, i).None? <==>
      forall j :: i <= j < |slots| ==> !At(slots[j], date, time)
    ensures SlotIndexFrom(slots, date, time, i).Some? ==>
      forall j :: i <= j < SlotIndexFrom(slots, date, time, i).value ==> !At(slots[j], date, time)
    decreases |slots| - i
  {
    if i < |slots| && !At(slots[i], date, time) {
      SlotIndexFromSpec(slots, date, time, i + 1);
    }
  }

  /** `SlotIndex` finds the first slot at the pair, and nothing only when there is none. */
  lemma SlotIndexSpec(slots: seq<Slot>, date: Date, time: Time)
    ensures SlotIndex(slots, date, time).None? <==>
      forall j :: 0 <= j < |slots| ==> !At(slots[j], date, time)
    ensures SlotIndex(slots, date, time).Some? ==>
      forall j :: 0 <= j < SlotIndex(slots, date, time).value ==> !At(slots[j], date, time)
  {
    SlotIndexFromSpec(slots, date, time, 0);
  }

  /** When keys are unique, the slot at a pair is the one `SlotIndex` finds. */
  lemma SlotIndexUnique(slots: seq<Slot>, j: nat)
    requires KeysUnique(slots) && j < |slots|
    ensures SlotIndex(slots, slots[j].date, slots[j].time) == Some(j)
  {
    SlotIndexSpec(slots, slots[j].date, slots[j].time);
  }

  /** `findSlot`: the first slot at `(date, time)`, or nothing. */
  function FindSlot(slots: seq<Slot>, date: Date, time: Time): (r: Option<Slot>)
    ensures r.Some? ==> r.value in slots && At(r.value, date, time)
  {
    match SlotIndex(slots, date, time)
    case None => None
    case Some(i) => Some(slots[i])
  }

  /** `findSlot` finds nothing exactly when no slot sits at the pair, and with
      unique keys what it finds is the one slot there. */
  lemma FindSlotSpec(slots: seq<Slot>, date: Date, time: Time)
    ensures FindSlot(slots, date, time).None? <==> forall s :: s in slots ==> !At(s, date, time)
    ensures KeysUnique(slots) ==>
      forall j :: 0 <= j < |slots| && At(slots[j], date, time) ==> FindSlot(slots, date, time) == Some(slots[j])
  {
    SlotIndexSpec(slots, date, time);
    if KeysUnique(slots) {
      forall j | 0 <= j < |slots| && At(slots[j], date, time)
        ensures FindSlot(slots, date, time) == Some(slots[j])
      {
        SlotIndexUnique(slots, j);
      }
    }
  }

  /** `slots.findIndex(s => s.id === id)` */
  function IdIndex(slots: seq<Slot>, id: Id): (r: Option<nat>)
    ensures r.Some? ==> r.value < |slots| && slots[r.value].id == id
  {
    FindIndex(slots, (s: Slot) => s.id == id)
  }

  /** `updateSlot(id, { status, booking_id })`: the first slot with the id takes the
      new status and booking link and a new `updated_at`; an unknown id changes nothing. */
  function PatchSlot(slots: seq<Slot>, id: Id, status: SlotStatus, bookingId: Option<Id>, now: Stamp)
    : (r: seq<Slot>)
    ensures |r| == |slots|
  {
    match IdIndex(slots, id)
    case None => slots
    case Some(i) => slots[i := slots[i].(status := status, bookingId := bookingId, updatedAt := now)]
  }

  /** With unique ids, patching the id of slot `j` changes slot `j` and nothing else;
      its id, pair, block reason and creation time stay. */
  lemma PatchSlotEffect(slots: seq<Slot>, j: nat, status: SlotStatus, bookingId: Option<Id>, now: Stamp)
    requires IdsUnique(slots) && j < |slots|
    ensures PatchSlot(slots, slots[j].id, status, bookingId, now)
      == slots[j := slots[j].(status := status, bookingId := bookingId, updatedAt := now)]
  {
    FindIndexSpec(slots, (s: Slot) => s.id == slots[j].id);
  }

  /** Patching an id no slot has leaves the collection as it was. */
  lemma PatchSlotUnknown(slots: seq<Slot>, id: Id, status: SlotStatus, bookingId: Option<Id>, now: Stamp)
    requires forall s :: s in slots ==> s.id != id
    ensures PatchSlot(slots, id, status, bookingId, now) == slots
  {
  }

  /** A patch never moves a slot, renames it or changes its creation time, so
      unique keys and unique ids stay unique. */
  lemma PatchSlotKeeps(slots: seq<Slot>, id: Id, status: SlotStatus, bookingId: Option<Id>, now: Stamp)
    ensures var r := PatchSlot(slots, id, status, bookingId, now);
      && (forall j :: 0 <= j < |r| ==>
            At(r[j], slots[j].date, slots[j].time) && r[j].id == slots[j].id && r[j].createdAt == slots[j].createdAt)
      && (KeysUnique(slots) ==> KeysUnique(r))
      && (IdsUnique(slots) ==> IdsUnique(r))
  {
    SameKeys(slots, PatchSlot(slots, id, status, bookingId, now));
  }

  /** The comparator `(a, b) => a.time_slot.localeCompare(b.time_slot)` as "sorts strictly ahead". */
  predicate ByTime(a: Slot, b: Slot)
  {
    Less(a.time, b.time)
  }

  lemma ByTimeOrder()
    ensures StrictOrder(ByTime)
  {
    forall a: Slot ensures !ByTime(a, a) {
      LessIrreflexive(a.time);
    }
    forall a: Slot, b: Slot, c: Slot | ByTime(a, b) && ByTime(b, c) ensures ByTime(a, c) {
      LessTransitive(a.time, b.time, c.time);
    }
  }

  /** `getAllSlots`: the slots of `date`, each as often as it is stored, ordered by time. */
  function AllSlots(slots: seq<Slot>, date: Date): (r: seq<Slot>)
    ensures SortedBy(r, ByTime)
    ensures forall s :: multiset(r)[s] == if s.date == date then multiset(slots)[s] else 0
  {
    var onDate := (s: Slot) => s.date == date;
    ByTimeOrder();
    FilterCount(slots, onDate);
    SortBy(Filter(slots, onDate), ByTime)
  }

  /** `getAvailableSlots`: the available slots of `date`, ordered by time. */
  function AvailableSlots(slots: seq<Slot>, date: Date): (r: seq<Slot>)
    ensures SortedBy(r, ByTime)
    ensures forall s :: multiset(r)[s] == (if s.date == date && s.status == Available then multiset(slots)[s] else 0)
  {
    var open := (s: Slot) => s.date == date && s.status == Available;
    ByTimeOrder();
    FilterCount(slots, open);
    SortBy(Filter(slots, open), ByTime)
  }

  /** Membership in the listings, both directions. */
  lemma ListingMembers(slots: seq<Slot>, date: Date, s: Slot)
    ensures s in AllSlots(slots, date) <==> s in slots && s.date == date
    ensures s in AvailableSlots(slots, date) <==> s in slots && s.date == date && s.status == Available
  {
    assert s in AllSlots(slots, date) <==> multiset(AllSlots(slots, date))[s] > 0;
    assert s in AvailableSlots(slots, date) <==> multiset(AvailableSlots(slots, date))[s] > 0;
    assert s in slots <==> multiset(slots)[s] > 0;
  }

  /** A listing of well-formed times comes out in clock order. */
  lemma {:induction false} ListingClockOrder(r: seq<Slot>)
    requires SortedBy(r, ByTime)
    requires forall j :: 0 <= j < |r| ==> WellFormed(r[j].time)
    ensures forall i, j :: 0 <= i < j < |r| ==>
      WellFormed(r[i].time) && WellFormed(r[j].time) && Minutes(r[i].time) <= Minutes(r[j].time)
  {
    forall i, j | 0 <= i < j < |r| ensures Minutes(r[i].time) <= Minutes(r[j].time) {
      assert !ByTime(r[j], r[i]);
      LessIsEarlier(r[j].time, r[i].time);
    }
  }

  /** With unique pairs a slot is stored at most once. */
  lemma {:induction false} StoredOnce(slots: seq<Slot>, s: Slot)
    requires KeysUnique(slots)
    ensures multiset(slots)[s] <= 1
    decreases |slots|
  {
    if |slots| > 0 {
      assert slots == [slots[0]] + slots[1..];
      assert KeysUnique(slots[1..]) by {
        forall i, j | 0 <= i < j < |slots[1..]| ensures KeysDiffer(slots[1..][i], slots[1..][j]) {
          assert KeysDiffer(slots[i + 1], slots[j + 1]);
        }
      }
      StoredOnce(slots[1..], s);
      if s == slots[0] {
        forall k | 0 <= k < |slots[1..]| ensures slots[1..][k] != s {
          assert KeysDiffer(slots[0], slots[k + 1]);
        }
        assert s !in slots[1..];
      }
    }
  }

  /** An element at two positions is counted at least twice. */
  lemma CountedTwice(r: seq<Slot>, i: nat, j: nat)
    requires i < j < |r| && r[i] == r[j]
    ensures multiset(r)[r[i]] >= 2
  {
    assert r == r[..j] + r[j..];
    assert r[i] == r[..j][i] && r[j] == r[j..][0];
  }

  /** Two positions of a listing drawn from a collection with unique pairs hold
      different times. */
  lemma ListedTimesDiffer(slots: seq<Slot>, date: Date, r: seq<Slot>, i: nat, j: nat)
    requires KeysUnique(slots)
    requires forall s :: multiset(r)[s] <= (if s.date == date then multiset(slots)[s] else 0)
    requires i < j < |r|
    ensures r[i].time != r[j].time
  {
    assert r[i] in multiset(r) && r[j] in multiset(r);
    if r[i] == r[j] {
      CountedTwice(r, i, j);
      StoredOnce(slots, r[i]);
      assert false;
    }
    assert r[i] in multiset(slots) && r[j] in multiset(slots);
    var a :| 0 <= a < |slots| && slots[a] == r[i];
    var b :| 0 <= b < |slots| && slots[b] == r[j];
    if a < b {
      assert KeysDiffer(slots[a], slots[b]);
    } else {
      assert KeysDiffer(slots[b], slots[a]);
    }
  }

  /** A listing sorted by time and drawn from a collection with unique pairs is in
      strictly increasing string order of time. */
  lemma SortedListingStrict(slots: seq<Slot>, date: Date, r: seq<Slot>)
    requires KeysUnique(slots) && SortedBy(r, ByTime)
    requires forall s :: multiset(r)[s] <= (if s.date == date then multiset(slots)[s] else 0)
    ensures forall i, j :: 0 <= i < j < |r| ==> Less(r[i].time, r[j].time)
  {
    forall i, j | 0 <= i < j < |r| ensures Less(r[i].time, r[j].time) {
      assert !ByTime(r[j], r[i]);
      ListedTimesDiffer(slots, date, r, i, j);
      LessTotal(r[i].time, r[j].time);
    }
  }

  /** With unique pairs both listings of a date come out in strictly increasing
      string order of time: the comparator never sees a tie. */
  lemma ListingStrict(slots: seq<Slot>, date: Date)
    requires KeysUnique(slots)
    ensures var r := AllSlots(slots, date); forall i, j :: 0 <= i < j < |r| ==> Less(r[i].time, r[j].time)
    ensures var r := AvailableSlots(slots, date); forall i, j :: 0 <= i < j < |r| ==> Less(r[i].time, r[j].time)
  {
    SortedListingStrict(slots, date, AllSlots(slots, date));
    SortedListingStrict(slots, date, AvailableSlots(slots, date));
  }

  /** `deleteAllSlots`: keep only the booked slots. */
  function KeepBooked(slots: seq<Slot>): (r: seq<Slot>)
    ensures forall j :: 0 <= j < |r| ==> r[j].status == Booked
    ensures forall s :: multiset(r)[s] == if s.status == Booked then multiset(slots)[s] else 0
  {
    var booked := (s: Slot) => s.status == Booked;
    FilterCount(slots, booked);
    Filter(slots, booked)
  }

  /** The purge keeps the booked slots in their original order: it distributes over
      concatenation and leaves an all-booked collection as it is. */
  lemma KeepBookedOrder(a: seq<Slot>, b: seq<Slot>)
    ensures KeepBooked(a + b) == KeepBooked(a) + KeepBooked(b)
  {
    FilterConcat(a, b, (s: Slot) => s.status == Booked);
  }

  lemma KeepBookedAllBooked(slots: seq<Slot>)
    requires forall j :: 0 <= j < |slots| ==> slots[j].status == Booked
    ensures KeepBooked(slots) == slots
  {
    FilterKeepsAll(slots, (s: Slot) => s.status == Booked);
  }

  /** Purging twice is purging once. */
  lemma KeepBookedIdempotent(slots: seq<Slot>)
    ensures KeepBooked(KeepBooked(slots)) == KeepBooked(slots)
  {
    KeepBookedAllBooked(KeepBooked(slots));
  }

  /** The purge keeps status and booking link in step: what it keeps was in the
      collection before. */
  lemma KeepBookedLinks(slots: seq<Slot>)
    requires LinkIffBooked(slots)
    ensures LinkIffBooked(KeepBooked(slots))
  {
    var r := KeepBooked(slots);
    forall j | 0 <= j < |r| ensures Linked(r[j]) {
      assert r[j] in multiset(r);
      assert r[j] in multiset(slots);
      var i :| 0 <= i < |slots| && slots[i] == r[j];
    }
  }

  /** The purge keeps keys and ids unique. */
  lemma KeepBookedUnique(slots: seq<Slot>)
    ensures KeysUnique(slots) ==> KeysUnique(KeepBooked(slots))
    ensures IdsUnique(slots) ==> IdsUnique(KeepBooked(slots))
  {
    if KeysUnique(slots) {
      assert Pairwise(slots, KeysDiffer);
      FilterPairwise(slots, (s: Slot) => s.status == Booked, KeysDiffer);
    }
    if IdsUnique(slots) {
      assert Pairwise(slots, IdsDiffer);
      FilterPairwise(slots, (s: Slot) => s.status == Booked, IdsDiffer);
    }
  }

  /** A slot as `saveBlockedSlots` rewrites it: blocked with the reason, without a
      booking link, keeping its id, pair and creation time. */
  function Block(s: Slot, reason: string, now: Stamp): Slot
  {
    s.(status := Blocked, bookingId := None, blockedReason := Some(reason), updatedAt := now)
  }

  /** One `forEach` step of `saveBlockedSlots`: overwrite the first slot at
      `(date, time)`, keeping its id and creation time, or append a new blocked
      slot with a fresh id. */
  function BlockOne(slots: seq<Slot>, next: Id, date: Date, time: Time, reason: string, now: Stamp)
    : (seq<Slot>, Id)
  {
    match SlotIndex(slots, date, time)
    case Some(i) =>
      (slots[i := Slot(slots[i].id, date, time, Blocked, None, Some(reason), slots[i].createdAt, now)], next)
    case None =>
      (slots + [Slot(next, date, time, Blocked, None, Some(reason), now, now)], next + 1)
  }

  /** `saveBlockedSlots(date, times, reason)`: the times blocked in order. */
  function BlockAll(slots: seq<Slot>, next: Id, date: Date, times: seq<Time>, reason: string, now: Stamp)
    : (r: (seq<Slot>, Id))
    ensures |slots| <= |r.0| <= |slots| + |times|
    ensures r.1 == next + (|r.0| - |slots|)
    ensures forall j :: 0 <= j < |slots| ==> r.0[j].id == slots[j].id && At(r.0[j], slots[j].date, slots[j].time)
    decreases |times|
  {
    if |times| == 0 then (slots, next)
    else
      var w := BlockOne(slots, next, date, times[0], reason, now);
      BlockAll(w.0, w.1, date, times[1..], reason, now)
  }

  /** What blocking leaves at an existing position: blocked if its pair is one of
      the blocked times of `date`, untouched otherwise. */
  function BlockIf(s: Slot, date: Date, times: seq<Time>, reason: string, now: Stamp): Slot
  {
    if s.date == date && s.time in times then Block(s, reason, now) else s
  }

  /** The outcome of blocking `times` on `date` from `slots`: existing slots
      rewritten by `BlockIf`, appended slots blocked with consecutive fresh ids at
      one of the times. */
  ghost predicate Blocks(slots: seq<Slot>, next: Id, r: seq<Slot>, rnext: Id,
                         date: Date, times: seq<Time>, reason: string, now: Stamp)
  {
    && |slots| <= |r| && rnext == next + (|r| - |slots|)
    && (forall j :: 0 <= j < |slots| ==> r[j] == BlockIf(slots[j], date, times, reason, now))
    && (forall j :: |slots| <= j < |r| ==>
          r[j] == Slot(next + (j - |slots|), date, r[j].time, Blocked, None, Some(reason), now, now)
          && r[j].time in times)
  }

  /** One step, on a collection with unique keys. */
  lemma BlockOneEffect(slots: seq<Slot>, next: Id, date: Date, time: Time, reason: string, now: Stamp)
    requires KeysUnique(slots)
    ensures var w := BlockOne(slots, next, date, time, reason, now);
      && Blocks(slots, next, w.0, w.1, date, [time], reason, now)
      && KeysUnique(w.0)
      && SlotIndex(w.0, date, time).Some?
  {
    var w := BlockOne(slots, next, date, time, reason, now);
    SlotIndexSpec(slots, date, time);
    if SlotIndex(slots, date, time).Some? {
      BlockOneReplaces(slots, next, date, time, reason, now, SlotIndex(slots, date, time).value);
    } else {
      assert At(w.0[|slots|], date, time);
      SlotIndexSpec(w.0, date, time);
    }
  }

  /** The step that finds a slot at the pair rewrites that slot alone. */
  lemma BlockOneReplaces(slots: seq<Slot>, next: Id, date: Date, time: Time, reason: string, now: Stamp, i: nat)
    requires KeysUnique(slots) && SlotIndex(slots, date, time) == Some(i)
    ensures var w := BlockOne(slots, next, date, time, reason, now);
      && Blocks(slots, next, w.0, w.1, date, [time], reason, now)
      && KeysUnique(w.0)
      && SlotIndex(w.0, date, time).Some?
  {
    var w := BlockOne(slots, next, date, time, reason, now);
    forall j | 0 <= j < |slots| ensures w.0[j] == BlockIf(slots[j], date, [time], reason, now) {
      if j < i {
        assert KeysDiffer(slots[j], slots[i]);
      } else if i < j {
        assert KeysDiffer(slots[i], slots[j]);
      }
    }
    SameKeys(slots, w.0);
    assert At(w.0[i], date, time);
    SlotIndexSpec(w.0, date, time);
  }

  /** Rewriting slots in place without changing their pairs or ids keeps both unique. */
  lemma SameKeys(slots: seq<Slot>, r: seq<Slot>)
    requires |r| == |slots|
    requires forall j :: 0 <= j < |r| ==> At(r[j], slots[j].date, slots[j].time)
    ensures KeysUnique(slots) ==> KeysUnique(r)
    ensures (forall j :: 0 <= j < |r| ==> r[j].id == slots[j].id) && IdsUnique(slots) ==> IdsUnique(r)
  {
    if KeysUnique(slots) {
      forall a, b | 0 <= a < b < |r| ensures KeysDiffer(r[a], r[b]) {
        assert KeysDiffer(slots[a], slots[b]);
      }
    }
    if (forall j :: 0 <= j < |r| ==> r[j].id == slots[j].id) && IdsUnique(slots) {
      forall a, b | 0 <= a < b < |r| ensures IdsDiffer(r[a], r[b]) {
        assert IdsDiffer(slots[a], slots[b]);
      }
    }
  }

  /** Blocking twice, the second time for more times, composes into one `Blocks`. */
  lemma BlocksCompose(slots: seq<Slot>, next: Id, w: seq<Slot>, wnext: Id, r: seq<Slot>, rnext: Id,
                      date: Date, time: Time, times: seq<Time>, reason: string, now: Stamp)
    requires Blocks(slots, next, w, wnext, date, [time], reason, now)
    requires Blocks(w, wnext, r, rnext, date, times, reason, now)
    ensures Blocks(slots, next, r, rnext, date, [time] + times, reason, now)
  {
    forall j | 0 <= j < |slots| ensures r[j] == BlockIf(slots[j], date, [time] + times, reason, now) {
      assert r[j] == BlockIf(w[j], date, times, reason, now);
    }
    forall j | |slots| <= j < |w| ensures r[j] == w[j] {
      assert r[j] == BlockIf(w[j], date, times, reason, now);
    }
  }

  /** `saveBlockedSlots` on a collection with unique keys: existing slots at one of
      the times are blocked in place with their id and creation time, every other
      slot is untouched, appended slots carry fresh ids, keys stay unique, and every
      given time ends up with exactly one slot, blocked with the reason. */
  lemma {:induction false} BlockAllEffect(slots: seq<Slot>, next: Id, date: Date, times: seq<Time>,
                                          reason: string, now: Stamp)
    requires KeysUnique(slots)
    ensures var r := BlockAll(slots, next, date, times, reason, now);
      && Blocks(slots, next, r.0, r.1, date, times, reason, now)
      && KeysUnique(r.0)
      && (forall t :: t in times ==> SlotIndex(r.0, date, t).Some?)
    decreases |times|
  {
    var r := BlockAll(slots, next, date, times, reason, now);
    if |times| == 0 {
      assert Blocks(slots, next, r.0, r.1, date, times, reason, now);
    } else {
      var w := BlockOne(slots, next, date, times[0], reason, now);
      BlockOneEffect(slots, next, date, times[0], reason, now);
      BlockAllEffect(w.0, w.1, date, times[1..], reason, now);
      assert [times[0]] + times[1..] == times;
      BlocksCompose(slots, next, w.0, w.1, r.0, r.1, date, times[0], times[1..], reason, now);
      var i := SlotIndex(w.0, date, times[0]).value;
      assert At(r.0[i], date, times[0]);
      SlotIndexSpec(r.0, date, times[0]);
    }
  }

  /** After blocking, the slot found at each given time is blocked with the reason
      and has no booking. */
  lemma BlockedAt(slots: seq<Slot>, next: Id, date: Date, times: seq<Time>, reason: string, now: Stamp, t: Time)
    requires KeysUnique(slots) && t in times
    ensures var s := FindSlot(BlockAll(slots, next, date, times, reason, now).0, date, t);
      s.Some? && s.value.status == Blocked && s.value.blockedReason == Some(reason) && s.value.bookingId == None
  {
    var r := BlockAll(slots, next, date, times, reason, now);
    BlockAllEffect(slots, next, date, times, reason, now);
    var i := SlotIndex(r.0, date, t).value;
    if i < |slots| {
      assert r.0[i] == BlockIf(slots[i], date, times, reason, now);
    }
  }

  /** Blocking keeps status and booking link in step: blocked slots lose their link. */
  lemma BlockAllLinks(slots: seq<Slot>, next: Id, date: Date, times: seq<Time>, reason: string, now: Stamp)
    requires KeysUnique(slots) && LinkIffBooked(slots)
    ensures LinkIffBooked(BlockAll(slots, next, date, times, reason, now).0)
  {
    var r := BlockAll(slots, next, date, times, reason, now);
    BlockAllEffect(slots, next, date, times, reason, now);
    forall j | 0 <= j < |r.0| ensures Linked(r.0[j]) {
      if j < |slots| {
        assert r.0[j] == BlockIf(slots[j], date, times, reason, now);
      }
    }
  }
}
