/** The slot-grid generator: for every date of a range except Sundays, the
    times from the opening time in steps of the slot duration, strictly before
    the closing time and outside the break, each added as an available slot
    unless a slot already sits at that date and time. */
module Generator {
  import opened Seqs
  import opened Clock
  import opened Records
  import opened SlotStore

  /** What the generator needs of a schedule: open and close times that parse as
      "HH:MM", and a positive step (with a step of zero or less the loop never ends). */
  predicate Generable(s: DefaultSchedule)
  {
    WellFormed(s.openTime) && WellFormed(s.closeTime) && s.slotDuration > 0
  }

  /** `isDuringBreak`: both break ends set, and `breakStart <= t < breakEnd` as strings. */
  predicate InBreak(s: DefaultSchedule, t: Time)
  {
    Truthy(s.breakStart) && Truthy(s.breakEnd) && !Less(t, s.breakStart.value) && Less(t, s.breakEnd.value)
  }

  /** For a break given as valid times, the string test is the half-open window in minutes. */
  lemma InBreakWindow(s: DefaultSchedule, m: nat)
    requires m < 24 * 60
    requires s.breakStart.Some? && WellFormed(s.breakStart.value)
    requires s.breakEnd.Some? && WellFormed(s.breakEnd.value)
    ensures InBreak(s, TimeAt(m)) <==> Minutes(s.breakStart.value) <= m < Minutes(s.breakEnd.value)
  {
    TimeAtMinutes(m);
    LessIsEarlier(TimeAt(m), s.breakStart.value);
    LessIsEarlier(TimeAt(m), s.breakEnd.value);
  }

  type Key = (Date, Time)

  /** The `k`-th point of a walk that starts at `start` and steps by `step`. */
  function GridPoint(start: nat, step: nat, k: nat): (p: nat)
    ensures p >= start
  {
    if k == 0 then start else GridPoint(start, step, k - 1) + step
  }

  /** The `k + 1`-th point from `start` is the `k`-th point from the next step. */
  lemma {:induction false} GridPointShift(start: nat, step: nat, k: nat)
    ensures GridPoint(start + step, step, k) == GridPoint(start, step, k + 1)
  {
    if k > 0 {
      GridPointShift(start, step, k - 1);
    }
  }

  /** The pairs one day's inner loop visits from minute `cur`, break times dropped. */
  function Walk(s: DefaultSchedule, date: Date, cur: nat, close: nat): seq<Key>
    requires s.slotDuration > 0 && close <= 24 * 60
    decreases close - cur
  {
    if cur >= close then []
    else (if InBreak(s, TimeAt(cur)) then [] else [(date, TimeAt(cur))]) + Walk(s, date, cur + s.slotDuration, close)
  }

  /** The first step of a walk that has not reached `close`. */
  lemma WalkFirst(s: DefaultSchedule, date: Date, cur: nat, close: nat)
    requires s.slotDuration > 0 && cur < close <= 24 * 60
    ensures var t := TimeAt(cur);
      Walk(s, date, cur, close) == (if InBreak(s, t) then [] else [(date, t)]) + Walk(s, date, cur + s.slotDuration, close)
  {
  }

  /** A walk that has reached `close` visits nothing more. */
  lemma WalkDone(s: DefaultSchedule, date: Date, cur: nat, close: nat, rest: seq<Key>)
    requires s.slotDuration > 0 && close <= cur && close <= 24 * 60
    ensures Walk(s, date, cur, close) + rest == rest
  {
    assert Walk(s, date, cur, close) == [];
  }

  /** The pairs visited for one date: none on a Sunday. */
  function DayKeys(s: DefaultSchedule, date: Date): seq<Key>
    requires Generable(s)
  {
    if Weekday(date) == Sunday then [] else Walk(s, date, Minutes(s.openTime), Minutes(s.closeTime))
  }

  /** The pairs visited for the dates `start` .. `end`, in visiting order. */
  function RangeKeys(s: DefaultSchedule, start: Date, end: Date): seq<Key>
    requires Generable(s)
    decreases end - start + 1
  {
    if start > end then [] else DayKeys(s, start) + RangeKeys(s, start + 1, end)
  }

  /** The minute `m` is one of the grid points from `cur`, in steps of `step`, before `close`. */
  ghost predicate OnGrid(step: nat, cur: nat, close: nat, m: nat)
  {
    m < close && exists k: nat :: GridPoint(cur, step, k) == m
  }

  /** The times a schedule emits: valid times on the grid from opening, before
      closing, outside the break. */
  ghost predicate Emitted(s: DefaultSchedule, t: Time)
    requires Generable(s)
  {
    WellFormed(t) && OnGrid(s.slotDuration, Minutes(s.openTime), Minutes(s.closeTime), Minutes(t)) && !InBreak(s, t)
  }

  /** The grid from `cur` is `cur` followed by the grid from the next step. */
  lemma OnGridStep(step: nat, cur: nat, close: nat, m: nat)
    requires cur < close
    ensures OnGrid(step, cur, close, m) <==> m == cur || OnGrid(step, cur + step, close, m)
  {
    if OnGrid(step, cur + step, close, m) {
      var k: nat :| GridPoint(cur + step, step, k) == m;
      GridPointShift(cur, step, k);
    }
    if m == cur {
      assert GridPoint(cur, step, 0) == cur;
    }
    if OnGrid(step, cur, close, m) && m != cur {
      var k: nat :| GridPoint(cur, step, k) == m;
      assert k != 0;
      GridPointShift(cur, step, k - 1);
    }
  }

  /** No grid point lies at or beyond `close`. */
  lemma OnGridEmpty(step: nat, cur: nat, close: nat, m: nat)
    requires close <= cur
    ensures !OnGrid(step, cur, close, m)
  {
  }

  /** The pair a walk visits first, if any: the time at `cur` unless it is in the break. */
  lemma WalkHead(s: DefaultSchedule, date: Date, cur: nat, key: Key)
    requires cur < 24 * 60
    ensures var t := TimeAt(cur);
      key in (if InBreak(s, t) then [] else [(date, t)]) <==>
      key.0 == date && WellFormed(key.1) && Minutes(key.1) == cur && !InBreak(s, key.1)
  {
    TimeAtMinutes(cur);
    if WellFormed(key.1) {
      TimeAtOfMinutes(key.1);
    }
  }

  /** One step of `WalkMembers`: what holds of the walk from the next step holds
      of the walk from `cur`. */
  lemma WalkMembersStep(s: DefaultSchedule, date: Date, cur: nat, close: nat, key: Key)
    requires s.slotDuration > 0 && cur < close <= 24 * 60
    requires key in Walk(s, date, cur + s.slotDuration, close) <==>
      key.0 == date && WellFormed(key.1) && OnGrid(s.slotDuration, cur + s.slotDuration, close, Minutes(key.1)) && !InBreak(s, key.1)
    ensures key in Walk(s, date, cur, close) <==>
      key.0 == date && WellFormed(key.1) && OnGrid(s.slotDuration, cur, close, Minutes(key.1)) && !InBreak(s, key.1)
  {
    var step := s.slotDuration;
    var onGrid := WellFormed(key.1) && OnGrid(step, cur, close, Minutes(key.1));
    var here := WellFormed(key.1) && Minutes(key.1) == cur;
    var later := WellFormed(key.1) && OnGrid(step, cur + step, close, Minutes(key.1));
    if WellFormed(key.1) {
      OnGridStep(step, cur, close, Minutes(key.1));
    }
    assert onGrid <==> here || later;
    var t := TimeAt(cur);
    var head := if InBreak(s, t) then [] else [(date, t)];
    var tail := Walk(s, date, cur + step, close);
    var kept := key.0 == date && WellFormed(key.1) && !InBreak(s, key.1);
    WalkFirst(s, date, cur, close);
    assert Walk(s, date, cur, close) == head + tail;
    WalkHead(s, date, cur, key);
    assert key in head + tail <==> key in head || key in tail;
  }

  /** A walk visits exactly the valid times on the grid from `cur` before `close`
      outside the break. */
  lemma {:induction false} WalkMembers(s: DefaultSchedule, date: Date, cur: nat, close: nat, key: Key)
    requires s.slotDuration > 0 && close <= 24 * 60
    ensures key in Walk(s, date, cur, close) <==>
      key.0 == date && WellFormed(key.1) && OnGrid(s.slotDuration, cur, close, Minutes(key.1)) && !InBreak(s, key.1)
    decreases close - cur
  {
    if cur < close {
      WalkMembers(s, date, cur + s.slotDuration, close, key);
      WalkMembersStep(s, date, cur, close, key);
    } else if WellFormed(key.1) {
      OnGridEmpty(s.slotDuration, cur, close, Minutes(key.1));
    }
  }

  /** The pairs visited over a range: exactly the emitted times of the dates in
      the range that are not Sundays. */
  lemma {:induction false} RangeMembers(s: DefaultSchedule, start: Date, end: Date, key: Key)
    requires Generable(s)
    ensures key in RangeKeys(s, start, end) <==>
      start <= key.0 <= end && Weekday(key.0) != Sunday && Emitted(s, key.1)
    decreases end - start + 1
  {
    if start <= end {
      RangeMembers(s, start + 1, end, key);
      if Weekday(start) != Sunday {
        WalkMembers(s, start, Minutes(s.openTime), Minutes(s.closeTime), key);
      }
    }
  }

  /** One pass of the loop body: add an available slot at the pair unless one is there. */
  function AddSlot(slots: seq<Slot>, next: Id, key: Key, now: Stamp): (seq<Slot>, Id)
  {
    if FindSlot(slots, key.0, key.1).Some? then (slots, next)
    else (slots + [Slot(next, key.0, key.1, Available, None, None, now, now)], next + 1)
  }

  /** The loop bodies for `keys`, in order. */
  function AddAll(slots: seq<Slot>, next: Id, keys: seq<Key>, now: Stamp): (seq<Slot>, Id)
    decreases |keys|
  {
    if |keys| == 0 then (slots, next)
    else
      var w := AddSlot(slots, next, keys[0], now);
      AddAll(w.0, w.1, keys[1..], now)
  }

  /** Adding a first pair and then the rest. */
  lemma AddAllCons(slots: seq<Slot>, next: Id, key: Key, keys: seq<Key>, now: Stamp)
    ensures var w := AddSlot(slots, next, key, now);
      AddAll(slots, next, [key] + keys, now) == AddAll(w.0, w.1, keys, now)
  {
    assert ([key] + keys)[1..] == keys;
  }

  /** `generateSlots(start, end)` with the schedule `s`. */
  function Generate(slots: seq<Slot>, next: Id, s: DefaultSchedule, start: Date, end: Date, now: Stamp)
    : (r: (seq<Slot>, Id))
    requires Generable(s)
    ensures |slots| <= |r.0| && r.0[..|slots|] == slots
    ensures r.1 == next + (|r.0| - |slots|)
  {
    AddAllEffect(slots, next, RangeKeys(s, start, end), now);
    AddAll(slots, next, RangeKeys(s, start, end), now)
  }

  /** The outcome of adding `keys`: existing slots untouched, appended slots
      available, unlinked, with consecutive fresh ids, at one of the pairs. */
  ghost predicate Adds(slots: seq<Slot>, next: Id, r: seq<Slot>, rnext: Id, keys: seq<Key>, now: Stamp)
  {
    && |slots| <= |r| && r[..|slots|] == slots && rnext == next + (|r| - |slots|)
    && (forall j :: |slots| <= j < |r| ==>
          r[j] == Slot(next + (j - |slots|), r[j].date, r[j].time, Available, None, None, now, now)
          && (r[j].date, r[j].time) in keys)
  }

  /** Every pair of `keys` has a slot. */
  ghost predicate Covers(slots: seq<Slot>, keys: seq<Key>)
  {
    forall key :: key in keys ==> SlotIndex(slots, key.0, key.1).Some?
  }

  /** Appending keeps the slots already found. */
  lemma CoversExtend(slots: seq<Slot>, r: seq<Slot>, keys: seq<Key>)
    requires |slots| <= |r| && r[..|slots|] == slots
    requires Covers(slots, keys)
    ensures Covers(r, keys)
  {
    forall key | key in keys ensures SlotIndex(r, key.0, key.1).Some? {
      var i := SlotIndex(slots, key.0, key.1).value;
      assert r[i] == slots[i];
      SlotIndexSpec(r, key.0, key.1);
    }
  }

  /** One loop body: it adds nothing when the pair is taken, keeps keys unique,
      and leaves the pair with a slot. */
  lemma AddSlotEffect(slots: seq<Slot>, next: Id, key: Key, now: Stamp)
    ensures var w := AddSlot(slots, next, key, now);
      && Adds(slots, next, w.0, w.1, [key], now)
      && (KeysUnique(slots) ==> KeysUnique(w.0))
      && Covers(w.0, [key])
  {
    var w := AddSlot(slots, next, key, now);
    SlotIndexSpec(slots, key.0, key.1);
    if w.0 != slots {
      assert At(w.0[|slots|], key.0, key.1);
      assert w.0[..|slots|] == slots;
      SlotIndexSpec(w.0, key.0, key.1);
      if KeysUnique(slots) {
        forall a, b | 0 <= a < b < |w.0| ensures KeysDiffer(w.0[a], w.0[b]) {
          if b < |slots| {
            assert KeysDiffer(slots[a], slots[b]);
          }
        }
      }
    }
  }

  /** Adding one pair and then more composes into one `Adds`. */
  lemma AddsCompose(slots: seq<Slot>, next: Id, w: seq<Slot>, wnext: Id, r: seq<Slot>, rnext: Id,
                    key: Key, keys: seq<Key>, now: Stamp)
    requires Adds(slots, next, w, wnext, [key], now)
    requires Adds(w, wnext, r, rnext, keys, now)
    ensures Adds(slots, next, r, rnext, [key] + keys, now)
  {
    assert r[..|slots|] == w[..|w|][..|slots|];
    forall j | |slots| <= j < |r| ensures (r[j].date, r[j].time) in [key] + keys {
      if j < |w| {
        assert r[j] == w[j];
      }
    }
  }

  /** Adding `keys`: existing slots stay as they were, appended ones are fresh and
      available at one of the pairs, keys stay unique, and every pair ends up with a slot. */
  lemma {:induction false} AddAllEffect(slots: seq<Slot>, next: Id, keys: seq<Key>, now: Stamp)
    ensures var r := AddAll(slots, next, keys, now);
      && Adds(slots, next, r.0, r.1, keys, now)
      && (KeysUnique(slots) ==> KeysUnique(r.0))
      && Covers(r.0, keys)
    decreases |keys|
  {
    var r := AddAll(slots, next, keys, now);
    if |keys| == 0 {
      assert r.0[..|slots|] == slots;
    } else {
      var w := AddSlot(slots, next, keys[0], now);
      AddSlotEffect(slots, next, keys[0], now);
      AddAllEffect(w.0, w.1, keys[1..], now);
      assert keys == [keys[0]] + keys[1..];
      AddsCompose(slots, next, w.0, w.1, r.0, r.1, keys[0], keys[1..], now);
      CoversExtend(w.0, r.0, [keys[0]]);
    }
  }

  /** When every pair already has a slot, adding them changes nothing. */
  lemma {:induction false} AddAllCovered(slots: seq<Slot>, next: Id, keys: seq<Key>, now: Stamp)
    requires Covers(slots, keys)
    ensures AddAll(slots, next, keys, now) == (slots, next)
    decreases |keys|
  {
    if |keys| > 0 {
      assert keys[0] in keys;
      assert forall key :: key in keys[1..] ==> key in keys;
      AddAllCovered(slots, next, keys[1..], now);
    }
  }

  /** Adding the same pairs a second time changes nothing, whatever the second
      run's timestamp. */
  lemma AddAllIdempotent(slots: seq<Slot>, next: Id, keys: seq<Key>, now: Stamp, later: Stamp)
    ensures var r := AddAll(slots, next, keys, now);
      AddAll(r.0, r.1, keys, later) == r
  {
    var r := AddAll(slots, next, keys, now);
    AddAllEffect(slots, next, keys, now);
    AddAllCovered(r.0, r.1, keys, later);
  }

  /** `generateSlots`: every slot already stored stays as it was (blocked and booked
      ones included); every new slot is available, unlinked, has a fresh id, falls on
      a date of the range that is not a Sunday, and sits at an emitted time; keys stay
      unique; afterwards every emitted time of every such date has a slot. */
  lemma GenerateEffect(slots: seq<Slot>, next: Id, s: DefaultSchedule, start: Date, end: Date, now: Stamp)
    requires Generable(s)
    ensures var r := Generate(slots, next, s, start, end, now);
      && |slots| <= |r.0| && r.0[..|slots|] == slots && r.1 == next + (|r.0| - |slots|)
      && (forall j :: |slots| <= j < |r.0| ==>
            && r.0[j].id == next + (j - |slots|)
            && r.0[j].status == Available && r.0[j].bookingId == None && r.0[j].blockedReason == None
            && start <= r.0[j].date <= end && Weekday(r.0[j].date) != Sunday && Emitted(s, r.0[j].time))
      && (KeysUnique(slots) ==> KeysUnique(r.0))
      && (forall d: Date, t: Time :: start <= d <= end && Weekday(d) != Sunday && Emitted(s, t) ==>
            FindSlot(r.0, d, t).Some?)
  {
    var keys := RangeKeys(s, start, end);
    var r := Generate(slots, next, s, start, end, now);
    AddAllEffect(slots, next, keys, now);
    forall j | |slots| <= j < |r.0|
      ensures start <= r.0[j].date <= end && Weekday(r.0[j].date) != Sunday && Emitted(s, r.0[j].time)
    {
      RangeMembers(s, start, end, (r.0[j].date, r.0[j].time));
    }
    forall d: Date, t: Time | start <= d <= end && Weekday(d) != Sunday && Emitted(s, t)
      ensures FindSlot(r.0, d, t).Some?
    {
      RangeMembers(s, start, end, (d, t));
    }
  }

  /** Generation keeps status and booking link in step: it only appends
      available slots without a link. */
  lemma GenerateLinks(slots: seq<Slot>, next: Id, s: DefaultSchedule, start: Date, end: Date, now: Stamp)
    requires Generable(s) && LinkIffBooked(slots)
    ensures LinkIffBooked(Generate(slots, next, s, start, end, now).0)
  {
    var r := Generate(slots, next, s, start, end, now);
    AddAllEffect(slots, next, RangeKeys(s, start, end), now);
    forall j | 0 <= j < |r.0| ensures Linked(r.0[j]) {
      if j < |slots| {
        assert r.0[j] == r.0[..|slots|][j] == slots[j];
      }
    }
  }

  /** Running the generator twice over the same range gives the store of running
      it once, even when the second run is stamped with a later time. */
  lemma GenerateIdempotent(slots: seq<Slot>, next: Id, s: DefaultSchedule, start: Date, end: Date,
                           now: Stamp, later: Stamp)
    requires Generable(s)
    ensures var r := Generate(slots, next, s, start, end, now);
      Generate(r.0, r.1, s, start, end, later) == r
  {
    AddAllIdempotent(slots, next, RangeKeys(s, start, end), now, later);
  }
}
