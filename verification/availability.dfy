/** The free/busy sweep behind the availability check
    (`calculateFreeTimeSlots` in calendar/service.go).

    Given a query window [ws, we] and the events fetched for it, the sweep
    orders the events by start, skips every event lying strictly outside the
    window, clips the others to the window, and walks left to right with a
    cursor: a free slot for each gap before a kept event, one busy slot per
    kept event (overlapping or abutting events are NOT merged), and a final
    free slot up to the window's end. An empty event list gives one free slot
    spanning the window.

    `sort.Slice` is not stable, so the relative order of events with equal
    starts is unspecified. The walk is therefore studied over ANY
    start-sorted ordering of the events (`Sweep`); `SortByStart` is one such
    ordering. Instants are already-parsed timestamps. */
module Availability {

  /** A point in time, in seconds. */
  type Instant = int

  /** An event as the sweep sees it. Nothing forces `start <= end`. */
  datatype Event = Event(start: Instant, end: Instant)

  /** An output slot; `free` tells a gap from an event. */
  datatype TimeSlot = TimeSlot(start: Instant, end: Instant, free: bool)

  function Max(a: int, b: int): int { if a < b then b else a }

  function Min(a: int, b: int): int { if a < b then a else b }

  /** The skip test: strictly before or strictly after the window. */
  predicate Skipped(e: Event, ws: Instant, we: Instant) {
    e.end < ws || e.start > we
  }

  /** The busy slot for a kept event: the event clipped to the window. */
  function Clip(e: Event, ws: Instant, we: Instant): TimeSlot {
    TimeSlot(Max(e.start, ws), Min(e.end, we), false)
  }

  /** The loop of the sweep, from cursor `cur` over the remaining events in
      processing order. */
  function Sweep(ws: Instant, we: Instant, cur: Instant, order: seq<Event>): seq<TimeSlot>
    decreases |order|
  {
    if |order| == 0 then
      if cur < we then [TimeSlot(cur, we, true)] else []
    else if Skipped(order[0], ws, we) then
      Sweep(ws, we, cur, order[1..])
    else
      var busy := Clip(order[0], ws, we);
      (if cur < busy.start then [TimeSlot(cur, busy.start, true)] else [])
      + [busy]
      + Sweep(ws, we, Max(cur, busy.end), order[1..])
  }

  // ---------------------------------------------------------------------
  // Sorting by start

  predicate IsStartSorted(order: seq<Event>) {
    forall i, j :: 0 <= i < j < |order| ==> order[i].start <= order[j].start
  }

  /** Putting an event that starts no later than everything in a sorted
      list in front keeps it sorted. */
  lemma SortedCons(h: Event, t: seq<Event>)
    requires IsStartSorted(t)
    requires forall x :: x in t ==> h.start <= x.start
    ensures IsStartSorted([h] + t)
  {
    forall i, j | 0 <= i < j < |[h] + t| ensures ([h] + t)[i].start <= ([h] + t)[j].start {
      if i > 0 {
        assert ([h] + t)[i] == t[i - 1];
      }
      assert ([h] + t)[j] == t[j - 1];
    }
  }

  /** Inserts `e` before the first element that does not start earlier. */
  function Insert(e: Event, sorted: seq<Event>): (r: seq<Event>)
    requires IsStartSorted(sorted)
    ensures IsStartSorted(r)
    ensures multiset(r) == multiset(sorted) + multiset{e}
  {
    if |sorted| == 0 then [e]
    else if e.start <= sorted[0].start then
      assert sorted == [sorted[0]] + sorted[1..];
      assert forall x :: x in sorted ==> e.start <= x.start;
      [e] + sorted
    else
      var rest := Insert(e, sorted[1..]);
      assert sorted == [sorted[0]] + sorted[1..];
      assert forall x :: x in rest ==> sorted[0].start <= x.start by {
        forall x | x in rest ensures sorted[0].start <= x.start {
          assert x in multiset(rest);
          if x != e {
            assert x in multiset(sorted[1..]);
          }
        }
      }
      SortedCons(sorted[0], rest);
      [sorted[0]] + rest
  }

  /** One admissible outcome of sorting the events by start (insertion
      sort, which keeps equal starts in input order). */
  function SortByStart(events: seq<Event>): (r: seq<Event>)
    ensures IsStartSorted(r)
    ensures multiset(r) == multiset(events)
  {
    if |events| == 0 then []
    else
      assert events == [events[0]] + events[1..];
      Insert(events[0], SortByStart(events[1..]))
  }

  /** The free/busy slots of the window [ws, we] for the given events. */
  function CalculateFreeTimeSlots(ws: Instant, we: Instant, events: seq<Event>): seq<TimeSlot> {
    if |events| == 0 then [TimeSlot(ws, we, true)]
    else Sweep(ws, we, ws, SortByStart(events))
  }

  /** The sweep as the source writes it: a loop that appends to a slot list
      and moves a cursor forward. */
  method CalculateFreeTimeSlotsLoop(ws: Instant, we: Instant, events: seq<Event>) returns (slots: seq<TimeSlot>)
    ensures slots == CalculateFreeTimeSlots(ws, we, events)
  {
    if |events| == 0 {
      return [TimeSlot(ws, we, true)];
    }
    var order := SortByStart(events);
    slots := [];
    var current := ws;
    for i := 0 to |order|
      invariant slots + Sweep(ws, we, current, order[i..]) == Sweep(ws, we, ws, order)
    {
      SweepUnfold(ws, we, current, order, i);
      var e := order[i];
      if e.end < ws || e.start > we {
        continue;
      }
      var eventStart, eventEnd := e.start, e.end;
      if eventStart < ws {
        eventStart := ws;
      }
      if eventEnd > we {
        eventEnd := we;
      }
      ghost var before, cur0 := slots, current;
      ghost var gap := if current < eventStart then [TimeSlot(current, eventStart, true)] else [];
      if current < eventStart {
        slots := slots + [TimeSlot(current, eventStart, true)];
      }
      slots := slots + [TimeSlot(eventStart, eventEnd, false)];
      if eventEnd > current {
        current := eventEnd;
      }
      assert TimeSlot(eventStart, eventEnd, false) == Clip(e, ws, we);
      assert current == Max(cur0, eventEnd);
      assert slots == before + (gap + [TimeSlot(eventStart, eventEnd, false)]);
      AppendAssoc(before, gap + [TimeSlot(eventStart, eventEnd, false)], Sweep(ws, we, current, order[i + 1..]));
    }
    assert order[|order|..] == [];
    if current < we {
      slots := slots + [TimeSlot(current, we, true)];
    }
  }

  lemma AppendAssoc<T>(a: seq<T>, b: seq<T>, c: seq<T>)
    ensures (a + b) + c == a + (b + c)
  {
  }

  /** One step of the walk, at position `i` of the processing order. */
  lemma SweepUnfold(ws: Instant, we: Instant, cur: Instant, order: seq<Event>, i: nat)
    requires i < |order|
    ensures Skipped(order[i], ws, we) ==> Sweep(ws, we, cur, order[i..]) == Sweep(ws, we, cur, order[i + 1..])
    ensures !Skipped(order[i], ws, we) ==>
      var busy := Clip(order[i], ws, we);
      Sweep(ws, we, cur, order[i..])
        == (if cur < busy.start then [TimeSlot(cur, busy.start, true)] else [])
           + [busy] + Sweep(ws, we, Max(cur, busy.end), order[i + 1..])
  {
    assert order[i..][0] == order[i] && order[i..][1..] == order[i + 1..];
  }

  // ---------------------------------------------------------------------
  // Properties of the walk, for every processing order

  predicate WithinWindow(s: TimeSlot, ws: Instant, we: Instant) {
    ws <= s.start <= we && ws <= s.end <= we
  }

  /** Starting from a cursor inside the window, every emitted slot has both
      endpoints inside the window, whatever the events (even ones ending
      before they start). */
  lemma {:induction false} SweepWithinWindow(ws: Instant, we: Instant, cur: Instant, order: seq<Event>)
    requires ws <= cur <= we
    ensures forall s :: s in Sweep(ws, we, cur, order) ==> WithinWindow(s, ws, we)
    decreases |order|
  {
    if |order| > 0 {
      if Skipped(order[0], ws, we) {
        SweepWithinWindow(ws, we, cur, order[1..]);
      } else {
        var busy := Clip(order[0], ws, we);
        SweepWithinWindow(ws, we, Max(cur, busy.end), order[1..]);
      }
    }
  }

  /** Every free slot is non-empty and starts at or after the cursor it was
      emitted from. */
  lemma {:induction false} SweepFreeSlotsNonEmpty(ws: Instant, we: Instant, cur: Instant, order: seq<Event>)
    ensures forall s :: s in Sweep(ws, we, cur, order) && s.free ==> cur <= s.start < s.end
    decreases |order|
  {
    if |order| > 0 {
      if Skipped(order[0], ws, we) {
        SweepFreeSlotsNonEmpty(ws, we, cur, order[1..]);
      } else {
        var busy := Clip(order[0], ws, we);
        SweepFreeSlotsNonEmpty(ws, we, Max(cur, busy.end), order[1..]);
      }
    }
  }

  /** Free slots appear in order of their starts. */
  predicate FreeStartsOrdered(slots: seq<TimeSlot>) {
    forall i, j :: 0 <= i < j < |slots| && slots[i].free && slots[j].free ==> slots[i].start <= slots[j].start
  }

  /** The cursor never moves back: free slots appear in the output in
      order of their starts, even when events end before they start. */
  lemma {:induction false} SweepFreeStartsOrdered(ws: Instant, we: Instant, cur: Instant, order: seq<Event>)
    ensures FreeStartsOrdered(Sweep(ws, we, cur, order))
    decreases |order|
  {
    var r := Sweep(ws, we, cur, order);
    SweepFreeSlotsNonEmpty(ws, we, cur, order);
    if |order| > 0 {
      if Skipped(order[0], ws, we) {
        assert r == Sweep(ws, we, cur, order[1..]);
        SweepFreeStartsOrdered(ws, we, cur, order[1..]);
      } else {
        var busy := Clip(order[0], ws, we);
        var gap := if cur < busy.start then [TimeSlot(cur, busy.start, true)] else [];
        var rest := Sweep(ws, we, Max(cur, busy.end), order[1..]);
        SweepFreeStartsOrdered(ws, we, Max(cur, busy.end), order[1..]);
        assert r == gap + [busy] + rest;
        var n := |gap| + 1;
        forall i, j | 0 <= i < j < |r| && r[i].free && r[j].free ensures r[i].start <= r[j].start {
          assert r[j] in r;
          assert cur <= r[j].start;
          if i < n {
            assert r[i] == (gap + [busy])[i];
            assert i < |gap|;
            assert r[i].start == cur;
          } else {
            assert r[i] == rest[i - n] && r[j] == rest[j - n];
          }
        }
      }
    }
  }

  predicate NoAdjacentFree(slots: seq<TimeSlot>) {
    forall i :: 0 <= i < |slots| - 1 ==> !(slots[i].free && slots[i + 1].free)
  }

  lemma NoAdjacentFreeAppend(a: seq<TimeSlot>, b: seq<TimeSlot>)
    requires NoAdjacentFree(a) && NoAdjacentFree(b)
    requires |a| > 0 && |b| > 0 ==> !(a[|a| - 1].free && b[0].free)
    ensures NoAdjacentFree(a + b)
  {
    forall i | 0 <= i < |a + b| - 1 ensures !((a + b)[i].free && (a + b)[i + 1].free) {
      if i + 1 < |a| {
        assert (a + b)[i] == a[i] && (a + b)[i + 1] == a[i + 1];
      } else if i + 1 == |a| {
        assert (a + b)[i] == a[i] && (a + b)[i + 1] == b[0];
      } else {
        assert (a + b)[i] == b[i - |a|] && (a + b)[i + 1] == b[i + 1 - |a|];
      }
    }
  }

  /** Two free slots are never next to each other: a gap is always
      followed by a busy slot or ends the output. */
  lemma {:induction false} SweepNoAdjacentFree(ws: Instant, we: Instant, cur: Instant, order: seq<Event>)
    ensures NoAdjacentFree(Sweep(ws, we, cur, order))
    decreases |order|
  {
    if |order| > 0 {
      if Skipped(order[0], ws, we) {
        SweepNoAdjacentFree(ws, we, cur, order[1..]);
      } else {
        var busy := Clip(order[0], ws, we);
        var gap := if cur < busy.start then [TimeSlot(cur, busy.start, true)] else [];
        SweepNoAdjacentFree(ws, we, Max(cur, busy.end), order[1..]);
        var rest := Sweep(ws, we, Max(cur, busy.end), order[1..]);
        NoAdjacentFreeAppend([busy], rest);
        NoAdjacentFreeAppend(gap, [busy] + rest);
        assert gap + [busy] + rest == gap + ([busy] + rest);
      }
    }
  }

  /** The busy slots of a slot list, in order. */
  function BusySlots(slots: seq<TimeSlot>): seq<TimeSlot> {
    if |slots| == 0 then []
    else (if slots[0].free then [] else [slots[0]]) + BusySlots(slots[1..])
  }

  lemma {:induction false} BusySlotsAppend(a: seq<TimeSlot>, b: seq<TimeSlot>)
    ensures BusySlots(a + b) == BusySlots(a) + BusySlots(b)
    decreases |a|
  {
    if |a| == 0 {
      assert a + b == b;
    } else {
      assert (a + b)[1..] == a[1..] + b;
      BusySlotsAppend(a[1..], b);
    }
  }

  /** The clipped kept events, in processing order: what one busy slot per
      kept event looks like. */
  function KeptClipped(ws: Instant, we: Instant, order: seq<Event>): seq<TimeSlot> {
    if |order| == 0 then []
    else (if Skipped(order[0], ws, we) then [] else [Clip(order[0], ws, we)]) + KeptClipped(ws, we, order[1..])
  }

  /** The busy slots are exactly the kept events clipped to the window, one
      each, in processing order: nothing is merged, nothing dropped. */
  lemma {:induction false} SweepBusySlots(ws: Instant, we: Instant, cur: Instant, order: seq<Event>)
    ensures BusySlots(Sweep(ws, we, cur, order)) == KeptClipped(ws, we, order)
    decreases |order|
  {
    if |order| > 0 {
      if Skipped(order[0], ws, we) {
        SweepBusySlots(ws, we, cur, order[1..]);
      } else {
        var busy := Clip(order[0], ws, we);
        var gap := if cur < busy.start then [TimeSlot(cur, busy.start, true)] else [];
        var rest := Sweep(ws, we, Max(cur, busy.end), order[1..]);
        SweepBusySlots(ws, we, Max(cur, busy.end), order[1..]);
        BusySlotsAppend(gap + [busy], rest);
        BusySlotsAppend(gap, [busy]);
        assert BusySlots([busy]) == [busy] by {
          assert [busy][1..] == [];
        }
        if gap != [] {
          assert BusySlots(gap) == [] by {
            assert gap[1..] == [];
          }
        }
      }
    } else {
      assert Sweep(ws, we, cur, order) == (if cur < we then [TimeSlot(cur, we, true)] else []);
      if cur < we {
        assert [TimeSlot(cur, we, true)][1..] == [];
      }
    }
  }

  /** Some slot of `slots` contains instant `t`. */
  ghost predicate Covered(slots: seq<TimeSlot>, t: Instant) {
    exists s :: s in slots && s.start <= t < s.end
  }

  /** Some free slot of `slots` contains instant `t`. */
  ghost predicate InFreeSlot(slots: seq<TimeSlot>, t: Instant) {
    exists s :: s in slots && s.free && s.start <= t < s.end
  }

  /** Some event contains instant `t` (events are half-open [start, end)). */
  ghost predicate Occupied(events: seq<Event>, t: Instant) {
    exists e :: e in events && e.start <= t < e.end
  }

  /** Every instant from the cursor up to the window's end lies in some
      emitted slot: the walk leaves no gaps, for any order and any events. */
  lemma {:induction false} SweepCovers(ws: Instant, we: Instant, cur: Instant, order: seq<Event>)
    ensures forall t :: cur <= t < we ==> Covered(Sweep(ws, we, cur, order), t)
    decreases |order|
  {
    var r := Sweep(ws, we, cur, order);
    if |order| == 0 {
      forall t | cur <= t < we ensures Covered(r, t) {
        assert TimeSlot(cur, we, true) in r;
      }
    } else if Skipped(order[0], ws, we) {
      SweepCovers(ws, we, cur, order[1..]);
    } else {
      var busy := Clip(order[0], ws, we);
      var next := Max(cur, busy.end);
      var gap := if cur < busy.start then [TimeSlot(cur, busy.start, true)] else [];
      var rest := Sweep(ws, we, next, order[1..]);
      assert r == gap + [busy] + rest;
      SweepCovers(ws, we, next, order[1..]);
      forall t | cur <= t < we ensures Covered(r, t) {
        if next <= t {
          assert Covered(rest, t);
          var s :| s in rest && s.start <= t < s.end;
          assert s in r;
        } else if t < busy.start {
          assert gap[0] in r;
        } else {
          assert busy in r;
        }
      }
    }
  }

  /** Half-open overlap of an event with a slot. */
  predicate Overlaps(e: Event, s: TimeSlot) {
    Max(e.start, s.start) < Min(e.end, s.end)
  }

  lemma SortedTail(order: seq<Event>)
    requires |order| > 0 && IsStartSorted(order)
    ensures IsStartSorted(order[1..])
    ensures forall e :: e in order[1..] ==> order[0].start <= e.start
  {
    forall e | e in order[1..] ensures order[0].start <= e.start {
      var j :| 0 <= j < |order[1..]| && order[1..][j] == e;
      assert order[j + 1] == e;
    }
  }

  /** With the events in start order, no free slot overlaps any of them:
      each gap ends where the next event begins and starts after everything
      processed so far has ended. */
  lemma {:induction false} SweepFreeAvoidsEvents(ws: Instant, we: Instant, cur: Instant, order: seq<Event>)
    requires ws <= cur <= we
    requires IsStartSorted(order)
    ensures forall s, e :: s in Sweep(ws, we, cur, order) && s.free && e in order ==> !Overlaps(e, s)
    decreases |order|
  {
    if |order| > 0 {
      var e0 := order[0];
      SortedTail(order);
      assert forall e :: e in order ==> e == e0 || e in order[1..] by {
        assert order == [e0] + order[1..];
      }
      if Skipped(e0, ws, we) {
        SweepFreeAvoidsEvents(ws, we, cur, order[1..]);
        SweepWithinWindow(ws, we, cur, order[1..]);
      } else {
        var busy := Clip(e0, ws, we);
        var next := Max(cur, busy.end);
        var gap := if cur < busy.start then [TimeSlot(cur, busy.start, true)] else [];
        var rest := Sweep(ws, we, next, order[1..]);
        assert Sweep(ws, we, cur, order) == gap + [busy] + rest;
        SweepFreeAvoidsEvents(ws, we, next, order[1..]);
        SweepWithinWindow(ws, we, next, order[1..]);
        SweepFreeSlotsNonEmpty(ws, we, next, order[1..]);
        if cur < busy.start {
          assert busy.start == e0.start;
        }
      }
    }
  }

  /** Each busy slot lies inside one of the events. */
  lemma {:induction false} SweepBusyInsideEvents(ws: Instant, we: Instant, cur: Instant, order: seq<Event>)
    ensures forall s :: s in Sweep(ws, we, cur, order) && !s.free ==>
      exists e :: e in order && e.start <= s.start && s.end <= e.end
    decreases |order|
  {
    if |order| > 0 {
      assert forall e :: e in order[1..] ==> e in order;
      if Skipped(order[0], ws, we) {
        SweepBusyInsideEvents(ws, we, cur, order[1..]);
      } else {
        SweepBusyInsideEvents(ws, we, Max(cur, Clip(order[0], ws, we).end), order[1..]);
      }
    }
  }

  /** The free/busy characterisation, for any start-sorted order: an
      instant lies in a free slot exactly when it is inside the window and
      no event contains it. */
  lemma SweepFreeIffUnoccupied(ws: Instant, we: Instant, order: seq<Event>, t: Instant)
    requires ws <= we
    requires IsStartSorted(order)
    ensures InFreeSlot(Sweep(ws, we, ws, order), t) <==> ws <= t < we && !Occupied(order, t)
  {
    var r := Sweep(ws, we, ws, order);
    SweepWithinWindow(ws, we, ws, order);
    SweepFreeAvoidsEvents(ws, we, ws, order);
    SweepBusyInsideEvents(ws, we, ws, order);
    SweepCovers(ws, we, ws, order);
    if InFreeSlot(r, t) {
      var s :| s in r && s.free && s.start <= t < s.end;
      if Occupied(order, t) {
        var e :| e in order && e.start <= t < e.end;
        assert Overlaps(e, s);
      }
    }
    if ws <= t < we && !Occupied(order, t) {
      assert Covered(r, t);
    }
  }

  // ---------------------------------------------------------------------
  // Properties of the whole computation

  /** Busy slots of the insertion of `e` are, as a multiset, those of the
      list plus the one `e` contributes. */
  lemma {:induction false} KeptClippedInsert(ws: Instant, we: Instant, e: Event, sorted: seq<Event>)
    requires IsStartSorted(sorted)
    ensures multiset(KeptClipped(ws, we, Insert(e, sorted)))
      == multiset(KeptClipped(ws, we, [e])) + multiset(KeptClipped(ws, we, sorted))
    decreases |sorted|
  {
    if |sorted| == 0 {
      assert Insert(e, sorted) == [e];
    } else if e.start <= sorted[0].start {
      KeptClippedCons(ws, we, e, sorted);
    } else {
      var rest := Insert(e, sorted[1..]);
      KeptClippedInsert(ws, we, e, sorted[1..]);
      KeptClippedCons(ws, we, sorted[0], rest);
      KeptClippedCons(ws, we, sorted[0], sorted[1..]);
      assert [sorted[0]] + sorted[1..] == sorted;
    }
  }

  lemma KeptClippedCons(ws: Instant, we: Instant, h: Event, t: seq<Event>)
    ensures KeptClipped(ws, we, [h] + t) == KeptClipped(ws, we, [h]) + KeptClipped(ws, we, t)
  {
    assert ([h] + t)[1..] == t;
    assert [h][1..] == [];
  }

  lemma {:induction false} KeptClippedSort(ws: Instant, we: Instant, events: seq<Event>)
    ensures multiset(KeptClipped(ws, we, SortByStart(events))) == multiset(KeptClipped(ws, we, events))
    decreases |events|
  {
    if |events| > 0 {
      KeptClippedSort(ws, we, events[1..]);
      KeptClippedInsert(ws, we, events[0], SortByStart(events[1..]));
      assert [events[0]][1..] == [];
    }
  }

  lemma {:induction false} KeptClippedAppend(ws: Instant, we: Instant, a: seq<Event>, b: seq<Event>)
    ensures KeptClipped(ws, we, a + b) == KeptClipped(ws, we, a) + KeptClipped(ws, we, b)
    decreases |a|
  {
    if |a| > 0 {
      KeptClippedAppend(ws, we, a[1..], b);
      assert a + b == [a[0]] + (a[1..] + b);
      assert a == [a[0]] + a[1..];
      KeptClippedCons(ws, we, a[0], a[1..] + b);
      KeptClippedCons(ws, we, a[0], a[1..]);
    } else {
      assert a + b == b;
    }
  }

  lemma RemoveAt<T>(s: seq<T>, k: nat)
    requires k < |s|
    ensures multiset(s) == multiset{s[k]} + multiset(s[..k] + s[k + 1..])
  {
    assert s == s[..k] + [s[k]] + s[k + 1..];
  }

  lemma MultisetCancel<T>(x: T, m1: multiset<T>, m2: multiset<T>)
    requires multiset{x} + m1 == multiset{x} + m2
    ensures m1 == m2
  {
    forall y ensures m1[y] == m2[y] {
      assert (multiset{x} + m1)[y] == (multiset{x} + m2)[y];
    }
  }

  /** Taking one event out of the list takes its contribution out of the
      clipped kept events. */
  lemma KeptClippedRemoveAt(ws: Instant, we: Instant, b: seq<Event>, k: nat)
    requires k < |b|
    ensures multiset(KeptClipped(ws, we, b))
      == multiset(KeptClipped(ws, we, [b[k]])) + multiset(KeptClipped(ws, we, b[..k] + b[k + 1..]))
  {
    assert b == b[..k] + ([b[k]] + b[k + 1..]);
    KeptClippedAppend(ws, we, b[..k], [b[k]] + b[k + 1..]);
    KeptClippedCons(ws, we, b[k], b[k + 1..]);
    KeptClippedAppend(ws, we, b[..k], b[k + 1..]);
  }

  /** Any permutation of the events keeps the multiset of clipped kept
      events, whichever order an unstable sort leaves them in. */
  lemma {:induction false} KeptClippedPermutation(ws: Instant, we: Instant, a: seq<Event>, b: seq<Event>)
    requires multiset(a) == multiset(b)
    ensures multiset(KeptClipped(ws, we, a)) == multiset(KeptClipped(ws, we, b))
    decreases |a|
  {
    if |a| == 0 {
      assert |b| == |multiset(b)| == 0;
    } else {
      assert a[0] in multiset(b);
      assert a[0] in b;
      var k :| 0 <= k < |b| && b[k] == a[0];
      var b' := b[..k] + b[k + 1..];
      var a' := a[..0] + a[1..];
      RemoveAt(b, k);
      RemoveAt(a, 0);
      MultisetCancel(a[0], multiset(a'), multiset(b'));
      KeptClippedPermutation(ws, we, a', b');
      KeptClippedRemoveAt(ws, we, b, k);
      KeptClippedRemoveAt(ws, we, a, 0);
      assert [b[k]] == [a[0]];
    }
  }

  /** No events: the whole window is one free slot, even when it has zero
      length. */
  lemma FreeTimeSlotsOfNoEvents(ws: Instant, we: Instant)
    ensures CalculateFreeTimeSlots(ws, we, []) == [TimeSlot(ws, we, true)]
  {
  }

  /** The busy slots are, as a multiset, exactly the kept events clipped to
      the window: one per kept event, none merged. */
  lemma FreeTimeSlotsBusy(ws: Instant, we: Instant, events: seq<Event>)
    ensures multiset(BusySlots(CalculateFreeTimeSlots(ws, we, events))) == multiset(KeptClipped(ws, we, events))
  {
    if |events| == 0 {
      assert [TimeSlot(ws, we, true)][1..] == [];
    } else {
      SweepBusySlots(ws, we, ws, SortByStart(events));
      KeptClippedSort(ws, we, events);
    }
  }

  /** Whatever order the events are swept in, the busy slots are, as a
      multiset, the kept events clipped to the window. */
  lemma AnyOrderBusy(ws: Instant, we: Instant, events: seq<Event>, order: seq<Event>)
    requires multiset(order) == multiset(events)
    ensures multiset(BusySlots(Sweep(ws, we, ws, order))) == multiset(KeptClipped(ws, we, events))
  {
    SweepBusySlots(ws, we, ws, order);
    KeptClippedPermutation(ws, we, order, events);
  }

  /** With at least one event, every free slot is non-empty, and two free
      slots are never adjacent. */
  lemma FreeTimeSlotsFreeShape(ws: Instant, we: Instant, events: seq<Event>)
    ensures |events| > 0 ==> forall s :: s in CalculateFreeTimeSlots(ws, we, events) && s.free ==> s.start < s.end
    ensures NoAdjacentFree(CalculateFreeTimeSlots(ws, we, events))
  {
    if |events| > 0 {
      SweepFreeSlotsNonEmpty(ws, we, ws, SortByStart(events));
      SweepNoAdjacentFree(ws, we, ws, SortByStart(events));
    }
  }

  /** Every instant of the window lies in some slot. */
  lemma FreeTimeSlotsCover(ws: Instant, we: Instant, events: seq<Event>, t: Instant)
    requires ws <= t < we
    ensures Covered(CalculateFreeTimeSlots(ws, we, events), t)
  {
    var r := CalculateFreeTimeSlots(ws, we, events);
    if |events| == 0 {
      assert r[0] in r;
    } else {
      SweepCovers(ws, we, ws, SortByStart(events));
    }
  }

  /** Over a window with start <= end, every slot lies inside the window,
      and an instant is in a free slot exactly when it is inside the window
      and no event contains it. */
  lemma FreeTimeSlotsCorrect(ws: Instant, we: Instant, events: seq<Event>)
    requires ws <= we
    ensures forall s :: s in CalculateFreeTimeSlots(ws, we, events) ==> WithinWindow(s, ws, we)
    ensures forall t :: InFreeSlot(CalculateFreeTimeSlots(ws, we, events), t) <==> ws <= t < we && !Occupied(events, t)
  {
    var r := CalculateFreeTimeSlots(ws, we, events);
    if |events| == 0 {
      forall t ensures InFreeSlot(r, t) <==> ws <= t < we {
        if ws <= t < we {
          assert r[0] in r;
        }
      }
    } else {
      var order := SortByStart(events);
      SweepWithinWindow(ws, we, ws, order);
      forall t ensures InFreeSlot(r, t) <==> ws <= t < we && !Occupied(events, t) {
        SweepFreeIffUnoccupied(ws, we, order, t);
        SameEventsSameOccupancy(order, events, t);
      }
    }
  }

  lemma SameEventsSameOccupancy(a: seq<Event>, b: seq<Event>, t: Instant)
    requires multiset(a) == multiset(b)
    ensures Occupied(a, t) <==> Occupied(b, t)
  {
    if Occupied(a, t) {
      var e :| e in a && e.start <= t < e.end;
      assert e in multiset(a);
    }
    if Occupied(b, t) {
      var e :| e in b && e.start <= t < e.end;
      assert e in multiset(b);
    }
  }

  /** Whatever order the unstable sort leaves equal-start events in, the
      free time reported is the same. */
  lemma FreeTimeOrderIndependent(ws: Instant, we: Instant, order1: seq<Event>, order2: seq<Event>, t: Instant)
    requires ws <= we
    requires IsStartSorted(order1) && IsStartSorted(order2)
    requires multiset(order1) == multiset(order2)
    ensures InFreeSlot(Sweep(ws, we, ws, order1), t) <==> InFreeSlot(Sweep(ws, we, ws, order2), t)
  {
    SweepFreeIffUnoccupied(ws, we, order1, t);
    SweepFreeIffUnoccupied(ws, we, order2, t);
    SameEventsSameOccupancy(order1, order2, t);
  }

  // ---------------------------------------------------------------------
  // Edge cases of the code as written

  /** Overlapping events are not merged: each keeps its own busy slot. */
  lemma OverlappingEventsNotMerged()
    ensures CalculateFreeTimeSlots(0, 100, [Event(20, 40), Event(10, 30)])
      == [TimeSlot(0, 10, true), TimeSlot(10, 30, false), TimeSlot(20, 40, false), TimeSlot(40, 100, true)]
  {
    SortsTwoEvents();
    assert [Event(20, 40)][1..] == [];
    assert [Event(10, 30), Event(20, 40)][1..] == [Event(20, 40)];
  }

  lemma SortsTwoEvents()
    ensures SortByStart([Event(20, 40), Event(10, 30)]) == [Event(10, 30), Event(20, 40)]
  {
    assert [Event(20, 40), Event(10, 30)][1..] == [Event(10, 30)];
    assert [Event(10, 30)][1..] == [];
  }

  /** An event that ends exactly where the window starts is kept, as a
      zero-length busy slot. */
  lemma TouchingEventKeptAsZeroLength()
    ensures CalculateFreeTimeSlots(10, 20, [Event(0, 10)]) == [TimeSlot(10, 10, false), TimeSlot(10, 20, true)]
  {
    assert SortByStart([Event(0, 10)]) == [Event(0, 10)] by {
      assert [Event(0, 10)][1..] == [];
    }
  }

  /** An empty list over a zero-length window still yields a (zero-length)
      free slot, although the loop never emits one. */
  lemma EmptyListZeroLengthWindow(w: Instant, e: Event)
    requires Skipped(e, w, w)
    ensures CalculateFreeTimeSlots(w, w, []) == [TimeSlot(w, w, true)]
    ensures CalculateFreeTimeSlots(w, w, [e]) == []
  {
    assert [e][1..] == [];
    assert SortByStart([e]) == [e];
    assert Sweep(w, w, w, [e]) == Sweep(w, w, w, []);
  }
}
