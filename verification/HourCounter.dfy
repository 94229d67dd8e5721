/** The 24-slot hour counter, against the log of everything added. */
module HourCounter {
  const SLOTS: nat := 24

  /** The counter as a value: its buckets and the hour it was last rotated to. */
  datatype Ring = Ring(buckets: seq<int>, hour: nat)

  ghost predicate WellFormed(r: Ring) {
    |r.buckets| == SLOTS && r.hour > 0
  }

  /** The hour among hour-23 .. hour that bucket i stands for. */
  function SlotAt(hour: int, i: int): (s: int)
    ensures hour - 24 < s <= hour && s % 24 == i % 24
  {
    hour - (hour - i) % 24
  }

  lemma SlotUnique(hour: int, i: int, s: int)
    requires hour - 24 < s <= hour && s % 24 == i % 24
    ensures SlotAt(hour, i) == s
  {
  }

  function Added(r: Ring, delta: int): Ring
    requires |r.buckets| == SLOTS
  {
    r.(buckets := r.buckets[r.hour % SLOTS := r.buckets[r.hour % SLOTS] + delta])
  }

  /** rotate: hours that came round are cleared; a ring that was never set is only set. */
  function Rotated(r: Ring, hour: nat): (r': Ring)
    requires |r.buckets| == SLOTS
    ensures |r'.buckets| == SLOTS
  {
    if r.hour == 0 then r.(hour := hour)
    else if hour <= r.hour then r
    else Ring(seq(SLOTS, i requires 0 <= i < SLOTS => if SlotAt(hour, i) > r.hour then 0 else r.buckets[i]), hour)
  }

  function Total(buckets: seq<int>, n: nat): int
    requires n <= |buckets|
  {
    if n == 0 then 0 else Total(buckets, n - 1) + buckets[n - 1]
  }

  // ---------- the log ----------

  datatype Event = Add(delta: int) | Rotate(hour: nat)

  /** What was added, and in which hour slot. */
  datatype Entry = Entry(slot: int, delta: int)

  function Play(hour: nat, events: seq<Event>): Ring
    ensures |Play(hour, events).buckets| == SLOTS
    decreases |events|
  {
    if events == [] then Ring(seq(SLOTS, _ => 0), hour)
    else
      var before := Play(hour, events[..|events| - 1]);
      match events[|events| - 1]
      case Add(delta) => Added(before, delta)
      case Rotate(h) => Rotated(before, h)
  }

  /** The current hour slot: the latest hour rotated to. */
  function Hour(hour: nat, events: seq<Event>): nat
    decreases |events|
  {
    if events == [] then hour
    else
      var before := Hour(hour, events[..|events| - 1]);
      match events[|events| - 1]
      case Add(_) => before
      case Rotate(h) => if h > before then h else before
  }

  function Log(hour: nat, events: seq<Event>): seq<Entry>
    decreases |events|
  {
    if events == [] then []
    else
      var before := Log(hour, events[..|events| - 1]);
      match events[|events| - 1]
      case Add(delta) => before + [Entry(Hour(hour, events[..|events| - 1]), delta)]
      case Rotate(_) => before
  }

  /** The deltas added in the current hour slot and the 23 before it. */
  function Window(log: seq<Entry>, hour: int): int
    decreases |log|
  {
    if log == [] then 0
    else
      var last := log[|log| - 1];
      Window(log[..|log| - 1], hour) + (if last.slot > hour - 24 then last.delta else 0)
  }

  function SlotSum(log: seq<Entry>, slot: int): int
    decreases |log|
  {
    if log == [] then 0
    else
      var last := log[|log| - 1];
      SlotSum(log[..|log| - 1], slot) + (if last.slot == slot then last.delta else 0)
  }

  ghost predicate Represents(r: Ring, log: seq<Entry>) {
    && WellFormed(r)
    && (forall k :: 0 <= k < |log| ==> log[k].slot <= r.hour)
    && (forall i :: 0 <= i < SLOTS ==> r.buckets[i] == SlotSum(log, SlotAt(r.hour, i)))
  }

  lemma {:induction false} SlotSumEmpty(log: seq<Entry>, slot: int)
    requires forall k :: 0 <= k < |log| ==> log[k].slot < slot
    ensures SlotSum(log, slot) == 0
    decreases |log|
  {
    if log != [] {
      SlotSumEmpty(log[..|log| - 1], slot);
    }
  }

  lemma AddRepresents(r: Ring, log: seq<Entry>, delta: int)
    requires Represents(r, log)
    ensures Represents(Added(r, delta), log + [Entry(r.hour, delta)])
  {
    var log' := log + [Entry(r.hour, delta)];
    assert log'[..|log|] == log;
    forall i | 0 <= i < SLOTS ensures Added(r, delta).buckets[i] == SlotSum(log', SlotAt(r.hour, i)) {
      if i == r.hour % SLOTS {
        SlotUnique(r.hour, i, r.hour);
      }
    }
  }

  lemma RotateRepresents(r: Ring, log: seq<Entry>, hour: nat)
    requires Represents(r, log)
    ensures Represents(Rotated(r, hour), log)
  {
    if hour > r.hour {
      forall i | 0 <= i < SLOTS ensures Rotated(r, hour).buckets[i] == SlotSum(log, SlotAt(hour, i)) {
        var s := SlotAt(hour, i);
        if s > r.hour {
          SlotSumEmpty(log, s);
        } else {
          SlotUnique(r.hour, i, s);
        }
      }
    }
  }

  lemma {:induction false} PlayRepresents(hour: nat, events: seq<Event>)
    requires hour > 0
    ensures Represents(Play(hour, events), Log(hour, events))
    ensures Play(hour, events).hour == Hour(hour, events)
    decreases |events|
  {
    if events != [] {
      PlayRepresents(hour, events[..|events| - 1]);
      var before := Play(hour, events[..|events| - 1]);
      var log := Log(hour, events[..|events| - 1]);
      match events[|events| - 1]
      case Add(delta) => AddRepresents(before, log, delta);
      case Rotate(h) => RotateRepresents(before, log, h);
    }
  }

  /** The slots of the first n buckets. */
  function SlotsTotal(log: seq<Entry>, hour: int, n: nat): int {
    if n == 0 then 0 else SlotsTotal(log, hour, n - 1) + SlotSum(log, SlotAt(hour, n - 1))
  }

  lemma {:induction false} SlotsTotalStep(log: seq<Entry>, hour: int, n: nat)
    requires log != [] && n <= 24
    ensures var last := log[|log| - 1];
            SlotsTotal(log, hour, n) == SlotsTotal(log[..|log| - 1], hour, n)
              + (if hour - 24 < last.slot <= hour && last.slot % 24 < n then last.delta else 0)
  {
    hide SlotAt;
    if n > 0 {
      SlotsTotalStep(log, hour, n - 1);
      SlotHit(hour, n - 1, log[|log| - 1].slot);
    }
  }

  lemma SlotHit(hour: int, i: int, s: int)
    requires 0 <= i < 24
    ensures s == SlotAt(hour, i) <==> hour - 24 < s <= hour && s % 24 == i
  {
    if hour - 24 < s <= hour && s % 24 == i {
      SlotUnique(hour, i, s);
    }
  }

  lemma {:induction false} SlotsAreWindow(log: seq<Entry>, hour: int)
    requires forall k :: 0 <= k < |log| ==> log[k].slot <= hour
    ensures SlotsTotal(log, hour, 24) == Window(log, hour)
    decreases |log|
  {
    if log == [] {
      SlotsTotalEmpty(hour, 24);
    } else {
      SlotsAreWindow(log[..|log| - 1], hour);
      SlotsTotalStep(log, hour, 24);
    }
  }

  lemma {:induction false} SlotsTotalEmpty(hour: int, n: nat)
    ensures SlotsTotal([], hour, n) == 0
  {
    if n > 0 {
      SlotsTotalEmpty(hour, n - 1);
    }
  }

  lemma {:induction false} TotalIsSlots(r: Ring, log: seq<Entry>, n: nat)
    requires Represents(r, log) && n <= SLOTS
    ensures Total(r.buckets, n) == SlotsTotal(log, r.hour, n)
  {
    if n > 0 {
      TotalIsSlots(r, log, n - 1);
    }
  }

  /**
   * After any mix of additions and rotations, the buckets of a counter that
   * was made after the first hour of 1970 sum to what was added in the current
   * hour slot and the 23 before it.
   */
  lemma SumIsSlidingWindow(hour: nat, events: seq<Event>)
    requires hour > 0
    ensures Total(Play(hour, events).buckets, SLOTS) == Window(Log(hour, events), Hour(hour, events))
  {
    PlayRepresents(hour, events);
    TotalIsSlots(Play(hour, events), Log(hour, events), SLOTS);
    SlotsAreWindow(Log(hour, events), Hour(hour, events));
  }

  /** Rotations compose, over jumps of any length; a missed tick changes nothing. */
  lemma RotationsCompose(r: Ring, a: nat, b: nat)
    requires WellFormed(r) && a <= b
    ensures Rotated(Rotated(r, a), b) == Rotated(r, b)
  {
    var once, twice := Rotated(r, b), Rotated(Rotated(r, a), b);
    if r.hour < a < b {
      forall i | 0 <= i < SLOTS ensures twice.buckets[i] == once.buckets[i] {
        var s := SlotAt(b, i);
        if r.hour < s <= a {
          SlotUnique(a, i, s);
        } else if s <= r.hour {
          SlotUnique(a, i, s);
        }
      }
      assert twice.buckets == once.buckets;
    }
  }

  /** Any two rotations of the ring, in order, are its last one. */
  ghost predicate Composes(r: Ring)
    requires |r.buckets| == SLOTS
  {
    forall a: nat, b: nat :: a <= b ==> Rotated(Rotated(r, a), b) == Rotated(r, b)
  }

  /**
   * Rotations compose exactly on rings that are set to an hour or hold nothing:
   * the first rotation of an unset ring clears nothing.
   */
  lemma RotationsComposeExactlyWhen(r: Ring)
    requires |r.buckets| == SLOTS
    ensures Composes(r) <==> r.hour > 0 || forall i :: 0 <= i < SLOTS ==> r.buckets[i] == 0
  {
    hide SlotAt;
    if r.hour > 0 {
      forall a: nat, b: nat | a <= b ensures Rotated(Rotated(r, a), b) == Rotated(r, b) {
        RotationsCompose(r, a, b);
      }
    } else if i :| 0 <= i < SLOTS && r.buckets[i] != 0 {
      SlotUnique(SLOTS + i, i, SLOTS + i);
      ClearsBucket(r.(hour := 1), SLOTS + i, i);
      assert Rotated(Rotated(r, 1), SLOTS + i) != Rotated(r, SLOTS + i);
    } else {
      forall a: nat, b: nat | a <= b ensures Rotated(Rotated(r, a), b) == Rotated(r, b) {
        EmptyRotation(r, b);
        EmptyRotation(r.(hour := a), b);
      }
    }
  }

  lemma EmptyRotation(r: Ring, hour: nat)
    requires |r.buckets| == SLOTS && forall i :: 0 <= i < SLOTS ==> r.buckets[i] == 0
    ensures Rotated(r, hour) == Ring(r.buckets, if hour <= r.hour then r.hour else hour)
  {
    assert Rotated(r, hour).buckets == r.buckets;
  }

  lemma ClearsBucket(r: Ring, hour: nat, i: nat)
    requires WellFormed(r) && r.hour < hour && i < SLOTS && SlotAt(hour, i) > r.hour
    ensures Rotated(r, hour).buckets[i] == 0
  {
  }

  // ---------- the counter ----------

  class Counter {
    const buckets: array<int>
    var current: int
    var lastHour: nat
    ghost const start: nat          // the hour it was made in
    ghost var events: seq<Event>    // everything done to it since

    ghost predicate Valid()
      reads this, buckets
    {
      buckets.Length == SLOTS && current == lastHour % SLOTS && Value() == Play(start, events)
    }

    ghost function Value(): Ring
      reads this, buckets
    {
      Ring(buckets[..], lastHour)
    }

    /** NewCounter, in the given hour. */
    constructor (hour: nat)
      ensures Valid() && fresh(buckets) && start == hour && events == []
    {
      buckets := new int[SLOTS](_ => 0);
      current := hour % SLOTS;
      lastHour := hour;
      start, events := hour, [];
      new;
      assert buckets[..] == seq(SLOTS, _ => 0);
    }

    method Add(delta: int)
      requires Valid()
      modifies this`events, buckets
      ensures Valid() && events == old(events) + [Event.Add(delta)]
      ensures Value() == Added(old(Value()), delta)
    {
      hide Play;
      var index := current;
      if index < 0 || index >= SLOTS {
        index := 0;
      }
      buckets[index] := buckets[index] + delta;
      PlayAdded(start, events, delta);
      events := events + [Event.Add(delta)];
    }

    /** Sum24h: for a counter made after the first hour of 1970, all that was added in the last 24 hour slots. */
    method Sum24h() returns (total: int)
      requires Valid()
      ensures total == Total(buckets[..], SLOTS)
      ensures start > 0 ==> total == Window(Log(start, events), Hour(start, events))
    {
      total := 0;
      var i := 0;
      while i < SLOTS
        invariant i <= SLOTS && total == Total(buckets[..], i)
      {
        total := total + buckets[i];
        i := i + 1;
      }
      if start > 0 {
        SumIsSlidingWindow(start, events);
      }
    }

    method Rotate(nextHour: nat)
      requires Valid()
      modifies this, buckets
      ensures Valid() && events == old(events) + [Event.Rotate(nextHour)]
      ensures Value() == Rotated(old(Value()), nextHour)
    {
      hide Play;
      RotateBuckets(nextHour);
      PlayRotated(start, events, nextHour);
      events := events + [Event.Rotate(nextHour)];
    }

    /** The body of it, up to the record that it happened. */
    method RotateBuckets(nextHour: nat)
      requires buckets.Length == SLOTS && current == lastHour % SLOTS
      modifies this`current, this`lastHour, buckets
      ensures current == lastHour % SLOTS && Value() == Rotated(old(Value()), nextHour)
    {
      if lastHour == 0 {
        lastHour := nextHour;
        current := nextHour % SLOTS;
        return;
      }
      if nextHour <= lastHour {
        return;
      }
      var elapsed := nextHour - lastHour;
      if elapsed > SLOTS {
        elapsed := SLOTS;
      }
      ghost var before := Value();
      ClearHours(elapsed);
      lastHour := nextHour;
      current := nextHour % SLOTS;
      RotatedIsCleared(before, nextHour, buckets[..]);
    }

    /** The loop that clears the hours that came round. */
    method ClearHours(elapsed: nat)
      requires buckets.Length == SLOTS && elapsed <= SLOTS
      modifies buckets
      ensures forall k :: 0 <= k < SLOTS ==> buckets[k] == if Age(k, lastHour) < elapsed then 0 else old(buckets[k])
    {
      hide Age;
      var i := 1;
      while i <= elapsed
        invariant 1 <= i <= elapsed + 1
        invariant forall k :: 0 <= k < SLOTS ==> buckets[k] == if Age(k, lastHour) < i - 1 then 0 else old(buckets[k])
      {
        AgeOfHour(lastHour, i);
        buckets[(lastHour + i) % SLOTS] := 0;
        i := i + 1;
      }
    }
  }

  /** How many hours after `last` the first hour of bucket k is, less one. */
  function Age(k: int, last: int): (n: nat)
    ensures n < 24
  {
    (k - last - 1) % 24
  }

  lemma Remainder(x: int, q: int, r: int)
    requires x == 24 * q + r && 0 <= r < 24
    ensures x % 24 == r
  {
  }

  lemma AgeOfHour(last: nat, i: nat)
    requires 1 <= i <= 24
    ensures forall k :: 0 <= k < 24 ==> (Age(k, last) == i - 1 <==> k == (last + i) % 24)
  {
    forall k | 0 <= k < 24 ensures Age(k, last) == i - 1 <==> k == (last + i) % 24 {
      if Age(k, last) == i - 1 {
        Remainder(last + i, -((k - last - 1) / 24), k);
      }
      if k == (last + i) % 24 {
        Remainder(k - last - 1, -((last + i) / 24), i - 1);
      }
    }
  }

  lemma RotatedIsCleared(r: Ring, next: nat, buckets: seq<int>)
    requires WellFormed(r) && r.hour < next && |buckets| == SLOTS
    requires var elapsed := if next - r.hour > SLOTS then SLOTS else next - r.hour;
             forall k :: 0 <= k < SLOTS ==> buckets[k] == if Age(k, r.hour) < elapsed then 0 else r.buckets[k]
    ensures Rotated(r, next) == Ring(buckets, next)
  {
    hide SlotAt; hide Age;
    forall k | 0 <= k < SLOTS ensures Rotated(r, next).buckets[k] == buckets[k] {
      ClearedSlots(r.hour, next, k);
    }
  }

  lemma PlayAdded(start: nat, events: seq<Event>, delta: int)
    ensures Play(start, events + [Event.Add(delta)]) == Added(Play(start, events), delta)
  {
    assert (events + [Event.Add(delta)])[..|events|] == events;
  }

  lemma PlayRotated(start: nat, events: seq<Event>, hour: nat)
    ensures Play(start, events + [Event.Rotate(hour)]) == Rotated(Play(start, events), hour)
  {
    assert (events + [Event.Rotate(hour)])[..|events|] == events;
  }

  lemma ClearedSlots(last: int, next: int, k: int)
    requires last < next && 0 <= k < 24
    ensures SlotAt(next, k) > last <==> Age(k, last) < (if next - last > 24 then 24 else next - last)
  {
    var z := last + 1 + Age(k, last);
    assert z % 24 == k;
    if z <= next {
      assert SlotAt(next, k) >= z;
    } else {
      SlotUnique(next, k, SlotAt(next, k));
    }
  }
}
