/** The crawler's rate limit: concurrent fetches reserve slots under a mutex and sleep
    until theirs. Times are in nanoseconds. */
module Crawl {
  import opened Common

  type Time = int

  /** One call, in mutex order: the clock as read by time.Until and then by time.Now, and
      when the call was let through, if its context did not end first. */
  datatype Call = Call(until: Time, now: Time, released: Option<Time>)

  datatype Reservation = Reservation(slot: Time, wait: int, next: Time)

  /** The critical section: how long to sleep, and the next free slot. */
  function Reserve(next: Time, interval: int, call: Call): Reservation {
    var wait := Max(0, next - call.until);
    Reservation(call.now + wait, wait, call.now + wait + interval)
  }

  class Fetcher {
    const minimumInterval: int
    var nextRequest: Time

    constructor (minimumInterval: int, nextRequest: Time)
      ensures this.minimumInterval == minimumInterval && this.nextRequest == nextRequest
    {
      this.minimumInterval := minimumInterval;
      this.nextRequest := nextRequest;
    }

    /** waitForRateLimit up to the sleep; without an interval nothing is reserved. The slot
        is never before the one promised to the previous call, and is taken at once when
        that one has passed. */
    method WaitForRateLimit(call: Call) returns (wait: int)
      requires call.until <= call.now
      modifies this
      ensures minimumInterval <= 0 ==> wait == 0 && nextRequest == old(nextRequest)
      ensures minimumInterval > 0 ==>
                && wait == Reserve(old(nextRequest), minimumInterval, call).wait >= 0
                && nextRequest == Reserve(old(nextRequest), minimumInterval, call).next
                && call.now + wait >= old(nextRequest)
                && nextRequest >= old(nextRequest) + minimumInterval
                && (wait > 0 <==> call.until < old(nextRequest))
                && wait == (if call.until < old(nextRequest) then old(nextRequest) - call.until else 0)
                && nextRequest == call.now + wait + minimumInterval
    {
      if minimumInterval <= 0 {
        return 0;
      }
      wait := nextRequest - call.until;
      if wait < 0 {
        wait := 0;
      }
      nextRequest := call.now + wait + minimumInterval;
    }
  }

  /** A call that sleeps wakes no earlier than its wait after it left the mutex. */
  ghost predicate Waited(call: Call, wait: int) {
    && call.until <= call.now
    && (call.released.Some? ==> call.released.value >= call.now + wait)
  }

  ghost predicate AllWaited(next: Time, interval: int, calls: seq<Call>)
    decreases |calls|
  {
    calls == [] ||
    (var r := Reserve(next, interval, calls[0]); Waited(calls[0], r.wait) && AllWaited(r.next, interval, calls[1..]))
  }

  function Slots(next: Time, interval: int, calls: seq<Call>): (slots: seq<Time>)
    ensures |slots| == |calls|
    decreases |calls|
  {
    if calls == [] then []
    else
      var r := Reserve(next, interval, calls[0]);
      [r.slot] + Slots(r.next, interval, calls[1..])
  }

  /** A slot is the later of the one promised and now, and not later than that by more than
      passed between the call's two clock readings; the next one is promised exactly one
      interval after it. */
  lemma {:induction false} SlotIsTheLater(next: Time, interval: int, calls: seq<Call>, i: nat)
    requires interval > 0 && AllWaited(next, interval, calls) && i < |calls|
    ensures var slots := Slots(next, interval, calls);
      var promised := if i == 0 then next else slots[i - 1] + interval;
      var later := if calls[i].now < promised then promised else calls[i].now;
      && later <= slots[i] <= later + (calls[i].now - calls[i].until)
      && slots[i] == if calls[i].until < promised then promised + (calls[i].now - calls[i].until) else calls[i].now
    decreases |calls|
  {
    var r := Reserve(next, interval, calls[0]);
    if i > 0 { SlotIsTheLater(r.next, interval, calls[1..], i - 1); }
  }

  lemma {:induction false} ReleasedAfterItsSlot(next: Time, interval: int, calls: seq<Call>, i: nat)
    requires AllWaited(next, interval, calls) && i < |calls| && calls[i].released.Some?
    ensures calls[i].released.value >= Slots(next, interval, calls)[i]
    decreases |calls|
  {
    var r := Reserve(next, interval, calls[0]);
    if i > 0 { ReleasedAfterItsSlot(r.next, interval, calls[1..], i - 1); }
  }

  lemma Step(i: int, interval: int)
    ensures (i - 1) * interval + interval == i * interval
  {
  }

  lemma {:induction false} SlotsFrom(next: Time, interval: int, calls: seq<Call>, i: nat, j: nat)
    requires interval > 0 && AllWaited(next, interval, calls) && i <= j < |calls|
    ensures var slots := Slots(next, interval, calls);
      slots[j] >= next + j * interval && slots[j] >= slots[i] + (j - i) * interval
    decreases j
  {
    SlotIsTheLater(next, interval, calls, j);
    hide Slots, AllWaited;
    Step(j, interval);
    Step(j - i, interval);
    if i < j {
      SlotsFrom(next, interval, calls, i, j - 1);
    } else if j > 0 {
      SlotsFrom(next, interval, calls, 0, j - 1);
    }
  }

  /** Whatever the interleaving and the wake-up delays: slots are an interval apart, and no
      call is let through before its slot. */
  lemma SlotsAreSpaced(next: Time, interval: int, calls: seq<Call>)
    requires interval > 0 && AllWaited(next, interval, calls)
    ensures var slots := Slots(next, interval, calls);
      && (forall i :: 0 <= i < |calls| ==> slots[i] >= next + i * interval)
      && (forall i, j :: 0 <= i < j < |calls| ==> slots[j] >= slots[i] + (j - i) * interval)
      && (forall i :: 0 <= i < |calls| && calls[i].released.Some? ==> calls[i].released.value >= slots[i])
  {
    var slots := Slots(next, interval, calls);
    forall i | 0 <= i < |calls| ensures slots[i] >= next + i * interval {
      SlotsFrom(next, interval, calls, i, i);
    }
    forall i, j | 0 <= i < j < |calls| ensures slots[j] >= slots[i] + (j - i) * interval {
      SlotsFrom(next, interval, calls, i, j);
    }
    forall i | 0 <= i < |calls| && calls[i].released.Some? ensures calls[i].released.value >= slots[i] {
      ReleasedAfterItsSlot(next, interval, calls, i);
    }
  }

  function ReleasedBy(calls: seq<Call>, t: Time): nat
    decreases |calls|
  {
    if calls == [] then 0
    else (if calls[0].released.Some? && calls[0].released.value <= t then 1 else 0) + ReleasedBy(calls[1..], t)
  }

  /** Calls released by `t` are among the first `n`, when the later ones have later slots. */
  lemma {:induction false} ReleasedAreFirst(calls: seq<Call>, t: Time, n: int)
    requires forall i :: 0 <= i < |calls| && i >= n && calls[i].released.Some? ==> calls[i].released.value > t
    ensures ReleasedBy(calls, t) <= Max(0, n)
    decreases |calls|
  {
    if calls != [] {
      forall i | 0 <= i < |calls[1..]| && i >= n - 1 && calls[1..][i].released.Some?
        ensures calls[1..][i].released.value > t
      {
        assert calls[1..][i] == calls[i + 1];
      }
      ReleasedAreFirst(calls[1..], t, n - 1);
    }
  }

  lemma Scaled(x: int, y: int, interval: int)
    requires x <= y && interval > 0
    ensures x * interval <= y * interval
  {
    assert (y - x) * interval >= 0;
  }

  lemma FloorBound(t: int, first: int, interval: int, i: int)
    requires interval > 0 && t >= first && i >= 1 + (t - first) / interval
    ensures first + i * interval > t
  {
    var q := (t - first) / interval;
    assert t - first < interval * q + interval;
    Scaled(1 + q, i, interval);
  }

  /** At most one call more than the intervals since the first slot is released by `t`. */
  lemma CrawlRateIsBounded(next: Time, interval: int, calls: seq<Call>, t: Time)
    requires interval > 0 && calls != [] && AllWaited(next, interval, calls)
    ensures var first := Slots(next, interval, calls)[0];
      ReleasedBy(calls, t) <= if t < first then 0 else 1 + (t - first) / interval
  {
    var slots := Slots(next, interval, calls);
    var first := slots[0];
    SlotsAreSpaced(next, interval, calls);
    var n := if t < first then 0 else 1 + (t - first) / interval;
    forall i | 0 <= i < |calls| && i >= n && calls[i].released.Some? ensures calls[i].released.value > t {
      if i > 0 { assert slots[i] >= slots[0] + (i - 0) * interval; }
      if t >= first {
        FloorBound(t, first, interval, i);
      } else {
        assert i * interval >= 0;
      }
    }
    ReleasedAreFirst(calls, t, n);
  }
}
