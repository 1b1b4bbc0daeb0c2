/** Points in time, timer and alarm clock (base/nTime.h, base/nTimer.h). */
module Clocks {
  // The system's time adjustment and time zone, static variables there, are parameters adj and zone
  // here; unsigned long and the time value are wide enough not to wrap.

  import opened Arithmetic

  /** ---- Points in time ---- */

  /** Seconds and microseconds, with the adjustment already taken out of the seconds when tmOk. */
  datatype Time = Time(sec: int, usec: nat, tmOk: bool)

  function Sec(t: Time, adj: int): int {
    if !t.tmOk then t.sec - adj else t.sec
  }

  function ZoneSec(t: Time, adj: int, zone: int): int {
    Sec(t, adj) - zone
  }

  function Micros(t: Time, adj: int): int {
    Sec(t, adj) * 1000000 + t.usec
  }

  /** delay is in milliseconds. */
  function AddDelay(t: Time, delay: nat, adj: int): Time {
    var usec := t.usec + delay * 1000;
    Time((if t.tmOk then t.sec + adj else t.sec) + usec / 1000000, usec % 1000000, false)
  }

  /** A delay moves the time by exactly that much, whole seconds leaving the fraction alone. */
  lemma DelayAdds(t: Time, delay: nat, adj: int)
    requires t.usec < 1000000
    ensures Micros(AddDelay(t, delay, adj), adj) == Micros(t, adj) + delay * 1000
    ensures AddDelay(t, delay, adj).usec < 1000000
    ensures delay % 1000 == 0 ==>
              Sec(AddDelay(t, delay, adj), adj) == Sec(t, adj) + delay / 1000 && AddDelay(t, delay, adj).usec == t.usec
  {
    if delay % 1000 == 0 {
      var s := delay / 1000;
      assert delay * 1000 == s * 1000000;
      assert (t.usec + s * 1000000) / 1000000 == s;
    }
  }

  lemma DelaySeconds(t: Time, seconds: nat, adj: int)
    requires t.usec < 1000000
    ensures var r := AddDelay(t, seconds * 1000, adj);
            Sec(r, adj) == Sec(t, adj) + seconds && r.usec == t.usec && !r.tmOk
  {
    DelayAdds(t, seconds * 1000, adj);
    assert seconds * 1000 / 1000 == seconds;
  }

  /** ---- The alarm clock: the next moment congruent to `long` modulo `interval` ---- */

  /** How far the next ring is from a local second. */
  function Escape(z: nat, long: nat, interval: nat): nat
    requires 0 < long <= interval
  {
    var escape := z % interval;
    if escape < long then long - escape else interval + long - escape
  }

  ghost predicate IsRing(z: int, long: nat, interval: nat)
    requires 0 < long <= interval
  {
    exists q: int {:trigger q * interval} :: z == q * interval + long
  }

  lemma EscapeBounds(z: nat, long: nat, interval: nat)
    requires 0 < long <= interval
    ensures 0 < Escape(z, long, interval) <= interval
    ensures IsRing(z + Escape(z, long, interval), long, interval)
  {
    var q, r := z / interval, z % interval;
    assert z == q * interval + r;
    if r < long {
      assert z + Escape(z, long, interval) == q * interval + long;
    } else {
      assert z + Escape(z, long, interval) == (q + 1) * interval + long;
    }
  }

  /** The ring reached is the least one strictly after z. */
  lemma EscapeIsLeast(z: nat, long: nat, interval: nat, ring: int)
    requires 0 < long <= interval && IsRing(ring, long, interval) && z < ring
    ensures z + Escape(z, long, interval) <= ring
  {
    EscapeBounds(z, long, interval);
    var next := z + Escape(z, long, interval);
    var p: int :| next == p * interval + long;
    var q: int :| ring == q * interval + long;
    if q < p {
      Spread(q, p, interval);
    } else if p < q {
      Spread(p, q, interval);
    }
  }

  /** The ring at `ring` is the next one after z. */
  ghost predicate NextRing(z: int, ring: int, long: nat, interval: nat)
    requires 0 < long <= interval
  {
    IsRing(ring, long, interval) && forall r :: IsRing(r, long, interval) && z < r ==> ring <= r
  }

  lemma EscapeIsNext(z: nat, long: nat, interval: nat)
    requires 0 < long <= interval
    ensures 0 < Escape(z, long, interval) && NextRing(z, z + Escape(z, long, interval), long, interval)
  {
    EscapeBounds(z, long, interval);
    forall r | IsRing(r, long, interval) && z < r
      ensures z + Escape(z, long, interval) <= r
    {
      EscapeIsLeast(z, long, interval, r);
    }
  }

  /** From a ring the next one is a whole interval away. */
  lemma EscapeFromRing(z: nat, long: nat, interval: nat)
    requires 0 < long <= interval && IsRing(z, long, interval)
    ensures Escape(z, long, interval) == interval
  {
    EscapeBounds(z, long, interval);
    var q: int :| z == q * interval + long;
    assert z + interval == (q + 1) * interval + long;
    EscapeIsLeast(z, long, interval, z + interval);
    var p: int :| z + Escape(z, long, interval) == p * interval + long;
    if p <= q {
      if p < q {
        Spread(p, q, interval);
      }
    } else {
      Spread(q, p, interval);
    }
  }

  /** Rings in a row that are due by now: none before the first, then one more each interval. */
  function DueRings(gap: int, interval: nat): nat
    requires interval > 0
  {
    if gap < 0 then 0 else gap / interval + 1
  }

  lemma DueStep(gap: int, interval: nat)
    requires interval > 0 && gap >= 0
    ensures DueRings(gap, interval) == DueRings(gap - interval, interval) + 1
  {
    if gap >= interval {
      var q, r := gap / interval, gap % interval;
      assert gap - interval == (q - 1) * interval + r;
      Quotient(gap - interval, interval, q - 1, r);
    } else {
      Quotient(gap, interval, 0, gap);
    }
  }

  lemma RingsStep(gap: int, interval: nat, rings: nat)
    requires interval > 0 && gap - rings * interval >= 0
    ensures (rings + 1) * interval == rings * interval + interval
    ensures DueRings(gap - rings * interval, interval) == DueRings(gap - (rings + 1) * interval, interval) + 1
  {
    DueStep(gap - rings * interval, interval);
  }

  lemma CounterStep(rings: nat)
    ensures (rings % 0x1_0000_0000 + 1) % 0x1_0000_0000 == (rings + 1) % 0x1_0000_0000
  {
  }

  /** Rings due for a clock at the local second z: one as soon as it is due itself, and then as many as are due
  from the ring after it. */
  function RingsDue(z: nat, gap: int, long: nat, interval: nat): nat
    requires 0 < long <= interval
  {
    if gap < 0 then 0 else 1 + DueRings(gap - Escape(z, long, interval), interval)
  }

  /** From a clock that stands at a ring it is the number of whole intervals passed, and one. */
  lemma RingsFromRing(z: nat, gap: int, long: nat, interval: nat)
    requires 0 < long <= interval && IsRing(z, long, interval)
    ensures RingsDue(z, gap, long, interval) == if gap < 0 then 0 else gap / interval + 1
  {
    EscapeFromRing(z, long, interval);
    if gap >= 0 {
      DueStep(gap, interval);
    }
  }

  class Clocker {
    const long: nat
    const interval: nat
    var adjustTime: int
    var clock: Time

    ghost predicate WellFormed()
      reads this
    {
      0 < long <= interval && clock.usec < 1000000
    }

    /** Between calls the time kept carries no adjustment. */
    ghost predicate Valid()
      reads this
    {
      WellFormed() && !clock.tmOk
    }

    /** Move the clock to the least local second after it that rings. */
    method Delay(adj: int, zone: int)
      requires WellFormed() && ZoneSec(clock, adj, zone) >= 0
      modifies this`clock
      ensures Valid() && clock.usec == old(clock.usec)
      ensures var z0, z := old(ZoneSec(clock, adj, zone)), ZoneSec(clock, adj, zone);
              z == z0 + Escape(z0, long, interval) && z0 < z && NextRing(z0, z, long, interval)
    {
      ghost var z0 := ZoneSec(clock, adj, zone);
      var escape := ZoneSec(clock, adj, zone) % interval;
      var wait := if escape < long then (long - escape) * 1000 else (interval + long - escape) * 1000;
      assert wait == Escape(z0, long, interval) * 1000;
      DelaySeconds(clock, Escape(z0, long, interval), adj);
      clock := AddDelay(clock, wait, adj);
      EscapeIsNext(z0, long, interval);
    }

    constructor (long: nat, interval: nat, start: Time, adj: int, zone: int)
      requires 0 < long <= interval && start.usec < 1000000 && ZoneSec(start, adj, zone) >= 0
      ensures Valid() && adjustTime == adj
      ensures this.long == long && this.interval == interval && clock.usec == start.usec
      ensures ZoneSec(clock, adj, zone) > ZoneSec(start, adj, zone)
      ensures NextRing(ZoneSec(start, adj, zone), ZoneSec(clock, adj, zone), long, interval)
    {
      this.long, this.interval, this.adjustTime, this.clock := long, interval, adj, start;
      new;
      Delay(adj, zone);
    }

    /** Ready when the time of the ring has come, both times adjusted; but a time with the adjustment already taken
    out is compared as if it were earlier by that adjustment. */
    predicate CheckReady(cur: Time, adj: int): (ready: bool)
      reads this
      ensures !clock.tmOk ==> (ready <==> Sec(clock, adjustTime) + (if cur.tmOk then adj else 0) <= Sec(cur, adj))
    {
      clock.sec + adj - adjustTime <= cur.sec
    }

    /** operator(): ring if it is time, and wait for the next ring after now.  At the same moment it rings again
    exactly for a time that carries a backward adjustment no smaller than the wait. */
    method Ring(cur: Time, adj: int, zone: int) returns (rang: bool)
      requires Valid() && cur.usec < 1000000 && ZoneSec(cur, adj, zone) >= 0
      modifies this`clock, this`adjustTime
      ensures Valid()
      ensures rang <==> old(Sec(clock, adjustTime)) + (if cur.tmOk then adj else 0) <= Sec(cur, adj)
      ensures !rang ==> clock == old(clock) && adjustTime == old(adjustTime)
      ensures rang ==> adjustTime == adj && IsRing(ZoneSec(clock, adj, zone), long, interval)
      ensures rang ==> ZoneSec(cur, adj, zone) < ZoneSec(clock, adj, zone) <= ZoneSec(cur, adj, zone) + interval
      ensures rang ==>
                (CheckReady(cur, adj) <==> (cur.tmOk && adj + Escape(ZoneSec(cur, adj, zone), long, interval) <= 0))
    {
      rang := CheckReady(cur, adj);
      if rang {
        adjustTime := adj;
        clock := cur;
        EscapeBounds(ZoneSec(cur, adj, zone), long, interval);
        Delay(adj, zone);
      }
    }

    /** Ring as often as was due up to now; the counter has 32 bits.  The first ring moves the clock to a ring, the
    others on from ring to ring. */
    method GetContinueRingTimes(cur: Time, adj: int, zone: int) returns (times: nat)
      requires Valid() && ZoneSec(clock, adj, zone) >= 0
      modifies this`clock
      ensures Valid()
      ensures var z0, gap := old(ZoneSec(clock, adj, zone)), cur.sec - old(clock.sec) - (adj - adjustTime);
              var rings := RingsDue(z0, gap, long, interval);
              && times == rings % 0x1_0000_0000
              && (rings == 0 ==> clock == old(clock))
              && (rings > 0 ==> clock.sec == old(clock.sec) + Escape(z0, long, interval) + (rings - 1) * interval)
              && (rings > 0 ==> IsRing(ZoneSec(clock, adj, zone), long, interval))
      ensures !CheckReady(cur, adj)
      ensures old(CheckReady(cur, adj)) ==> clock.sec + adj - adjustTime <= cur.sec + interval
    {
      times := 0;
      ghost var rings, s0, z0 := 0, clock.sec, ZoneSec(clock, adj, zone);
      ghost var first, gap := Escape(z0, long, interval), cur.sec - s0 - (adj - adjustTime);
      EscapeBounds(z0, long, interval);
      while CheckReady(cur, adj)
        invariant Valid() && ZoneSec(clock, adj, zone) >= 0 && times == rings % 0x1_0000_0000
        invariant rings == 0 ==> clock == old(clock)
        invariant rings > 0 ==> gap >= 0 && IsRing(ZoneSec(clock, adj, zone), long, interval)
        invariant rings > 0 ==> clock.sec == s0 + first + (rings - 1) * interval
        invariant var rest := gap - first - (rings - 1) * interval;
                  rings > 0 ==> DueRings(gap - first, interval) == rings - 1 + DueRings(rest, interval)
        invariant rings > 0 ==> clock.sec + adj - adjustTime <= cur.sec + interval
        decreases cur.sec - adj + adjustTime - clock.sec
      {
        if rings > 0 {
          EscapeFromRing(ZoneSec(clock, adj, zone), long, interval);
          RingsStep(gap - first, interval, rings - 1);
        }
        times := (times + 1) % 0x1_0000_0000;
        CounterStep(rings);
        Delay(adj, zone);
        rings := rings + 1;
      }
    }
  }

  /** ---- The interval timer ---- */

  class Timer {
    const long: nat
    var msec: nat

    constructor (long: nat, start: nat, first: bool)
      ensures this.long == long && msec == if first then start else start + long
    {
      this.long := long;
      msec := if first then start else start + long;
    }

    /** Ready at or after the deadline; the next deadline follows the last, or, when a whole interval or
    more has been missed, the present. */
    method IsReady(cur: nat) returns (ready: bool)
      modifies this`msec
      ensures ready == (old(msec) <= cur) && msec == NextDeadline(old(msec), long, cur)
      ensures cur < old(msec) ==> msec == old(msec)
      ensures old(msec) <= cur < old(msec) + long ==> msec == old(msec) + long
      ensures old(msec) + long <= cur ==> msec == cur + long
    {
      if msec > cur {
        return false;
      }
      if cur >= msec + long {
        msec := cur;
      }
      msec := msec + long;
      ready := true;
    }
  }

  function NextDeadline(msec: nat, long: nat, cur: nat): nat {
    if msec > cur then msec
    else if cur >= msec + long then cur + long
    else msec + long
  }

  function Deadline(msec: nat, long: nat, checks: seq<nat>): nat {
    if checks == [] then msec
    else NextDeadline(Deadline(msec, long, checks[..|checks| - 1]), long, checks[|checks| - 1])
  }

  /** The times at which the timer was ready. */
  function Successes(msec: nat, long: nat, checks: seq<nat>): seq<nat> {
    if checks == [] then []
    else
      var front, cur := checks[..|checks| - 1], checks[|checks| - 1];
      Successes(msec, long, front) + if Deadline(msec, long, front) <= cur then [cur] else []
  }

  lemma SuccessMoves(msec: nat, long: nat, cur: nat)
    requires msec <= cur && long > 0
    ensures cur < NextDeadline(msec, long, cur) <= cur + long
  {
  }

  lemma {:induction false} DeadlineGrows(msec: nat, long: nat, checks: seq<nat>)
    ensures Deadline(msec, long, checks) >= msec + |Successes(msec, long, checks)| * long
  {
    if checks != [] {
      var front, cur := checks[..|checks| - 1], checks[|checks| - 1];
      DeadlineGrows(msec, long, front);
      var n := |Successes(msec, long, front)|;
      assert (n + 1) * long == n * long + long;
    }
  }

  /** The timer is never ready too often: success number k (from 0) comes no earlier than k intervals after the
  first deadline, whatever the times of the checks. */
  lemma {:induction false} NeverTooOften(msec: nat, long: nat, checks: seq<nat>, k: nat)
    requires k < |Successes(msec, long, checks)|
    ensures Successes(msec, long, checks)[k] >= msec + k * long
  {
    var front, cur := checks[..|checks| - 1], checks[|checks| - 1];
    if k < |Successes(msec, long, front)| {
      NeverTooOften(msec, long, front, k);
    } else {
      DeadlineGrows(msec, long, front);
    }
  }

  /** Nor too seldom: a check a whole interval after the last success is a success. */
  lemma {:induction false} NeverTooSeldom(msec: nat, long: nat, checks: seq<nat>, k: nat)
    requires k < |checks| && Deadline(msec, long, checks[..k]) <= checks[k]
    requires |checks| > k + 1 && checks[|checks| - 1] >= checks[k] + long
    ensures exists j :: k < j < |checks| && Deadline(msec, long, checks[..j]) <= checks[j]
  {
    var last := |checks| - 1;
    if forall j :: k < j < last ==> Deadline(msec, long, checks[..j]) > checks[j] {
      DeadlineStays(msec, long, checks, k, last);
      assert checks[..k + 1][..k] == checks[..k] && checks[..k + 1][k] == checks[k];
      assert Deadline(msec, long, checks[..last]) <= checks[last];
    }
  }

  lemma {:induction false} DeadlineStays(msec: nat, long: nat, checks: seq<nat>, k: nat, j: nat)
    requires k < j < |checks|
    requires forall i :: k < i < j ==> Deadline(msec, long, checks[..i]) > checks[i]
    ensures Deadline(msec, long, checks[..j]) == Deadline(msec, long, checks[..k + 1])
    decreases j
  {
    if j > k + 1 {
      DeadlineStays(msec, long, checks, k, j - 1);
      assert checks[..j][..j - 1] == checks[..j - 1] && checks[..j][j - 1] == checks[j - 1];
    }
  }
}
