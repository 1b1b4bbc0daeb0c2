/** The allocators of ids (base/nIDManager.h) and the index that numbers its entities with one
(nIndexSequenceID, base/nManager.h).  One allocator uses ids again at once, the other only when they
have rested for a while; the lemmas say who may have which id over whole runs of giving out and
giving back. */
module IdAllocators {
  /** ---- nUniqueID: ids given back are used again ---- */

  /** Ids from min up to but not including max, which is the invalid one. */
  datatype Pool = Pool(min: nat, max: nat, cur: nat, reuse: seq<nat>)

  function Get(a: Pool): (Pool, nat) {
    if a.reuse != [] then (a.(reuse := a.reuse[..|a.reuse| - 1]), a.reuse[|a.reuse| - 1])
    else if a.cur < a.max then (a.(cur := a.cur + 1), a.cur)
    else (a, a.max)
  }

  function Put(a: Pool, id: nat): Pool {
    if a.min <= id < a.max then a.(reuse := [id] + a.reuse) else a
  }

  ghost predicate NoDup(s: seq<nat>) {
    forall i, j :: 0 <= i < j < |s| ==> s[i] != s[j]
  }

  /** Ids in use and ids to be used again are apart, none twice, and together all that were ever given out. */
  ghost predicate Inv(a: Pool, live: set<nat>) {
    && a.min <= a.cur <= a.max
    && NoDup(a.reuse)
    && (forall x :: x in live ==> x !in a.reuse)
    && (forall x :: (x in live || x in a.reuse) <==> a.min <= x < a.cur)
  }

  function Taken(live: set<nat>, a: Pool, id: nat): set<nat> {
    if id == a.max then live else live + {id}
  }

  /** An id is new to its user; the invalid one comes exactly when every id is in use. */
  lemma GetKeepsInv(a: Pool, live: set<nat>)
    requires Inv(a, live)
    ensures var (a', id) := Get(a);
            && Inv(a', Taken(live, a, id))
            && (id != a.max ==> a.min <= id < a.max && id !in live)
            && (id == a.max <==> forall x :: a.min <= x < a.max ==> x in live)
  {
    if a.reuse != [] {
      var front, last := a.reuse[..|a.reuse| - 1], a.reuse[|a.reuse| - 1];
      assert a.reuse == front + [last];
      assert last in a.reuse;
      assert forall k :: 0 <= k < |front| ==> front[k] == a.reuse[k];
    }
  }

  /** Giving back keeps the pool in order exactly when the id is in use, or no id of the pool at all. */
  lemma PutKeepsInv(a: Pool, live: set<nat>, id: nat)
    requires Inv(a, live)
    ensures Inv(Put(a, id), live - {id}) <==> id in live || id < a.min || id >= a.max
  {
    var a' := Put(a, id);
    if a.min <= id < a.max {
      assert a'.reuse == [id] + a.reuse;
      if id in live {
        forall i, j | 0 <= i < j < |a'.reuse|
          ensures a'.reuse[i] != a'.reuse[j]
        {
          assert a'.reuse[j] == a.reuse[j - 1];
        }
      } else if id in a.reuse {
        var k :| 0 <= k < |a.reuse| && a.reuse[k] == id;
        assert a'.reuse[0] == a'.reuse[k + 1];
      } else {
        assert id in a'.reuse && id >= a.cur;
      }
    }
  }

  datatype Op = GetOp | PutOp(id: nat)

  datatype Use = Use(pool: Pool, live: set<nat>)

  function Apply(u: Use, op: Op): Use {
    match op
    case GetOp =>
      var (a, id) := Get(u.pool);
      Use(a, Taken(u.live, u.pool, id))
    case PutOp(id) => Use(Put(u.pool, id), u.live - {id})
  }

  function Run(u: Use, ops: seq<Op>): Use {
    if ops == [] then u else Apply(Run(u, ops[..|ops| - 1]), ops[|ops| - 1])
  }

  /** Only ids in use are given back. */
  ghost predicate Proper(u: Use, ops: seq<Op>) {
    ops != [] ==>
      var front, last := ops[..|ops| - 1], ops[|ops| - 1];
      Proper(u, front) && (last.PutOp? ==> last.id in Run(u, front).live)
  }

  /** So it is over every run. */
  lemma {:induction false} RunKeepsInv(u: Use, ops: seq<Op>)
    requires Inv(u.pool, u.live) && Proper(u, ops)
    ensures Inv(Run(u, ops).pool, Run(u, ops).live)
  {
    if ops != [] {
      var front, last := ops[..|ops| - 1], ops[|ops| - 1];
      RunKeepsInv(u, front);
      var v := Run(u, front);
      match last
      case GetOp => GetKeepsInv(v.pool, v.live);
      case PutOp(id) => PutKeepsInv(v.pool, v.live, id);
    }
  }

  function PutAll(a: Pool, ids: seq<nat>): Pool {
    if ids == [] then a else Put(PutAll(a, ids[..|ids| - 1]), ids[|ids| - 1])
  }

  /** The ids of so many calls in a row. */
  function GetMany(a: Pool, n: nat): (r: (Pool, seq<nat>))
    decreases n
  {
    if n == 0 then (a, [])
    else
      var (a', id) := Get(a);
      var (a'', ids) := GetMany(a', n - 1);
      (a'', [id] + ids)
  }

  lemma {:induction false} GetOldest(a: Pool, ids: seq<nat>)
    requires ids != [] && a.reuse == [] && forall k :: 0 <= k < |ids| ==> a.min <= ids[k] < a.max
    ensures Get(PutAll(a, ids)) == (PutAll(a, ids[1..]), ids[0]) && PutAll(a, ids).reuse != []
    ensures PutAll(a, ids).min == a.min && PutAll(a, ids).max == a.max
  {
    var front, last := ids[..|ids| - 1], ids[|ids| - 1];
    if front == [] {
      assert PutAll(a, ids) == Put(a, last) && ids[1..] == [];
    } else {
      GetOldest(a, front);
      assert ids[1..][..|ids| - 2] == front[1..];
      assert PutAll(a, ids).reuse == [last] + PutAll(a, front).reuse;
      assert PutAll(a, ids).reuse[..|PutAll(a, ids).reuse| - 1]
          == [last] + PutAll(a, front).reuse[..|PutAll(a, front).reuse| - 1];
    }
  }

  /** Ids given back go out again in the order they were given back, before any new one. */
  lemma {:induction false} FirstBackFirstOut(a: Pool, ids: seq<nat>)
    requires a.reuse == [] && forall k :: 0 <= k < |ids| ==> a.min <= ids[k] < a.max
    ensures GetMany(PutAll(a, ids), |ids|) == (a, ids)
    decreases |ids|
  {
    if ids != [] {
      GetOldest(a, ids);
      assert [ids[0]] + ids[1..] == ids;
      FirstBackFirstOut(a, ids[1..]);
    }
  }

  class UniqueId {
    const min: nat
    const max: nat
    var cur: nat
    var reuse: seq<nat>

    ghost function Value(): Pool
      reads this
    {
      Pool(min, max, cur, reuse)
    }

    constructor (startID: nat, endID: nat)
      requires startID <= endID
      ensures Value() == Pool(startID, endID, startID, []) && Inv(Value(), {})
    {
      min, max, cur, reuse := startID, endID, startID, [];
    }

    /** Nothing happens to a caller that has an id already. */
    method GetUniqueID(id: nat) returns (ret: nat, id': nat)
      modifies this`cur, this`reuse
      ensures id != 0 ==> ret == 0 && id' == id && Value() == old(Value())
      ensures id == 0 ==> (Value(), ret) == Get(old(Value())) && id' == ret
      ensures id == 0 && old(reuse) != [] ==> cur == old(cur) && reuse + [ret] == old(reuse)
      ensures id == 0 && old(reuse) == [] && old(cur) < max ==> ret == old(cur) && cur == ret + 1 && reuse == []
      ensures id == 0 && old(reuse) == [] && old(cur) >= max ==> ret == max && cur == old(cur) && reuse == []
    {
      if id != 0 {
        return 0, id;
      }
      if reuse != [] {
        ret := reuse[|reuse| - 1];
        reuse := reuse[..|reuse| - 1];
      } else if cur < max {
        ret := cur;
        cur := cur + 1;
      } else {
        ret := max;
      }
      id' := ret;
    }

    method PutUniqueID(id: nat)
      modifies this`reuse
      ensures Value() == Put(old(Value()), id)
      ensures reuse == if min <= id < max then [id] + old(reuse) else old(reuse)
    {
      if id < max && id >= min {
        reuse := [id] + reuse;
      }
    }
  }

  /** ---- nIndexSequenceID: entities numbered on their way in ---- */

  datatype Numbered = Numbered(pool: Pool, table: map<nat, nat>)

  /** The id the entity gets and whether it was added.  Only the id 0 counts as a failure. */
  function AddEntity(n: Numbered, entity: nat): (Numbered, nat, bool) {
    var (a, id) := Get(n.pool);
    if id == 0 then (n.(pool := a), id, false)
    else if id in n.table then (n.(pool := Put(a, id)), id, false)
    else (Numbered(a, n.table[id := entity]), id, true)
  }

  ghost predicate NumberedInv(n: Numbered, live: set<nat>) {
    Inv(n.pool, live) && n.pool.min > 0 && forall x :: x in n.table <==> x in live
  }

  /** As long as ids are left, adding works and keeps ids and table together.  When none is left it still
  works, once, under the invalid id, because exhaustion is reported by that id and not by 0. */
  lemma AddWhenExhausted(n: Numbered, live: set<nat>, entity: nat)
    requires NumberedInv(n, live)
    ensures var (n', id, ok) := AddEntity(n, entity);
            && ok && id in n'.table && n'.table[id] == entity
            && (NumberedInv(n', live + {id}) <==> exists x :: n.pool.min <= x < n.pool.max && x !in live)
            && ((forall x :: n.pool.min <= x < n.pool.max ==> x in live) ==>
                  id == n.pool.max && !AddEntity(n', entity).2)
  {
    GetKeepsInv(n.pool, live);
    var (a, id) := Get(n.pool);
    if id == n.pool.max {
      assert forall k :: 0 <= k < |n.pool.reuse| ==> n.pool.reuse[k] in n.pool.reuse;
      assert a == n.pool;
    }
  }

  /** ---- nTimeReuseIDManager: ids given back rest for a while ---- */

  const WIDTH: nat := 0x1_0000_0000
  const MAX_ID: nat := 0xFFFF_FFFF

  /** An id and the second, in 32 bits, when it was given back. */
  datatype Resting = Resting(id: nat, putTime: nat)

  datatype Timed = Timed(interval: nat, cur: nat, resting: seq<Resting>)

  /** The sum has 32 bits, the present time more. */
  predicate Rested(r: Resting, interval: nat, now: nat) {
    now > (r.putTime + interval) % WIDTH
  }

  function GetTimed(t: Timed, now: nat): (Timed, nat) {
    if t.resting != [] && Rested(t.resting[0], t.interval, now) then (t.(resting := t.resting[1..]), t.resting[0].id)
    else
      var id := NextNumber(t);
      (t.(cur := id), id)
  }

  /** The numbers begin again at 1. */
  function NextNumber(t: Timed): nat {
    if t.cur < MAX_ID then t.cur + 1 else 1
  }

  function PutTimed(t: Timed, id: nat, now: nat): Timed {
    t.(resting := t.resting + [Resting(id, now % WIDTH)])
  }

  /** Given back at p, an id may go out again at `now` when more than the interval has passed, or when the
  sum of the two no longer fits into 32 bits. */
  lemma RestedWhen(id: nat, p: nat, interval: nat, now: nat)
    requires p <= now < WIDTH && interval < WIDTH
    ensures Rested(Resting(id, p), interval, now) <==> now > p + interval || p + interval >= WIDTH
  {
  }

  /** Ids put in order of time, none twice. */
  ghost predicate Queued(resting: seq<Resting>) {
    forall i, j :: 0 <= i < j < |resting| ==>
      resting[i].id != resting[j].id && resting[i].putTime <= resting[j].putTime
  }

  predicate IsResting(resting: seq<Resting>, id: nat) {
    exists i :: 0 <= i < |resting| && resting[i].id == id
  }

  /** What rests is in nobody's use and in the order it was given back. */
  ghost predicate RestingInv(t: Timed, live: set<nat>, now: nat) {
    && t.cur <= MAX_ID && t.interval < WIDTH && now < WIDTH
    && Queued(t.resting)
    && (forall i :: 0 <= i < |t.resting| ==> t.resting[i].id !in live && t.resting[i].putTime <= now)
  }

  /** Before the numbers begin again, moreover, ids are 1 to cur, each either in use or resting. */
  ghost predicate TimedInv(t: Timed, live: set<nat>, now: nat) {
    && RestingInv(t, live, now)
    && (forall i :: 0 <= i < |t.resting| ==> 1 <= t.resting[i].id <= t.cur)
    && (forall x :: x in live ==> 1 <= x <= t.cur)
    && (forall x :: 1 <= x <= t.cur ==> x in live || IsResting(t.resting, x))
  }

  /** The id that has rested longest goes out again. */
  predicate FrontRested(t: Timed, now: nat) {
    t.resting != [] && Rested(t.resting[0], t.interval, now)
  }

  /** The end of its rest fits into 32 bits. */
  predicate RestFits(t: Timed)
    requires t.resting != []
  {
    t.resting[0].putTime + t.interval < WIDTH
  }

  /** Until the numbers begin again and as long as the ends of rests fit, an id handed out is not in use, and if it
  was resting it has rested for more than the interval; and an id is used again whenever there is one
  that has rested long enough. */
  lemma GetTimedIsSafe(t: Timed, live: set<nat>, now: nat)
    requires TimedInv(t, live, now) && if FrontRested(t, now) then RestFits(t) else t.cur < MAX_ID
    ensures var (t', id) := GetTimed(t, now);
            && id !in live && TimedInv(t', live + {id}, now)
            && (forall i :: 0 <= i < |t.resting| && t.resting[i].id == id ==> now > t.resting[i].putTime + t.interval)
            && ((exists i :: 0 <= i < |t.resting| && now > t.resting[i].putTime + t.interval)
                <==> t'.cur == t.cur)
            && (id == MAX_ID && t.cur < MAX_ID ==> t.cur == MAX_ID - 1)
  {
    if t.resting != [] {
      RestedWhen(t.resting[0].id, t.resting[0].putTime, t.interval, now);
    }
    var (t', id) := GetTimed(t, now);
    forall x | 1 <= x <= t.cur && x != id
      ensures x in live || IsResting(t'.resting, x)
    {
      if x !in live {
        StaysResting(t, now, x);
      }
    }
  }

  lemma StaysResting(t: Timed, now: nat, x: nat)
    requires IsResting(t.resting, x)
    ensures var (t', id) := GetTimed(t, now); x == id || IsResting(t'.resting, x)
  {
    var i :| 0 <= i < |t.resting| && t.resting[i].id == x;
    var (t', id) := GetTimed(t, now);
    if |t'.resting| == |t.resting| {
      assert t'.resting[i].id == x;
    } else if i > 0 {
      assert t'.resting[i - 1].id == x;
    }
  }

  /** The next number is nobody's and not resting. */
  predicate NumberIsFree(t: Timed, live: set<nat>) {
    NextNumber(t) !in live && !IsResting(t.resting, NextNumber(t))
  }

  /** In any state, after the numbers have begun again too: the invalid id goes out as the number after
  0xFFFFFFFE, and again whenever it has rested.  The id that goes out is free exactly when it has
  rested or is a number that is free.  Until the numbers begin again every number is; at that moment
  it is 1, which is then in somebody's use or still resting. */
  lemma TimedIdsRunOut(t: Timed, live: set<nat>, now: nat)
    requires t.cur <= MAX_ID
    ensures var (t', id) := GetTimed(t, now);
            && (id == MAX_ID <==> if FrontRested(t, now) then t.resting[0].id == MAX_ID else t.cur == MAX_ID - 1)
            && (!FrontRested(t, now) ==> (id != t.cur + 1 <==> t.cur == MAX_ID))
            && (RestingInv(t, live, now) ==>
                  && (id !in live && !IsResting(t'.resting, id) <==> FrontRested(t, now) || NumberIsFree(t, live))
                  && (id in live <==> !FrontRested(t, now) && NextNumber(t) in live))
            && (TimedInv(t, live, now) ==>
                  && (NumberIsFree(t, live) <==> t.cur < MAX_ID)
                  && (id in live <==> !FrontRested(t, now) && t.cur == MAX_ID && 1 in live))
  {
    var (t', id) := GetTimed(t, now);
    if FrontRested(t, now) {
      assert forall i :: 0 <= i < |t'.resting| ==> t'.resting[i] == t.resting[i + 1];
    } else {
      assert t'.resting == t.resting;
    }
  }

  datatype TimedOp = GetAt(now: nat) | PutAt(id: nat, now: nat)

  /** Everything that has happened: the ids in use and when each id was last given back. */
  datatype History = History(timed: Timed, live: set<nat>, last: map<nat, nat>, now: nat)

  function ApplyTimed(h: History, op: TimedOp): History {
    match op
    case GetAt(now) =>
      var (t, id) := GetTimed(h.timed, now);
      History(t, h.live + {id}, h.last, now)
    case PutAt(id, now) =>
      History(PutTimed(h.timed, id, now), h.live - {id}, h.last[id := now], now)
  }

  /** The clock does not go back and fits into 32 bits, and only ids in use are given back. */
  ghost predicate ProperTimed(h: History, op: TimedOp) {
    && h.now <= op.now < WIDTH
    && (op.PutAt? ==> op.id in h.live)
  }

  ghost predicate AllProper(h: History, ops: seq<TimedOp>)
    decreases |ops|
  {
    ops != [] ==> ProperTimed(h, ops[0]) && AllProper(ApplyTimed(h, ops[0]), ops[1..])
  }

  /** An id that goes out is in nobody's use and was not given back within the interval. */
  ghost predicate GoesOutRested(h: History, op: TimedOp) {
    op.GetAt? ==>
      var id := GetTimed(h.timed, op.now).1;
      id !in h.live && (id in h.last ==> op.now > h.last[id] + h.timed.interval)
  }

  ghost predicate Rests(h: History, ops: seq<TimedOp>)
    decreases |ops|
  {
    ops != [] ==> GoesOutRested(h, ops[0]) && Rests(ApplyTimed(h, ops[0]), ops[1..])
  }

  /** The id that goes out again had a rest that fits into 32 bits, or the next number is free. */
  ghost predicate FindsFree(h: History, op: TimedOp) {
    op.GetAt? ==> if FrontRested(h.timed, op.now) then RestFits(h.timed) else NumberIsFree(h.timed, h.live)
  }

  ghost predicate NumbersFree(h: History, ops: seq<TimedOp>)
    decreases |ops|
  {
    ops != [] ==> FindsFree(h, ops[0]) && NumbersFree(ApplyTimed(h, ops[0]), ops[1..])
  }

  /** The same with numbers that have not all been given out. */
  ghost predicate NotRunOut(h: History, op: TimedOp) {
    op.GetAt? ==> if FrontRested(h.timed, op.now) then RestFits(h.timed) else h.timed.cur < MAX_ID
  }

  ghost predicate NeverRunsOut(h: History, ops: seq<TimedOp>)
    decreases |ops|
  {
    ops != [] ==> NotRunOut(h, ops[0]) && NeverRunsOut(ApplyTimed(h, ops[0]), ops[1..])
  }

  /** What rests was last given back at the time noted with it, and what was given back and is in nobody's use
  rests. */
  ghost predicate Noted(h: History) {
    && (forall i :: 0 <= i < |h.timed.resting| ==>
          var r := h.timed.resting[i]; r.id in h.last && h.last[r.id] == r.putTime)
    && (forall x :: x in h.last && x !in h.live ==> IsResting(h.timed.resting, x))
  }

  ghost predicate HistoryInv(h: History) {
    RestingInv(h.timed, h.live, h.now) && Noted(h)
  }

  /** Over every run with a clock that does not go back, and however often the numbers begin again: ids go out
  free and rested exactly as long as every call finds an id whose rest, within 32 bits, is over, or a number
  that is free. */
  lemma {:induction false} IdsRest(h: History, ops: seq<TimedOp>)
    requires HistoryInv(h) && AllProper(h, ops)
    ensures Rests(h, ops) <==> NumbersFree(h, ops)
    decreases |ops|
  {
    if ops != [] {
      StepRests(h, ops[0]);
      if FindsFree(h, ops[0]) {
        StepKeepsHistory(h, ops[0]);
        IdsRest(ApplyTimed(h, ops[0]), ops[1..]);
      }
    }
  }

  /** From the beginning on, that is: exactly until an id comes whose rest does not fit, or a call when all numbers
  have been given out and nothing has rested. */
  lemma {:induction false} IdsRestUntilRunOut(h: History, ops: seq<TimedOp>)
    requires HistoryInv(h) && TimedInv(h.timed, h.live, h.now) && AllProper(h, ops)
    ensures Rests(h, ops) <==> NeverRunsOut(h, ops)
    decreases |ops|
  {
    if ops != [] {
      var op := ops[0];
      StepRests(h, op);
      TimedIdsRunOut(h.timed, h.live, h.now);
      if FindsFree(h, op) {
        StepKeepsHistory(h, op);
        match op {
          case GetAt(now) => GetTimedIsSafe(h.timed, h.live, now);
          case PutAt(id, now) => PutTimedIsSafe(h.timed, h.live, id, now);
        }
        IdsRestUntilRunOut(ApplyTimed(h, op), ops[1..]);
      }
    }
  }

  /** Nothing given out, nothing resting. */
  lemma HistoryBegins(interval: nat, now: nat)
    requires interval < WIDTH && now < WIDTH
    ensures var h := History(Timed(interval, 0, []), {}, map[], now);
            HistoryInv(h) && TimedInv(h.timed, h.live, h.now)
  {
  }

  /** The same for one call. */
  lemma StepRests(h: History, op: TimedOp)
    requires HistoryInv(h) && ProperTimed(h, op)
    ensures GoesOutRested(h, op) <==> FindsFree(h, op)
  {
    if op.GetAt? {
      var resting, n := h.timed.resting, NextNumber(h.timed);
      if resting != [] {
        RestedWhen(resting[0].id, resting[0].putTime, h.timed.interval, op.now);
      }
      if !FrontRested(h.timed, op.now) && IsResting(resting, n) {
        var i :| 0 <= i < |resting| && resting[i].id == n;
        assert resting[0].putTime <= resting[i].putTime;
        assert h.last[n] == resting[i].putTime;
      }
    }
  }

  lemma StepKeepsHistory(h: History, op: TimedOp)
    requires HistoryInv(h) && ProperTimed(h, op) && FindsFree(h, op)
    ensures HistoryInv(ApplyTimed(h, op))
  {
    match op
    case GetAt(now) =>
      GetKeepsResting(h.timed, h.live, now);
      GetKeepsNoted(h, now);
    case PutAt(id, now) =>
      PutKeepsResting(h.timed, h.live, id, now);
      PutKeepsNoted(h, id, now);
  }

  lemma GetKeepsResting(t: Timed, live: set<nat>, now: nat)
    requires RestingInv(t, live, now) && (FrontRested(t, now) || NumberIsFree(t, live))
    ensures var (t', id) := GetTimed(t, now); RestingInv(t', live + {id}, now)
  {
    if !FrontRested(t, now) {
      assert forall i :: 0 <= i < |t.resting| ==> t.resting[i].id != NextNumber(t);
    }
  }

  lemma GetKeepsNoted(h: History, now: nat)
    requires Noted(h)
    ensures Noted(ApplyTimed(h, GetAt(now)))
  {
    var h' := ApplyTimed(h, GetAt(now));
    forall x | x in h'.last && x !in h'.live
      ensures IsResting(h'.timed.resting, x)
    {
      StaysResting(h.timed, now, x);
    }
  }

  lemma PutKeepsNoted(h: History, id: nat, now: nat)
    requires HistoryInv(h) && ProperTimed(h, PutAt(id, now))
    ensures Noted(ApplyTimed(h, PutAt(id, now)))
  {
    var was, after := h.timed.resting, PutTimed(h.timed, id, now).resting;
    forall x | IsResting(was, x) || x == id
      ensures IsResting(after, x)
    {
      AlsoResting(was, Resting(id, now), x);
    }
  }

  lemma AlsoResting(s: seq<Resting>, r: Resting, x: nat)
    requires IsResting(s, x) || x == r.id
    ensures IsResting(s + [r], x)
  {
    if x == r.id {
      assert (s + [r])[|s|].id == x;
    } else {
      var i :| 0 <= i < |s| && s[i].id == x;
      assert (s + [r])[i].id == x;
    }
  }

  lemma QueuedMore(s: seq<Resting>, r: Resting)
    requires Queued(s) && forall i :: 0 <= i < |s| ==> s[i].id != r.id && s[i].putTime <= r.putTime
    ensures Queued(s + [r])
  {
  }

  lemma PutKeepsResting(t: Timed, live: set<nat>, id: nat, now: nat)
    requires RestingInv(t, live, now) && id in live
    ensures RestingInv(PutTimed(t, id, now), live - {id}, now)
  {
    QueuedMore(t.resting, Resting(id, now));
  }

  lemma PutTimedIsSafe(t: Timed, live: set<nat>, id: nat, now: nat)
    requires TimedInv(t, live, now) && id in live
    ensures TimedInv(PutTimed(t, id, now), live - {id}, now)
  {
    PutKeepsResting(t, live, id, now);
    forall x | 1 <= x <= t.cur && x !in live - {id}
      ensures IsResting(PutTimed(t, id, now).resting, x)
    {
      AlsoResting(t.resting, Resting(id, now), x);
    }
  }

  class TimeReuseId {
    const interval: nat
    var cur: nat
    var resting: seq<Resting>

    ghost function Value(): Timed
      reads this
    {
      Timed(interval, cur, resting)
    }

    constructor (interval: nat)
      ensures Value() == Timed(interval, 0, [])
    {
      this.interval, cur, resting := interval, 0, [];
    }

    method GetUniqueID(now: nat) returns (id: nat)
      modifies this`cur, this`resting
      ensures (Value(), id) == GetTimed(old(Value()), now)
      ensures if old(resting) != [] && now > (old(resting)[0].putTime + interval) % 0x1_0000_0000
              then id == old(resting)[0].id && resting == old(resting)[1..] && cur == old(cur)
              else resting == old(resting) && id == cur == if old(cur) < 0xFFFF_FFFF then old(cur) + 1 else 1
    {
      if resting != [] {
        var data := resting[0];
        if now > (data.putTime + interval) % WIDTH {
          id := data.id;
          resting := resting[1..];
          return;
        }
      }
      if cur < MAX_ID {
        cur := cur + 1;
      } else {
        cur := 1;
      }
      id := cur;
    }

    method PutUniqueID(id: nat, now: nat)
      modifies this`resting
      ensures Value() == PutTimed(old(Value()), id, now)
      ensures cur == old(cur) && resting == old(resting) + [Resting(id, now % 0x1_0000_0000)]
    {
      resting := resting + [Resting(id, now % WIDTH)];
    }
  }
}
