/** Delayed and repeated script actions, and the tick that calls those that are due (game/nScriptObj.h). */
module ScriptActions {
  // A tick goes through the pending actions by index, fires those that are due, and takes finished
  // ones out by moving the last action into their place (base/nSTL.h:110-117).  The script functions
  // called may put actions off and may dispose of the owner; they do not register actions.

  import Clocks

  const TICK_INTERVAL: nat := 300

  /** A pending action; key tells registrations apart. */
  datatype Action = Action(key: nat, next: nat, interval: nat, cur: nat, max: nat, id: nat)

  /** A call of the script function. */
  datatype Fire = Fire(key: nat, id: nat, needRemove: bool)

  /** What the script function answers and does. */
  datatype Reply = Reply(keep: bool, delays: seq<(nat, nat)>, disposes: bool)

  /** addActionDelay: put off the first action with that id. */
  function PutOff(s: seq<Action>, id: nat, delay: nat): (r: seq<Action>)
    ensures |r| == |s|
  {
    if s == [] then []
    else if s[0].id == id then [s[0].(next := s[0].next + delay)] + s[1..]
    else [s[0]] + PutOff(s[1..], id, delay)
  }

  lemma PutOffNext(s: seq<Action>, id: nat, delay: nat, i: nat)
    requires i < |s|
    ensures s[..i] + PutOff(s[i..], id, delay) ==
            if s[i].id == id then s[i := s[i].(next := s[i].next + delay)]
            else s[..i + 1] + PutOff(s[i + 1..], id, delay)
  {
    assert s[i..][0] == s[i] && s[i..][1..] == s[i + 1..];
    assert s[i].id != id ==> s[..i] + PutOff(s[i..], id, delay) == s[..i] + [s[i]] + PutOff(s[i + 1..], id, delay);
  }

  function PutOffAll(s: seq<Action>, delays: seq<(nat, nat)>): (r: seq<Action>)
    ensures |r| == |s|
    decreases |delays|
  {
    if delays == [] then s else PutOffAll(PutOff(s, delays[0].0, delays[0].1), delays[1..])
  }

  /** The first action with that id, and no other. */
  ghost predicate FirstWith(s: seq<Action>, id: nat, k: nat) {
    k < |s| && s[k].id == id && forall j :: 0 <= j < k ==> s[j].id != id
  }

  lemma {:induction false} PutOffAt(s: seq<Action>, id: nat, delay: nat, k: nat)
    requires k < |s|
    ensures PutOff(s, id, delay)[k] == if FirstWith(s, id, k) then s[k].(next := s[k].next + delay) else s[k]
  {
    if s[0].id == id {
      assert FirstWith(s, id, k) <==> k == 0;
    } else if k > 0 {
      PutOffAt(s[1..], id, delay, k - 1);
      assert s[1..][k - 1] == s[k];
      assert FirstWith(s, id, k) ==> FirstWith(s[1..], id, k - 1);
      if FirstWith(s[1..], id, k - 1) {
        forall j | 0 <= j < k ensures s[j].id != id {
          assert j > 0 ==> s[j] == s[1..][j - 1];
        }
      }
    }
  }

  /** All the delays asked for an id. */
  function TotalDelay(delays: seq<(nat, nat)>, id: nat): nat
    decreases |delays|
  {
    if delays == [] then 0 else (if delays[0].0 == id then delays[0].1 else 0) + TotalDelay(delays[1..], id)
  }

  /** Delays add up, on the first action with the id. */
  lemma {:induction false} PutOffAllAt(s: seq<Action>, delays: seq<(nat, nat)>, k: nat)
    requires k < |s|
    ensures PutOffAll(s, delays)[k] ==
            if FirstWith(s, s[k].id, k) then s[k].(next := s[k].next + TotalDelay(delays, s[k].id)) else s[k]
    decreases |delays|
  {
    if delays != [] {
      var s' := PutOff(s, delays[0].0, delays[0].1);
      forall j | 0 <= j < |s| ensures s'[j].id == s[j].id {
        PutOffAt(s, delays[0].0, delays[0].1, j);
      }
      PutOffAt(s, delays[0].0, delays[0].1, k);
      PutOffAllAt(s', delays[1..], k);
      assert FirstWith(s', s[k].id, k) <==> FirstWith(s, s[k].id, k);
    }
  }

  /** removeByIndex. */
  function RemoveAt(s: seq<Action>, i: nat): (r: seq<Action>)
    requires i < |s|
    ensures |r| == |s| - 1
  {
    if i + 1 < |s| then s[i := s[|s| - 1]][..|s| - 1] else s[..|s| - 1]
  }

  /** The last action comes to stand in the gap; all others stay where they are. */
  lemma RemoveAtAt(s: seq<Action>, i: nat, k: nat)
    requires i < |s| && k < |s| - 1
    ensures RemoveAt(s, i)[k] == s[if k == i then |s| - 1 else k]
  {
  }

  /** An action that has just come due, set for the next time. */
  function Refired(a: Action, now: nat): Action {
    var next := a.next + a.interval;
    a.(next := if next <= now then now + a.interval else next, cur := a.cur + 1)
  }

  /** An action with an interval comes due again after now, within an interval, and at least an interval
  after it was due: an interval after it was due, if that is after now, and an interval after now otherwise. */
  lemma RefiredInTime(a: Action, now: nat)
    requires a.next <= now
    ensures a.interval > 0 ==> now < Refired(a, now).next
    ensures a.next + a.interval <= Refired(a, now).next <= now + a.interval
    ensures a.next + a.interval > now ==> Refired(a, now).next == a.next + a.interval
    ensures a.next + a.interval <= now ==> Refired(a, now).next == now + a.interval
    ensures Refired(a, now).(next := a.next) == a.(cur := a.cur + 1)
  {
  }

  predicate IsLast(a: Action) {
    a.cur >= a.max && a.max > 0
  }

  /** A tick in the middle: the next index, the calls made, the keys of the actions looked at. */
  datatype Tick = Tick(actions: seq<Action>, i: nat, fires: seq<Fire>, examined: seq<nat>, alive: bool)

  /** Look at one action.  `answer` gives the reply to the n-th call. */
  function Step(t: Tick, now: nat, answer: (nat, Fire) -> Reply): Tick
    requires t.i < |t.actions|
  {
    var a := t.actions[t.i];
    var seen := t.examined + [a.key];
    if a.next > now then t.(i := t.i + 1, examined := seen)
    else
      var a' := Refired(a, now);
      var fire := Fire(a.key, a.id, IsLast(a'));
      var r := answer(|t.fires|, fire);
      var actions := PutOffAll(t.actions[t.i := a'], r.delays);
      var gone := fire.needRemove || !r.keep;
      Tick(if gone then RemoveAt(actions, t.i) else actions, if gone then t.i else t.i + 1,
           t.fires + [fire], seen, t.alive && !r.disposes)
  }

  function Loop(t: Tick, now: nat, answer: (nat, Fire) -> Reply): Tick
    requires t.i <= |t.actions|
    decreases |t.actions| - t.i
  {
    if t.i == |t.actions| || !t.alive then t else Loop(Step(t, now, answer), now, answer)
  }

  function Started(actions: seq<Action>, alive: bool): Tick {
    Tick(actions, 0, [], [], alive)
  }

  /** ---- Every action once ---- */

  /** All but the time is the same. */
  predicate SameButTime(a: Action, b: Action) {
    a.(next := 0) == b.(next := 0) && a.next <= b.next
  }

  lemma {:induction false} PutOffKeeps(s: seq<Action>, id: nat, delay: nat, k: nat)
    requires k < |s|
    ensures SameButTime(s[k], PutOff(s, id, delay)[k])
  {
    if s[0].id != id && k > 0 {
      PutOffKeeps(s[1..], id, delay, k - 1);
    }
  }

  lemma {:induction false} PutOffAllKeeps(s: seq<Action>, delays: seq<(nat, nat)>, k: nat)
    requires k < |s|
    ensures SameButTime(s[k], PutOffAll(s, delays)[k])
    decreases |delays|
  {
    if delays != [] {
      PutOffKeeps(s, delays[0].0, delays[0].1, k);
      PutOffAllKeeps(PutOff(s, delays[0].0, delays[0].1), delays[1..], k);
    }
  }

  /** Where the action at k comes from when the one at i is taken out of n. */
  function Source(n: nat, i: nat, k: nat): nat
    requires i < n && k < n - 1
  {
    if k == i then n - 1 else k
  }

  /** What stands at k after a step: an action that stood somewhere before, at most put off, or, at the
  place looked at, the action fired and set for its next time. */
  lemma StepAt(t: Tick, now: nat, answer: (nat, Fire) -> Reply, k: nat) returns (from: nat)
    requires t.i < |t.actions| && k < |Step(t, now, answer).actions|
    ensures var t' := Step(t, now, answer);
            && from < |t.actions|
            && from == (if |t'.actions| < |t.actions| then Source(|t.actions|, t.i, k) else k)
            && (if from == t.i && t.actions[from].next <= now then
                  SameButTime(Refired(t.actions[from], now), t'.actions[k]) && !IsLast(Refired(t.actions[from], now))
                else SameButTime(t.actions[from], t'.actions[k]))
            && (k < t'.i ==> from == k && k <= t.i)
  {
    var a := t.actions[t.i];
    from := k;
    if a.next <= now {
      var fired := t.actions[t.i := Refired(a, now)];
      var r := answer(|t.fires|, Fire(a.key, a.id, IsLast(Refired(a, now))));
      var actions := PutOffAll(fired, r.delays);
      if IsLast(Refired(a, now)) || !r.keep {
        from := Source(|t.actions|, t.i, k);
      }
      PutOffAllKeeps(fired, r.delays, from);
    }
  }

  function KeySet(s: seq<Action>): set<nat> {
    set k | 0 <= k < |s| :: s[k].key
  }

  function Seen(keys: seq<nat>): set<nat> {
    set k | 0 <= k < |keys| :: keys[k]
  }

  /** Every action there at the start has been looked at or is still ahead, and the numbers add up. */
  ghost predicate Covers(t: Tick, start: seq<Action>) {
    && t.i <= |t.actions|
    && |t.examined| + (|t.actions| - t.i) == |start|
    && (forall x :: x in KeySet(start) ==> x in Seen(t.examined) || x in KeySet(t.actions[t.i..]))
  }

  lemma StepCovers(t: Tick, now: nat, answer: (nat, Fire) -> Reply, start: seq<Action>)
    requires Covers(t, start) && t.i < |t.actions|
    ensures Covers(Step(t, now, answer), start)
  {
    var t' := Step(t, now, answer);
    forall x | x in KeySet(start)
      ensures x in Seen(t'.examined) || x in KeySet(t'.actions[t'.i..])
    {
      StepCoversOne(t, now, answer, x);
    }
  }

  lemma StepCoversOne(t: Tick, now: nat, answer: (nat, Fire) -> Reply, x: nat)
    requires t.i < |t.actions| && (x in Seen(t.examined) || x in KeySet(t.actions[t.i..]))
    ensures var t' := Step(t, now, answer);
            t'.i <= |t'.actions| && (x in Seen(t'.examined) || x in KeySet(t'.actions[t'.i..]))
  {
    var t' := Step(t, now, answer);
    if x in Seen(t.examined) {
      var k :| 0 <= k < |t.examined| && t.examined[k] == x;
      assert t'.examined[k] == x;
    } else {
      var k :| 0 <= k < |t.actions| - t.i && t.actions[t.i..][k].key == x;
      if k == 0 {
        assert t'.examined[|t.examined|] == x;
      } else {
        var at := if |t'.actions| < |t.actions| && t.i + k == |t.actions| - 1 then t.i else t.i + k;
        var from := StepAt(t, now, answer, at);
        assert t'.actions[t'.i..][at - t'.i].key == x;
      }
    }
  }

  lemma {:induction false} SeenSize(keys: seq<nat>)
    ensures |Seen(keys)| <= |keys|
    ensures |Seen(keys)| == |keys| ==> forall i, j :: 0 <= i < j < |keys| ==> keys[i] != keys[j]
  {
    if keys != [] {
      var front, last := keys[..|keys| - 1], keys[|keys| - 1];
      SeenSize(front);
      assert Seen(keys) == Seen(front) + {last};
      if last in front {
        var k :| 0 <= k < |front| && front[k] == last;
        assert Seen(keys) == Seen(front);
      }
    }
  }

  /** No two actions have the same key. */
  ghost predicate KeysDiffer(s: seq<Action>) {
    forall i, j :: 0 <= i < j < |s| ==> s[i].key != s[j].key
  }

  lemma {:induction false} KeySetSize(s: seq<Action>)
    requires KeysDiffer(s)
    ensures |KeySet(s)| == |s|
  {
    if s != [] {
      var front, last := s[..|s| - 1], s[|s| - 1].key;
      KeySetSize(front);
      assert KeySet(s) == KeySet(front) + {last};
      assert last !in KeySet(front);
    }
  }

  lemma {:induction false} LoopCovers(t: Tick, now: nat, answer: (nat, Fire) -> Reply, start: seq<Action>)
    requires Covers(t, start)
    ensures Covers(Loop(t, now, answer), start)
    decreases |t.actions| - t.i
  {
    if t.i < |t.actions| && t.alive {
      StepCovers(t, now, answer, start);
      LoopCovers(Step(t, now, answer), now, answer, start);
    }
  }

  /** As long as the owner lives, a tick looks at every pending action exactly once, whatever is taken out on
  the way. */
  lemma EveryActionOnce(actions: seq<Action>, now: nat, answer: (nat, Fire) -> Reply)
    requires KeysDiffer(actions) && Loop(Started(actions, true), now, answer).alive
    ensures var examined := Loop(Started(actions, true), now, answer).examined;
            && |examined| == |actions| && Seen(examined) == KeySet(actions)
            && forall i, j :: 0 <= i < j < |examined| ==> examined[i] != examined[j]
  {
    var t := Loop(Started(actions, true), now, answer);
    assert actions[0..] == actions;
    LoopCovers(Started(actions, true), now, answer, actions);
    LoopEnds(Started(actions, true), now, answer);
    KeySetSize(actions);
    SeenSize(t.examined);
    assert KeySet(actions) <= Seen(t.examined);
    SubsetSize(KeySet(actions), Seen(t.examined));
  }

  lemma {:induction false} LoopEnds(t: Tick, now: nat, answer: (nat, Fire) -> Reply)
    requires t.i <= |t.actions|
    ensures var t' := Loop(t, now, answer); t'.alive ==> t'.i == |t'.actions|
    decreases |t.actions| - t.i
  {
    if t.i < |t.actions| && t.alive {
      LoopEnds(Step(t, now, answer), now, answer);
    }
  }

  lemma SubsetSize(a: set<nat>, b: set<nat>)
    requires a <= b && |b| <= |a|
    ensures a == b
  {
    assert b == a + (b - a);
    assert |b - a| == 0;
  }

  /** ---- How often, and when ---- */

  function Count(trace: seq<Fire>, key: nat): nat {
    if trace == [] then 0
    else Count(trace[..|trace| - 1], key) + if trace[|trace| - 1].key == key then 1 else 0
  }

  lemma CountMore(trace: seq<Fire>, f: Fire, key: nat)
    ensures Count(trace + [f], key) == Count(trace, key) + if f.key == key then 1 else 0
  {
    assert (trace + [f])[..|trace|] == trace;
  }

  /** needRemove is said exactly on the last of the calls an action with a limit is to get.  plan gives the
  limit each action was registered with, 0 for none. */
  ghost predicate Truthful(trace: seq<Fire>, plan: map<nat, nat>) {
    trace == [] ||
    var front, f := trace[..|trace| - 1], trace[|trace| - 1];
    && Truthful(front, plan)
    && f.key in plan
    && (f.needRemove <==> plan[f.key] > 0 && Count(trace, f.key) == plan[f.key])
  }

  /** A pending action has been called as often as it says, and is still owed a call. */
  ghost predicate Pending(a: Action, trace: seq<Fire>, plan: map<nat, nat>) {
    && a.key in plan && plan[a.key] == a.max && Count(trace, a.key) == a.cur
    && (a.max > 0 ==> a.cur < a.max)
    && (a.interval > 0 || a.max == 1)
  }

  ghost predicate WithinPlan(trace: seq<Fire>, plan: map<nat, nat>) {
    forall x :: x in plan && plan[x] > 0 ==> Count(trace, x) <= plan[x]
  }

  ghost predicate Inv(actions: seq<Action>, trace: seq<Fire>, plan: map<nat, nat>) {
    && KeysDiffer(actions)
    && (forall k :: 0 <= k < |actions| ==> Pending(actions[k], trace, plan))
    && WithinPlan(trace, plan) && Truthful(trace, plan)
  }

  /** Every action looked at and kept is due after now. */
  ghost predicate Later(t: Tick, now: nat) {
    t.i <= |t.actions| && forall k :: 0 <= k < t.i ==> t.actions[k].next > now
  }

  /** The call a step makes, if any. */
  ghost function Called(t: Tick, now: nat): seq<Fire>
    requires t.i < |t.actions|
  {
    var a := t.actions[t.i];
    if a.next > now then [] else [Fire(a.key, a.id, IsLast(Refired(a, now)))]
  }

  lemma StepCalls(t: Tick, now: nat, answer: (nat, Fire) -> Reply, before: seq<Fire>)
    requires t.i < |t.actions|
    ensures before + Step(t, now, answer).fires == before + t.fires + Called(t, now)
  {
  }

  lemma StepOne(t: Tick, now: nat, answer: (nat, Fire) -> Reply, before: seq<Fire>, plan: map<nat, nat>, k: nat)
    requires t.i < |t.actions| && Inv(t.actions, before + t.fires, plan) && Later(t, now)
    requires k < |Step(t, now, answer).actions|
    ensures var t' := Step(t, now, answer);
            Pending(t'.actions[k], before + t'.fires, plan) && (k < t'.i ==> t'.actions[k].next > now)
  {
    var from := StepAt(t, now, answer, k);
    StepCalls(t, now, answer, before);
    PendingMore(t.actions, t.i, from, now, before + t.fires, plan, Step(t, now, answer).actions[k]);
  }

  /** An action is still pending after the one at i has been looked at. */
  lemma PendingMore(s: seq<Action>, i: nat, from: nat, now: nat, trace: seq<Fire>, plan: map<nat, nat>, b: Action)
    requires i < |s| && from < |s| && KeysDiffer(s) && Pending(s[from], trace, plan)
    requires if from == i && s[i].next <= now then SameButTime(Refired(s[i], now), b) && !IsLast(Refired(s[i], now))
             else SameButTime(s[from], b)
    ensures Pending(b, trace + Called(Tick(s, i, [], [], true), now), plan)
    ensures from == i ==> b.next > now
  {
    if s[i].next <= now {
      CountMore(trace, Fire(s[i].key, s[i].id, IsLast(Refired(s[i], now))), s[from].key);
      assert from < i ==> s[from].key != s[i].key;
      assert i < from ==> s[i].key != s[from].key;
    } else {
      assert trace + [] == trace;
    }
  }

  lemma StepTrace(t: Tick, now: nat, answer: (nat, Fire) -> Reply, before: seq<Fire>, plan: map<nat, nat>)
    requires t.i < |t.actions| && Inv(t.actions, before + t.fires, plan)
    ensures var trace := before + Step(t, now, answer).fires; WithinPlan(trace, plan) && Truthful(trace, plan)
  {
    var a := t.actions[t.i];
    assert Pending(a, before + t.fires, plan);
    StepCalls(t, now, answer, before);
    if a.next <= now {
      TraceMore(before + t.fires, plan, a, Fire(a.key, a.id, IsLast(Refired(a, now))));
    } else {
      assert before + t.fires + [] == before + t.fires;
    }
  }

  lemma TraceMore(trace: seq<Fire>, plan: map<nat, nat>, a: Action, f: Fire)
    requires WithinPlan(trace, plan) && Truthful(trace, plan) && Pending(a, trace, plan)
    requires f.key == a.key && f.needRemove == (a.cur + 1 >= a.max && a.max > 0)
    ensures WithinPlan(trace + [f], plan) && Truthful(trace + [f], plan)
  {
    forall x | x in plan && plan[x] > 0
      ensures Count(trace + [f], x) <= plan[x]
    {
      CountMore(trace, f, x);
    }
    CountMore(trace, f, a.key);
    assert (trace + [f])[..|trace|] == trace;
  }

  lemma StepKeysDiffer(t: Tick, now: nat, answer: (nat, Fire) -> Reply)
    requires t.i < |t.actions| && KeysDiffer(t.actions)
    ensures KeysDiffer(Step(t, now, answer).actions)
  {
    var t' := Step(t, now, answer);
    forall i, j | 0 <= i < j < |t'.actions|
      ensures t'.actions[i].key != t'.actions[j].key
    {
      var a := StepAt(t, now, answer, i);
      var b := StepAt(t, now, answer, j);
      assert t.actions[if a < b then a else b].key != t.actions[if a < b then b else a].key;
    }
  }

  lemma StepInv(t: Tick, now: nat, answer: (nat, Fire) -> Reply, before: seq<Fire>, plan: map<nat, nat>)
    requires t.i < |t.actions| && Inv(t.actions, before + t.fires, plan) && Later(t, now)
    ensures var t' := Step(t, now, answer); Inv(t'.actions, before + t'.fires, plan) && Later(t', now)
  {
    var t' := Step(t, now, answer);
    forall k | 0 <= k < |t'.actions|
      ensures Pending(t'.actions[k], before + t'.fires, plan) && (k < t'.i ==> t'.actions[k].next > now)
    {
      StepOne(t, now, answer, before, plan, k);
    }
    StepTrace(t, now, answer, before, plan);
    StepKeysDiffer(t, now, answer);
  }

  lemma {:induction false} LoopKeepsInv(t: Tick, now: nat, answer: (nat, Fire) -> Reply, before: seq<Fire>,
      plan: map<nat, nat>)
    requires Inv(t.actions, before + t.fires, plan) && Later(t, now)
    ensures var t' := Loop(t, now, answer); Inv(t'.actions, before + t'.fires, plan) && Later(t', now)
    decreases |t.actions| - t.i
  {
    if t.i < |t.actions| && t.alive {
      StepInv(t, now, answer, before, plan);
      LoopKeepsInv(Step(t, now, answer), now, answer, before, plan);
    }
  }

  /** ---- Which actions are still pending ---- */

  /** The calls whose script function answered that the action is not to stay. */
  function RefusedIn(fires: seq<Fire>, answer: (nat, Fire) -> Reply): set<nat> {
    set n | 0 <= n < |fires| && !answer(n, fires[n]).keep :: fires[n].key
  }

  /** The last of its calls has been made. */
  predicate Spent(trace: seq<Fire>, plan: map<nat, nat>, x: nat) {
    x in plan && plan[x] > 0 && Count(trace, x) == plan[x]
  }

  /** A registered action is pending exactly when it is not spent and no call was answered that it is not to
  stay. */
  ghost predicate Accounted(actions: seq<Action>, trace: seq<Fire>, plan: map<nat, nat>, refused: set<nat>) {
    && refused <= plan.Keys
    && forall x :: x in plan ==> (x in KeySet(actions) <==> !Spent(trace, plan, x) && x !in refused)
  }

  /** Does the step take the action out that it looks at? */
  predicate TakesOut(t: Tick, now: nat, answer: (nat, Fire) -> Reply)
    requires t.i < |t.actions|
  {
    var a := t.actions[t.i];
    var last := IsLast(Refired(a, now));
    a.next <= now && (last || !answer(|t.fires|, Fire(a.key, a.id, last)).keep)
  }

  lemma StepKeys(t: Tick, now: nat, answer: (nat, Fire) -> Reply, x: nat)
    requires t.i < |t.actions| && KeysDiffer(t.actions)
    ensures x in KeySet(Step(t, now, answer).actions)
       <==> x in KeySet(t.actions) && !(TakesOut(t, now, answer) && x == t.actions[t.i].key)
  {
    var t' := Step(t, now, answer);
    assert |t'.actions| < |t.actions| <==> TakesOut(t, now, answer);
    if x in KeySet(t'.actions) {
      var k :| 0 <= k < |t'.actions| && t'.actions[k].key == x;
      var from := StepAt(t, now, answer, k);
      assert t.actions[from].key == x;
    }
    if x in KeySet(t.actions) && !(TakesOut(t, now, answer) && x == t.actions[t.i].key) {
      var j :| 0 <= j < |t.actions| && t.actions[j].key == x;
      var k := if |t'.actions| < |t.actions| && j == |t.actions| - 1 then t.i else j;
      var from := StepAt(t, now, answer, k);
      assert t'.actions[k].key == x;
    }
  }

  lemma RefusedMore(fires: seq<Fire>, f: Fire, answer: (nat, Fire) -> Reply)
    ensures RefusedIn(fires + [f], answer) == RefusedIn(fires, answer) + if answer(|fires|, f).keep then {} else {f.key}
  {
    var more := fires + [f];
    assert more[|fires|] == f;
    forall x | x in RefusedIn(fires, answer)
      ensures x in RefusedIn(more, answer)
    {
      var n :| 0 <= n < |fires| && !answer(n, fires[n]).keep && fires[n].key == x;
      assert more[n] == fires[n];
    }
  }

  lemma StepAccountsOne(t: Tick, now: nat, answer: (nat, Fire) -> Reply, before: seq<Fire>, plan: map<nat, nat>,
      refused: set<nat>, x: nat)
    requires t.i < |t.actions| && Inv(t.actions, before + t.fires, plan) && x in plan
    requires x in KeySet(t.actions) <==> !Spent(before + t.fires, plan, x) && x !in refused + RefusedIn(t.fires, answer)
    ensures var t' := Step(t, now, answer);
            x in KeySet(t'.actions)
            <==> !Spent(before + t'.fires, plan, x) && x !in refused + RefusedIn(t'.fires, answer)
  {
    var a := t.actions[t.i];
    StepKeys(t, now, answer, x);
    StepCalls(t, now, answer, before);
    assert Pending(a, before + t.fires, plan);
    assert a.key in KeySet(t.actions);
    if a.next <= now {
      var f := Fire(a.key, a.id, IsLast(Refired(a, now)));
      CountMore(before + t.fires, f, x);
      RefusedMore(t.fires, f, answer);
    } else {
      assert before + t.fires + [] == before + t.fires;
    }
  }

  lemma StepAccounts(t: Tick, now: nat, answer: (nat, Fire) -> Reply, before: seq<Fire>, plan: map<nat, nat>,
      refused: set<nat>)
    requires t.i < |t.actions| && Inv(t.actions, before + t.fires, plan)
    requires Accounted(t.actions, before + t.fires, plan, refused + RefusedIn(t.fires, answer))
    ensures var t' := Step(t, now, answer);
            Accounted(t'.actions, before + t'.fires, plan, refused + RefusedIn(t'.fires, answer))
  {
    var t', a := Step(t, now, answer), t.actions[t.i];
    assert Pending(a, before + t.fires, plan);
    if a.next <= now {
      RefusedMore(t.fires, Fire(a.key, a.id, IsLast(Refired(a, now))), answer);
    }
    forall x | x in plan
      ensures x in KeySet(t'.actions)
         <==> !Spent(before + t'.fires, plan, x) && x !in refused + RefusedIn(t'.fires, answer)
    {
      StepAccountsOne(t, now, answer, before, plan, refused, x);
    }
  }

  lemma {:induction false} LoopAccounts(t: Tick, now: nat, answer: (nat, Fire) -> Reply, before: seq<Fire>,
      plan: map<nat, nat>, refused: set<nat>)
    requires Inv(t.actions, before + t.fires, plan) && Later(t, now)
    requires Accounted(t.actions, before + t.fires, plan, refused + RefusedIn(t.fires, answer))
    ensures var t' := Loop(t, now, answer);
            Accounted(t'.actions, before + t'.fires, plan, refused + RefusedIn(t'.fires, answer))
    decreases |t.actions| - t.i
  {
    if t.i < |t.actions| && t.alive {
      StepInv(t, now, answer, before, plan);
      StepAccounts(t, now, answer, before, plan, refused);
      LoopAccounts(Step(t, now, answer), now, answer, before, plan, refused);
    }
  }

  /** ---- What a tick does to each action ---- */

  /** The script functions neither put anything off nor dispose of the owner. */
  ghost predicate Undisturbed(answer: (nat, Fire) -> Reply) {
    forall n, f :: answer(n, f).delays == [] && !answer(n, f).disposes
  }

  /** An action that is not due stays as it is and is not called; one that is due is called once, with needRemove on
  the last of its calls, and is taken out after that or when the answer is that it is not to stay; else it is set for
  its next time. */
  ghost predicate Fate(a: Action, actions: seq<Action>, fires: seq<Fire>, now: nat, answer: (nat, Fire) -> Reply) {
    if a.next > now then a in actions && Count(fires, a.key) == 0
    else Count(fires, a.key) == 1 && exists n :: Answered(a, n, actions, fires, now, answer)
  }

  ghost predicate Answered(a: Action, n: nat, actions: seq<Action>, fires: seq<Fire>, now: nat,
      answer: (nat, Fire) -> Reply)
  {
    && n < |fires| && fires[n] == Fire(a.key, a.id, a.max > 0 && a.cur + 1 >= a.max)
    && (if fires[n].needRemove || !answer(n, fires[n]).keep then a.key !in KeySet(actions)
        else Refired(a, now) in actions)
  }

  /** What a call asks for is done: every delay is added to the first action with its id, the one called counting
  with its new time, and an owner that is disposed of stays so. */
  lemma StepObeys(t: Tick, now: nat, answer: (nat, Fire) -> Reply, k: nat)
    requires t.i < |t.actions| && t.actions[t.i].next <= now && k < |Step(t, now, answer).actions|
    ensures var t', a := Step(t, now, answer), t.actions[t.i];
            var called := t.actions[t.i := Refired(a, now)];
            var r := answer(|t.fires|, Fire(a.key, a.id, IsLast(Refired(a, now))));
            var from := if TakesOut(t, now, answer) then Source(|t.actions|, t.i, k) else k;
            && t'.actions[k] == (if FirstWith(called, called[from].id, from)
                                 then called[from].(next := called[from].next + TotalDelay(r.delays, called[from].id))
                                 else called[from])
            && (t'.alive <==> t.alive && !r.disposes)
  {
    var a := t.actions[t.i];
    var called := t.actions[t.i := Refired(a, now)];
    var r := answer(|t.fires|, Fire(a.key, a.id, IsLast(Refired(a, now))));
    var from := if TakesOut(t, now, answer) then Source(|t.actions|, t.i, k) else k;
    PutOffAllAt(called, r.delays, from);
    if TakesOut(t, now, answer) {
      RemoveAtAt(PutOffAll(called, r.delays), t.i, k);
    }
  }

  /** A step on the action at t.i leaves the others where they are, but for the last one. */
  lemma UndisturbedStep(t: Tick, now: nat, answer: (nat, Fire) -> Reply)
    requires t.i < |t.actions| && Undisturbed(answer)
    ensures var t', a := Step(t, now, answer), t.actions[t.i];
            && t'.alive == t.alive && t'.fires == t.fires + Called(t, now)
            && t'.actions == (if TakesOut(t, now, answer) then RemoveAt(t.actions, t.i)
                              else if a.next <= now then t.actions[t.i := Refired(a, now)] else t.actions)
            && t'.i == (if TakesOut(t, now, answer) then t.i else t.i + 1)
  {
    var a := t.actions[t.i];
    if a.next <= now {
      var f := Fire(a.key, a.id, IsLast(Refired(a, now)));
      assert answer(|t.fires|, f).delays == [] && !answer(|t.fires|, f).disposes;
    }
  }

  /** What has been looked at stays as it is. */
  lemma {:induction false} LoopKeepsDone(t: Tick, now: nat, answer: (nat, Fire) -> Reply, b: Action)
    requires t.i <= |t.actions| && KeysDiffer(t.actions) && Undisturbed(answer) && b in t.actions[..t.i]
    ensures var t' := Loop(t, now, answer);
            b in t'.actions && Count(t'.fires, b.key) == Count(t.fires, b.key) && t.fires <= t'.fires
    decreases |t.actions| - t.i
  {
    var k :| 0 <= k < t.i && t.actions[k] == b;
    if t.i < |t.actions| && t.alive {
      var t' := Step(t, now, answer);
      UndisturbedStep(t, now, answer);
      StepKeysDiffer(t, now, answer);
      assert t'.actions[..t'.i][k] == b;
      CalledOther(t, now, b.key);
      LoopKeepsDone(t', now, answer, b);
    }
  }

  /** The call is for the action looked at. */
  lemma CalledOther(t: Tick, now: nat, x: nat)
    requires t.i < |t.actions|
    ensures var a, n := t.actions[t.i], Count(t.fires, x);
            Count(t.fires + Called(t, now), x) == if a.next <= now && a.key == x then n + 1 else n
  {
    var a := t.actions[t.i];
    if a.next <= now {
      CountMore(t.fires, Fire(a.key, a.id, IsLast(Refired(a, now))), x);
    } else {
      assert t.fires + [] == t.fires;
    }
  }

  lemma StepFires(t: Tick, now: nat, answer: (nat, Fire) -> Reply)
    requires t.i < |t.actions|
    ensures Step(t, now, answer).fires == t.fires + Called(t, now)
    ensures Step(t, now, answer).i <= |Step(t, now, answer).actions|
    ensures |Step(t, now, answer).actions| - Step(t, now, answer).i < |t.actions| - t.i
  {
  }

  /** What has been taken out stays out. */
  lemma {:induction false} LoopKeepsGone(t: Tick, now: nat, answer: (nat, Fire) -> Reply, x: nat)
    requires t.i <= |t.actions| && KeysDiffer(t.actions) && x !in KeySet(t.actions)
    ensures var t' := Loop(t, now, answer);
            x !in KeySet(t'.actions) && Count(t'.fires, x) == Count(t.fires, x) && t.fires <= t'.fires
    decreases |t.actions| - t.i
  {
    if t.i < |t.actions| && t.alive {
      StepKeys(t, now, answer, x);
      StepKeysDiffer(t, now, answer);
      CalledOther(t, now, x);
      StepFires(t, now, answer);
      assert t.actions[t.i].key in KeySet(t.actions);
      LoopKeepsGone(Step(t, now, answer), now, answer, x);
    }
  }

  lemma FateOfCurrent(t: Tick, now: nat, answer: (nat, Fire) -> Reply)
    requires t.i < |t.actions| && KeysDiffer(t.actions) && Undisturbed(answer) && t.alive
    requires Count(t.fires, t.actions[t.i].key) == 0
    ensures var t' := Loop(t, now, answer); Fate(t.actions[t.i], t'.actions, t'.fires, now, answer)
  {
    var a, t1 := t.actions[t.i], Step(t, now, answer);
    var f := Fire(a.key, a.id, IsLast(Refired(a, now)));
    var t' := Loop(t, now, answer);
    UndisturbedStep(t, now, answer);
    StepKeysDiffer(t, now, answer);
    CalledOther(t, now, a.key);
    if TakesOut(t, now, answer) {
      StepKeys(t, now, answer, a.key);
      LoopKeepsGone(t1, now, answer, a.key);
    } else {
      assert t1.actions[..t1.i][t.i] == t1.actions[t.i];
      LoopKeepsDone(t1, now, answer, t1.actions[t.i]);
    }
    if a.next <= now {
      assert t1.fires[|t.fires|] == t'.fires[|t.fires|] == f;
      assert Answered(a, |t.fires|, t'.actions, t'.fires, now, answer);
    }
  }

  /** What is still ahead, beyond the action looked at, is ahead after the step. */
  lemma StaysAhead(t: Tick, t1: Tick, k: nat, takesOut: bool, b: Action)
    requires t.i < k < |t.actions|
    requires t1.actions == (if takesOut then RemoveAt(t.actions, t.i) else t.actions[t.i := b])
    requires t1.i == if takesOut then t.i else t.i + 1
    ensures t1.i <= |t1.actions| && t.actions[k] in t1.actions[t1.i..]
  {
    var at := if takesOut && k == |t.actions| - 1 then t.i else k;
    assert t1.actions[t1.i..][at - t1.i] == t.actions[k];
  }

  lemma {:induction false} LoopFate(t: Tick, now: nat, answer: (nat, Fire) -> Reply, a: Action, k: nat)
    requires t.i <= k < |t.actions| && KeysDiffer(t.actions) && Undisturbed(answer) && t.alive
    requires t.actions[k] == a && Count(t.fires, a.key) == 0
    ensures var t' := Loop(t, now, answer); Fate(a, t'.actions, t'.fires, now, answer)
    decreases |t.actions| - t.i
  {
    if k == t.i {
      FateOfCurrent(t, now, answer);
    } else {
      var t1, b := Step(t, now, answer), t.actions[t.i];
      UndisturbedStep(t, now, answer);
      StepKeysDiffer(t, now, answer);
      CalledOther(t, now, a.key);
      StaysAhead(t, t1, k, TakesOut(t, now, answer), if b.next <= now then Refired(b, now) else b);
      var j :| 0 <= j < |t1.actions[t1.i..]| && t1.actions[t1.i..][j] == a;
      LoopFate(t1, now, answer, a, t1.i + j);
    }
  }

  /** A tick calls exactly the actions that are due, each of them once. */
  lemma TickFires(actions: seq<Action>, now: nat, answer: (nat, Fire) -> Reply, a: Action)
    requires KeysDiffer(actions) && Undisturbed(answer) && a in actions
    ensures var t := Loop(Started(actions, true), now, answer); Fate(a, t.actions, t.fires, now, answer)
  {
    var k :| 0 <= k < |actions| && actions[k] == a;
    LoopFate(Started(actions, true), now, answer, a, k);
  }

  /** ---- Whole runs ---- */

  datatype Op =
    | Register(now: nat, delay: nat, interval: nat, max: nat, id: nat)
    | Delay(id: nat, delay: nat)
    | DoTick(now: nat, answer: (nat, Fire) -> Reply)

  /** The pending actions, all calls so far, the limit of every registration, and the actions some call of
  which was answered that they are not to stay. */
  datatype State = State(actions: seq<Action>, trace: seq<Fire>, plan: map<nat, nat>, refused: set<nat>, alive: bool)

  /** A registration wants an interval unless it is for one call. */
  predicate Allowed(op: Op) {
    op.Register? ==> op.interval != 0 || op.max == 1
  }

  function Apply(s: State, op: Op, key: nat): State {
    match op
    case Register(now, delay, interval, max, id) =>
      s.(actions := s.actions + [Action(key, now + delay, interval, 0, max, id)], plan := s.plan[key := max])
    case Delay(id, delay) => s.(actions := PutOff(s.actions, id, delay))
    case DoTick(now, answer) =>
      var t := Loop(Started(s.actions, s.alive), now, answer);
      s.(actions := t.actions, trace := s.trace + t.fires, refused := s.refused + RefusedIn(t.fires, answer),
         alive := t.alive)
  }

  lemma {:induction false} CountNone(trace: seq<Fire>, plan: map<nat, nat>, key: nat)
    requires Truthful(trace, plan) && key !in plan
    ensures Count(trace, key) == 0
  {
    if trace != [] {
      CountNone(trace[..|trace| - 1], plan, key);
    }
  }

  lemma {:induction false} TruthfulMore(trace: seq<Fire>, plan: map<nat, nat>, key: nat, max: nat)
    requires Truthful(trace, plan) && key !in plan
    ensures Truthful(trace, plan[key := max])
  {
    if trace != [] {
      TruthfulMore(trace[..|trace| - 1], plan, key, max);
    }
  }

  lemma RegisterKeepsInv(actions: seq<Action>, trace: seq<Fire>, plan: map<nat, nat>, a: Action)
    requires Inv(actions, trace, plan) && a.key !in plan && a.cur == 0 && (a.interval > 0 || a.max == 1)
    ensures Inv(actions + [a], trace, plan[a.key := a.max])
  {
    CountNone(trace, plan, a.key);
    TruthfulMore(trace, plan, a.key, a.max);
    forall k | 0 <= k < |actions|
      ensures Pending(actions[k], trace, plan[a.key := a.max]) && actions[k].key != a.key
    {
      assert Pending(actions[k], trace, plan);
    }
  }

  lemma PutOffKeepsInv(actions: seq<Action>, trace: seq<Fire>, plan: map<nat, nat>, id: nat, delay: nat)
    requires Inv(actions, trace, plan)
    ensures Inv(PutOff(actions, id, delay), trace, plan)
  {
    forall k | 0 <= k < |actions|
      ensures SameButTime(actions[k], PutOff(actions, id, delay)[k])
      ensures Pending(PutOff(actions, id, delay)[k], trace, plan)
    {
      PutOffKeeps(actions, id, delay, k);
      assert Pending(actions[k], trace, plan);
    }
  }

  /** After a tick that the owner survives, whatever is pending is due strictly after now. */
  lemma TickKeepsInv(actions: seq<Action>, alive: bool, now: nat, answer: (nat, Fire) -> Reply, trace: seq<Fire>,
      plan: map<nat, nat>)
    requires Inv(actions, trace, plan)
    ensures var t := Loop(Started(actions, alive), now, answer);
            && Inv(t.actions, trace + t.fires, plan)
            && (t.alive ==> forall k :: 0 <= k < |t.actions| ==> t.actions[k].next > now)
  {
    assert trace + [] == trace;
    LoopKeepsInv(Started(actions, alive), now, answer, trace, plan);
    LoopEnds(Started(actions, alive), now, answer);
  }

  lemma RegisterAccounts(s: State, a: Action)
    requires Inv(s.actions, s.trace, s.plan) && Accounted(s.actions, s.trace, s.plan, s.refused) && a.key !in s.plan
    ensures Accounted(s.actions + [a], s.trace, s.plan[a.key := a.max], s.refused)
  {
    CountNone(s.trace, s.plan, a.key);
    var actions := s.actions + [a];
    forall x
      ensures x in KeySet(actions) <==> x in KeySet(s.actions) || x == a.key
    {
      assert actions[|s.actions|] == a;
      if k :| 0 <= k < |s.actions| && s.actions[k].key == x {
        assert actions[k].key == x;
      }
    }
  }

  lemma PutOffAccounts(s: State, id: nat, delay: nat)
    ensures KeySet(PutOff(s.actions, id, delay)) == KeySet(s.actions)
  {
    var actions := PutOff(s.actions, id, delay);
    forall k | 0 <= k < |actions|
      ensures actions[k].key == s.actions[k].key
    {
      PutOffKeeps(s.actions, id, delay, k);
    }
    forall x
      ensures x in KeySet(actions) <==> x in KeySet(s.actions)
    {
      if k :| 0 <= k < |actions| && actions[k].key == x {
        assert s.actions[k].key == x;
      }
      if k :| 0 <= k < |actions| && s.actions[k].key == x {
        assert actions[k].key == x;
      }
    }
  }

  lemma TickAccounts(s: State, now: nat, answer: (nat, Fire) -> Reply)
    requires Inv(s.actions, s.trace, s.plan) && Accounted(s.actions, s.trace, s.plan, s.refused)
    ensures var t := Loop(Started(s.actions, s.alive), now, answer);
            Accounted(t.actions, s.trace + t.fires, s.plan, s.refused + RefusedIn(t.fires, answer))
  {
    assert s.trace + [] == s.trace && s.refused + RefusedIn([], answer) == s.refused;
    LoopAccounts(Started(s.actions, s.alive), now, answer, s.trace, s.plan, s.refused);
  }

  lemma StepKeepsAccounts(s: State, op: Op, key: nat)
    requires Inv(s.actions, s.trace, s.plan) && Accounted(s.actions, s.trace, s.plan, s.refused) && key !in s.plan
    ensures var s' := Apply(s, op, key); Accounted(s'.actions, s'.trace, s'.plan, s'.refused)
  {
    match op
    case Register(now, delay, interval, max, id) => RegisterAccounts(s, Action(key, now + delay, interval, 0, max, id));
    case Delay(id, delay) => PutOffAccounts(s, id, delay);
    case DoTick(now, answer) => TickAccounts(s, now, answer);
  }

  lemma StepKeepsInv(s: State, op: Op, key: nat)
    requires Inv(s.actions, s.trace, s.plan) && Allowed(op) && key !in s.plan
    ensures var s' := Apply(s, op, key); Inv(s'.actions, s'.trace, s'.plan)
  {
    match op
    case Register(now, delay, interval, max, id) =>
      RegisterKeepsInv(s.actions, s.trace, s.plan, Action(key, now + delay, interval, 0, max, id));
    case Delay(id, delay) =>
      PutOffKeepsInv(s.actions, s.trace, s.plan, id, delay);
    case DoTick(now, answer) =>
      TickKeepsInv(s.actions, s.alive, now, answer, s.trace, s.plan);
  }

  /** The run of the operations, the n-th registration getting key `key` + n. */
  function Run(s: State, ops: seq<Op>, key: nat): State
    decreases |ops|
  {
    if ops == [] then s else Run(Apply(s, ops[0], key), ops[1..], key + 1)
  }

  /** Over whole runs: an action with a limit is called at most so often, and is told needRemove on exactly the
  last of these calls. */
  lemma {:induction false} RunKeepsInv(s: State, ops: seq<Op>, key: nat)
    requires Inv(s.actions, s.trace, s.plan) && (forall x :: x in s.plan ==> x < key)
    requires forall k :: 0 <= k < |ops| ==> Allowed(ops[k])
    ensures var s' := Run(s, ops, key); Inv(s'.actions, s'.trace, s'.plan)
    decreases |ops|
  {
    if ops != [] {
      StepKeepsInv(s, ops[0], key);
      RunKeepsInv(Apply(s, ops[0], key), ops[1..], key + 1);
    }
  }

  /** And it is pending from its registration until the last of its calls, or until a call that its script
  function answers with false: exactly so long. */
  lemma {:induction false} PendingUntil(s: State, ops: seq<Op>, key: nat)
    requires Inv(s.actions, s.trace, s.plan) && (forall x :: x in s.plan ==> x < key)
    requires forall k :: 0 <= k < |ops| ==> Allowed(ops[k])
    requires Accounted(s.actions, s.trace, s.plan, s.refused)
    ensures var s' := Run(s, ops, key); Accounted(s'.actions, s'.trace, s'.plan, s'.refused)
    decreases |ops|
  {
    if ops != [] {
      StepKeepsInv(s, ops[0], key);
      StepKeepsAccounts(s, ops[0], key);
      PendingUntil(Apply(s, ops[0], key), ops[1..], key + 1);
    }
  }

  /** ---- The object ---- */

  class ScriptObj {
    var hasContainer: bool
    var actions: seq<Action>
    var alive: bool
    var tickTime: nat
    /** The key of the next registration. */
    var registered: nat

    ghost predicate Valid()
      reads this
    {
      !hasContainer ==> actions == []
    }

    constructor (start: nat)
      ensures Valid() && !hasContainer && actions == [] && alive && tickTime == start + TICK_INTERVAL && registered == 0
    {
      hasContainer, actions, alive, tickTime, registered := false, [], true, start + TICK_INTERVAL, 0;
    }

    /** 0 is the only clear type there is. */
    method RegisterScriptAction(clearType: nat, delay: nat, interval: nat, maxTimes: nat, actionID: nat, now: nat)
      returns (ok: bool)
      requires Valid() && (interval != 0 || maxTimes == 1)
      modifies this`hasContainer, this`actions, this`registered
      ensures Valid() && ok == (clearType == 0)
      ensures ok ==> actions == old(actions) + [Action(old(registered), now + delay, interval, 0, maxTimes, actionID)]
      ensures !ok ==> actions == old(actions)
      ensures registered == if ok then old(registered) + 1 else old(registered)
    {
      if clearType >= 1 {
        return false;
      }
      hasContainer := true;
      actions := actions + [Action(registered, now + delay, interval, 0, maxTimes, actionID)];
      registered := registered + 1;
      ok := true;
    }

    method AddActionDelay(actionID: nat, delay: nat)
      requires Valid()
      modifies this`actions
      ensures Valid() && actions == PutOff(old(actions), actionID, delay)
    {
      ghost var was := actions;
      var i := 0;
      assert was[0..] == was && was[..0] == [];
      while i < |actions|
        invariant 0 <= i <= |actions| && actions == was
        invariant PutOff(was, actionID, delay) == was[..i] + PutOff(was[i..], actionID, delay)
      {
        PutOffNext(was, actionID, delay, i);
        if actions[i].id == actionID {
          actions := actions[i := actions[i].(next := actions[i].next + delay)];
          return;
        }
        i := i + 1;
      }
    }

    /** The script function at work. */
    method Call(r: Reply)
      requires Valid()
      modifies this`actions, this`alive
      ensures Valid() && actions == PutOffAll(old(actions), r.delays) && alive == (old(alive) && !r.disposes)
    {
      ghost var was := actions;
      var k := 0;
      assert r.delays[0..] == r.delays;
      while k < |r.delays|
        invariant 0 <= k <= |r.delays| && Valid() && alive == old(alive)
        invariant PutOffAll(was, r.delays) == PutOffAll(actions, r.delays[k..])
      {
        assert r.delays[k..][0] == r.delays[k] && r.delays[k..][1..] == r.delays[k + 1..];
        AddActionDelay(r.delays[k].0, r.delays[k].1);
        k := k + 1;
      }
      if r.disposes {
        alive := false;
      }
    }

    method RemoveByIndex(i: nat)
      requires Valid() && i < |actions|
      modifies this`actions
      ensures Valid() && actions == RemoveAt(old(actions), i)
    {
      if i + 1 < |actions| {
        actions := actions[i := actions[|actions| - 1]];
      }
      actions := actions[..|actions| - 1];
    }

    /** The action at i, which is due; is it to stay? */
    method FireAction(i: nat, now: nat, answer: (nat, Fire) -> Reply, fires: seq<Fire>) returns (f: Fire, next: nat)
      requires Valid() && i < |actions| && actions[i].next <= now
      modifies this`actions, this`alive
      ensures Valid()
      ensures forall seen :: Tick(actions, next, fires + [f], seen + [old(actions)[i].key], alive)
                          == Step(Tick(old(actions), i, fires, seen, old(alive)), now, answer)
    {
      var data := actions[i];
      data := data.(next := data.next + data.interval);
      if data.next <= now {
        data := data.(next := now + data.interval);
      }
      data := data.(cur := data.cur + 1);
      actions := actions[i := data];
      var last := data.cur >= data.max && data.max > 0;
      f := Fire(data.key, data.id, last);
      var r := answer(|fires|, f);
      Call(r);
      next := i + 1;
      if last || !r.keep {
        RemoveByIndex(i);
        next := i;
      }
    }

    /** The tick: nothing before it is time, then one action after the other as long as the owner lives. */
    method DoScriptTick(now: nat, answer: (nat, Fire) -> Reply) returns (fires: seq<Fire>)
      requires Valid()
      modifies this`actions, this`alive, this`tickTime
      ensures Valid()
      ensures tickTime == if old(hasContainer) then Clocks.NextDeadline(old(tickTime), TICK_INTERVAL, now)
                          else old(tickTime)
      ensures if !old(hasContainer) || old(tickTime) > now then
                actions == old(actions) && alive == old(alive) && fires == []
              else
                var t := Loop(Started(old(actions), old(alive)), now, answer);
                actions == t.actions && alive == t.alive && fires == t.fires
    {
      fires := [];
      if !hasContainer {
        return;
      }
      var due := tickTime <= now;
      tickTime := Clocks.NextDeadline(tickTime, TICK_INTERVAL, now);
      if !due {
        return;
      }
      ghost var seen: seq<nat> := [];
      ghost var end := Loop(Started(actions, alive), now, answer);
      var i := 0;
      while i < |actions| && alive
        invariant 0 <= i <= |actions| && Valid() && tickTime == Clocks.NextDeadline(old(tickTime), TICK_INTERVAL, now)
        invariant end == Loop(Tick(actions, i, fires, seen, alive), now, answer)
        decreases |actions| - i
      {
        ghost var key := actions[i].key;
        if actions[i].next <= now {
          var f, next := FireAction(i, now, answer, fires);
          assert next <= |actions|;
          fires, i := fires + [f], next;
        } else {
          i := i + 1;
        }
        seen := seen + [key];
      }
    }
  }
}
