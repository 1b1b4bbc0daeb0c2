/** Re-entrant state machine (base/nStateMachine.h). */
module StateMachines {
  // Entering, leaving and updating a state, the notifications of a change and of an event without one,
  // and the collection of missed events are callbacks that may send events or switch the table.  A run is driven by a
  // finite script: each callback performs the next list of actions in it, and does nothing once the
  // script has run out.  The functions say what each piece of code does to the machine and its trace
  // of enter and exit calls; `StateMachine` is the object.

  import opened Common

  datatype St = St(id: nat)

  type Event = nat

  /** nStateTransit: the target and the chance, out of 100, that the event takes effect. */
  datatype Transit = Transit(state: St, probability: real)

  datatype Table = Table(
    init: St, transits: map<St, map<Event, Transit>>, globals: map<Event, Transit>,
    stateEvents: map<St, seq<Event>>)

  const MAX_PROBABILITY: real := 100.0

  /** getNextState: the state's own entry, else the global one, else no move; `roll` is the random
  number drawn when the chance is below 100. */
  function NextState(t: Table, s: St, e: Event, roll: real): St {
    var entry :=
      if s in t.transits && e in t.transits[s] then Some(t.transits[s][e])
      else if e in t.globals then Some(t.globals[e])
      else None;
    if entry.None? then s
    else if entry.value.probability < MAX_PROBABILITY && roll > entry.value.probability then s
    else entry.value.state
  }

  /** What a callback may do. */
  datatype Action = Raise(event: Event, roll: real) | Switch(table: Table)

  datatype Call = Enter(s: St) | Exit(s: St)

  /** `stray` is history: it records that a table switch made outside any transition or update had
  an exit callback that moved the machine. */
  datatype Machine = Machine(
    table: Option<Table>, cur: Option<St>, pre: Option<St>, next: Option<St>,
    inSet: bool, inUpdate: bool, script: seq<seq<Action>>, trace: seq<Call>, stray: bool)

  /** What no code ever undoes. */
  ghost predicate Grows(m: Machine, r: Machine) {
    && m.trace <= r.trace && (m.stray ==> r.stray)
    && m.inSet == r.inSet && m.inUpdate == r.inUpdate
    && (m.table.Some? ==> r.table.Some?)
  }

  /** ---- The code ---- */

  function Entering(m: Machine): Machine {
    if m.cur.Some? then m.(trace := m.trace + [Enter(m.cur.value)]) else m
  }

  function Exiting(m: Machine): Machine {
    if m.cur.Some? then m.(trace := m.trace + [Exit(m.cur.value)]) else m
  }

  /** A callback performs the next list of the script.  Exit callbacks and notifications never switch
  tables (`maySwitch` false). */
  function Callback(m: Machine, maySwitch: bool): (r: Machine)
    ensures m.script == [] ==> r == m
    ensures m.script != [] ==> |r.script| < |m.script|
    ensures Grows(m, r)
    decreases |m.script|, 0, 0
  {
    if m.script == [] then m else RunActions(m.(script := m.script[1..]), m.script[0], maySwitch)
  }

  function RunActions(m: Machine, actions: seq<Action>, maySwitch: bool): (r: Machine)
    ensures |r.script| <= |m.script| && Grows(m, r)
    decreases |m.script|, 6, |actions|
  {
    if actions == [] then m else RunActions(Act(m, actions[0], maySwitch), actions[1..], maySwitch)
  }

  function Act(m: Machine, a: Action, maySwitch: bool): (r: Machine)
    ensures |r.script| <= |m.script| && Grows(m, r)
    decreases |m.script|, 5, 0
  {
    match a
    case Raise(e, roll) => SendEvent(m, e, roll)
    case Switch(t) => if maySwitch then SetTable(m, t) else m
  }

  /** sendEvent: computed from the pending state, compared with the current one; onStateNonChange is told of an
  event that leads to the current state. */
  function SendEvent(m: Machine, e: Event, roll: real): (r: Machine)
    ensures |r.script| <= |m.script| && Grows(m, r)
    decreases |m.script|, 4, 0
  {
    if m.table.None? || m.next.None? then m
    else
      var s := NextState(m.table.value, m.next.value, e, roll);
      if m.cur != Some(s) then SetCurrent(m, s) else Callback(m, false)
  }

  /** setCurrentState. */
  function SetCurrent(m: Machine, s: St): (r: Machine)
    ensures |r.script| <= |m.script| && Grows(m, r)
    decreases |m.script|, 3, 0
  {
    if m.inSet || m.inUpdate then m.(next := Some(s))
    else Settle(m.(next := Some(s), inSet := true), m.table).(inSet := false)
  }

  /** One turn of the loop of setCurrentState, up to the registration of events. */
  function Hop(m: Machine): (r: Machine)
    ensures |r.script| <= |m.script| && Grows(m, r)
    ensures m.script == [] ==> r == Entering(Exiting(m).(pre := m.cur, cur := m.next))
    ensures m.script != [] ==> |r.script| < |m.script|
    decreases |m.script|, 1, 0
  {
    var m1 := Callback(Exiting(m), false);
    var m2 := Callback(m1, false);
    Callback(Entering(m2.(pre := m2.cur, cur := m2.next)), true)
  }

  /** The loop of setCurrentState; `known` is the table it last registered events with. */
  function Settle(m: Machine, known: Option<Table>): (r: Machine)
    ensures |r.script| <= |m.script| && Grows(m, r)
    decreases |m.script|, 2, if m.cur == m.next then 0 else 1
  {
    if m.cur == m.next then m
    else
      var m1 := Hop(m);
      var m2 := if known == m1.table then RegEvents(m1, m1.cur, StateEvents(m1)) else m1;
      Settle(m2, m1.table)
  }

  function StateEvents(m: Machine): seq<Event> {
    if m.table.Some? && m.cur.Some? && m.cur.value in m.table.value.stateEvents
    then m.table.value.stateEvents[m.cur.value] else []
  }

  /** regStateEvent: collect each event of the state before registering it, and stop as soon as
  collecting has moved the machine. */
  function RegEvents(m: Machine, s: Option<St>, events: seq<Event>): (r: Machine)
    ensures |r.script| <= |m.script| && Grows(m, r)
    ensures m.script == [] ==> r == m
    decreases |m.script|, 1, |events|
  {
    if events == [] then m
    else
      var m1 := Callback(m, true);
      if m1.next != m1.cur || m1.cur != s then m1 else RegEvents(m1, s, events[1..])
  }

  /** Would the next callback move the machine, if it is outside any transition or update?  An event that does
  not may do so through the notification that follows it. */
  predicate CallMoves(m: Machine)
    decreases |m.script|, 0, 0
  {
    m.script != [] && RunMoves(m.(script := m.script[1..]), m.script[0])
  }

  predicate RunMoves(m: Machine, actions: seq<Action>)
    decreases |m.script|, 7, |actions|
  {
    actions != [] && (ActMoves(m, actions[0]) || RunMoves(Act(m, actions[0], false), actions[1..]))
  }

  predicate ActMoves(m: Machine, a: Action)
    decreases |m.script|, 1, 0
  {
    && a.Raise? && m.table.Some? && m.next.Some?
    && (m.cur != Some(NextState(m.table.value, m.next.value, a.event, a.roll)) || CallMoves(m))
  }

  /** Would the exit callback of a table switch made now move the machine? */
  predicate ExitMoves(m: Machine)
    decreases |m.script|, 1, 0
  {
    !m.inSet && !m.inUpdate && m.table.Some? && CallMoves(Exiting(m))
  }

  /** setStateTable. */
  function SetTable(m: Machine, t: Table): (r: Machine)
    ensures |r.script| <= |m.script| && Grows(m, r)
    decreases |m.script|, 4, 0
  {
    var left := if m.table.Some? then Callback(Exiting(m), false).(stray := m.stray || ExitMoves(m)) else m;
    var m1 := left.(table := Some(t), cur := Some(t.init), next := Some(t.init), pre := None);
    var m2 := Callback(Entering(m1), true);
    RegEvents(m2, m2.cur, StateEvents(m2))
  }

  /** updateState. */
  function Update(m: Machine): Machine {
    var m1 := Callback(m.(inUpdate := true), true).(inUpdate := false);
    if m1.next.Some? && m1.next != m1.cur then SetCurrent(m1, m1.next.value) else m1
  }

  /** ---- Traces ---- */

  /** Enter and exit calls alternate, and each exit is of the state entered just before. */
  ghost predicate Alternates(t: seq<Call>) {
    t == [] ||
    (Alternates(t[..|t| - 1]) &&
     match t[|t| - 1]
     case Enter(_) => |t| % 2 == 1
     case Exit(s) => |t| % 2 == 0 && t[|t| - 2] == Enter(s))
  }

  function Enters(t: seq<Call>): nat {
    if t == [] then 0 else Enters(t[..|t| - 1]) + if t[|t| - 1].Enter? then 1 else 0
  }

  function Exits(t: seq<Call>): nat {
    if t == [] then 0 else Exits(t[..|t| - 1]) + if t[|t| - 1].Exit? then 1 else 0
  }

  lemma {:induction false} AlternatingCounts(t: seq<Call>)
    requires Alternates(t)
    ensures Enters(t) == Exits(t) + |t| % 2
  {
    if t != [] {
      AlternatingCounts(t[..|t| - 1]);
    }
  }

  lemma {:induction false} PrefixAlternates(t: seq<Call>, k: nat)
    requires Alternates(t) && k <= |t|
    ensures Alternates(t[..k])
    decreases |t|
  {
    if k < |t| {
      PrefixAlternates(t[..|t| - 1], k);
      assert t[..|t| - 1][..k] == t[..k];
    } else {
      assert t[..k] == t;
    }
  }

  /** At no time is more than one state entered. */
  lemma AtMostOneEntered(t: seq<Call>, k: nat)
    requires Alternates(t) && k <= |t|
    ensures 0 <= Enters(t[..k]) - Exits(t[..k]) <= 1
  {
    PrefixAlternates(t, k);
    AlternatingCounts(t[..k]);
  }

  lemma AlternatesEnter(t: seq<Call>, s: St)
    requires Alternates(t) && |t| % 2 == 0
    ensures Alternates(t + [Enter(s)])
  {
    assert (t + [Enter(s)])[..|t|] == t;
  }

  /** ---- Guarded callbacks ---- */

  ghost predicate Running(m: Machine) {
    m.table.Some? && m.cur.Some? && m.next.Some?
  }

  ghost predicate OnlyRaises(actions: seq<Action>) {
    forall i :: 0 <= i < |actions| ==> actions[i].Raise?
  }

  /** The pending state after the events of a guarded callback, and what is left of the script: an event that
  leads from the pending state back to the current one leaves the matter to its notification. */
  function Pend(t: Table, cur: St, next: St, actions: seq<Action>, script: seq<seq<Action>>)
      : (r: (St, seq<seq<Action>>))
    ensures |r.1| <= |script|
    decreases |script|, |actions|
  {
    if actions == [] then (next, script)
    else if actions[0].Switch? then Pend(t, cur, next, actions[1..], script)
    else
      var s := NextState(t, next, actions[0].event, actions[0].roll);
      if s != cur then Pend(t, cur, s, actions[1..], script)
      else
        var told := Notified(t, cur, next, script);
        Pend(t, cur, told.0, actions[1..], told.1)
  }

  /** The same after one notification. */
  function Notified(t: Table, cur: St, next: St, script: seq<seq<Action>>): (r: (St, seq<seq<Action>>))
    ensures |r.1| <= |script| && (script == [] || script[0] == [] ==> r.0 == next)
    decreases |script|, 0
  {
    if script == [] then (next, script) else Pend(t, cur, next, script[0], script[1..])
  }

  /** The machine with that pending state and script. */
  function Pended(m: Machine, p: (St, seq<seq<Action>>)): Machine {
    m.(next := Some(p.0), script := p.1)
  }

  /** The effect of an event sent inside a transition or an update: it sets the pending state, unless it leads
  to the current one; then only its notification may. */
  lemma GuardedEvent(m: Machine, e: Event, roll: real)
    requires Running(m) && (m.inSet || m.inUpdate)
    ensures var s := NextState(m.table.value, m.next.value, e, roll);
            SendEvent(m, e, roll) ==
            if m.cur != Some(s) then m.(next := Some(s))
            else Pended(m, Notified(m.table.value, m.cur.value, m.next.value, m.script))
    decreases |m.script|, 1, 0
  {
    var s := NextState(m.table.value, m.next.value, e, roll);
    if m.cur != Some(s) {
      assert SendEvent(m, e, roll) == SetCurrent(m, s);
    } else {
      GuardedCall(m, false);
    }
  }

  /** Inside a transition or an update, events only move the pending state. */
  lemma {:induction false} GuardedRun(m: Machine, actions: seq<Action>, maySwitch: bool)
    requires Running(m) && (m.inSet || m.inUpdate) && (maySwitch ==> OnlyRaises(actions))
    ensures RunActions(m, actions, maySwitch) ==
            Pended(m, Pend(m.table.value, m.cur.value, m.next.value, actions, m.script))
    decreases |m.script|, 2, |actions|
  {
    if actions != [] {
      var m1 := Act(m, actions[0], maySwitch);
      if actions[0].Raise? {
        GuardedEvent(m, actions[0].event, actions[0].roll);
        assert m1 == SendEvent(m, actions[0].event, actions[0].roll);
      } else {
        assert m1 == m;
      }
      GuardedRun(m1, actions[1..], maySwitch);
    }
  }

  lemma GuardedCall(m: Machine, maySwitch: bool)
    requires Running(m) && (m.inSet || m.inUpdate) && (maySwitch && m.script != [] ==> OnlyRaises(m.script[0]))
    ensures Callback(m, maySwitch) == Pended(m, Notified(m.table.value, m.cur.value, m.next.value, m.script))
    decreases |m.script|, 0, 0
  {
    if m.script != [] {
      GuardedRun(m.(script := m.script[1..]), m.script[0], maySwitch);
    }
  }

  lemma GuardedExit(m: Machine)
    requires Running(m) && (m.inSet || m.inUpdate)
    ensures var r := Callback(m, false);
            Running(r) && r == m.(next := r.next, script := r.script)
  {
    GuardedCall(m, false);
  }

  /** ---- The exit callback of an unguarded table switch ---- */

  ghost predicate Free(m: Machine) {
    Running(m) && !m.inSet && !m.inUpdate
  }

  /** What does not move the machine leaves it as it is. */
  lemma HarmlessCall(m: Machine)
    requires Free(m) && !CallMoves(m)
    ensures Callback(m, false) == m.(script := Callback(m, false).script)
    decreases |m.script|, 0, 0
  {
    if m.script != [] {
      HarmlessRun(m.(script := m.script[1..]), m.script[0]);
    }
  }

  lemma {:induction false} HarmlessRun(m: Machine, actions: seq<Action>)
    requires Free(m) && !RunMoves(m, actions)
    ensures RunActions(m, actions, false) == m.(script := RunActions(m, actions, false).script)
    decreases |m.script|, 2, |actions|
  {
    if actions != [] {
      HarmlessAct(m, actions[0]);
      HarmlessRun(Act(m, actions[0], false), actions[1..]);
    }
  }

  lemma HarmlessAct(m: Machine, a: Action)
    requires Free(m) && !ActMoves(m, a)
    ensures Act(m, a, false) == m.(script := Act(m, a, false).script)
    decreases |m.script|, 1, 0
  {
    if a.Raise? {
      assert Act(m, a, false) == SendEvent(m, a.event, a.roll) == Callback(m, false);
      HarmlessCall(m);
    }
  }

  /** The first event that moves the machine makes it leave the current state, a second time. */
  lemma MovingCallLeaves(m: Machine)
    requires Free(m) && CallMoves(m)
    ensures m.trace + [Exit(m.cur.value)] <= Callback(m, false).trace
    decreases |m.script|, 0, 0
  {
    MovingRunLeaves(m.(script := m.script[1..]), m.script[0]);
  }

  lemma {:induction false} MovingRunLeaves(m: Machine, actions: seq<Action>)
    requires Free(m) && RunMoves(m, actions)
    ensures m.trace + [Exit(m.cur.value)] <= RunActions(m, actions, false).trace
    decreases |m.script|, 2, |actions|
  {
    if ActMoves(m, actions[0]) {
      MovingActLeaves(m, actions[0]);
    } else {
      HarmlessAct(m, actions[0]);
      MovingRunLeaves(Act(m, actions[0], false), actions[1..]);
    }
  }

  lemma MovingActLeaves(m: Machine, a: Action)
    requires Free(m) && ActMoves(m, a)
    ensures m.trace + [Exit(m.cur.value)] <= Act(m, a, false).trace
    decreases |m.script|, 1, 0
  {
    var s := NextState(m.table.value, m.next.value, a.event, a.roll);
    if m.cur != Some(s) {
      var m0 := m.(next := Some(s), inSet := true);
      assert Act(m, a, false) == SendEvent(m, a.event, a.roll) == SetCurrent(m, s);
      assert SetCurrent(m, s) == Settle(m0, m0.table).(inSet := false);
    } else {
      assert Act(m, a, false) == SendEvent(m, a.event, a.roll) == Callback(m, false);
      MovingCallLeaves(m);
    }
  }

  /** ---- The invariant of every run ---- */

  /** Between callbacks: no table and nothing entered, or exactly the current state entered. */
  ghost predicate Entered(m: Machine) {
    && Alternates(m.trace)
    && (if m.table.None? then m.cur.None? && m.next.None? && |m.trace| % 2 == 0
        else Running(m) && |m.trace| % 2 == 1 && m.trace[|m.trace| - 1] == Enter(m.cur.value))
  }

  /** Moreover, outside transitions and updates nothing is pending. */
  ghost predicate Steady(m: Machine) {
    Entered(m) && (!m.inSet && !m.inUpdate ==> m.cur == m.next)
  }

  /** The trace alternates exactly as long as no stray exit has happened. */
  ghost predicate Inv(m: Machine) {
    if m.stray then !Alternates(m.trace) else Steady(m)
  }

  lemma PrefixTells(t: seq<Call>, k: nat)
    requires k <= |t|
    ensures Alternates(t) ==> Alternates(t[..k])
  {
    if Alternates(t) {
      PrefixAlternates(t, k);
    }
  }

  lemma StrayStays(m: Machine, r: Machine)
    requires Grows(m, r) && !Alternates(m.trace) && r.stray
    ensures Inv(r)
  {
    assert r.trace[..|m.trace|] == m.trace;
    PrefixTells(r.trace, |m.trace|);
  }

  lemma EnteringIsSteady(m: Machine)
    requires Running(m) && Alternates(m.trace) && |m.trace| % 2 == 0
    requires !m.inSet && !m.inUpdate ==> m.cur == m.next
    ensures Steady(Entering(m))
  {
    AlternatesEnter(m.trace, m.cur.value);
  }

  lemma CallbackInv(m: Machine, maySwitch: bool)
    requires Inv(m)
    ensures Inv(Callback(m, maySwitch))
    decreases |m.script|, 0, 0
  {
    if m.script != [] {
      RunActionsInv(m.(script := m.script[1..]), m.script[0], maySwitch);
    }
  }

  lemma {:induction false} RunActionsInv(m: Machine, actions: seq<Action>, maySwitch: bool)
    requires Inv(m)
    ensures Inv(RunActions(m, actions, maySwitch))
    decreases |m.script|, 6, |actions|
  {
    if actions != [] {
      ActInv(m, actions[0], maySwitch);
      RunActionsInv(Act(m, actions[0], maySwitch), actions[1..], maySwitch);
    }
  }

  lemma ActInv(m: Machine, a: Action, maySwitch: bool)
    requires Inv(m)
    ensures Inv(Act(m, a, maySwitch))
    decreases |m.script|, 5, 0
  {
    match a
    case Raise(e, roll) => SendEventInv(m, e, roll);
    case Switch(t) => SetTableInv(m, t);
  }

  lemma SendEventInv(m: Machine, e: Event, roll: real)
    requires Inv(m)
    ensures Inv(SendEvent(m, e, roll))
    decreases |m.script|, 4, 0
  {
    if m.stray {
      StrayStays(m, SendEvent(m, e, roll));
    } else if m.table.Some? {
      CallbackInv(m, false);
      SetCurrentInv(m, NextState(m.table.value, m.next.value, e, roll));
    }
  }

  /** An outermost transition ends with nothing pending and the guard cleared. */
  lemma SetCurrentInv(m: Machine, s: St)
    requires !m.stray && Entered(m) && m.table.Some?
    ensures Inv(SetCurrent(m, s))
    ensures !m.inSet && !m.inUpdate ==> var r := SetCurrent(m, s); !r.inSet && r.cur == r.next
    decreases |m.script|, 3, 0
  {
    if !m.inSet && !m.inUpdate {
      var m0 := m.(next := Some(s), inSet := true);
      assert Steady(m0);
      SettleInv(m0, m0.table);
    }
  }

  lemma {:induction false} SettleInv(m: Machine, known: Option<Table>)
    requires Inv(m) && (m.stray || m.inSet)
    ensures Inv(Settle(m, known)) && Settle(m, known).cur == Settle(m, known).next
    decreases |m.script|, 2, if m.cur == m.next then 0 else 1
  {
    if m.cur != m.next {
      var m1 := Hop(m);
      var m2 := if known == m1.table then RegEvents(m1, m1.cur, StateEvents(m1)) else m1;
      if m.stray {
        StrayStays(m, m2);
      } else {
        HopInv(m);
        if known == m1.table {
          RegEventsInv(m1, m1.cur, StateEvents(m1));
        }
      }
      SettleInv(m2, m1.table);
    }
  }

  lemma HopInv(m: Machine)
    requires !m.stray && Steady(m) && m.inSet && m.cur != m.next
    ensures Inv(Hop(m))
    decreases |m.script|, 1, 0
  {
    var m2 := Callback(Callback(Exiting(m), false), false);
    LeavingIsGuarded(m, m2);
    var m3 := m2.(pre := m2.cur, cur := m2.next);
    EnteringIsSteady(m3);
    CallbackInv(Entering(m3), true);
  }

  lemma LeavingIsGuarded(m: Machine, m2: Machine)
    requires Steady(m) && Running(m) && m.inSet
    requires m2 == Callback(Callback(Exiting(m), false), false)
    ensures Running(m2) && m2 == Exiting(m).(next := m2.next, script := m2.script)
    ensures Alternates(m2.trace) && |m2.trace| % 2 == 0
  {
    GuardedExit(Exiting(m));
    GuardedExit(Callback(Exiting(m), false));
    ExitAlternates(m.trace, m.cur.value);
  }

  lemma {:induction false} RegEventsInv(m: Machine, s: Option<St>, events: seq<Event>)
    requires Inv(m)
    ensures Inv(RegEvents(m, s, events))
    decreases |m.script|, 1, |events|
  {
    if events != [] {
      CallbackInv(m, true);
      var m1 := Callback(m, true);
      if m1.next == m1.cur && m1.cur == s {
        RegEventsInv(m1, s, events[1..]);
      }
    }
  }

  /** The exit half of a table switch. */
  lemma LeaveTable(m: Machine)
    requires !m.stray && Steady(m) && m.table.Some?
    ensures var r := Callback(Exiting(m), false);
            if ExitMoves(m) then !Alternates(r.trace)
            else Alternates(r.trace) && |r.trace| % 2 == 0 && !r.stray
  {
    if ExitMoves(m) {
      MovingLeave(m);
    } else {
      ExitAlternates(m.trace, m.cur.value);
      QuietLeave(m);
    }
  }

  lemma ExitAlternates(t: seq<Call>, s: St)
    requires Alternates(t) && |t| % 2 == 1 && t[|t| - 1] == Enter(s)
    ensures Alternates(t + [Exit(s)])
  {
    assert (t + [Exit(s)])[..|t|] == t;
  }

  lemma MovingLeave(m: Machine)
    requires Running(m) && ExitMoves(m)
    ensures !Alternates(Callback(Exiting(m), false).trace)
  {
    MovingCallLeaves(Exiting(m));
    TwoExits(m.trace, m.cur.value, Callback(Exiting(m), false).trace);
  }

  lemma QuietLeave(m: Machine)
    requires Running(m) && !ExitMoves(m)
    ensures var r := Callback(Exiting(m), false); r.trace == Exiting(m).trace && r.stray == m.stray
  {
    if m.inSet || m.inUpdate {
      GuardedExit(Exiting(m));
    } else {
      HarmlessCall(Exiting(m));
    }
  }

  lemma TwoExits(t: seq<Call>, s: St, t': seq<Call>)
    requires t + [Exit(s)] + [Exit(s)] <= t'
    ensures !Alternates(t')
  {
    var k := |t| + 2;
    var p := t'[..k];
    assert p == t + [Exit(s)] + [Exit(s)];
    assert p[..k - 1] == t + [Exit(s)] && p[k - 1] == Exit(s);
    PrefixTells(t', k);
  }

  lemma SetTableInv(m: Machine, t: Table)
    requires Inv(m)
    ensures Inv(SetTable(m, t))
    decreases |m.script|, 4, 0
  {
    var left := if m.table.Some? then Callback(Exiting(m), false).(stray := m.stray || ExitMoves(m)) else m;
    var m1 := left.(table := Some(t), cur := Some(t.init), next := Some(t.init), pre := None);
    var m2 := Callback(Entering(m1), true);
    if m.stray {
      StrayStays(m, SetTable(m, t));
    } else {
      if m.table.Some? {
        LeaveTable(m);
      }
      if left.stray {
        StrayStays(m1, SetTable(m, t));
      } else {
        EnteringIsSteady(m1);
        CallbackInv(Entering(m1), true);
        RegEventsInv(m2, m2.cur, StateEvents(m2));
      }
    }
  }

  lemma UpdateInv(m: Machine)
    requires Inv(m) && !m.inSet && !m.inUpdate
    ensures Inv(Update(m)) && Grows(m, Update(m))
  {
    var m0 := m.(inUpdate := true);
    var m1 := Callback(m0, true).(inUpdate := false);
    CallbackInv(m0, true);
    if m1.stray {
      StrayStays(m1, Update(m));
    } else if m1.next.Some? && m1.next != m1.cur {
      SetCurrentInv(m1, m1.next.value);
    }
  }

  /** Events raised in an update apply only after it returns: the update itself leaves the current
  state and the trace alone, and one transition to the pending state follows. */
  lemma UpdateDefers(m: Machine)
    requires Running(m) && !m.inUpdate && m.script != [] && OnlyRaises(m.script[0])
    ensures var m1 := Pended(m, Pend(m.table.value, m.cur.value, m.next.value, m.script[0], m.script[1..]));
            Update(m) == if m1.cur != m1.next then SetCurrent(m1, m1.next.value) else m1
  {
    GuardedCall(m.(inUpdate := true), true);
  }

  /** ---- Transitions step by step ---- */

  /** What is left of a script after n callbacks. */
  function Drop(script: seq<seq<Action>>, n: nat): seq<seq<Action>> {
    if n <= |script| then script[n..] else []
  }

  lemma DropMore(script: seq<seq<Action>>, i: nat, n: nat)
    ensures Drop(Drop(script, i), n) == Drop(script, i + n)
  {
  }

  /** Callbacks that do nothing. */
  ghost predicate Silent(script: seq<seq<Action>>) {
    forall i :: 0 <= i < |script| ==> script[i] == []
  }

  /** How many events are collected when a state is registered. */
  function EventCount(t: Table, s: St): nat {
    if s in t.stateEvents then |t.stateEvents[s]| else 0
  }

  /** Out of the current state once, into another once, after n callbacks. */
  ghost predicate MovedTo(m: Machine, s: St, n: nat, r: Machine) {
    && m.cur.Some?
    && r.cur == r.next == Some(s) && r.pre == m.cur
    && r.trace == m.trace + [Exit(m.cur.value), Enter(s)]
    && r.script == Drop(m.script, n)
    && r.table == m.table && r.inSet == m.inSet && r.inUpdate == m.inUpdate && r.stray == m.stray
  }

  /** After n callbacks everything else is as it was. */
  ghost predicate Stayed(m: Machine, n: nat, r: Machine) {
    r == m.(script := Drop(m.script, n))
  }

  /** An entry takes effect unless its chance is below 100 and the roll above it.  Then three callbacks tell of the
  leaving, of the change and of the entering, and one each collects the events of the new state; an entry
  without effect, or one that leads to the current state, is only told of. */
  ghost predicate Follows(m: Machine, entry: Transit, roll: real, r: Machine)
    requires Running(m)
  {
    if (entry.probability >= 100.0 || roll <= entry.probability) && entry.state != m.cur.value
    then MovedTo(m, entry.state, 3 + EventCount(m.table.value, entry.state), r)
    else Stayed(m, 1, r)
  }

  /** What an event does, by the table: the current state's own entry decides, whatever the global table holds;
  without one the global entry does; without either nothing happens. */
  ghost predicate ByTable(m: Machine, e: Event, roll: real, r: Machine)
    requires Running(m)
  {
    var t, c := m.table.value, m.cur.value;
    && (c in t.transits && e in t.transits[c] ==> Follows(m, t.transits[c][e], roll, r))
    && (!(c in t.transits && e in t.transits[c]) && e in t.globals ==> Follows(m, t.globals[e], roll, r))
    && (!(c in t.transits && e in t.transits[c]) && e !in t.globals ==> Stayed(m, 1, r))
  }

  lemma SilentCall(m: Machine, maySwitch: bool)
    requires Silent(m.script)
    ensures Stayed(m, 1, Callback(m, maySwitch)) && Silent(Callback(m, maySwitch).script)
  {
  }

  lemma {:induction false} SilentEvents(m: Machine, events: seq<Event>)
    requires Silent(m.script) && m.cur == m.next
    ensures Stayed(m, |events|, RegEvents(m, m.cur, events))
    decreases |events|
  {
    if events != [] {
      SilentCall(m, true);
      SilentEvents(Callback(m, true), events[1..]);
    }
  }

  /** The last round of a transition, when its callbacks do nothing. */
  lemma SilentSettle(m: Machine)
    requires Running(m) && Silent(m.script) && m.cur != m.next
    ensures MovedTo(m, m.next.value, 3 + EventCount(m.table.value, m.next.value), Settle(m, m.table))
  {
    var m1 := Callback(Exiting(m), false);
    SilentCall(Exiting(m), false);
    var m2 := Callback(m1, false);
    SilentCall(m1, false);
    var m3 := Entering(m2.(pre := m2.cur, cur := m2.next));
    SilentCall(m3, true);
    var m4 := Callback(m3, true);
    assert m4 == Hop(m);
    SilentEvents(m4, StateEvents(m4));
    var m5 := RegEvents(m4, m4.cur, StateEvents(m4));
    assert Settle(m, m.table) == Settle(m5, m.table) == m5;
  }

  lemma SilentTransition(m: Machine, s: St)
    requires Free(m) && Silent(m.script) && m.cur != Some(s)
    ensures MovedTo(m, s, 3 + EventCount(m.table.value, s), SetCurrent(m, s))
  {
    SilentSettle(m.(next := Some(s), inSet := true));
  }

  /** A transition whose callbacks do nothing: out of the current state, into the next, once. */
  lemma QuietTransition(m: Machine, e: Event, roll: real)
    requires Free(m) && m.cur == m.next && Silent(m.script)
    ensures ByTable(m, e, roll, SendEvent(m, e, roll))
  {
    var s := NextState(m.table.value, m.cur.value, e, roll);
    if m.cur != Some(s) {
      assert SendEvent(m, e, roll) == SetCurrent(m, s);
      SilentTransition(m, s);
    } else {
      SilentCall(m, false);
    }
  }

  /** A callback does all it has to do, one thing after the other. */
  lemma {:induction false} ActionsInTurn(m: Machine, first: seq<Action>, then': seq<Action>, maySwitch: bool)
    ensures RunActions(m, first + then', maySwitch) == RunActions(RunActions(m, first, maySwitch), then', maySwitch)
    decreases |first|
  {
    if first == [] {
      assert first + then' == then';
    } else {
      assert (first + then')[1..] == first[1..] + then';
      ActionsInTurn(Act(m, first[0], maySwitch), first[1..], then', maySwitch);
    }
  }

  /** Only the callback number k does anything. */
  ghost predicate OnlyCall(script: seq<seq<Action>>, k: nat, a: Action) {
    && k < |script| && script[k] == [a]
    && forall i :: 0 <= i < |script| && i != k ==> script[i] == []
  }

  /** Into s first, and from there into s'. */
  ghost predicate MovedThrough(m: Machine, s: St, s': St, n: nat, r: Machine) {
    && m.cur.Some?
    && r.cur == r.next == Some(s') && r.pre == Some(s)
    && r.trace == m.trace + [Exit(m.cur.value), Enter(s), Exit(s), Enter(s')]
    && r.script == Drop(m.script, n)
    && r.table == m.table && r.inSet == m.inSet && r.inUpdate == m.inUpdate && r.stray == m.stray
  }

  /** A transition into s, one of whose callbacks, number k, sends an event that leads from s to s'.  Sent on leaving
  or on the notification, it turns the transition aside: s is never entered, unless s' is the state being
  left; then it is only told of.  Sent on entering s or on the collection of its events, it leads on: s is
  entered and left again, and what is left to collect is not. */
  ghost predicate Answered(m: Machine, s: St, k: nat, s': St, r: Machine)
    requires Running(m)
  {
    var n, n' := EventCount(m.table.value, s), EventCount(m.table.value, s');
    if k < 2 then
      if m.cur != Some(s') then MovedTo(m, s', 3 + n', r) else MovedTo(m, s, 4 + n, r)
    else if s' == s then MovedTo(m, s, 4 + n, r)
    else MovedThrough(m, s, s', (if k > 2 then k + 1 else if n > 0 then 4 else 3) + 3 + n', r)
  }

  /** A guarded callback that sends one event. */
  lemma SendingCall(m: Machine, maySwitch: bool, e: Event, roll: real)
    requires Running(m) && (m.inSet || m.inUpdate) && OnlyCall(m.script, 0, Raise(e, roll))
    ensures var s', r := NextState(m.table.value, m.next.value, e, roll), Callback(m, maySwitch);
            && Silent(r.script)
            && r == m.(next := if m.cur == Some(s') then m.next else Some(s'),
                       script := Drop(m.script, if m.cur == Some(s') then 2 else 1))
  {
    var m1 := m.(script := m.script[1..]);
    var s' := NextState(m.table.value, m.next.value, e, roll);
    assert Callback(m, maySwitch) == SendEvent(m1, e, roll) by {
      assert m.script[0][1..] == [];
      assert RunActions(m1, m.script[0], maySwitch) == RunActions(Act(m1, m.script[0][0], maySwitch), [], maySwitch);
    }
    if m.cur != Some(s') {
      assert SendEvent(m1, e, roll) == SetCurrent(m1, s');
    } else {
      SilentCall(m1, false);
    }
  }

  lemma IdleCall(m: Machine, maySwitch: bool, k: nat, a: Action)
    requires OnlyCall(m.script, k, a) && k > 0
    ensures Stayed(m, 1, Callback(m, maySwitch)) && OnlyCall(Callback(m, maySwitch).script, k - 1, a)
  {
  }

  lemma AnsweredOnExit(m: Machine, e: Event, roll: real)
    requires Running(m) && m.inSet && m.cur != m.next && OnlyCall(m.script, 0, Raise(e, roll))
    ensures Answered(m, m.next.value, 0, NextState(m.table.value, m.next.value, e, roll), Settle(m, m.table))
  {
    var m1 := Callback(Exiting(m), false);
    SendingCall(Exiting(m), false, e, roll);
    var m2 := Callback(m1, false);
    SilentCall(m1, false);
    var m3 := Entering(m2.(pre := m2.cur, cur := m2.next));
    SilentCall(m3, true);
    var m4 := Callback(m3, true);
    assert m4 == Hop(m);
    SilentEvents(m4, StateEvents(m4));
    var m5 := RegEvents(m4, m4.cur, StateEvents(m4));
    assert Settle(m, m.table) == Settle(m5, m.table) == m5;
  }

  lemma SendingSecond(m: Machine, e: Event, roll: real)
    requires Running(m) && m.inSet && OnlyCall(m.script, 1, Raise(e, roll))
    ensures var s', r := NextState(m.table.value, m.next.value, e, roll), Callback(Callback(m, false), false);
            && Silent(r.script)
            && r == m.(next := if m.cur == Some(s') then m.next else Some(s'),
                       script := Drop(m.script, if m.cur == Some(s') then 3 else 2))
  {
    IdleCall(m, false, 1, Raise(e, roll));
    SendingCall(Callback(m, false), false, e, roll);
  }

  lemma AnsweredOnChange(m: Machine, e: Event, roll: real)
    requires Running(m) && m.inSet && m.cur != m.next && OnlyCall(m.script, 1, Raise(e, roll))
    ensures Answered(m, m.next.value, 1, NextState(m.table.value, m.next.value, e, roll), Settle(m, m.table))
  {
    var m2 := Callback(Callback(Exiting(m), false), false);
    SendingSecond(Exiting(m), e, roll);
    var m3 := Entering(m2.(pre := m2.cur, cur := m2.next));
    SilentCall(m3, true);
    var m4 := Callback(m3, true);
    assert m4 == Hop(m);
    SilentEvents(m4, StateEvents(m4));
    var m5 := RegEvents(m4, m4.cur, StateEvents(m4));
    assert Settle(m, m.table) == Settle(m5, m.table) == m5;
  }

  /** The collection stops where an event moves the machine. */
  lemma {:induction false} AnsweredOnCollecting(m: Machine, events: seq<Event>, k: nat, e: Event, roll: real)
    requires Running(m) && m.inSet && m.cur == m.next && OnlyCall(m.script, k, Raise(e, roll)) && k < |events|
    ensures var s', r := NextState(m.table.value, m.next.value, e, roll), RegEvents(m, m.cur, events);
            && Silent(r.script)
            && r == m.(next := Some(s'), script := Drop(m.script, if m.cur == Some(s') then |events| + 1 else k + 1))
    decreases |events|
  {
    var m1 := Callback(m, true);
    if k == 0 {
      SendingCall(m, true, e, roll);
      if m1.next == m1.cur {
        SilentEvents(m1, events[1..]);
      }
    } else {
      IdleCall(m, true, k, Raise(e, roll));
      AnsweredOnCollecting(m1, events[1..], k - 1, e, roll);
    }
  }

  /** A round of a transition whose first two callbacks do nothing. */
  lemma IdleLeaving(m: Machine, k: nat, a: Action)
    requires Running(m) && m.cur != m.next && OnlyCall(m.script, k, a) && k >= 2
    ensures var m3 := Entering(Exiting(m).(pre := m.cur, cur := m.next, script := m.script[2..]));
            && OnlyCall(m3.script, k - 2, a) && Hop(m) == Callback(m3, true)
  {
    var m1 := Callback(Exiting(m), false);
    IdleCall(Exiting(m), false, k, a);
    IdleCall(m1, false, k - 1, a);
    assert Callback(m1, false) == Exiting(m).(script := m.script[2..]);
  }

  /** All events are collected when nothing is pending, and the first one at most otherwise. */
  lemma FirstEvent(m: Machine, events: seq<Event>)
    requires Silent(m.script)
    ensures var n := if m.next == m.cur || events == [] then |events| else 1;
            Stayed(m, n, RegEvents(m, m.cur, events)) && Silent(RegEvents(m, m.cur, events).script)
  {
    if m.next == m.cur {
      SilentEvents(m, events);
    } else if events != [] {
      PendingStops(m, events);
    }
  }

  lemma PendingStops(m: Machine, events: seq<Event>)
    requires Silent(m.script) && m.next != m.cur && events != []
    ensures Stayed(m, 1, RegEvents(m, m.cur, events)) && Silent(RegEvents(m, m.cur, events).script)
  {
    SilentCall(m, true);
    assert RegEvents(m, m.cur, events) == Callback(m, true);
  }

  /** How many callbacks there are from the entering on, if number k of them moves the machine or does not. */
  function Calls(n: nat, k: nat, moves: bool): nat {
    if !moves then 2 + n else if k > 0 then k + 1 else if n > 0 then 2 else 1
  }

  lemma SentOnEnter(m: Machine, m4: Machine, e: Event, roll: real)
    requires Running(m) && m.inSet && m.cur == m.next && OnlyCall(m.script, 0, Raise(e, roll))
    requires m4 == Callback(m, true)
    ensures var s', n := NextState(m.table.value, m.cur.value, e, roll), EventCount(m.table.value, m.cur.value);
            var r := RegEvents(m4, m4.cur, StateEvents(m4));
            && m4.table == m.table && Silent(r.script)
            && r == m.(next := Some(s'), script := Drop(m.script, Calls(n, 0, m.cur != Some(s'))))
  {
    SendingCall(m, true, e, roll);
    FirstEvent(m4, StateEvents(m4));
  }

  lemma SentOnCollect(m: Machine, m4: Machine, k: nat, e: Event, roll: real)
    requires Running(m) && m.inSet && m.cur == m.next && OnlyCall(m.script, k, Raise(e, roll))
    requires 0 < k < 1 + EventCount(m.table.value, m.cur.value) && m4 == Callback(m, true)
    ensures var s', n := NextState(m.table.value, m.cur.value, e, roll), EventCount(m.table.value, m.cur.value);
            var r := RegEvents(m4, m4.cur, StateEvents(m4));
            && m4.table == m.table && Silent(r.script)
            && r == m.(next := Some(s'), script := Drop(m.script, Calls(n, k, m.cur != Some(s'))))
  {
    IdleCall(m, true, k, Raise(e, roll));
    AnsweredOnCollecting(m4, StateEvents(m4), k - 1, e, roll);
  }

  /** With a second round, into the state the event leads to, or without. */
  lemma LedOn(m: Machine, m5: Machine, k: nat, s: St, s': St, r: Machine)
    requires Running(m) && k >= 2 && m.next == Some(s)
    requires m5 == m.(pre := m.cur, cur := Some(s), next := Some(s'),
                      script := Drop(m.script, 2 + Calls(EventCount(m.table.value, s), k - 2, s != s')),
                      trace := m.trace + [Exit(m.cur.value)] + [Enter(s)])
    requires s == s' ==> r == m5
    requires s != s' ==> MovedTo(m5, s', 3 + EventCount(m.table.value, s'), r)
    ensures Answered(m, s, k, s', r)
  {
    if s != s' {
      DropMore(m.script, 2 + Calls(EventCount(m.table.value, s), k - 2, true), 3 + EventCount(m.table.value, s'));
    }
  }

  /** The rest of a round in which only the callback number k, from the entering on, does something. */
  lemma SentOnArrival(m: Machine, m4: Machine, m5: Machine, k: nat, e: Event, roll: real)
    requires Running(m) && m.inSet && m.cur == m.next && OnlyCall(m.script, k, Raise(e, roll))
    requires k < 1 + EventCount(m.table.value, m.cur.value)
    requires m4 == Callback(m, true) && m5 == RegEvents(m4, m4.cur, StateEvents(m4))
    ensures var s', n := NextState(m.table.value, m.cur.value, e, roll), EventCount(m.table.value, m.cur.value);
            && m4.table == m.table && Silent(m5.script)
            && m5 == m.(next := Some(s'), script := Drop(m.script, Calls(n, k, m.cur != Some(s'))))
  {
    if k == 0 {
      SentOnEnter(m, m4, e, roll);
    } else {
      SentOnCollect(m, m4, k, e, roll);
    }
  }

  lemma AnsweredOnEntering(m: Machine, m3: Machine, m4: Machine, m5: Machine, k: nat, e: Event, roll: real)
    requires Running(m) && m.inSet && m.cur != m.next && OnlyCall(m.script, k, Raise(e, roll))
    requires 2 <= k < 3 + EventCount(m.table.value, m.next.value)
    requires m3 == Entering(Exiting(m).(pre := m.cur, cur := m.next, script := m.script[2..]))
    requires m4 == Hop(m) && m5 == RegEvents(m4, m4.cur, StateEvents(m4))
    ensures m4.table == m.table
    ensures var s', n := NextState(m.table.value, m.next.value, e, roll), EventCount(m.table.value, m.next.value);
            && Silent(m5.script)
            && m5 == m3.(next := Some(s'), script := Drop(m.script, 2 + Calls(n, k - 2, m.next != Some(s'))))
  {
    IdleLeaving(m, k, Raise(e, roll));
    SentOnArrival(m3, m4, m5, k - 2, e, roll);
    var moves := m.next != Some(NextState(m.table.value, m.next.value, e, roll));
    DropMore(m.script, 2, Calls(EventCount(m.table.value, m.next.value), k - 2, moves));
  }

  lemma SettlesFrom(m: Machine, m4: Machine, m5: Machine)
    requires m.cur != m.next && m4 == Hop(m) && m4.table == m.table
    requires m5 == RegEvents(m4, m4.cur, StateEvents(m4))
    ensures Settle(m, m.table) == Settle(m5, m.table)
  {
  }

  lemma LastRound(m: Machine)
    requires Running(m) && Silent(m.script)
    ensures m.cur == m.next ==> Settle(m, m.table) == m
    ensures m.cur != m.next ==>
              MovedTo(m, m.next.value, 3 + EventCount(m.table.value, m.next.value), Settle(m, m.table))
  {
    if m.cur != m.next {
      SilentSettle(m);
    }
  }

  lemma FirstRound(m: Machine, k: nat, e: Event, roll: real) returns (m5: Machine)
    requires Running(m) && m.inSet && m.cur != m.next && OnlyCall(m.script, k, Raise(e, roll))
    requires 2 <= k < 3 + EventCount(m.table.value, m.next.value)
    ensures var s', n := NextState(m.table.value, m.next.value, e, roll), EventCount(m.table.value, m.next.value);
            && Silent(m5.script)
            && m5 == m.(pre := m.cur, cur := m.next, next := Some(s'),
                        script := Drop(m.script, 2 + Calls(n, k - 2, m.next != Some(s'))),
                        trace := m.trace + [Exit(m.cur.value)] + [Enter(m.next.value)])
    ensures Settle(m, m.table) == Settle(m5, m.table)
  {
    var m3 := Entering(Exiting(m).(pre := m.cur, cur := m.next, script := m.script[2..]));
    var m4 := Hop(m);
    m5 := RegEvents(m4, m4.cur, StateEvents(m4));
    AnsweredOnEntering(m, m3, m4, m5, k, e, roll);
    SettlesFrom(m, m4, m5);
  }

  lemma AnsweredLater(m: Machine, k: nat, e: Event, roll: real)
    requires Running(m) && m.inSet && m.cur != m.next && OnlyCall(m.script, k, Raise(e, roll))
    requires 2 <= k < 3 + EventCount(m.table.value, m.next.value)
    ensures Answered(m, m.next.value, k, NextState(m.table.value, m.next.value, e, roll), Settle(m, m.table))
  {
    var m5 := FirstRound(m, k, e, roll);
    LastRound(m5);
    LedOn(m, m5, k, m.next.value, NextState(m.table.value, m.next.value, e, roll), Settle(m, m.table));
  }

  lemma TransitionAnswered(m: Machine, s: St, k: nat, e: Event, roll: real)
    requires Free(m) && m.cur != Some(s)
    requires OnlyCall(m.script, k, Raise(e, roll)) && k < 3 + EventCount(m.table.value, s)
    ensures Answered(m, s, k, NextState(m.table.value, s, e, roll), SetCurrent(m, s))
  {
    var m0 := m.(next := Some(s), inSet := true);
    if k == 0 {
      AnsweredOnExit(m0, e, roll);
    } else if k == 1 {
      AnsweredOnChange(m0, e, roll);
    } else {
      AnsweredLater(m0, k, e, roll);
    }
  }

  lemma SilentStaysPut(m: Machine)
    requires Silent(m.script)
    ensures !CallMoves(m)
  {
    if m.script != [] {
      assert m.script[0] == [];
    }
  }

  lemma SilentLeave(m: Machine)
    requires Silent(m.script)
    ensures Stayed(Exiting(m), 1, Callback(Exiting(m), false)) && !ExitMoves(m)
    ensures Silent(Callback(Exiting(m), false).script)
  {
    SilentCall(Exiting(m), false);
    SilentStaysPut(Exiting(m));
  }

  /** A table switch whose callbacks do nothing: out of the old table, if there is one, and into the initial state
  of the new one, whose events are collected. */
  lemma SilentSwitch(m: Machine, t: Table)
    requires Silent(m.script) && (m.table.Some? ==> m.cur.Some?)
    ensures var r := SetTable(m, t);
            && r.table == Some(t) && r.cur == r.next == Some(t.init) && r.pre == None
            && r.trace == m.trace + (if m.table.Some? then [Exit(m.cur.value)] else []) + [Enter(t.init)]
            && r.script == Drop(m.script, (if m.table.Some? then 2 else 1) + EventCount(t, t.init))
            && r.inSet == m.inSet && r.inUpdate == m.inUpdate && r.stray == m.stray
  {
    SilentLeave(m);
    var left := if m.table.Some? then Callback(Exiting(m), false) else m;
    var m1 := Entering(left.(table := Some(t), cur := Some(t.init), next := Some(t.init), pre := None));
    SilentArrival(m1);
    DropMore(m.script, 1, 1 + EventCount(t, t.init));
  }

  /** The callback on entering and the collection of events, when they do nothing. */
  lemma SilentArrival(m: Machine)
    requires Running(m) && Silent(m.script) && m.cur == m.next
    ensures var m2 := Callback(m, true);
            Stayed(m, 1 + EventCount(m.table.value, m.cur.value), RegEvents(m2, m2.cur, StateEvents(m2)))
  {
    SilentCall(m, true);
    var m2 := Callback(m, true);
    SilentEvents(m2, StateEvents(m2));
    DropMore(m.script, 1, EventCount(m.table.value, m.cur.value));
  }

  lemma SwitchingCall(m: Machine, t: Table)
    requires Running(m) && OnlyCall(m.script, 0, Switch(t))
    ensures Callback(m, true) == SetTable(m.(script := m.script[1..]), t)
  {
    var m1 := m.(script := m.script[1..]);
    assert m.script[0][1..] == [];
    assert RunActions(m1, m.script[0], true) == RunActions(Act(m1, m.script[0][0], true), [], true);
  }

  /** Into s, and out of it again into the initial state of another table, after n callbacks. */
  ghost predicate SwitchedFrom(m: Machine, s: St, t: Table, n: nat, r: Machine) {
    && m.cur.Some?
    && r.table == Some(t) && r.cur == r.next == Some(t.init) && r.pre == None
    && r.trace == m.trace + [Exit(m.cur.value), Enter(s), Exit(s), Enter(t.init)]
    && r.script == Drop(m.script, n)
    && r.inSet == m.inSet && r.inUpdate == m.inUpdate && r.stray == m.stray
  }

  lemma HopSwitched(m: Machine, t: Table) returns (r: Machine)
    requires Running(m) && m.inSet && m.cur != m.next && OnlyCall(m.script, 2, Switch(t))
    ensures r == Hop(m) && Silent(r.script) && SwitchedFrom(m, m.next.value, t, 5 + EventCount(t, t.init), r)
  {
    IdleLeaving(m, 2, Switch(t));
    var m3 := Entering(Exiting(m).(pre := m.cur, cur := m.next, script := m.script[2..]));
    SwitchingCall(m3, t);
    var m4 := m3.(script := m.script[3..]);
    SilentSwitch(m4, t);
    r := SetTable(m4, t);
    DropMore(m.script, 3, 2 + EventCount(t, t.init));
  }

  /** The round of a transition into s in which entering s switches tables: s is left at once for the initial
  state of the new table, whose events the switch collects; the transition does not collect them again, unless
  the table is the one it began with. */
  lemma RoundSwitched(m: Machine, t: Table)
    requires Running(m) && m.inSet && m.cur != m.next && OnlyCall(m.script, 2, Switch(t))
    ensures var n := EventCount(t, t.init);
            SwitchedFrom(m, m.next.value, t, 5 + n + (if m.table == Some(t) then n else 0), Settle(m, m.table))
  {
    var m5 := HopSwitched(m, t);
    if m.table == Some(t) {
      SilentEvents(m5, StateEvents(m5));
      DropMore(m.script, 5 + EventCount(t, t.init), EventCount(t, t.init));
      SwitchSettles(m, m5, RegEvents(m5, m5.cur, StateEvents(m5)));
    } else {
      SwitchSettles(m, m5, m5);
    }
  }

  /** Entering a state whose callback switches tables. */
  lemma TransitionSwitched(m: Machine, s: St, t: Table)
    requires Free(m) && m.cur != Some(s) && OnlyCall(m.script, 2, Switch(t))
    ensures var n := EventCount(t, t.init);
            SwitchedFrom(m, s, t, 5 + n + (if m.table == Some(t) then n else 0), SetCurrent(m, s))
  {
    RoundSwitched(m.(next := Some(s), inSet := true), t);
  }

  lemma SwitchSettles(m: Machine, m5: Machine, r: Machine)
    requires m.cur != m.next && m5 == Hop(m) && r.cur == r.next
    requires r == if m.table == m5.table then RegEvents(m5, m5.cur, StateEvents(m5)) else m5
    ensures Settle(m, m.table) == r
  {
  }

  /** Out of the old table and into the initial state of the new one, after n callbacks. */
  ghost predicate SwitchedTo(m: Machine, t: Table, n: nat, r: Machine) {
    && m.cur.Some?
    && r.table == Some(t) && r.cur == r.next == Some(t.init) && r.pre == None
    && r.trace == m.trace + [Exit(m.cur.value), Enter(t.init)]
    && r.script == Drop(m.script, n)
    && r.inSet == m.inSet && r.inUpdate == m.inUpdate && r.stray == m.stray
  }

  /** The rest of a collection. */
  lemma CollectingEnds(m: Machine, s: Option<St>, events: seq<Event>)
    requires Silent(m.script) && m.cur == m.next
    ensures var r := if m.cur != s then m else RegEvents(m, s, events);
            Stayed(m, if m.cur != s then 0 else |events|, r)
  {
    if m.cur == s {
      SilentEvents(m, events);
    }
  }

  lemma SwitchCollected(m: Machine, m1: Machine, t: Table)
    requires Running(m) && OnlyCall(m.script, 0, Switch(t)) && m1 == Callback(m, true)
    ensures SwitchedTo(m, t, 3 + EventCount(t, t.init), m1) && Silent(m1.script)
  {
    SwitchingCall(m, t);
    SilentSwitch(m.(script := m.script[1..]), t);
    DropMore(m.script, 1, 2 + EventCount(t, t.init));
  }

  lemma SwitchedAtOnce(m: Machine, events: seq<Event>, t: Table)
    requires Running(m) && OnlyCall(m.script, 0, Switch(t)) && events != []
    ensures var n := if m.cur == Some(t.init) then |events| - 1 else 0;
            SwitchedTo(m, t, 3 + EventCount(t, t.init) + n, RegEvents(m, m.cur, events))
  {
    var m1 := Callback(m, true);
    SwitchCollected(m, m1, t);
    CollectingEnds(m1, m.cur, events[1..]);
    DropMore(m.script, 3 + EventCount(t, t.init), |events[1..]|);
  }

  /** The collection of events also stops where a callback switches tables, unless the initial state of the new table
  is the state the events of which are being collected. */
  lemma {:induction false} SwitchedOnCollecting(m: Machine, events: seq<Event>, k: nat, t: Table)
    requires Running(m) && m.cur == m.next && OnlyCall(m.script, k, Switch(t)) && k < |events|
    ensures var n := if m.cur == Some(t.init) then |events| - (k + 1) else 0;
            SwitchedTo(m, t, k + 3 + EventCount(t, t.init) + n, RegEvents(m, m.cur, events))
    decreases |events|
  {
    if k == 0 {
      SwitchedAtOnce(m, events, t);
    } else {
      IdleCall(m, true, k, Switch(t));
      SwitchedOnCollecting(Callback(m, true), events[1..], k - 1, t);
      DropMore(m.script, 1, k + 2 + EventCount(t, t.init) + if m.cur == Some(t.init) then |events| - (k + 1) else 0);
    }
  }

  /** An update whose callback sends one event: it is looked up once, and followed when the update has returned. */
  lemma UpdateAnswered(m: Machine, e: Event, roll: real)
    requires Free(m) && m.cur == m.next && OnlyCall(m.script, 0, Raise(e, roll))
    ensures var s := NextState(m.table.value, m.cur.value, e, roll);
            if m.cur == Some(s) then Stayed(m, 2, Update(m))
            else MovedTo(m, s, 4 + EventCount(m.table.value, s), Update(m))
  {
    SendingCall(m.(inUpdate := true), true, e, roll);
    var m1 := Callback(m.(inUpdate := true), true).(inUpdate := false);
    if m1.next != m1.cur {
      SilentTransition(m1, m1.next.value);
      DropMore(m.script, 1, 3 + EventCount(m.table.value, m1.next.value));
    }
  }

  /** The destructor: it leaves the current state. */
  function Destroyed(m: Machine): Machine {
    if m.cur.Some? then Callback(Exiting(m), false) else m
  }

  /** A destruction whose callback does nothing. */
  lemma SilentDestruction(m: Machine)
    requires Silent(m.script) && m.cur.Some?
    ensures Destroyed(m) == m.(trace := m.trace + [Exit(m.cur.value)], script := Drop(m.script, 1))
  {
    SilentCall(Exiting(m), false);
  }

  /** Destruction leaves whatever was entered, and nothing twice, exactly when the last exit callback
  does not move the machine. */
  lemma DestroyedLeavesAll(m: Machine)
    requires !m.stray && Steady(m)
    ensures var t := Destroyed(m).trace;
            (Alternates(t) && Enters(t) == Exits(t)) <==> !ExitMoves(m)
  {
    if m.table.Some? {
      LeaveTable(m);
    }
    if Alternates(Destroyed(m).trace) {
      AlternatingCounts(Destroyed(m).trace);
    }
  }

  /** ---- Whole runs ---- */

  datatype Op = Send(event: Event, roll: real) | SwitchTo(table: Table) | UpdateState

  function Start(script: seq<seq<Action>>): Machine {
    Machine(None, None, None, None, false, false, script, [], false)
  }

  function Apply(m: Machine, op: Op): Machine {
    match op
    case Send(e, roll) => SendEvent(m, e, roll)
    case SwitchTo(t) => SetTable(m, t)
    case UpdateState => if m.cur.Some? then Update(m) else m
  }

  function Run(m: Machine, ops: seq<Op>): Machine
    decreases |ops|
  {
    if ops == [] then m else Run(Apply(m, ops[0]), ops[1..])
  }

  lemma {:induction false} RunInv(m: Machine, ops: seq<Op>)
    requires Inv(m) && !m.inSet && !m.inUpdate
    ensures var r := Run(m, ops); Inv(r) && !r.inSet && !r.inUpdate
    decreases |ops|
  {
    if ops != [] {
      var m1 := Apply(m, ops[0]);
      match ops[0] {
        case Send(e, roll) => SendEventInv(m, e, roll);
        case SwitchTo(t) => SetTableInv(m, t);
        case UpdateState => if m.cur.Some? { UpdateInv(m); }
      }
      RunInv(m1, ops[1..]);
    }
  }

  /** On every run, whatever the callbacks do: the trace of enter and exit calls alternates exactly
  when no table switch made outside a transition had an exit callback that moved the machine; then
  at most one state is entered at any time, the last one entered is the current one, the guards are
  clear and nothing is pending. */
  lemma EveryRunAlternates(script: seq<seq<Action>>, ops: seq<Op>)
    ensures var r := Run(Start(script), ops);
            && (Alternates(r.trace) <==> !r.stray)
            && !r.inSet && !r.inUpdate
            && (!r.stray ==>
                  && r.cur == r.next
                  && (forall k :: 0 <= k <= |r.trace| ==> 0 <= Enters(r.trace[..k]) - Exits(r.trace[..k]) <= 1)
                  && (r.table.Some? ==> r.cur.Some? && r.trace != [] && r.trace[|r.trace| - 1] == Enter(r.cur.value)))
  {
    RunInv(Start(script), ops);
    var r := Run(Start(script), ops);
    if !r.stray {
      forall k | 0 <= k <= |r.trace|
        ensures 0 <= Enters(r.trace[..k]) - Exits(r.trace[..k]) <= 1
      {
        AtMostOneEntered(r.trace, k);
      }
    }
  }

  /** ---- The object ---- */

  class StateMachine {
    var table: Option<Table>
    var cur: Option<St>
    var pre: Option<St>
    var next: Option<St>
    var inSet: bool
    var inUpdate: bool
    var script: seq<seq<Action>>        // what the callbacks will do
    ghost var trace: seq<Call>
    ghost var stray: bool

    ghost function View(): Machine
      reads this
    {
      Machine(table, cur, pre, next, inSet, inUpdate, script, trace, stray)
    }

    constructor (script: seq<seq<Action>>)
      ensures View() == Start(script)
    {
      table, cur, pre, next := None, None, None, None;
      inSet, inUpdate, this.script := false, false, script;
      trace, stray := [], false;
    }

    method RunCallback(maySwitch: bool)
      modifies this
      ensures View() == Callback(old(View()), maySwitch)
      decreases |script|, 0, 0
    {
      if script != [] {
        var actions := script[0];
        script := script[1..];
        DoActions(actions, maySwitch);
      }
    }

    method DoActions(actions: seq<Action>, maySwitch: bool)
      modifies this
      ensures View() == RunActions(old(View()), actions, maySwitch)
      decreases |script|, 6, |actions|
    {
      if actions != [] {
        match actions[0] {
          case Raise(e, roll) => Send(e, roll);
          case Switch(t) => if maySwitch { SetStateTable(t); }
        }
        assert View() == Act(old(View()), actions[0], maySwitch);
        DoActions(actions[1..], maySwitch);
      }
    }

    method Send(e: Event, roll: real)
      modifies this
      ensures View() == SendEvent(old(View()), e, roll)
      ensures old(Free(View()) && cur == next && Silent(script)) ==> ByTable(old(View()), e, roll, View())
      decreases |script|, 4, 0
    {
      if Free(View()) && cur == next && Silent(script) {
        QuietTransition(View(), e, roll);
      }
      if table.Some? && next.Some? {
        var nextState := NextState(table.value, next.value, e, roll);
        if cur != Some(nextState) {
          SetCurrentState(nextState);
        } else {
          RunCallback(false);
        }
      }
    }

    method SetCurrentState(nextState: St)
      modifies this
      ensures View() == SetCurrent(old(View()), nextState)
      decreases |script|, 3, 0
    {
      if inSet || inUpdate {
        next := Some(nextState);
        return;
      }
      next := Some(nextState);
      inSet := true;
      ghost var m0 := View();
      var oldTable := table;
      while cur != next
        invariant |script| <= |old(script)|
        invariant Settle(View(), oldTable) == Settle(m0, m0.table)
        decreases |script|, if cur == next then 0 else 1
      {
        OneHop();
        if oldTable == table {
          RegStateEvent(cur);
        } else {
          oldTable := table;
        }
      }
      inSet := false;
    }

    /** Leave the current state, tell of the change, enter the pending one. */
    method OneHop()
      modifies this
      ensures View() == Hop(old(View()))
      decreases |script|, 1, 0
    {
      LeaveState();
      RunCallback(false);
      pre := cur;
      cur := next;
      if cur.Some? {
        trace := trace + [Enter(cur.value)];
      }
      RunCallback(true);
    }

    method LeaveState()
      modifies this
      ensures View() == Callback(Exiting(old(View())), false)
      decreases |script|, 0, 1
    {
      if cur.Some? {
        trace := trace + [Exit(cur.value)];
      }
      RunCallback(false);
    }

    /** regStateEvent for a state of the current table. */
    method RegStateEvent(state: Option<St>)
      requires state == cur
      modifies this
      ensures View() == RegEvents(old(View()), state, StateEvents(old(View())))
      decreases |script|, 1, 0
    {
      var events := if table.Some? && cur.Some? && cur.value in table.value.stateEvents
                    then table.value.stateEvents[cur.value] else [];
      var i := 0;
      while i < |events|
        invariant 0 <= i <= |events| && |script| <= |old(script)|
        invariant RegEvents(View(), state, events[i..]) == RegEvents(old(View()), state, events)
      {
        RunCallback(true);
        assert events[i..][1..] == events[i + 1..];
        if next != cur || cur != state {
          return;
        }
        i := i + 1;
      }
    }

    method SetStateTable(t: Table)
      modifies this
      ensures View() == SetTable(old(View()), t)
      decreases |script|, 4, 0
    {
      if table.Some? {
        ghost var moves := ExitMoves(View());
        LeaveState();
        stray := old(stray) || moves;
      }
      table := Some(t);
      cur := Some(t.init);
      next := cur;
      pre := None;
      trace := trace + [Enter(t.init)];
      RunCallback(true);
      RegStateEvent(cur);
    }

    method UpdateState()
      modifies this
      ensures View() == Update(old(View()))
    {
      inUpdate := true;
      RunCallback(true);
      inUpdate := false;
      if next.Some? && next != cur {
        SetCurrentState(next.value);
      }
    }

    method Destroy()
      modifies this
      ensures View() == Destroyed(old(View()))
    {
      if cur.Some? {
        LeaveState();
      }
    }
  }
}
