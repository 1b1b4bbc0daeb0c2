/** Command queue between a producer and a consumer (base/nCmdQueue.h). */
module CmdQueues {
  // A fixed ring of slots is shared without a lock; a slot is free exactly when it holds NULL.
  // Commands that find the ring full wait in a deque that only the producer touches.  `State`
  // carries the real fields and, as history, what was pushed, what was delivered and how many slots
  // the consumer has freed.  `CmdQueue` is the object, one method at a time; `Machine` is the same
  // code cut at every access to a shared slot, so that a run is any interleaving.

  import opened Common

  const QUEUE_SIZE: nat := 102400

  datatype Cmd = Cmd(bytes: string)

  datatype State = State(
    slots: seq<Option<Cmd>>, write: nat, read: nat, overflow: seq<Cmd>,
    pushed: seq<Cmd>, delivered: seq<Cmd>, pops: nat)
  {
    /** How many commands have ever been put into the ring, `pending` of the pushed ones being
    still in the producer's hands. */
    function Writes(pending: seq<Cmd>): int {
      |pushed| - |overflow| - |pending|
    }
  }

  function SlotOf(n: nat): nat {
    n % QUEUE_SIZE
  }

  /** Every pushed command is, in order, delivered, in the ring, waiting or in hand. */
  ghost predicate Accounted(q: State, pending: seq<Cmd>) {
    var w, r := q.Writes(pending), |q.delivered|;
    && 0 <= q.pops <= r <= w <= q.pops + QUEUE_SIZE
    && q.overflow + pending == q.pushed[w..]
    && q.delivered == q.pushed[..r]
  }

  /** The n-th command lives in slot n modulo the ring size; slots are occupied exactly for
  commands pops..w. */
  ghost predicate Occupied(slots: seq<Option<Cmd>>, pushed: seq<Cmd>, pops: nat, w: nat) {
    && |slots| == QUEUE_SIZE && w <= |pushed|
    && (forall n: nat :: pops <= n < w ==> slots[SlotOf(n)] == Some(pushed[n]))
    && (forall n: nat :: w <= n < pops + QUEUE_SIZE ==> slots[SlotOf(n)] == None)
  }

  ghost predicate Inv(q: State, pending: seq<Cmd>) {
    && Accounted(q, pending)
    && q.write == SlotOf(q.Writes(pending)) && q.read == SlotOf(|q.delivered|)
    && Occupied(q.slots, q.pushed, q.pops, q.Writes(pending))
  }

  function FreeSlots(n: nat): (slots: seq<Option<Cmd>>)
    ensures |slots| == n && forall i :: 0 <= i < n ==> slots[i] == None
  {
    seq(n, i => None)
  }

  function EmptyState(): State {
    State(FreeSlots(QUEUE_SIZE), 0, 0, [], [], [], 0)
  }

  /** ---- The elementary steps ---- */

  /** Put a command into the slot the producer points at. */
  function Place(q: State, c: Cmd): State
    requires q.write < |q.slots|
  {
    q.(slots := q.slots[q.write := Some(c)], write := SlotOf(q.write + 1))
  }

  /** Move the oldest waiting command into the ring. */
  function PlaceWaiting(q: State): State
    requires q.write < |q.slots| && q.overflow != []
  {
    Place(q, q.overflow[0]).(overflow := q.overflow[1..])
  }

  function Defer(q: State, c: Cmd): State {
    q.(overflow := q.overflow + [c])
  }

  /** getCmd with a command in the slot. */
  function Take(q: State): State
    requires q.read < |q.slots| && q.slots[q.read].Some?
  {
    q.(delivered := q.delivered + [q.slots[q.read].value], read := SlotOf(q.read + 1))
  }

  function Pop(q: State): State
    requires |q.slots| == QUEUE_SIZE
  {
    q.(slots := q.slots[SlotOf(q.read + QUEUE_SIZE - 1) := None], pops := q.pops + 1)
  }

  lemma SlotsApart(m: nat, n: nat)
    requires m < n < m + QUEUE_SIZE
    ensures SlotOf(m) != SlotOf(n)
  {
  }

  lemma NextSlot(n: nat)
    ensures SlotOf(SlotOf(n) + 1) == SlotOf(n + 1)
  {
  }

  lemma PreviousSlot(n: nat)
    requires n > 0
    ensures SlotOf(SlotOf(n) + QUEUE_SIZE - 1) == SlotOf(n - 1)
  {
    NextSlot(n - 1);
  }

  lemma SlotWraps(n: nat)
    ensures SlotOf(n + QUEUE_SIZE) == SlotOf(n)
  {
  }

  /** The slot the producer points at is free exactly when the ring is not full. */
  lemma WriteSlotFree(q: State, pending: seq<Cmd>)
    requires Inv(q, pending)
    ensures q.slots[q.write] == None <==> q.Writes(pending) < q.pops + QUEUE_SIZE
  {
    var w := q.Writes(pending);
    if w == q.pops + QUEUE_SIZE {
      SlotWraps(q.pops);
      assert q.slots[SlotOf(q.pops)] == Some(q.pushed[q.pops]);
    } else {
      assert q.slots[SlotOf(w)] == None;
    }
  }

  /** The slot the consumer points at is occupied exactly when the ring holds an undelivered
  command, and then it holds the next one; the command taken but not yet popped is no exception. */
  lemma ReadSlotNext(q: State, pending: seq<Cmd>)
    requires Inv(q, pending) && |q.delivered| == q.pops
    ensures q.slots[q.read].Some? <==> |q.delivered| < q.Writes(pending)
    ensures q.slots[q.read].Some? ==> q.slots[q.read].value == q.pushed[|q.delivered|]
  {
    var r := |q.delivered|;
    if r < q.Writes(pending) {
      assert q.slots[SlotOf(r)] == Some(q.pushed[r]);
    } else {
      assert q.slots[SlotOf(r)] == None;
    }
  }

  lemma OccupyNext(slots: seq<Option<Cmd>>, pushed: seq<Cmd>, pops: nat, w: nat)
    requires Occupied(slots, pushed, pops, w) && pops <= w < pops + QUEUE_SIZE && w < |pushed|
    ensures Occupied(slots[SlotOf(w) := Some(pushed[w])], pushed, pops, w + 1)
  {
    var slots' := slots[SlotOf(w) := Some(pushed[w])];
    forall n: nat | pops <= n < w + 1
      ensures slots'[SlotOf(n)] == Some(pushed[n])
    {
      if n < w { SlotsApart(n, w); }
    }
    forall n: nat | w + 1 <= n < pops + QUEUE_SIZE
      ensures slots'[SlotOf(n)] == None
    {
      SlotsApart(w, n);
    }
  }

  lemma PlaceKeepsInv(q: State, c: Cmd, rest: seq<Cmd>)
    requires q.overflow == [] && Inv(q, [c] + rest) && q.slots[q.write] == None
    ensures Inv(Place(q, c), rest)
  {
    var w := q.Writes([c] + rest);
    WriteSlotFree(q, [c] + rest);
    NextSlot(w);
    OccupyNext(q.slots, q.pushed, q.pops, w);
  }

  lemma PlaceWaitingKeepsInv(q: State, pending: seq<Cmd>)
    requires q.overflow != [] && Inv(q, pending) && q.slots[q.write] == None
    ensures Inv(PlaceWaiting(q), pending)
  {
    var c, rest := q.overflow[0], q.overflow[1..];
    var held, tail := q.(overflow := []), rest + pending;
    assert [c] + tail == q.overflow + pending;
    HeldInv(q, pending, [c] + tail);
    PlaceKeepsInv(held, c, tail);
    WaitingInv(Place(held, c), rest, pending, PlaceWaiting(q));
  }

  /** It makes no difference whether waiting commands are counted as waiting or as in hand. */
  lemma HeldInv(q: State, pending: seq<Cmd>, all: seq<Cmd>)
    requires Inv(q, pending) && all == q.overflow + pending
    ensures Inv(q.(overflow := []), all)
  {
    assert [] + all == all;
  }

  lemma WaitingInv(q: State, waiting: seq<Cmd>, pending: seq<Cmd>, q': State)
    requires Inv(q, waiting + pending) && q.overflow == [] && q' == q.(overflow := waiting)
    ensures Inv(q', pending)
  {
    assert [] + (waiting + pending) == waiting + pending;
  }

  lemma DeferKeepsInv(q: State, c: Cmd)
    requires Inv(q, [c])
    ensures Inv(Defer(q, c), [])
  {
    assert Defer(q, c).overflow + [] == q.overflow + [c];
  }

  lemma TakeKeepsInv(q: State, pending: seq<Cmd>)
    requires Inv(q, pending) && |q.delivered| == q.pops && q.slots[q.read].Some?
    ensures Inv(Take(q), pending)
  {
    ReadSlotNext(q, pending);
    NextSlot(|q.delivered|);
    var r := |q.delivered|;
    assert q.pushed[..r + 1] == q.pushed[..r] + [q.pushed[r]];
  }

  lemma VacateFirst(slots: seq<Option<Cmd>>, pushed: seq<Cmd>, pops: nat, w: nat)
    requires Occupied(slots, pushed, pops, w) && pops < w <= pops + QUEUE_SIZE
    ensures Occupied(slots[SlotOf(pops) := None], pushed, pops + 1, w)
  {
    var slots' := slots[SlotOf(pops) := None];
    forall n: nat | pops + 1 <= n < w
      ensures slots'[SlotOf(n)] == Some(pushed[n])
    {
      SlotsApart(pops, n);
    }
    forall n: nat | w <= n < pops + 1 + QUEUE_SIZE
      ensures slots'[SlotOf(n)] == None
    {
      if n < pops + QUEUE_SIZE { SlotsApart(pops, n); } else { SlotWraps(pops); }
    }
  }

  lemma PopKeepsInv(q: State, pending: seq<Cmd>)
    requires Inv(q, pending) && |q.delivered| == q.pops + 1
    ensures Inv(Pop(q), pending)
  {
    PreviousSlot(|q.delivered|);
    VacateFirst(q.slots, q.pushed, q.pops, q.Writes(pending));
  }

  /** Why the discipline matters: a popCmd that follows no getCmd is harmless exactly when the ring
  is not full; on a full ring it wipes out the newest command. */
  lemma StrayPop(q: State, pending: seq<Cmd>)
    requires Inv(q, pending) && |q.delivered| == q.pops
    ensures Pop(q).slots == q.slots <==> q.Writes(pending) < q.pops + QUEUE_SIZE
  {
    var newest := q.pops + QUEUE_SIZE - 1;
    assert SlotOf(q.read + QUEUE_SIZE - 1) == SlotOf(newest);
    if q.Writes(pending) == newest + 1 {
      assert q.slots[SlotOf(newest)] == Some(q.pushed[newest]);
      assert Pop(q).slots[SlotOf(newest)] == None;
    } else {
      assert q.slots[SlotOf(newest)] == None;
    }
  }

  /** ---- Whole methods as functions ---- */

  /** putQueueToArray: move waiting commands into the ring until it is full or none waits. */
  function Drained(q: State): (q': State)
    requires q.write < |q.slots| == QUEUE_SIZE
    ensures q'.write < |q'.slots| == QUEUE_SIZE
    decreases |q.overflow|
  {
    if q.overflow != [] && q.slots[q.write] == None then Drained(PlaceWaiting(q)) else q
  }

  /** pushCmd. */
  function Pushed(q: State, c: Cmd): State
    requires q.write < |q.slots| == QUEUE_SIZE
  {
    var q1 := Drained(q.(pushed := q.pushed + [c]));
    if q1.overflow == [] && q1.slots[q1.write] == None then Place(q1, c) else Defer(q1, c)
  }

  lemma {:induction false} DrainedKeepsInv(q: State, pending: seq<Cmd>)
    requires Inv(q, pending)
    ensures var q' := Drained(q);
            && Inv(q', pending)
            && q'.pushed == q.pushed && q'.delivered == q.delivered && q'.pops == q.pops && q'.read == q.read
            && (q'.overflow != [] ==> q'.slots[q'.write] != None)
            && (q.overflow != [] && q.slots[q.write] == None ==> |q'.overflow| < |q.overflow|)
            && |q'.overflow| <= |q.overflow|
    decreases |q.overflow|
  {
    if q.overflow != [] && q.slots[q.write] == None {
      PlaceWaitingKeepsInv(q, pending);
      DrainedKeepsInv(PlaceWaiting(q), pending);
    }
  }

  lemma StartPush(q: State, c: Cmd)
    requires Inv(q, [])
    ensures Inv(q.(pushed := q.pushed + [c]), [c])
  {
    assert q.overflow + [] == q.overflow;
  }

  lemma PushedKeepsInv(q: State, c: Cmd)
    requires Inv(q, [])
    ensures Inv(Pushed(q, c), [])
    ensures Pushed(q, c).pushed == q.pushed + [c] && Pushed(q, c).delivered == q.delivered
    ensures Pushed(q, c).pops == q.pops
  {
    StartPush(q, c);
    var q0 := q.(pushed := q.pushed + [c]);
    DrainedKeepsInv(q0, [c]);
    var q1 := Drained(q0);
    if q1.overflow == [] && q1.slots[q1.write] == None {
      assert [c] + [] == [c];
      PlaceKeepsInv(q1, c, []);
    } else {
      DeferKeepsInv(q1, c);
    }
  }

  /** A push leaves commands waiting only behind a full ring. */
  lemma PushedFillsRing(q: State, c: Cmd)
    requires Inv(q, [])
    ensures var q' := Pushed(q, c); q'.overflow != [] ==> q'.Writes([]) == q'.pops + QUEUE_SIZE
  {
    var q0 := q.(pushed := q.pushed + [c]);
    StartPush(q, c);
    DrainedKeepsInv(q0, [c]);
    WriteSlotFree(Drained(q0), [c]);
  }

  /** After a push a consumer that has popped what it was given finds a command: the oldest undelivered one,
  which on a queue with nothing undelivered is the one pushed. */
  lemma PushedIsVisible(q: State, c: Cmd)
    requires Inv(q, []) && |q.delivered| == q.pops
    ensures var q' := Pushed(q, c);
            && q'.read < |q'.slots| && q'.slots[q'.read] == Some((q.pushed + [c])[|q.delivered|])
            && (q.delivered == q.pushed ==> q'.slots[q'.read] == Some(c) && Take(q').delivered == q.delivered + [c])
  {
    PushedKeepsInv(q, c);
    PushedFillsRing(q, c);
    ReadSlotNext(Pushed(q, c), []);
  }

  lemma PushedOutcome(q: State, c: Cmd)
    requires Inv(q, [])
    ensures var q' := Pushed(q, c);
            && Inv(q', []) && q'.pushed == q.pushed + [c] && q'.delivered == q.delivered && q'.pops == q.pops
            && (q'.overflow != [] ==> q'.Writes([]) == q'.pops + QUEUE_SIZE)
            && (|q.delivered| == q.pops ==>
                  q'.read < |q'.slots| && q'.slots[q'.read] == Some(q'.pushed[|q.delivered|]))
  {
    PushedKeepsInv(q, c);
    PushedFillsRing(q, c);
    if |q.delivered| == q.pops {
      PushedIsVisible(q, c);
    }
  }

  /** ---- Interleavings ---- */

  /** Where the producer is inside pushCmd; the command is the one in its hands. */
  datatype Producer =
    | Idle
    | Draining(cmd: Cmd)     // at the loop test of putQueueToArray
    | Filling(cmd: Cmd)      // saw a free slot for the oldest waiting command
    | Testing(cmd: Cmd)      // nothing waits; about to test the slot
    | Placing(cmd: Cmd)      // saw a free slot for the new command
    | Deferring(cmd: Cmd)    // about to append to the deque

  /** Where the consumer is in its getCmd / popCmd cycle. */
  datatype Consumer =
    | Ready
    | Seen                   // saw a command in the slot
    | Holding(cmd: Cmd)      // getCmd has returned it, popCmd is due

  datatype Machine = Machine(q: State, producer: Producer, consumer: Consumer)

  datatype Step = Push(cmd: Cmd) | Produce | Consume

  predicate Shaped(q: State) {
    q.write < |q.slots| == QUEUE_SIZE && q.read < QUEUE_SIZE
  }

  function Pending(m: Machine): seq<Cmd> {
    if m.producer.Idle? then [] else [m.producer.cmd]
  }

  /** One access to shared memory by one side; a step that is not enabled changes nothing. */
  function Next(m: Machine, step: Step): Machine
  {
    var q := m.q;
    if !Shaped(q) then m else
    match step
    case Push(c) =>
      if m.producer.Idle? then Machine(q.(pushed := q.pushed + [c]), Draining(c), m.consumer) else m
    case Produce =>
      (match m.producer
       case Idle => m
       case Draining(c) =>
         if q.overflow == [] then m.(producer := Testing(c))
         else if q.slots[q.write] == None then m.(producer := Filling(c))
         else m.(producer := Deferring(c))
       case Filling(c) =>
         if q.overflow == [] then m else Machine(PlaceWaiting(q), Draining(c), m.consumer)
       case Testing(c) => m.(producer := if q.slots[q.write] == None then Placing(c) else Deferring(c))
       case Placing(c) => Machine(Place(q, c), Idle, m.consumer)
       case Deferring(c) => Machine(Defer(q, c), Idle, m.consumer))
    case Consume =>
      (match m.consumer
       case Ready => if q.slots[q.read].Some? then m.(consumer := Seen) else m
       case Seen => if q.slots[q.read].None? then m else Machine(Take(q), m.producer, Holding(q.slots[q.read].value))
       case Holding(c) => Machine(Pop(q), m.producer, Ready))
  }

  ghost predicate MachineInv(m: Machine) {
    var q := m.q;
    && Inv(q, Pending(m))
    && (m.producer.Filling? ==> q.overflow != [] && q.slots[q.write] == None)
    && (m.producer.Testing? ==> q.overflow == [])
    && (m.producer.Placing? ==> q.overflow == [] && q.slots[q.write] == None)
    && (if m.consumer.Holding? then |q.delivered| == q.pops + 1 && q.delivered[q.pops] == m.consumer.cmd
        else |q.delivered| == q.pops)
    && (m.consumer.Seen? ==> q.slots[q.read].Some?)
  }

  /** The producer's writes never touch the slot the consumer has seen occupied. */
  lemma WritesKeepInv(m: Machine)
    requires MachineInv(m) && (m.producer.Filling? || m.producer.Placing? || m.producer.Deferring?)
    ensures MachineInv(Next(m, Produce))
  {
    var q := m.q;
    match m.producer
    case Filling(c) => PlaceWaitingKeepsInv(q, [c]);
    case Placing(c) =>
      assert [c] + [] == [c];
      PlaceKeepsInv(q, c, []);
    case Deferring(c) => DeferKeepsInv(q, c);
  }

  lemma ProduceKeepsInv(m: Machine)
    requires MachineInv(m)
    ensures MachineInv(Next(m, Produce))
  {
    if m.producer.Filling? || m.producer.Placing? || m.producer.Deferring? {
      WritesKeepInv(m);
    }
  }

  lemma ConsumeKeepsInv(m: Machine)
    requires MachineInv(m)
    ensures MachineInv(Next(m, Consume))
  {
    var q, pending := m.q, Pending(m);
    match m.consumer
    case Ready =>
    case Seen =>
      TakeKeepsInv(q, pending);
    case Holding(c) =>
      PopKeepsInv(q, pending);
  }

  lemma NextKeepsInv(m: Machine, step: Step)
    requires MachineInv(m)
    ensures MachineInv(Next(m, step))
  {
    match step
    case Push(c) => if m.producer.Idle? { StartPush(m.q, c); }
    case Produce => ProduceKeepsInv(m);
    case Consume => ConsumeKeepsInv(m);
  }

  lemma EmptyInv()
    ensures MachineInv(Machine(EmptyState(), Idle, Ready))
  {
  }

  /** A run from an empty queue under any interleaving. */
  function Run(steps: seq<Step>): Machine
    decreases |steps|
  {
    if steps == [] then Machine(EmptyState(), Idle, Ready) else Next(Run(steps[..|steps| - 1]), steps[|steps| - 1])
  }

  lemma {:induction false} RunKeepsInv(steps: seq<Step>)
    ensures MachineInv(Run(steps))
    decreases |steps|
  {
    if steps == [] {
      EmptyInv();
    } else {
      RunKeepsInv(steps[..|steps| - 1]);
      NextKeepsInv(Run(steps[..|steps| - 1]), steps[|steps| - 1]);
    }
  }

  /** What the ring still holds for the consumer, read off the slots. */
  function InRing(q: State, from: nat, to: int): (c: seq<Option<Cmd>>)
    requires |q.slots| == QUEUE_SIZE
    decreases if from < to then to - from else 0
  {
    if from >= to then [] else [q.slots[SlotOf(from)]] + InRing(q, from + 1, to)
  }

  lemma {:induction false} InRingIsPushed(q: State, pending: seq<Cmd>, from: nat, to: nat)
    requires Inv(q, pending) && q.pops <= from <= to <= q.Writes(pending)
    ensures InRing(q, from, to) == Somes(q.pushed[from..to])
    decreases if from < to then to - from else 0
  {
    if from < to {
      InRingIsPushed(q, pending, from + 1, to);
      assert q.pushed[from..to] == [q.pushed[from]] + q.pushed[from + 1..to];
      assert q.slots[SlotOf(from)] == Some(q.pushed[from]);
    }
  }

  function Somes(c: seq<Cmd>): seq<Option<Cmd>> {
    if c == [] then [] else [Some(c[0])] + Somes(c[1..])
  }

  /** After every interleaving, delivered commands are a prefix of the pushed ones, and what
  follows that prefix is, in order, what the ring, the deque and the producer hold: nothing is
  lost, doubled or overtaken. */
  lemma NothingLostOrOvertaken(steps: seq<Step>)
    ensures var m := Run(steps);
            var r, w := |m.q.delivered|, m.q.Writes(Pending(m));
            && |m.q.slots| == QUEUE_SIZE && r <= w <= |m.q.pushed|
            && m.q.pushed == m.q.delivered + m.q.pushed[r..w] + m.q.overflow + Pending(m)
            && InRing(m.q, r, w) == Somes(m.q.pushed[r..w])
  {
    RunKeepsInv(steps);
    var m := Run(steps);
    var r, w := |m.q.delivered|, m.q.Writes(Pending(m));
    InRingIsPushed(m.q, Pending(m), r, w);
    WholeHistory(m.q, Pending(m));
  }

  lemma WholeHistory(q: State, pending: seq<Cmd>)
    requires Accounted(q, pending)
    ensures q.pushed == q.delivered + q.pushed[|q.delivered|..q.Writes(pending)] + q.overflow + pending
  {
    var r, w := |q.delivered|, q.Writes(pending);
    assert q.pushed == q.pushed[..r] + q.pushed[r..w] + q.pushed[w..];
  }

  /** A consumer that is told "no command" has been given everything ever put into the ring;
  what waits in the deque stays invisible to it until the next push. */
  lemma NoCommandMeansRingEmpty(m: Machine)
    requires MachineInv(m) && m.consumer.Ready?
    ensures Next(m, Consume).consumer.Ready? <==> m.q.pushed == m.q.delivered + m.q.overflow + Pending(m)
  {
    ReadSlotNext(m.q, Pending(m));
    var r, w := |m.q.delivered|, m.q.Writes(Pending(m));
    assert m.q.pushed == m.q.pushed[..w] + m.q.pushed[w..];
    assert m.q.delivered + m.q.overflow + Pending(m) == m.q.delivered + m.q.pushed[w..];
  }

  /** The producer running alone to the end of pushCmd. */
  function ProducerAlone(m: Machine): Machine
    requires Shaped(m.q)
    decreases if m.producer.Draining? || m.producer.Filling? || m.producer.Testing? then |m.q.overflow| + 1 else 0,
              if m.producer.Idle? then 0 else if m.producer.Draining? then 2 else 1
  {
    if m.producer.Idle? || (m.producer.Filling? && m.q.overflow == []) then m
    else ProducerAlone(Next(m, Produce))
  }

  /** pushCmd as one call is the producer's own run of the machine. */
  lemma {:induction false} PushIsProducerAlone(q: State, c: Cmd, k: Consumer)
    requires Shaped(q)
    ensures var q1 := Drained(q);
            ProducerAlone(Machine(q, Draining(c), k)) ==
            Machine(if q1.overflow == [] && q1.slots[q1.write] == None then Place(q1, c) else Defer(q1, c), Idle, k)
    decreases |q.overflow|
  {
    var m := Machine(q, Draining(c), k);
    var m1 := Next(m, Produce);
    var m2 := Next(m1, Produce);
    assert ProducerAlone(m) == ProducerAlone(m1);
    if q.overflow != [] && q.slots[q.write] == None {
      assert ProducerAlone(m1) == ProducerAlone(m2);
      PushIsProducerAlone(PlaceWaiting(q), c, k);
    } else if q.overflow == [] {
      var m3 := Next(m2, Produce);
      assert ProducerAlone(m1) == ProducerAlone(m2);
      assert ProducerAlone(m2) == ProducerAlone(m3);
    } else {
      assert ProducerAlone(m1) == ProducerAlone(m2);
    }
  }

  /** The whole of pushCmd, with the command noted as pushed. */
  lemma PushedByProducer(q: State, c: Cmd, k: Consumer)
    requires Shaped(q)
    ensures ProducerAlone(Next(Machine(q, Idle, k), Push(c))) == Machine(Pushed(q, c), Idle, k)
  {
    PushIsProducerAlone(q.(pushed := q.pushed + [c]), c, k);
  }

  /** Under any interleaving the producer sends a command to the deque only when at its look at the slot the ring
  was full; otherwise it goes on to fill the slot. */
  lemma ProducerDecides(m: Machine)
    requires MachineInv(m)
    ensures var full := m.q.Writes(Pending(m)) == m.q.pops + QUEUE_SIZE;
            var p' := Next(m, Produce).producer;
            && (m.producer.Draining? ==>
                  if m.q.overflow == [] then p' == Testing(m.producer.cmd)
                  else p' == if full then Deferring(m.producer.cmd) else Filling(m.producer.cmd))
            && (m.producer.Testing? ==>
                  p' == if full then Deferring(m.producer.cmd) else Placing(m.producer.cmd))
  {
    WriteSlotFree(m.q, Pending(m));
  }

  /** ---- The object ---- */

  class CmdQueue {
    const slots: array<Option<Cmd>>
    var queueWrite: nat
    var queueRead: nat
    var queueCmd: seq<Cmd>              // the overflow deque
    ghost var pushed: seq<Cmd>
    ghost var delivered: seq<Cmd>
    ghost var pops: nat

    ghost function View(): State
      reads this, slots
    {
      State(slots[..], queueWrite, queueRead, queueCmd, pushed, delivered, pops)
    }

    ghost predicate Valid()
      reads this, slots
    {
      slots.Length == QUEUE_SIZE && Inv(View(), [])
    }

    /** The consumer has popped everything it was given. */
    ghost predicate Settled()
      reads this
    {
      |delivered| == pops
    }

    constructor ()
      ensures Valid() && Settled() && fresh(slots) && View() == EmptyState()
    {
      slots := new Option<Cmd>[QUEUE_SIZE](i => None);
      queueWrite, queueRead, queueCmd := 0, 0, [];
      pushed, delivered, pops := [], [], 0;
      new;
      EmptyInv();
      assert slots[..] == FreeSlots(QUEUE_SIZE);
    }

    method GetCmd() returns (ret: Option<Cmd>)
      requires Valid() && Settled()
      modifies this`queueRead, this`delivered
      ensures Valid()
      ensures ret == if |old(delivered)| < View().Writes([]) then Some(pushed[|old(delivered)|]) else None
      ensures View() == if ret.Some? then Take(old(View())) else old(View())
    {
      ReadSlotNext(View(), []);
      ret := None;
      if slots[queueRead] != None {
        TakeKeepsInv(View(), []);
        ret := slots[queueRead];
        queueRead := queueRead + 1;
        queueRead := queueRead % QUEUE_SIZE;
        delivered := delivered + [ret.value];
      }
    }

    method PopCmd()
      requires Valid() && |delivered| == pops + 1
      modifies this`pops, slots
      ensures Valid() && Settled() && View() == Pop(old(View()))
    {
      PopKeepsInv(View(), []);
      var read := (queueRead + QUEUE_SIZE - 1) % QUEUE_SIZE;
      slots[read] := None;
      pops := pops + 1;
      assert View() == Pop(old(View()));
    }

    method PutQueueToArray() returns (full: bool)
      requires slots.Length == QUEUE_SIZE && queueWrite < QUEUE_SIZE
      modifies this`queueWrite, this`queueCmd, slots
      ensures View() == Drained(old(View())) && queueWrite < QUEUE_SIZE
      ensures full <==> queueCmd != []
      ensures queueCmd != [] ==> slots[queueWrite] != None
    {
      while queueCmd != []
        invariant queueWrite < QUEUE_SIZE && Drained(View()) == Drained(old(View()))
        decreases |queueCmd|
      {
        if slots[queueWrite] == None {
          ghost var before := View();
          slots[queueWrite] := Some(queueCmd[0]);
          queueWrite := (queueWrite + 1) % QUEUE_SIZE;
          queueCmd := queueCmd[1..];
          assert View() == PlaceWaiting(before);
        } else {
          return true;
        }
      }
      return false;
    }

    method PushCmd(command: Cmd)
      requires Valid()
      modifies this`queueWrite, this`queueCmd, this`pushed, slots
      ensures Valid() && View() == Pushed(old(View()), command)
      ensures pushed == old(pushed) + [command] && delivered == old(delivered)
      ensures queueCmd != [] ==> View().Writes([]) == pops + QUEUE_SIZE
      ensures Settled() ==> queueRead < |View().slots| && View().slots[queueRead] == Some(pushed[|delivered|])
    {
      PushedOutcome(View(), command);
      pushed := pushed + [command];
      var full := PutQueueToArray();
      PlaceOrDefer(command, full);
    }

    method PlaceOrDefer(command: Cmd, full: bool)
      requires slots.Length == QUEUE_SIZE && queueWrite < QUEUE_SIZE && (full <==> queueCmd != [])
      modifies this`queueWrite, this`queueCmd, slots
      ensures View() == var q := old(View());
                        if q.overflow == [] && q.slots[q.write] == None then Place(q, command) else Defer(q, command)
    {
      ghost var q := View();
      if !full && slots[queueWrite] == None {
        slots[queueWrite] := Some(command);
        queueWrite := (queueWrite + 1) % QUEUE_SIZE;
        assert View() == Place(q, command);
      } else {
        queueCmd := queueCmd + [command];
        assert View() == Defer(q, command);
      }
    }

    /** Takes and frees every command in the ring. */
    method EmptyRing()
      requires Valid() && Settled()
      modifies this`queueRead, this`delivered, this`pops, slots
      ensures Valid() && Settled() && |delivered| == View().Writes([])
    {
      var got := GetCmd();
      while got.Some?
        invariant Valid()
        invariant if got.Some? then |delivered| == pops + 1 else Settled() && |delivered| == View().Writes([])
        decreases View().Writes([]) - pops
      {
        PopCmd();
        got := GetCmd();
      }
    }

    /** On destruction everything pushed is taken exactly once, in order, and every slot is freed. */
    method Clear()
      requires Valid() && Settled()
      modifies this`queueRead, this`queueWrite, this`queueCmd, this`delivered, this`pops, slots
      ensures Valid() && queueCmd == [] && delivered == pushed
      ensures forall i :: 0 <= i < QUEUE_SIZE ==> slots[i] == None
    {
      DrainedKeepsInv(View(), []);
      var full := PutQueueToArray();
      while full
        invariant Valid() && Settled() && (full <==> queueCmd != [])
        decreases |queueCmd|
      {
        EmptyRing();
        WriteSlotFree(View(), []);
        DrainedKeepsInv(View(), []);
        full := PutQueueToArray();
      }
      EmptyRing();
      AllDelivered(View());
    }
  }

  lemma AllDelivered(q: State)
    requires Inv(q, []) && q.overflow == [] && |q.delivered| == q.pops == q.Writes([])
    ensures q.delivered == q.pushed && forall i :: 0 <= i < QUEUE_SIZE ==> q.slots[i] == None
  {
    assert q.pushed[q.Writes([])..] == [];
    forall i | 0 <= i < QUEUE_SIZE
      ensures q.slots[i] == None
    {
      var base := q.pops - SlotOf(q.pops);
      var n := if SlotOf(q.pops) <= i then base + i else base + i + QUEUE_SIZE;
      assert SlotOf(n) == i;
      assert q.slots[SlotOf(n)] == None;
    }
  }
}
