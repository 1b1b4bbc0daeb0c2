/** Who owns a login session (gatewayServer/gwLoginSessionManager.cpp). */
module LoginSessions {
  // The manager's operations look under the read lock, let go, and act under the write lock, so
  // other operations come in between.  Every lock-protected region is one step here, and the steps
  // of all operations interleave freely.

  import opened Common

  /** A session object; obj tells objects apart. */
  datatype Session = Session(obj: nat, sid: nat, name: nat, start: nat)

  /** ---- The manager: two indexes ---- */

  datatype Index = Index(byId: map<nat, Session>, byName: map<nat, Session>)

  /** Both indexes hold the same sessions, each under its own keys. */
  ghost predicate Consistent(ix: Index) {
    && (forall i :: i in ix.byId ==> var s := ix.byId[i]; s.sid == i && s.name in ix.byName && ix.byName[s.name] == s)
    && (forall n :: n in ix.byName ==> var s := ix.byName[n]; s.name == n && s.sid in ix.byId && ix.byId[s.sid] == s)
  }

  predicate Holds(ix: Index, s: Session) {
    s.sid in ix.byId && ix.byId[s.sid] == s
  }

  predicate CanAdd(ix: Index, s: Session) {
    s.sid !in ix.byId && s.name !in ix.byName
  }

  function Added(ix: Index, s: Session): Index {
    if CanAdd(ix, s) then Index(ix.byId[s.sid := s], ix.byName[s.name := s]) else ix
  }

  function Removed(ix: Index, s: Session): Index {
    Index(ix.byId - {s.sid}, ix.byName - {s.name})
  }

  /** Take out the sessions with the given ids that are still there. */
  function Swept(ix: Index, ids: seq<nat>): Index
    decreases |ids|
  {
    if ids == [] then ix
    else Swept(if ids[0] in ix.byId then Removed(ix, ix.byId[ids[0]]) else ix, ids[1..])
  }

  function SweptOut(ix: Index, ids: seq<nat>): set<Session>
    decreases |ids|
  {
    if ids == [] then {}
    else if ids[0] in ix.byId then {ix.byId[ids[0]]} + SweptOut(Removed(ix, ix.byId[ids[0]]), ids[1..])
    else SweptOut(ix, ids[1..])
  }

  lemma AddedIsConsistent(ix: Index, s: Session)
    requires Consistent(ix)
    ensures Consistent(Added(ix, s))
    ensures forall t :: Holds(Added(ix, s), t) <==> Holds(ix, t) || (t == s && CanAdd(ix, s))
  {
  }

  lemma RemovedIsConsistent(ix: Index, s: Session)
    requires Consistent(ix) && Holds(ix, s)
    ensures Consistent(Removed(ix, s))
    ensures forall t :: Holds(Removed(ix, s), t) <==> Holds(ix, t) && t != s
  {
  }

  lemma {:induction false} SweptIsConsistent(ix: Index, ids: seq<nat>)
    requires Consistent(ix)
    ensures Consistent(Swept(ix, ids))
    ensures forall t :: Holds(Swept(ix, ids), t) <==> Holds(ix, t) && t !in SweptOut(ix, ids)
    ensures forall t :: t in SweptOut(ix, ids) <==> Holds(ix, t) && t.sid in ids
    decreases |ids|
  {
    if ids != [] {
      if ids[0] in ix.byId {
        RemovedIsConsistent(ix, ix.byId[ids[0]]);
        SweptIsConsistent(Removed(ix, ix.byId[ids[0]]), ids[1..]);
      } else {
        SweptIsConsistent(ix, ids[1..]);
      }
    }
  }

  /** ---- The whole system ---- */

  /** A connection and how far its verification is.  Gap: a session was seen and the read lock given up.
  NoSession: nothing was found in the manager.  Holding: the session is only in a local variable. */
  datatype Conn =
    | Fresh | Gap(name: nat) | NoSession(name: nat) | Holding(s: Session) | Owns(s: Session) | Refused | Closed

  /** An endLoginSession call and how far it is. */
  datatype Ender = Begun(name: nat) | Looked(name: nat) | Doomed(s: Session) | Ended

  /** A user, with the session kept for it while it is under offline protection. */
  datatype User = User(session: Option<Session>, isProtected: bool)

  datatype State = State(
    now: nat,
    index: Index,
    conns: map<nat, Conn>,
    users: map<nat, User>,
    enders: map<nat, Ender>,
    sweeps: map<nat, seq<nat>>,
    created: set<Session>,
    dead: set<Session>)

  datatype Op =
    | Advance(time: nat)
    | Start(s: Session)
    | VerifyLook(c: nat, name: nat)
    | VerifyTake(c: nat)
    | VerifyUser(c: nat)
    | VerifySet(c: nat)
    | Close(c: nat)
    | EndLook(e: nat)
    | EndTake(e: nat)
    | EndDelete(e: nat)
    | SweepLook(w: nat, ids: seq<nat>)
    | SweepTake(w: nat)
    | DeleteUser(u: nat)
    | DestroyAll

  predicate Late(s: Session, now: nat, timeOut: nat) {
    s.start + timeOut <= now
  }

  /** The ids a sweep collects under the read lock: those of the sessions that have timed out. */
  ghost predicate Collects(ix: Index, now: nat, timeOut: nat, ids: seq<nat>) {
    forall i :: i in ids <==> i in ix.byId && Late(ix.byId[i], now, timeOut)
  }

  /** When a step may be taken.  A session is constructed, with the time it starts, before the lock is had. */
  ghost predicate Enabled(s: State, op: Op, timeOut: nat) {
    match op
    case Advance(time) => s.now <= time
    case Start(x) => x.start <= s.now && forall y :: y in s.created ==> y.obj != x.obj
    case VerifyLook(c, name) => c in s.conns && s.conns[c] == Fresh
    case VerifyTake(c) => c in s.conns && s.conns[c].Gap?
    case VerifyUser(c) => c in s.conns && s.conns[c].NoSession?
    case VerifySet(c) => c in s.conns && s.conns[c].Holding?
    case Close(c) => c in s.conns && (s.conns[c].Fresh? || s.conns[c].Owns? || s.conns[c].Refused?)
    case EndLook(e) => e in s.enders && s.enders[e].Begun?
    case EndTake(e) => e in s.enders && s.enders[e].Looked?
    case EndDelete(e) => e in s.enders && s.enders[e].Doomed?
    case SweepLook(w, ids) => w !in s.sweeps && Collects(s.index, s.now, timeOut, ids)
    case SweepTake(w) => w in s.sweeps
    case DeleteUser(u) => u in s.users
    case DestroyAll => true
  }

  function Apply(s: State, op: Op, timeOut: nat): State
    requires Enabled(s, op, timeOut)
  {
    match op
    case Advance(time) => s.(now := time)
    case Start(x) =>
      s.(index := Added(s.index, x), created := s.created + {x},
         dead := if CanAdd(s.index, x) then s.dead else s.dead + {x})
    case VerifyLook(c, name) =>
      s.(conns := s.conns[c := if name in s.index.byName then Gap(name) else NoSession(name)])
    case VerifyTake(c) =>
      var name := s.conns[c].name;
      if name in s.index.byName then
        var x := s.index.byName[name];
        s.(index := Removed(s.index, x), conns := s.conns[c := Holding(x)])
      else s.(conns := s.conns[c := NoSession(name)])
    case VerifyUser(c) =>
      var name := s.conns[c].name;
      if name in s.users && s.users[name].isProtected && s.users[name].session.Some? then
        s.(users := s.users[name := s.users[name].(session := None)],
           conns := s.conns[c := Holding(s.users[name].session.value)])
      else s.(conns := s.conns[c := Refused])
    case VerifySet(c) => s.(conns := s.conns[c := Owns(s.conns[c].s)])
    case Close(c) =>
      s.(conns := s.conns[c := Closed], dead := if s.conns[c].Owns? then s.dead + {s.conns[c].s} else s.dead)
    case EndLook(e) =>
      var name := s.enders[e].name;
      s.(enders := s.enders[e := if name in s.index.byName then Looked(name) else Ended])
    case EndTake(e) =>
      var name := s.enders[e].name;
      if name in s.index.byName then
        var x := s.index.byName[name];
        s.(index := Removed(s.index, x), enders := s.enders[e := Doomed(x)])
      else s.(enders := s.enders[e := Ended])
    case EndDelete(e) => s.(enders := s.enders[e := Ended], dead := s.dead + {s.enders[e].s})
    case SweepLook(w, ids) => s.(sweeps := s.sweeps[w := ids])
    case SweepTake(w) =>
      s.(index := Swept(s.index, s.sweeps[w]), sweeps := s.sweeps - {w},
         dead := s.dead + SweptOut(s.index, s.sweeps[w]))
    case DeleteUser(u) =>
      s.(users := s.users - {u},
         dead := if s.users[u].session.Some? then s.dead + {s.users[u].session.value} else s.dead)
    case DestroyAll => s.(index := Index(map[], map[]), dead := s.dead + s.index.byId.Values)
  }

  /** ---- Ownership ---- */

  datatype Place = Manager | OfConn(c: nat) | OfUser(u: nat) | OfEnder(e: nat) | Freed

  /** Is the session there? */
  predicate At(s: State, x: Session, p: Place) {
    match p
    case Manager => Holds(s.index, x)
    case OfConn(c) => c in s.conns && (s.conns[c] == Holding(x) || s.conns[c] == Owns(x))
    case OfUser(u) => u in s.users && s.users[u].session == Some(x)
    case OfEnder(e) => e in s.enders && s.enders[e] == Doomed(x)
    case Freed => x in s.dead
  }

  /** Where every session is: the sessions created are those with a place, and each has exactly that one. */
  ghost predicate Located(s: State, place: map<Session, Place>) {
    && place.Keys == s.created
    && forall x, p :: At(s, x, p) <==> x in place && place[x] == p
  }

  ghost predicate Inv(s: State, place: map<Session, Place>) {
    Consistent(s.index) && Located(s, place)
  }

  /** The session a step hands on, if any, with its place before and its place after. */
  datatype Hand = Hand(session: Session, from: Place, to: Place)

  ghost function Handed(s: State, op: Op): Option<Hand> {
    match op
    case VerifyTake(c) =>
      if c in s.conns && s.conns[c].Gap? && s.conns[c].name in s.index.byName then
        Some(Hand(s.index.byName[s.conns[c].name], Manager, OfConn(c))) else None
    case EndTake(e) =>
      if e in s.enders && s.enders[e].Looked? && s.enders[e].name in s.index.byName then
        Some(Hand(s.index.byName[s.enders[e].name], Manager, OfEnder(e))) else None
    case VerifyUser(c) =>
      if c in s.conns && s.conns[c].NoSession? && s.conns[c].name in s.users
        && s.users[s.conns[c].name].isProtected && s.users[s.conns[c].name].session.Some? then
        Some(Hand(s.users[s.conns[c].name].session.value, OfUser(s.conns[c].name), OfConn(c))) else None
    case VerifySet(c) =>
      if c in s.conns && s.conns[c].Holding? then Some(Hand(s.conns[c].s, OfConn(c), OfConn(c))) else None
    case Close(c) =>
      if c in s.conns && s.conns[c].Owns? then Some(Hand(s.conns[c].s, OfConn(c), Freed)) else None
    case EndDelete(e) =>
      if e in s.enders && s.enders[e].Doomed? then Some(Hand(s.enders[e].s, OfEnder(e), Freed)) else None
    case DeleteUser(u) =>
      if u in s.users && s.users[u].session.Some? then Some(Hand(s.users[u].session.value, OfUser(u), Freed)) else None
    case _ => None
  }

  /** Where every session is after a step. */
  ghost function Moved(s: State, op: Op, timeOut: nat, place: map<Session, Place>): map<Session, Place>
    requires Enabled(s, op, timeOut)
  {
    match op
    case Start(x) => place[x := if CanAdd(s.index, x) then Manager else Freed]
    case SweepTake(w) =>
      map x | x in place :: if x in SweptOut(s.index, s.sweeps[w]) then Freed else place[x]
    case DestroyAll => map x | x in place :: if Holds(s.index, x) then Freed else place[x]
    case _ => if Handed(s, op).Some? then place[Handed(s, op).value.session := Handed(s, op).value.to] else place
  }

  lemma HandedPlace(s: State, op: Op, place: map<Session, Place>)
    requires Inv(s, place) && Handed(s, op).Some?
    ensures var h := Handed(s, op).value;
            At(s, h.session, h.from) && h.session in place && place[h.session] == h.from
            && (h.from == Manager ==> Holds(s.index, h.session))
  {
    var h := Handed(s, op).value;
    assert At(s, h.session, h.from);
  }

  /** The session is handed on from that place. */
  ghost predicate TakenFrom(s: State, op: Op, t: Session, p: Place) {
    Handed(s, op).Some? && Handed(s, op).value.session == t && Handed(s, op).value.from == p
  }

  ghost predicate GivenTo(s: State, op: Op, t: Session, p: Place) {
    Handed(s, op).Some? && Handed(s, op).value.session == t && Handed(s, op).value.to == p
  }

  /** The index after a step, session by session. */
  lemma IndexStep(s: State, op: Op, timeOut: nat, t: Session)
    requires Consistent(s.index) && Enabled(s, op, timeOut)
    ensures var ix := Apply(s, op, timeOut).index;
            && Consistent(ix)
            && Holds(ix, t) == match op {
                 case Start(x) => Holds(s.index, t) || (t == x && CanAdd(s.index, x))
                 case SweepTake(w) => Holds(s.index, t) && t !in SweptOut(s.index, s.sweeps[w])
                 case DestroyAll => false
                 case _ => Holds(s.index, t) && !TakenFrom(s, op, t, Manager)
               }
  {
    match op
    case Start(x) => AddedIsConsistent(s.index, x);
    case SweepTake(w) => SweptIsConsistent(s.index, s.sweeps[w]);
    case VerifyTake(_) =>
      if Handed(s, op).Some? {
        RemovedIsConsistent(s.index, Handed(s, op).value.session);
      }
    case EndTake(_) =>
      if Handed(s, op).Some? {
        RemovedIsConsistent(s.index, Handed(s, op).value.session);
      }
    case _ =>
  }

  lemma StepManager(s: State, op: Op, timeOut: nat, place: map<Session, Place>, t: Session)
    requires Inv(s, place) && Enabled(s, op, timeOut)
    ensures var place' := Moved(s, op, timeOut, place);
            At(Apply(s, op, timeOut), t, Manager) <==> t in place' && place'[t] == Manager
  {
    assert At(s, t, Manager) <==> t in place && place[t] == Manager;
    IndexStep(s, op, timeOut, t);
    if Handed(s, op).Some? {
      HandedPlace(s, op, place);
    }
    if op.SweepTake? {
      SweptIsConsistent(s.index, s.sweeps[op.w]);
    }
  }

  lemma StepFreed(s: State, op: Op, timeOut: nat, place: map<Session, Place>, t: Session)
    requires Inv(s, place) && Enabled(s, op, timeOut)
    ensures var place' := Moved(s, op, timeOut, place);
            At(Apply(s, op, timeOut), t, Freed) <==> t in place' && place'[t] == Freed
  {
    assert At(s, t, Freed) <==> t in place && place[t] == Freed;
    assert At(s, t, Manager) <==> t in place && place[t] == Manager;
    if Handed(s, op).Some? {
      HandedPlace(s, op, place);
    }
    if op.SweepTake? {
      SweptIsConsistent(s.index, s.sweeps[op.w]);
    }
    if op.DestroyAll? {
      assert t in s.index.byId.Values <==> Holds(s.index, t);
    }
    if op.Start? {
      assert op.s !in s.created;
    }
  }

  lemma ConnStep(s: State, op: Op, timeOut: nat, t: Session, c: nat)
    requires Enabled(s, op, timeOut)
    ensures At(Apply(s, op, timeOut), t, OfConn(c))
       <==> GivenTo(s, op, t, OfConn(c)) || (At(s, t, OfConn(c)) && !TakenFrom(s, op, t, OfConn(c)))
  {
  }

  lemma UserStep(s: State, op: Op, timeOut: nat, t: Session, u: nat)
    requires Enabled(s, op, timeOut)
    ensures At(Apply(s, op, timeOut), t, OfUser(u))
       <==> GivenTo(s, op, t, OfUser(u)) || (At(s, t, OfUser(u)) && !TakenFrom(s, op, t, OfUser(u)))
  {
  }

  lemma EnderStep(s: State, op: Op, timeOut: nat, t: Session, e: nat)
    requires Enabled(s, op, timeOut)
    ensures At(Apply(s, op, timeOut), t, OfEnder(e))
       <==> GivenTo(s, op, t, OfEnder(e)) || (At(s, t, OfEnder(e)) && !TakenFrom(s, op, t, OfEnder(e)))
  {
  }

  /** What a connection, a user or an ending call has after a step. */
  lemma HolderStep(s: State, op: Op, timeOut: nat, t: Session, p: Place)
    requires Enabled(s, op, timeOut) && p != Manager && p != Freed
    ensures At(Apply(s, op, timeOut), t, p) <==> GivenTo(s, op, t, p) || (At(s, t, p) && !TakenFrom(s, op, t, p))
  {
    match p
    case OfConn(c) => ConnStep(s, op, timeOut, t, c);
    case OfUser(u) => UserStep(s, op, timeOut, t, u);
    case OfEnder(e) => EnderStep(s, op, timeOut, t, e);
  }

  lemma HolderPlace(s: State, op: Op, timeOut: nat, place: map<Session, Place>, t: Session, p: Place)
    requires Inv(s, place) && Enabled(s, op, timeOut) && p != Manager && p != Freed
    ensures var place' := Moved(s, op, timeOut, place);
            t in place' && place'[t] == p <==> GivenTo(s, op, t, p) || (At(s, t, p) && !TakenFrom(s, op, t, p))
  {
    assert At(s, t, p) <==> t in place && place[t] == p;
    assert At(s, t, Manager) <==> t in place && place[t] == Manager;
    if Handed(s, op).Some? {
      HandedPlace(s, op, place);
    }
    if op.SweepTake? {
      SweptIsConsistent(s.index, s.sweeps[op.w]);
    }
    if op.Start? {
      assert op.s !in s.created;
    }
  }

  lemma StepPlaces(s: State, op: Op, timeOut: nat, place: map<Session, Place>, t: Session, p: Place)
    requires Inv(s, place) && Enabled(s, op, timeOut)
    ensures var place' := Moved(s, op, timeOut, place);
            At(Apply(s, op, timeOut), t, p) <==> t in place' && place'[t] == p
  {
    match p
    case Manager => StepManager(s, op, timeOut, place, t);
    case Freed => StepFreed(s, op, timeOut, place, t);
    case _ =>
      HolderStep(s, op, timeOut, t, p);
      HolderPlace(s, op, timeOut, place, t, p);
  }

  lemma StepKeepsInv(s: State, op: Op, timeOut: nat, place: map<Session, Place>)
    requires Inv(s, place) && Enabled(s, op, timeOut)
    ensures Inv(Apply(s, op, timeOut), Moved(s, op, timeOut, place))
  {
    var s', place' := Apply(s, op, timeOut), Moved(s, op, timeOut, place);
    if Handed(s, op).Some? {
      HandedPlace(s, op, place);
    }
    assert place'.Keys == s'.created;
    IndexStep(s, op, timeOut, Session(0, 0, 0, 0));
    forall t, p
      ensures At(s', t, p) <==> t in place' && place'[t] == p
    {
      StepPlaces(s, op, timeOut, place, t, p);
    }
  }

  /** ---- Whole runs ---- */

  ghost predicate Legal(s: State, ops: seq<Op>, timeOut: nat)
    decreases |ops|
  {
    ops != [] ==> Enabled(s, ops[0], timeOut) && Legal(Apply(s, ops[0], timeOut), ops[1..], timeOut)
  }

  ghost function Run(s: State, ops: seq<Op>, timeOut: nat): State
    requires Legal(s, ops, timeOut)
    decreases |ops|
  {
    if ops == [] then s else Run(Apply(s, ops[0], timeOut), ops[1..], timeOut)
  }

  /** Before anything has happened. */
  ghost predicate Begins(s: State) {
    && s.index == Index(map[], map[]) && s.created == {} && s.dead == {} && s.sweeps == map[]
    && (forall c :: c in s.conns ==> s.conns[c] == Fresh)
    && (forall u :: u in s.users ==> s.users[u].session == None)
    && (forall e :: e in s.enders ==> s.enders[e].Begun?)
  }

  /** Every session created is in exactly one place, and nothing else is anywhere. */
  ghost predicate OwnedOnce(s: State) {
    && Consistent(s.index)
    && (forall x, p :: At(s, x, p) ==> x in s.created)
    && (forall x :: x in s.created ==> exists p :: At(s, x, p))
    && (forall x, p, q :: At(s, x, p) && At(s, x, q) ==> p == q)
  }

  lemma InvOwnsOnce(s: State, place: map<Session, Place>)
    requires Inv(s, place)
    ensures OwnedOnce(s)
  {
    forall x | x in s.created
      ensures exists p :: At(s, x, p)
    {
      assert At(s, x, place[x]);
    }
  }

  lemma {:induction false} RunKeepsInv(s: State, ops: seq<Op>, timeOut: nat, place: map<Session, Place>)
      returns (place': map<Session, Place>)
    requires Inv(s, place) && Legal(s, ops, timeOut)
    ensures Inv(Run(s, ops, timeOut), place')
    decreases |ops|
  {
    if ops == [] {
      place' := place;
    } else {
      StepKeepsInv(s, ops[0], timeOut, place);
      place' := RunKeepsInv(Apply(s, ops[0], timeOut), ops[1..], timeOut, Moved(s, ops[0], timeOut, place));
    }
  }

  /** Under every interleaving a session is in the manager, under both its keys, or with exactly one
  connection, user or ending call, or freed: it never goes to two of them, is never freed while
  somebody has it, and never gets lost. */
  lemma EveryRunOwnsOnce(s: State, ops: seq<Op>, timeOut: nat)
    requires Begins(s) && Legal(s, ops, timeOut)
    ensures OwnedOnce(Run(s, ops, timeOut))
  {
    var place := map[];
    forall x, p
      ensures !At(s, x, p)
    {
      match p
      case OfConn(c) =>
      case _ =>
    }
    assert Inv(s, place);
    place := RunKeepsInv(s, ops, timeOut, place);
    InvOwnsOnce(Run(s, ops, timeOut), place);
  }

  /** The sessions a step frees. */
  ghost function Frees(s: State, op: Op): set<Session> {
    match op
    case Start(x) => if CanAdd(s.index, x) then {} else {x}
    case Close(c) => if c in s.conns && s.conns[c].Owns? then {s.conns[c].s} else {}
    case EndDelete(e) => if e in s.enders && s.enders[e].Doomed? then {s.enders[e].s} else {}
    case SweepTake(w) => if w in s.sweeps then SweptOut(s.index, s.sweeps[w]) else {}
    case DeleteUser(u) => if u in s.users && s.users[u].session.Some? then {s.users[u].session.value} else {}
    case DestroyAll => s.index.byId.Values
    case _ => {}
  }

  /** Nothing is freed twice, and what a step frees belonged at that moment to the step alone. */
  lemma FreedOnce(s: State, op: Op, timeOut: nat, x: Session, p: Place)
    requires OwnedOnce(s) && Enabled(s, op, timeOut) && x in Frees(s, op)
    ensures Apply(s, op, timeOut).dead == s.dead + Frees(s, op) && x !in s.dead
    ensures At(s, x, p) ==> match p {
              case Manager => op.SweepTake? || op.DestroyAll?
              case OfConn(c) => op == Close(c)
              case OfEnder(e) => op == EndDelete(e)
              case OfUser(u) => op == DeleteUser(u)
              case Freed => false
            }
  {
    assert At(s, x, Freed) <==> x in s.dead;
    match op
    case Start(y) => assert x !in s.created;
    case Close(c) => assert At(s, x, OfConn(c));
    case EndDelete(e) => assert At(s, x, OfEnder(e));
    case SweepTake(w) =>
      SweptIsConsistent(s.index, s.sweeps[w]);
      assert At(s, x, Manager);
    case DeleteUser(u) => assert At(s, x, OfUser(u));
    case DestroyAll =>
      assert Holds(s.index, x);
      assert At(s, x, Manager);
  }

  /** ---- A sweep frees only what has timed out ---- */

  ghost predicate IdsAreUnique(s: State) {
    forall x, y :: x in s.created && y in s.created && x.sid == y.sid ==> x == y
  }

  /** Every id a sweep has collected is that of a session that had timed out. */
  ghost predicate SweepsAreLate(s: State, timeOut: nat) {
    forall w, i :: w in s.sweeps && i in s.sweeps[w] ==>
      exists x :: x in s.created && x.sid == i && Late(x, s.now, timeOut)
  }

  lemma StepKeepsLate(s: State, op: Op, timeOut: nat)
    requires OwnedOnce(s) && SweepsAreLate(s, timeOut) && Enabled(s, op, timeOut)
    ensures SweepsAreLate(Apply(s, op, timeOut), timeOut)
  {
    var s' := Apply(s, op, timeOut);
    forall w, i | w in s'.sweeps && i in s'.sweeps[w]
      ensures exists x :: x in s'.created && x.sid == i && Late(x, s'.now, timeOut)
    {
      if w in s.sweeps {
        var x :| x in s.created && x.sid == i && Late(x, s.now, timeOut);
        assert x in s'.created && Late(x, s'.now, timeOut);
      } else {
        var x := s.index.byId[i];
        assert At(s, x, Manager);
        assert x in s'.created && x.sid == i && Late(x, s'.now, timeOut);
      }
    }
  }

  lemma {:induction false} RunKeepsLate(s: State, ops: seq<Op>, timeOut: nat, place: map<Session, Place>)
    requires Inv(s, place) && SweepsAreLate(s, timeOut) && Legal(s, ops, timeOut)
    ensures SweepsAreLate(Run(s, ops, timeOut), timeOut)
    decreases |ops|
  {
    if ops != [] {
      InvOwnsOnce(s, place);
      StepKeepsInv(s, ops[0], timeOut, place);
      StepKeepsLate(s, ops[0], timeOut);
      RunKeepsLate(Apply(s, ops[0], timeOut), ops[1..], timeOut, Moved(s, ops[0], timeOut, place));
    }
  }

  /** Although the sweep keeps only ids between its two locks, every session it frees has timed out,
  provided no id is ever used again. */
  lemma SweptAreLate(s: State, w: nat, timeOut: nat, x: Session)
    requires OwnedOnce(s) && SweepsAreLate(s, timeOut) && IdsAreUnique(s)
    requires w in s.sweeps && x in SweptOut(s.index, s.sweeps[w])
    ensures Late(x, s.now, timeOut)
  {
    SweptIsConsistent(s.index, s.sweeps[w]);
    assert At(s, x, Manager);
    var y :| y in s.created && y.sid == x.sid && Late(y, s.now, timeOut);
  }

  /** One session, under the id 7, has timed out, and a sweep has collected that id. */
  function SweepOpen(first: Session, timeOut: nat): State {
    State(timeOut, Index(map[7 := first], map[3 := first]), map[0 := Fresh], map[], map[], map[0 := [7]], {first}, {})
  }

  /** With an id used again, the sweep frees a session that has only just begun. */
  lemma ReusedIdIsSwept(timeOut: nat) returns (s: State, ops: seq<Op>, young: Session)
    requires timeOut > 0
    ensures Begins(s) && Legal(s, ops, timeOut)
    ensures var s' := Run(s, ops, timeOut); young in s'.dead && young.start == s'.now && !Late(young, s'.now, timeOut)
  {
    var first := Session(0, 7, 3, 0);
    young := Session(1, 7, 4, timeOut);
    s := State(0, Index(map[], map[]), map[0 := Fresh], map[], map[], map[], {}, {});
    var t := SweepOpen(first, timeOut);
    var o3 := SweptAfterReuse(t, first, young, timeOut);
    var s1 := Apply(s, Start(first), timeOut);
    var s2 := Apply(s1, Advance(timeOut), timeOut);
    var o2 := [SweepLook(0, [7])] + o3;
    var o1 := [Advance(timeOut)] + o2;
    ops := [Start(first)] + o1;
    assert Apply(s2, SweepLook(0, [7]), timeOut) == t;
    RunHead(t, s2, SweepLook(0, [7]), o3, timeOut);
    RunHead(s2, s1, Advance(timeOut), o2, timeOut);
    RunHead(s1, s, Start(first), o1, timeOut);
  }

  /** While a sweep that has collected an id is between its two locks, the session with that id is verified
  and another one begins under the id. */
  lemma SweptAfterReuse(t: State, first: Session, young: Session, timeOut: nat) returns (ops: seq<Op>)
    requires first == Session(0, 7, 3, 0) && young == Session(1, 7, 4, timeOut) && timeOut > 0
    requires t == SweepOpen(first, timeOut)
    ensures Legal(t, ops, timeOut) && young in Run(t, ops, timeOut).dead && Run(t, ops, timeOut).now == timeOut
  {
    var t1 := Apply(t, VerifyLook(0, 3), timeOut);
    var t2 := Apply(t1, VerifyTake(0), timeOut);
    var t3 := Apply(t2, Start(young), timeOut);
    assert t3.index.byId[7] == young;
    assert SweptOut(t3.index, [7]) == {young} + SweptOut(Removed(t3.index, young), [7][1..]);
    var o3 := [SweepTake(0)] + [];
    var o2 := [Start(young)] + o3;
    var o1 := [VerifyTake(0)] + o2;
    ops := [VerifyLook(0, 3)] + o1;
    RunHead(Apply(t3, SweepTake(0), timeOut), t3, SweepTake(0), [], timeOut);
    RunHead(t3, t2, Start(young), o3, timeOut);
    RunHead(t2, t1, VerifyTake(0), o2, timeOut);
    RunHead(t1, t, VerifyLook(0, 3), o1, timeOut);
  }

  lemma RunHead(s': State, s: State, op: Op, rest: seq<Op>, timeOut: nat)
    requires Enabled(s, op, timeOut) && s' == Apply(s, op, timeOut) && Legal(s', rest, timeOut)
    ensures Legal(s, [op] + rest, timeOut) && Run(s, [op] + rest, timeOut) == Run(s', rest, timeOut)
  {
    assert ([op] + rest)[1..] == rest;
  }

  /** ---- When exactly a young session is swept ---- */

  /** A sweep between its two locks has this id. */
  ghost predicate IdIsHeld(s: State, sid: nat) {
    exists w :: w in s.sweeps && sid in s.sweeps[w]
  }

  /** Some sweep of the run frees x before it has timed out. */
  ghost predicate SweepsYoung(s: State, ops: seq<Op>, timeOut: nat, x: Session)
    requires Legal(s, ops, timeOut)
    decreases |ops|
  {
    ops != [] &&
    (FreesYoung(s, ops[0], timeOut, x) || SweepsYoung(Apply(s, ops[0], timeOut), ops[1..], timeOut, x))
  }

  /** A way to go on in which that happens. */
  ghost predicate CostsYoung(s: State, ops: seq<Op>, timeOut: nat, x: Session) {
    Legal(s, ops, timeOut) && SweepsYoung(s, ops, timeOut, x)
  }

  ghost predicate FreesYoung(s: State, op: Op, timeOut: nat, x: Session) {
    op.SweepTake? && x in Frees(s, op) && !Late(x, s.now, timeOut)
  }

  /** As long as it is in the manager, x is safe from the open sweeps or has timed out. */
  ghost predicate Safe(s: State, x: Session, timeOut: nat) {
    Holds(s.index, x) && IdIsHeld(s, x.sid) ==> Late(x, s.now, timeOut)
  }

  lemma SafeIsNotFreedYoung(s: State, op: Op, timeOut: nat, x: Session)
    requires Consistent(s.index) && Enabled(s, op, timeOut) && Safe(s, x, timeOut)
    ensures !FreesYoung(s, op, timeOut, x)
  {
    if op.SweepTake? {
      SweptIsConsistent(s.index, s.sweeps[op.w]);
      assert x.sid in s.sweeps[op.w] ==> IdIsHeld(s, x.sid);
    }
  }

  /** What makes a session unsafe is only its own start, under an id held. */
  lemma StepKeepsSafe(s: State, op: Op, timeOut: nat, x: Session)
    requires Consistent(s.index) && Enabled(s, op, timeOut) && Safe(s, x, timeOut)
    requires op == Start(x) && CanAdd(s.index, x) ==> !IdIsHeld(s, x.sid)
    ensures Consistent(Apply(s, op, timeOut).index) && Safe(Apply(s, op, timeOut), x, timeOut)
  {
    var s' := Apply(s, op, timeOut);
    IndexStep(s, op, timeOut, x);
    if Holds(s'.index, x) && IdIsHeld(s', x.sid) {
      var w :| w in s'.sweeps && x.sid in s'.sweeps[w];
      if w in s.sweeps {
        assert IdIsHeld(s, x.sid);
      }
    }
  }

  lemma {:induction false} SafeIsNeverSwept(s: State, ops: seq<Op>, timeOut: nat, x: Session)
    requires Consistent(s.index) && x in s.created && Safe(s, x, timeOut) && Legal(s, ops, timeOut)
    ensures !SweepsYoung(s, ops, timeOut, x)
    decreases |ops|
  {
    if ops != [] {
      SafeIsNotFreedYoung(s, ops[0], timeOut, x);
      StepKeepsSafe(s, ops[0], timeOut, x);
      SafeIsNeverSwept(Apply(s, ops[0], timeOut), ops[1..], timeOut, x);
    }
  }

  lemma HeldIdIsSwept(s: State, x: Session, timeOut: nat) returns (ops: seq<Op>)
    requires Consistent(s.index) && Holds(s.index, x) && IdIsHeld(s, x.sid) && !Late(x, s.now, timeOut)
    ensures CostsYoung(s, ops, timeOut, x)
  {
    var w :| w in s.sweeps && x.sid in s.sweeps[w];
    SweptIsConsistent(s.index, s.sweeps[w]);
    ops := [SweepTake(w)];
    assert ops[1..] == [];
  }

  /** After a session has been added, some way to go on has a sweep free it before its time exactly when at that
  moment it has not timed out and a sweep between its two locks has its id. */
  lemma YoungIsSweptWhen(s: State, x: Session, timeOut: nat)
    requires Consistent(s.index) && Enabled(s, Start(x), timeOut) && CanAdd(s.index, x)
    ensures var s1 := Apply(s, Start(x), timeOut);
            (exists ops :: CostsYoung(s1, ops, timeOut, x))
            <==> !Late(x, s.now, timeOut) && IdIsHeld(s, x.sid)
  {
    var s1 := Apply(s, Start(x), timeOut);
    AddedIsConsistent(s.index, x);
    if !Late(x, s.now, timeOut) && IdIsHeld(s, x.sid) {
      var ops := HeldIdIsSwept(s1, x, timeOut);
      assert CostsYoung(s1, ops, timeOut, x);
    } else {
      assert Safe(s1, x, timeOut);
      forall ops
        ensures !CostsYoung(s1, ops, timeOut, x)
      {
        if Legal(s1, ops, timeOut) {
          SafeIsNeverSwept(s1, ops, timeOut, x);
        }
      }
    }
  }

  /** No session of the run begins under an id that a sweep between its two locks has. */
  ghost predicate StartsClear(s: State, ops: seq<Op>, timeOut: nat)
    requires Legal(s, ops, timeOut)
    decreases |ops|
  {
    ops != [] ==>
      && (ops[0].Start? && CanAdd(s.index, ops[0].s) ==> !IdIsHeld(s, ops[0].s.sid))
      && StartsClear(Apply(s, ops[0], timeOut), ops[1..], timeOut)
  }

  /** Then, over the whole run, every session that a sweep frees has timed out. */
  lemma RunSweepsLate(s: State, ops: seq<Op>, timeOut: nat, x: Session)
    requires Begins(s) && Legal(s, ops, timeOut) && StartsClear(s, ops, timeOut)
    ensures !SweepsYoung(s, ops, timeOut, x)
  {
    ClearSweepsLate(s, ops, timeOut, x);
  }

  lemma {:induction false} ClearSweepsLate(s: State, ops: seq<Op>, timeOut: nat, x: Session)
    requires Consistent(s.index) && Safe(s, x, timeOut) && Legal(s, ops, timeOut) && StartsClear(s, ops, timeOut)
    ensures !SweepsYoung(s, ops, timeOut, x)
    decreases |ops|
  {
    if ops != [] {
      SafeIsNotFreedYoung(s, ops[0], timeOut, x);
      StepKeepsSafe(s, ops[0], timeOut, x);
      ClearSweepsLate(Apply(s, ops[0], timeOut), ops[1..], timeOut, x);
    }
  }

  /** An id that is held has been used, by a session that had timed out; so a new id is always clear. */
  lemma HeldIdWasUsed(s: State, sid: nat, timeOut: nat)
    requires SweepsAreLate(s, timeOut) && IdIsHeld(s, sid)
    ensures exists x :: x in s.created && x.sid == sid && Late(x, s.now, timeOut)
  {
    var w :| w in s.sweeps && sid in s.sweeps[w];
  }

  /** Every session of the run begins under an id that none has had before. */
  ghost predicate NewIds(s: State, ops: seq<Op>, timeOut: nat)
    requires Legal(s, ops, timeOut)
    decreases |ops|
  {
    ops != [] ==>
      && (ops[0].Start? ==> forall x :: x in s.created ==> x.sid != ops[0].s.sid)
      && NewIds(Apply(s, ops[0], timeOut), ops[1..], timeOut)
  }

  /** So ids that are never used again are a case of starts under ids not held. */
  lemma {:induction false} NewIdsAreClear(s: State, ops: seq<Op>, timeOut: nat, place: map<Session, Place>)
    requires Inv(s, place) && SweepsAreLate(s, timeOut) && Legal(s, ops, timeOut) && NewIds(s, ops, timeOut)
    ensures StartsClear(s, ops, timeOut)
    decreases |ops|
  {
    if ops != [] {
      InvOwnsOnce(s, place);
      StepKeepsInv(s, ops[0], timeOut, place);
      StepKeepsLate(s, ops[0], timeOut);
      if ops[0].Start? && IdIsHeld(s, ops[0].s.sid) {
        HeldIdWasUsed(s, ops[0].s.sid, timeOut);
      }
      NewIdsAreClear(Apply(s, ops[0], timeOut), ops[1..], timeOut, Moved(s, ops[0], timeOut, place));
    }
  }

  /** ---- What a call does when nothing comes in between ---- */

  /** The session x and no other is out of the manager. */
  ghost predicate OutOfIndex(s: State, s': State, x: Session) {
    && !Holds(s'.index, x)
    && forall t :: t != x ==> (Holds(s'.index, t) <==> Holds(s.index, t))
  }

  /** A verification finds the session of its name in the manager, and ends with it on the connection. */
  lemma VerifyAlone(s: State, c: nat, name: nat, timeOut: nat)
    requires Consistent(s.index) && c in s.conns && s.conns[c] == Fresh && name in s.index.byName
    ensures var ops := [VerifyLook(c, name), VerifyTake(c), VerifySet(c)];
            && Legal(s, ops, timeOut)
            && var s', x := Run(s, ops, timeOut), s.index.byName[name];
               && s'.conns == s.conns[c := Owns(x)] && OutOfIndex(s, s', x)
               && s'.users == s.users && s'.dead == s.dead
  {
    var s1 := Apply(s, VerifyLook(c, name), timeOut);
    var s2 := Apply(s1, VerifyTake(c), timeOut);
    var s3 := Apply(s2, VerifySet(c), timeOut);
    RemovedIsConsistent(s.index, s.index.byName[name]);
    RunHead(s3, s2, VerifySet(c), [], timeOut);
    RunHead(s2, s1, VerifyTake(c), [VerifySet(c)] + [], timeOut);
    RunHead(s1, s, VerifyLook(c, name), [VerifyTake(c)] + ([VerifySet(c)] + []), timeOut);
    assert [VerifyLook(c, name)] + ([VerifyTake(c)] + ([VerifySet(c)] + []))
        == [VerifyLook(c, name), VerifyTake(c), VerifySet(c)];
  }

  /** Without one in the manager it gets the session kept for a protected user of that name, and is refused if there
  is none. */
  lemma VerifyUserAlone(s: State, c: nat, name: nat, timeOut: nat)
    requires c in s.conns && s.conns[c] == Fresh && name !in s.index.byName
    ensures var kept := name in s.users && s.users[name].isProtected && s.users[name].session.Some?;
            var ops := [VerifyLook(c, name), VerifyUser(c)] + if kept then [VerifySet(c)] else [];
            && Legal(s, ops, timeOut)
            && var s' := Run(s, ops, timeOut);
               && s'.index == s.index && s'.dead == s.dead
               && (kept ==>
                     && s'.conns == s.conns[c := Owns(s.users[name].session.value)]
                     && s'.users == s.users[name := User(None, true)])
               && (!kept ==> s'.conns == s.conns[c := Refused] && s'.users == s.users)
  {
    var kept := name in s.users && s.users[name].isProtected && s.users[name].session.Some?;
    var s1 := Apply(s, VerifyLook(c, name), timeOut);
    var s2 := Apply(s1, VerifyUser(c), timeOut);
    var last := if kept then [VerifySet(c)] + [] else [];
    if kept {
      RunHead(Apply(s2, VerifySet(c), timeOut), s2, VerifySet(c), [], timeOut);
    }
    RunHead(s2, s1, VerifyUser(c), last, timeOut);
    RunHead(s1, s, VerifyLook(c, name), [VerifyUser(c)] + last, timeOut);
    assert [VerifyLook(c, name)] + ([VerifyUser(c)] + last)
        == [VerifyLook(c, name), VerifyUser(c)] + if kept then [VerifySet(c)] else [];
  }

  /** endLoginSession frees the session of its name. */
  lemma EndAlone(s: State, e: nat, name: nat, timeOut: nat)
    requires Consistent(s.index) && e in s.enders && s.enders[e] == Begun(name) && name in s.index.byName
    ensures var ops := [EndLook(e), EndTake(e), EndDelete(e)];
            && Legal(s, ops, timeOut)
            && var s', x := Run(s, ops, timeOut), s.index.byName[name];
               && OutOfIndex(s, s', x) && s'.dead == s.dead + {x}
               && s'.conns == s.conns && s'.users == s.users && s'.enders == s.enders[e := Ended]
  {
    var s1 := Apply(s, EndLook(e), timeOut);
    var s2 := Apply(s1, EndTake(e), timeOut);
    var s3 := Apply(s2, EndDelete(e), timeOut);
    RemovedIsConsistent(s.index, s.index.byName[name]);
    RunHead(s3, s2, EndDelete(e), [], timeOut);
    RunHead(s2, s1, EndTake(e), [EndDelete(e)] + [], timeOut);
    RunHead(s1, s, EndLook(e), [EndTake(e)] + ([EndDelete(e)] + []), timeOut);
    assert [EndLook(e)] + ([EndTake(e)] + ([EndDelete(e)] + [])) == [EndLook(e), EndTake(e), EndDelete(e)];
  }

  /** A sweep frees the sessions in the manager that began at least the time-out ago, and no others. */
  lemma SweepAlone(s: State, w: nat, ids: seq<nat>, timeOut: nat)
    requires Consistent(s.index) && Enabled(s, SweepLook(w, ids), timeOut)
    ensures var ops := [SweepLook(w, ids), SweepTake(w)];
            && Legal(s, ops, timeOut)
            && var s' := Run(s, ops, timeOut);
               && s'.conns == s.conns && s'.users == s.users && s'.enders == s.enders
               && forall t ::
                    && (Holds(s'.index, t) <==> Holds(s.index, t) && s.now < t.start + timeOut)
                    && (t in s'.dead <==> t in s.dead || (Holds(s.index, t) && t.start + timeOut <= s.now))
  {
    var s1 := Apply(s, SweepLook(w, ids), timeOut);
    SweptIsConsistent(s.index, ids);
    RunHead(Apply(s1, SweepTake(w), timeOut), s1, SweepTake(w), [], timeOut);
    RunHead(s1, s, SweepLook(w, ids), [SweepTake(w)] + [], timeOut);
    assert [SweepLook(w, ids)] + ([SweepTake(w)] + []) == [SweepLook(w, ids), SweepTake(w)];
  }

  /** ---- The object ---- */

  class LoginSessionManager {
    var byId: map<nat, Session>
    var byName: map<nat, Session>

    ghost function Contents(): Index
      reads this
    {
      Index(byId, byName)
    }

    constructor ()
      ensures Contents() == Index(map[], map[])
    {
      byId, byName := map[], map[];
    }

    /** The write-locked part of startSession: into both indexes or neither. */
    method Add(s: Session) returns (ok: bool)
      modifies this
      ensures Contents() == Added(old(Contents()), s) && ok == CanAdd(old(Contents()), s)
      ensures ok <==> s.sid !in old(byId) && s.name !in old(byName)
      ensures if ok then byId == old(byId)[s.sid := s] && byName == old(byName)[s.name := s]
              else byId == old(byId) && byName == old(byName)
    {
      ok := false;
      if s.sid !in byId {
        ghost var was := byId;
        byId := byId[s.sid := s];
        if s.name !in byName {
          byName := byName[s.name := s];
          ok := true;
        } else {
          byId := byId - {s.sid};
          assert byId == was;
        }
      }
    }

    method Remove(s: Session)
      modifies this
      ensures Contents() == Removed(old(Contents()), s)
    {
      byId := byId - {s.sid};
      byName := byName - {s.name};
    }

    /** The write-locked part of verifyAccount and endLoginSession: look again, and take what is there. */
    method TakeByName(name: nat) returns (r: Option<Session>)
      modifies this
      ensures r == if name in old(byName) then Some(old(byName)[name]) else None
      ensures Contents() == if r.Some? then Removed(old(Contents()), r.value) else old(Contents())
    {
      r := None;
      if name in byName {
        r := Some(byName[name]);
        Remove(byName[name]);
      }
    }

    /** The read-locked part of checkLoginSessionTimeOut. */
    method CollectTimeOuts(now: nat, timeOut: nat) returns (ids: seq<nat>)
      ensures Collects(Contents(), now, timeOut, ids)
      ensures forall i :: i in ids <==> i in byId && byId[i].start + timeOut <= now
    {
      ids := [];
      var left := byId.Keys;
      while left != {}
        invariant left <= byId.Keys
        invariant forall i :: i in ids <==> i in byId && i !in left && Late(byId[i], now, timeOut)
      {
        var i :| i in left;
        left := left - {i};
        if Late(byId[i], now, timeOut) {
          ids := ids + [i];
        }
      }
    }

    /** The write-locked part of checkLoginSessionTimeOut; returns the sessions it frees. */
    method RemoveTimeOuts(ids: seq<nat>) returns (freed: set<Session>)
      modifies this
      ensures Contents() == Swept(old(Contents()), ids) && freed == SweptOut(old(Contents()), ids)
    {
      freed := {};
      var k := 0;
      assert ids[0..] == ids;
      while k < |ids|
        invariant 0 <= k <= |ids|
        invariant Swept(old(Contents()), ids) == Swept(Contents(), ids[k..])
        invariant SweptOut(old(Contents()), ids) == freed + SweptOut(Contents(), ids[k..])
      {
        assert ids[k..][0] == ids[k] && ids[k..][1..] == ids[k + 1..];
        if ids[k] in byId {
          var s := byId[ids[k]];
          freed := freed + {s};
          Remove(s);
        }
        k := k + 1;
      }
    }

    method DestroyAll() returns (freed: set<Session>)
      modifies this
      ensures Contents() == Index(map[], map[]) && freed == old(byId).Values
    {
      freed := byId.Values;
      byId, byName := map[], map[];
    }
  }
}
