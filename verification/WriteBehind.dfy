/** Write-behind saving of player records (dataServer/dtUser.cpp). */
module WriteBehind {
  // (With dataServer/dtUserService.cpp and dataServer/dtSerializeService.cpp.)  A player's row is
  // read once at login, changed in memory under per-field dirty flags, and written back by
  // asynchronous SQL updates that one thread executes in order.  Logout queues a last update with a
  // completion callback; until the callback has been handed back, the player is in a "waiting" set
  // that guards the next login.  The functions say what each piece of code does to a record or to
  // the whole server; `User` and `DataServer` are the objects.

  import opened Common

  type CharId = nat

  /** The columns of the character table that a login restores. */
  datatype Field = LastOfflineTime | OnlineTime | LoginTime | LastLoginIP | Other(id: nat)

  datatype Value = Number(n: int) | Bytes(b: string)

  type Row = map<Field, Value>

  /** dtUser: the row in memory, the dirty flags and the "something to flush" switch. */
  datatype Record = Record(table: Row, flags: set<Field>, needFlush: bool)

  /** One queued UPDATE; `callback` marks the one a logout waits for. */
  datatype Sql = Sql(charId: CharId, update: Row, callback: bool)

  const DWORD_RANGE: int := 0x1_0000_0000

  function Dword(n: int): int {
    n % DWORD_RANGE
  }

  function NumberAt(table: Row, f: Field): int {
    if f in table && table[f].Number? then table[f].n else 0
  }

  /** A column of a row, if it is there. */
  function Column(row: Row, f: Field): Option<Value> {
    if f in row then Some(row[f]) else None
  }

  /** ---- A record ---- */

  function Fresh(row: Row): Record {
    Record(row, {}, false)
  }

  /** Assign a field and flag it. */
  function Assign(r: Record, f: Field, v: Value): Record {
    Record(r.table[f := v], r.flags + {f}, true)
  }

  /** One block of updateUserData: nothing happens when the value is unchanged. */
  function Change(r: Record, f: Field, v: Value): Record {
    if f in r.table && r.table[f] == v then r else Assign(r, f, v)
  }

  function ChangeAll(r: Record, data: seq<(Field, Value)>): Record
    decreases |data|
  {
    if data == [] then r else ChangeAll(Change(r, data[0].0, data[0].1), data[1..])
  }

  /** setLastLoginIP flags the field but asks for no flush. */
  function ChangeLoginIP(r: Record, ip: Value): Record {
    if LastLoginIP in r.table && r.table[LastLoginIP] == ip then r
    else Record(r.table[LastLoginIP := ip], r.flags + {LastLoginIP}, r.needFlush)
  }

  function AddOnlineTime(r: Record, now: int): Record {
    var span := Dword(now - NumberAt(r.table, LoginTime));
    if span == 0 then r
    else Assign(r, OnlineTime, Number(Dword(NumberAt(r.table, OnlineTime) + span)))
  }

  /** The record after checkFlush, and the columns of the UPDATE it queues, if any. */
  function Flushed(r: Record, now: int): Record {
    if r.needFlush then Record(r.table[LastOfflineTime := Number(now)], {}, false) else r
  }

  function SavedColumns(r: Record, now: int): Row {
    var table := r.table[LastOfflineTime := Number(now)];
    map f | f in table && (f in r.flags || f == LastOfflineTime) :: table[f]
  }

  /** What unreg does before it flushes. */
  function Closing(r: Record, now: int): Record {
    AddOnlineTime(r.(needFlush := true, flags := r.flags + {LastOfflineTime}), now)
  }

  /** Every field that is not flagged is in the row as it is in memory. */
  ghost predicate Agrees(r: Record, row: Row) {
    && (forall f :: f !in r.flags ==> (f in r.table <==> f in row) && (f in r.table ==> r.table[f] == row[f]))
    && (forall f :: f in r.flags ==> f in r.table || f == LastOfflineTime)
    && (r.needFlush ==> r.flags != {})
  }

  lemma AssignAgrees(r: Record, f: Field, v: Value, row: Row)
    requires Agrees(r, row)
    ensures Agrees(Assign(r, f, v), row)
  {
    assert f in Assign(r, f, v).flags;
  }

  lemma {:induction false} ChangeAllAgrees(r: Record, data: seq<(Field, Value)>, row: Row)
    requires Agrees(r, row)
    ensures Agrees(ChangeAll(r, data), row)
    decreases |data|
  {
    if data != [] {
      AssignAgrees(r, data[0].0, data[0].1, row);
      ChangeAllAgrees(Change(r, data[0].0, data[0].1), data[1..], row);
    }
  }

  lemma LoginIPAgrees(r: Record, ip: Value, row: Row)
    requires Agrees(r, row)
    ensures Agrees(ChangeLoginIP(r, ip), row)
  {
  }

  lemma ClosingAgrees(r: Record, now: int, row: Row)
    requires Agrees(r, row)
    ensures Agrees(Closing(r, now), row) && Closing(r, now).needFlush
  {
    var r1 := r.(needFlush := true, flags := r.flags + {LastOfflineTime});
    assert LastOfflineTime in r1.flags;
    assert Agrees(r1, row);
    var online := Dword(NumberAt(r1.table, OnlineTime) + Dword(now - NumberAt(r1.table, LoginTime)));
    AssignAgrees(r1, OnlineTime, Number(online), row);
  }

  /** ---- The same in plain fields ---- */

  /** The last value given for a field. */
  function LastGiven(data: seq<(Field, Value)>, f: Field): Option<Value>
    decreases |data|
  {
    if data == [] then None
    else
      var later := LastGiven(data[1..], f);
      if later.Some? then later else if data[0].0 == f then Some(data[0].1) else None
  }

  lemma {:induction false} ChangeAllAt(r: Record, data: seq<(Field, Value)>, f: Field)
    ensures var r', given := ChangeAll(r, data), LastGiven(data, f);
            && Column(r'.table, f) == (if given.Some? then given else Column(r.table, f))
            && (Column(r'.table, f) != Column(r.table, f) ==> f in r'.flags)
            && (f in r.flags ==> f in r'.flags) && (f in r'.flags ==> f in r.flags || given.Some?)
            && (Column(r'.table, f) != Column(r.table, f) || r.needFlush ==> r'.needFlush)
    decreases |data|
  {
    if data != [] {
      ChangeAllAt(Change(r, data[0].0, data[0].1), data[1..], f);
    }
  }

  lemma {:induction false} ChangeAllSame(r: Record, data: seq<(Field, Value)>)
    requires forall k :: 0 <= k < |data| ==> Column(r.table, data[k].0) == Some(data[k].1)
    ensures ChangeAll(r, data) == r
    decreases |data|
  {
    if data != [] {
      assert Change(r, data[0].0, data[0].1) == r;
      ChangeAllSame(r, data[1..]);
    }
  }

  /** Table, flags and switch after a block of fields: every field given holds the last value given for it, the
  others are as they were, what has changed is flagged and asks for a flush, nothing else is flagged, and
  values that are there already change nothing. */
  ghost predicate SavedInto(table: Row, flags: set<Field>, flush: bool, data: seq<(Field, Value)>,
      table': Row, flags': set<Field>, flush': bool)
  {
    && (forall f :: Column(table', f) == if LastGiven(data, f).Some? then LastGiven(data, f) else Column(table, f))
    && (forall f :: Column(table', f) != Column(table, f) ==> f in flags' && flush')
    && flags <= flags' && (forall f :: f in flags' ==> f in flags || LastGiven(data, f).Some?)
    && (flush ==> flush')
    && ((forall k :: 0 <= k < |data| ==> Column(table, data[k].0) == Some(data[k].1)) ==>
          table' == table && flags' == flags && flush' == flush)
  }

  lemma ChangeAllInFields(r: Record, data: seq<(Field, Value)>)
    ensures var r' := ChangeAll(r, data);
            SavedInto(r.table, r.flags, r.needFlush, data, r'.table, r'.flags, r'.needFlush)
  {
    var r' := ChangeAll(r, data);
    forall f
      ensures Column(r'.table, f) == if LastGiven(data, f).Some? then LastGiven(data, f) else Column(r.table, f)
      ensures Column(r'.table, f) != Column(r.table, f) ==> f in r'.flags && r'.needFlush
      ensures f in r.flags ==> f in r'.flags
      ensures f in r'.flags ==> f in r.flags || LastGiven(data, f).Some?
    {
      ChangeAllAt(r, data, f);
    }
    ChangeAllAt(r, data, OnlineTime);
    if forall k :: 0 <= k < |data| ==> Column(r.table, data[k].0) == Some(data[k].1) {
      ChangeAllSame(r, data);
    }
  }

  /** The statement of a flush: the flagged columns and the time of going offline, with the values in memory. */
  ghost predicate Saves(columns: Row, table: Row, flags: set<Field>, now: int) {
    && (forall f :: f in columns <==> f == LastOfflineTime || (f in flags && f in table))
    && (forall f :: f in columns ==> columns[f] == if f == LastOfflineTime then Number(now) else table[f])
  }

  /** The record as the last save of a logout finds it: the time since the login, in 32 bits, is added. */
  ghost predicate ClosedAs(table: Row, table': Row, now: int) {
    var span := (now - NumberAt(table, LoginTime)) % 0x1_0000_0000;
    && (forall f :: f != OnlineTime ==> Column(table', f) == Column(table, f))
    && Column(table', OnlineTime) ==
         if span == 0 then Column(table, OnlineTime)
         else Some(Number((NumberAt(table, OnlineTime) + span) % 0x1_0000_0000))
  }

  /** The last save of a record with that table and those flags: the record after it, and the statement, which has
  every column that was flagged and the online time if it has changed. */
  ghost predicate LastSave(table: Row, flags: set<Field>, now: int, table': Row, columns: Row) {
    && ClosedAs(table[LastOfflineTime := Number(now)], table', now)
    && Column(columns, LastOfflineTime) == Some(Number(now))
    && (forall f :: f in columns ==> Column(table', f) == Some(columns[f]))
    && (forall f :: f in flags && f in table' ==> f in columns)
    && (Column(table', OnlineTime) != Column(table, OnlineTime) ==> OnlineTime in columns)
    && (forall f :: f in columns ==> f in flags || f == OnlineTime || f == LastOfflineTime)
  }

  lemma ClosingSaves(r: Record, now: int)
    ensures LastSave(r.table, r.flags, now, Flushed(Closing(r, now), now).table, SavedColumns(Closing(r, now), now))
  {
    ClosingInFields(r, now);
  }

  lemma ClosingInFields(r: Record, now: int)
    ensures var r' := Closing(r, now);
            && ClosedAs(r.table, r'.table, now) && r'.needFlush
            && r.flags + {LastOfflineTime} <= r'.flags <= r.flags + {LastOfflineTime, OnlineTime}
            && (Column(r'.table, OnlineTime) != Column(r.table, OnlineTime) ==> OnlineTime in r'.flags)
  {
  }

  /** A flush makes the row, once updated, equal to memory on every field. */
  lemma FlushAgrees(r: Record, now: int, row: Row)
    requires Agrees(r, row) && r.needFlush
    ensures row + SavedColumns(r, now) == Flushed(r, now).table
    ensures Agrees(Flushed(r, now), row + SavedColumns(r, now))
  {
    var table, cols := Flushed(r, now).table, SavedColumns(r, now);
    forall f
      ensures f in row + cols <==> f in table
      ensures f in table ==> (row + cols)[f] == table[f]
    {
    }
  }

  /** ---- The server ---- */

  /** db: the rows; online: the users in memory; wait: characters whose last save is pending; queue:
  the SQL thread's FIFO; results: callbacks executed but not yet handed back.  `last` is history:
  each character's row in memory at its latest logout, or its row when it was created. */
  datatype State = State(
    db: map<CharId, Row>, online: map<CharId, Record>, wait: set<CharId>,
    queue: seq<Sql>, results: seq<CharId>, last: map<CharId, Row>)

  datatype Op =
    | Create(charId: CharId, row: Row)
    | Login(charId: CharId, ip: Value)
    | Save(charId: CharId, data: seq<(Field, Value)>)
    | Set(charId: CharId, field: Field, value: Value)
    | Tick(charId: CharId, now: int)
    | Logout(charId: CharId, now: int)
    | ExecSql
    | HandBack

  function Enqueue(s: State, c: CharId, now: int, callback: bool): State
    requires c in s.online
  {
    if s.online[c].needFlush then
      s.(queue := s.queue + [Sql(c, SavedColumns(s.online[c], now), callback)],
         online := s.online[c := Flushed(s.online[c], now)])
    else s
  }

  function LoggedIn(s: State, c: CharId, ip: Value): State {
    if c in s.online || c !in s.db then s
    else s.(online := s.online[c := ChangeLoginIP(Fresh(s.db[c]), ip)])
  }

  function LoggedOut(s: State, c: CharId, now: int): State {
    if c !in s.online then s
    else
      var closing := Closing(s.online[c], now);
      s.(online := s.online - {c},
         wait := s.wait + {c},
         queue := s.queue + [Sql(c, SavedColumns(closing, now), true)],
         last := s.last[c := Flushed(closing, now).table])
  }

  /** The SQL thread runs the oldest statement; an UPDATE of a missing row changes nothing. */
  function Executed(s: State): State {
    if s.queue == [] then s
    else
      var sql := s.queue[0];
      s.(queue := s.queue[1..],
         db := if sql.charId in s.db then s.db[sql.charId := s.db[sql.charId] + sql.update] else s.db,
         results := if sql.callback then s.results + [sql.charId] else s.results)
  }

  function HandedBack(s: State): State {
    s.(wait := s.wait - (set c | c in s.results), results := [])
  }

  function Apply(s: State, op: Op): State {
    match op
    case Create(c, row) => if c in s.db then s else s.(db := s.db[c := row], last := s.last[c := row])
    case Login(c, ip) => LoggedIn(s, c, ip)
    case Save(c, data) => if c in s.online then s.(online := s.online[c := ChangeAll(s.online[c], data)]) else s
    case Set(c, f, v) => if c in s.online then s.(online := s.online[c := Assign(s.online[c], f, v)]) else s
    case Tick(c, now) => if c in s.online then Enqueue(s, c, now, false) else s
    case Logout(c, now) => LoggedOut(s, c, now)
    case ExecSql => Executed(s)
    case HandBack => HandedBack(s)
  }

  /** reg asserts that the previous save of the character is complete. */
  predicate Guarded(s: State, op: Op) {
    op.Login? ==> op.charId !in s.wait
  }

  /** A row with the updates queued for the character applied in order. */
  function Overlay(row: Row, queue: seq<Sql>, c: CharId): Row
    decreases |queue|
  {
    if queue == [] then row
    else Overlay(if queue[0].charId == c then row + queue[0].update else row, queue[1..], c)
  }

  lemma {:induction false} OverlayAppend(row: Row, queue: seq<Sql>, sql: Sql, c: CharId)
    ensures Overlay(row, queue + [sql], c) ==
            if sql.charId == c then Overlay(row, queue, c) + sql.update else Overlay(row, queue, c)
    decreases |queue|
  {
    if queue == [] {
      assert (queue + [sql])[1..] == [];
    } else {
      assert (queue + [sql])[1..] == queue[1..] + [sql];
      OverlayAppend(if queue[0].charId == c then row + queue[0].update else row, queue[1..], sql, c);
    }
  }

  /** No statement for the character is queued. */
  ghost predicate Quiet(queue: seq<Sql>, c: CharId) {
    forall i :: 0 <= i < |queue| ==> queue[i].charId != c
  }

  /** No statement for the character carries a callback. */
  ghost predicate Plain(queue: seq<Sql>, c: CharId) {
    forall i :: 0 <= i < |queue| && queue[i].charId == c ==> !queue[i].callback
  }

  /** The last statement for the character, and only that one, carries a callback. */
  ghost predicate Finishing(queue: seq<Sql>, c: CharId) {
    exists k :: 0 <= k < |queue| && queue[k].charId == c && queue[k].callback &&
                (forall i :: 0 <= i < |queue| && i != k && queue[i].charId == c ==> i < k && !queue[i].callback)
  }

  lemma {:induction false} QuietOverlay(row: Row, queue: seq<Sql>, c: CharId)
    requires Quiet(queue, c)
    ensures Overlay(row, queue, c) == row
    decreases |queue|
  {
    if queue != [] {
      assert Quiet(queue[1..], c);
      QuietOverlay(row, queue[1..], c);
    }
  }

  ghost predicate NoRepeats(results: seq<CharId>) {
    forall i, j :: 0 <= i < j < |results| ==> results[i] != results[j]
  }

  /** One character: online, waiting for its last save, or at rest. */
  ghost predicate CharInv(s: State, c: CharId) {
    if c in s.online then
      && c in s.db && c !in s.wait && c !in s.results
      && Plain(s.queue, c)
      && Agrees(s.online[c], Overlay(s.db[c], s.queue, c))
    else if c in s.db then
      && c in s.last && Overlay(s.db[c], s.queue, c) == s.last[c]
      && (if c !in s.wait then Quiet(s.queue, c) && c !in s.results
          else if c in s.results then Quiet(s.queue, c) else Finishing(s.queue, c))
    else
      Quiet(s.queue, c) && c !in s.wait && c !in s.results
  }

  ghost predicate Inv(s: State) {
    NoRepeats(s.results) && forall c :: CharInv(s, c)
  }

  lemma QuietAppend(queue: seq<Sql>, sql: Sql, c: CharId)
    ensures Quiet(queue, c) && sql.charId != c ==> Quiet(queue + [sql], c)
    ensures Plain(queue, c) && (sql.charId == c ==> !sql.callback) ==> Plain(queue + [sql], c)
    ensures Plain(queue, c) && sql.charId == c && sql.callback ==> Finishing(queue + [sql], c)
    ensures Finishing(queue, c) && sql.charId != c ==> Finishing(queue + [sql], c)
  {
    var q' := queue + [sql];
    if Plain(queue, c) && sql.charId == c && sql.callback {
      assert q'[|queue|] == sql;
    }
    if Finishing(queue, c) && sql.charId != c {
      var k :| 0 <= k < |queue| && queue[k].charId == c && queue[k].callback &&
               (forall i :: 0 <= i < |queue| && i != k && queue[i].charId == c ==> i < k && !queue[i].callback);
      assert q'[k] == queue[k];
    }
  }

  /** ---- Each step keeps the invariant ---- */

  lemma LoginKeepsInv(s: State, c: CharId, ip: Value)
    requires Inv(s) && c !in s.wait
    ensures Inv(LoggedIn(s, c, ip))
    ensures c in s.db && c !in s.online ==>
              c in s.last && LoggedIn(s, c, ip).online[c] == ChangeLoginIP(Fresh(s.last[c]), ip)
  {
    if c !in s.online && c in s.db {
      var s' := LoggedIn(s, c, ip);
      assert CharInv(s, c);
      QuietOverlay(s.db[c], s.queue, c);
      LoginIPAgrees(Fresh(s.db[c]), ip, s.db[c]);
      forall d ensures CharInv(s', d) {
        assert CharInv(s, d);
      }
    }
  }

  lemma RecordChangeKeepsInv(s: State, c: CharId, r: Record)
    requires Inv(s) && c in s.online
    requires forall row :: Agrees(s.online[c], row) ==> Agrees(r, row)
    ensures Inv(s.(online := s.online[c := r]))
  {
    var s' := s.(online := s.online[c := r]);
    forall d ensures CharInv(s', d) {
      assert CharInv(s, d);
    }
  }

  lemma TickKeepsInv(s: State, c: CharId, now: int)
    requires Inv(s) && c in s.online
    ensures Inv(Enqueue(s, c, now, false))
  {
    if s.online[c].needFlush {
      var s' := Enqueue(s, c, now, false);
      var sql := Sql(c, SavedColumns(s.online[c], now), false);
      assert CharInv(s, c);
      FlushAgrees(s.online[c], now, Overlay(s.db[c], s.queue, c));
      forall d ensures CharInv(s', d) {
        assert CharInv(s, d);
        QuietAppend(s.queue, sql, d);
        if d in s.db { OverlayAppend(s.db[d], s.queue, sql, d); }
      }
    }
  }

  lemma LogoutKeepsInv(s: State, c: CharId, now: int)
    requires Inv(s) && c in s.online
    ensures Inv(LoggedOut(s, c, now))
  {
    var s', closing := LoggedOut(s, c, now), Closing(s.online[c], now);
    var sql := Sql(c, SavedColumns(closing, now), true);
    assert CharInv(s, c);
    var row := Overlay(s.db[c], s.queue, c);
    ClosingAgrees(s.online[c], now, row);
    FlushAgrees(closing, now, row);
    forall d ensures CharInv(s', d) {
      assert CharInv(s, d);
      QuietAppend(s.queue, sql, d);
      if d in s.db { OverlayAppend(s.db[d], s.queue, sql, d); }
    }
  }

  lemma ExecKeepsInv(s: State)
    requires Inv(s)
    ensures Inv(Executed(s))
  {
    if s.queue != [] {
      var s', sql := Executed(s), s.queue[0];
      assert CharInv(s, sql.charId);
      forall d ensures CharInv(s', d) {
        assert CharInv(s, d);
      }
    }
  }

  lemma HandBackKeepsInv(s: State)
    requires Inv(s)
    ensures Inv(HandedBack(s))
    ensures forall c :: c in s.results ==> c in s.wait
  {
    var s' := HandedBack(s);
    forall d ensures CharInv(s', d) && (d in s.results ==> d in s.wait) {
      assert CharInv(s, d);
    }
  }

  lemma StepKeepsInv(s: State, op: Op)
    requires Inv(s) && Guarded(s, op)
    ensures Inv(Apply(s, op))
  {
    match op
    case Create(c, row) =>
      forall d ensures CharInv(Apply(s, op), d) {
        assert CharInv(s, d);
        if d == c && c !in s.db { QuietOverlay(row, s.queue, c); }
      }
    case Login(c, ip) => LoginKeepsInv(s, c, ip);
    case Save(c, data) =>
      if c in s.online {
        forall row | Agrees(s.online[c], row) ensures Agrees(ChangeAll(s.online[c], data), row) {
          ChangeAllAgrees(s.online[c], data, row);
        }
        RecordChangeKeepsInv(s, c, ChangeAll(s.online[c], data));
      }
    case Set(c, f, v) =>
      if c in s.online {
        forall row | Agrees(s.online[c], row) ensures Agrees(Assign(s.online[c], f, v), row) {
          AssignAgrees(s.online[c], f, v, row);
        }
        RecordChangeKeepsInv(s, c, Assign(s.online[c], f, v));
      }
    case Tick(c, now) => if c in s.online { TickKeepsInv(s, c, now); }
    case Logout(c, now) => if c in s.online { LogoutKeepsInv(s, c, now); }
    case ExecSql => ExecKeepsInv(s);
    case HandBack => HandBackKeepsInv(s);
  }

  /** ---- Whole runs ---- */

  function Run(s: State, ops: seq<Op>): State
    decreases |ops|
  {
    if ops == [] then s else Run(Apply(s, ops[0]), ops[1..])
  }

  predicate AllGuarded(s: State, ops: seq<Op>)
    decreases |ops|
  {
    ops != [] ==> Guarded(s, ops[0]) && AllGuarded(Apply(s, ops[0]), ops[1..])
  }

  const NOBODY := State(map[], map[], {}, [], [], map[])

  lemma {:induction false} RunKeepsInv(s: State, ops: seq<Op>)
    requires Inv(s) && AllGuarded(s, ops)
    ensures Inv(Run(s, ops))
    decreases |ops|
  {
    if ops != [] {
      StepKeepsInv(s, ops[0]);
      RunKeepsInv(Apply(s, ops[0]), ops[1..]);
    }
  }

  /** After any guarded run from an empty server, a guarded login of a character that is not online
  gives it exactly the record it had in memory at its previous logout, the login address aside. */
  lemma LoginRestoresLogout(ops: seq<Op>, c: CharId, ip: Value)
    requires AllGuarded(NOBODY, ops)
    ensures var s := Run(NOBODY, ops);
            c in s.db && c !in s.online && c !in s.wait ==>
              && c in s.last
              && LoggedIn(s, c, ip).online[c].table == s.last[c][LastLoginIP := ip]
  {
    assert Inv(NOBODY);
    RunKeepsInv(NOBODY, ops);
    var s := Run(NOBODY, ops);
    if c in s.db && c !in s.online && c !in s.wait {
      assert CharInv(s, c);
      LoginKeepsInv(s, c, ip);
    }
  }

  /** What the last statement queued for the character that names the column will write into it. */
  function Unwritten(queue: seq<Sql>, c: CharId, f: Field): Option<Value>
    decreases |queue|
  {
    if queue == [] then None
    else
      var later := Unwritten(queue[1..], c, f);
      if later.Some? then later
      else if queue[0].charId == c then Column(queue[0].update, f)
      else None
  }

  lemma {:induction false} OverlayColumn(row: Row, queue: seq<Sql>, c: CharId, f: Field)
    ensures var u := Unwritten(queue, c, f);
            Column(Overlay(row, queue, c), f) == if u.Some? then u else Column(row, f)
    decreases |queue|
  {
    if queue != [] {
      OverlayColumn(if queue[0].charId == c then row + queue[0].update else row, queue[1..], c, f);
    }
  }

  /** One statement more is queued, for the character, with the flagged columns. */
  ghost predicate QueuedSave(queue: seq<Sql>, queue': seq<Sql>, c: CharId, table: Row, flags: set<Field>, now: int) {
    && |queue'| == |queue| + 1 && queue'[..|queue|] == queue
    && queue'[|queue|].charId == c && !queue'[|queue|].callback
    && Saves(queue'[|queue|].update, table, flags, now)
  }

  /** One statement more is queued, with a callback: the last save, that leaves the record as `record`. */
  ghost predicate QueuedLast(queue: seq<Sql>, queue': seq<Sql>, c: CharId, table: Row, flags: set<Field>, now: int,
      record: Row)
  {
    && |queue'| == |queue| + 1 && queue'[..|queue|] == queue
    && queue'[|queue|].charId == c && queue'[|queue|].callback
    && LastSave(table, flags, now, record, queue'[|queue|].update)
  }

  /** A tick saves all there is to save: with the queue worked off the row would be the record in memory. */
  lemma TickQueues(s: State, c: CharId, now: int)
    requires Inv(s) && c in s.online
    ensures var s', r := Enqueue(s, c, now, false), s.online[c];
            && c in s'.online && c in s'.db
            && (if r.needFlush then
                  && QueuedSave(s.queue, s'.queue, c, r.table, r.flags, now)
                  && s'.online[c] == Record(r.table[LastOfflineTime := Number(now)], {}, false)
                  && Overlay(s'.db[c], s'.queue, c) == s'.online[c].table
                else s' == s)
  {
    assert CharInv(s, c);
    if s.online[c].needFlush {
      FlushAgrees(s.online[c], now, Overlay(s.db[c], s.queue, c));
      OverlayAppend(s.db[c], s.queue, Sql(c, SavedColumns(s.online[c], now), false), c);
    }
  }

  lemma LogoutQueues(s: State, c: CharId, now: int)
    requires c in s.online
    ensures var s', r := LoggedOut(s, c, now), s.online[c];
            && s'.online == s.online - {c} && s'.wait == s.wait + {c} && c in s'.last
            && QueuedLast(s.queue, s'.queue, c, r.table, r.flags, now, s'.last[c])
  {
    ClosingSaves(s.online[c], now);
  }

  /** Without the guard the row restored is the one before the pending updates.  A column, the login address
  aside, differs from what it was at the logout exactly when a statement is queued that will write
  another value into it; so the login gets the record back exactly when the updates change nothing. */
  lemma UnguardedLogin(s: State, c: CharId, ip: Value)
    requires Inv(s) && c in s.db && c !in s.online
    ensures c in s.last && c in LoggedIn(s, c, ip).online
    ensures var got := LoggedIn(s, c, ip).online[c].table;
            forall f :: f != LastLoginIP ==>
              var u := Unwritten(s.queue, c, f);
              Column(got, f) != Column(s.last[c], f) <==> u.Some? && u != Column(s.db[c], f)
    ensures s.db[c] == s.last[c] <==> Overlay(s.db[c], s.queue, c) == s.db[c]
    ensures c !in s.wait ==> s.db[c] == s.last[c]
  {
    assert CharInv(s, c);
    if c !in s.wait {
      QuietOverlay(s.db[c], s.queue, c);
    }
    var got := LoggedIn(s, c, ip).online[c].table;
    forall f | f != LastLoginIP
      ensures var u := Unwritten(s.queue, c, f);
              Column(got, f) != Column(s.last[c], f) <==> u.Some? && u != Column(s.db[c], f)
    {
      OverlayColumn(s.db[c], s.queue, c, f);
      assert Column(got, f) == Column(s.db[c], f);
    }
  }

  /** A session that saves something and logs out: the login right after it finds every column, the login address
  aside, as it was before the session, while what was saved is on record as the state at the logout. */
  lemma SessionPending(s: State, c: CharId, ip: Value, data: seq<(Field, Value)>, now: int, f: Field)
    requires c in s.db && c !in s.online
    requires f != LastLoginIP && f != OnlineTime && f != LastOfflineTime
    ensures var s' := Apply(Apply(Apply(s, Login(c, ip)), Save(c, data)), Logout(c, now));
            && s'.db == s.db && c !in s'.online && c in s'.wait && c in s'.last
            && Column(s'.last[c], f) ==
                 (if LastGiven(data, f).Some? then LastGiven(data, f) else Column(s.db[c], f))
            && Column(LoggedIn(s', c, ip).online[c].table, f) == Column(s.db[c], f)
  {
    var s1 := LoggedIn(s, c, ip);
    var s2 := Apply(s1, Save(c, data));
    ChangeAllAt(s1.online[c], data, f);
    ClosingSaves(s2.online[c], now);
  }

  /** A run in which an unguarded login loses what was saved at logout. */
  lemma GuardIsNeeded(ip: Value) returns (ops: seq<Op>, s: State)
    ensures AllGuarded(NOBODY, ops) && s == Run(NOBODY, ops) && !Guarded(s, Login(1, ip))
    ensures 1 in s.db && 1 in s.last && 1 !in s.online
    ensures Column(s.last[1], Other(0)) == Some(Number(20))
    ensures Column(LoggedIn(s, 1, ip).online[1].table, Other(0)) == Some(Number(10))
  {
    var row := map[Other(0) := Number(10)];
    var data := [(Other(0), Number(20))];
    ops := [Create(1, row), Login(1, ip), Save(1, data), Logout(1, 5)];
    var s1 := Apply(NOBODY, ops[0]);
    FourSteps(NOBODY, ops);
    s := Run(NOBODY, ops);
    SessionPending(s1, 1, ip, data, 5, Other(0));
    assert LastGiven(data, Other(0)) == Some(Number(20));
  }

  lemma FourSteps(s: State, ops: seq<Op>)
    requires |ops| == 4
    ensures var s1 := Apply(s, ops[0]); var s2 := Apply(s1, ops[1]); var s3 := Apply(s2, ops[2]);
            && Run(s, ops) == Apply(s3, ops[3])
            && (AllGuarded(s, ops) <==>
                Guarded(s, ops[0]) && Guarded(s1, ops[1]) && Guarded(s2, ops[2]) && Guarded(s3, ops[3]))
  {
    var s1 := Apply(s, ops[0]);
    var s2 := Apply(s1, ops[1]);
    var s3 := Apply(s2, ops[2]);
    assert ops[1..][1..] == ops[2..] && ops[2..][1..] == ops[3..] && ops[3..][1..] == [];
    assert Run(s3, ops[3..]) == Apply(s3, ops[3]) && (AllGuarded(s3, ops[3..]) <==> Guarded(s3, ops[3]));
    assert Run(s2, ops[2..]) == Run(s3, ops[3..]);
    assert AllGuarded(s2, ops[2..]) <==> Guarded(s2, ops[2]) && AllGuarded(s3, ops[3..]);
    assert Run(s1, ops[1..]) == Run(s2, ops[2..]);
    assert AllGuarded(s1, ops[1..]) <==> Guarded(s1, ops[1]) && AllGuarded(s2, ops[2..]);
  }

  /** The SQL thread left to work off its queue. */
  function WorkedOff(s: State): State
    decreases |s.queue|
  {
    if s.queue == [] then s else WorkedOff(Executed(s))
  }

  /** The guard never locks a character out for good: once the queue is worked off and the callbacks
  are handed back, nobody waits, and every offline row is the record of its last logout. */
  lemma {:induction false} EverybodyMayReturn(s: State)
    requires Inv(s)
    ensures var s' := HandedBack(WorkedOff(s));
            && Inv(s') && s'.wait == {} && s'.online == s.online
            && forall c :: c in s'.db && c !in s'.online ==> c in s'.last && s'.db[c] == s'.last[c]
    decreases |s.queue|
  {
    if s.queue == [] {
      var s' := HandedBack(s);
      HandBackKeepsInv(s);
      forall c
        ensures c !in s'.wait && (c in s'.db && c !in s'.online ==> c in s'.last && s'.db[c] == s'.last[c])
      {
        assert CharInv(s, c) && CharInv(s', c);
      }
    } else {
      ExecKeepsInv(s);
      EverybodyMayReturn(Executed(s));
    }
  }

  /** ---- The objects ---- */

  class User {
    const charId: CharId
    var table: Row
    var saveFlag: set<Field>
    var needFlush: bool

    ghost function View(): Record
      reads this
    {
      Record(table, saveFlag, needFlush)
    }

    /** reg: the row is read, then the login address is noted. */
    constructor (charId: CharId, row: Row, ip: Value)
      ensures this.charId == charId && View() == ChangeLoginIP(Fresh(row), ip)
    {
      this.charId := charId;
      table, saveFlag, needFlush := row, {}, false;
      new;
      if LastLoginIP !in table || table[LastLoginIP] != ip {
        table := table[LastLoginIP := ip];
        saveFlag := saveFlag + {LastLoginIP};
      }
    }

    method SetField(f: Field, v: Value)
      modifies this
      ensures View() == Assign(old(View()), f, v)
      ensures table == old(table)[f := v] && saveFlag == old(saveFlag) + {f} && needFlush
    {
      table := table[f := v];
      saveFlag := saveFlag + {f};
      needFlush := true;
    }

    method UpdateUserData(saveData: seq<(Field, Value)>)
      modifies this
      ensures View() == ChangeAll(old(View()), saveData)
      ensures SavedInto(old(table), old(saveFlag), old(needFlush), saveData, table, saveFlag, needFlush)
    {
      ChangeAllInFields(View(), saveData);
      var i := 0;
      while i < |saveData|
        invariant 0 <= i <= |saveData|
        invariant ChangeAll(View(), saveData[i..]) == ChangeAll(old(View()), saveData)
      {
        var (f, v) := saveData[i];
        assert saveData[i..][1..] == saveData[i + 1..];
        if f !in table || table[f] != v {
          SetField(f, v);
        }
        i := i + 1;
      }
      assert saveData[i..] == [];
    }

    method UpdateOnlineTime(now: int)
      modifies this
      ensures View() == AddOnlineTime(old(View()), now)
      ensures ClosedAs(old(table), table, now)
      ensures if (now - NumberAt(old(table), LoginTime)) % 0x1_0000_0000 == 0 then View() == old(View())
              else saveFlag == old(saveFlag) + {OnlineTime} && needFlush
    {
      var onlineTime := Dword(now - NumberAt(table, LoginTime));
      if onlineTime == 0 {
        return;
      }
      SetField(OnlineTime, Number(Dword(NumberAt(table, OnlineTime) + onlineTime)));
    }

    method SaveCharBaseData(now: int) returns (columns: Row)
      requires needFlush && saveFlag != {}
      modifies this`table
      ensures columns == SavedColumns(old(View()), now)
      ensures Saves(columns, old(table), saveFlag, now)
      ensures table == old(table)[LastOfflineTime := Number(now)]
    {
      table := table[LastOfflineTime := Number(now)];
      columns := map f | f in table && (f in saveFlag || f == LastOfflineTime) :: table[f];
    }

    method CheckFlush(now: int) returns (sql: Option<Row>)
      requires needFlush ==> saveFlag != {}
      modifies this
      ensures View() == Flushed(old(View()), now)
      ensures sql == if old(needFlush) then Some(SavedColumns(old(View()), now)) else None
      ensures sql.Some? <==> old(needFlush)
      ensures if sql.Some? then
                && Saves(sql.value, old(table), old(saveFlag), now)
                && table == old(table)[LastOfflineTime := Number(now)] && saveFlag == {} && !needFlush
              else table == old(table) && saveFlag == old(saveFlag) && !needFlush
    {
      sql := None;
      if needFlush {
        var columns := SaveCharBaseData(now);
        sql := Some(columns);
        needFlush := false;
        saveFlag := {};
      }
    }

    method Unreg(now: int) returns (sql: Option<Row>)
      modifies this
      ensures View() == Flushed(Closing(old(View()), now), now)
      ensures sql == Some(SavedColumns(Closing(old(View()), now), now))
      ensures LastSave(old(table), old(saveFlag), now, table, sql.value) && saveFlag == {} && !needFlush
    {
      ClosingSaves(View(), now);
      needFlush := true;
      saveFlag := saveFlag + {LastOfflineTime};
      UpdateOnlineTime(now);
      sql := CheckFlush(now);
    }
  }

  class DataServer {
    var db: map<CharId, Row>
    var users: map<CharId, User>
    var waitSet: set<CharId>            // _wait_complete_save_data_user_set
    var sqlQueue: seq<Sql>              // owned by the SQL thread
    var results: seq<CharId>            // _async_callback_result_vec
    ghost var last: map<CharId, Row>

    ghost function View(): State
      reads this, users.Values
    {
      State(db, map c | c in users :: users[c].View(), waitSet, sqlQueue, results, last)
    }

    ghost predicate Valid()
      reads this, users.Values
    {
      (forall c :: c in users ==> users[c].charId == c) && Inv(View())
    }

    constructor ()
      ensures Valid() && View() == NOBODY
    {
      db, users, waitSet, sqlQueue, results, last := map[], map[], {}, [], [], map[];
    }

    /** createRole; false when the row exists already. */
    method CreateRole(c: CharId, row: Row) returns (ok: bool)
      requires Valid()
      modifies this`db, this`last
      ensures Valid() && View() == Apply(old(View()), Create(c, row))
      ensures ok <==> c !in old(db)
      ensures db == if ok then old(db)[c := row] else old(db)
    {
      StepKeepsInv(View(), Create(c, row));
      ok := c !in db;
      if ok {
        db := db[c := row];
        last := last[c := row];
      }
      assert View() == Apply(old(View()), Create(c, row));
    }

    /** loginUser; false when the character is online already or has no row. */
    method LoginUser(c: CharId, ip: Value) returns (ok: bool)
      requires Valid() && c !in waitSet
      modifies this
      ensures Valid() && View() == Apply(old(View()), Login(c, ip))
      ensures ok <==> c !in old(users) && c in old(db)
      ensures ok ==> c in last && c in users && users[c].table == last[c][LastLoginIP := ip]
      ensures ok ==> !users[c].needFlush
      ensures ok ==> users[c].saveFlag == if Column(last[c], LastLoginIP) == Some(ip) then {} else {LastLoginIP}
    {
      StepKeepsInv(View(), Login(c, ip));
      LoginKeepsInv(View(), c, ip);
      if c in users || c !in db {
        return false;
      }
      var user := new User(c, db[c], ip);
      users := users[c := user];
      assert View() == Apply(old(View()), Login(c, ip));
      return true;
    }

    method SaveUserData(c: CharId, saveData: seq<(Field, Value)>)
      requires Valid()
      modifies this, users.Values
      ensures Valid() && View() == Apply(old(View()), Save(c, saveData))
      ensures users == old(users) && sqlQueue == old(sqlQueue)
      ensures c in users ==>
                SavedInto(old(users[c].table), old(users[c].saveFlag), old(users[c].needFlush), saveData,
                  users[c].table, users[c].saveFlag, users[c].needFlush)
    {
      StepKeepsInv(View(), Save(c, saveData));
      if c in users {
        users[c].UpdateUserData(saveData);
        assert View() == Apply(old(View()), Save(c, saveData));
      }
    }

    method TickUser(c: CharId, now: int)
      requires Valid()
      modifies this`sqlQueue, users.Values
      ensures Valid() && View() == Apply(old(View()), Tick(c, now))
      ensures c in users ==> !users[c].needFlush
      ensures if c in users && old(users[c].needFlush)
              then QueuedSave(old(sqlQueue), sqlQueue, c, old(users[c].table), old(users[c].saveFlag), now)
              else sqlQueue == old(sqlQueue)
    {
      StepKeepsInv(View(), Tick(c, now));
      if c in users {
        assert CharInv(View(), c);
        SaveDue(c, now);
      }
    }

    /** checkFlush of one user. */
    method SaveDue(c: CharId, now: int)
      requires c in users && (forall d :: d in users ==> users[d].charId == d)
      requires users[c].needFlush ==> users[c].saveFlag != {}
      modifies this`sqlQueue, users[c]
      ensures View() == Enqueue(old(View()), c, now, false)
      ensures !users[c].needFlush
      ensures if old(users[c].needFlush)
              then QueuedSave(old(sqlQueue), sqlQueue, c, old(users[c].table), old(users[c].saveFlag), now)
              else sqlQueue == old(sqlQueue)
    {
      var sql := users[c].CheckFlush(now);
      if sql.Some? {
        sqlQueue := sqlQueue + [Sql(c, sql.value, false)];
      }
      assert View().online == Enqueue(old(View()), c, now, false).online;
    }

    method LogoutUser(c: CharId, now: int)
      requires Valid()
      modifies this, users.Values
      ensures Valid() && View() == Apply(old(View()), Logout(c, now))
      ensures c !in old(users) ==> View() == old(View())
      ensures c in old(users) ==>
                && users == old(users) - {c} && waitSet == old(waitSet) + {c} && c in last
                && QueuedLast(old(sqlQueue), sqlQueue, c, old(users[c].table), old(users[c].saveFlag), now, last[c])
    {
      StepKeepsInv(View(), Logout(c, now));
      if c in users {
        SaveAndForget(c, now);
      }
    }

    /** unreg of one user. */
    method SaveAndForget(c: CharId, now: int)
      requires c in users && (forall d :: d in users ==> users[d].charId == d)
      modifies this, users[c]
      ensures View() == LoggedOut(old(View()), c, now)
      ensures users == old(users) - {c} && waitSet == old(waitSet) + {c} && c in last
      ensures QueuedLast(old(sqlQueue), sqlQueue, c, old(users[c].table), old(users[c].saveFlag), now, last[c])
    {
      var user := users[c];
      var sql := user.Unreg(now);
      waitSet := waitSet + {c};
      sqlQueue := sqlQueue + [Sql(c, sql.value, true)];
      users := users - {c};
      last := last[c := user.table];
      assert View().online == old(View()).online - {c};
    }

    /** One statement executed on the SQL thread, and AsyncSqlCallback::exec. */
    method ExecuteSql()
      requires Valid()
      modifies this`db, this`sqlQueue, this`results
      ensures Valid() && View() == Apply(old(View()), ExecSql)
      ensures old(sqlQueue) == [] ==> sqlQueue == [] && db == old(db) && results == old(results)
      ensures old(sqlQueue) != [] ==>
                var sql := old(sqlQueue)[0];
                && sqlQueue == old(sqlQueue)[1..]
                && results == (if sql.callback then old(results) + [sql.charId] else old(results))
                && db.Keys == old(db).Keys
                && forall c, f :: c in db ==>
                     var written := if c == sql.charId then Column(sql.update, f) else None;
                     Column(db[c], f) == if written.Some? then written else Column(old(db)[c], f)
    {
      StepKeepsInv(View(), ExecSql);
      if sqlQueue != [] {
        var sql := sqlQueue[0];
        sqlQueue := sqlQueue[1..];
        if sql.charId in db {
          db := db[sql.charId := db[sql.charId] + sql.update];
        }
        if sql.callback {
          results := results + [sql.charId];
        }
        assert View() == Apply(old(View()), ExecSql);
      }
    }

    /** dtSerializeService::doTick: the vector is swapped out, then each callback completes a save;
    every one of them finds its character in the waiting set. */
    method DoTick()
      requires Valid()
      modifies this`results, this`waitSet
      ensures Valid() && View() == Apply(old(View()), HandBack)
      ensures results == [] && forall c :: c in waitSet <==> c in old(waitSet) && c !in old(results)
    {
      StepKeepsInv(View(), HandBack);
      HandBackKeepsInv(View());
      var callbacks := results;
      assert NoRepeats(callbacks);
      results := [];
      var i := 0;
      while i < |callbacks|
        invariant 0 <= i <= |callbacks| && results == []
        invariant waitSet == old(waitSet) - (set c | c in callbacks[..i])
      {
        assert callbacks[i] !in callbacks[..i] by {
          forall j | 0 <= j < i ensures callbacks[..i][j] != callbacks[i] {
            assert callbacks[..i][j] == callbacks[j];
          }
        }
        assert callbacks[i] in callbacks && callbacks[i] in waitSet;
        waitSet := waitSet - {callbacks[i]};
        i := i + 1;
      }
      assert callbacks[..i] == callbacks;
      assert View().online == old(View()).online;
      assert View() == Apply(old(View()), HandBack);
    }
  }
}
