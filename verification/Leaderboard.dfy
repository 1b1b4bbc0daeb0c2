/** Bounded leaderboard with rank-change callbacks (base/nSequence.h). */
module Leaderboard {
  // The board is an ordered set of (key, value) entries with a size cap, plus an index from each key
  // to its node.  Every update walks the set and tells a listener, one call per shifted entry, how
  // ranks moved.  The functions below say what one update does to the board and which calls it
  // makes; `Sequence` is the object that does it in place; the lemmas relate the calls to a
  // ranking from scratch over whole runs.

  /** A key; the tie-breaking order on keys is a parameter of the board. */
  datatype Key = Key(id: int)

  datatype Entry = Entry(key: Key, value: int)

  /** One call dealChangeOrderNum(key, oldRank, newRank); rank 0 means "not ranked". */
  datatype Change = Change(key: Key, oldRank: nat, newRank: nat)

  datatype Op = Update(key: Key, value: int) | Remove(key: Key)

  /** The template policy: a tie-breaking order on keys and the direction of the board. */
  datatype Policy = Policy(greater: (Key, Key) -> bool, downSeq: bool) {

    ghost predicate Valid() {
      && (forall a :: !greater(a, a))
      && (forall a, b :: a != b ==> greater(a, b) || greater(b, a))
      && (forall a, b :: greater(a, b) ==> !greater(b, a))
      && (forall a, b, c :: greater(a, b) && greater(b, c) ==> greater(a, c))
    }

    /** The comparator of the ordered set. */
    predicate Before(a: Entry, b: Entry) {
      if downSeq then a.value > b.value || (a.value == b.value && greater(a.key, b.key))
      else a.value < b.value || (a.value == b.value && greater(b.key, a.key))
    }

    /** A strictly better value, whatever the keys. */
    predicate Beats(v: int, w: int) {
      if downSeq then v > w else v < w
    }
  }

  /** ---- The board as a value ---- */

  ghost predicate Sorted(p: Policy, s: seq<Entry>) {
    forall i, j {:trigger p.Before(s[i], s[j])} :: 0 <= i < j < |s| ==> p.Before(s[i], s[j])
  }

  ghost predicate DistinctKeys(s: seq<Entry>) {
    forall i, j :: 0 <= i < j < |s| ==> s[i].key != s[j].key
  }

  ghost predicate IsBoard(p: Policy, max: nat, s: seq<Entry>) {
    p.Valid() && 0 < max && |s| <= max && Sorted(p, s) && DistinctKeys(s)
  }

  function IndexFrom(s: seq<Entry>, key: Key, from: nat): (i: nat)
    requires from <= |s|
    ensures from <= i <= |s|
    ensures i < |s| ==> s[i].key == key
    ensures forall j :: from <= j < i ==> s[j].key != key
    decreases |s| - from
  {
    if from == |s| || s[from].key == key then from else IndexFrom(s, key, from + 1)
  }

  /** The first position of a key, |s| if it has none. */
  function IndexOf(s: seq<Entry>, key: Key): nat {
    IndexFrom(s, key, 0)
  }

  /** The rank a key holds: 1 for the first entry, 0 when it is not on the board. */
  function RankOf(s: seq<Entry>, key: Key): nat {
    var i := IndexOf(s, key);
    if i < |s| then i + 1 else 0
  }

  /** Where an ordered set puts a new entry. */
  function Slot(p: Policy, s: seq<Entry>, e: Entry): (q: nat)
    ensures q <= |s|
    ensures forall j :: 0 <= j < q ==> p.Before(s[j], e)
    ensures q < |s| ==> !p.Before(s[q], e)
  {
    if s == [] || !p.Before(s[0], e) then 0 else 1 + Slot(p, s[1..], e)
  }

  function RemoveAt<T>(s: seq<T>, i: nat): seq<T>
    requires i < |s|
  {
    s[..i] + s[i + 1..]
  }

  function InsertAt<T>(s: seq<T>, i: nat, e: T): seq<T>
    requires i <= |s|
  {
    s[..i] + [e] + s[i..]
  }

  /** Insertion into the ordered set. */
  function Placed(p: Policy, s: seq<Entry>, e: Entry): (d: seq<Entry>)
    ensures |d| == |s| + 1
  {
    if s == [] || !p.Before(s[0], e) then [e] + s else [s[0]] + Placed(p, s[1..], e)
  }

  /** A full board turns away a new key whose value does not strictly beat the last one. */
  predicate Refused(p: Policy, max: nat, s: seq<Entry>, value: int) {
    |s| >= max && |s| > 0 && !p.Beats(value, s[|s| - 1].value)
  }

  /** The board after one operation. */
  function Apply(p: Policy, max: nat, s: seq<Entry>, op: Op): seq<Entry> {
    var i := IndexOf(s, op.key);
    match op
    case Remove(key) => if i == |s| then s else RemoveAt(s, i)
    case Update(key, value) =>
      if i == |s| then
        if Refused(p, max, s, value) then s
        else
          var d := Placed(p, s, Entry(key, value));
          if |s| >= max then d[..|s|] else d
      else if s[i].value == value then s
      else Placed(p, RemoveAt(s, i), Entry(key, value))
  }

  /** A walk over the entries from..to, announcing consecutive ranks. */
  function Walk(s: seq<Entry>, from: nat, to: nat, oldRank: nat, newRank: nat): (c: seq<Change>)
    requires to <= |s|
    ensures |c| == if from <= to then to - from else 0
    decreases |s| - from
  {
    if from >= to then []
    else [Change(s[from].key, oldRank, newRank)] + Walk(s, from + 1, to, oldRank + 1, newRank + 1)
  }

  /** The calls when `key` leaves position i; d is the order after. */
  function LeaveCalls(d: seq<Entry>, key: Key, i: nat): seq<Change> {
    [Change(key, i + 1, 0)] + Walk(d, i, |d|, i + 2, i + 1)
  }

  /** The calls when `key` enters at position q of d. */
  function EnterCalls(d: seq<Entry>, key: Key, q: nat): seq<Change> {
    [Change(key, 0, q + 1)] + Walk(d, q + 1, |d|, q + 1, q + 2)
  }

  /** The calls when `key` goes from position i to position q of d. */
  function MoveCalls(d: seq<Entry>, key: Key, i: nat, q: nat): seq<Change>
    requires i < |d| && q < |d|
  {
    if q == i then []
    else if i < q then [Change(key, i + 1, q + 1)] + Walk(d, if i == 0 then 1 else i, q, i + 2, i + 1)
    else [Change(key, i + 1, q + 1)] + Walk(d, q + 1, i + 1, q + 1, q + 2)
  }

  /** The calls one operation makes, in order. */
  function Calls(p: Policy, max: nat, s: seq<Entry>, op: Op): seq<Change> {
    var i := IndexOf(s, op.key);
    match op
    case Remove(key) => if i == |s| then [] else LeaveCalls(RemoveAt(s, i), key, i)
    case Update(key, value) =>
      var e := Entry(key, value);
      if i == |s| then
        if Refused(p, max, s, value) then [] else EnterCalls(Placed(p, s, e), key, Slot(p, s, e))
      else if s[i].value == value then []
      else MoveCalls(Placed(p, RemoveAt(s, i), e), key, i, Slot(p, RemoveAt(s, i), e))
  }

  /** The one case whose calls are wrong: the rank-1 entry changes to a value that puts it
  behind the entry that was second. */
  predicate TopFalls(p: Policy, s: seq<Entry>, op: Op) {
    op.Update? && |s| >= 2 && s[0].key == op.key && p.Before(s[1], Entry(op.key, op.value))
  }

  /** ---- The listener ---- */

  /** What a listener that records every announced rank holds after the calls. */
  function Replay(calls: seq<Change>, r: map<Key, nat>): map<Key, nat> {
    if calls == [] then r else Replay(calls[1..], r[calls[0].key := calls[0].newRank])
  }

  /** Ranks above the cap read as "not ranked". */
  function Reading(r: map<Key, nat>, max: nat, key: Key): nat {
    if key in r && r[key] <= max then r[key] else 0
  }

  ghost predicate Accurate(r: map<Key, nat>, max: nat, s: seq<Entry>) {
    forall key :: Reading(r, max, key) == RankOf(s, key)
  }

  /** Every call names, as the old rank, the rank the listener reads just before it. */
  ghost predicate OldRanksMatch(calls: seq<Change>, r: map<Key, nat>, max: nat) {
    calls == [] ||
    (calls[0].oldRank == Reading(r, max, calls[0].key) &&
     OldRanksMatch(calls[1..], r[calls[0].key := calls[0].newRank], max))
  }

  /** ---- The set stays an ordered set ---- */

  lemma {:induction false} PlacedAtSlot(p: Policy, s: seq<Entry>, e: Entry)
    ensures Placed(p, s, e) == InsertAt(s, Slot(p, s, e), e)
  {
    if s != [] && p.Before(s[0], e) {
      PlacedAtSlot(p, s[1..], e);
      assert Placed(p, s, e) == [s[0]] + InsertAt(s[1..], Slot(p, s[1..], e), e);
    }
  }

  lemma PlacedIsSorted(p: Policy, s: seq<Entry>, e: Entry)
    requires p.Valid() && Sorted(p, s) && DistinctKeys(s)
    requires forall j :: 0 <= j < |s| ==> s[j].key != e.key
    ensures Sorted(p, Placed(p, s, e)) && DistinctKeys(Placed(p, s, e))
  {
    var q, d := Slot(p, s, e), Placed(p, s, e);
    PlacedAtSlot(p, s, e);
    if q < |s| {
      assert p.Before(e, s[q]);
    }
    forall i, j | 0 <= i < j < |d|
      ensures p.Before(d[i], d[j]) && d[i].key != d[j].key
    {
      var i', j' := if i > q then i - 1 else i, if j > q then j - 1 else j;
      if i != q && j != q {
        assert p.Before(s[i'], s[j']);
      } else if i == q && j' != q {
        assert p.Before(s[q], s[j']);
      }
    }
  }

  lemma ApplyKeepsBoard(p: Policy, max: nat, s: seq<Entry>, op: Op)
    requires IsBoard(p, max, s)
    ensures IsBoard(p, max, Apply(p, max, s, op))
  {
    var i := IndexOf(s, op.key);
    if i < |s| {
      if op.Update? {
        PlacedIsSorted(p, RemoveAt(s, i), Entry(op.key, op.value));
      }
    } else if op.Update? {
      PlacedIsSorted(p, s, Entry(op.key, op.value));
    }
  }

  /** ---- The calls, replayed ---- */

  lemma {:induction false} ReplayAppend(a: seq<Change>, b: seq<Change>, r: map<Key, nat>)
    ensures Replay(a + b, r) == Replay(b, Replay(a, r))
  {
    if a == [] {
      assert a + b == b;
    } else {
      assert (a + b)[1..] == a[1..] + b;
      ReplayAppend(a[1..], b, r[a[0].key := a[0].newRank]);
    }
  }

  ghost predicate Untouched(r: map<Key, nat>, r': map<Key, nat>, key: Key) {
    (key in r <==> key in r') && (key in r ==> r[key] == r'[key])
  }

  ghost predicate InRange(s: seq<Entry>, from: nat, to: nat, key: Key)
    requires to <= |s|
  {
    exists j :: from <= j < to && s[j].key == key
  }

  lemma {:induction false} ReplayWalk(
      s: seq<Entry>, from: nat, to: nat, oldRank: nat, newRank: nat, r: map<Key, nat>, max: nat)
    requires to <= |s| && DistinctKeys(s)
    ensures var r' := Replay(Walk(s, from, to, oldRank, newRank), r);
            && (forall j :: from <= j < to ==> s[j].key in r' && r'[s[j].key] == newRank + (j - from))
            && (forall key :: !InRange(s, from, to, key) ==> Untouched(r, r', key))
    ensures (forall j :: from <= j < to ==> Reading(r, max, s[j].key) == oldRank + (j - from))
            ==> OldRanksMatch(Walk(s, from, to, oldRank, newRank), r, max)
    decreases |s| - from
  {
    if from < to {
      var r1 := r[s[from].key := newRank];
      var w := Walk(s, from, to, oldRank, newRank);
      assert w[1..] == Walk(s, from + 1, to, oldRank + 1, newRank + 1);
      ReplayWalk(s, from + 1, to, oldRank + 1, newRank + 1, r1, max);
      var r' := Replay(w, r);
      assert !InRange(s, from + 1, to, s[from].key);
      assert Untouched(r1, r', s[from].key);
      forall key | !InRange(s, from, to, key)
        ensures Untouched(r, r', key)
      {
        assert s[from].key != key;
        assert !InRange(s, from + 1, to, key);
      }
    }
  }

  function Capped(rank: nat, max: nat): nat {
    if rank <= max then rank else 0
  }

  /** Entries lo..hi of d held consecutive ranks in s. */
  ghost predicate WalkFits(s: seq<Entry>, d: seq<Entry>, key: Key, lo: nat, hi: nat, oldStart: nat) {
    hi <= |d| && forall j :: lo <= j < hi ==> d[j].key != key && RankOf(s, d[j].key) == oldStart + (j - lo)
  }

  /** Nobody but `key` and the entries lo..hi of d changes rank, ranks above the cap aside. */
  ghost predicate OthersStay(s: seq<Entry>, d: seq<Entry>, key: Key, lo: nat, hi: nat, max: nat) {
    hi <= |d| && forall k :: k != key && !InRange(d, lo, hi, k) ==> RankOf(s, k) == Capped(RankOf(d, k), max)
  }

  /** One call for `key` followed by a walk over lo..hi of the new order d, which gives every
  entry there its true rank, keeps an accurate listener accurate as long as nobody else moved. */
  lemma CallsTrack(
      max: nat, s: seq<Entry>, d: seq<Entry>, key: Key, newRank: nat, lo: nat, hi: nat,
      oldStart: nat, r: map<Key, nat>)
    requires DistinctKeys(d) && Accurate(r, max, s) && newRank == RankOf(d, key)
    requires WalkFits(s, d, key, lo, hi, oldStart) && OthersStay(s, d, key, lo, hi, max)
    ensures var calls := [Change(key, RankOf(s, key), newRank)] + Walk(d, lo, hi, oldStart, lo + 1);
            && OldRanksMatch(calls, r, max)
            && forall k :: Reading(Replay(calls, r), max, k) == Capped(RankOf(d, k), max)
  {
    var w := Walk(d, lo, hi, oldStart, lo + 1);
    var calls := [Change(key, RankOf(s, key), newRank)] + w;
    assert calls[1..] == w;
    var r1 := r[key := newRank];
    forall j | lo <= j < hi
      ensures Reading(r1, max, d[j].key) == oldStart + (j - lo)
    {
      assert Reading(r, max, d[j].key) == RankOf(s, d[j].key);
    }
    ReplayWalk(d, lo, hi, oldStart, lo + 1, r1, max);
    assert Reading(r, max, key) == RankOf(s, key);
    forall k
      ensures Reading(Replay(w, r1), max, k) == Capped(RankOf(d, k), max)
    {
      assert Reading(r, max, k) == RankOf(s, k);
      WalkTracksAt(max, d, key, lo, hi, oldStart, r, k);
    }
  }

  lemma WalkTracksAt(max: nat, d: seq<Entry>, key: Key, lo: nat, hi: nat, oldStart: nat, r: map<Key, nat>, k: Key)
    requires DistinctKeys(d) && hi <= |d| && forall j :: lo <= j < hi ==> d[j].key != key
    requires k != key && !InRange(d, lo, hi, k) ==> Reading(r, max, k) == Capped(RankOf(d, k), max)
    ensures var r' := Replay(Walk(d, lo, hi, oldStart, lo + 1), r[key := RankOf(d, key)]);
            Reading(r', max, k) == Capped(RankOf(d, k), max)
  {
    var r1 := r[key := RankOf(d, key)];
    ReplayWalk(d, lo, hi, oldStart, lo + 1, r1, max);
    if InRange(d, lo, hi, k) {
      var j :| lo <= j < hi && d[j].key == k;
      assert RankOf(d, d[j].key) == j + 1;
    } else {
      assert Untouched(r1, Replay(Walk(d, lo, hi, oldStart, lo + 1), r1), k);
    }
  }

  /** d is s with the entry at `from` taken out and one for the same key put in at `to`; the
  entries in between shift by one place and all others stay. */
  ghost predicate Moved(s: seq<Entry>, d: seq<Entry>, from: nat, to: nat) {
    && |s| == |d| && from < |s| && to < |s| && s[from].key == d[to].key
    && (forall j :: 0 <= j < |s| && ((j < from && j < to) || (j > from && j > to)) ==> d[j] == s[j])
    && (forall j :: from <= j < to ==> d[j] == s[j + 1])
    && (forall j :: to < j <= from ==> d[j] == s[j - 1])
  }

  lemma MovedElsewhere(s: seq<Entry>, d: seq<Entry>, from: nat, to: nat, k: Key)
    requires DistinctKeys(s) && DistinctKeys(d) && Moved(s, d, from, to) && k != d[to].key
    requires from <= to ==> !InRange(d, from, to, k)
    requires to <= from ==> !InRange(d, to + 1, from + 1, k)
    ensures RankOf(s, k) == RankOf(d, k)
  {
    var m, j := IndexOf(d, k), IndexOf(s, k);
    if m < |d| {
      assert d[m] == s[m];
    }
    if j < |s| {
      assert d[if from < j <= to then j - 1 else if to <= j < from then j + 1 else j] == s[j];
    }
  }

  /** As MovedElsewhere, for an entry put in at q (nothing taken out). */
  lemma InsertedElsewhere(s: seq<Entry>, q: nat, e: Entry, k: Key)
    requires q <= |s| && DistinctKeys(s) && DistinctKeys(InsertAt(s, q, e)) && k != e.key
    requires !InRange(InsertAt(s, q, e), q + 1, |s| + 1, k)
    ensures RankOf(s, k) == RankOf(InsertAt(s, q, e), k)
  {
    var d := InsertAt(s, q, e);
    var m, j := IndexOf(d, k), IndexOf(s, k);
    if m < |d| {
      assert d[m] == s[m];
    }
    if j < |s| {
      assert d[if j < q then j else j + 1] == s[j];
    }
  }

  /** As MovedElsewhere, for an entry taken out at i (nothing put in). */
  lemma RemovedElsewhere(s: seq<Entry>, i: nat, k: Key)
    requires i < |s| && DistinctKeys(s) && k != s[i].key
    requires !InRange(RemoveAt(s, i), i, |s| - 1, k)
    ensures RankOf(s, k) == RankOf(RemoveAt(s, i), k)
  {
    var d := RemoveAt(s, i);
    var m, j := IndexOf(d, k), IndexOf(s, k);
    if m < |d| {
      assert d[m] == s[m];
    }
    if j < |s| {
      assert d[if j < i then j else j - 1] == s[j];
    }
  }

  lemma RemoveTracks(p: Policy, max: nat, s: seq<Entry>, key: Key, r: map<Key, nat>)
    requires IsBoard(p, max, s) && Accurate(r, max, s)
    ensures Accurate(Replay(Calls(p, max, s, Remove(key)), r), max, Apply(p, max, s, Remove(key)))
    ensures OldRanksMatch(Calls(p, max, s, Remove(key)), r, max)
  {
    var i := IndexOf(s, key);
    if i < |s| {
      RemoveWalkTracks(max, s, i, r);
    }
  }

  lemma RemoveWalkTracks(max: nat, s: seq<Entry>, i: nat, r: map<Key, nat>)
    requires i < |s| <= max && DistinctKeys(s) && DistinctKeys(RemoveAt(s, i)) && Accurate(r, max, s)
    ensures var d := RemoveAt(s, i);
            var calls := LeaveCalls(d, s[i].key, i);
            OldRanksMatch(calls, r, max) && Accurate(Replay(calls, r), max, d)
  {
    var d, key := RemoveAt(s, i), s[i].key;
    forall j | 0 <= j < |d|
      ensures d[j].key != key && (j >= i ==> RankOf(s, d[j].key) == j + 2)
    {
      assert d[j] == s[if j < i then j else j + 1];
    }
    forall k | k != key && !InRange(d, i, |d|, k)
      ensures RankOf(s, k) == Capped(RankOf(d, k), max)
    {
      RemovedElsewhere(s, i, k);
    }
    CallsTrack(max, s, d, key, 0, i, |d|, i + 2, r);
  }

  /** Dropping the last entry of an overfull order leaves ranks as they read under the cap. */
  lemma DropLast(d: seq<Entry>, max: nat, k: Key)
    requires |d| == max + 1 && DistinctKeys(d)
    ensures RankOf(d[..max], k) == Capped(RankOf(d, k), max)
  {
    var m := IndexOf(d, k);
    if m < max {
      assert d[..max][m] == d[m];
    } else {
      forall j | 0 <= j < max
        ensures d[..max][j].key != k
      {
        assert d[..max][j] == d[j];
      }
    }
  }

  /** A key that was not ranked enters; on a full board the last entry drops off, announced
  with a rank above the cap. */
  lemma InsertTracks(p: Policy, max: nat, s: seq<Entry>, key: Key, value: int, r: map<Key, nat>)
    requires IsBoard(p, max, s) && Accurate(r, max, s) && IndexOf(s, key) == |s|
    ensures Accurate(Replay(Calls(p, max, s, Update(key, value)), r), max, Apply(p, max, s, Update(key, value)))
    ensures OldRanksMatch(Calls(p, max, s, Update(key, value)), r, max)
  {
    if !Refused(p, max, s, value) {
      var e := Entry(key, value);
      PlacedIsSorted(p, s, e);
      PlacedAtSlot(p, s, e);
      InsertWalkTracks(max, s, Slot(p, s, e), e, r);
      var d := Placed(p, s, e);
      if |s| >= max {
        forall k ensures RankOf(d[..max], k) == Capped(RankOf(d, k), max) {
          DropLast(d, max, k);
        }
      }
    }
  }

  lemma InsertWalkTracks(max: nat, s: seq<Entry>, q: nat, e: Entry, r: map<Key, nat>)
    requires q <= |s| <= max && DistinctKeys(s) && Accurate(r, max, s) && IndexOf(s, e.key) == |s|
    requires DistinctKeys(InsertAt(s, q, e))
    ensures var d := InsertAt(s, q, e);
            var calls := EnterCalls(d, e.key, q);
            && OldRanksMatch(calls, r, max)
            && forall k :: Reading(Replay(calls, r), max, k) == Capped(RankOf(d, k), max)
  {
    var d := InsertAt(s, q, e);
    assert d[q] == e;
    forall j | q + 1 <= j < |d|
      ensures d[j].key != e.key && RankOf(s, d[j].key) == j
    {
      assert d[j] == s[j - 1];
    }
    forall k | k != e.key && !InRange(d, q + 1, |d|, k)
      ensures RankOf(s, k) == Capped(RankOf(d, k), max)
    {
      InsertedElsewhere(s, q, e, k);
    }
    CallsTrack(max, s, d, e.key, q + 1, q + 1, |d|, q + 1, r);
  }

  lemma PutBackMoves(s: seq<Entry>, i: nat, q: nat, e: Entry)
    requires i < |s| && q < |s| && s[i].key == e.key
    ensures Moved(s, InsertAt(RemoveAt(s, i), q, e), i, q)
  {
  }

  lemma UpdateUnfolds(p: Policy, max: nat, s: seq<Entry>, i: nat, e: Entry)
    requires i < |s| && IndexOf(s, e.key) == i && s[i].value != e.value
    ensures var d, q := Placed(p, RemoveAt(s, i), e), Slot(p, RemoveAt(s, i), e);
            && d == InsertAt(RemoveAt(s, i), q, e)
            && Apply(p, max, s, Update(e.key, e.value)) == d
            && Calls(p, max, s, Update(e.key, e.value)) == MoveCalls(d, e.key, i, q)
  {
    PlacedAtSlot(p, RemoveAt(s, i), e);
  }

  lemma ReseatedBoard(p: Policy, max: nat, s: seq<Entry>, i: nat, e: Entry)
    requires IsBoard(p, max, s) && i < |s| && s[i].key == e.key
    ensures var d, q := Placed(p, RemoveAt(s, i), e), Slot(p, RemoveAt(s, i), e);
            && IsBoard(p, max, d) && q < |d| && d[q] == e
            && (i == 0 < q ==> |s| >= 2 && p.Before(s[1], e))
  {
    PlacedIsSorted(p, RemoveAt(s, i), e);
    PlacedAtSlot(p, RemoveAt(s, i), e);
    if i == 0 && |s| >= 2 {
      assert RemoveAt(s, i)[0] == s[1];
    }
  }

  /** A ranked key gets a new value. */
  lemma MoveTracks(p: Policy, max: nat, s: seq<Entry>, key: Key, value: int, r: map<Key, nat>)
    requires IsBoard(p, max, s) && Accurate(r, max, s) && IndexOf(s, key) < |s|
    requires !TopFalls(p, s, Update(key, value))
    ensures Accurate(Replay(Calls(p, max, s, Update(key, value)), r), max, Apply(p, max, s, Update(key, value)))
    ensures OldRanksMatch(Calls(p, max, s, Update(key, value)), r, max)
  {
    var i := IndexOf(s, key);
    if s[i].value != value {
      var e := Entry(key, value);
      UpdateUnfolds(p, max, s, i, e);
      ReseatedBoard(p, max, s, i, e);
      var q, d := Slot(p, RemoveAt(s, i), e), Placed(p, RemoveAt(s, i), e);
      PutBackMoves(s, i, q, e);
      MoveWalkTracks(max, s, d, i, q, r);
    }
  }

  lemma MoveWalkTracks(max: nat, s: seq<Entry>, d: seq<Entry>, i: nat, q: nat, r: map<Key, nat>)
    requires DistinctKeys(s) && DistinctKeys(d) && |s| <= max && Accurate(r, max, s)
    requires Moved(s, d, i, q) && !(i == 0 < q)
    ensures var calls := MoveCalls(d, d[q].key, i, q);
            OldRanksMatch(calls, r, max) && Accurate(Replay(calls, r), max, d)
  {
    if i < q {
      FallWalkTracks(max, s, d, i, q, r);
    } else if q < i {
      RiseWalkTracks(max, s, d, i, q, r);
    } else {
      StayTracks(max, s, d, i, r);
    }
  }

  lemma MovedRanks(s: seq<Entry>, d: seq<Entry>, i: nat, q: nat)
    requires DistinctKeys(s) && DistinctKeys(d) && Moved(s, d, i, q)
    ensures i < q ==> WalkFits(s, d, d[q].key, i, q, i + 2)
    ensures q < i ==> WalkFits(s, d, d[q].key, q + 1, i + 1, q + 1)
    ensures RankOf(s, d[q].key) == i + 1 && RankOf(d, d[q].key) == q + 1
  {
    forall j | i <= j < q
      ensures RankOf(s, d[j].key) == j + 2
    {
      assert d[j] == s[j + 1];
    }
    forall j | q < j <= i
      ensures RankOf(s, d[j].key) == j
    {
      assert d[j] == s[j - 1];
    }
  }

  lemma MovedOthers(s: seq<Entry>, d: seq<Entry>, i: nat, q: nat, max: nat)
    requires DistinctKeys(s) && DistinctKeys(d) && Moved(s, d, i, q) && |s| <= max
    ensures i < q ==> OthersStay(s, d, d[q].key, i, q, max)
    ensures q < i ==> OthersStay(s, d, d[q].key, q + 1, i + 1, max)
  {
    if i < q {
      forall k | k != d[q].key && !InRange(d, i, q, k)
        ensures RankOf(s, k) == Capped(RankOf(d, k), max)
      {
        MovedElsewhere(s, d, i, q, k);
      }
    } else if q < i {
      forall k | k != d[q].key && !InRange(d, q + 1, i + 1, k)
        ensures RankOf(s, k) == Capped(RankOf(d, k), max)
      {
        MovedElsewhere(s, d, i, q, k);
      }
    }
  }

  lemma FallWalkTracks(max: nat, s: seq<Entry>, d: seq<Entry>, i: nat, q: nat, r: map<Key, nat>)
    requires DistinctKeys(s) && DistinctKeys(d) && |s| <= max && Accurate(r, max, s)
    requires Moved(s, d, i, q) && 0 < i < q
    ensures var calls := MoveCalls(d, d[q].key, i, q);
            OldRanksMatch(calls, r, max) && Accurate(Replay(calls, r), max, d)
  {
    MovedRanks(s, d, i, q);
    MovedOthers(s, d, i, q, max);
    CallsTrack(max, s, d, d[q].key, q + 1, i, q, i + 2, r);
  }

  lemma RiseWalkTracks(max: nat, s: seq<Entry>, d: seq<Entry>, i: nat, q: nat, r: map<Key, nat>)
    requires DistinctKeys(s) && DistinctKeys(d) && |s| <= max && Accurate(r, max, s)
    requires Moved(s, d, i, q) && q < i
    ensures var calls := MoveCalls(d, d[q].key, i, q);
            OldRanksMatch(calls, r, max) && Accurate(Replay(calls, r), max, d)
  {
    var key := d[q].key;
    assert MoveCalls(d, key, i, q) == [Change(key, i + 1, q + 1)] + Walk(d, q + 1, i + 1, q + 1, q + 2);
    MovedRanks(s, d, i, q);
    MovedOthers(s, d, i, q, max);
    CallsTrack(max, s, d, key, q + 1, q + 1, i + 1, q + 1, r);
  }

  lemma StayTracks(max: nat, s: seq<Entry>, d: seq<Entry>, i: nat, r: map<Key, nat>)
    requires DistinctKeys(s) && DistinctKeys(d) && Accurate(r, max, s) && Moved(s, d, i, i)
    ensures Accurate(r, max, d)
  {
    forall k
      ensures Reading(r, max, k) == RankOf(d, k)
    {
      assert Reading(r, max, k) == RankOf(s, k);
      if k != d[i].key {
        MovedElsewhere(s, d, i, i, k);
      }
    }
  }

  /** When the leader falls to position q: it is told its new rank, the entry now leading keeps reading 2, the
  others it fell behind read one rank too few, and all the rest are right. */
  ghost predicate FallRead(max: nat, s: seq<Entry>, d: seq<Entry>, key: Key, r: map<Key, nat>, k: Key)
    requires |s| >= 2
  {
    Reading(r, max, k) ==
      if k == s[1].key then 2
      else if k != key && 1 < RankOf(d, k) < RankOf(d, key) then RankOf(d, k) - 1
      else RankOf(d, k)
  }

  lemma FallReadings(max: nat, s: seq<Entry>, d: seq<Entry>, q: nat, r: map<Key, nat>, k: Key)
    requires DistinctKeys(s) && DistinctKeys(d) && |s| <= max && Accurate(r, max, s)
    requires Moved(s, d, 0, q) && 0 < q
    ensures |s| >= 2 && FallRead(max, s, d, d[q].key, Replay(MoveCalls(d, d[q].key, 0, q), r), k)
  {
    var key, w := d[q].key, Walk(d, 1, q, 2, 1);
    var calls, r1 := [Change(key, 1, q + 1)] + w, r[key := q + 1];
    assert calls[1..] == w;
    ReplayWalk(d, 1, q, 2, 1, r1, max);
    RankAt(d, q);
    assert Reading(r, max, k) == RankOf(s, k);
    if InRange(d, 1, q, k) {
      var j :| 1 <= j < q && d[j].key == k;
      RankAt(d, j);
    } else {
      assert Untouched(r1, Replay(w, r1), k);
      FallElsewhere(s, d, q, k);
    }
  }

  lemma RankAt(s: seq<Entry>, j: nat)
    requires DistinctKeys(s) && j < |s|
    ensures RankOf(s, s[j].key) == j + 1
  {
  }

  lemma InRangeIff(d: seq<Entry>, lo: nat, hi: nat, k: Key)
    requires DistinctKeys(d) && hi <= |d|
    ensures InRange(d, lo, hi, k) <==> lo <= IndexOf(d, k) < hi
  {
  }

  lemma FallElsewhere(s: seq<Entry>, d: seq<Entry>, q: nat, k: Key)
    requires DistinctKeys(s) && DistinctKeys(d) && Moved(s, d, 0, q) && 0 < q && !InRange(d, 1, q, k)
    ensures |s| >= 2 && d[0] == s[1] && RankOf(s, s[1].key) == 2 && RankOf(d, d[0].key) == 1
    ensures k != d[q].key && k != s[1].key ==>
              RankOf(s, k) == RankOf(d, k) && !(1 < RankOf(d, k) < RankOf(d, d[q].key))
  {
    RankAt(s, 1);
    RankAt(d, 0);
    RankAt(d, q);
    if k != d[q].key && k != s[1].key {
      MovedElsewhere(s, d, 0, q, k);
      InRangeIff(d, 1, q, k);
    }
  }

  /** What every key reads after the calls of such a fall; in particular the runner-up is never told it leads. */
  lemma TopFallMisleads(p: Policy, max: nat, s: seq<Entry>, op: Op, r: map<Key, nat>)
    requires IsBoard(p, max, s) && Accurate(r, max, s) && TopFalls(p, s, op)
    ensures var d := Apply(p, max, s, op);
            forall k :: Reading(Replay(Calls(p, max, s, op), r), max, k) ==
              if k == s[1].key then 2
              else if k != op.key && 1 < RankOf(d, k) < RankOf(d, op.key) then RankOf(d, k) - 1
              else RankOf(d, k)
    ensures RankOf(Apply(p, max, s, op), s[1].key) == 1
  {
    var e := Entry(op.key, op.value);
    assert s[0].value != op.value by {
      assert p.Before(s[0], s[1]);
    }
    UpdateUnfolds(p, max, s, 0, e);
    ReseatedBoard(p, max, s, 0, e);
    var m := RemoveAt(s, 0);
    var q, d := Slot(p, m, e), Placed(p, m, e);
    assert m[0] == s[1];
    PutBackMoves(s, 0, q, e);
    RankAt(d, 0);
    var r' := Replay(Calls(p, max, s, op), r);
    forall k
      ensures Reading(r', max, k) ==
                if k == s[1].key then 2
                else if k != op.key && 1 < RankOf(d, k) < RankOf(d, op.key) then RankOf(d, k) - 1
                else RankOf(d, k)
    {
      FallReadings(max, s, d, q, r, k);
    }
  }

  /** One operation keeps an accurate listener accurate exactly when it is not a fall of the leader. */
  lemma StepTracks(p: Policy, max: nat, s: seq<Entry>, op: Op, r: map<Key, nat>)
    requires IsBoard(p, max, s) && Accurate(r, max, s)
    ensures Accurate(Replay(Calls(p, max, s, op), r), max, Apply(p, max, s, op)) <==> !TopFalls(p, s, op)
    ensures !TopFalls(p, s, op) ==> OldRanksMatch(Calls(p, max, s, op), r, max)
  {
    if TopFalls(p, s, op) {
      TopFallMisleads(p, max, s, op, r);
    } else if op.Remove? {
      RemoveTracks(p, max, s, op.key, r);
    } else if IndexOf(s, op.key) == |s| {
      InsertTracks(p, max, s, op.key, op.value, r);
    } else {
      MoveTracks(p, max, s, op.key, op.value, r);
    }
  }

  /** ---- The calls themselves ---- */

  lemma {:induction false} WalkAt(s: seq<Entry>, from: nat, to: nat, oldRank: nat, newRank: nat, j: nat)
    requires from + j < to <= |s|
    ensures Walk(s, from, to, oldRank, newRank)[j] == Change(s[from + j].key, oldRank + j, newRank + j)
    decreases j
  {
    if j > 0 {
      WalkAt(s, from + 1, to, oldRank + 1, newRank + 1, j - 1);
    }
  }

  /** Calls as they are made: first the key of the operation, then others, each once, in order of rank and each
  moving by one; no call tells a rank that has not changed. */
  ghost predicate WellTold(c: seq<Change>, key: Key) {
    && (forall i :: 0 <= i < |c| ==> c[i].oldRank != c[i].newRank)
    && (forall i, j :: 0 <= i < j < |c| ==> c[i].key != c[j].key)
    && (c != [] ==> c[0].key == key)
    && (forall i, j :: 0 < i < j < |c| ==> c[j].newRank - c[i].newRank == c[j].oldRank - c[i].oldRank == j - i)
    && (forall i :: 0 < i < |c| ==> c[i].newRank == c[i].oldRank + 1 || c[i].oldRank == c[i].newRank + 1)
  }

  lemma WalkWellTold(d: seq<Entry>, key: Key, first: Change, lo: nat, hi: nat, oldRank: nat, newRank: nat)
    requires DistinctKeys(d) && hi <= |d| && first.key == key && first.oldRank != first.newRank
    requires newRank == oldRank + 1 || oldRank == newRank + 1
    requires forall j :: lo <= j < hi ==> d[j].key != key
    ensures WellTold([first] + Walk(d, lo, hi, oldRank, newRank), key)
  {
    var c := [first] + Walk(d, lo, hi, oldRank, newRank);
    forall i | 0 < i < |c|
      ensures c[i] == Change(d[lo + i - 1].key, oldRank + i - 1, newRank + i - 1)
    {
      WalkAt(d, lo, hi, oldRank, newRank, i - 1);
    }
    forall i, j | 0 <= i < j < |c|
      ensures c[i].key != c[j].key
    {
      assert c[j].key == d[lo + j - 1].key;
      assert i > 0 ==> c[i].key == d[lo + i - 1].key;
    }
  }

  /** So it is for every operation, the fall of the leader included. */
  lemma CallsAreWellTold(p: Policy, max: nat, s: seq<Entry>, op: Op)
    requires IsBoard(p, max, s)
    ensures WellTold(Calls(p, max, s, op), op.key)
  {
    var i := IndexOf(s, op.key);
    match op
    case Remove(key) =>
      if i < |s| {
        RemovedWellTold(s, i);
      }
    case Update(key, value) =>
      var e := Entry(key, value);
      if i < |s| && s[i].value != value {
        ReseatedBoard(p, max, s, i, e);
        MovedWellTold(Placed(p, RemoveAt(s, i), e), i, Slot(p, RemoveAt(s, i), e));
      } else if i == |s| && !Refused(p, max, s, value) {
        PlacedIsSorted(p, s, e);
        PlacedAtSlot(p, s, e);
        EnteredWellTold(Placed(p, s, e), Slot(p, s, e));
      }
  }

  lemma RemovedWellTold(s: seq<Entry>, i: nat)
    requires DistinctKeys(s) && i < |s|
    ensures WellTold(LeaveCalls(RemoveAt(s, i), s[i].key, i), s[i].key)
  {
    var d := RemoveAt(s, i);
    assert forall j :: 0 <= j < |d| ==> d[j] == s[if j < i then j else j + 1];
    WalkWellTold(d, s[i].key, Change(s[i].key, i + 1, 0), i, |d|, i + 2, i + 1);
  }

  lemma EnteredWellTold(d: seq<Entry>, q: nat)
    requires DistinctKeys(d) && q < |d|
    ensures WellTold(EnterCalls(d, d[q].key, q), d[q].key)
  {
    WalkWellTold(d, d[q].key, Change(d[q].key, 0, q + 1), q + 1, |d|, q + 1, q + 2);
  }

  lemma MovedWellTold(d: seq<Entry>, i: nat, q: nat)
    requires DistinctKeys(d) && i < |d| && q < |d|
    ensures WellTold(MoveCalls(d, d[q].key, i, q), d[q].key)
  {
    var first := Change(d[q].key, i + 1, q + 1);
    if i < q {
      WalkWellTold(d, d[q].key, first, if i == 0 then 1 else i, q, i + 2, i + 1);
    } else if q < i {
      WalkWellTold(d, d[q].key, first, q + 1, i + 1, q + 1, q + 2);
    }
  }

  /** ---- Whole runs, from an empty board and a listener that knows nothing ---- */

  function RunBoard(p: Policy, max: nat, ops: seq<Op>): seq<Entry> {
    if ops == [] then [] else Apply(p, max, RunBoard(p, max, ops[..|ops| - 1]), ops[|ops| - 1])
  }

  function RunCalls(p: Policy, max: nat, ops: seq<Op>): seq<Change> {
    if ops == [] then []
    else RunCalls(p, max, ops[..|ops| - 1]) + Calls(p, max, RunBoard(p, max, ops[..|ops| - 1]), ops[|ops| - 1])
  }

  ghost predicate ListenerRight(p: Policy, max: nat, ops: seq<Op>) {
    Accurate(Replay(RunCalls(p, max, ops), map[]), max, RunBoard(p, max, ops))
  }

  lemma {:induction false} RunKeepsBoard(p: Policy, max: nat, ops: seq<Op>)
    requires p.Valid() && 0 < max
    ensures IsBoard(p, max, RunBoard(p, max, ops))
  {
    if ops != [] {
      var before := ops[..|ops| - 1];
      RunKeepsBoard(p, max, before);
      ApplyKeepsBoard(p, max, RunBoard(p, max, before), ops[|ops| - 1]);
    }
  }

  /** The listener is right after the run and after every prefix of it. */
  ghost predicate AlwaysRight(p: Policy, max: nat, ops: seq<Op>) {
    ListenerRight(p, max, ops) && (ops != [] ==> AlwaysRight(p, max, ops[..|ops| - 1]))
  }

  ghost predicate LeaderNeverFalls(p: Policy, max: nat, ops: seq<Op>) {
    ops != [] ==>
      && !TopFalls(p, RunBoard(p, max, ops[..|ops| - 1]), ops[|ops| - 1])
      && LeaderNeverFalls(p, max, ops[..|ops| - 1])
  }

  /** The listener holds every key's true rank after every prefix of a run exactly when the
  leader never falls in that run. */
  lemma {:induction false} ReplayIsTrueRanking(p: Policy, max: nat, ops: seq<Op>)
    requires p.Valid() && 0 < max
    ensures AlwaysRight(p, max, ops) <==> LeaderNeverFalls(p, max, ops)
  {
    if ops != [] {
      ReplayIsTrueRanking(p, max, ops[..|ops| - 1]);
      if AlwaysRight(p, max, ops[..|ops| - 1]) {
        LastStepTracks(p, max, ops);
      }
    }
  }

  lemma LastStepTracks(p: Policy, max: nat, ops: seq<Op>)
    requires p.Valid() && 0 < max && ops != [] && ListenerRight(p, max, ops[..|ops| - 1])
    ensures ListenerRight(p, max, ops) <==> !TopFalls(p, RunBoard(p, max, ops[..|ops| - 1]), ops[|ops| - 1])
  {
    var before, op := ops[..|ops| - 1], ops[|ops| - 1];
    RunKeepsBoard(p, max, before);
    ReplayAppend(RunCalls(p, max, before), Calls(p, max, RunBoard(p, max, before), op), map[]);
    StepTracks(p, max, RunBoard(p, max, before), op, Replay(RunCalls(p, max, before), map[]));
  }

  /** ---- What the board means ---- */

  /** The order of the board in plain fields: a descending board puts greater values first and among equal values
  the greater key, an ascending one does the opposite in both. */
  lemma BoardOrder(p: Policy, max: nat, s: seq<Entry>, i: nat, j: nat)
    requires IsBoard(p, max, s) && i < |s| && j < |s| && i != j
    ensures p.downSeq ==>
              (i < j <==> s[i].value > s[j].value || (s[i].value == s[j].value && p.greater(s[i].key, s[j].key)))
    ensures !p.downSeq ==>
              (i < j <==> s[i].value < s[j].value || (s[i].value == s[j].value && p.greater(s[j].key, s[i].key)))
  {
    if i < j {
      assert p.Before(s[i], s[j]);
    } else {
      assert p.Before(s[j], s[i]);
    }
  }

  /** Which new keys a board turns away, in plain fields. */
  lemma RefusedWhen(p: Policy, max: nat, s: seq<Entry>, value: int)
    requires IsBoard(p, max, s)
    ensures Refused(p, max, s, value) <==>
            |s| == max && if p.downSeq then value <= s[max - 1].value else value >= s[max - 1].value
  {
  }

  /** A rank is one plus the number of entries strictly ahead. */
  lemma RankCountsAhead(p: Policy, s: seq<Entry>, e: Entry)
    requires p.Valid() && Sorted(p, s) && DistinctKeys(s) && e in s
    ensures RankOf(s, e.key) == 1 + |set x | x in s && p.Before(x, e)|
  {
    var i :| 0 <= i < |s| && s[i] == e;
    var ahead := set x | x in s && p.Before(x, e);
    assert ahead == set x | x in s[..i] by {
      forall x | x in ahead ensures x in s[..i] {
        var j :| 0 <= j < |s| && s[j] == x;
        assert j > i ==> p.Before(s[i], s[j]);
        assert s[..i][j] == x;
      }
      forall x | x in s[..i] ensures x in ahead {
        var j :| 0 <= j < i && s[..i][j] == x;
        assert p.Before(s[j], s[i]);
      }
    }
    PrefixSize(s[..i]);
  }

  lemma {:induction false} PrefixSize(s: seq<Entry>)
    requires DistinctKeys(s)
    ensures |set x | x in s| == |s|
  {
    if s != [] {
      var t := s[..|s| - 1];
      assert s == t + [s[|s| - 1]];
      PrefixSize(t);
      assert (set x | x in s) == (set x | x in t) + {s[|s| - 1]};
      assert s[|s| - 1] !in t;
    }
  }

  lemma RemoveMembers(s: seq<Entry>, i: nat)
    requires i < |s| && DistinctKeys(s)
    ensures forall x :: x in RemoveAt(s, i) <==> x in s && x.key != s[i].key
  {
    forall x | x in s && x.key != s[i].key
      ensures x in RemoveAt(s, i)
    {
      var j :| 0 <= j < |s| && s[j] == x;
      assert RemoveAt(s, i)[if j < i then j else j - 1] == x;
    }
  }

  lemma PlacedMembers(p: Policy, s: seq<Entry>, e: Entry)
    ensures forall x :: x in Placed(p, s, e) <==> x in s || x == e
  {
    var q := Slot(p, s, e);
    PlacedAtSlot(p, s, e);
    assert s == s[..q] + s[q..];
  }

  /** After an update the entry is on the board, unless the key was not and the board turned it away; then nothing
  has changed, and nobody is told anything. */
  lemma UpdatedOrRefused(p: Policy, max: nat, s: seq<Entry>, key: Key, value: int)
    requires IsBoard(p, max, s)
    ensures var refused := (forall x :: x in s ==> x.key != key) && |s| == max &&
              if p.downSeq then value <= s[max - 1].value else value >= s[max - 1].value;
            if refused then Apply(p, max, s, Update(key, value)) == s && Calls(p, max, s, Update(key, value)) == []
            else Entry(key, value) in Apply(p, max, s, Update(key, value))
  {
    BoardRanks(s, key);
    RefusedWhen(p, max, s, value);
    if RankOf(s, key) > 0 {
      RescoreMembers(p, max, s, Entry(key, value));
    } else if !Refused(p, max, s, value) {
      NewcomerStays(p, max, s, Entry(key, value));
    }
  }

  /** A new key that is let in is never the one evicted. */
  lemma NewcomerStays(p: Policy, max: nat, s: seq<Entry>, e: Entry)
    requires IsBoard(p, max, s) && RankOf(s, e.key) == 0 && !Refused(p, max, s, e.value)
    ensures 0 < RankOf(Apply(p, max, s, Update(e.key, e.value)), e.key) <= max
    ensures e in Apply(p, max, s, Update(e.key, e.value))
  {
    var q, d := Slot(p, s, e), Placed(p, s, e);
    PlacedAtSlot(p, s, e);
    assert d[q] == e;
    PlacedIsSorted(p, s, e);
    if |s| >= max {
      assert q < |s|;
      assert d[..|s|][q] == e;
    }
  }

  /** ---- A true top list ---- */

  /** Every board value is the latest one, and no excluded key's latest value beats any value on
  the board; keys are excluded only by a full board. */
  ghost predicate IsTop(p: Policy, max: nat, s: seq<Entry>, latest: map<Key, int>) {
    && (forall e :: e in s ==> e.key in latest && latest[e.key] == e.value)
    && (forall k, e :: k in latest && RankOf(s, k) == 0 && e in s ==> !p.Beats(latest[k], e.value))
    && (forall k :: k in latest && RankOf(s, k) == 0 ==> |s| == max)
  }

  /** The latest value submitted for each key. */
  function Latest(ops: seq<Op>): map<Key, int> {
    if ops == [] then map[]
    else
      var op := ops[|ops| - 1];
      var m := Latest(ops[..|ops| - 1]);
      if op.Update? then m[op.key := op.value] else m
  }

  /** An update that does not worsen the score of a key on the board. */
  predicate NoWorse(p: Policy, s: seq<Entry>, op: Op) {
    op.Update? && var i := IndexOf(s, op.key); i < |s| ==> !p.Beats(s[i].value, op.value)
  }

  lemma BoardRanks(s: seq<Entry>, k: Key)
    requires DistinctKeys(s)
    ensures RankOf(s, k) == 0 <==> forall e :: e in s ==> e.key != k
  {
    if RankOf(s, k) == 0 {
      assert IndexOf(s, k) == |s|;
    } else {
      assert s[IndexOf(s, k)] in s;
    }
  }

  lemma LastIsWorst(p: Policy, s: seq<Entry>, v: int)
    requires p.Valid() && Sorted(p, s) && |s| > 0
    ensures (forall e :: e in s ==> !p.Beats(v, e.value)) <==> !p.Beats(v, s[|s| - 1].value)
  {
    var last := s[|s| - 1];
    assert last in s;
    forall e | e in s && !p.Beats(v, last.value)
      ensures !p.Beats(v, e.value)
    {
      var j :| 0 <= j < |s| && s[j] == e;
      assert j < |s| - 1 ==> p.Before(s[j], s[|s| - 1]);
    }
  }

  lemma RescoreMembers(p: Policy, max: nat, s: seq<Entry>, e: Entry)
    requires IsBoard(p, max, s) && RankOf(s, e.key) > 0
    ensures var s' := Apply(p, max, s, Update(e.key, e.value));
            |s'| == |s| && forall x :: x in s' <==> (x in s && x.key != e.key) || x == e
  {
    var i := IndexOf(s, e.key);
    assert s[i] in s;
    if s[i].value != e.value {
      RemoveMembers(s, i);
      PlacedMembers(p, RemoveAt(s, i), e);
    } else {
      assert s[i] == e;
    }
  }

  lemma TopRescore(p: Policy, max: nat, s: seq<Entry>, e: Entry, latest: map<Key, int>)
    requires IsBoard(p, max, s) && IsTop(p, max, s, latest) && RankOf(s, e.key) > 0
    ensures IsTop(p, max, Apply(p, max, s, Update(e.key, e.value)), latest[e.key := e.value]) <==>
            forall k :: k in latest && RankOf(s, k) == 0 ==> !p.Beats(latest[k], e.value)
  {
    var s' := Apply(p, max, s, Update(e.key, e.value));
    RescoreMembers(p, max, s, e);
    ApplyKeepsBoard(p, max, s, Update(e.key, e.value));
    forall k
      ensures RankOf(s, k) == 0 <==> RankOf(s', k) == 0
    {
      BoardRanks(s, k);
      BoardRanks(s', k);
    }
  }

  lemma AdmitMembers(p: Policy, max: nat, s: seq<Entry>, e: Entry)
    requires IsBoard(p, max, s) && RankOf(s, e.key) == 0 && !Refused(p, max, s, e.value)
    ensures var s' := Apply(p, max, s, Update(e.key, e.value));
            && e in s'
            && (forall x :: x in s' ==> x in s || x == e)
            && (|s| < max ==> |s'| == |s| + 1 && forall x :: x in s ==> x in s')
            && (|s| == max ==> |s'| == max && forall x :: x in s && x !in s' ==>
                  x == s[max - 1] && forall y :: y in s' ==> p.Before(y, x))
  {
    var q, d := Slot(p, s, e), Placed(p, s, e);
    PlacedMembers(p, s, e);
    PlacedIsSorted(p, s, e);
    PlacedAtSlot(p, s, e);
    NewcomerStays(p, max, s, e);
    if |s| == max {
      assert q < max;
      assert d[max] == s[max - 1];
      assert d == d[..max] + [d[max]];
    }
  }

  lemma TopAdmit(p: Policy, max: nat, s: seq<Entry>, e: Entry, latest: map<Key, int>)
    requires IsBoard(p, max, s) && IsTop(p, max, s, latest)
    requires RankOf(s, e.key) == 0 && !Refused(p, max, s, e.value)
    ensures IsTop(p, max, Apply(p, max, s, Update(e.key, e.value)), latest[e.key := e.value])
  {
    var s', latest' := Apply(p, max, s, Update(e.key, e.value)), latest[e.key := e.value];
    AdmitMembers(p, max, s, e);
    ApplyKeepsBoard(p, max, s, Update(e.key, e.value));
    BoardRanks(s, e.key);
    BoardRanks(s', e.key);
    forall k | k in latest' && RankOf(s', k) == 0
      ensures |s'| == max && forall x :: x in s' ==> !p.Beats(latest'[k], x.value)
    {
      BoardRanks(s, k);
      BoardRanks(s', k);
      if RankOf(s, k) > 0 {
        var x := s[IndexOf(s, k)];
        assert x in s && x !in s';
      } else if |s| == max {
        assert s[max - 1] in s;
        LastIsWorst(p, s, latest[k]);
      }
    }
  }

  /** An update keeps a true top list exactly when it leaves no excluded key ahead of the new
  value; updates that do not worsen a score on the board always do. */
  lemma TopStep(p: Policy, max: nat, s: seq<Entry>, key: Key, value: int, latest: map<Key, int>)
    requires IsBoard(p, max, s) && IsTop(p, max, s, latest)
    ensures IsTop(p, max, Apply(p, max, s, Update(key, value)), latest[key := value]) <==>
            (RankOf(s, key) == 0 || forall k :: k in latest && RankOf(s, k) == 0 ==> !p.Beats(latest[k], value))
    ensures NoWorse(p, s, Update(key, value)) ==>
            IsTop(p, max, Apply(p, max, s, Update(key, value)), latest[key := value])
  {
    if RankOf(s, key) > 0 {
      TopRescore(p, max, s, Entry(key, value), latest);
      assert s[IndexOf(s, key)] in s;
    } else if Refused(p, max, s, value) {
      BoardRanks(s, key);
      LastIsWorst(p, s, value);
    } else {
      TopAdmit(p, max, s, Entry(key, value), latest);
    }
  }

  /** Over a run of updates none of which worsens the score of a key on the board, the board is
  a true top-`max` of the latest values. */
  lemma {:induction false} RunIsTop(p: Policy, max: nat, ops: seq<Op>)
    requires p.Valid() && 0 < max
    requires forall n :: 0 <= n < |ops| ==> NoWorse(p, RunBoard(p, max, ops[..n]), ops[n])
    ensures IsTop(p, max, RunBoard(p, max, ops), Latest(ops))
  {
    if ops != [] {
      var before, op := ops[..|ops| - 1], ops[|ops| - 1];
      forall n | 0 <= n < |before|
        ensures NoWorse(p, RunBoard(p, max, before[..n]), before[n])
      {
        assert before[..n] == ops[..n];
      }
      RunIsTop(p, max, before);
      RunKeepsBoard(p, max, before);
      TopStep(p, max, RunBoard(p, max, before), op.key, op.value, Latest(before));
    }
  }

  /** ---- The object ---- */

  /** The first position of a node. */
  ghost function PositionOf(s: seq<Entry>, e: Entry): (i: nat)
    requires e in s
    ensures i < |s| && s[i] == e && forall j :: 0 <= j < i ==> s[j] != e
  {
    if s[0] == e then 0 else 1 + PositionOf(s[1..], e)
  }

  lemma PositionIsIndex(s: seq<Entry>, e: Entry)
    requires DistinctKeys(s) && e in s
    ensures PositionOf(s, e) == IndexOf(s, e.key)
  {
  }

  /** The index and the set are in bijection. */
  ghost predicate Indexed(index: map<Key, Entry>, s: seq<Entry>) {
    && (forall e :: e in s ==> e.key in index && index[e.key] == e)
    && (forall k :: k in index ==> index[k] in s && index[k].key == k)
  }

  lemma IndexedRank(index: map<Key, Entry>, s: seq<Entry>, k: Key)
    requires DistinctKeys(s) && Indexed(index, s)
    ensures k in index <==> RankOf(s, k) > 0
    ensures k in index ==> index[k] == s[IndexOf(s, k)]
  {
    BoardRanks(s, k);
    if RankOf(s, k) > 0 {
      assert s[IndexOf(s, k)] in s;
    }
  }

  lemma IndexSize(index: map<Key, Entry>, s: seq<Entry>)
    requires DistinctKeys(s) && Indexed(index, s)
    ensures |index| == |s|
  {
    PrefixSize(s);
    var nodes := set e | e in s;
    assert nodes == index.Values;
    SameSize(index, nodes);
  }

  lemma {:induction false} SameSize(index: map<Key, Entry>, nodes: set<Entry>)
    requires forall k :: k in index ==> index[k].key == k
    requires forall e :: e in nodes <==> e.key in index && index[e.key] == e
    ensures |index| == |nodes|
    decreases |nodes|
  {
    if nodes == {} {
      assert forall k :: k in index ==> index[k] in nodes;
      assert index == map[];
    } else {
      var e :| e in nodes;
      SameSize(index - {e.key}, nodes - {e});
      assert |(index - {e.key}).Keys| == |index.Keys - {e.key}|;
    }
  }

  /** What taking a key out amounts to, for the object: `i` is where it stands. */
  lemma RemoveStep(p: Policy, max: nat, s: seq<Entry>, index: map<Key, Entry>, key: Key, i: nat)
    requires IsBoard(p, max, s) && Indexed(index, s) && key in index && index[key] in s
    requires i == PositionOf(s, index[key])
    ensures var d := RemoveAt(s, i);
            && Apply(p, max, s, Remove(key)) == d
            && Calls(p, max, s, Remove(key)) == LeaveCalls(d, key, i)
            && IsBoard(p, max, d)
            && Indexed(index - {key}, d)
  {
    ApplyKeepsBoard(p, max, s, Remove(key));
  }

  lemma PlacedReindexed(p: Policy, index: map<Key, Entry>, s: seq<Entry>, e: Entry)
    requires Indexed(index, s) && e.key !in index
    ensures Indexed(index[e.key := e], Placed(p, s, e))
  {
    PlacedMembers(p, s, e);
  }

  lemma DropReindexed(index: map<Key, Entry>, s: seq<Entry>)
    requires s != [] && DistinctKeys(s) && Indexed(index, s)
    ensures Indexed(index - {s[|s| - 1].key}, s[..|s| - 1])
  {
    assert RemoveAt(s, |s| - 1) == s[..|s| - 1];
  }

  function Evicted(d: seq<Entry>, full: bool): seq<Entry> {
    if full && d != [] then d[..|d| - 1] else d
  }

  function EvictedIndex(index: map<Key, Entry>, d: seq<Entry>, full: bool): map<Key, Entry> {
    if full && d != [] then index - {d[|d| - 1].key} else index
  }

  /** What letting a new key in amounts to, for the object. */
  lemma InsertStep(p: Policy, max: nat, s: seq<Entry>, index: map<Key, Entry>, e: Entry)
    requires IsBoard(p, max, s) && Indexed(index, s) && e.key !in index && !Refused(p, max, s, e.value)
    ensures var d := Placed(p, s, e);
            && e in d
            && Calls(p, max, s, Update(e.key, e.value)) == EnterCalls(d, e.key, PositionOf(d, e))
            && Apply(p, max, s, Update(e.key, e.value)) == Evicted(d, |s| >= max)
            && IsBoard(p, max, Evicted(d, |s| >= max))
            && Indexed(EvictedIndex(index[e.key := e], d, |s| >= max), Evicted(d, |s| >= max))
  {
    IndexedRank(index, s, e.key);
    EnterUnfolds(p, max, s, e);
    ApplyKeepsBoard(p, max, s, Update(e.key, e.value));
    PlacedIsSorted(p, s, e);
    PlacedReindexed(p, index, s, e);
    if |s| >= max {
      DropReindexed(index[e.key := e], Placed(p, s, e));
    }
  }

  lemma EnterUnfolds(p: Policy, max: nat, s: seq<Entry>, e: Entry)
    requires IsBoard(p, max, s) && IndexOf(s, e.key) == |s| && !Refused(p, max, s, e.value)
    ensures var d := Placed(p, s, e);
            && e in d
            && Calls(p, max, s, Update(e.key, e.value)) == EnterCalls(d, e.key, PositionOf(d, e))
            && Apply(p, max, s, Update(e.key, e.value)) == Evicted(d, |s| >= max)
  {
    var d, q := Placed(p, s, e), Slot(p, s, e);
    PlacedAtSlot(p, s, e);
    PlacedIsSorted(p, s, e);
    assert d[q] == e;
    PositionIsIndex(d, e);
    assert IndexOf(d, d[q].key) == q;
  }

  /** What giving a ranked key a different value amounts to; `i` is where it stands. */
  lemma MoveStep(p: Policy, max: nat, s: seq<Entry>, index: map<Key, Entry>, i: nat, e: Entry)
    requires IsBoard(p, max, s) && Indexed(index, s) && e.key in index && index[e.key].value != e.value
    requires index[e.key] in s && i == PositionOf(s, index[e.key])
    ensures var d, q := Placed(p, RemoveAt(s, i), e), Slot(p, RemoveAt(s, i), e);
            && d == InsertAt(RemoveAt(s, i), q, e)
            && IsBoard(p, max, d) && e in d && PositionOf(d, e) == q && |d| == |s|
            && Apply(p, max, s, Update(e.key, e.value)) == d
            && Calls(p, max, s, Update(e.key, e.value)) == MoveCalls(d, e.key, i, q)
            && Indexed(index[e.key := e], d)
  {
    UpdateUnfolds(p, max, s, i, e);
    ReseatedBoard(p, max, s, i, e);
    PositionIsIndex(Placed(p, RemoveAt(s, i), e), e);
    MoveReindexed(p, s, index, i, e);
  }

  lemma MoveReindexed(p: Policy, s: seq<Entry>, index: map<Key, Entry>, i: nat, e: Entry)
    requires DistinctKeys(s) && Indexed(index, s) && i < |s| && s[i].key == e.key
    ensures Indexed(index[e.key := e], Placed(p, RemoveAt(s, i), e))
  {
    PlacedReindexed(p, index - {e.key}, RemoveAt(s, i), e);
    assert (index - {e.key})[e.key := e] == index[e.key := e];
  }

  /** Where the iterator kept across the erase at i and the insert at q ends up. */
  function HintAfter(i: nat, q: nat): nat {
    if i == 0 then (if q == 0 then 1 else 0) else if q < i then i else i - 1
  }

  class Sequence {
    const policy: Policy
    const maxSize: nat
    var dataSet: seq<Entry>          // the ordered set, in order
    var keyMap: map<Key, Entry>        // key -> node; a node is the entry it holds
    var updated: bool
    var calls: seq<Change>           // every dealChangeOrderNum call made so far

    /** The set is an ordered set under the cap and the index is in bijection with it. */
    ghost predicate Valid()
      reads this
    {
      && IsBoard(policy, maxSize, dataSet)
      && Indexed(keyMap, dataSet)
    }

    constructor (policy: Policy, maxSize: nat)
      requires policy.Valid() && 0 < maxSize
      ensures Valid() && dataSet == [] && calls == [] && !updated
      ensures this.policy == policy && this.maxSize == maxSize
    {
      this.policy := policy;
      this.maxSize := maxSize;
      dataSet, keyMap, updated, calls := [], map[], false, [];
    }

    /** Makes one dealChangeOrderNum call. */
    method Announce(key: Key, oldRank: nat, newRank: nat)
      modifies this`calls
      ensures calls == old(calls) + [Change(key, oldRank, newRank)]
    {
      calls := calls + [Change(key, oldRank, newRank)];
    }

    /** Walks from the front to a node, counting the rank. */
    method FindRank(node: Entry) returns (i: nat, orderNum: nat)
      requires node in dataSet
      ensures i == PositionOf(dataSet, node) && orderNum == i + 1
    {
      i, orderNum := 0, 1;
      while dataSet[i] != node
        invariant i <= PositionOf(dataSet, node) && orderNum == i + 1
        decreases |dataSet| - i
      {
        i, orderNum := i + 1, orderNum + 1;
      }
    }

    /** One call for `key`, then one per entry of dataSet[from..to], both ranks rising by one. */
    method AnnounceShift(key: Key, oldRank: nat, newRank: nat, from: nat, to: nat, walkOld: nat, walkNew: nat)
      requires to <= |dataSet|
      modifies this`calls
      ensures calls == old(calls) + ([Change(key, oldRank, newRank)] + Walk(dataSet, from, to, walkOld, walkNew))
    {
      Announce(key, oldRank, newRank);
      var i, o, n := from, walkOld, walkNew;
      while i < to
        invariant from <= i && (from <= to ==> i <= to) && o == walkOld + (i - from) && n == walkNew + (i - from)
        invariant calls + Walk(dataSet, i, to, o, n) ==
                  old(calls) + ([Change(key, oldRank, newRank)] + Walk(dataSet, from, to, walkOld, walkNew))
      {
        Announce(dataSet[i].key, o, n);
        i, o, n := i + 1, o + 1, n + 1;
      }
    }

    /** The calls of a departure, an arrival or a move, made over the set as it now is. */
    method AnnounceLeave(key: Key, i: nat, orderNum: nat)
      requires orderNum == i + 1
      modifies this`calls
      ensures calls == old(calls) + LeaveCalls(dataSet, key, i)
    {
      AnnounceShift(key, orderNum, 0, i, |dataSet|, orderNum + 1, orderNum);
    }

    method AnnounceEnter(key: Key, i: nat, orderNum: nat)
      requires orderNum == i + 1
      modifies this`calls
      ensures calls == old(calls) + EnterCalls(dataSet, key, i)
    {
      AnnounceShift(key, 0, orderNum, i + 1, |dataSet|, orderNum, orderNum + 1);
    }

    method RemoveData(key: Key)
      requires Valid()
      modifies this
      ensures Valid()
      ensures dataSet == Apply(policy, maxSize, old(dataSet), Remove(key))
      ensures calls == old(calls) + Calls(policy, maxSize, old(dataSet), Remove(key))
      ensures updated == (old(updated) || key in old(keyMap))
    {
      if key !in keyMap {
        return;
      }
      var i, orderNum := FindRank(keyMap[key]);
      RemoveStep(policy, maxSize, dataSet, keyMap, key, i);
      dataSet := RemoveAt(dataSet, i);
      keyMap := keyMap - {key};

      // the walk resumes at the entry that followed the removed one
      AnnounceLeave(key, i, orderNum);
      updated := true;
    }

    method UpdateData(key: Key, value: int)
      requires Valid()
      modifies this
      ensures Valid()
      ensures dataSet == Apply(policy, maxSize, old(dataSet), Update(key, value))
      ensures calls == old(calls) + Calls(policy, maxSize, old(dataSet), Update(key, value))
      ensures updated == (old(updated) || if key in old(keyMap) then old(keyMap[key].value) != value
                                         else !Refused(policy, maxSize, old(dataSet), value))
    {
      if key !in keyMap {
        InsertNew(key, value);
      } else {
        if value != keyMap[key].value {
          Rescore(key, value);
        }
      }
    }

    /** Is the board full, and if so, does it turn the value away? */
    method CheckFull(value: int) returns (isFull: bool, refused: bool)
      requires Valid()
      ensures isFull <==> |dataSet| >= maxSize
      ensures refused <==> Refused(policy, maxSize, dataSet, value)
      ensures refused == (|dataSet| == maxSize &&
                if policy.downSeq then value <= dataSet[maxSize - 1].value else value >= dataSet[maxSize - 1].value)
    {
      IndexSize(keyMap, dataSet);
      isFull, refused := |keyMap| >= maxSize, false;
      if isFull {
        var last := dataSet[|dataSet| - 1].value;
        if policy.downSeq && last >= value {
          refused := true;
        }
        if !policy.downSeq && last <= value {
          refused := true;
        }
      }
    }

    method EvictIf(isFull: bool)
      requires dataSet != []
      modifies this`dataSet, this`keyMap
      ensures dataSet == Evicted(old(dataSet), isFull)
      ensures keyMap == EvictedIndex(old(keyMap), old(dataSet), isFull)
    {
      if isFull {
        keyMap := keyMap - {dataSet[|dataSet| - 1].key};
        dataSet := dataSet[..|dataSet| - 1];
      }
    }

    method InsertNew(key: Key, value: int)
      requires Valid() && key !in keyMap
      modifies this
      ensures Valid()
      ensures dataSet == Apply(policy, maxSize, old(dataSet), Update(key, value))
      ensures calls == old(calls) + Calls(policy, maxSize, old(dataSet), Update(key, value))
      ensures updated == (old(updated) || !Refused(policy, maxSize, old(dataSet), value))
    {
      var node := Entry(key, value);
      var isFull, refused := CheckFull(value);
      if refused {
        return;
      }
      InsertStep(policy, maxSize, dataSet, keyMap, node);
      dataSet := Placed(policy, dataSet, node);
      keyMap := keyMap[key := node];
      var i, orderNum := FindRank(node);
      AnnounceEnter(key, i, orderNum);
      EvictIf(isFull);
      updated := true;
    }

    /** The value of a ranked key changes.  `hint` is the position of the iterator the code keeps
    across the erase and the insert: the entry before the node or, for the first node, the one
    after it. */
    method Rescore(key: Key, value: int)
      requires Valid() && key in keyMap && keyMap[key].value != value
      modifies this
      ensures Valid() && updated
      ensures dataSet == Apply(policy, maxSize, old(dataSet), Update(key, value))
      ensures calls == old(calls) + Calls(policy, maxSize, old(dataSet), Update(key, value))
    {
      var node := Entry(key, value);
      var i, oldOrderNum := FindRank(keyMap[key]);
      MoveStep(policy, maxSize, dataSet, keyMap, i, node);
      var hint := if i == 0 then i + 1 else i - 1;
      var q;
      q, hint := EraseAndInsert(i, node, hint);
      keyMap := keyMap[key := node];
      updated := true;
      AnnounceMove(node, i, oldOrderNum, q, hint);
    }

    /** Erases position i and inserts the node again; iterators past an erased node move down by
    one, iterators from an inserted node on move up by one. */
    method EraseAndInsert(i: nat, node: Entry, hint0: nat) returns (q: nat, hint: nat)
      requires i < |dataSet| && hint0 == if i == 0 then 1 else i - 1
      modifies this`dataSet
      ensures q == Slot(policy, RemoveAt(old(dataSet), i), node) && hint == HintAfter(i, q)
      ensures dataSet == Placed(policy, RemoveAt(old(dataSet), i), node)
    {
      dataSet := RemoveAt(dataSet, i);
      hint := if hint0 > i then hint0 - 1 else hint0;
      if dataSet == [] {
        hint := 0;
      }
      q := Slot(policy, dataSet, node);
      dataSet := Placed(policy, dataSet, node);
      hint := if hint >= q then hint + 1 else hint;
    }

    /** The calls of a move from position i to position q, where `hint` has been kept. */
    method AnnounceMove(node: Entry, i: nat, oldRank: nat, q: nat, hint0: nat)
      requires i < |dataSet| <= maxSize && oldRank == i + 1
      requires node in dataSet && q == PositionOf(dataSet, node)
      requires hint0 == HintAfter(i, q)
      modifies this`calls
      ensures calls == old(calls) + MoveCalls(dataSet, node.key, i, q)
    {
      var hint, oldOrderNum := hint0, oldRank;
      var orderNum := NewRank(node);
      assert orderNum == q + 1;
      if oldOrderNum != orderNum && (oldOrderNum <= maxSize || orderNum <= maxSize) {
        if oldOrderNum > maxSize && orderNum <= maxSize {
          assert false;
        } else if oldOrderNum <= maxSize && orderNum <= maxSize {
          if oldOrderNum < orderNum {
            hint := if hint == |dataSet| then 0 else hint + 1;
            AnnounceShift(node.key, oldOrderNum, orderNum, hint, q, oldOrderNum + 1, oldOrderNum);
          } else {
            hint := hint + 1;
            AnnounceShift(node.key, oldOrderNum, orderNum, q + 1, hint, orderNum, orderNum + 1);
          }
        } else {
          assert false;
        }
      }
    }

    /** As FindRank, stopping past the cap. */
    method NewRank(node: Entry) returns (orderNum: nat)
      requires node in dataSet && |dataSet| <= maxSize
      ensures orderNum == PositionOf(dataSet, node) + 1
    {
      var i := 0;
      orderNum := 1;
      while dataSet[i] != node && orderNum <= maxSize
        invariant i <= PositionOf(dataSet, node) && orderNum == i + 1
        decreases |dataSet| - i
      {
        i, orderNum := i + 1, orderNum + 1;
      }
    }

    method GetOrderNum(key: Key) returns (ok: bool, orderNum: nat)
      requires Valid()
      ensures ok <==> exists e :: e in dataSet && e.key == key
      ensures !ok ==> orderNum == 0
      ensures ok ==> orderNum == 1 + |set x | x in dataSet && policy.Before(x, keyMap[key])|
      ensures ok ==> orderNum <= |dataSet| && dataSet[orderNum - 1].key == key
      ensures orderNum == RankOf(dataSet, key)
    {
      IndexedRank(keyMap, dataSet, key);
      BoardRanks(dataSet, key);
      if key !in keyMap {
        return false, 0;
      }
      var i;
      i, orderNum := FindRank(keyMap[key]);
      PositionIsIndex(dataSet, keyMap[key]);
      RankCountsAhead(policy, dataSet, keyMap[key]);
      ok := true;
    }

    method Clear()
      requires Valid()
      modifies this
      ensures Valid() && dataSet == [] && updated && calls == old(calls)
    {
      keyMap, dataSet, updated := map[], [], true;
    }
  }
}
