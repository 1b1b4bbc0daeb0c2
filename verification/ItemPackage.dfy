/** The inventory object (game/nItemPackage.h).  Items are objects shared by reference, the package maps
positions to them, and sorting and stacking change items in place.  What they do to the counts is
said by the list functions of ItemStacks; each method here is proved to do to the objects what
those functions do to the list of their values. */
module ItemPackages {
  import opened Common
  import opened ItemStacks

  const INVALID_POS: nat := 0xFFFF

  datatype AddResult = Fail | Succ | AllUnioned | PartUnioned | NoChange

  class Item {
    const serialId: nat
    const base: Base
    const bind: bool
    var num: nat
    var pos: nat

    constructor (serialId: nat, base: Base, bind: bool, num: nat)
      ensures View() == Stack(serialId, base, bind, num) && pos == INVALID_POS
    {
      this.serialId, this.base, this.bind, this.num, this.pos := serialId, base, bind, num, INVALID_POS;
    }

    function View(): Stack
      reads this
    {
      Stack(serialId, base, bind, num)
    }

    /** Move exactly k units out of src; is src empty now? */
    method UnionItem(src: Item, k: nat) returns (all: bool)
      requires src != this && k <= src.num
      modifies this`num, src`num
      ensures View() == old(View()).(num := old(num) + k)
      ensures src.View() == old(src.View()).(num := old(src.num) - k)
      ensures all <==> src.num == 0
    {
      num := num + k;
      src.num := src.num - k;
      all := src.num == 0;
    }
  }

  /** A vector of items as values. */
  ghost function Views(vec: seq<Item>): (s: seq<Stack>)
    reads vec
    ensures |s| == |vec|
    ensures forall k {:trigger s[k]} :: 0 <= k < |vec| ==> s[k] == vec[k].View()
  {
    if vec == [] then [] else Views(vec[..|vec| - 1]) + [vec[|vec| - 1].View()]
  }

  ghost predicate Distinct(items: seq<Item>) {
    items != [] ==> items[0] !in items[1..] && Distinct(items[1..])
  }

  lemma {:induction false} DistinctAt(items: seq<Item>, i: nat, j: nat)
    requires Distinct(items) && i < j < |items|
    ensures items[i] != items[j]
  {
    if i > 0 {
      DistinctAt(items[1..], i - 1, j - 1);
    } else {
      assert items[j] == items[1..][j - 1];
    }
  }

  ghost function Objects(items: seq<Item>): set<Item> {
    set x | x in items
  }

  /** The item at i takes what it can from the one at j; all others keep their counts. */
  method TakeFrom(vec: seq<Item>, i: nat, j: nat) returns (all: bool)
    requires i < j < |vec| && Distinct(vec)
    modifies {vec[i], vec[j]}`num
    ensures Views(vec) == Poured(old(Views(vec)), i, j)
    ensures all <==> Views(vec)[j].num == 0
  {
    forall k | 0 <= k < |vec| && k != i && k != j
      ensures vec[k] != vec[i] && vec[k] != vec[j]
    {
      DistinctAt(vec, if k < i then k else i, if k < i then i else k);
      DistinctAt(vec, if k < j then k else j, if k < j then j else k);
    }
    DistinctAt(vec, i, j);
    var space := Space(vec[i].View());
    var k := if space > vec[j].num then vec[j].num else space;
    all := vec[i].UnionItem(vec[j], k);
  }

  /** As much as fits poured from stack j into stack i. */
  function Poured(v: seq<Stack>, i: nat, j: nat): seq<Stack>
    requires i < j < |v|
  {
    var k := Min(Space(v[i]), v[j].num);
    v[i := v[i].(num := v[i].num + k)][j := v[j].(num := v[j].num - k)]
  }

  /** The merge m, of which `done` has been absorbed so far. */
  ghost predicate SameMerge(m: Merged, done: seq<Stack>, t: Stack, s: seq<Stack>) {
    var m1 := Merge(t, s);
    m1.head == m.head && m1.rest == m.rest && done + m1.absorbed == m.absorbed
  }

  /** The merge m of stack i with what follows it, of which i+1..j has been absorbed so far. */
  ghost predicate Merging(m: Merged, v: seq<Stack>, i: nat, j: nat)
    requires i < j <= |v|
  {
    SameMerge(m, v[i + 1..j], v[i], v[j..])
  }

  lemma PourStep(m: Merged, v: seq<Stack>, i: nat, j: nat)
    requires i < j < |v| && CanUnion(v[i], v[j]) && Merging(m, v, i, j)
    ensures var v' := Poured(v, i, j);
            && v'[..i] == v[..i]
            && if v'[j].num == 0 then Merging(m, v', i, j + 1)
               else m == Merged(v'[i], v'[j..], v'[i + 1..j])
  {
    var v' := Poured(v, i, j);
    assert v'[i + 1..j] == v[i + 1..j];
    assert v[j..][1..] == v[j + 1..] == v'[j + 1..];
    assert v'[i + 1..j + 1] == v[i + 1..j] + [v'[j]];
    assert v'[j..] == [v'[j]] + v[j + 1..];
  }

  lemma PouringStarts(v: seq<Stack>, i: nat)
    requires i < |v|
    ensures Merging(Merge(v[i], v[i + 1..]), v, i, i + 1)
  {
    var m := Merge(v[i], v[i + 1..]);
    assert v[i + 1..i + 1] == [];
    assert [] + m.absorbed == m.absorbed;
  }

  lemma PouringStops(m: Merged, v: seq<Stack>, i: nat, j: nat)
    requires i < j <= |v| && (j == |v| || !CanUnion(v[i], v[j])) && Merging(m, v, i, j)
    ensures m == Merged(v[i], v[j..], v[i + 1..j])
  {
    assert v[i + 1..j] + [] == v[i + 1..j];
  }

  /** The inner loop of the sort: the item at i takes in what follows it.  `next` is the item the outer
  loop goes on with. */
  method MergeRun(vec: seq<Item>, i: nat) returns (next: nat)
    requires i < |vec| && Distinct(vec)
    modifies vec`num
    ensures i < next <= |vec|
    ensures var v, v0 := Views(vec), old(Views(vec));
            && Merge(v0[i], v0[i + 1..]) == Merged(v[i], v[next..], v[i + 1..next])
            && v[..i] == v0[..i]
  {
    ghost var v0 := Views(vec);
    ghost var m := Merge(v0[i], v0[i + 1..]);
    PouringStarts(v0, i);
    var j := i + 1;
    while j < |vec| && CanUnion(vec[i].View(), vec[j].View())
      invariant i < j <= |vec|
      invariant Merging(m, Views(vec), i, j)
      invariant Views(vec)[..i] == v0[..i]
    {
      PourStep(m, Views(vec), i, j);
      var all := TakeFrom(vec, i, j);
      if all {
        j := j + 1;
      } else {
        return j;
      }
    }
    PouringStops(m, Views(vec), i, j);
    next := j;
  }

  /** ---- Index bookkeeping of the sort, on values ---- */

  ghost predicate Below(idx: seq<nat>, bound: nat) {
    forall a :: 0 <= a < |idx| ==> idx[a] < bound
  }

  ghost function Pick(v: seq<Stack>, idx: seq<nat>): (r: seq<Stack>)
    requires Below(idx, |v|)
    ensures |r| == |idx|
  {
    if idx == [] then [] else [v[idx[0]]] + Pick(v, idx[1..])
  }

  ghost function Range(lo: nat, hi: nat): (r: seq<nat>)
    requires lo <= hi
    ensures |r| == hi - lo && forall a :: 0 <= a < |r| ==> r[a] == lo + a
    decreases hi - lo
  {
    if lo == hi then [] else [lo] + Range(lo + 1, hi)
  }

  lemma {:induction false} PickAt(v: seq<Stack>, idx: seq<nat>, a: nat)
    requires Below(idx, |v|) && a < |idx|
    ensures Pick(v, idx)[a] == v[idx[a]]
  {
    if a > 0 {
      PickAt(v, idx[1..], a - 1);
    }
  }

  lemma {:induction false} PickSame(v: seq<Stack>, v': seq<Stack>, idx: seq<nat>, i: nat)
    requires i <= |v| && i <= |v'| && v'[..i] == v[..i] && Below(idx, i)
    ensures Pick(v', idx) == Pick(v, idx)
  {
    if idx != [] {
      assert v'[idx[0]] == v'[..i][idx[0]] == v[..i][idx[0]];
      PickSame(v, v', idx[1..], i);
    }
  }

  lemma {:induction false} PickAppend(v: seq<Stack>, a: seq<nat>, b: seq<nat>)
    requires Below(a, |v|) && Below(b, |v|)
    ensures Below(a + b, |v|) && Pick(v, a + b) == Pick(v, a) + Pick(v, b)
  {
    if a == [] {
      assert a + b == b;
    } else {
      var all := a + b;
      assert all[0] == a[0] && all[1..] == a[1..] + b;
      PickAppend(v, a[1..], b);
    }
  }

  lemma {:induction false} PickRange(v: seq<Stack>, lo: nat, hi: nat)
    requires lo <= hi <= |v|
    ensures Pick(v, Range(lo, hi)) == v[lo..hi]
    decreases hi - lo
  {
    if lo < hi {
      assert Range(lo, hi)[1..] == Range(lo + 1, hi);
      PickRange(v, lo + 1, hi);
      var r := v[lo..hi];
      assert r[0] == v[lo] && r[1..] == v[lo + 1..hi];
    }
  }

  ghost predicate Divided(i: nat, kept: seq<nat>, removed: seq<nat>) {
    && Below(kept, i) && Below(removed, i) && |kept| + |removed| == i
    && forall k :: 0 <= k < i ==> k in kept || k in removed
  }

  /** As long as nothing is removed, everything is kept. */
  ghost predicate Gapless(i: nat, kept: seq<nat>, removed: seq<nat>) {
    removed == [] ==> kept == Range(0, i)
  }

  lemma GaplessStep(i: nat, next: nat, kept: seq<nat>, removed: seq<nat>)
    requires i < next && Gapless(i, kept, removed)
    ensures Gapless(next, kept + [i], removed + Range(i + 1, next))
  {
    if removed + Range(i + 1, next) == [] {
      assert |Range(i + 1, next)| == 0;
      assert kept + [i] == Range(0, next);
    }
  }

  /** The items before i are divided into kept and removed ones; with what is still to come they make
  up the result for the whole vector. */
  ghost predicate Sorting(v0: seq<Stack>, v: seq<Stack>, i: nat, kept: seq<nat>, removed: seq<nat>) {
    && |v| == |v0| && i <= |v|
    && Divided(i, kept, removed)
    && Pick(v, kept) + Compact(v[i..]) == Compact(v0)
    && Pick(v, removed) + Absorbed(v[i..]) == Absorbed(v0)
  }

  lemma SortingStarts(v: seq<Stack>)
    ensures Sorting(v, v, 0, [], [])
  {
    assert v[0..] == v;
    assert Pick(v, []) == [];
    assert [] + Compact(v) == Compact(v) && [] + Absorbed(v) == Absorbed(v);
  }

  lemma SortingStep(v0: seq<Stack>, v: seq<Stack>, v': seq<Stack>, i: nat, next: nat, kept: seq<nat>, removed: seq<nat>)
    requires Sorting(v0, v, i, kept, removed) && i < next <= |v| == |v'| && v'[..i] == v[..i]
    requires Merge(v[i], v[i + 1..]) == Merged(v'[i], v'[next..], v'[i + 1..next])
    ensures Sorting(v0, v', next, kept + [i], removed + Range(i + 1, next))
  {
    SortingPicks(v, v', i, next, kept, removed);
    Regroup(Pick(v, kept), [v'[i]], Compact(v'[next..]));
    Regroup(Pick(v, removed), v'[i + 1..next], Absorbed(v'[next..]));
    DividedStep(i, next, kept, removed);
  }

  lemma Regroup(a: seq<Stack>, b: seq<Stack>, c: seq<Stack>)
    ensures a + b + c == a + (b + c)
  {
  }

  lemma SortingPicks(v: seq<Stack>, v': seq<Stack>, i: nat, next: nat, kept: seq<nat>, removed: seq<nat>)
    requires i < next <= |v| == |v'| && v'[..i] == v[..i] && Below(kept, i) && Below(removed, i)
    ensures Below(kept + [i], |v|) && Pick(v', kept + [i]) == Pick(v, kept) + [v'[i]]
    ensures Below(removed + Range(i + 1, next), |v|)
    ensures Pick(v', removed + Range(i + 1, next)) == Pick(v, removed) + v'[i + 1..next]
  {
    PickSame(v, v', kept, i);
    PickSame(v, v', removed, i);
    PickAppend(v', kept, [i]);
    PickAppend(v', removed, Range(i + 1, next));
    PickRange(v', i + 1, next);
    assert Pick(v', [i]) == [v'[i]];
  }

  lemma DividedStep(i: nat, next: nat, kept: seq<nat>, removed: seq<nat>)
    requires i < next && Divided(i, kept, removed)
    ensures Divided(next, kept + [i], removed + Range(i + 1, next))
  {
    var kept', removed' := kept + [i], removed + Range(i + 1, next);
    forall k | 0 <= k < next
      ensures k in kept' || k in removed'
    {
      if k > i {
        assert Range(i + 1, next)[k - i - 1] == k;
      }
    }
  }

  /** ---- Sorting a vector ---- */

  lemma StillNotLess(x: Stack, y: Stack, z: Stack)
    requires Less(x, y) && !Less(z, y)
    ensures !Less(z, x)
  {
  }

  lemma {:induction false} DistinctInsert(s: seq<Item>, j: nat, x: Item)
    requires Distinct(s) && j <= |s| && x !in s
    ensures Distinct(s[..j] + [x] + s[j..])
  {
    var r := s[..j] + [x] + s[j..];
    if j == 0 {
      assert r[1..] == s;
    } else {
      DistinctInsert(s[1..], j - 1, x);
      assert r[1..] == s[1..][..j - 1] + [x] + s[1..][j - 1..];
      assert s == [s[0]] + s[1..];
    }
  }

  lemma InsertedIsOrdered(s: seq<Stack>, j: nat, x: Stack)
    requires Ordered(s) && j <= |s|
    requires forall k :: 0 <= k < j ==> !Less(x, s[k])
    requires j < |s| ==> Less(x, s[j])
    ensures Ordered(s[..j] + [x] + s[j..])
  {
    var r := s[..j] + [x] + s[j..];
    forall a, b | 0 <= a < b < |r|
      ensures !Less(r[b], r[a])
    {
      var a', b' := if a < j then a else a - 1, if b < j then b else b - 1;
      if a == j {
        assert b' > j ==> !Less(s[b'], s[j]);
        StillNotLess(x, s[j], s[b']);
      } else if b != j {
        assert !Less(s[b'], s[a']);
      }
    }
  }

  lemma InsertedViews(r: seq<Item>, s: seq<Item>, j: nat, x: Item)
    requires j <= |s| && r == s[..j] + [x] + s[j..]
    ensures Views(r) == Views(s)[..j] + [x.View()] + Views(s)[j..]
  {
  }

  method InsertSorted(s: seq<Item>, x: Item) returns (r: seq<Item>)
    requires Distinct(s) && x !in s && Ordered(Views(s))
    ensures Distinct(r) && Ordered(Views(r)) && |r| == |s| + 1 && forall y :: y in r <==> y in s || y == x
  {
    var j := 0;
    while j < |s| && !Less(x.View(), s[j].View())
      invariant 0 <= j <= |s| && forall k :: 0 <= k < j ==> !Less(x.View(), Views(s)[k])
    {
      j := j + 1;
    }
    r := s[..j] + [x] + s[j..];
    DistinctInsert(s, j, x);
    InsertedIsOrdered(Views(s), j, x.View());
    InsertedViews(r, s, j, x);
    assert s == s[..j] + s[j..];
  }

  /** std::sort with SortItemCompare: some order in which nothing stands before what is less. */
  method SortVec(items: seq<Item>) returns (sorted: seq<Item>)
    requires Distinct(items)
    ensures Distinct(sorted) && Ordered(Views(sorted))
    ensures |sorted| == |items| && forall x :: x in sorted <==> x in items
  {
    sorted := [];
    var i := 0;
    while i < |items|
      invariant 0 <= i <= |items| == |items|
      invariant Distinct(sorted) && Ordered(Views(sorted))
      invariant |sorted| == i && forall x :: x in sorted <==> x in items[..i]
    {
      assert items[i] !in items[..i] by {
        forall k | 0 <= k < i ensures items[..i][k] != items[i] { DistinctAt(items, k, i); }
      }
      assert items[..i + 1] == items[..i] + [items[i]];
      sorted := InsertSorted(sorted, items[i]);
      i := i + 1;
    }
    assert items[..i] == items;
  }

  /** ---- Positions in ascending order ---- */

  lemma LeastOf(s: set<nat>) returns (k: nat)
    requires s != {}
    ensures k in s && forall x :: x in s ==> k <= x
    decreases |s|
  {
    k :| k in s;
    var rest := s - {k};
    if rest != {} {
      var other := LeastOf(rest);
      assert forall x :: x in s ==> x == k || x in rest;
      k := if other < k then other else k;
    } else {
      assert s == {k};
    }
  }

  lemma LeastExists(s: set<nat>)
    requires s != {}
    ensures exists k :: k in s && forall x :: x in s ==> k <= x
  {
    var k := LeastOf(s);
  }

  function Least(s: set<nat>): (k: nat)
    requires s != {}
    ensures k in s && forall x :: x in s ==> k <= x
  {
    LeastExists(s);
    var k :| k in s && forall x :: x in s ==> k <= x;
    k
  }

  /** The keys of the location map in the order an iterator visits them. */
  function Ascending(s: set<nat>): (r: seq<nat>)
    ensures |r| == |s|
    ensures forall x :: x in r <==> x in s
    decreases |s|
  {
    if s == {} then []
    else
      var k := Least(s);
      [k] + Ascending(s - {k})
  }

  lemma {:induction false} AscendingAt(s: set<nat>, i: nat, j: nat)
    requires i < j < |s|
    ensures Ascending(s)[i] < Ascending(s)[j]
    decreases |s|
  {
    var k := Least(s);
    var rest := Ascending(s - {k});
    assert Ascending(s) == [k] + rest;
    if i == 0 {
      assert rest[j - 1] in s - {k};
    } else {
      AscendingAt(s - {k}, i - 1, j - 1);
    }
  }

  lemma {:induction false} BoundedSize(s: set<nat>, n: nat)
    requires forall x :: x in s ==> x < n
    ensures |s| <= n
  {
    if n > 0 {
      BoundedSize(s - {n - 1}, n - 1);
      if n - 1 in s {
        assert s == (s - {n - 1}) + {n - 1};
      } else {
        assert s == s - {n - 1};
      }
    }
  }

  /** A free position: the one wished for, or with no wish the least, within the capacity. */
  ghost predicate GoodPos(taken: set<nat>, capacity: nat, wish: nat, pos: nat) {
    && pos !in taken
    && (wish != INVALID_POS ==> pos == wish)
    && (wish == INVALID_POS ==> pos < capacity && forall q :: 0 <= q < pos ==> q in taken)
  }

  /** Exactly 0, 1, ..., |s| - 1. */
  ghost predicate Dense(s: set<nat>) {
    forall q :: q in s <==> 0 <= q < |s|
  }

  lemma FirstGap(s: set<nat>, k: nat)
    requires k < |s| && (forall q :: 0 <= q < k ==> Ascending(s)[q] == q) && Ascending(s)[k] != k
    ensures k !in s && !Dense(s) && forall q :: 0 <= q < k ==> q in s
  {
    AscendingSorted(s);
    GapInKeys(s, Ascending(s), k);
  }

  lemma AscendingSorted(s: set<nat>)
    ensures forall i, j :: 0 <= i < j < |s| ==> Ascending(s)[i] < Ascending(s)[j]
  {
    forall i, j | 0 <= i < j < |s|
      ensures Ascending(s)[i] < Ascending(s)[j]
    {
      AscendingAt(s, i, j);
    }
  }

  lemma GapInKeys(s: set<nat>, keys: seq<nat>, k: nat)
    requires |keys| == |s| && (forall x :: x in keys <==> x in s)
    requires forall i, j :: 0 <= i < j < |keys| ==> keys[i] < keys[j]
    requires k < |s| && (forall q :: 0 <= q < k ==> keys[q] == q) && keys[k] != k
    ensures k !in s && !Dense(s) && forall q :: 0 <= q < k ==> q in s
  {
    assert k > 0 ==> keys[k - 1] < keys[k];
    forall i | 0 <= i < |keys|
      ensures keys[i] != k
    {
      assert i > k ==> keys[k] < keys[i];
    }
    forall q | 0 <= q < k
      ensures q in s
    {
      assert keys[q] in keys;
    }
  }

  lemma NoGap(s: set<nat>)
    requires forall q :: 0 <= q < |s| ==> Ascending(s)[q] == q
    ensures Dense(s)
  {
    NoGapInKeys(s, Ascending(s));
  }

  lemma NoGapInKeys(s: set<nat>, keys: seq<nat>)
    requires |keys| == |s| && (forall x :: x in keys <==> x in s) && forall q :: 0 <= q < |s| ==> keys[q] == q
    ensures Dense(s)
  {
    forall q | 0 <= q < |s|
      ensures q in s
    {
      assert keys[q] in keys;
    }
  }

  function ItemsAt(m: map<nat, Item>, order: seq<nat>): (items: seq<Item>)
    requires forall a :: 0 <= a < |order| ==> order[a] in m
    ensures |items| == |order| && forall a :: 0 <= a < |order| ==> items[a] == m[order[a]]
  {
    if order == [] then [] else [m[order[0]]] + ItemsAt(m, order[1..])
  }

  /** The items of a location map as an iterator visits them. */
  function InOrder(m: map<nat, Item>): (items: seq<Item>)
    ensures |items| == |m|
  {
    ItemsAt(m, Ascending(m.Keys))
  }

  lemma InOrderItems(m: map<nat, Item>)
    ensures forall x :: x in InOrder(m) <==> x in m.Values
  {
    var order, items := Ascending(m.Keys), InOrder(m);
    forall x | x in m.Values
      ensures x in items
    {
      var p :| p in m && m[p] == x;
      assert p in order;
      var a :| 0 <= a < |order| && order[a] == p;
      assert items[a] == x;
    }
  }

  lemma {:induction false} DistinctBy(items: seq<Item>)
    requires forall i, j :: 0 <= i < j < |items| ==> items[i] != items[j]
    ensures Distinct(items)
  {
    if items != [] {
      DistinctBy(items[1..]);
    }
  }

  /** ---- Merging an item into stacks that are there: first collected, then poured ---- */

  /** Places of the stacks that can take from x, in order, up to the one that makes room for `need`. */
  function Collected(s: seq<Stack>, x: Stack, need: nat, off: nat): seq<nat> {
    if s == [] then []
    else if !CanUnion(s[0], x) then Collected(s[1..], x, need, off + 1)
    else if Space(s[0]) >= need then [off]
    else [off] + Collected(s[1..], x, need - Space(s[0]), off + 1)
  }

  /** Pour up to n units into the stacks at idx, one after the other; what remains of n comes back. */
  function PourAll(v: seq<Stack>, idx: seq<nat>, n: nat): (seq<Stack>, nat)
    decreases |idx|
  {
    if idx == [] || idx[0] >= |v| then (v, n)
    else
      var d := v[idx[0]];
      var k := Min(Space(d), n);
      var v' := v[idx[0] := d.(num := d.num + k)];
      if n == k then (v', 0) else PourAll(v', idx[1..], n - k)
  }

  /** What the stack takes from n units of x. */
  function Taken(s: Stack, x: Stack, n: nat): nat {
    if CanUnion(s, x) then Min(Space(s), n) else 0
  }

  /** Collecting and pouring is what filling says in one pass. */
  lemma {:induction false} PouringFills(pre: seq<Stack>, s: seq<Stack>, x: Stack, n: nat)
    ensures PourAll(pre + s, Collected(s, x, n, |pre|), n) == (pre + Fill(s, x, n), n - Min(n, Room(s, x)))
    decreases |s|
  {
    if s == [] {
      assert pre + s == pre;
    } else if CanUnion(s[0], x) && Space(s[0]) >= n {
      PouringStep(pre, s, x, n);
    } else {
      var k := Taken(s[0], x, n);
      PouringFills(pre + [s[0].(num := s[0].num + k)], s[1..], x, n - k);
      PouringMore(pre, s, x, n);
    }
  }

  lemma PouringMore(pre: seq<Stack>, s: seq<Stack>, x: Stack, n: nat)
    requires s != [] && (!CanUnion(s[0], x) || Space(s[0]) < n)
    requires var k := Taken(s[0], x, n);
             var pre' := pre + [s[0].(num := s[0].num + k)];
             PourAll(pre' + s[1..], Collected(s[1..], x, n - k, |pre'|), n - k)
             == (pre' + Fill(s[1..], x, n - k), n - k - Min(n - k, Room(s[1..], x)))
    ensures PourAll(pre + s, Collected(s, x, n, |pre|), n) == (pre + Fill(s, x, n), n - Min(n, Room(s, x)))
  {
    PouringStep(pre, s, x, n);
    PouringJoin(pre, s, x, n, PourAll(pre + s, Collected(s, x, n, |pre|), n));
  }

  lemma PouringJoin(pre: seq<Stack>, s: seq<Stack>, x: Stack, n: nat, r: (seq<Stack>, nat))
    requires s != []
    requires var k := Taken(s[0], x, n);
             r == (pre + [s[0].(num := s[0].num + k)] + Fill(s[1..], x, n - k), n - k - Min(n - k, Room(s[1..], x)))
    ensures r == (pre + Fill(s, x, n), n - Min(n, Room(s, x)))
  {
    FillHead(pre, s, x, n);
  }

  lemma FillHead(pre: seq<Stack>, s: seq<Stack>, x: Stack, n: nat)
    requires s != []
    ensures var k := Taken(s[0], x, n);
            pre + Fill(s, x, n) == pre + [s[0].(num := s[0].num + k)] + Fill(s[1..], x, n - k)
  {
  }

  lemma PouringStep(pre: seq<Stack>, s: seq<Stack>, x: Stack, n: nat)
    requires s != []
    ensures var k := Taken(s[0], x, n);
            var pre' := pre + [s[0].(num := s[0].num + k)];
            PourAll(pre + s, Collected(s, x, n, |pre|), n) ==
              if CanUnion(s[0], x) && Space(s[0]) >= n then (pre + Fill(s, x, n), 0)
              else PourAll(pre' + s[1..], Collected(s[1..], x, n - k, |pre'|), n - k)
  {
    var k := Taken(s[0], x, n);
    var d := s[0].(num := s[0].num + k);
    var idx := Collected(s, x, n, |pre|);
    assert (pre + s)[|pre|] == s[0];
    assert (pre + s)[|pre| := d] == pre + [d] + s[1..];
    if !CanUnion(s[0], x) {
      assert pre + s == pre + [d] + s[1..];
    } else if Space(s[0]) >= n {
      assert Fill(s[1..], x, 0) == s[1..];
      FillHead(pre, s, x, n);
    } else {
      assert idx[1..] == Collected(s[1..], x, n - k, |pre| + 1);
    }
  }

  /** One stack of a pour. */
  lemma PourNext(v: seq<Stack>, idx: seq<nat>, c: nat, n: nat)
    requires Below(idx, |v|) && c < |idx|
    ensures var d := v[idx[c]];
            var k := Min(Space(d), n);
            var v' := v[idx[c] := d.(num := d.num + k)];
            PourAll(v, idx[c..], n) == if n == k then (v', 0) else PourAll(v', idx[c + 1..], n - k)
  {
    assert idx[c..][0] == idx[c] && idx[c..][1..] == idx[c + 1..];
  }

  /** `idx` has been collected before i, with room for `got` units. */
  ghost predicate Collecting(v: seq<Stack>, x: Stack, need: nat, idx: seq<nat>, i: nat, got: nat) {
    && i <= |v| && got <= need && Below(idx, |v|)
    && Collected(v, x, need, 0) == idx + Collected(v[i..], x, need - got, i)
  }

  lemma CollectingStarts(v: seq<Stack>, x: Stack, need: nat)
    ensures Collecting(v, x, need, [], 0, 0)
  {
    assert v[0..] == v;
    assert [] + Collected(v, x, need, 0) == Collected(v, x, need, 0);
  }

  lemma CollectedNext(v: seq<Stack>, x: Stack, need: nat, idx: seq<nat>, i: nat, got: nat)
    requires Collecting(v, x, need, idx, i, got) && i < |v|
    ensures if !CanUnion(v[i], x) then Collecting(v, x, need, idx, i + 1, got)
            else if got + Space(v[i]) >= need then Collected(v, x, need, 0) == idx + [i]
            else Collecting(v, x, need, idx + [i], i + 1, got + Space(v[i]))
  {
    assert v[i..][0] == v[i] && v[i..][1..] == v[i + 1..];
    if CanUnion(v[i], x) && got + Space(v[i]) < need {
      var rest := Collected(v[i + 1..], x, need - got - Space(v[i]), i + 1);
      assert idx + ([i] + rest) == idx + [i] + rest;
    }
  }

  ghost predicate SomeTakes(s: seq<Stack>, x: Stack) {
    exists i :: 0 <= i < |s| && CanUnion(s[i], x)
  }

  /** Nothing is collected exactly when no stack can take from x. */
  lemma {:induction false} NoneCollected(s: seq<Stack>, x: Stack, need: nat, off: nat)
    ensures Collected(s, x, need, off) == [] <==> !SomeTakes(s, x)
    decreases |s|
  {
    if s != [] && !CanUnion(s[0], x) {
      NoneCollected(s[1..], x, need, off + 1);
      assert s == [s[0]] + s[1..];
    }
  }

  /** Some stack took from the item; all of it; and was there a place for it? */
  function AddOutcome(merged: bool, all: bool, added: bool): AddResult {
    if merged && all then AllUnioned
    else if added then Succ
    else if merged then PartUnioned
    else Fail
  }

  /** The answer to an addition: did some stack take from the item, is there room for all of it in the stacks, and
  is there a free position? */
  predicate Answers(r: AddResult, merged: bool, whole: bool, free: bool) {
    && (r == AllUnioned <==> merged && whole)
    && (r == Succ <==> free && !(merged && whole))
    && (r == PartUnioned <==> !free && merged && !whole)
    && (r == Fail <==> !free && !merged)
  }

  lemma NoneTakes(s: seq<Stack>, x: Stack)
    ensures !SomeTakes(s, x) ==> Fill(s, x, x.num) == s && Room(s, x) == 0
  {
    if !SomeTakes(s, x) {
      FillSkips(s, [], x, x.num);
      assert s + [] == s;
    }
  }

  /** Units of every group, in the package and in the item at hand, before and after; when the item is
  `inside` it counts among those of the package. */
  ghost predicate Conserved(v: seq<Stack>, x: Stack, v': seq<Stack>, inside: bool, x': Stack) {
    forall g :: Total(v', g) + (if inside then 0 else Units(x', g)) == Total(v, g) + Units(x, g)
  }

  lemma NothingMoved(v: seq<Stack>, x: Stack)
    ensures Conserved(v, x, v, false, x)
  {
  }

  /** A merge of the item x into the stacks v0, if there is one at all. */
  ghost predicate MergedAs(v0: seq<Stack>, x: Stack, merging: bool, r: AddResult, v1: seq<Stack>, x1: Stack) {
    && v1 == (if merging then Fill(v0, x, x.num) else v0)
    && x1 == (if merging then x.(num := x.num - Min(x.num, Room(v0, x))) else x)
    && r == (if !merging || !SomeTakes(v0, x) then NoChange
             else if x.num <= Room(v0, x) then AllUnioned else PartUnioned)
    && (r == NoChange ==> v1 == v0 && x1 == x)
    && Conserved(v0, x, v1, false, x1)
  }

  /** An addition with its merge: v1 are the stacks that were there, v2 all that are there now. */
  ghost predicate AddedAs(v0: seq<Stack>, x: Stack, merging: bool, canAdd: bool, r: AddResult,
      v1: seq<Stack>, v2: seq<Stack>, x1: Stack)
  {
    && r == AddOutcome(merging && SomeTakes(v0, x), x.num <= Room(v0, x), canAdd)
    && v1 == (if merging then Fill(v0, x, x.num) else v0)
    && x1 == (if merging then x.(num := x.num - Min(x.num, Room(v0, x))) else x)
    && (r == Fail ==> v2 == v0 && x1 == x)
    && Conserved(v0, x, v2, r == Succ, x1)
  }

  lemma AddedWhole(v0: seq<Stack>, x: Stack, merging: bool, canAdd: bool, v1: seq<Stack>, x1: Stack)
    requires MergedAs(v0, x, merging, AllUnioned, v1, x1)
    ensures AddedAs(v0, x, merging, canAdd, AllUnioned, v1, v1, x1)
  {
  }

  lemma AddedLater(v0: seq<Stack>, x: Stack, merging: bool, canAdd: bool, unionResult: AddResult, r: AddResult,
      v1: seq<Stack>, v2: seq<Stack>, x1: Stack)
    requires MergedAs(v0, x, merging, unionResult, v1, x1) && unionResult != AllUnioned
    requires r == if canAdd then Succ else if unionResult == NoChange then Fail else PartUnioned
    requires Conserved(v1, x1, v2, r == Succ, x1) && (r != Succ ==> v2 == v1)
    ensures AddedAs(v0, x, merging, canAdd, r, v1, v2, x1)
  {
    ConservedTwice(v0, x, v1, x1, v2, r == Succ);
  }

  lemma ConservedTwice(v: seq<Stack>, x: Stack, v1: seq<Stack>, x1: Stack, v2: seq<Stack>, inside: bool)
    requires Conserved(v, x, v1, false, x1) && Conserved(v1, x1, v2, inside, x1)
    ensures Conserved(v, x, v2, inside, x1)
  {
  }

  lemma FillConservesAll(s: seq<Stack>, x: Stack)
    ensures Conserved(s, x, Fill(s, x, x.num), false, x.(num := x.num - Min(x.num, Room(s, x))))
  {
    var left := x.(num := x.num - Min(x.num, Room(s, x)));
    forall g
      ensures Total(Fill(s, x, x.num), g) + Units(left, g) == Total(s, g) + Units(x, g)
    {
      FillConserves(s, x, x.num, g);
    }
  }

  /** ---- The package ---- */

  /** Every item knows the position it is filed under. */
  ghost predicate Filed(m: map<nat, Item>)
    reads m.Values
  {
    forall p :: p in m ==> p < INVALID_POS && m[p].pos == p
  }

  lemma FiledIsDistinct(m: map<nat, Item>)
    requires Filed(m)
    ensures Distinct(InOrder(m))
  {
    var order, items := Ascending(m.Keys), InOrder(m);
    forall i, j | 0 <= i < j < |items|
      ensures items[i] != items[j]
    {
      assert items[i] == m[order[i]] && items[j] == m[order[j]];
      assert items[i].pos == order[i] && items[j].pos == order[j];
      AscendingAt(m.Keys, i, j);
    }
    DistinctBy(items);
  }

  lemma FitsSubset(a: seq<Item>, b: seq<Item>)
    requires Fits(Views(a)) && forall x :: x in b ==> x in a
    ensures Fits(Views(b))
  {
    var va, vb := Views(a), Views(b);
    forall i | 0 <= i < |b|
      ensures exists k :: 0 <= k < |a| && va[k] == vb[i]
    {
      assert b[i] in a;
      var k :| 0 <= k < |a| && a[k] == b[i];
      assert va[k] == vb[i];
    }
    forall i, j | 0 <= i < |vb| && 0 <= j < |vb| && vb[i].base.id == vb[j].base.id
      ensures vb[i].base == vb[j].base
    {
      var k :| 0 <= k < |a| && va[k] == vb[i];
      var l :| 0 <= l < |a| && va[l] == vb[j];
    }
  }

  /** ---- Where the sorted items end up, on values ---- */

  /** Positions of a vector of items. */
  ghost function Positions(vec: seq<Item>): (s: seq<nat>)
    reads vec
    ensures |s| == |vec|
    ensures forall k {:trigger s[k]} :: 0 <= k < |vec| ==> s[k] == vec[k].pos
  {
    if vec == [] then [] else Positions(vec[..|vec| - 1]) + [vec[|vec| - 1].pos]
  }

  /** The items picked stand at 0, 1, 2, ... and nothing else is filed. */
  ghost predicate FiledAs(m: map<nat, Item>, vec: seq<Item>, pos: seq<nat>, at: seq<nat>) {
    && Below(at, |vec|) && |pos| == |vec|
    && (forall p :: p in m <==> 0 <= p < |at|)
    && (forall a :: 0 <= a < |at| ==> m[a] == vec[at[a]] && pos[at[a]] == a)
  }

  ghost function Gather(vec: seq<Item>, at: seq<nat>): (r: seq<Item>)
    requires Below(at, |vec|)
    ensures |r| == |at| && forall a :: 0 <= a < |at| ==> r[a] == vec[at[a]]
  {
    if at == [] then [] else [vec[at[0]]] + Gather(vec, at[1..])
  }

  lemma GatherViews(vec: seq<Item>, at: seq<nat>)
    requires Below(at, |vec|)
    ensures Views(Gather(vec, at)) == Pick(Views(vec), at)
  {
    forall a | 0 <= a < |at|
      ensures Views(Gather(vec, at))[a] == Pick(Views(vec), at)[a]
    {
      PickAt(Views(vec), at, a);
    }
  }

  lemma {:induction false} DistinctSize(items: seq<Item>)
    ensures |Objects(items)| <= |items|
    ensures |Objects(items)| == |items| <==> Distinct(items)
  {
    if items != [] {
      DistinctSize(items[1..]);
      assert items == [items[0]] + items[1..];
      assert Objects(items) == {items[0]} + Objects(items[1..]);
      if items[0] in items[1..] {
        assert Objects(items) == Objects(items[1..]);
      }
    }
  }

  lemma DividedGather(vec: seq<Item>, kept: seq<nat>, removed: seq<nat>)
    requires Divided(|vec|, kept, removed)
    ensures Below(kept + removed, |vec|)
    ensures forall x :: x in Gather(vec, kept + removed) <==> x in vec
  {
    var at := kept + removed;
    forall x | x in vec
      ensures x in Gather(vec, at)
    {
      var k :| 0 <= k < |vec| && vec[k] == x;
      assert k in at;
      var a :| 0 <= a < |at| && at[a] == k;
      assert Gather(vec, at)[a] == x;
    }
  }

  /** The items of vec in another order. */
  ghost predicate SameItems(order: seq<Item>, vec: seq<Item>) {
    Distinct(order) && (forall x :: x in order ==> x in vec) && forall x :: x in vec ==> x in order
  }

  lemma BehindIsSame(front: seq<Item>, list: seq<Item>, vec: seq<Item>)
    requires SameItems(front + list, vec)
    ensures Distinct(front + list) && forall k :: 0 <= k < |list| ==> list[k] in vec
  {
    forall k | 0 <= k < |list|
      ensures list[k] in vec
    {
      assert list[k] in front + list;
    }
  }

  /** The items have the positions 0, 1, 2, ... and nothing else is filed. */
  ghost predicate InSlots(m: map<nat, Item>, items: seq<Item>)
    reads items
  {
    InSlotsTo(m, items, |items|)
  }

  ghost predicate InSlotsTo(m: map<nat, Item>, items: seq<Item>, n: nat)
    requires n <= |items|
    reads items
  {
    && (forall p :: p in m <==> 0 <= p < n)
    && (forall a :: 0 <= a < n ==> m[a] == items[a] && items[a].pos == a)
  }

  ghost predicate Listed(list: seq<Item>, vec: seq<Item>, at: seq<nat>) {
    Below(at, |vec|) && |list| == |at| && forall a :: 0 <= a < |at| ==> list[a] == vec[at[a]]
  }

  /** Some item picked stood somewhere else before. */
  ghost predicate SomeMoved(pos0: seq<nat>, at: seq<nat>)
    requires Below(at, |pos0|)
  {
    exists a :: 0 <= a < |at| && pos0[at[a]] != a
  }

  lemma FiledStep(m: map<nat, Item>, vec: seq<Item>, pos: seq<nat>, at: seq<nat>, i: nat)
    requires FiledAs(m, vec, pos, at) && Below(at, i) && i < |vec|
    ensures FiledAs(m[|at| := vec[i]], vec, pos[i := |at|], at + [i])
  {
  }

  lemma ListedStep(list: seq<Item>, vec: seq<Item>, at: seq<nat>, lo: nat, hi: nat)
    requires Listed(list, vec, at) && lo <= hi <= |vec|
    ensures Listed(list + vec[lo..hi], vec, at + Range(lo, hi))
  {
  }

  lemma MovedStep(pos0: seq<nat>, at: seq<nat>, i: nat)
    requires Below(at, |pos0|) && i < |pos0|
    ensures Below(at + [i], |pos0|)
    ensures SomeMoved(pos0, at + [i]) <==> SomeMoved(pos0, at) || pos0[i] != |at|
  {
    var at' := at + [i];
    if SomeMoved(pos0, at) {
      var a :| 0 <= a < |at| && pos0[at[a]] != a;
      assert pos0[at'[a]] != a;
    }
    if pos0[i] != |at| {
      assert pos0[at'[|at|]] != |at|;
    }
  }

  class ItemPackage {
    var locationMap: map<nat, Item>
    const capacity: nat

    ghost predicate Valid()
      reads this, locationMap.Values
    {
      && capacity <= INVALID_POS
      && Filed(locationMap)
      && Fits(Views(InOrder(locationMap)))
    }

    constructor (capacity: nat)
      requires capacity <= INVALID_POS
      ensures Valid() && locationMap == map[] && this.capacity == capacity
    {
      this.capacity := capacity;
      locationMap := map[];
    }

    /** File an item at a position. */
    method Place(item: Item, loc: nat) returns (moved: bool)
      modifies this`locationMap, item`pos
      ensures item.pos == loc && locationMap == old(locationMap)[loc := item] && moved == (old(item.pos) != loc)
    {
      moved := item.pos != loc;
      item.pos := loc;
      locationMap := locationMap[loc := item];
    }

    /** One round of the sort: the item at i is filed at loc and takes in what follows it. */
    method KeepNext(vec: seq<Item>, i: nat, loc: nat) returns (moved: bool, next: nat)
      requires Distinct(vec) && i < |vec|
      modifies this`locationMap, vec`num, vec`pos
      ensures i < next <= |vec|
      ensures locationMap == old(locationMap)[loc := vec[i]]
      ensures Positions(vec) == old(Positions(vec))[i := loc] && moved == (old(vec[i].pos) != loc)
      ensures var v, v0 := Views(vec), old(Views(vec));
              && Merge(v0[i], v0[i + 1..]) == Merged(v[i], v[next..], v[i + 1..next])
              && v[..i] == v0[..i]
    {
      ghost var v, p := Views(vec), Positions(vec);
      DistinctFrom(vec, i);
      moved := Place(vec[i], loc);
      assert Views(vec) == v;
      assert Positions(vec) == p[i := loc];
      next := MergeRun(vec, i);
      assert Positions(vec) == p[i := loc];
    }

    /** One round with its book-keeping. */
    method SortRound(vec: seq<Item>, i: nat, loc: nat, list: seq<Item>, changed: bool,
        ghost v0: seq<Stack>, ghost pos0: seq<nat>, ghost kept: seq<nat>, ghost removed: seq<nat>)
      returns (next: nat, list': seq<Item>, changed': bool, ghost kept': seq<nat>, ghost removed': seq<nat>)
      requires Distinct(vec) && i < |vec| && loc == |kept|
      requires Rounds(v0, pos0, vec, Views(vec), Positions(vec), locationMap, i, kept, removed, list, changed)
      modifies this`locationMap, vec`num, vec`pos
      ensures i < next <= |vec| && |kept'| == |kept| + 1
      ensures Rounds(v0, pos0, vec, Views(vec), Positions(vec), locationMap, next, kept', removed', list', changed')
    {
      ghost var v, p, m := Views(vec), Positions(vec), locationMap;
      var moved;
      moved, next := KeepNext(vec, i, loc);
      RoundStep(v0, pos0, vec, v, p, m, i, kept, removed, list, changed, Views(vec), next);
      kept', removed' := kept + [i], removed + Range(i + 1, next);
      changed' := changed || moved;
      list' := list + vec[i + 1..next];
    }

    /** The loop of the sort over the ordered vector. */
    method SortPass(vec: seq<Item>)
      returns (isChanged: bool, removeList: seq<Item>, loc: nat, ghost kept: seq<nat>, ghost removed: seq<nat>)
      requires Distinct(vec) && locationMap == map[]
      modifies this`locationMap, vec`num, vec`pos
      ensures loc == |kept|
      ensures Rounds(old(Views(vec)), old(Positions(vec)), vec, Views(vec), Positions(vec), locationMap, |vec|,
                kept, removed, removeList, isChanged)
    {
      ghost var v0, pos0 := Views(vec), Positions(vec);
      isChanged, removeList, kept, removed := false, [], [], [];
      loc := 0;
      var i := 0;
      RoundsStart(v0, pos0, vec);
      while i < |vec|
        invariant i <= |vec| && loc == |kept|
        invariant Rounds(v0, pos0, vec, Views(vec), Positions(vec), locationMap, i,
                    kept, removed, removeList, isChanged)
        decreases |vec| - i
      {
        i, removeList, isChanged, kept, removed :=
          SortRound(vec, i, loc, removeList, isChanged, v0, pos0, kept, removed);
        loc := loc + 1;
      }
    }

    /** The first loop of the sort: those that stay are filed, those that were emptied are listed. */
    method Survivors(vec: seq<Item>)
      returns (isChanged: bool, removeList: seq<Item>, loc: nat, ghost kept: seq<nat>, ghost front: seq<Item>)
      requires Distinct(vec)
      modifies this`locationMap, vec`num, vec`pos
      ensures Below(kept, |vec|) && loc == |kept| == |Compact(old(Views(vec)))|
      ensures front == Gather(vec, kept) && InSlots(locationMap, front)
      ensures var order := front + removeList;
              Views(order) == Arranged(old(Views(vec))) && SameItems(order, vec)
      ensures removeList == [] ==> kept == Range(0, |vec|)
      ensures isChanged <==> SomeMoved(old(Positions(vec)), kept)
    {
      ghost var v0, pos0, removed := Views(vec), Positions(vec), [];
      locationMap := map[];
      assert Views(vec) == v0 && Positions(vec) == pos0;
      isChanged, removeList, loc, kept, removed := SortPass(vec);
      PassResult(v0, pos0, vec, locationMap, kept, removed, removeList, isChanged);
      front := Gather(vec, kept);
    }

    /** The absorbed items go behind the others. */
    method PlaceRest(list: seq<Item>, loc: nat, ghost front: seq<Item>)
      requires |front| == loc && Distinct(front + list) && InSlots(locationMap, front)
      modifies this`locationMap, list`pos
      ensures InSlots(locationMap, front + list)
      ensures Views(front + list) == old(Views(front + list))
    {
      ghost var all := front + list;
      var i := 0;
      while i < |list|
        invariant 0 <= i <= |list|
        invariant InSlotsTo(locationMap, all, loc + i) && Views(all) == old(Views(all))
      {
        assert all[loc + i] == list[i];
        PlaceNext(list[i], loc + i, all);
        i := i + 1;
      }
    }

    method PlaceNext(item: Item, loc: nat, ghost all: seq<Item>)
      requires Distinct(all) && loc < |all| && item == all[loc] && InSlotsTo(locationMap, all, loc)
      modifies this`locationMap, item`pos
      ensures InSlotsTo(locationMap, all, loc + 1) && Views(all) == old(Views(all))
    {
      ghost var v := Views(all);
      DistinctFrom(all, loc);
      var _ := Place(item, loc);
      assert Views(all) == v;
    }

    /** The package laid out anew, given its items in comparator order: first those that stay, then the
    emptied ones. */
    method Arrange(vec: seq<Item>) returns (notify: Option<seq<Item>>, ghost kept: seq<nat>, ghost removed: seq<Item>)
      requires Distinct(vec)
      modifies this`locationMap, vec`num, vec`pos
      ensures Below(kept, |vec|) && |kept| == |Compact(old(Views(vec)))|
      ensures var order := Gather(vec, kept) + removed;
              SameItems(order, vec) && Views(order) == Arranged(old(Views(vec))) && InSlots(locationMap, order)
      ensures removed == [] ==> kept == Range(0, |vec|)
      ensures notify == if removed != [] || SomeMoved(old(Positions(vec)), kept) then Some(removed) else None
    {
      var isChanged, removeList, loc;
      ghost var front;
      isChanged, removeList, loc, kept, front := Survivors(vec);
      isChanged := isChanged || removeList != [];
      BehindIsSame(front, removeList, vec);
      PlaceRest(removeList, loc, front);
      removed := removeList;
      notify := if isChanged then Some(removeList) else None;
    }

    /** The items of the package in comparator order; when no two compare equal and they stand in that order
    already, the sort cannot but leave them so. */
    method InComparatorOrder() returns (vec: seq<Item>)
      requires Valid()
      ensures Strict(Views(InOrder(locationMap))) ==> vec == InOrder(locationMap)
      ensures Distinct(vec) && (forall x :: x in vec <==> x in locationMap.Values)
      ensures Ordered(Views(vec)) && Fits(Views(vec)) && |vec| <= INVALID_POS
      ensures WasFiled(locationMap, vec, Positions(vec))
      ensures SameTotals(Views(vec), Views(InOrder(locationMap)))
    {
      FiledIsDistinct(locationMap);
      InOrderItems(locationMap);
      var items := InOrder(locationMap);
      ghost var before := Views(items);
      vec := SortVec(items);
      assert Views(items) == before;
      FitsSubset(items, vec);
      BoundedSize(locationMap.Keys, INVALID_POS);
      FiledWas(locationMap, vec);
      SameTotalsOf(vec, items);
      if Strict(Views(items)) {
        StrictIsKept(items, vec);
      }
    }

    /** The sort of a vector of all items that is already in comparator order. */
    method ArrangeFiled(vec: seq<Item>) returns (notify: Option<seq<Item>>, ghost order: seq<Item>, ghost n: nat)
      requires Distinct(vec) && (forall x :: x in vec <==> x in locationMap.Values)
      requires Ordered(Views(vec)) && Fits(Views(vec)) && |vec| <= INVALID_POS
      requires WasFiled(locationMap, vec, Positions(vec))
      modifies this`locationMap, vec`num, vec`pos
      ensures Views(order) == Arranged(old(Views(vec))) && n == |Compact(old(Views(vec)))| <= |order|
      ensures InSlots(locationMap, order) && Distinct(order) && locationMap.Values == old(locationMap.Values)
      ensures notify == if locationMap == old(locationMap) && n == |order| then None else Some(order[n..])
      ensures notify == None <==> n == |order| && Stood(old(locationMap), vec)
    {
      ghost var m0, v0, pos0 := locationMap, Views(vec), Positions(vec);
      ghost var kept, removed;
      notify, kept, removed := Arrange(vec);
      order, n := Gather(vec, kept) + removed, |kept|;
      SlotsValues(locationMap, order, m0.Values);
      assert order[n..] == removed;
      WhenPut(m0, locationMap, vec, pos0, kept, removed, order);
    }

    /** Sort the package.  Afterwards the items stand at 0, 1, 2, ..., the first n in comparator order and
    the others empty; every group has the units it had, in as few stacks as they allow.  The sort is
    announced, with the emptied items, unless the location map is what it was and no item was emptied.
    So it is silent exactly when std::sort left the items as they stood (`same`), they stood at 0, 1,
    2, ..., and every group was tight; and silent with counts changed exactly when moreover some group
    was not packed. */
    method SortItem() returns (notify: Option<seq<Item>>, ghost order: seq<Item>, ghost n: nat, ghost same: bool)
      requires Valid()
      modifies this`locationMap, locationMap.Values`num, locationMap.Values`pos
      ensures Valid() && InSlots(locationMap, order) && Distinct(order)
      ensures locationMap.Values == old(locationMap.Values)
      ensures n <= |order| && Ordered(Views(order)[..n]) && AllEmpty(Views(order)[n..])
      ensures PackedTo(old(Views(InOrder(locationMap))), Views(order))
      ensures notify == if locationMap == old(locationMap) && n == |order| then None else Some(order[n..])
      ensures var v0 := old(Views(InOrder(locationMap)));
              Silence(v0, Views(InOrder(locationMap)), notify == None, same, Dense(old(locationMap.Keys)))
    {
      ghost var m0, before := locationMap, Views(InOrder(locationMap));
      var vec := InComparatorOrder();
      assert Views(InOrder(locationMap)) == before;
      ghost var v := Views(vec);
      same := vec == InOrder(m0);
      ArrangedParts(before, v);
      notify, order, n := ArrangeFiled(vec);
      SortResult(m0, before, vec, v, locationMap, order, notify == None);
    }

    /** First half of a union: the items that can take from `item`, in order, until they have room enough. */
    method CollectUnion(items: seq<Item>, item: Item) returns (cand: seq<Item>, ghost idx: seq<nat>)
      ensures idx == Collected(Views(items), item.View(), item.num, 0) && Listed(cand, items, idx)
    {
      ghost var v, x := Views(items), item.View();
      cand, idx := [], [];
      var unionNum: nat, i: nat := 0, 0;
      CollectingStarts(v, x, item.num);
      while i < |items|
        invariant Collecting(v, x, item.num, idx, i, unionNum) && Listed(cand, items, idx)
        decreases |items| - i
      {
        CollectedNext(v, x, item.num, idx, i, unionNum);
        if CanUnion(items[i].View(), item.View()) {
          cand, idx := cand + [items[i]], idx + [i];
          unionNum := unionNum + Space(items[i].View());
          if unionNum >= item.num {
            return;
          }
        }
        i := i + 1;
      }
    }

    method PourOne(dest: Item, item: Item, ghost items: seq<Item>, ghost at: nat) returns (all: bool)
      requires Distinct(items) && item !in items && at < |items| && dest == items[at]
      modifies dest`num, item`num
      ensures var v, n := old(Views(items)), old(item.num);
              var k := Min(Space(v[at]), n);
              Views(items) == v[at := v[at].(num := v[at].num + k)] && item.num == n - k && all == (n == k)
    {
      ghost var v := Views(items);
      DistinctFrom(items, at);
      var space := Space(dest.View());
      var k := if space > item.num then item.num else space;
      all := dest.UnionItem(item, k);
      assert Views(items) == v[at := v[at].(num := v[at].num + k)];
    }

    /** Second half: pour into them until nothing is left. */
    method PourInto(items: seq<Item>, cand: seq<Item>, item: Item, ghost idx: seq<nat>) returns (all: bool)
      requires Distinct(items) && item !in items && Listed(cand, items, idx)
      modifies items`num, item`num
      ensures (Views(items), item.num) == PourAll(old(Views(items)), idx, old(item.num))
      ensures all <==> idx != [] && item.num == 0
    {
      ghost var v0, n0 := Views(items), item.num;
      var c := 0;
      assert idx[0..] == idx;
      while c < |cand|
        invariant c <= |cand| && (c > 0 ==> item.num > 0)
        invariant PourAll(v0, idx, n0) == PourAll(Views(items), idx[c..], item.num)
      {
        PourNext(Views(items), idx, c, item.num);
        all := PourOne(cand[c], item, items, idx[c]);
        if all {
          return;
        }
        c := c + 1;
      }
      all := false;
    }

    /** The items take from `item` what one pass over them, each filled as far as it goes, would take. */
    method UnionOver(items: seq<Item>, item: Item) returns (r: AddResult)
      requires Distinct(items) && item !in items
      modifies items`num, item`num
      ensures var v0, x, n := old(Views(items)), old(item.View()), old(item.num);
              && Views(items) == Fill(v0, x, n) && item.num == n - Min(n, Room(v0, x))
              && r == if !SomeTakes(v0, x) then NoChange else if n <= Room(v0, x) then AllUnioned else PartUnioned
    {
      var cand;
      ghost var idx;
      cand, idx := CollectUnion(items, item);
      UnionOnValues(Views(items), item.View(), item.num, idx);
      if cand == [] {
        r := NoChange;
      } else {
        var all := PourInto(items, cand, item, idx);
        r := if all then AllUnioned else PartUnioned;
      }
    }

    /** All stacks stay within their limits. */
    method UnionWithin(items: seq<Item>, item: Item) returns (r: AddResult)
      requires Distinct(items) && item !in items && Fits(Views(items) + [item.View()])
      modifies items`num, item`num
      ensures Fits(Views(items)) && Fits(Views(items) + [item.View()])
      ensures var v0, x, n := old(Views(items)), old(item.View()), old(item.num);
              && Views(items) == Fill(v0, x, n) && item.num == n - Min(n, Room(v0, x))
              && r == if !SomeTakes(v0, x) then NoChange else if n <= Room(v0, x) then AllUnioned else PartUnioned
    {
      UnionFits(Views(items), item.View(), item.num);
      r := UnionOver(items, item);
    }

    /** Merge an item into the stacks of the package. */
    method UnionItem(item: Item) returns (r: AddResult)
      requires Valid() && item !in locationMap.Values && Fits(Views(InOrder(locationMap)) + [item.View()])
      modifies locationMap.Values`num, item`num
      ensures Valid() && Fits(Views(InOrder(locationMap)) + [item.View()])
      ensures var v0, x, n := old(Views(InOrder(locationMap))), old(item.View()), old(item.num);
              && Views(InOrder(locationMap)) == Fill(v0, x, n) && item.num == n - Min(n, Room(v0, x))
              && r == if !SomeTakes(v0, x) then NoChange else if n <= Room(v0, x) then AllUnioned else PartUnioned
    {
      FiledIsDistinct(locationMap);
      InOrderItems(locationMap);
      r := UnionWithin(InOrder(locationMap), item);
    }

    /** May the item be filed at a position its caller has chosen?  mayAdd is the answer of dealCheckAdd. */
    predicate CanAdd(pos: nat, mayAdd: bool)
      reads this
    {
      if pos == INVALID_POS then |locationMap| < capacity else pos !in locationMap && mayAdd
    }

    /** The position an item will get, if any. */
    method ChoosePos(packagePos: nat, mayAdd: bool) returns (pos: nat)
      requires Filed(locationMap) && capacity <= INVALID_POS && packagePos <= INVALID_POS
      ensures pos != INVALID_POS <==> CanAdd(packagePos, mayAdd)
      ensures pos != INVALID_POS ==> pos < INVALID_POS && GoodPos(locationMap.Keys, capacity, packagePos, pos)
    {
      pos := packagePos;
      if pos == INVALID_POS {
        if |locationMap| < capacity {
          pos := GetEmptyPos();
        }
      } else if pos in locationMap || !mayAdd {
        pos := INVALID_POS;
      }
    }

    /** File an item at a free position; it makes no difference to the counts of any items. */
    method FilePlain(item: Item, pos: nat, ghost before: seq<Item>, ghost after: seq<Item>)
      requires Filed(locationMap) && item !in locationMap.Values && pos !in locationMap && pos < INVALID_POS
      modifies this`locationMap, item`pos
      ensures Filed(locationMap) && item.pos == pos && locationMap == old(locationMap)[pos := item]
      ensures Filed(old(locationMap)) && Views(before) == old(Views(before)) && Views(after) == old(Views(after))
    {
      ghost var m, v, w := locationMap, Views(before), Views(after);
      item.pos := pos;
      assert Views(before) == v && Views(after) == w;
      FiledPlus(m, item, pos);
      locationMap := locationMap[pos := item];
    }

    method FileAt(item: Item, pos: nat)
      requires Valid() && item !in locationMap.Values && Fits(Views(InOrder(locationMap)) + [item.View()])
      requires pos !in locationMap && pos < INVALID_POS
      modifies this`locationMap, item`pos
      ensures Valid() && item.pos == pos && locationMap == old(locationMap)[pos := item]
      ensures Views(old(InOrder(locationMap))) == old(Views(InOrder(locationMap)))
      ensures Conserved(old(Views(InOrder(locationMap))), item.View(), Views(InOrder(locationMap)), true, item.View())
    {
      ghost var m := locationMap;
      AddedIsValid(m, item, pos);
      FilePlain(item, pos, InOrder(m), InOrder(m[pos := item]));
      AddedTotals(m, item, pos);
    }

    /** File an item at the position it carries, or at the least free one.  `accepts` is the answer of the
    user's item manager. */
    method AddItem(item: Item, packagePos: nat, mayAdd: bool, accepts: bool) returns (r: AddResult, ghost at: nat)
      requires Valid() && item !in locationMap.Values && Fits(Views(InOrder(locationMap)) + [item.View()])
      requires packagePos <= INVALID_POS
      modifies this`locationMap, item`pos
      ensures Valid()
      ensures r == if old(CanAdd(packagePos, mayAdd)) && accepts then Succ else Fail
      ensures packagePos == INVALID_POS ==> (r == Succ <==> accepts && |old(locationMap)| < capacity)
      ensures packagePos != INVALID_POS ==> (r == Succ <==> accepts && mayAdd && packagePos !in old(locationMap))
      ensures r == Fail ==> locationMap == old(locationMap) && item.pos == old(item.pos)
      ensures r == Succ ==> item.pos == at && locationMap == old(locationMap)[at := item]
      ensures r == Succ ==> GoodPos(old(locationMap.Keys), capacity, packagePos, at)
      ensures Views(old(InOrder(locationMap))) == old(Views(InOrder(locationMap)))
      ensures Conserved(old(Views(InOrder(locationMap))), item.View(),
                Views(InOrder(locationMap)), r == Succ, item.View())
    {
      NothingMoved(Views(InOrder(locationMap)), item.View());
      var pos := ChoosePos(packagePos, mayAdd);
      at := pos;
      if pos == INVALID_POS {
        return Fail, at;
      }
      if !accepts {
        return Fail, at;
      }
      FileAt(item, pos);
      r := Succ;
    }

    /** The merge that goes before an addition. */
    method MergeFirst(item: Item, merging: bool) returns (r: AddResult)
      requires Valid() && item !in locationMap.Values && Fits(Views(InOrder(locationMap)) + [item.View()])
      modifies locationMap.Values`num, item`num
      ensures Valid() && Fits(Views(InOrder(locationMap)) + [item.View()])
      ensures MergedAs(old(Views(InOrder(locationMap))), old(item.View()), merging, r,
                Views(InOrder(locationMap)), item.View())
    {
      ghost var v, x := Views(InOrder(locationMap)), item.View();
      r := NoChange;
      if merging {
        r := UnionItem(item);
        NoneTakes(v, x);
        FillConservesAll(v, x);
      }
    }

    /** The addition of what a merge has left over. */
    method AddRest(item: Item, unionResult: AddResult, mayAdd: bool, accepts: bool,
        ghost v0: seq<Stack>, ghost x: Stack, ghost merging: bool) returns (r: AddResult)
      requires MergedAs(v0, x, merging, unionResult, Views(InOrder(locationMap)), item.View())
      requires Valid() && item !in locationMap.Values && Fits(Views(InOrder(locationMap)) + [item.View()])
      requires item.pos <= INVALID_POS && (unionResult == NoChange || unionResult == PartUnioned)
      modifies this`locationMap, item`pos
      ensures Valid()
      ensures AddedAs(v0, x, merging, old(CanAdd(item.pos, mayAdd)) && accepts,
                r, Views(old(InOrder(locationMap))), Views(InOrder(locationMap)), item.View())
      ensures if r == Succ then locationMap == old(locationMap)[item.pos := item]
                && GoodPos(old(locationMap.Keys), capacity, old(item.pos), item.pos)
              else locationMap == old(locationMap) && item.pos == old(item.pos)
    {
      ghost var v1, x1, canAdd := Views(InOrder(locationMap)), item.View(), CanAdd(item.pos, mayAdd) && accepts;
      ghost var at;
      r, at := AddItem(item, item.pos, mayAdd, accepts);
      if r == Fail && unionResult == PartUnioned {
        r := PartUnioned;
      }
      assert item.View() == x1;
      AddedLater(v0, x, merging, canAdd, unionResult, r, v1, Views(InOrder(locationMap)), x1);
    }

    /** First merge, then file what is left.  AllUnioned is the answer whenever merging is tried and the
    stacks have room for everything; nothing has changed on Fail; no unit is lost or made. */
    method AddAndUnionItem(item: Item, mayUnion: bool, mayAdd: bool, accepts: bool) returns (r: AddResult)
      requires Valid() && item !in locationMap.Values && Fits(Views(InOrder(locationMap)) + [item.View()])
      requires item.pos <= INVALID_POS
      modifies this`locationMap, locationMap.Values`num, item`num, item`pos
      ensures Valid()
      ensures var merging := old(item.pos) == INVALID_POS && item.base.maxRepeat > 1 && mayUnion;
              AddedAs(old(Views(InOrder(locationMap))), old(item.View()),
                merging, old(CanAdd(item.pos, mayAdd)) && accepts, r,
                Views(old(InOrder(locationMap))), Views(InOrder(locationMap)), item.View())
      ensures if r == Succ then locationMap == old(locationMap)[item.pos := item]
                && GoodPos(old(locationMap.Keys), capacity, old(item.pos), item.pos)
              else locationMap == old(locationMap) && item.pos == old(item.pos)
      ensures var v0, x, pos := old(Views(InOrder(locationMap))), old(item.View()), old(item.pos);
              var merged := pos == INVALID_POS && item.base.maxRepeat > 1 && mayUnion && SomeTakes(v0, x);
              var free := if pos == INVALID_POS then |old(locationMap)| < capacity
                          else mayAdd && pos !in old(locationMap);
              Answers(r, merged, x.num <= Room(v0, x), free && accepts)
    {
      ghost var v0, x := Views(InOrder(locationMap)), item.View();
      ghost var free := CanAdd(item.pos, mayAdd) && accepts;
      var merging := item.pos == INVALID_POS && item.base.maxRepeat > 1 && mayUnion;
      r := MergeThenAdd(item, merging, mayAdd, accepts, v0, x, free);
      assert Answers(r, merging && SomeTakes(v0, x), x.num <= Room(v0, x), free);
    }

    method MergeThenAdd(item: Item, merging: bool, mayAdd: bool, accepts: bool,
        ghost v0: seq<Stack>, ghost x: Stack, ghost canAdd: bool) returns (r: AddResult)
      requires Valid() && item !in locationMap.Values && Fits(Views(InOrder(locationMap)) + [item.View()])
      requires item.pos <= INVALID_POS
      requires v0 == Views(InOrder(locationMap)) && x == item.View() && canAdd == (CanAdd(item.pos, mayAdd) && accepts)
      modifies this`locationMap, locationMap.Values`num, item`num, item`pos
      ensures Valid()
      ensures AddedAs(v0, x, merging, canAdd, r, Views(old(InOrder(locationMap))), Views(InOrder(locationMap)),
                item.View())
      ensures if r == Succ then locationMap == old(locationMap)[item.pos := item]
                && GoodPos(old(locationMap.Keys), capacity, old(item.pos), item.pos)
              else locationMap == old(locationMap) && item.pos == old(item.pos)
    {
      var unionResult := MergeFirst(item, merging);
      if unionResult == AllUnioned {
        AddedWhole(v0, x, merging, canAdd, Views(InOrder(locationMap)), item.View());
        return AllUnioned;
      }
      r := AddRest(item, unionResult, mayAdd, accepts, v0, x, merging);
    }

    /** Take an item out of the package. */
    method RemoveItem(item: Item)
      requires Valid() && item.pos in locationMap && locationMap[item.pos] == item
      modifies this`locationMap, item`pos
      ensures Valid() && item.pos == INVALID_POS && item !in locationMap.Values
      ensures locationMap == old(locationMap) - {old(item.pos)}
      ensures Conserved(Views(InOrder(locationMap)), item.View(), old(Views(InOrder(locationMap))), true, item.View())
    {
      ghost var rest := locationMap - {item.pos};
      RestIsValid(locationMap, item);
      Unfile(item, InOrder(rest));
    }

    method Unfile(item: Item, ghost rest: seq<Item>)
      requires item !in rest && Filed(locationMap - {item.pos}) && item !in (locationMap - {item.pos}).Values
      modifies this`locationMap, item`pos
      ensures item.pos == INVALID_POS && locationMap == old(locationMap) - {old(item.pos)} && Filed(locationMap)
      ensures Views(rest) == old(Views(rest))
    {
      ghost var v := Views(rest);
      locationMap := locationMap - {item.pos};
      item.pos := INVALID_POS;
      assert Views(rest) == v;
    }

    /** The least free position; INVALID_POS exactly when 0, 1, 2, ... are all taken up to the capacity. */
    method GetEmptyPos() returns (pos: nat)
      requires Filed(locationMap) && capacity <= INVALID_POS
      ensures pos != INVALID_POS ==> pos !in locationMap && forall q :: 0 <= q < pos ==> q in locationMap
      ensures pos == INVALID_POS <==> Dense(locationMap.Keys) && capacity <= |locationMap|
      ensures |locationMap| < capacity ==> pos <= |locationMap|
    {
      var keys := Ascending(locationMap.Keys);
      pos := 0;
      while pos < |keys|
        invariant pos <= |keys| && forall q :: 0 <= q < pos ==> keys[q] == q
      {
        if keys[pos] != pos {
          FirstGap(locationMap.Keys, pos);
          BoundedSize(locationMap.Keys, INVALID_POS);
          return;
        }
        pos := pos + 1;
      }
      NoGap(locationMap.Keys);
      if pos >= capacity {
        pos := INVALID_POS;
      }
    }
  }

  /** ---- The sort as its callers see it ---- */

  lemma TwoStood(m: map<nat, Item>, a: Item, b: Item)
    requires m == map[0 := a, 1 := b]
    ensures InOrder(m) == [a, b] && Dense(m.Keys)
  {
    StoodAs(m, [a, b]);
  }

  /** A sort that changes counts and tells nobody: two stacks of one sort, filed at 0 and 1, with more units than
  one slot holds.  7 and 6 become 10 and 3 in silence; so do 6 and 6 become 10 and 2, unless std::sort
  swaps the two, which compare equal (`same` is false then). */
  method SortTwo(p: ItemPackage, a: Item, b: Item) returns (notify: Option<seq<Item>>, ghost same: bool)
    requires p.Valid() && p.locationMap == map[0 := a, 1 := b]
    requires GroupOf(a.View()) == GroupOf(b.View()) && b.num <= a.num < a.base.maxRepeat < a.num + b.num
    modifies p`locationMap, p.locationMap.Values`num, p.locationMap.Values`pos
    ensures notify == None <==> same
    ensures old(a.num > b.num) ==> same
    ensures notify == None ==> p.locationMap == old(p.locationMap)
    ensures notify == None ==> a.num == a.base.maxRepeat && b.num == old(a.num + b.num) - a.base.maxRepeat
  {
    TwoStood(p.locationMap, a, b);
    TwoViews(a, b);
    ghost var x, y := a.View(), b.View();
    ghost var order, n;
    notify, order, n, same := p.SortItem();
    TwoInSilence(x, y, Views(InOrder(p.locationMap)), notify == None, same);
    TwoViews(a, b);
  }

  lemma TwoViews(a: Item, b: Item)
    ensures Views([a, b]) == [a.View(), b.View()]
  {
    assert Views([a, b])[0] == a.View() && Views([a, b])[1] == b.View();
  }

  lemma TwoInSilence(x: Stack, y: Stack, v: seq<Stack>, silent: bool, same: bool)
    requires GroupOf(x) == GroupOf(y) && y.num <= x.num < x.base.maxRepeat < x.num + y.num
    requires Silence([x, y], v, silent, same, true)
    ensures (silent <==> same) && (x.num > y.num ==> same)
    ensures silent ==> v == [x.(num := x.base.maxRepeat), y.(num := x.num + y.num - x.base.maxRepeat)]
  {
    TwoStacksMerge(x, y);
    assert x.num > y.num ==> Strict([x, y]);
  }

  lemma {:induction false} SameTotal(a: seq<Item>, b: seq<Item>, g: Group)
    requires Distinct(a) && Distinct(b) && forall x :: x in a <==> x in b
    ensures Total(Views(a), g) == Total(Views(b), g)
    decreases |a|
  {
    if a == [] {
      assert Objects(a) == Objects(b);
      DistinctSize(a);
      DistinctSize(b);
    } else {
      assert a[0] in b;
      var k :| 0 <= k < |b| && b[k] == a[0];
      var rest := b[..k] + b[k + 1..];
      RestsAgree(a, b, k);
      SameTotal(a[1..], rest, g);
      TakeOut(b, k, g);
      assert Views(a)[1..] == Views(a[1..]);
    }
  }

  lemma RestsAgree(a: seq<Item>, b: seq<Item>, k: nat)
    requires Distinct(a) && Distinct(b) && a != [] && k < |b| && b[k] == a[0] && forall x :: x in a <==> x in b
    ensures Distinct(b[..k] + b[k + 1..]) && forall x :: x in a[1..] <==> x in b[..k] + b[k + 1..]
  {
    WithoutOne(b, k);
    DistinctFrom(a, 0);
    assert forall x :: x in a[1..] ==> x in a && x != a[0];
    assert forall x :: x in a && x != a[0] ==> x in a[1..];
  }

  lemma WithoutOne(b: seq<Item>, k: nat)
    requires Distinct(b) && k < |b|
    ensures Distinct(b[..k] + b[k + 1..])
    ensures forall x :: x in b[..k] + b[k + 1..] <==> x in b && x != b[k]
  {
    StillDistinct(b, k);
    DistinctFrom(b, k);
    assert b == b[..k] + [b[k]] + b[k + 1..];
  }

  lemma {:induction false} StillDistinct(b: seq<Item>, k: nat)
    requires Distinct(b) && k < |b|
    ensures Distinct(b[..k] + b[k + 1..])
  {
    var rest := b[..k] + b[k + 1..];
    if k > 0 {
      StillDistinct(b[1..], k - 1);
      assert rest[1..] == b[1..][..k - 1] + b[1..][k..];
      assert b[1..] == b[1..][..k - 1] + [b[k]] + b[1..][k..];
    } else {
      assert rest == b[1..];
    }
  }

  lemma TakeOut(b: seq<Item>, k: nat, g: Group)
    requires k < |b|
    ensures Total(Views(b), g) == Units(b[k].View(), g) + Total(Views(b[..k] + b[k + 1..]), g)
  {
    var v := Views(b);
    assert v == v[..k] + [v[k]] + v[k + 1..];
    TotalConcat(v[..k] + [v[k]], v[k + 1..], g);
    TotalConcat(v[..k], [v[k]], g);
    TotalConcat(v[..k], v[k + 1..], g);
    assert Views(b[..k] + b[k + 1..]) == v[..k] + v[k + 1..];
  }

  ghost predicate WasFiled(m: map<nat, Item>, vec: seq<Item>, pos: seq<nat>) {
    && |pos| == |vec|
    && (forall k :: 0 <= k < |vec| ==> pos[k] in m && m[pos[k]] == vec[k])
    && (forall p :: p in m ==> m[p] in vec)
    && (forall p, k :: p in m && 0 <= k < |vec| && vec[k] == m[p] ==> pos[k] == p)
  }

  lemma FiledWas(m: map<nat, Item>, vec: seq<Item>)
    requires Filed(m) && forall x :: x in vec <==> x in m.Values
    ensures WasFiled(m, vec, Positions(vec))
  {
    forall k | 0 <= k < |vec|
      ensures vec[k].pos in m && m[vec[k].pos] == vec[k]
    {
      assert vec[k] in m.Values;
      var p :| p in m && m[p] == vec[k];
    }
  }

  /** When a sort is silent, and when it is although counts have changed.  v0 are the stacks before it, v
  those after it; same: std::sort left them as they stood; dense: they stood at 0, 1, 2, ... */
  ghost predicate Silence(v0: seq<Stack>, v: seq<Stack>, silent: bool, same: bool, dense: bool) {
    && (same ==> Ordered(v0)) && (Strict(v0) ==> same)
    && (silent <==> same && dense && AllTight(v0))
    && (silent ==> v == Compact(v0))
    && (silent && v != v0 <==> same && dense && SilentlyMerged(v0))
  }

  lemma SilenceIs(v0: seq<Stack>, v: seq<Stack>, same: bool, dense: bool, v1: seq<Stack>, silent: bool)
    requires Fits(v) && Ordered(v) && (same ==> v == v0) && (Strict(v0) ==> same)
    requires v1 == Arranged(v) && (silent <==> Absorbed(v) == [] && same && dense)
    ensures Silence(v0, v1, silent, same, dense)
  {
    if same {
      PartialMergeGoesUnreported(v0);
      AbsorbsNothing(v0);
      assert Absorbed(v0) == [] ==> Arranged(v0) == Compact(v0);
    }
  }

  lemma SortResult(m0: map<nat, Item>, v0: seq<Stack>, vec: seq<Item>, v: seq<Stack>, m: map<nat, Item>,
      order: seq<Item>, silent: bool)
    requires Fits(v) && Ordered(v) && Fits(Arranged(v))
    requires (vec == InOrder(m0) ==> v == v0) && (Strict(v0) ==> vec == InOrder(m0))
    requires InSlots(m, order) && |order| <= INVALID_POS && Views(order) == Arranged(v)
    requires silent <==> |Compact(v)| == |order| && Stood(m0, vec)
    ensures Filed(m) && Fits(Views(InOrder(m)))
    ensures Silence(v0, Views(InOrder(m)), silent, vec == InOrder(m0), Dense(m0.Keys))
  {
    SlotsAreValid(m, order);
    StoodAs(m0, vec);
    InSlotsInOrder(m, order);
    SilenceIs(v0, v, vec == InOrder(m0), Dense(m0.Keys), Views(order), silent);
  }

  /** No two stacks compare equal. */
  ghost predicate Strict(s: seq<Stack>) {
    forall i, j :: 0 <= i < j < |s| ==> Less(s[i], s[j])
  }

  /** What is in strict order is its only arrangement in order. */
  lemma {:induction false} StrictIsKept(items: seq<Item>, vec: seq<Item>)
    requires Distinct(items) && Distinct(vec) && |vec| == |items| && forall x :: x in vec <==> x in items
    requires Strict(Views(items)) && Ordered(Views(vec))
    ensures vec == items
    decreases |items|
  {
    if items != [] {
      FirstIsFirst(items, vec);
      DistinctFrom(items, 0);
      DistinctFrom(vec, 0);
      assert items == [items[0]] + items[1..] && vec == [vec[0]] + vec[1..];
      assert Views(items)[1..] == Views(items[1..]) && Views(vec)[1..] == Views(vec[1..]);
      StrictTail(Views(items));
      OrderedTail(Views(vec));
      assert forall x :: x in items[1..] <==> x in items && x != items[0];
      assert forall x :: x in vec[1..] <==> x in vec && x != vec[0];
      StrictIsKept(items[1..], vec[1..]);
    }
  }

  lemma FirstIsFirst(items: seq<Item>, vec: seq<Item>)
    requires |vec| == |items| > 0 && forall x :: x in vec <==> x in items
    requires Strict(Views(items)) && Ordered(Views(vec))
    ensures vec[0] == items[0]
  {
    assert vec[0] in items && items[0] in vec;
    var j :| 0 <= j < |items| && items[j] == vec[0];
    var k :| 0 <= k < |vec| && vec[k] == items[0];
    FirstStays(Views(items), Views(vec), j, k);
  }

  lemma FirstStays(a: seq<Stack>, b: seq<Stack>, j: nat, k: nat)
    requires Strict(a) && Ordered(b) && j < |a| && k < |b| && a[j] == b[0] && b[k] == a[0]
    ensures j == 0 || k == 0
  {
    assert j > 0 ==> Less(a[0], a[j]);
    assert k > 0 ==> !Less(b[k], b[0]);
  }

  lemma StrictTail(s: seq<Stack>)
    requires s != [] && Strict(s)
    ensures Strict(s[1..])
  {
  }

  lemma OrderedTail(s: seq<Stack>)
    requires s != [] && Ordered(s)
    ensures Ordered(s[1..])
  {
  }

  /** The items of vec stand at 0, 1, 2, ..., in this order, and nothing else is filed. */
  ghost predicate Stood(m: map<nat, Item>, vec: seq<Item>) {
    && (forall p :: p in m <==> 0 <= p < |vec|)
    && (forall p :: 0 <= p < |vec| ==> m[p] == vec[p])
  }

  lemma {:induction false} DenseAscending(s: set<nat>, k: nat)
    requires Dense(s) && k <= |s|
    ensures forall q :: 0 <= q < k ==> Ascending(s)[q] == q
  {
    if k > 0 {
      DenseAscending(s, k - 1);
      if Ascending(s)[k - 1] != k - 1 {
        FirstGap(s, k - 1);
      }
    }
  }

  lemma StoodAs(m: map<nat, Item>, vec: seq<Item>)
    ensures Stood(m, vec) <==> vec == InOrder(m) && Dense(m.Keys)
  {
    if Dense(m.Keys) {
      DenseAscending(m.Keys, |m.Keys|);
    }
    if Stood(m, vec) {
      StoodKeys(m.Keys, |vec|);
    }
  }

  lemma {:induction false} StoodKeys(s: set<nat>, n: nat)
    requires forall p :: p in s <==> 0 <= p < n
    ensures |s| == n
  {
    if n > 0 {
      StoodKeys(s - {n - 1}, n - 1);
    }
  }

  lemma InSlotsInOrder(m: map<nat, Item>, order: seq<Item>)
    requires InSlots(m, order)
    ensures InOrder(m) == order
  {
    StoodAs(m, order);
  }

  /** Nothing was emptied and nothing moved: then, and only then, the map is as it was, and the items stood
  as in vec. */
  lemma WhenPut(m0: map<nat, Item>, m: map<nat, Item>, vec: seq<Item>, pos0: seq<nat>, kept: seq<nat>,
      removed: seq<Item>, order: seq<Item>)
    requires WasFiled(m0, vec, pos0) && Distinct(vec) && Below(kept, |vec|)
    requires removed == [] ==> kept == Range(0, |vec|)
    requires order == Gather(vec, kept) + removed && InSlots(m, order)
    ensures removed == [] ==> (m == m0 <==> !SomeMoved(pos0, kept))
    ensures removed == [] ==> (m == m0 <==> Stood(m0, vec))
  {
    if removed == [] {
      KeptAll(vec, kept);
      assert order == vec;
      StayedPut(m0, m, vec, pos0, kept);
      SameMap(m0, m, vec);
    }
  }

  lemma SameMap(m0: map<nat, Item>, m: map<nat, Item>, vec: seq<Item>)
    requires Stood(m, vec)
    ensures m == m0 <==> Stood(m0, vec)
  {
  }

  lemma KeptAll(vec: seq<Item>, kept: seq<nat>)
    requires kept == Range(0, |vec|)
    ensures Below(kept, |vec|) && Gather(vec, kept) == vec
  {
  }

  /** When nothing was emptied, some item moved exactly if the location map has changed. */
  lemma StayedPut(m0: map<nat, Item>, m: map<nat, Item>, vec: seq<Item>, pos0: seq<nat>, kept: seq<nat>)
    requires WasFiled(m0, vec, pos0) && Distinct(vec) && Below(kept, |vec|)
    requires forall p :: p in m <==> 0 <= p < |kept|
    requires forall a :: 0 <= a < |kept| ==> m[a] == vec[kept[a]]
    requires forall x :: x in Gather(vec, kept) <==> x in vec
    ensures m == m0 <==> !SomeMoved(pos0, kept)
  {
    if m == m0 {
      forall a | 0 <= a < |kept|
        ensures pos0[kept[a]] == a
      {
        assert a in m0 && m0[a] == vec[kept[a]];
      }
    }
    if !SomeMoved(pos0, kept) {
      forall a | 0 <= a < |kept|
        ensures a in m0 && m0[a] == m[a]
      {
        assert pos0[kept[a]] == a;
      }
      forall p | p in m0
        ensures p in m
      {
        assert m0[p] in Gather(vec, kept);
        var a :| 0 <= a < |kept| && Gather(vec, kept)[a] == m0[p];
        assert pos0[kept[a]] == p;
      }
      assert m == m0;
    }
  }

  ghost predicate SameTotals(a: seq<Stack>, b: seq<Stack>) {
    forall g :: Total(a, g) == Total(b, g)
  }

  lemma SameTotalsOf(a: seq<Item>, b: seq<Item>)
    requires Distinct(a) && Distinct(b) && forall x :: x in a <==> x in b
    ensures SameTotals(Views(a), Views(b))
  {
    forall g
      ensures Total(Views(a), g) == Total(Views(b), g)
    {
      SameTotal(a, b, g);
    }
  }

  /** What the sort does for every group. */
  ghost predicate PackedTo(v0: seq<Stack>, v: seq<Stack>) {
    forall g: Group :: g.base.maxRepeat > 0 ==>
      Total(v, g) == Total(v0, g) && StackCount(v, g) == NeedCapacity(g.base.maxRepeat, Total(v0, g))
  }

  lemma ArrangedIsPacked(v: seq<Stack>)
    requires Fits(v) && Ordered(v)
    ensures PackedTo(v, Arranged(v)) && Ordered(Compact(v)) && AllEmpty(Absorbed(v)) && Fits(Arranged(v))
  {
    ArrangedFits(v);
    forall g: Group | g.base.maxRepeat > 0
      ensures Total(Arranged(v), g) == Total(v, g)
      ensures StackCount(Arranged(v), g) == NeedCapacity(g.base.maxRepeat, Total(v, g))
    {
      SortTheorem(v, g, Stack(0, g.base, g.bind, 0));
    }
    var b := Base(0, 0, 1);
    SortTheorem(v, Group(b, false), Stack(0, b, false, 0));
  }

  /** A vector arranged, as seen from any list of the same items. */
  lemma ArrangedParts(before: seq<Stack>, v: seq<Stack>)
    requires Fits(v) && Ordered(v) && SameTotals(v, before)
    ensures var n := |Compact(v)|;
            n <= |v| && Ordered(Arranged(v)[..n]) && AllEmpty(Arranged(v)[n..])
    ensures PackedTo(before, Arranged(v)) && Fits(Arranged(v))
  {
    ArrangedIsPacked(v);
    assert Arranged(v)[..|Compact(v)|] == Compact(v);
    assert Arranged(v)[|Compact(v)|..] == Absorbed(v);
  }

  lemma SlotsValues(m: map<nat, Item>, order: seq<Item>, s: set<Item>)
    requires InSlots(m, order) && forall x :: x in order <==> x in s
    ensures m.Values == s
  {
    forall x | x in s
      ensures x in m.Values
    {
      var a :| 0 <= a < |order| && order[a] == x;
      assert a in m && m[a] == x;
    }
  }

  lemma UnionOnValues(v: seq<Stack>, x: Stack, n: nat, idx: seq<nat>)
    requires idx == Collected(v, x, n, 0)
    ensures PourAll(v, idx, n) == (Fill(v, x, n), n - Min(n, Room(v, x)))
    ensures idx == [] <==> !SomeTakes(v, x)
  {
    NoneCollected(v, x, n, 0);
    PouringFills([], v, x, n);
    assert [] + v == v && [] + Fill(v, x, n) == Fill(v, x, n);
  }

  lemma UnionFits(v: seq<Stack>, x: Stack, n: nat)
    requires Fits(v + [x]) && n == x.num
    ensures Fits(Fill(v, x, n)) && Fits(Fill(v, x, n) + [x.(num := n - Min(n, Room(v, x)))])
  {
    var left := n - Min(n, Room(v, x));
    FillFits(v, x, n, left);
    FitsFront(Fill(v, x, n), x.(num := left));
  }

  lemma AddedItems(m: map<nat, Item>, item: Item, pos: nat)
    requires pos !in m
    ensures forall x :: x in InOrder(m[pos := item]) <==> x in InOrder(m) + [item]
  {
    var m' := m[pos := item];
    InOrderItems(m);
    InOrderItems(m');
    forall x | x in m.Values
      ensures x in m'.Values
    {
      var p :| p in m && m[p] == x;
      assert p in m' && m'[p] == x;
    }
    assert m'[pos] == item && pos in m';
  }

  lemma AddedTotals(m: map<nat, Item>, item: Item, pos: nat)
    requires Filed(m) && pos !in m && item !in m.Values && Filed(m[pos := item])
    ensures Conserved(Views(InOrder(m)), item.View(), Views(InOrder(m[pos := item])), true, item.View())
  {
    var a, b := InOrder(m[pos := item]), InOrder(m) + [item];
    FiledIsDistinct(m);
    FiledIsDistinct(m[pos := item]);
    AddedItems(m, item, pos);
    InOrderItems(m);
    DistinctInsert(InOrder(m), |m|, item);
    assert InOrder(m)[..|m|] + [item] + InOrder(m)[|m|..] == b;
    forall g
      ensures Total(Views(a), g) == Total(Views(InOrder(m)), g) + Units(item.View(), g)
    {
      SameTotal(a, b, g);
      assert Views(b) == Views(InOrder(m)) + [item.View()];
      TotalConcat(Views(InOrder(m)), [item.View()], g);
    }
  }

  lemma RestIsValid(m: map<nat, Item>, item: Item)
    requires Filed(m) && item.pos in m && m[item.pos] == item && Fits(Views(InOrder(m)))
    ensures var rest := m - {item.pos};
            && Filed(rest) && item !in rest.Values && item !in InOrder(rest) && Fits(Views(InOrder(rest)))
            && Conserved(Views(InOrder(rest)), item.View(), Views(InOrder(m)), true, item.View())
  {
    var rest := m - {item.pos};
    assert rest[item.pos := item] == m;
    RestItems(m, item);
    FitsSubset(InOrder(m), InOrder(rest));
    AddedTotals(rest, item, item.pos);
  }

  lemma RestItems(m: map<nat, Item>, item: Item)
    requires Filed(m) && item.pos in m && m[item.pos] == item
    ensures var rest := m - {item.pos};
            && item !in rest.Values && item !in InOrder(rest) && forall x :: x in InOrder(rest) ==> x in InOrder(m)
  {
    var rest := m - {item.pos};
    InOrderItems(m);
    InOrderItems(rest);
    forall x | x in rest.Values
      ensures x in m.Values && x != item
    {
      var p :| p in rest && rest[p] == x;
      assert p in m && m[p] == x;
    }
  }

  lemma FiledPlus(m: map<nat, Item>, item: Item, pos: nat)
    requires Filed(m) && pos < INVALID_POS && item.pos == pos
    ensures Filed(m[pos := item])
  {
  }

  lemma AddedIsValid(m: map<nat, Item>, item: Item, pos: nat)
    requires Filed(m) && pos !in m && Fits(Views(InOrder(m)) + [item.View()])
    ensures Fits(Views(InOrder(m[pos := item])))
  {
    AddedItems(m, item, pos);
    assert Views(InOrder(m) + [item]) == Views(InOrder(m)) + [item.View()];
    FitsSubset(InOrder(m) + [item], InOrder(m[pos := item]));
  }

  lemma SlotsAreValid(m: map<nat, Item>, order: seq<Item>)
    requires InSlots(m, order) && |order| <= INVALID_POS && Fits(Views(order))
    ensures Filed(m) && Fits(Views(InOrder(m)))
  {
    SlotsItems(m, order);
    FitsSubset(order, InOrder(m));
  }

  lemma SlotsItems(m: map<nat, Item>, order: seq<Item>)
    requires InSlots(m, order)
    ensures forall x :: x in InOrder(m) ==> x in order
  {
    InOrderItems(m);
    forall x | x in m.Values
      ensures x in order
    {
      var p :| p in m && m[p] == x;
      assert order[p] == x;
    }
  }

  lemma RoundsStart(v: seq<Stack>, pos: seq<nat>, vec: seq<Item>)
    requires |v| == |pos| == |vec|
    ensures Rounds(v, pos, vec, v, pos, map[], 0, [], [], [], false)
  {
    SortingStarts(v);
  }

  lemma GatherAppend(vec: seq<Item>, kept: seq<nat>, removed: seq<nat>, list: seq<Item>)
    requires Below(kept, |vec|) && Listed(list, vec, removed)
    ensures Below(kept + removed, |vec|) && Gather(vec, kept + removed) == Gather(vec, kept) + list
  {
  }

  lemma FiledInSlots(m: map<nat, Item>, vec: seq<Item>, at: seq<nat>)
    requires FiledAs(m, vec, Positions(vec), at)
    ensures InSlots(m, Gather(vec, at))
  {
  }

  lemma GatherDistinct(vec: seq<Item>, kept: seq<nat>, removed: seq<nat>)
    requires Distinct(vec) && Divided(|vec|, kept, removed)
    ensures Below(kept + removed, |vec|) && Distinct(Gather(vec, kept + removed))
    ensures forall x :: x in Gather(vec, kept + removed) <==> x in vec
  {
    DividedGather(vec, kept, removed);
    assert Objects(Gather(vec, kept + removed)) == Objects(vec);
    DistinctSize(Gather(vec, kept + removed));
    DistinctSize(vec);
  }

  lemma SortingEnds(v0: seq<Stack>, v: seq<Stack>, kept: seq<nat>, removed: seq<nat>)
    requires Sorting(v0, v, |v|, kept, removed)
    ensures Pick(v, kept) == Compact(v0) && Below(kept + removed, |v|) && Pick(v, kept + removed) == Arranged(v0)
  {
    assert v[|v|..] == [];
    PickAppend(v, kept, removed);
    assert Pick(v, kept) + [] == Pick(v, kept) && Pick(v, removed) + [] == Pick(v, removed);
  }

  /** What the pass leaves, in terms of the items in their new order. */
  lemma PassResult(v0: seq<Stack>, pos0: seq<nat>, vec: seq<Item>, m: map<nat, Item>, kept: seq<nat>, removed: seq<nat>,
      list: seq<Item>, changed: bool)
    requires Rounds(v0, pos0, vec, Views(vec), Positions(vec), m, |vec|, kept, removed, list, changed)
    requires Distinct(vec)
    ensures Below(kept, |vec|) && Below(kept + removed, |vec|) && |kept| == |Compact(v0)|
    ensures var front, order := Gather(vec, kept), Gather(vec, kept + removed);
            && order == front + list && InSlots(m, front)
            && Views(order) == Arranged(v0) && SameItems(order, vec)
    ensures list == [] ==> kept == Range(0, |vec|)
    ensures changed <==> SomeMoved(pos0, kept)
  {
    SortingEnds(v0, Views(vec), kept, removed);
    GatherViews(vec, kept + removed);
    GatherDistinct(vec, kept, removed);
    GatherAppend(vec, kept, removed, list);
    FiledInSlots(m, vec, kept);
  }

  /** What holds of the sort after the items before i have been dealt with. */
  ghost predicate Rounds(v0: seq<Stack>, pos0: seq<nat>, vec: seq<Item>, v: seq<Stack>, p: seq<nat>, m: map<nat, Item>,
      i: nat, kept: seq<nat>, removed: seq<nat>, list: seq<Item>, changed: bool)
  {
    && |v0| == |pos0| == |vec| == |p| == |v|
    && Sorting(v0, v, i, kept, removed) && Gapless(i, kept, removed)
    && Filing(pos0, vec, p, m, i, kept, removed, list, changed)
  }

  /** Positions, location map, list of emptied items and flag at that moment. */
  ghost predicate Filing(pos0: seq<nat>, vec: seq<Item>, p: seq<nat>, m: map<nat, Item>,
      i: nat, kept: seq<nat>, removed: seq<nat>, list: seq<Item>, changed: bool)
  {
    && |pos0| == |vec| == |p| && i <= |p|
    && FiledAs(m, vec, p, kept)
    && Listed(list, vec, removed)
    && p[i..] == pos0[i..]
    && (changed <==> SomeMoved(pos0, kept))
  }

  lemma FilingStep(pos0: seq<nat>, vec: seq<Item>, p: seq<nat>, m: map<nat, Item>,
      i: nat, kept: seq<nat>, removed: seq<nat>, list: seq<Item>, changed: bool, next: nat)
    requires Filing(pos0, vec, p, m, i, kept, removed, list, changed) && Below(kept, i) && i < next <= |vec|
    ensures Filing(pos0, vec, p[i := |kept|], m[|kept| := vec[i]], next, kept + [i],
              removed + Range(i + 1, next), list + vec[i + 1..next], changed || p[i] != |kept|)
  {
    assert p[i..][0] == pos0[i..][0];
    FiledStep(m, vec, p, kept, i);
    ListedStep(list, vec, removed, i + 1, next);
    MovedStep(pos0, kept, i);
    PositionsAfter(p, pos0, i, |kept|, next);
  }

  lemma RoundStep(v0: seq<Stack>, pos0: seq<nat>, vec: seq<Item>, v: seq<Stack>, p: seq<nat>, m: map<nat, Item>,
      i: nat, kept: seq<nat>, removed: seq<nat>, list: seq<Item>, changed: bool, v': seq<Stack>, next: nat)
    requires Rounds(v0, pos0, vec, v, p, m, i, kept, removed, list, changed)
    requires i < next <= |v| == |v'| && v'[..i] == v[..i]
    requires Merge(v[i], v[i + 1..]) == Merged(v'[i], v'[next..], v'[i + 1..next])
    ensures Rounds(v0, pos0, vec, v', p[i := |kept|], m[|kept| := vec[i]], next, kept + [i],
              removed + Range(i + 1, next), list + vec[i + 1..next], changed || p[i] != |kept|)
  {
    SortingStep(v0, v, v', i, next, kept, removed);
    GaplessStep(i, next, kept, removed);
    FilingStep(pos0, vec, p, m, i, kept, removed, list, changed, next);
  }

  lemma PositionsAfter(p: seq<nat>, pos0: seq<nat>, i: nat, loc: nat, next: nat)
    requires |p| == |pos0| && i < next <= |p| && p[i..] == pos0[i..]
    ensures p[i := loc][next..] == pos0[next..]
  {
    forall k | next <= k < |p|
      ensures p[i := loc][k] == pos0[k]
    {
      assert p[k] == p[i..][k - i] && pos0[k] == pos0[i..][k - i];
    }
  }

  lemma DistinctFrom(vec: seq<Item>, i: nat)
    requires Distinct(vec) && i < |vec|
    ensures forall k :: 0 <= k < |vec| && k != i ==> vec[k] != vec[i]
  {
    forall k | 0 <= k < |vec| && k != i
      ensures vec[k] != vec[i]
    {
      DistinctAt(vec, if k < i then k else i, if k < i then i else k);
    }
  }
}
