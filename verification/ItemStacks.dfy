/** Stacks of items as values (game/nItemPackage.h, game/nTable.h:109-115). */
module ItemStacks {
  // What sorting and merging does to a list of stacks.  A stack may be merged into another one when
  // base and bind match and there is room for at least one more; merging k units moves exactly k.

  import opened Arithmetic

  datatype Base = Base(id: nat, kind: nat, maxRepeat: nat)

  /** An item: its serial number, its row in the base table, and its count. */
  datatype Stack = Stack(id: nat, base: Base, bind: bool, num: nat)

  /** What decides whether two items are of the same sort. */
  datatype Group = Group(base: Base, bind: bool)

  function GroupOf(s: Stack): Group {
    Group(s.base, s.bind)
  }

  /** getLeftOverlayNum. */
  function Space(s: Stack): nat {
    if s.num <= s.base.maxRepeat then s.base.maxRepeat - s.num else 0
  }

  /** checkUnion(src, 1). */
  predicate CanUnion(dest: Stack, src: Stack): (can: bool)
    ensures can <==> dest.base == src.base && dest.bind == src.bind && dest.num < dest.base.maxRepeat
  {
    GroupOf(dest) == GroupOf(src) && Space(dest) >= 1
  }

  function Min(a: nat, b: nat): nat {
    if a < b then a else b
  }

  /** Base rows are told apart by their id, every row allows at least one unit to a slot, and no
  stack is over its limit. */
  ghost predicate Fits(s: seq<Stack>) {
    && (forall i :: 0 <= i < |s| ==> 1 <= s[i].base.maxRepeat && s[i].num <= s[i].base.maxRepeat)
    && (forall i, j :: 0 <= i < |s| && 0 <= j < |s| && s[i].base.id == s[j].base.id ==> s[i].base == s[j].base)
  }

  function Units(s: Stack, g: Group): nat {
    if GroupOf(s) == g then s.num else 0
  }

  /** Units of a group in a list. */
  function Total(s: seq<Stack>, g: Group): nat {
    if s == [] then 0 else Units(s[0], g) + Total(s[1..], g)
  }

  /** Non-empty stacks of a group. */
  function StackCount(s: seq<Stack>, g: Group): nat {
    if s == [] then 0 else (if Units(s[0], g) > 0 then 1 else 0) + StackCount(s[1..], g)
  }

  /** getNeedCapacity: slots needed for num units. */
  function NeedCapacity(max: nat, num: nat): nat
    requires max > 0
  {
    if num % max == 0 then num / max else (num + max) / max
  }

  /** ---- The order ---- */

  /** SortItemCompare. */
  predicate Less(a: Stack, b: Stack) {
    if a.base.kind != b.base.kind then a.base.kind < b.base.kind
    else if a.base.id != b.base.id then a.base.id < b.base.id
    else if a.bind != b.bind then !a.bind
    else a.num > b.num
  }

  /** The part of the order that merging does not change. */
  predicate GroupLess(a: Stack, b: Stack) {
    if a.base.kind != b.base.kind then a.base.kind < b.base.kind
    else if a.base.id != b.base.id then a.base.id < b.base.id
    else !a.bind && b.bind
  }

  ghost predicate Ordered(s: seq<Stack>) {
    forall i, j :: 0 <= i < j < |s| ==> !Less(s[j], s[i])
  }

  /** The order in plain fields: by kind, then by the id of the base row, then free items before bound ones, then
  larger stacks before smaller ones. */
  lemma OrderInFields(s: seq<Stack>)
    ensures Ordered(s) <==> forall i, j :: 0 <= i < j < |s| ==>
              var a, b := s[i], s[j];
              && a.base.kind <= b.base.kind
              && (a.base.kind == b.base.kind ==> a.base.id <= b.base.id)
              && (a.base.kind == b.base.kind && a.base.id == b.base.id ==> (a.bind ==> b.bind))
              && (a.base.kind == b.base.kind && a.base.id == b.base.id && a.bind == b.bind ==> a.num >= b.num)
  {
    forall i, j | 0 <= i < j < |s|
      ensures !Less(s[j], s[i]) <==>
                && s[i].base.kind <= s[j].base.kind
                && (s[i].base.kind == s[j].base.kind ==> s[i].base.id <= s[j].base.id)
                && (s[i].base.kind == s[j].base.kind && s[i].base.id == s[j].base.id ==> (s[i].bind ==> s[j].bind))
                && (s[i].base.kind == s[j].base.kind && s[i].base.id == s[j].base.id && s[i].bind == s[j].bind ==>
                      s[i].num >= s[j].num)
    {
    }
  }

  ghost predicate GroupOrdered(s: seq<Stack>) {
    forall i, j :: 0 <= i < j < |s| ==> !GroupLess(s[j], s[i])
  }

  /** ---- The merge pass ---- */

  datatype Merged = Merged(head: Stack, rest: seq<Stack>, absorbed: seq<Stack>)

  /** Pour the stacks that follow into `t` until it is full or another group begins; the ones emptied
  are absorbed, a partly emptied one stays at the front of the rest. */
  function Merge(t: Stack, s: seq<Stack>): (m: Merged)
    ensures |m.rest| + |m.absorbed| == |s|
    decreases |s|
  {
    if s == [] || !CanUnion(t, s[0]) then Merged(t, s, [])
    else
      var k := Min(Space(t), s[0].num);
      var t1, left := t.(num := t.num + k), s[0].(num := s[0].num - k);
      if left.num == 0 then
        var m := Merge(t1, s[1..]);
        m.(absorbed := [left] + m.absorbed)
      else Merged(t1, [left] + s[1..], [])
  }

  /** The stacks that stay, in order. */
  function Compact(s: seq<Stack>): (r: seq<Stack>)
    ensures |r| <= |s|
    decreases |s|
  {
    if s == [] then []
    else
      var m := Merge(s[0], s[1..]);
      [m.head] + Compact(m.rest)
  }

  /** The stacks that were emptied, in the order they were. */
  function Absorbed(s: seq<Stack>): (r: seq<Stack>)
    ensures |r| + |Compact(s)| == |s|
    decreases |s|
  {
    if s == [] then []
    else
      var m := Merge(s[0], s[1..]);
      m.absorbed + Absorbed(m.rest)
  }

  /** ---- Facts about Merge ---- */

  function Emptied(s: Stack): Stack {
    s.(num := 0)
  }

  /** How often an item, whatever its count, occurs in a list. */
  function Copies(s: seq<Stack>, item: Stack): nat {
    if s == [] then 0 else (if Emptied(s[0]) == Emptied(item) then 1 else 0) + Copies(s[1..], item)
  }

  ghost predicate AllEmpty(s: seq<Stack>) {
    forall i :: 0 <= i < |s| ==> s[i].num == 0
  }

  lemma {:induction false} MergeConserves(t: Stack, s: seq<Stack>, g: Group)
    ensures var m := Merge(t, s); Units(m.head, g) + Total(m.rest, g) == Units(t, g) + Total(s, g)
    decreases |s|
  {
    if s != [] && CanUnion(t, s[0]) {
      var k := Min(Space(t), s[0].num);
      var t1, left := t.(num := t.num + k), s[0].(num := s[0].num - k);
      assert Units(t1, g) + Units(left, g) == Units(t, g) + Units(s[0], g);
      if left.num == 0 {
        MergeConserves(t1, s[1..], g);
      } else {
        assert ([left] + s[1..])[1..] == s[1..];
      }
    }
  }

  lemma {:induction false} MergeGrowsHead(t: Stack, s: seq<Stack>)
    ensures var m := Merge(t, s); Emptied(m.head) == Emptied(t) && t.num <= m.head.num && AllEmpty(m.absorbed)
    decreases |s|
  {
    if s != [] && CanUnion(t, s[0]) && s[0].num <= Space(t) {
      MergeGrowsHead(t.(num := t.num + s[0].num), s[1..]);
    }
  }

  lemma {:induction false} MergeKeepsItems(t: Stack, s: seq<Stack>, item: Stack)
    ensures var m := Merge(t, s); Copies(m.rest, item) + Copies(m.absorbed, item) == Copies(s, item)
    decreases |s|
  {
    if s != [] && CanUnion(t, s[0]) {
      var k := Min(Space(t), s[0].num);
      var t1, left := t.(num := t.num + k), s[0].(num := s[0].num - k);
      if left.num == 0 {
        MergeKeepsItems(t1, s[1..], item);
        var m1 := Merge(t1, s[1..]);
        assert ([left] + m1.absorbed)[1..] == m1.absorbed;
      } else {
        assert ([left] + s[1..])[1..] == s[1..];
      }
    }
  }

  lemma {:induction false} MergeFits(t: Stack, s: seq<Stack>)
    requires Fits([t] + s)
    ensures var m := Merge(t, s); Fits([m.head] + m.rest)
    decreases |s|
  {
    if s != [] && CanUnion(t, s[0]) {
      var k := Min(Space(t), s[0].num);
      var t1, left := t.(num := t.num + k), s[0].(num := s[0].num - k);
      var all := [t] + s;
      assert all[0] == t && all[1] == s[0];
      if left.num == 0 {
        FitsLess(all, [t1] + s[1..], 1);
        MergeFits(t1, s[1..]);
      } else {
        FitsLess(all, [t1] + [left] + s[1..], 0);
        assert [t1] + [left] + s[1..] == [t1] + ([left] + s[1..]);
      }
    }
  }

  /** b is a with `gap` stacks after the first taken out and counts changed within their limits. */
  lemma FitsLess(a: seq<Stack>, b: seq<Stack>, gap: nat)
    requires Fits(a) && |b| + gap == |a| && |b| >= 1 && GroupOf(b[0]) == GroupOf(a[0])
    requires forall i :: 1 <= i < |b| ==> GroupOf(b[i]) == GroupOf(a[i + gap])
    requires forall i :: 0 <= i < |b| ==> b[i].num <= b[i].base.maxRepeat
    ensures Fits(b)
  {
    forall i, j | 0 <= i < |b| && 0 <= j < |b| && b[i].base.id == b[j].base.id
      ensures b[i].base == b[j].base
    {
      assert GroupOf(b[i]) == GroupOf(a[if i == 0 then 0 else i + gap]);
      assert GroupOf(b[j]) == GroupOf(a[if j == 0 then 0 else j + gap]);
    }
  }

  /** Merging stops only when the head is full or nothing of its group is left. */
  lemma {:induction false} MergeFills(t: Stack, s: seq<Stack>)
    requires Fits([t] + s) && GroupOrdered([t] + s)
    ensures var m := Merge(t, s);
            && GroupOrdered([m.head] + m.rest)
            && (forall j :: 0 <= j < |m.rest| && GroupOf(m.rest[j]) == GroupOf(t) ==> m.head.num == t.base.maxRepeat)
    decreases |s|
  {
    if s == [] {
    } else if CanUnion(t, s[0]) {
      var k := Min(Space(t), s[0].num);
      var t1, left := t.(num := t.num + k), s[0].(num := s[0].num - k);
      if left.num == 0 {
        HeadGrows(t, s, t1);
        MergeFills(t1, s[1..]);
      } else {
        GroupOrderedLess([t] + s, [t1] + ([left] + s[1..]), 0);
      }
    } else {
      GroupGone(t, s);
    }
  }

  /** The head has taken in the stack after it. */
  lemma HeadGrows(t: Stack, s: seq<Stack>, t1: Stack)
    requires s != [] && Fits([t] + s) && GroupOrdered([t] + s)
    requires GroupOf(t1) == GroupOf(t) && t1.num <= t1.base.maxRepeat
    ensures Fits([t1] + s[1..]) && GroupOrdered([t1] + s[1..])
  {
    var all := [t] + s;
    assert all[0] == t;
    assert forall j :: 0 <= j < |s| - 1 ==> s[1..][j] == all[j + 2];
    FitsLess(all, [t1] + s[1..], 1);
    GroupOrderedLess(all, [t1] + s[1..], 1);
  }

  lemma GroupOrderedLess(a: seq<Stack>, b: seq<Stack>, gap: nat)
    requires GroupOrdered(a) && |b| + gap == |a| && |b| >= 1 && GroupOf(b[0]) == GroupOf(a[0])
    requires forall i :: 1 <= i < |b| ==> GroupOf(b[i]) == GroupOf(a[i + gap])
    ensures GroupOrdered(b)
  {
    forall i, j | 0 <= i < j < |b|
      ensures !GroupLess(b[j], b[i])
    {
      assert GroupOf(b[i]) == GroupOf(a[if i == 0 then 0 else i + gap]);
      assert GroupOf(b[j]) == GroupOf(a[j + gap]);
      assert !GroupLess(a[j + gap], a[if i == 0 then 0 else i + gap]);
    }
  }

  /** If the head cannot take from the next stack although it has room, its group has ended. */
  lemma GroupGone(t: Stack, s: seq<Stack>)
    requires s != [] && Fits([t] + s) && GroupOrdered([t] + s) && !CanUnion(t, s[0])
    ensures forall j :: 0 <= j < |s| && GroupOf(s[j]) == GroupOf(t) ==> t.num == t.base.maxRepeat
  {
    var all := [t] + s;
    forall j | 0 <= j < |s| && GroupOf(s[j]) == GroupOf(t)
      ensures t.num == t.base.maxRepeat
    {
      assert all[0] == t && all[1] == s[0] && all[j + 1] == s[j];
      assert !GroupLess(all[1], all[0]);
      assert j > 0 ==> !GroupLess(all[j + 1], all[1]);
      assert all[1].base.id == all[0].base.id ==> all[1].base == all[0].base;
    }
  }

  /** ---- Facts about the whole pass ---- */

  /** The merge pass moves units only inside a group. */
  lemma {:induction false} CompactConserves(s: seq<Stack>, g: Group)
    ensures Total(Compact(s), g) == Total(s, g)
    decreases |s|
  {
    if s != [] {
      var m := Merge(s[0], s[1..]);
      MergeConserves(s[0], s[1..], g);
      CompactConserves(m.rest, g);
      assert Compact(s)[1..] == Compact(m.rest);
    }
  }

  lemma {:induction false} CopiesConcat(a: seq<Stack>, b: seq<Stack>, item: Stack)
    ensures Copies(a + b, item) == Copies(a, item) + Copies(b, item)
  {
    if a == [] {
      assert a + b == b;
    } else {
      assert (a + b)[1..] == a[1..] + b;
      CopiesConcat(a[1..], b, item);
    }
  }

  /** Every item survives or is absorbed, exactly as often as it was there, and the absorbed are empty. */
  lemma {:induction false} CompactKeepsItems(s: seq<Stack>, item: Stack)
    ensures Copies(Compact(s), item) + Copies(Absorbed(s), item) == Copies(s, item)
    ensures AllEmpty(Absorbed(s))
    decreases |s|
  {
    if s != [] {
      var m := Merge(s[0], s[1..]);
      MergeKeepsItems(s[0], s[1..], item);
      MergeGrowsHead(s[0], s[1..]);
      CompactKeepsItems(m.rest, item);
      assert Compact(s)[1..] == Compact(m.rest);
      CopiesConcat(m.absorbed, Absorbed(m.rest), item);
    }
  }

  /** Every stack that is followed by a later one of its group is full. */
  ghost predicate Packed(s: seq<Stack>) {
    forall i, j :: 0 <= i < j < |s| && GroupOf(s[i]) == GroupOf(s[j]) ==> s[i].num == s[i].base.maxRepeat
  }

  /** Every group of a compacted list comes from the list. */
  lemma {:induction false} CompactGroups(s: seq<Stack>, x: Stack)
    requires x in Compact(s)
    ensures exists y :: y in s && GroupOf(y) == GroupOf(x)
    decreases |s|
  {
    if s != [] {
      var m := Merge(s[0], s[1..]);
      MergeGrowsHead(s[0], s[1..]);
      if x == m.head {
        assert GroupOf(s[0]) == GroupOf(x);
      } else {
        CompactGroups(m.rest, x);
        var y :| y in m.rest && GroupOf(y) == GroupOf(x);
        MergeGroups(s[0], s[1..], y);
        var z :| z in s[1..] && GroupOf(z) == GroupOf(y);
        assert z in s;
      }
    }
  }

  lemma {:induction false} MergeGroups(t: Stack, s: seq<Stack>, y: Stack)
    requires y in Merge(t, s).rest
    ensures exists z :: z in s && GroupOf(z) == GroupOf(y)
    decreases |s|
  {
    if s != [] && CanUnion(t, s[0]) {
      var k := Min(Space(t), s[0].num);
      var t1, left := t.(num := t.num + k), s[0].(num := s[0].num - k);
      if left.num == 0 {
        MergeGroups(t1, s[1..], y);
        var z :| z in s[1..] && GroupOf(z) == GroupOf(y);
        assert z in s;
      } else if y == left {
        assert GroupOf(s[0]) == GroupOf(y);
      } else {
        assert y in s;
      }
    } else {
      assert y in s;
    }
  }

  lemma {:induction false} CompactPacks(s: seq<Stack>)
    requires Fits(s) && GroupOrdered(s)
    ensures Packed(Compact(s)) && GroupOrdered(Compact(s)) && Fits(Compact(s))
    decreases |s|
  {
    if s != [] {
      var m := Merge(s[0], s[1..]);
      assert s == [s[0]] + s[1..];
      MergeFills(s[0], s[1..]);
      MergeFits(s[0], s[1..]);
      MergeGrowsHead(s[0], s[1..]);
      var front := [m.head] + m.rest;
      assert front[1..] == m.rest;
      CompactPacks(m.rest);
      HeadOfCompact(m);
    }
  }

  lemma HeadOfCompact(m: Merged)
    requires var front := [m.head] + m.rest; Fits(front) && GroupOrdered(front)
    requires forall j :: 0 <= j < |m.rest| && GroupOf(m.rest[j]) == GroupOf(m.head) ==>
               m.head.num == m.head.base.maxRepeat
    requires var c := Compact(m.rest); Packed(c) && GroupOrdered(c) && Fits(c)
    ensures var c := [m.head] + Compact(m.rest); Packed(c) && GroupOrdered(c) && Fits(c)
  {
    var tail := Compact(m.rest);
    forall j | 0 <= j < |tail|
      ensures GroupOf(tail[j]) == GroupOf(m.head) ==> m.head.num == m.head.base.maxRepeat
      ensures !GroupLess(tail[j], m.head)
      ensures tail[j].base.id == m.head.base.id ==> tail[j].base == m.head.base
    {
      HeadAndLater(m, tail[j]);
    }
    assert ([m.head] + m.rest)[0] == m.head;
    PackedCons(m.head, tail);
    GroupOrderedCons(m.head, tail);
    FitsCons(m.head, tail);
  }

  /** A stack that stays behind the head. */
  lemma HeadAndLater(m: Merged, x: Stack)
    requires var front := [m.head] + m.rest; Fits(front) && GroupOrdered(front)
    requires forall j :: 0 <= j < |m.rest| && GroupOf(m.rest[j]) == GroupOf(m.head) ==>
               m.head.num == m.head.base.maxRepeat
    requires x in Compact(m.rest)
    ensures GroupOf(x) == GroupOf(m.head) ==> m.head.num == m.head.base.maxRepeat
    ensures !GroupLess(x, m.head)
    ensures x.base.id == m.head.base.id ==> x.base == m.head.base
  {
    var front := [m.head] + m.rest;
    CompactGroups(m.rest, x);
    var y :| y in m.rest && GroupOf(y) == GroupOf(x);
    var i :| 0 <= i < |m.rest| && m.rest[i] == y;
    assert front[0] == m.head && front[i + 1] == y;
    assert !GroupLess(front[i + 1], front[0]);
  }

  lemma PackedCons(x: Stack, s: seq<Stack>)
    requires Packed(s) && forall j :: 0 <= j < |s| && GroupOf(s[j]) == GroupOf(x) ==> x.num == x.base.maxRepeat
    ensures Packed([x] + s)
  {
  }

  lemma GroupOrderedCons(x: Stack, s: seq<Stack>)
    requires GroupOrdered(s) && forall j :: 0 <= j < |s| ==> !GroupLess(s[j], x)
    ensures GroupOrdered([x] + s)
  {
  }

  lemma FitsCons(x: Stack, s: seq<Stack>)
    requires Fits(s) && 1 <= x.base.maxRepeat && x.num <= x.base.maxRepeat
    requires forall j :: 0 <= j < |s| && s[j].base.id == x.base.id ==> s[j].base == x.base
    ensures Fits([x] + s)
  {
  }

  /** What is packed is in comparator order. */
  lemma PackedIsOrdered(s: seq<Stack>)
    requires Packed(s) && GroupOrdered(s) && Fits(s)
    ensures Ordered(s)
  {
    forall i, j | 0 <= i < j < |s|
      ensures !Less(s[j], s[i])
    {
      assert !GroupLess(s[j], s[i]);
      assert s[i].base.id == s[j].base.id ==> s[i].base == s[j].base;
    }
  }

  lemma CeilStep(max: nat, total: nat)
    requires max > 0
    ensures NeedCapacity(max, total + max) == NeedCapacity(max, total) + 1
    ensures 0 < total <= max ==> NeedCapacity(max, total) == 1
    ensures NeedCapacity(max, 0) == 0
  {
    var q, r := total / max, total % max;
    assert total == q * max + r;
    assert total + max == (q + 1) * max + r;
    Quotient(total + max, max, q + 1, r);
    assert total + max + max == (q + 2) * max + r;
    Quotient(total + max + max, max, q + 2, r);
    Quotient(0, max, 0, 0);
    if 0 < total < max {
      Quotient(total, max, 0, total);
    } else if total == max {
      Quotient(total, max, 1, 0);
    }
  }

  lemma {:induction false} EmptyGroup(s: seq<Stack>, g: Group)
    requires forall i :: 0 <= i < |s| ==> Units(s[i], g) == 0
    ensures Total(s, g) == 0 && StackCount(s, g) == 0
  {
    if s != [] {
      EmptyGroup(s[1..], g);
    }
  }

  /** A packed group occupies as few slots as its units allow. */
  lemma {:induction false} PackedIsMinimal(s: seq<Stack>, g: Group)
    requires Packed(s) && Fits(s) && g.base.maxRepeat > 0
    ensures StackCount(s, g) == NeedCapacity(g.base.maxRepeat, Total(s, g))
    decreases |s|
  {
    CeilStep(g.base.maxRepeat, 0);
    if s != [] {
      var rest := s[1..];
      assert Packed(rest) by {
        forall i, j | 0 <= i < j < |rest| && GroupOf(rest[i]) == GroupOf(rest[j])
          ensures rest[i].num == rest[i].base.maxRepeat
        {
          assert rest[i] == s[i + 1] && rest[j] == s[j + 1];
        }
      }
      PackedIsMinimal(rest, g);
      if GroupOf(s[0]) == g {
        if s[0].num == g.base.maxRepeat {
          CeilStep(g.base.maxRepeat, Total(rest, g));
        } else {
          forall i | 0 <= i < |rest|
            ensures Units(rest[i], g) == 0
          {
            assert rest[i] == s[i + 1];
          }
          EmptyGroup(rest, g);
          CeilStep(g.base.maxRepeat, s[0].num);
        }
      }
    }
  }

  /** ---- The result of a sort ---- */

  /** Survivors first, in order; the absorbed after them. */
  function Arranged(s: seq<Stack>): (r: seq<Stack>)
    ensures |r| == |s|
  {
    Compact(s) + Absorbed(s)
  }

  lemma {:induction false} TotalConcat(a: seq<Stack>, b: seq<Stack>, g: Group)
    ensures Total(a + b, g) == Total(a, g) + Total(b, g)
    ensures StackCount(a + b, g) == StackCount(a, g) + StackCount(b, g)
  {
    if a == [] {
      assert a + b == b;
    } else {
      assert (a + b)[1..] == a[1..] + b;
      TotalConcat(a[1..], b, g);
    }
  }

  /** Sorting a vector: every item exactly once, survivors in comparator order, the absorbed empty and
  last, units of every group unchanged and held in the fewest possible stacks. */
  lemma SortTheorem(s: seq<Stack>, g: Group, item: Stack)
    requires Fits(s) && Ordered(s) && g.base.maxRepeat > 0
    ensures Copies(Arranged(s), item) == Copies(s, item)
    ensures Ordered(Compact(s)) && Fits(Compact(s)) && AllEmpty(Absorbed(s))
    ensures Total(Arranged(s), g) == Total(s, g)
    ensures StackCount(Arranged(s), g) == NeedCapacity(g.base.maxRepeat, Total(s, g))
  {
    CompactPacks(s);
    PackedIsOrdered(Compact(s));
    CompactConserves(s, g);
    CompactKeepsItems(s, item);
    CopiesConcat(Compact(s), Absorbed(s), item);
    PackedIsMinimal(Compact(s), g);
    TotalConcat(Compact(s), Absorbed(s), g);
    EmptyGroup(Absorbed(s), g);
  }

  lemma {:induction false} CopiesOf(s: seq<Stack>, item: Stack)
    ensures Copies(s, item) > 0 <==> exists k :: 0 <= k < |s| && Emptied(s[k]) == Emptied(item)
  {
    if s != [] {
      CopiesOf(s[1..], item);
      if Copies(s[1..], item) > 0 {
        var k :| 0 <= k < |s| - 1 && Emptied(s[1..][k]) == Emptied(item);
        assert Emptied(s[k + 1]) == Emptied(item);
      }
      if k :| 0 <= k < |s| && Emptied(s[k]) == Emptied(item) {
        assert k > 0 ==> Emptied(s[1..][k - 1]) == Emptied(item);
      }
    }
  }

  /** What stands at i after sorting is one of the items before, within its limit. */
  lemma ArrangedAt(s: seq<Stack>, i: nat) returns (k: nat)
    requires Fits(s) && Ordered(s) && i < |s|
    ensures var r := Arranged(s)[i]; k < |s| && Emptied(s[k]) == Emptied(r) && r.num <= r.base.maxRepeat
  {
    k := ArrangedFrom(s, i);
    CompactPacks(s);
    var c := Compact(s);
    if i < |c| {
      assert Arranged(s)[i] == c[i];
    } else {
      CompactKeepsItems(s, s[0]);
      assert Arranged(s)[i] == Absorbed(s)[i - |c|];
    }
  }

  lemma ArrangedFrom(s: seq<Stack>, i: nat) returns (k: nat)
    requires i < |s|
    ensures k < |s| && Emptied(s[k]) == Emptied(Arranged(s)[i])
  {
    var r := Arranged(s);
    CompactKeepsItems(s, r[i]);
    CopiesConcat(Compact(s), Absorbed(s), r[i]);
    CopiesOf(r, r[i]);
    CopiesOf(s, r[i]);
    k :| 0 <= k < |s| && Emptied(s[k]) == Emptied(r[i]);
  }

  /** Sorting keeps every stack within its limit. */
  lemma ArrangedFits(s: seq<Stack>)
    requires Fits(s) && Ordered(s)
    ensures Fits(Arranged(s))
  {
    var r := Arranged(s);
    forall i | 0 <= i < |r|
      ensures 1 <= r[i].base.maxRepeat && r[i].num <= r[i].base.maxRepeat
    {
      var k := ArrangedAt(s, i);
    }
    forall i, j | 0 <= i < |r| && 0 <= j < |r| && r[i].base.id == r[j].base.id
      ensures r[i].base == r[j].base
    {
      var k := ArrangedAt(s, i);
      var l := ArrangedAt(s, j);
      assert s[k].base == r[i].base && s[l].base == r[j].base;
    }
  }

  /** ---- Which stacks a sort changes ---- */

  /** Stacks of a group, empty or not. */
  function Members(s: seq<Stack>, g: Group): nat {
    if s == [] then 0 else (if GroupOf(s[0]) == g then 1 else 0) + Members(s[1..], g)
  }

  /** Of this group, every stack that is followed by a later one is full. */
  ghost predicate PackedGroup(s: seq<Stack>, g: Group) {
    forall i, j :: 0 <= i < j < |s| && GroupOf(s[i]) == g && GroupOf(s[j]) == g ==> s[i].num == g.base.maxRepeat
  }

  /** Every group is packed as it is, or has no more stacks than its units need. */
  ghost predicate AllTight(s: seq<Stack>) {
    forall g: Group :: g.base.maxRepeat > 0 ==>
      PackedGroup(s, g) || Members(s, g) <= NeedCapacity(g.base.maxRepeat, Total(s, g))
  }

  lemma {:induction false} MembersConcat(a: seq<Stack>, b: seq<Stack>, g: Group)
    ensures Members(a + b, g) == Members(a, g) + Members(b, g)
  {
    if a == [] {
      assert a + b == b;
    } else {
      assert (a + b)[1..] == a[1..] + b;
      MembersConcat(a[1..], b, g);
    }
  }

  lemma {:induction false} MergeKeepsMembers(t: Stack, s: seq<Stack>, g: Group)
    ensures var m := Merge(t, s); Members(m.rest, g) + Members(m.absorbed, g) == Members(s, g)
    decreases |s|
  {
    if s != [] && CanUnion(t, s[0]) {
      var k := Min(Space(t), s[0].num);
      var t1, left := t.(num := t.num + k), s[0].(num := s[0].num - k);
      if left.num == 0 {
        MergeKeepsMembers(t1, s[1..], g);
        MembersConcat([left], Merge(t1, s[1..]).absorbed, g);
      } else {
        assert ([left] + s[1..])[1..] == s[1..];
      }
    }
  }

  lemma {:induction false} CompactKeepsMembers(s: seq<Stack>, g: Group)
    ensures Members(Compact(s), g) + Members(Absorbed(s), g) == Members(s, g)
    decreases |s|
  {
    if s != [] {
      var m := Merge(s[0], s[1..]);
      MergeKeepsMembers(s[0], s[1..], g);
      MergeGrowsHead(s[0], s[1..]);
      CompactKeepsMembers(m.rest, g);
      assert Compact(s)[1..] == Compact(m.rest);
      MembersConcat(m.absorbed, Absorbed(m.rest), g);
    }
  }

  /** Every stack of the group has a unit. */
  predicate NoneEmpty(s: seq<Stack>, g: Group) {
    s == [] || ((GroupOf(s[0]) == g ==> s[0].num > 0) && NoneEmpty(s[1..], g))
  }

  lemma {:induction false} CountsMembers(s: seq<Stack>, g: Group)
    ensures StackCount(s, g) <= Members(s, g)
    ensures NoneEmpty(s, g) ==> StackCount(s, g) == Members(s, g)
    ensures !NoneEmpty(s, g) ==> exists i :: 0 <= i < |s| && GroupOf(s[i]) == g && s[i].num == 0
  {
    if s != [] {
      CountsMembers(s[1..], g);
      assert s == [s[0]] + s[1..];
    }
  }

  lemma {:induction false} HasMember(s: seq<Stack>, i: nat)
    requires i < |s|
    ensures Members(s, GroupOf(s[i])) > 0
  {
    if i > 0 {
      HasMember(s[1..], i - 1);
    }
  }

  /** A merge of another group takes no stack of g, and what it leaves of g is as packed as before. */
  lemma {:induction false} MergeOther(t: Stack, s: seq<Stack>, g: Group)
    requires GroupOf(t) != g && PackedGroup(s, g)
    ensures var m := Merge(t, s); Members(m.absorbed, g) == 0 && PackedGroup(m.rest, g)
    decreases |s|
  {
    if s != [] && CanUnion(t, s[0]) {
      var k := Min(Space(t), s[0].num);
      var t1, left := t.(num := t.num + k), s[0].(num := s[0].num - k);
      if left.num == 0 {
        MergeOther(t1, s[1..], g);
        MembersConcat([left], Merge(t1, s[1..]).absorbed, g);
      } else {
        assert PackedGroup([left] + s[1..], g);
      }
    }
  }

  /** From a packed group merging takes no stack. */
  lemma {:induction false} PackedTakesNone(s: seq<Stack>, g: Group)
    requires PackedGroup(s, g)
    ensures Members(Absorbed(s), g) == 0
    decreases |s|
  {
    if s != [] {
      var m := Merge(s[0], s[1..]);
      if GroupOf(s[0]) == g {
        assert m == Merged(s[0], s[1..], []);
        assert PackedGroup(s[1..], g);
      } else {
        MergeOther(s[0], s[1..], g);
      }
      PackedTakesNone(m.rest, g);
      MembersConcat(m.absorbed, Absorbed(m.rest), g);
    }
  }

  /** An empty stack is followed by none of its group that is not. */
  ghost predicate NoneAfterEmpty(s: seq<Stack>) {
    forall i, j :: 0 <= i < j < |s| && GroupOf(s[i]) == GroupOf(s[j]) && s[i].num == 0 ==> s[j].num == 0
  }

  /** Groups stand together, the empty stacks of each last. */
  ghost predicate EmptyLast(s: seq<Stack>) {
    GroupOrdered(s) && NoneAfterEmpty(s)
  }

  lemma MergePart(t: Stack, s: seq<Stack>)
    requires s != [] && CanUnion(t, s[0])
    ensures Space(t) < s[0].num ==> Merge(t, s).rest == [s[0].(num := s[0].num - Space(t))] + s[1..]
    ensures s[0].num <= Space(t) ==> Merge(t, s).absorbed != []
  {
  }

  lemma NothingInParts(s: seq<Stack>)
    requires s != [] && Absorbed(s) == []
    ensures var m := Merge(s[0], s[1..]); m.absorbed == [] && Absorbed(m.rest) == []
  {
  }

  /** Nothing absorbed: a head that takes from the next stack leaves some of it. */
  lemma HeadTakesPart(s: seq<Stack>)
    requires |s| > 1 && CanUnion(s[0], s[1]) && Absorbed(s) == []
    ensures Space(s[0]) < s[1].num
    ensures Absorbed([s[1].(num := s[1].num - Space(s[0]))] + s[2..]) == []
  {
    var tail := s[1..];
    NothingInParts(s);
    MergePart(s[0], tail);
    assert tail[0] == s[1] && tail[1..] == s[2..];
    var rest := [s[1].(num := s[1].num - Space(s[0]))] + s[2..];
    assert Merge(s[0], tail).rest == rest;
  }

  lemma FitsTail(s: seq<Stack>)
    requires s != [] && Fits(s)
    ensures Fits(s[1..])
  {
    var r := s[1..];
    forall i, j | 0 <= i < |r| && 0 <= j < |r|
      ensures r[i].base.id == r[j].base.id ==> r[i].base == r[j].base
    {
      assert r[i] == s[i + 1] && r[j] == s[j + 1];
    }
  }

  lemma GroupOrderedTail(s: seq<Stack>)
    requires s != [] && GroupOrdered(s)
    ensures GroupOrdered(s[1..])
  {
  }

  lemma NoneAfterEmptyTail(s: seq<Stack>)
    requires s != [] && NoneAfterEmpty(s)
    ensures NoneAfterEmpty(s[1..])
  {
  }

  lemma EmptyLastTail(s: seq<Stack>)
    requires s != [] && Fits(s) && EmptyLast(s)
    ensures Fits(s[1..]) && EmptyLast(s[1..])
  {
    FitsTail(s);
    GroupOrderedTail(s);
    NoneAfterEmptyTail(s);
  }

  lemma NoneAfterEmptyLess(s: seq<Stack>, left: Stack)
    requires s != [] && NoneAfterEmpty(s) && left.num > 0
    ensures NoneAfterEmpty([left] + s[1..])
  {
    var r := [left] + s[1..];
    assert forall k :: 0 < k < |r| ==> r[k] == s[k];
  }

  lemma EmptyLastLess(s: seq<Stack>, left: Stack)
    requires s != [] && Fits(s) && EmptyLast(s)
    requires GroupOf(left) == GroupOf(s[0]) && 0 < left.num <= left.base.maxRepeat
    ensures Fits([left] + s[1..]) && EmptyLast([left] + s[1..])
  {
    FitsLess(s, [left] + s[1..], 0);
    GroupOrderedLess(s, [left] + s[1..], 0);
    NoneAfterEmptyLess(s, left);
  }

  lemma PackedGroupCons(x: Stack, s: seq<Stack>, g: Group)
    requires PackedGroup(s, g)
    requires GroupOf(x) == g ==> forall j :: 0 <= j < |s| && GroupOf(s[j]) == g ==> x.num == g.base.maxRepeat
    ensures PackedGroup([x] + s, g)
  {
  }

  lemma PackedTail(x: Stack, s: seq<Stack>, g: Group)
    requires PackedGroup([x] + s, g)
    ensures PackedGroup(s, g)
    ensures GroupOf(x) == g && (exists j :: 0 <= j < |s| && GroupOf(s[j]) == g) ==> x.num == g.base.maxRepeat
  {
    var all := [x] + s;
    assert all[0] == x;
    forall i, j | 0 <= i < j < |s| && GroupOf(s[i]) == g && GroupOf(s[j]) == g
      ensures s[i].num == g.base.maxRepeat
    {
      assert all[i + 1] == s[i] && all[j + 1] == s[j];
    }
    if j :| 0 <= j < |s| && GroupOf(s[j]) == g {
      assert all[j + 1] == s[j];
    }
  }

  /** When nothing is absorbed, a group with an empty stack was packed. */
  lemma {:induction false} EmptyMeansPacked(s: seq<Stack>, i: nat)
    requires Fits(s) && EmptyLast(s) && Absorbed(s) == [] && i < |s| && s[i].num == 0
    ensures PackedGroup(s, GroupOf(s[i]))
    decreases |s|
  {
    if |s| > 1 && CanUnion(s[0], s[1]) {
      HeadTakesPart(s);
      EmptyBehindPart(s, i);
    } else {
      HeadAlone(s);
      EmptyBehindAlone(s, i);
    }
  }

  lemma {:induction false} EmptyBehindAlone(s: seq<Stack>, i: nat)
    requires Fits(s) && EmptyLast(s) && i < |s| && s[i].num == 0 && Absorbed(s[1..]) == []
    requires forall j :: 0 <= j < |s| - 1 && GroupOf(s[1..][j]) == GroupOf(s[0]) ==>
               s[0].num == s[0].base.maxRepeat >= 1
    ensures PackedGroup(s, GroupOf(s[i]))
    decreases |s|, 0
  {
    var tail := s[1..];
    if i > 0 {
      EmptyLastTail(s);
      assert tail[i - 1] == s[i];
      EmptyMeansPacked(tail, i - 1);
    }
    PackedGroupCons(s[0], tail, GroupOf(s[i]));
    assert s == [s[0]] + tail;
  }

  /** A head that takes nothing. */
  lemma HeadAlone(s: seq<Stack>)
    requires s != [] && Fits(s) && GroupOrdered(s) && (|s| == 1 || !CanUnion(s[0], s[1]))
    ensures Absorbed(s) == [] ==> Absorbed(s[1..]) == []
    ensures forall j :: 0 <= j < |s| - 1 && GroupOf(s[1..][j]) == GroupOf(s[0]) ==> s[0].num == s[0].base.maxRepeat >= 1
  {
    assert s == [s[0]] + s[1..];
    if |s| > 1 {
      GroupGone(s[0], s[1..]);
    }
    assert Merge(s[0], s[1..]) == Merged(s[0], s[1..], []);
  }

  lemma {:induction false} EmptyBehindPart(s: seq<Stack>, i: nat)
    requires Fits(s) && EmptyLast(s) && i < |s| && s[i].num == 0
    requires |s| > 1 && CanUnion(s[0], s[1]) && Space(s[0]) < s[1].num
    requires Absorbed([s[1].(num := s[1].num - Space(s[0]))] + s[2..]) == []
    ensures PackedGroup(s, GroupOf(s[i]))
    decreases |s|, 0
  {
    var left := s[1].(num := s[1].num - Space(s[0]));
    PartIsOrdered(s, left);
    assert i > 1;
    assert ([left] + s[2..])[i - 1] == s[i] && s[2..][i - 2] == s[i];
    EmptyMeansPacked([left] + s[2..], i - 1);
    PackedBehindPart(s, left, i);
  }

  lemma PartIsOrdered(s: seq<Stack>, left: Stack)
    requires |s| > 1 && Fits(s) && EmptyLast(s) && GroupOf(left) == GroupOf(s[1]) && 0 < left.num <= left.base.maxRepeat
    ensures Fits([left] + s[2..]) && EmptyLast([left] + s[2..])
  {
    EmptyLastTail(s);
    EmptyLastLess(s[1..], left);
    assert s[1..][1..] == s[2..];
  }

  /** A stack left with room was the last of its group, so the group packed behind it is another one. */
  lemma PackedBehindPart(s: seq<Stack>, left: Stack, i: nat)
    requires 1 < i < |s| && GroupOf(left) == GroupOf(s[0]) == GroupOf(s[1]) && left.num < left.base.maxRepeat
    requires PackedGroup([left] + s[2..], GroupOf(s[i]))
    ensures PackedGroup(s, GroupOf(s[i]))
  {
    var g := GroupOf(s[i]);
    assert s[2..][i - 2] == s[i];
    PackedTail(left, s[2..], g);
    PackedGroupCons(s[1], s[2..], g);
    PackedGroupCons(s[0], [s[1]] + s[2..], g);
    assert s == [s[0]] + ([s[1]] + s[2..]);
  }

  /** The stacks that stay keep at least one unit if they had one. */
  lemma {:induction false} CompactKeepsUnits(s: seq<Stack>, g: Group)
    requires NoneEmpty(s, g)
    ensures NoneEmpty(Compact(s), g)
    decreases |s|
  {
    if s != [] {
      var m := Merge(s[0], s[1..]);
      MergeGrowsHead(s[0], s[1..]);
      MergeKeepsUnits(s[0], s[1..], g);
      CompactKeepsUnits(m.rest, g);
      assert Compact(s)[1..] == Compact(m.rest);
    }
  }

  lemma {:induction false} MergeKeepsUnits(t: Stack, s: seq<Stack>, g: Group)
    requires NoneEmpty(s, g)
    ensures NoneEmpty(Merge(t, s).rest, g)
    decreases |s|
  {
    if s != [] && CanUnion(t, s[0]) {
      if s[0].num <= Space(t) {
        MergeKeepsUnits(t.(num := t.num + s[0].num), s[1..], g);
      } else {
        MergePart(t, s);
        assert Merge(t, s).rest[1..] == s[1..];
      }
    }
  }

  /** Merging takes no stack away exactly when every group is tight. */
  lemma AbsorbsNothing(s: seq<Stack>)
    requires Fits(s) && Ordered(s)
    ensures Absorbed(s) == [] <==> AllTight(s)
  {
    CompactPacks(s);
    ArrangedFits(s);
    if Absorbed(s) == [] {
      forall g: Group | g.base.maxRepeat > 0
        ensures PackedGroup(s, g) || Members(s, g) <= NeedCapacity(g.base.maxRepeat, Total(s, g))
      {
        TightIfNothing(s, g);
      }
    } else if AllTight(s) {
      var x := Absorbed(s)[0];
      assert Arranged(s)[|Compact(s)|] == x;
      HasMember(Absorbed(s), 0);
      TightTakesNone(s, GroupOf(x));
    }
  }

  lemma TightIfNothing(s: seq<Stack>, g: Group)
    requires Fits(s) && Ordered(s) && Absorbed(s) == [] && g.base.maxRepeat > 0
    ensures PackedGroup(s, g) || Members(s, g) <= NeedCapacity(g.base.maxRepeat, Total(s, g))
  {
    CompactPacks(s);
    CountsMembers(s, g);
    if NoneEmpty(s, g) {
      CountWhenNothing(s, g);
    } else {
      var i :| 0 <= i < |s| && GroupOf(s[i]) == g && s[i].num == 0;
      EmptyMeansPacked(s, i);
    }
  }

  lemma TightTakesNone(s: seq<Stack>, g: Group)
    requires Fits(s) && Ordered(s) && g.base.maxRepeat > 0
    requires PackedGroup(s, g) || Members(s, g) <= NeedCapacity(g.base.maxRepeat, Total(s, g))
    ensures Members(Absorbed(s), g) == 0
  {
    if PackedGroup(s, g) {
      PackedTakesNone(s, g);
    } else {
      CompactPacks(s);
      CountsMembers(Compact(s), g);
      CompactKeepsMembers(s, g);
      PackedIsMinimal(Compact(s), g);
      CompactConserves(s, g);
    }
  }

  /** Merging changes nothing at all exactly when every group is packed. */
  lemma PackedStays(s: seq<Stack>)
    requires Fits(s) && Ordered(s)
    ensures Compact(s) == s <==> Packed(s)
  {
    CompactPacks(s);
    if Packed(s) {
      PackedIsFixed(s);
    }
  }

  lemma {:induction false} PackedIsFixed(s: seq<Stack>)
    requires Packed(s)
    ensures Compact(s) == s
  {
    if s != [] {
      assert s == [s[0]] + s[1..];
      assert Merge(s[0], s[1..]) == Merged(s[0], s[1..], []);
      assert forall k :: 0 <= k < |s| - 1 ==> s[1..][k] == s[k + 1];
      PackedIsFixed(s[1..]);
    }
  }

  /** The stacks whose sort changes counts and is told to nobody: no stack is emptied, and still some group
  was not packed. */
  ghost predicate SilentlyMerged(s: seq<Stack>) {
    AllTight(s) && !Packed(s)
  }

  lemma PartialMergeGoesUnreported(s: seq<Stack>)
    requires Fits(s) && Ordered(s)
    ensures Absorbed(s) == [] && Compact(s) != s <==> SilentlyMerged(s)
  {
    AbsorbsNothing(s);
    PackedStays(s);
  }

  /** When every stack has a unit, tight means: no group has more stacks than its units need. */
  lemma TightByCount(s: seq<Stack>)
    requires Fits(s) && Ordered(s) && forall i :: 0 <= i < |s| ==> s[i].num > 0
    ensures AllTight(s) <==>
            forall g: Group :: g.base.maxRepeat > 0 ==> StackCount(s, g) == NeedCapacity(g.base.maxRepeat, Total(s, g))
  {
    forall g: Group | g.base.maxRepeat > 0
      ensures StackCount(s, g) == Members(s, g)
      ensures Absorbed(s) == [] ==> StackCount(s, g) == NeedCapacity(g.base.maxRepeat, Total(s, g))
    {
      CountsMembers(s, g);
      if Absorbed(s) == [] {
        CountWhenNothing(s, g);
      }
    }
    AbsorbsNothing(s);
  }

  lemma CountWhenNothing(s: seq<Stack>, g: Group)
    requires Fits(s) && Ordered(s) && Absorbed(s) == [] && NoneEmpty(s, g) && g.base.maxRepeat > 0
    ensures StackCount(s, g) == NeedCapacity(g.base.maxRepeat, Total(s, g))
  {
    CompactPacks(s);
    CompactKeepsUnits(s, g);
    CountsMembers(s, g);
    CountsMembers(Compact(s), g);
    CompactKeepsMembers(s, g);
    PackedIsMinimal(Compact(s), g);
    CompactConserves(s, g);
  }

  /** Two stacks of one sort that together are more than one slot holds: 6 and 6 with a limit of 10 become
  10 and 2, and nothing is emptied. */
  lemma TwoStacksMerge(a: Stack, b: Stack)
    requires Fits([a, b]) && GroupOf(a) == GroupOf(b) && b.num <= a.num < a.base.maxRepeat < a.num + b.num
    ensures Ordered([a, b]) && SilentlyMerged([a, b])
    ensures Compact([a, b]) == [a.(num := a.base.maxRepeat), b.(num := a.num + b.num - a.base.maxRepeat)]
  {
    var s := [a, b];
    var left := b.(num := a.num + b.num - a.base.maxRepeat);
    assert s[1..] == [b] && [b][1..] == [] && [left][1..] == [];
    assert Merge(a, [b]) == Merged(a.(num := a.base.maxRepeat), [left], []);
    assert Merge(left, []) == Merged(left, [], []);
    assert Compact([left]) == [left] && Absorbed([left]) == [];
    assert Compact(s) == [a.(num := a.base.maxRepeat)] + [left];
    assert Compact(s)[0] != s[0];
    PartialMergeGoesUnreported(s);
  }

  /** ---- Topping up existing stacks ---- */

  /** Pour up to n units of the sort of x into the stacks that can take them, first come first served. */
  function Fill(s: seq<Stack>, x: Stack, n: nat): (r: seq<Stack>)
    ensures |r| == |s|
  {
    if s == [] || n == 0 then s
    else if CanUnion(s[0], x) then
      var k := Min(Space(s[0]), n);
      [s[0].(num := s[0].num + k)] + Fill(s[1..], x, n - k)
    else [s[0]] + Fill(s[1..], x, n)
  }

  /** The room all those stacks have together. */
  function Room(s: seq<Stack>, x: Stack): nat {
    if s == [] then 0 else (if CanUnion(s[0], x) then Space(s[0]) else 0) + Room(s[1..], x)
  }

  lemma {:induction false} FillConserves(s: seq<Stack>, x: Stack, n: nat, g: Group)
    ensures Total(Fill(s, x, n), g) == Total(s, g) + if g == GroupOf(x) then Min(Room(s, x), n) else 0
    decreases |s|
  {
    if s != [] && n > 0 {
      var k := if CanUnion(s[0], x) then Min(Space(s[0]), n) else 0;
      FillConserves(s[1..], x, n - k, g);
      assert Fill(s, x, n)[1..] == Fill(s[1..], x, n - k);
    }
  }

  /** Filling only adds, never past a limit, and only to stacks of the same sort. */
  lemma {:induction false} FillAt(s: seq<Stack>, x: Stack, n: nat, i: nat)
    requires i < |s|
    ensures var r := Fill(s, x, n)[i];
            && Emptied(r) == Emptied(s[i]) && s[i].num <= r.num
            && (r.num > s[i].num ==> GroupOf(r) == GroupOf(x) && r.num <= r.base.maxRepeat)
    decreases |s|
  {
    if n > 0 {
      var k := if CanUnion(s[0], x) then Min(Space(s[0]), n) else 0;
      if i > 0 {
        FillAt(s[1..], x, n - k, i - 1);
      }
    }
  }

  /** First come, first served: as long as a stack of the sort has room left, nothing has gone to those behind it,
  and nothing is left over. */
  lemma {:induction false} FillInOrder(s: seq<Stack>, x: Stack, n: nat, i: nat)
    requires i < |s| && s[i].base == x.base && s[i].bind == x.bind
    ensures var r := Fill(s, x, n);
            r[i].num < x.base.maxRepeat ==> n <= Room(s, x) && forall j :: i < j < |s| ==> r[j] == s[j]
    decreases |s|
  {
    if n > 0 {
      var k := if CanUnion(s[0], x) then Min(Space(s[0]), n) else 0;
      var r := Fill(s, x, n);
      assert r[1..] == Fill(s[1..], x, n - k);
      if i > 0 {
        FillInOrder(s[1..], x, n - k, i - 1);
      }
      forall j | i < j < |s| && r[i].num < x.base.maxRepeat
        ensures r[j] == s[j]
      {
        assert r[j] == r[1..][j - 1] && s[j] == s[1..][j - 1];
      }
    }
  }

  /** Filling leaves every stack within its limit, and what is left of x too. */
  lemma FillFits(s: seq<Stack>, x: Stack, n: nat, left: nat)
    requires Fits(s + [x]) && left <= x.num
    ensures Fits(Fill(s, x, n) + [x.(num := left)])
  {
    var t := s + [x];
    var r := Fill(s, x, n) + [x.(num := left)];
    forall i | 0 <= i < |t|
      ensures r[i].base == t[i].base && r[i].num <= r[i].base.maxRepeat
    {
      if i < |s| {
        FillAt(s, x, n, i);
        assert Emptied(r[i]) == Emptied(t[i]);
      }
    }
    forall i, j | 0 <= i < |r| && 0 <= j < |r| && r[i].base.id == r[j].base.id
      ensures r[i].base == r[j].base
    {
      assert t[i].base.id == t[j].base.id;
    }
  }

  lemma FitsFront(s: seq<Stack>, x: Stack)
    requires Fits(s + [x])
    ensures Fits(s)
  {
    forall i, j | 0 <= i < |s| && 0 <= j < |s| && s[i].base.id == s[j].base.id
      ensures s[i].base == s[j].base
    {
      assert (s + [x])[i] == s[i] && (s + [x])[j] == s[j];
    }
    forall i | 0 <= i < |s|
      ensures 1 <= s[i].base.maxRepeat && s[i].num <= s[i].base.maxRepeat
    {
      assert (s + [x])[i] == s[i];
    }
  }

  /** Stacks that cannot take from x are passed over. */
  lemma {:induction false} FillSkips(a: seq<Stack>, b: seq<Stack>, x: Stack, n: nat)
    requires forall i :: 0 <= i < |a| ==> !CanUnion(a[i], x)
    ensures Fill(a + b, x, n) == a + Fill(b, x, n)
    ensures Room(a + b, x) == Room(b, x)
    decreases |a|
  {
    if a == [] {
      assert a + b == b;
    } else {
      assert (a + b)[1..] == a[1..] + b;
      FillSkips(a[1..], b, x, n);
      if n > 0 {
        assert Fill(a + b, x, n) == [a[0]] + Fill(a[1..] + b, x, n);
      }
    }
  }
}
