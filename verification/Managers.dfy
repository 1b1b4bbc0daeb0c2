/** The entity manager (base/nManager.h) over its tables (base/nHashListTable.h). */
module Managers {
  // An entity is filed under three keys, in a hash table whose entries point into a list, which
  // gives the order of iteration, and in two plain hash tables.

  import opened Common

  /** An entity with its keys, which do not change while it is managed. */
  datatype Entity = Entity(obj: nat, id: nat, name: nat, tag: nat)

  /** A node of the list. */
  datatype Node = Node(key: nat, entity: Entity)

  /** ---- A hash table into a list ---- */

  datatype Table = Table(list: seq<Node>, hash: map<nat, Node>)

  ghost predicate NoDup(list: seq<Node>) {
    list != [] ==> list[0] !in list[1..] && NoDup(list[1..])
  }

  /** List and hash are in bijection. */
  ghost predicate Linked(t: Table) {
    && NoDup(t.list)
    && (forall k :: k in t.hash ==> t.hash[k] in t.list && t.hash[k].key == k)
    && (forall n :: n in t.list ==> n.key in t.hash && t.hash[n.key] == n)
  }

  function Erase(list: seq<Node>, n: Node): seq<Node> {
    if list == [] then [] else if list[0] == n then list[1..] else [list[0]] + Erase(list[1..], n)
  }

  function Insert(t: Table, n: Node): Table {
    if n.key in t.hash then t else Table([n] + t.list, t.hash[n.key := n])
  }

  function Delete(t: Table, key: nat): Table {
    if key !in t.hash then t else Table(Erase(t.list, t.hash[key]), t.hash - {key})
  }

  function Find(t: Table, key: nat): Option<Entity> {
    if key in t.hash then Some(t.hash[key].entity) else None
  }

  lemma {:induction false} EraseFacts(list: seq<Node>, n: Node)
    requires NoDup(list)
    ensures NoDup(Erase(list, n)) && forall x :: x in Erase(list, n) <==> x in list && x != n
  {
    if list != [] && list[0] != n {
      EraseFacts(list[1..], n);
      assert list == [list[0]] + list[1..];
      assert Erase(list, n)[1..] == Erase(list[1..], n);
    } else if list != [] {
      assert list == [list[0]] + list[1..];
    }
  }

  lemma {:induction false} EraseInFront(front: seq<Node>, rest: seq<Node>, n: Node)
    requires n in front
    ensures Erase(front + rest, n) == Erase(front, n) + rest
  {
    assert (front + rest)[1..] == front[1..] + rest;
    if front[0] != n {
      EraseInFront(front[1..], rest, n);
    }
  }

  lemma InsertLinks(t: Table, n: Node)
    requires Linked(t)
    ensures Linked(Insert(t, n))
  {
    if n.key !in t.hash {
      var list := [n] + t.list;
      assert list[1..] == t.list;
      assert n !in t.list;
    }
  }

  lemma DeleteLinks(t: Table, key: nat)
    requires Linked(t)
    ensures Linked(Delete(t, key))
  {
    if key in t.hash {
      EraseFacts(t.list, t.hash[key]);
    }
  }

  /** Taking out what has just been put in restores contents and order. */
  lemma InsertDelete(t: Table, n: Node)
    requires n.key !in t.hash
    ensures Delete(Insert(t, n), n.key) == t
  {
    var t' := Insert(t, n);
    assert t'.list[1..] == t.list;
    assert t'.hash - {n.key} == t.hash;
  }

  /** ---- The manager ---- */

  datatype Manager = Manager(byId: Table, byName: map<nat, Entity>, byTag: map<nat, Entity>)

  predicate FreeFor(m: Manager, e: Entity) {
    e.id !in m.byId.hash && e.name !in m.byName && e.tag !in m.byTag
  }

  function NodeOf(e: Entity): Node {
    Node(e.id, e)
  }

  /** Add to one index after the other, taking back what was done when one of them refuses. */
  function Add(m: Manager, e: Entity): Manager {
    if e.id in m.byId.hash then m
    else
      var t := Insert(m.byId, NodeOf(e));
      if e.name in m.byName then m.(byId := Delete(t, e.id))
      else
        var names := m.byName[e.name := e];
        if e.tag in m.byTag then Manager(Delete(t, e.id), names - {e.name}, m.byTag)
        else Manager(t, names, m.byTag[e.tag := e])
  }

  function Remove(m: Manager, e: Entity): Manager {
    Manager(Delete(m.byId, e.id), m.byName - {e.name}, m.byTag - {e.tag})
  }

  function Lookup(m: map<nat, Entity>, key: nat): Option<Entity> {
    if key in m then Some(m[key]) else None
  }

  /** The entity is in the index of its id, its name, its tag. */
  predicate InId(m: Manager, e: Entity) {
    Find(m.byId, e.id) == Some(e)
  }

  predicate InName(m: Manager, e: Entity) {
    Lookup(m.byName, e.name) == Some(e)
  }

  predicate InTag(m: Manager, e: Entity) {
    Lookup(m.byTag, e.tag) == Some(e)
  }

  /** List and hash fit together, every entry stands under its own key, and all indexes hold the same. */
  ghost predicate Same(m: Manager) {
    && Linked(m.byId)
    && (forall n :: n in m.byId.list ==> n.key == n.entity.id)
    && (forall k :: k in m.byName ==> m.byName[k].name == k)
    && (forall k :: k in m.byTag ==> m.byTag[k].tag == k)
    && (forall e :: InId(m, e) <==> InName(m, e))
    && (forall e :: InId(m, e) <==> InTag(m, e))
  }

  /** All or nothing: on refusal contents and order are as before. */
  lemma AddAllOrNothing(m: Manager, e: Entity)
    ensures Add(m, e) ==
            if FreeFor(m, e) then
              Manager(Table([NodeOf(e)] + m.byId.list, m.byId.hash[e.id := NodeOf(e)]),
                      m.byName[e.name := e], m.byTag[e.tag := e])
            else m
  {
    if e.id !in m.byId.hash {
      InsertDelete(m.byId, NodeOf(e));
      if e.name !in m.byName {
        assert m.byName[e.name := e] - {e.name} == m.byName;
      }
    }
  }

  lemma AddKeepsSame(m: Manager, e: Entity)
    requires Same(m)
    ensures Same(Add(m, e))
    ensures forall x :: InId(Add(m, e), x) <==> InId(m, x) || (x == e && FreeFor(m, e))
  {
    AddAllOrNothing(m, e);
    InsertLinks(m.byId, NodeOf(e));
    var m' := Add(m, e);
    if FreeFor(m, e) {
      forall x
        ensures InId(m', x) <==> InId(m, x) || x == e
        ensures InName(m', x) <==> InName(m, x) || x == e
        ensures InTag(m', x) <==> InTag(m, x) || x == e
      {
      }
    }
  }

  /** The three keys of e lead to the same entity, or none leads anywhere. */
  predicate KeysAgree(m: Manager, e: Entity) {
    Find(m.byId, e.id) == Lookup(m.byName, e.name) == Lookup(m.byTag, e.tag)
  }

  lemma RemoveLookups(m: Manager, e: Entity, x: Entity)
    requires Same(m)
    ensures var m' := Remove(m, e);
            && (InId(m', x) <==> InId(m, x) && x.id != e.id)
            && (InName(m', x) <==> InName(m, x) && x.name != e.name)
            && (InTag(m', x) <==> InTag(m, x) && x.tag != e.tag)
  {
  }

  /** Removal goes by the keys alone.  It keeps the indexes together exactly when the keys agree. */
  lemma RemoveKeepsSame(m: Manager, e: Entity)
    requires Same(m)
    ensures Same(Remove(m, e)) <==> KeysAgree(m, e)
    ensures KeysAgree(m, e) ==> forall x :: InId(Remove(m, e), x) <==> InId(m, x) && x.id != e.id
  {
    if KeysAgree(m, e) {
      RemoveAgreed(m, e);
    }
    if Same(Remove(m, e)) {
      SameNeedsAgreement(m, e);
    }
  }

  lemma RemoveAgreed(m: Manager, e: Entity)
    requires Same(m) && KeysAgree(m, e)
    ensures Same(Remove(m, e)) && forall x :: InId(Remove(m, e), x) <==> InId(m, x) && x.id != e.id
  {
    var m' := Remove(m, e);
    DeleteLinks(m.byId, e.id);
    RemovedKeys(m, e);
    forall x
      ensures InId(m', x) <==> InId(m, x) && x.id != e.id
      ensures InName(m', x) <==> InName(m, x) && x.name != e.name
      ensures InTag(m', x) <==> InTag(m, x) && x.tag != e.tag
    {
      RemoveLookups(m, e, x);
    }
    KeysLead(m, e);
  }

  lemma RemovedKeys(m: Manager, e: Entity)
    requires Same(m)
    ensures forall n :: n in Remove(m, e).byId.list ==> n.key == n.entity.id
  {
    if e.id in m.byId.hash {
      EraseFacts(m.byId.list, m.byId.hash[e.id]);
    }
  }

  /** What the keys lead to is in all three indexes. */
  lemma KeysLead(m: Manager, e: Entity)
    requires Same(m)
    ensures Find(m.byId, e.id).Some? ==> var x := Find(m.byId, e.id).value; x.id == e.id && InId(m, x)
    ensures Lookup(m.byName, e.name).Some? ==> var x := Lookup(m.byName, e.name).value; x.name == e.name && InId(m, x)
    ensures Lookup(m.byTag, e.tag).Some? ==> var x := Lookup(m.byTag, e.tag).value; x.tag == e.tag && InId(m, x)
    ensures forall x :: InId(m, x) ==> InName(m, x) && InTag(m, x)
  {
    if e.id in m.byId.hash {
      assert m.byId.hash[e.id] in m.byId.list;
    }
    if e.name in m.byName {
      assert InName(m, m.byName[e.name]);
    }
    if e.tag in m.byTag {
      assert InTag(m, m.byTag[e.tag]);
    }
  }

  lemma SameNeedsAgreement(m: Manager, e: Entity)
    requires Same(m) && Same(Remove(m, e))
    ensures KeysAgree(m, e)
  {
    var m' := Remove(m, e);
    KeysLead(m, e);
    var a, b, c := Find(m.byId, e.id), Lookup(m.byName, e.name), Lookup(m.byTag, e.tag);
    if a.Some? {
      RemoveLookups(m, e, a.value);
      assert !InName(m', a.value) && !InTag(m', a.value);
    }
    if b.Some? {
      RemoveLookups(m, e, b.value);
      assert !InId(m', b.value);
    }
    if c.Some? {
      RemoveLookups(m, e, c.value);
      assert !InId(m', c.value);
    }
  }

  /** ---- Whole runs ---- */

  datatype Op = AddOp(e: Entity) | RemoveOp(e: Entity)

  function Apply(m: Manager, op: Op): Manager {
    match op
    case AddOp(e) => Add(m, e)
    case RemoveOp(e) => Remove(m, e)
  }

  function Run(m: Manager, ops: seq<Op>): Manager {
    if ops == [] then m else Apply(Run(m, ops[..|ops| - 1]), ops[|ops| - 1])
  }

  /** No removal in the run strays: each meets keys that agree. */
  ghost predicate NoStray(m: Manager, ops: seq<Op>) {
    ops != [] ==>
      var front, last := ops[..|ops| - 1], ops[|ops| - 1];
      NoStray(m, front) && (last.RemoveOp? ==> KeysAgree(Run(m, front), last.e))
  }

  ghost predicate AlwaysSame(m: Manager, ops: seq<Op>) {
    Same(Run(m, ops)) && (ops != [] ==> AlwaysSame(m, ops[..|ops| - 1]))
  }

  /** Along a run the indexes hold the same after every step exactly when no removal strays. */
  lemma {:induction false} RunKeepsSame(m: Manager, ops: seq<Op>)
    requires Same(m)
    ensures NoStray(m, ops) <==> AlwaysSame(m, ops)
  {
    if ops != [] {
      var front, last := ops[..|ops| - 1], ops[|ops| - 1];
      RunKeepsSame(m, front);
      if AlwaysSame(m, front) {
        match last
        case AddOp(e) => AddKeepsSame(Run(m, front), e);
        case RemoveOp(e) => RemoveKeepsSame(Run(m, front), e);
      }
    }
  }

  /** ---- Visiting every entity ---- */

  function Entities(list: seq<Node>): (r: seq<Entity>)
    ensures |r| == |list| && forall k :: 0 <= k < |r| ==> r[k] == list[k].entity
  {
    if list == [] then [] else [list[0].entity] + Entities(list[1..])
  }

  /** The iterator after the one at n. */
  function NextOf(list: seq<Node>, n: Node): Option<Node> {
    if list == [] then None
    else if list[0] == n then (if |list| > 1 then Some(list[1]) else None)
    else NextOf(list[1..], n)
  }

  lemma {:induction false} NextInRest(front: seq<Node>, rest: seq<Node>)
    requires rest != [] && NoDup(front + rest)
    ensures NextOf(front + rest, rest[0]) == if |rest| > 1 then Some(rest[1]) else None
  {
    var list := front + rest;
    if front == [] {
      assert list == rest;
    } else {
      assert list[1..] == front[1..] + rest;
      assert rest[0] == list[1..][|front| - 1];
      NextInRest(front[1..], rest);
    }
  }

  /** What a callback does: it may remove managed entities, add others, and stop the visit. */
  datatype Reaction = Reaction(removes: seq<Entity>, adds: seq<Entity>, goOn: bool)

  function AddAll(m: Manager, es: seq<Entity>): Manager
    decreases |es|
  {
    if es == [] then m else AddAll(Add(m, es[0]), es[1..])
  }

  function RemoveManaged(m: Manager, e: Entity): Manager {
    if InId(m, e) then Remove(m, e) else m
  }

  function RemoveAll(m: Manager, es: seq<Entity>): Manager
    decreases |es|
  {
    if es == [] then m else RemoveAll(RemoveManaged(m, es[0]), es[1..])
  }

  function React(m: Manager, r: Reaction): Manager {
    AddAll(RemoveAll(m, r.removes), r.adds)
  }

  /** The nodes left when the given entities are removed. */
  function Drop(list: seq<Node>, es: seq<Entity>): (r: seq<Node>)
    ensures |r| <= |list|
  {
    if list == [] then []
    else if list[0].entity in es then Drop(list[1..], es)
    else [list[0]] + Drop(list[1..], es)
  }

  /** The entities given to callbacks when all say to go on: those of the list, in order, except those removed by
  a callback before their turn.  k callbacks have run. */
  function Tour(list: seq<Node>, k: nat, decide: (nat, Entity) -> Reaction): seq<Entity>
    decreases |list|
  {
    if list == [] then []
    else [list[0].entity] + Tour(Drop(list[1..], decide(k, list[0].entity).removes), k + 1, decide)
  }

  /** No callback removes the entity after its own, where the iterator already stands. */
  predicate SparesNext(list: seq<Node>, k: nat, decide: (nat, Entity) -> Reaction)
    decreases |list|
  {
    list != [] ==>
      var removes := decide(k, list[0].entity).removes;
      (|list| > 1 ==> list[1].entity !in removes) && SparesNext(Drop(list[1..], removes), k + 1, decide)
  }

  /** The callback applied to the entities of a list, one after the other. */
  function After(m: Manager, es: seq<Entity>, decide: (nat, Entity) -> Reaction): Manager {
    if es == [] then m
    else
      var k := |es| - 1;
      React(After(m, es[..k], decide), decide(k, es[k]))
  }

  /** Nothing behind the iterator changes: additions go in front, and so is what has been visited. */
  lemma {:induction false} AddAllKeepsRest(m: Manager, es: seq<Entity>, front: seq<Node>, rest: seq<Node>)
      returns (front': seq<Node>)
    requires Same(m) && m.byId.list == front + rest
    ensures Same(AddAll(m, es)) && AddAll(m, es).byId.list == front' + rest
    decreases |es|
  {
    if es == [] {
      front' := front;
    } else {
      AddKeepsSame(m, es[0]);
      AddAllOrNothing(m, es[0]);
      front' := if FreeFor(m, es[0]) then [NodeOf(es[0])] + front else front;
      assert Add(m, es[0]).byId.list == front' + rest;
      front' := AddAllKeepsRest(Add(m, es[0]), es[1..], front', rest);
    }
  }

  lemma {:induction false} EraseBehind(front: seq<Node>, rest: seq<Node>, n: Node)
    requires n !in front
    ensures Erase(front + rest, n) == front + Erase(rest, n)
  {
    if front == [] {
      assert front + rest == rest;
    } else {
      assert (front + rest)[1..] == front[1..] + rest;
      EraseBehind(front[1..], rest, n);
    }
  }

  lemma {:induction false} DropNone(list: seq<Node>, es: seq<Entity>)
    requires forall n :: n in list ==> n.entity !in es
    ensures Drop(list, es) == list
  {
    if list != [] {
      assert list == [list[0]] + list[1..];
      DropNone(list[1..], es);
    }
  }

  lemma {:induction false} DropIsErase(list: seq<Node>, n: Node)
    requires n in list && forall x :: x in list && x.entity == n.entity ==> x == n
    requires NoDup(list)
    ensures Drop(list, [n.entity]) == Erase(list, n)
  {
    if list[0] == n {
      assert forall x :: x in list[1..] ==> x.entity != n.entity;
      DropNone(list[1..], [n.entity]);
    } else {
      assert list == [list[0]] + list[1..];
      DropIsErase(list[1..], n);
    }
  }

  lemma {:induction false} DropTwice(list: seq<Node>, e: Entity, es: seq<Entity>)
    ensures Drop(Drop(list, [e]), es) == Drop(list, [e] + es)
  {
    if list != [] {
      DropTwice(list[1..], e, es);
      if list[0].entity != e {
        assert Drop(list, [e])[1..] == Drop(list[1..], [e]);
      }
    }
  }

  lemma {:induction false} NoDupBehind(front: seq<Node>, rest: seq<Node>)
    requires NoDup(front + rest)
    ensures NoDup(rest) && forall n :: n in front ==> n !in rest
  {
    var list := front + rest;
    if front == [] {
      assert list == rest;
    } else {
      assert list[1..] == front[1..] + rest;
      NoDupBehind(front[1..], rest);
    }
  }

  /** Removing an entity takes out what is behind the iterator only if it is that entity. */
  lemma RemoveKeepsRest(m: Manager, e: Entity, front: seq<Node>, rest: seq<Node>) returns (front': seq<Node>)
    requires Same(m) && m.byId.list == front + rest
    ensures Same(RemoveManaged(m, e)) && RemoveManaged(m, e).byId.list == front' + Drop(rest, [e])
  {
    front' := front;
    NoDupBehind(front, rest);
    EntityIsOneNode(m, e);
    if InId(m, e) {
      KeysLead(m, e);
      RemoveKeepsSame(m, e);
      var n := m.byId.hash[e.id];
      if n in front {
        EraseInFront(front, rest, n);
        front' := Erase(front, n);
        DropNone(rest, [e]);
      } else {
        EraseBehind(front, rest, n);
        DropIsErase(rest, n);
      }
    } else {
      DropNone(rest, [e]);
    }
  }

  lemma EntityIsOneNode(m: Manager, e: Entity)
    requires Same(m)
    ensures InId(m, e) ==> m.byId.hash[e.id] in m.byId.list && m.byId.hash[e.id].entity == e
    ensures forall n :: n in m.byId.list && n.entity == e ==> InId(m, e) && n == m.byId.hash[e.id]
  {
  }

  lemma {:induction false} RemoveAllKeepsRest(m: Manager, es: seq<Entity>, front: seq<Node>, rest: seq<Node>)
      returns (front': seq<Node>)
    requires Same(m) && m.byId.list == front + rest
    ensures Same(RemoveAll(m, es)) && RemoveAll(m, es).byId.list == front' + Drop(rest, es)
    decreases |es|
  {
    if es == [] {
      front' := front;
      DropNone(rest, []);
    } else {
      front' := RemoveKeepsRest(m, es[0], front, rest);
      front' := RemoveAllKeepsRest(RemoveManaged(m, es[0]), es[1..], front', Drop(rest, [es[0]]));
      DropTwice(rest, es[0], es[1..]);
      assert [es[0]] + es[1..] == es;
    }
  }

  lemma ReactKeepsRest(m: Manager, r: Reaction, front: seq<Node>, rest: seq<Node>) returns (front': seq<Node>)
    requires Same(m) && m.byId.list == front + rest
    ensures Same(React(m, r)) && React(m, r).byId.list == front' + Drop(rest, r.removes)
  {
    front' := RemoveAllKeepsRest(m, r.removes, front, rest);
    front' := AddAllKeepsRest(RemoveAll(m, r.removes), r.adds, front', Drop(rest, r.removes));
  }

  predicate AllGoOn(es: seq<Entity>, decide: (nat, Entity) -> Reaction) {
    es == [] ||
    var k := |es| - 1;
    AllGoOn(es[..k], decide) && decide(k, es[k]).goOn
  }

  lemma AfterMore(m: Manager, es: seq<Entity>, e: Entity, decide: (nat, Entity) -> Reaction)
    ensures After(m, es + [e], decide) == React(After(m, es, decide), decide(|es|, e))
    ensures AllGoOn(es + [e], decide) <==> AllGoOn(es, decide) && decide(|es|, e).goOn
  {
    assert (es + [e])[..|es|] == es;
  }

  /** The entities a callback removes are gone, and no others. */
  lemma {:induction false} RemoveAllMembers(m: Manager, es: seq<Entity>, x: Entity)
    requires Same(m)
    ensures Same(RemoveAll(m, es)) && (InId(RemoveAll(m, es), x) <==> InId(m, x) && x !in es)
    decreases |es|
  {
    if es != [] {
      var m' := RemoveManaged(m, es[0]);
      if InId(m, es[0]) {
        KeysLead(m, es[0]);
        RemoveKeepsSame(m, es[0]);
      }
      RemoveAllMembers(m', es[1..], x);
      assert es == [es[0]] + es[1..];
    }
  }

  /** One of its keys is in use. */
  predicate Known(m: Manager, e: Entity) {
    !FreeFor(m, e)
  }

  lemma KnownStays(m: Manager, e: Entity, x: Entity)
    ensures Known(m, x) ==> Known(Add(m, e), x)
    ensures Known(Add(m, e), e)
  {
    AddAllOrNothing(m, e);
  }

  /** Those it adds are there afterwards, unless a key of theirs was in use; nothing else is new, and nothing is
  lost. */
  lemma {:induction false} AddAllMembers(m: Manager, es: seq<Entity>, x: Entity)
    requires Same(m)
    ensures var m' := AddAll(m, es);
            && Same(m')
            && (InId(m, x) ==> InId(m', x)) && (InId(m', x) ==> InId(m, x) || x in es)
            && (Known(m, x) ==> Known(m', x)) && (x in es ==> Known(m', x))
    decreases |es|
  {
    if es != [] {
      AddKeepsSame(m, es[0]);
      KnownStays(m, es[0], x);
      AddAllMembers(Add(m, es[0]), es[1..], x);
      assert es == [es[0]] + es[1..];
    }
  }

  /** The visit after some entities: what is behind the iterator is still to be visited. */
  ghost predicate Visiting(m0: Manager, m: Manager, visited: seq<Entity>, iter: Option<Node>,
      front: seq<Node>, rest: seq<Node>, decide: (nat, Entity) -> Reaction)
  {
    && Same(m) && m.byId.list == front + rest
    && iter == (if rest == [] then None else Some(rest[0]))
    && m == After(m0, visited, decide)
    && SparesNext(rest, |visited|, decide)
    && Tour(m0.byId.list, 0, decide) == visited + Tour(rest, |visited|, decide)
  }

  /** One more entity; `iter` has been moved on before the callback runs. */
  lemma VisitStep(m0: Manager, m: Manager, visited: seq<Entity>, iter: Option<Node>,
      front: seq<Node>, rest: seq<Node>, decide: (nat, Entity) -> Reaction)
      returns (front': seq<Node>, rest': seq<Node>)
    requires Visiting(m0, m, visited, iter, front, rest, decide) && iter.Some?
    ensures |rest'| < |rest|
    ensures var e := iter.value.entity;
            Visiting(m0, React(m, decide(|visited|, e)), visited + [e], NextOf(m.byId.list, iter.value),
              front', rest', decide)
  {
    var n := rest[0];
    var r := decide(|visited|, n.entity);
    assert front + rest == (front + [n]) + rest[1..];
    NextInRest(front, rest);
    AfterMore(m0, visited, n.entity, decide);
    rest' := Drop(rest[1..], r.removes);
    front' := ReactKeepsRest(m, r, front + [n], rest[1..]);
    TourMore(visited, rest, decide);
    NextStays(rest, r.removes);
  }

  lemma TourMore(visited: seq<Entity>, rest: seq<Node>, decide: (nat, Entity) -> Reaction)
    requires rest != []
    ensures var e := rest[0].entity;
            visited + Tour(rest, |visited|, decide)
            == visited + [e] + Tour(Drop(rest[1..], decide(|visited|, e).removes), |visited| + 1, decide)
  {
    var e := rest[0].entity;
    Regroup(visited, e, Tour(Drop(rest[1..], decide(|visited|, e).removes), |visited| + 1, decide));
  }

  lemma Regroup(a: seq<Entity>, e: Entity, b: seq<Entity>)
    ensures a + ([e] + b) == a + [e] + b
  {
  }

  lemma NextStays(rest: seq<Node>, es: seq<Entity>)
    requires rest != [] && (|rest| > 1 ==> rest[1].entity !in es)
    ensures var rest' := Drop(rest[1..], es);
            (if rest' == [] then None else Some(rest'[0])) == if |rest| > 1 then Some(rest[1]) else None
  {
  }

  /** Every entity of the list is visited, or removed by a callback before its turn. */
  lemma {:induction false} TourMeets(list: seq<Node>, k: nat, decide: (nat, Entity) -> Reaction, n: Node)
    requires n in list
    ensures var tour := Tour(list, k, decide);
            n.entity in tour || exists j :: 0 <= j < |tour| && n.entity in decide(k + j, tour[j]).removes
    decreases |list|
  {
    var e := list[0].entity;
    var removes := decide(k, e).removes;
    var rest, tour := Drop(list[1..], removes), Tour(list, k, decide);
    assert tour[0] == e && tour[1..] == Tour(rest, k + 1, decide);
    if n.entity == e {
    } else if n.entity in removes {
      assert n.entity in decide(k + 0, tour[0]).removes;
    } else {
      assert n in list[1..];
      DropKeeps(list[1..], removes, n);
      TourMeets(rest, k + 1, decide, n);
      if j :| 0 <= j < |tour| - 1 && n.entity in decide(k + 1 + j, tour[1..][j]).removes {
        assert n.entity in decide(k + (j + 1), tour[j + 1]).removes;
      }
    }
  }

  lemma {:induction false} DropKeeps(list: seq<Node>, es: seq<Entity>, n: Node)
    ensures n in Drop(list, es) <==> n in list && n.entity !in es
  {
    if list != [] {
      DropKeeps(list[1..], es, n);
      assert list == [list[0]] + list[1..];
    }
  }

  /** Callbacks remove no entity whose turn is still to come. */
  ghost predicate SparesLater(list: seq<Node>, k: nat, decide: (nat, Entity) -> Reaction)
    decreases |list|
  {
    list != [] ==>
      && (forall n :: n in list[1..] ==> n.entity !in decide(k, list[0].entity).removes)
      && SparesLater(list[1..], k + 1, decide)
  }

  /** Then all are visited. */
  lemma {:induction false} TourIsAll(list: seq<Node>, k: nat, decide: (nat, Entity) -> Reaction)
    requires SparesLater(list, k, decide)
    ensures SparesNext(list, k, decide) && Tour(list, k, decide) == Entities(list)
    decreases |list|
  {
    if list != [] {
      DropNone(list[1..], decide(k, list[0].entity).removes);
      TourIsAll(list[1..], k + 1, decide);
    }
  }

  /** What is visited is an entity of the list. */
  lemma {:induction false} TourAt(list: seq<Node>, k: nat, decide: (nat, Entity) -> Reaction, j: nat) returns (n: Node)
    requires j < |Tour(list, k, decide)|
    ensures n in list && n.entity == Tour(list, k, decide)[j]
    decreases |list|
  {
    if j == 0 {
      n := list[0];
    } else {
      var removes := decide(k, list[0].entity).removes;
      n := TourAt(Drop(list[1..], removes), k + 1, decide, j - 1);
      DropKeeps(list[1..], removes, n);
    }
  }

  /** Nothing is visited twice. */
  lemma {:induction false} TourIsOnce(list: seq<Node>, k: nat, decide: (nat, Entity) -> Reaction, i: nat, j: nat)
    requires NoDup(list) && forall x, y :: x in list && y in list && x.entity == y.entity ==> x == y
    requires i < j < |Tour(list, k, decide)|
    ensures Tour(list, k, decide)[i] != Tour(list, k, decide)[j]
    decreases |list|
  {
    var removes := decide(k, list[0].entity).removes;
    var rest := Drop(list[1..], removes);
    assert list == [list[0]] + list[1..];
    if i == 0 {
      var n := TourAt(rest, k + 1, decide, j - 1);
      DropKeeps(list[1..], removes, n);
    } else {
      DropOnce(list[1..], removes);
      TourIsOnce(rest, k + 1, decide, i - 1, j - 1);
    }
  }

  lemma {:induction false} DropOnce(list: seq<Node>, es: seq<Entity>)
    requires NoDup(list)
    ensures NoDup(Drop(list, es)) && forall n :: n in Drop(list, es) ==> n in list
  {
    if list != [] {
      DropOnce(list[1..], es);
      assert list == [list[0]] + list[1..];
      if list[0].entity !in es {
        assert Drop(list, es)[1..] == Drop(list[1..], es);
      }
    }
  }

  /** ---- Removing all that meet a condition ---- */

  function Selected(list: seq<Node>, check: Entity -> bool): seq<Node> {
    if list == [] then []
    else if check(list[0].entity) then [list[0]] + Selected(list[1..], check)
    else Selected(list[1..], check)
  }

  function RemoveNodes(m: Manager, ns: seq<Node>): Manager
    decreases |ns|
  {
    if ns == [] then m else RemoveNodes(Remove(m, ns[0].entity), ns[1..])
  }

  lemma {:induction false} SelectedNodes(list: seq<Node>, check: Entity -> bool)
    requires NoDup(list)
    ensures NoDup(Selected(list, check))
    ensures forall n :: n in Selected(list, check) <==> n in list && check(n.entity)
  {
    if list != [] {
      SelectedNodes(list[1..], check);
      assert list == [list[0]] + list[1..];
      if check(list[0].entity) {
        assert Selected(list, check)[1..] == Selected(list[1..], check);
      }
    }
  }

  function EraseAll(list: seq<Node>, ns: seq<Node>): seq<Node>
    decreases |ns|
  {
    if ns == [] then list else EraseAll(Erase(list, ns[0]), ns[1..])
  }

  /** The nodes that do not meet the condition, in order. */
  function Kept(list: seq<Node>, check: Entity -> bool): seq<Node> {
    if list == [] then []
    else if check(list[0].entity) then Kept(list[1..], check)
    else [list[0]] + Kept(list[1..], check)
  }

  lemma {:induction false} EraseAllSkips(n: Node, list: seq<Node>, ns: seq<Node>)
    requires n !in ns
    ensures EraseAll([n] + list, ns) == [n] + EraseAll(list, ns)
    decreases |ns|
  {
    if ns != [] {
      assert ([n] + list)[1..] == list && n != ns[0];
      assert Erase([n] + list, ns[0]) == [n] + Erase(list, ns[0]);
      EraseAllSkips(n, Erase(list, ns[0]), ns[1..]);
    }
  }

  lemma {:induction false} SelectedErased(list: seq<Node>, check: Entity -> bool)
    requires NoDup(list)
    ensures EraseAll(list, Selected(list, check)) == Kept(list, check)
  {
    if list != [] {
      SelectedErased(list[1..], check);
      SelectedNodes(list[1..], check);
      assert list == [list[0]] + list[1..];
      if check(list[0].entity) {
        var ns := Selected(list, check);
        assert ns[1..] == Selected(list[1..], check) && Erase(list, ns[0]) == list[1..];
      } else {
        EraseAllSkips(list[0], list[1..], Selected(list[1..], check));
      }
    }
  }

  lemma {:induction false} NodesRemoved(m: Manager, ns: seq<Node>)
    requires Same(m) && NoDup(ns) && forall n :: n in ns ==> n in m.byId.list
    ensures Same(RemoveNodes(m, ns))
    ensures forall n :: n in RemoveNodes(m, ns).byId.list <==> n in m.byId.list && n !in ns
    ensures RemoveNodes(m, ns).byId.list == EraseAll(m.byId.list, ns)
    decreases |ns|
  {
    if ns != [] {
      var e := ns[0].entity;
      assert ns[0] in m.byId.list;
      KeysLead(m, e);
      RemoveKeepsSame(m, e);
      EraseFacts(m.byId.list, ns[0]);
      assert ns == [ns[0]] + ns[1..];
      NodesRemoved(Remove(m, e), ns[1..]);
    }
  }

  lemma SelectedRemoved(m: Manager, check: Entity -> bool)
    requires Same(m)
    ensures var m' := RemoveNodes(m, Selected(m.byId.list, check));
            && Same(m') && m'.byId.list == Kept(m.byId.list, check)
            && forall n :: n in m'.byId.list <==> n in m.byId.list && !check(n.entity)
  {
    SelectedNodes(m.byId.list, check);
    SelectedErased(m.byId.list, check);
    NodesRemoved(m, Selected(m.byId.list, check));
  }

  /** ---- The objects ---- */

  class EntityManager {
    var list: seq<Node>
    var hash: map<nat, Node>
    var byName: map<nat, Entity>
    var byTag: map<nat, Entity>

    ghost function Value(): Manager
      reads this
    {
      Manager(Table(list, hash), byName, byTag)
    }

    constructor ()
      ensures Value() == Manager(Table([], map[]), map[], map[]) && Same(Value())
    {
      list, hash, byName, byTag := [], map[], map[], map[];
    }

    method InsertNode(key: nat, e: Entity) returns (ok: bool)
      modifies this`list, this`hash
      ensures Table(list, hash) == Insert(old(Table(list, hash)), Node(key, e)) && ok == (key !in old(hash))
    {
      if key in hash {
        return false;
      }
      list := [Node(key, e)] + list;
      hash := hash[key := list[0]];
      ok := true;
    }

    method DeleteNode(key: nat) returns (count: nat)
      modifies this`list, this`hash
      ensures Table(list, hash) == Delete(old(Table(list, hash)), key) && count == if key in old(hash) then 1 else 0
    {
      if key !in hash {
        return 0;
      }
      list := Erase(list, hash[key]);
      hash := hash - {key};
      count := 1;
    }

    method AddEntity(e: Entity) returns (ok: bool)
      modifies this
      ensures Value() == Add(old(Value()), e) && ok == FreeFor(old(Value()), e)
    {
      AddAllOrNothing(Value(), e);
      var ok0 := InsertNode(e.id, e);
      if !ok0 {
        return false;
      }
      if e.name in byName {
        var _ := DeleteNode(e.id);
        return false;
      }
      byName := byName[e.name := e];
      if e.tag in byTag {
        var _ := DeleteNode(e.id);
        byName := byName - {e.name};
        return false;
      }
      byTag := byTag[e.tag := e];
      ok := true;
    }

    method RemoveEntity(e: Entity)
      modifies this
      ensures Value() == Remove(old(Value()), e)
    {
      var _ := DeleteNode(e.id);
      byName := byName - {e.name};
      byTag := byTag - {e.tag};
    }

    /** The callback at work. */
    method Callback(r: Reaction)
      modifies this
      ensures Value() == React(old(Value()), r)
    {
      RemoveMany(r.removes);
      AddMany(r.adds);
    }

    method RemoveMany(es: seq<Entity>)
      modifies this
      ensures Value() == RemoveAll(old(Value()), es)
    {
      ghost var m := Value();
      var k := 0;
      assert es[0..] == es;
      while k < |es|
        invariant 0 <= k <= |es|
        invariant RemoveAll(m, es) == RemoveAll(Value(), es[k..])
      {
        assert es[k..][0] == es[k] && es[k..][1..] == es[k + 1..];
        if es[k].id in hash && hash[es[k].id].entity == es[k] {
          RemoveEntity(es[k]);
        }
        k := k + 1;
      }
    }

    method AddMany(es: seq<Entity>)
      modifies this
      ensures Value() == AddAll(old(Value()), es)
    {
      ghost var m := Value();
      var k := 0;
      assert es[0..] == es;
      while k < |es|
        invariant 0 <= k <= |es|
        invariant AddAll(m, es) == AddAll(Value(), es[k..])
      {
        assert es[k..][0] == es[k] && es[k..][1..] == es[k + 1..];
        var _ := AddEntity(es[k]);
        k := k + 1;
      }
    }

    /** destroy: collect the entities that meet the condition, then remove each of them. */
    method Destroy(check: Entity -> bool) returns (recycled: seq<Entity>)
      requires Same(Value())
      modifies this
      ensures Same(Value()) && recycled == Entities(Selected(old(list), check))
      ensures list == Kept(old(list), check) && forall n :: n in list <==> n in old(list) && !check(n.entity)
    {
      ghost var m := Value();
      var recycleList := Selected(list, check);
      SelectedRemoved(m, check);
      recycled := Entities(recycleList);
      var i := 0;
      assert recycleList[0..] == recycleList;
      while i < |recycleList|
        invariant 0 <= i <= |recycleList|
        invariant RemoveNodes(m, recycleList) == RemoveNodes(Value(), recycleList[i..])
      {
        assert recycleList[i..][0] == recycleList[i] && recycleList[i..][1..] == recycleList[i + 1..];
        RemoveEntity(recycleList[i].entity);
        i := i + 1;
      }
    }

    /** execAll: the entities there at the start are given to callbacks in order, each once, although callbacks
    add entities and remove others: that one, earlier ones, added ones, and later ones, which are then
    not visited; only the next one, where the iterator stands, they must not remove.  The visit ends
    early only when a callback says so. */
    method ExecAll(decide: (nat, Entity) -> Reaction) returns (ok: bool, visited: seq<Entity>)
      requires Same(Value()) && SparesNext(list, 0, decide)
      modifies this
      ensures Same(Value()) && Value() == After(old(Value()), visited, decide)
      ensures visited <= Tour(old(list), 0, decide)
      ensures ok ==> visited == Tour(old(list), 0, decide)
      ensures if ok then AllGoOn(visited, decide)
              else visited != [] && AllGoOn(visited[..|visited| - 1], decide) && !AllGoOn(visited, decide)
    {
      ghost var m0, front, rest := Value(), [], list;
      visited := [];
      var iter := if list == [] then None else Some(list[0]);
      while iter.Some?
        invariant Visiting(m0, Value(), visited, iter, front, rest, decide) && AllGoOn(visited, decide)
        decreases |rest|
      {
        ghost var m := Value();
        front, rest := VisitStep(m0, m, visited, iter, front, rest, decide);
        var obj := iter.value.entity;
        iter := NextOf(list, iter.value);
        var r := decide(|visited|, obj);
        Callback(r);
        AfterMore(m0, visited, obj, decide);
        visited := visited + [obj];
        if !r.goOn {
          return false, visited;
        }
      }
      ok := true;
    }
  }
}
