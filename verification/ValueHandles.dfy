/**
  The owning handles of the dynamic value tree: constructors hand a handle to the caller, and the calls that
  build larger values take handles over.
 */
module ValueHandles {

  import opened Wrappers

  datatype Ret = Ok | InvalidArgument | TypeMismatch | FieldNotFound

  datatype Kind = Sequence | Array | Map | Union | Leaf

  /** A value; `id` names the allocation, so that two equal values are told apart.  A map keeps keys and values in turn. */
  datatype Node = Node(id: nat, kind: Kind, children: seq<Node>)

  /** What a handle, or a member of the data object, owns. */
  datatype Slot = Owns(node: Node) | Nothing

  /** `alive` is whether the data object exists; `freed` logs what has been freed; `next` counts the values ever made. */
  datatype Heap = Heap(handles: seq<Slot>, fields: seq<Slot>, alive: bool, freed: seq<Slot>, next: nat)

  datatype Op =
    | Make(kind: Kind)
    | MakeUnion(discriminator: nat, branch: nat)
    | Push(collection: nat, element: nat)
    | MapInsert(target: nat, key: nat, entry: nat)
    | Destroy(handle: nat)
    | SetValue(field: Option<string>, value: nat)
    | DestroyData

  /** How often the allocation `id` occurs in a value. */
  function Count(n: Node, id: nat): nat {
    (if n.id == id then 1 else 0) + CountAll(n.children, id)
  }

  function CountAll(ns: seq<Node>, id: nat): nat {
    if ns == [] then 0 else Count(ns[0], id) + CountAll(ns[1..], id)
  }

  function CountSlot(s: Slot, id: nat): nat {
    if s.Owns? then Count(s.node, id) else 0
  }

  function Owned(slots: seq<Slot>, id: nat): nat {
    if slots == [] then 0 else CountSlot(slots[0], id) + Owned(slots[1..], id)
  }

  predicate Live(h: Heap, handle: nat) {
    handle < |h.handles| && h.handles[handle].Owns?
  }

  /** What the caller has to respect: valid handles, and not the same one in two roles. */
  predicate Allowed(h: Heap, op: Op) {
    match op
    case Make(kind) => kind != Union
    case MakeUnion(d, v) => Live(h, d) && Live(h, v) && d != v
    case Push(c, e) => Live(h, c) && Live(h, e) && c != e
    case MapInsert(m, k, v) => Live(h, m) && Live(h, k) && Live(h, v) && m != k && m != v && k != v
    case Destroy(v) => Live(h, v)
    case SetValue(_, v) => Live(h, v) && h.alive
    case DestroyData => h.alive
  }

  /** The position of a member name in the type, or the number of members when it has none of that name. */
  function MemberIndex(members: seq<string>, name: string): (i: nat)
    ensures i <= |members| && (i < |members| <==> name in members)
    ensures i < |members| ==> members[i] == name
    ensures name !in members[..i]
  {
    if members == [] || members[0] == name then 0 else 1 + MemberIndex(members[1..], name)
  }

  function Take(slots: seq<Slot>, i: nat): seq<Slot>
    requires i < |slots|
  {
    slots[i := Nothing]
  }

  /** The value in a slot with more children. */
  function Grow(s: Slot, more: seq<Node>): Slot
    requires s.Owns?
  {
    Owns(s.node.(children := s.node.children + more))
  }

  function NoFields(n: nat): (slots: seq<Slot>)
    ensures |slots| == n && forall i :: 0 <= i < n ==> slots[i] == Nothing
  {
    seq(n, i => Nothing)
  }

  function Step(members: seq<string>, h: Heap, op: Op): (Heap, Ret)
    requires Allowed(h, op) && |h.fields| == |members|
  {
    match op
    case Make(kind) => (h.(handles := h.handles + [Owns(Node(h.next, kind, []))], next := h.next + 1), Ok)
    case MakeUnion(d, v) =>
      var parts := [h.handles[d].node, h.handles[v].node];
      (h.(handles := Take(Take(h.handles, d), v) + [Owns(Node(h.next, Union, parts))], next := h.next + 1), Ok)
    case Push(c, e) =>
      if h.handles[c].node.kind in {Sequence, Array} then
        (h.(handles := Take(h.handles, e)[c := Grow(h.handles[c], [h.handles[e].node])]), Ok)
      else (h, TypeMismatch)
    case MapInsert(m, k, v) =>
      if h.handles[m].node.kind == Map then
        var pair := [h.handles[k].node, h.handles[v].node];
        (h.(handles := Take(Take(h.handles, k), v)[m := Grow(h.handles[m], pair)]), Ok)
      else (h, TypeMismatch)
    case Destroy(v) => (h.(handles := Take(h.handles, v), freed := h.freed + [h.handles[v]]), Ok)
    case SetValue(None, _) => (h, InvalidArgument)
    case SetValue(Some(name), v) =>
      var i := MemberIndex(members, name);
      if i < |members| then
        (h.(handles := Take(h.handles, v), fields := h.fields[i := h.handles[v]], freed := h.freed + [h.fields[i]]), Ok)
      else
        (h.(handles := Take(h.handles, v), freed := h.freed + [h.handles[v]]), FieldNotFound)
    case DestroyData => (h.(fields := NoFields(|members|), alive := false, freed := h.freed + h.fields), Ok)
  }

  class Values {
    const members: seq<string>
    var handles: seq<Slot>
    var fields: seq<Slot>
    var alive: bool
    ghost var freed: seq<Slot>
    var next: nat

    ghost function State(): Heap
      reads this
    {
      Heap(handles, fields, alive, freed, next)
    }

    ghost predicate Valid()
      reads this
    {
      |fields| == |members|
    }

    constructor (members: seq<string>)
      ensures Valid() && this.members == members
      ensures State() == Start(members)
    {
      this.members := members;
      handles := [];
      fields := NoFields(|members|);
      alive := true;
      freed := [];
      next := 0;
    }

    /** The scalar, sequence, array and map constructors. */
    method Make(kind: Kind) returns (handle: nat, ret: Ret)
      requires Valid() && Allowed(State(), Op.Make(kind))
      modifies this
      ensures Valid() && (State(), ret) == Step(members, old(State()), Op.Make(kind))
      ensures ret == Ok && handles == old(handles) + [Owns(Node(old(next), kind, []))] && next == old(next) + 1
      ensures unchanged(`fields) && unchanged(`alive) && unchanged(`freed)
      ensures handle == old(|handles|)
    {
      handle, ret := |handles|, Ok;
      handles := handles + [Owns(Node(next, kind, []))];
      next := next + 1;
    }

    /** Reclaims a box and moves its value out. */
    method Unbox(handle: nat) returns (node: Node)
      requires Valid() && Live(State(), handle)
      modifies this`handles
      ensures Valid() && handles == Take(old(handles), handle) && Owns(node) == old(handles[handle])
    {
      node := handles[handle].node;
      handles := handles[handle := Nothing];
    }

    /** int2dds_dynamic_value_push */
    method Push(collection: nat, element: nat) returns (ret: Ret)
      requires Valid() && Allowed(State(), Op.Push(collection, element))
      modifies this
      ensures Valid() && (State(), ret) == Step(members, old(State()), Op.Push(collection, element))
      ensures var n, e := old(handles[collection]).node, old(handles[element]).node;
              if n.kind == Sequence || n.kind == Array
              then ret == Ok && handles == old(handles)[element := Nothing][collection := Owns(Node(n.id, n.kind, n.children + [e]))]
              else ret == TypeMismatch && handles == old(handles)
      ensures unchanged(`fields) && unchanged(`alive) && unchanged(`freed) && unchanged(`next)
    {
      var target := handles[collection].node;
      if target.kind != Sequence && target.kind != Array {
        return TypeMismatch;
      }
      var node := Unbox(element);
      handles := handles[collection := Owns(target.(children := target.children + [node]))];
      ret := Ok;
    }

    /** int2dds_dynamic_value_map_insert */
    method MapInsert(target: nat, key: nat, entry: nat) returns (ret: Ret)
      requires Valid() && Allowed(State(), Op.MapInsert(target, key, entry))
      modifies this
      ensures Valid() && (State(), ret) == Step(members, old(State()), Op.MapInsert(target, key, entry))
      ensures var n, k, v := old(handles[target]).node, old(handles[key]).node, old(handles[entry]).node;
              if n.kind == Map
              then && ret == Ok
                   && handles == old(handles)[key := Nothing][entry := Nothing][target := Owns(Node(n.id, Map, n.children + [k, v]))]
              else ret == TypeMismatch && handles == old(handles)
      ensures unchanged(`fields) && unchanged(`alive) && unchanged(`freed) && unchanged(`next)
    {
      var map' := handles[target].node;
      if map'.kind != Map {
        return TypeMismatch;
      }
      var k := Unbox(key);
      var v := Unbox(entry);
      handles := handles[target := Owns(map'.(children := map'.children + [k, v]))];
      ret := Ok;
    }

    /** int2dds_dynamic_value_union */
    method MakeUnion(discriminator: nat, branch: nat) returns (handle: nat, ret: Ret)
      requires Valid() && Allowed(State(), Op.MakeUnion(discriminator, branch))
      modifies this
      ensures Valid() && (State(), ret) == Step(members, old(State()), Op.MakeUnion(discriminator, branch))
      ensures var d, b := old(handles[discriminator]).node, old(handles[branch]).node;
              && ret == Ok && next == old(next) + 1
              && handles == old(handles)[discriminator := Nothing][branch := Nothing] + [Owns(Node(old(next), Union, [d, b]))]
      ensures unchanged(`fields) && unchanged(`alive) && unchanged(`freed)
      ensures handle == old(|handles|)
    {
      handle := |handles|;
      var d := Unbox(discriminator);
      var v := Unbox(branch);
      handles := handles + [Owns(Node(next, Union, [d, v]))];
      next := next + 1;
      ret := Ok;
    }

    /** int2dds_dynamic_value_destroy */
    method Destroy(handle: nat)
      requires Valid() && Allowed(State(), Op.Destroy(handle))
      modifies this
      ensures Valid() && State() == Step(members, old(State()), Op.Destroy(handle)).0
      ensures handles == old(handles)[handle := Nothing] && freed == old(freed) + [old(handles[handle])]
      ensures unchanged(`fields) && unchanged(`alive) && unchanged(`next)
    {
      var node := Unbox(handle);
      freed := freed + [Owns(node)];
    }

    /** int2dds_dynamic_data_set_value: the box is opened as soon as the field name is a string. */
    method SetValue(field: Option<string>, value: nat) returns (ret: Ret)
      requires Valid() && Allowed(State(), Op.SetValue(field, value))
      modifies this
      ensures Valid() && (State(), ret) == Step(members, old(State()), Op.SetValue(field, value))
      ensures field == None ==> ret == InvalidArgument && unchanged(this)
      ensures field.Some? ==> handles == old(handles)[value := Nothing] && unchanged(`alive) && unchanged(`next)
      ensures field.Some? && field.value !in members ==>
                ret == FieldNotFound && unchanged(`fields) && freed == old(freed) + [old(handles[value])]
      ensures field.Some? && field.value in members ==>
                exists i :: 0 <= i < |members| && members[i] == field.value && field.value !in members[..i] && ret == Ok
                            && fields == old(fields)[i := old(handles[value])] && freed == old(freed) + [old(fields[i])]
    {
      if field.None? {
        return InvalidArgument;
      }
      var node := Unbox(value);
      var i := MemberIndex(members, field.value);
      if i == |members| {
        freed := freed + [Owns(node)];
        return FieldNotFound;
      }
      freed := freed + [fields[i]];
      fields := fields[i := Owns(node)];
      ret := Ok;
    }

    /** int2dds_dynamic_data_destroy: the data object goes with all the values it holds. */
    method DestroyData()
      requires Valid() && Allowed(State(), Op.DestroyData)
      modifies this
      ensures Valid() && State() == Step(members, old(State()), Op.DestroyData).0
      ensures !alive && freed == old(freed) + old(fields) && (forall i :: 0 <= i < |fields| ==> fields[i] == Nothing)
      ensures unchanged(`handles) && unchanged(`next)
    {
      freed := freed + fields;
      fields := NoFields(|members|);
      alive := false;
    }

    /** Any calls in any order, by a caller who respects ownership. */
    method Play(ops: seq<Op>)
      requires Valid() && Legal(members, State(), ops)
      modifies this
      ensures Valid() && State() == Run(members, old(State()), ops)
    {
      var i := 0;
      while i < |ops|
        invariant i <= |ops| && Valid() && Legal(members, State(), ops[i..])
        invariant Run(members, State(), ops[i..]) == Run(members, old(State()), ops)
      {
        assert ops[i..][0] == ops[i] && ops[i..][1..] == ops[i + 1..];
        match ops[i] {
          case Make(kind) =>
            var _, _ := Make(kind);
          case MakeUnion(d, v) =>
            var _, _ := MakeUnion(d, v);
          case Push(c, e) =>
            var _ := Push(c, e);
          case MapInsert(m, k, v) =>
            var _ := MapInsert(m, k, v);
          case Destroy(v) => Destroy(v);
          case SetValue(field, v) =>
            var _ := SetValue(field, v);
          case DestroyData => DestroyData();
        }
        i := i + 1;
      }
    }
  }

  // ------------------------------------------------------------------------------------ conservation

  /** How often an allocation is found anywhere: under a handle, in the data object, or freed. */
  function Everywhere(h: Heap, id: nat): nat {
    Owned(h.handles, id) + Owned(h.fields, id) + Owned(h.freed, id)
  }

  lemma {:induction false} CountAllAppend(a: seq<Node>, b: seq<Node>, id: nat)
    ensures CountAll(a + b, id) == CountAll(a, id) + CountAll(b, id)
  {
    if a == [] {
      assert a + b == b;
    } else {
      assert (a + b)[0] == a[0] && (a + b)[1..] == a[1..] + b;
      CountAllAppend(a[1..], b, id);
    }
  }

  lemma {:induction false} OwnedAppend(slots: seq<Slot>, s: Slot, id: nat)
    ensures Owned(slots + [s], id) == Owned(slots, id) + CountSlot(s, id)
  {
    if slots == [] {
      assert slots + [s] == [s] && [s][1..] == [];
    } else {
      assert (slots + [s])[0] == slots[0] && (slots + [s])[1..] == slots[1..] + [s];
      OwnedAppend(slots[1..], s, id);
    }
  }

  lemma {:induction false} OwnedConcat(a: seq<Slot>, b: seq<Slot>, id: nat)
    ensures Owned(a + b, id) == Owned(a, id) + Owned(b, id)
  {
    if a == [] {
      assert a + b == b;
    } else {
      assert (a + b)[0] == a[0] && (a + b)[1..] == a[1..] + b;
      OwnedConcat(a[1..], b, id);
    }
  }

  /** What replacing the content of one slot changes. */
  lemma {:induction false} OwnedUpdate(slots: seq<Slot>, i: nat, s: Slot, id: nat)
    requires i < |slots|
    ensures Owned(slots[i := s], id) + CountSlot(slots[i], id) == Owned(slots, id) + CountSlot(s, id)
  {
    var next := slots[i := s];
    if i == 0 {
      assert next[1..] == slots[1..];
    } else {
      assert next[0] == slots[0] && next[1..] == slots[1..][i - 1 := s];
      OwnedUpdate(slots[1..], i - 1, s, id);
    }
  }

  lemma CountTwo(a: Node, b: Node, id: nat)
    ensures CountAll([a], id) == Count(a, id)
    ensures CountAll([a, b], id) == Count(a, id) + Count(b, id)
  {
    assert [a][1..] == [] && [a, b][1..] == [b] && [b][1..] == [];
  }

  /** Moving values under a handle neither makes nor loses one. */
  lemma PushKeeps(slots: seq<Slot>, c: nat, e: nat, id: nat)
    requires c < |slots| && e < |slots| && c != e && slots[c].Owns? && slots[e].Owns?
    ensures Owned(Take(slots, e)[c := Grow(slots[c], [slots[e].node])], id) == Owned(slots, id)
  {
    CountTwo(slots[e].node, slots[e].node, id);
    CountAllAppend(slots[c].node.children, [slots[e].node], id);
    OwnedUpdate(slots, e, Nothing, id);
    OwnedUpdate(Take(slots, e), c, Grow(slots[c], [slots[e].node]), id);
  }

  lemma TakeTwo(slots: seq<Slot>, i: nat, j: nat, id: nat)
    requires i < |slots| && j < |slots| && i != j && slots[i].Owns? && slots[j].Owns?
    ensures Owned(Take(Take(slots, i), j), id) + CountAll([slots[i].node, slots[j].node], id) == Owned(slots, id)
  {
    CountTwo(slots[i].node, slots[j].node, id);
    OwnedUpdate(slots, i, Nothing, id);
    OwnedUpdate(Take(slots, i), j, Nothing, id);
  }

  lemma InsertKeeps(slots: seq<Slot>, m: nat, k: nat, v: nat, id: nat)
    requires m < |slots| && k < |slots| && v < |slots| && m != k && m != v && k != v
    requires slots[m].Owns? && slots[k].Owns? && slots[v].Owns?
    ensures Owned(Take(Take(slots, k), v)[m := Grow(slots[m], [slots[k].node, slots[v].node])], id) == Owned(slots, id)
  {
    var pair := [slots[k].node, slots[v].node];
    TakeTwo(slots, k, v, id);
    CountAllAppend(slots[m].node.children, pair, id);
    OwnedUpdate(Take(Take(slots, k), v), m, Grow(slots[m], pair), id);
  }

  lemma UnionKeeps(slots: seq<Slot>, d: nat, v: nat, made: Node, id: nat)
    requires d < |slots| && v < |slots| && d != v && slots[d].Owns? && slots[v].Owns?
    requires made.children == [slots[d].node, slots[v].node]
    ensures Owned(Take(Take(slots, d), v) + [Owns(made)], id) == Owned(slots, id) + if id == made.id then 1 else 0
  {
    TakeTwo(slots, d, v, id);
    OwnedAppend(Take(Take(slots, d), v), Owns(made), id);
  }

  /** A step makes at most one new value and loses none. */
  lemma StepConserves(members: seq<string>, h: Heap, op: Op, id: nat)
    requires Allowed(h, op) && |h.fields| == |members|
    ensures var h' := Step(members, h, op).0;
            && h.next <= h'.next
            && Everywhere(h', id) == Everywhere(h, id) + if h.next <= id < h'.next then 1 else 0
  {
    match op
    case Make(kind) =>
      OwnedAppend(h.handles, Owns(Node(h.next, kind, [])), id);
      assert CountAll([], id) == 0;
    case MakeUnion(d, v) => UnionKeeps(h.handles, d, v, Node(h.next, Union, [h.handles[d].node, h.handles[v].node]), id);
    case Push(c, e) => PushKeeps(h.handles, c, e, id);
    case MapInsert(m, k, v) => InsertKeeps(h.handles, m, k, v, id);
    case Destroy(v) =>
      OwnedUpdate(h.handles, v, Nothing, id);
      OwnedAppend(h.freed, h.handles[v], id);
    case SetValue(None, _) =>
    case SetValue(Some(name), v) =>
      OwnedUpdate(h.handles, v, Nothing, id);
      var i := MemberIndex(members, name);
      if i < |members| {
        OwnedUpdate(h.fields, i, h.handles[v], id);
        OwnedAppend(h.freed, h.fields[i], id);
      } else {
        OwnedAppend(h.freed, h.handles[v], id);
      }
    case DestroyData =>
      OwnedConcat(h.freed, h.fields, id);
      NothingOwned(NoFields(|members|), id);
  }

  predicate Legal(members: seq<string>, h: Heap, ops: seq<Op>)
    requires |h.fields| == |members|
    decreases |ops|
  {
    ops == [] || (Allowed(h, ops[0]) && Legal(members, Step(members, h, ops[0]).0, ops[1..]))
  }

  function Run(members: seq<string>, h: Heap, ops: seq<Op>): Heap
    requires |h.fields| == |members| && Legal(members, h, ops)
    decreases |ops|
  {
    if ops == [] then h else Run(members, Step(members, h, ops[0]).0, ops[1..])
  }

  lemma {:induction false} RunConserves(members: seq<string>, h: Heap, ops: seq<Op>, id: nat)
    requires |h.fields| == |members| && Legal(members, h, ops)
    ensures var h' := Run(members, h, ops);
            && h.next <= h'.next
            && Everywhere(h', id) == Everywhere(h, id) + if h.next <= id < h'.next then 1 else 0
    decreases |ops|
  {
    if ops != [] {
      StepConserves(members, h, ops[0], id);
      RunConserves(members, Step(members, h, ops[0]).0, ops[1..], id);
    }
  }

  // ------------------------------------------------------------------------------------ what is built

  function Pushes(c: nat, es: seq<nat>): (ops: seq<Op>)
    ensures |ops| == |es|
  {
    seq(|es|, i requires 0 <= i < |es| => Push(c, es[i]))
  }

  predicate Apart(h: Heap, c: nat, es: seq<nat>) {
    && Live(h, c)
    && (forall i :: 0 <= i < |es| ==> Live(h, es[i]) && es[i] != c)
    && (forall i, j :: 0 <= i < j < |es| ==> es[i] != es[j])
  }

  function Nodes(h: Heap, es: seq<nat>): (ns: seq<Node>)
    requires forall i :: 0 <= i < |es| ==> Live(h, es[i])
    ensures |ns| == |es|
  {
    seq(|es|, i requires 0 <= i < |es| && Live(h, es[i]) => h.handles[es[i]].node)
  }

  /** Pushing values one after the other gives the collection them in that order, behind what it had. */
  lemma {:induction false} PushesInOrder(members: seq<string>, h: Heap, c: nat, es: seq<nat>)
    requires |h.fields| == |members| && Apart(h, c, es) && (h.handles[c].node.kind == Sequence || h.handles[c].node.kind == Array)
    ensures Legal(members, h, Pushes(c, es))
    ensures var n := h.handles[c].node;
            var h' := Run(members, h, Pushes(c, es));
            Live(h', c) && h'.handles[c].node == Node(n.id, n.kind, n.children + Nodes(h, es)) && h'.fields == h.fields && h'.freed == h.freed
    decreases |es|
  {
    var ops := Pushes(c, es);
    if es == [] {
      assert h.handles[c].node.children + Nodes(h, es) == h.handles[c].node.children;
    } else {
      assert ops[0] == Push(c, es[0]) && ops[1..] == Pushes(c, es[1..]);
      var h1 := Step(members, h, ops[0]).0;
      assert Apart(h1, c, es[1..]) && Nodes(h1, es[1..]) == Nodes(h, es)[1..];
      PushesInOrder(members, h1, c, es[1..]);
      var n := h.handles[c].node;
      assert n.children + [h.handles[es[0]].node] + Nodes(h, es)[1..] == n.children + Nodes(h, es);
    }
  }

  predicate Touches(members: seq<string>, op: Op, i: nat)
    requires i < |members|
  {
    op.DestroyData? || (op.SetValue? && op.field == Some(members[i]))
  }

  /** A member holds the value last set under its name, whatever calls follow on other things. */
  lemma {:induction false} LastSetCounts(members: seq<string>, h: Heap, value: nat, ops: seq<Op>, i: nat)
    requires |h.fields| == |members| && i < |members| && members[i] !in members[..i]
    requires Legal(members, h, [SetValue(Some(members[i]), value)] + ops)
    requires forall k :: 0 <= k < |ops| ==> !Touches(members, ops[k], i)
    ensures var h' := Run(members, h, [SetValue(Some(members[i]), value)] + ops);
            value < |h.handles| && i < |h'.fields| && h'.fields[i] == h.handles[value]
  {
    var op := SetValue(Some(members[i]), value);
    assert ([op] + ops)[0] == op && ([op] + ops)[1..] == ops;
    Untouched(members, Step(members, h, op).0, ops, i);
  }

  lemma {:induction false} Untouched(members: seq<string>, h: Heap, ops: seq<Op>, i: nat)
    requires |h.fields| == |members| && i < |members| && members[i] !in members[..i] && Legal(members, h, ops)
    requires forall k :: 0 <= k < |ops| ==> !Touches(members, ops[k], i)
    ensures |Run(members, h, ops).fields| == |members| && Run(members, h, ops).fields[i] == h.fields[i]
    decreases |ops|
  {
    if ops != [] {
      assert !Touches(members, ops[0], i);
      forall k | 0 <= k < |ops[1..]| ensures !Touches(members, ops[1..][k], i) {
        assert !Touches(members, ops[k + 1], i);
      }
      Untouched(members, Step(members, h, ops[0]).0, ops[1..], i);
    }
  }

  function Start(members: seq<string>): Heap {
    Heap([], NoFields(|members|), true, [], 0)
  }

  lemma {:induction false} NothingOwned(slots: seq<Slot>, id: nat)
    requires forall i :: 0 <= i < |slots| ==> slots[i] == Nothing
    ensures Owned(slots, id) == 0
  {
    if slots != [] {
      NothingOwned(slots[1..], id);
    }
  }

  /**
    Over every legal run from the start: each value ever made is under exactly one handle, or in exactly one
    field, or freed exactly once, and nothing else is anywhere.
   */
  lemma EveryValueHasOneOwner(members: seq<string>, ops: seq<Op>, id: nat)
    requires Legal(members, Start(members), ops)
    ensures var h := Run(members, Start(members), ops);
            Owned(h.handles, id) + Owned(h.fields, id) + Owned(h.freed, id) == if id < h.next then 1 else 0
  {
    NothingOwned(Start(members).fields, id);
    RunConserves(members, Start(members), ops, id);
  }

  /** A destroyed data object holds nothing. */
  predicate Cleared(h: Heap) {
    !h.alive ==> forall i :: 0 <= i < |h.fields| ==> h.fields[i] == Nothing
  }

  lemma {:induction false} StaysCleared(members: seq<string>, h: Heap, ops: seq<Op>)
    requires |h.fields| == |members| && Legal(members, h, ops) && Cleared(h)
    ensures Cleared(Run(members, h, ops))
    decreases |ops|
  {
    if ops != [] {
      StaysCleared(members, Step(members, h, ops[0]).0, ops[1..]);
    }
  }

  /** When every handle has been let go and the data object destroyed, every value was freed exactly once. */
  lemma NothingLeaks(members: seq<string>, ops: seq<Op>, id: nat)
    requires Legal(members, Start(members), ops)
    requires var h := Run(members, Start(members), ops);
             !h.alive && forall i :: 0 <= i < |h.handles| ==> h.handles[i] == Nothing
    ensures var h := Run(members, Start(members), ops);
            Owned(h.freed, id) == if id < h.next then 1 else 0
  {
    var h := Run(members, Start(members), ops);
    EveryValueHasOneOwner(members, ops, id);
    StaysCleared(members, Start(members), ops);
    NothingOwned(h.handles, id);
    NothingOwned(h.fields, id);
  }

  /**
    A failing call should leave its inputs with the caller.  It does, except that setting a member the type does
    not have frees the value: the handle that went in is gone although the call failed.
   */
  lemma FailureConsumesNothingIff(members: seq<string>, h: Heap, op: Op)
    requires Allowed(h, op) && |h.fields| == |members| && Step(members, h, op).1 != Ok
    ensures Step(members, h, op).0 == h <==> !(op.SetValue? && op.field.Some? && op.field.value !in members)
    ensures op.SetValue? && op.field.Some? && op.field.value !in members ==>
              !Live(Step(members, h, op).0, op.value) && Step(members, h, op).0.freed == h.freed + [h.handles[op.value]]
  {
    if op.SetValue? && op.field.Some? {
      assert Step(members, h, op).0.handles[op.value] == Nothing;
    }
  }
}
