/** The walk over a parse result before it is marshalled: what it reports, over any finite
    graph of containers, shared or cyclic. */
module ValueWalk {

  type Id = nat

  /** A key of a container or a string: whether its bytes are UTF-8 is all that matters. */
  datatype Text = Text(bytes: seq<nat>, utf8: bool)

  /** A value as it is marshalled: one emitted as it is (null, a number, bytes as base64); a
      string; an arbitrary-precision number; a struct or an array, inline, whose fields may be
      ones that are not emitted; or a pointer, map or slice, which has an identity. */
  datatype Value =
    | Plain
    | Str(text: Text)
    | BigNumber
    | Inline(fields: seq<Value>)
    | Unemitted
    | Ref(id: Id)

  datatype Entry = Entry(key: Text, value: Value)

  /** What stands behind an identity: a map with its keys in the order they are visited, a
      slice, a pointer's target, or the engine's object node, emitted in the order of its
      keys. */
  datatype Container =
    | Mapping(textKeys: bool, entries: seq<Entry>)
    | Slice(elems: seq<Value>)
    | Pointer(target: Value)
    | Ordered(keys: seq<Text>, vals: map<seq<nat>, Value>)

  type Heap = map<Id, Container>

  /** The reason given, or that there is none. */
  datatype Reason = Fine | NotUtf8 | NotExact | Cycle

  function TextReason(t: Text): Reason { if t.utf8 then Fine else NotUtf8 }

  // ---- the walk

  /** `value`, with the containers on the path. */
  function WalkValue(heap: Heap, path: set<Id>, v: Value): Reason
    decreases heap.Keys - path, 0, v
  {
    match v
    case Plain => Fine
    case Unemitted => Fine
    case Str(text) => TextReason(text)
    case BigNumber => NotExact
    case Inline(fields) => WalkFields(heap, path, fields)
    case Ref(id) =>
      if id in path then Cycle
      else if id !in heap then Fine
      else WalkContainer(heap, path + {id}, heap[id])
  }

  /** `fields`, and the elements of an array. */
  function WalkFields(heap: Heap, path: set<Id>, fields: seq<Value>): Reason
    decreases heap.Keys - path, 0, fields
  {
    if fields == [] then Fine
    else
      var why := WalkValue(heap, path, fields[0]);
      if why != Fine then why else WalkFields(heap, path, fields[1..])
  }

  /** `container`, once it is on the path. */
  function WalkContainer(heap: Heap, path: set<Id>, c: Container): Reason
    decreases heap.Keys - path, 2
  {
    match c
    case Mapping(textKeys, entries) => WalkEntries(heap, path, textKeys, entries)
    case Slice(elems) => WalkElems(heap, path, elems)
    case Pointer(target) => WalkValue(heap, path, target)
    case Ordered(keys, vals) => WalkOrdered(heap, path, c, keys)
  }

  function WalkEntries(heap: Heap, path: set<Id>, textKeys: bool, entries: seq<Entry>): Reason
    decreases heap.Keys - path, 1, entries
  {
    if entries == [] then Fine
    else if textKeys && !entries[0].key.utf8 then NotUtf8
    else
      var why := WalkValue(heap, path, entries[0].value);
      if why != Fine then why else WalkEntries(heap, path, textKeys, entries[1..])
  }

  function WalkElems(heap: Heap, path: set<Id>, elems: seq<Value>): Reason
    decreases heap.Keys - path, 1, elems
  {
    if elems == [] then Fine
    else
      var why := WalkValue(heap, path, elems[0]);
      if why != Fine then why else WalkElems(heap, path, elems[1..])
  }

  /** The value an object node has for a key: null where it has none. */
  function At(c: Container, key: Text): Value
    requires c.Ordered?
  {
    if key.bytes in c.vals then c.vals[key.bytes] else Plain
  }

  function WalkOrdered(heap: Heap, path: set<Id>, c: Container, keys: seq<Text>): Reason
    requires c.Ordered?
    decreases heap.Keys - path, 1, keys
  {
    if keys == [] then Fine
    else if !keys[0].utf8 then NotUtf8
    else
      var why := WalkValue(heap, path, At(c, keys[0]));
      if why != Fine then why else WalkOrdered(heap, path, c, keys[1..])
  }

  // ---- what a walk meets: the atoms emitted, and the containers behind them

  /** What is emitted of a value, up to the containers it refers to. */
  function Atoms(v: Value): seq<Value>
    decreases v
  {
    match v
    case Inline(fields) => FieldAtoms(fields)
    case Unemitted => []
    case _ => [v]
  }

  function FieldAtoms(fields: seq<Value>): seq<Value>
    decreases fields
  {
    if fields == [] then [] else Atoms(fields[0]) + FieldAtoms(fields[1..])
  }

  function EntryAtoms(textKeys: bool, entries: seq<Entry>): seq<Value> {
    if entries == [] then []
    else (if textKeys then [Str(entries[0].key)] else []) + Atoms(entries[0].value) + EntryAtoms(textKeys, entries[1..])
  }

  /** An object node's keys in their order, each with what its entry emits, or null. */
  function OrderedAtoms(vals: map<seq<nat>, Value>, keys: seq<Text>): seq<Value> {
    if keys == [] then []
    else
      [Str(keys[0])] + (if keys[0].bytes in vals then Atoms(vals[keys[0].bytes]) else [Plain])
      + OrderedAtoms(vals, keys[1..])
  }

  /** What a container emits, keys and all. */
  function Members(c: Container): seq<Value> {
    match c
    case Mapping(textKeys, entries) => EntryAtoms(textKeys, entries)
    case Slice(elems) => FieldAtoms(elems)
    case Pointer(target) => Atoms(target)
    case Ordered(keys, vals) => OrderedAtoms(vals, keys)
  }

  /** The walk over a list of atoms. */
  function WalkAtoms(heap: Heap, path: set<Id>, atoms: seq<Value>): Reason
    decreases heap.Keys - path, 1, atoms
  {
    if atoms == [] then Fine
    else
      var why := WalkAtom(heap, path, atoms[0]);
      if why != Fine then why else WalkAtoms(heap, path, atoms[1..])
  }

  function WalkAtom(heap: Heap, path: set<Id>, a: Value): Reason
    decreases heap.Keys - path, 0
  {
    match a
    case Str(text) => TextReason(text)
    case BigNumber => NotExact
    case Ref(id) =>
      if id in path then Cycle
      else if id !in heap then Fine
      else WalkAtoms(heap, path + {id}, Members(heap[id]))
    case _ => Fine
  }

  lemma {:induction false} AtomsConcat(heap: Heap, path: set<Id>, a: seq<Value>, b: seq<Value>)
    ensures WalkAtoms(heap, path, a + b)
         == if WalkAtoms(heap, path, a) != Fine then WalkAtoms(heap, path, a) else WalkAtoms(heap, path, b)
    decreases |a|
  {
    if a == [] {
      assert a + b == b;
    } else {
      assert (a + b)[0] == a[0] && (a + b)[1..] == a[1..] + b;
      AtomsConcat(heap, path, a[1..], b);
    }
  }

  lemma {:induction false} ValueIsAtoms(heap: Heap, path: set<Id>, v: Value)
    ensures WalkValue(heap, path, v) == WalkAtoms(heap, path, Atoms(v))
    decreases heap.Keys - path, 0, v
  {
    match v
    case Inline(fields) => FieldsAreAtoms(heap, path, fields);
    case Ref(id) =>
      if id !in path && id in heap {
        ContainerIsAtoms(heap, path + {id}, heap[id]);
      }
    case _ =>
  }

  lemma {:induction false} FieldsAreAtoms(heap: Heap, path: set<Id>, fields: seq<Value>)
    ensures WalkFields(heap, path, fields) == WalkAtoms(heap, path, FieldAtoms(fields))
    decreases heap.Keys - path, 0, fields
  {
    if fields != [] {
      ValueIsAtoms(heap, path, fields[0]);
      FieldsAreAtoms(heap, path, fields[1..]);
      AtomsConcat(heap, path, Atoms(fields[0]), FieldAtoms(fields[1..]));
    }
  }

  lemma {:induction false} ContainerIsAtoms(heap: Heap, path: set<Id>, c: Container)
    ensures WalkContainer(heap, path, c) == WalkAtoms(heap, path, Members(c))
    decreases heap.Keys - path, 2
  {
    match c
    case Mapping(textKeys, entries) => EntriesAreAtoms(heap, path, textKeys, entries);
    case Slice(elems) => ElemsAreAtoms(heap, path, elems);
    case Pointer(target) => ValueIsAtoms(heap, path, target);
    case Ordered(keys, vals) => OrderedIsAtoms(heap, path, c, keys);
  }

  lemma {:induction false} ElemsAreAtoms(heap: Heap, path: set<Id>, elems: seq<Value>)
    ensures WalkElems(heap, path, elems) == WalkAtoms(heap, path, FieldAtoms(elems))
    decreases heap.Keys - path, 1, elems
  {
    if elems != [] {
      ValueIsAtoms(heap, path, elems[0]);
      ElemsAreAtoms(heap, path, elems[1..]);
      AtomsConcat(heap, path, Atoms(elems[0]), FieldAtoms(elems[1..]));
    }
  }

  lemma KeyThenValue(heap: Heap, path: set<Id>, key: seq<Value>, value: seq<Value>, rest: seq<Value>)
    ensures WalkAtoms(heap, path, key + value + rest)
         == if WalkAtoms(heap, path, key) != Fine then WalkAtoms(heap, path, key)
            else if WalkAtoms(heap, path, value) != Fine then WalkAtoms(heap, path, value)
            else WalkAtoms(heap, path, rest)
  {
    AtomsConcat(heap, path, key + value, rest);
    AtomsConcat(heap, path, key, value);
  }

  lemma {:induction false} EntriesAreAtoms(heap: Heap, path: set<Id>, textKeys: bool, entries: seq<Entry>)
    ensures WalkEntries(heap, path, textKeys, entries) == WalkAtoms(heap, path, EntryAtoms(textKeys, entries))
    decreases heap.Keys - path, 1, entries
  {
    if entries != [] {
      var key := if textKeys then [Str(entries[0].key)] else [];
      ValueIsAtoms(heap, path, entries[0].value);
      EntriesAreAtoms(heap, path, textKeys, entries[1..]);
      KeyThenValue(heap, path, key, Atoms(entries[0].value), EntryAtoms(textKeys, entries[1..]));
    }
  }

  lemma {:induction false} OrderedIsAtoms(heap: Heap, path: set<Id>, c: Container, keys: seq<Text>)
    requires c.Ordered?
    ensures WalkOrdered(heap, path, c, keys) == WalkAtoms(heap, path, OrderedAtoms(c.vals, keys))
    decreases heap.Keys - path, 1, keys
  {
    if keys != [] {
      ValueIsAtoms(heap, path, At(c, keys[0]));
      OrderedIsAtoms(heap, path, c, keys[1..]);
      KeyThenValue(heap, path, [Str(keys[0])], Atoms(At(c, keys[0])), OrderedAtoms(c.vals, keys[1..]));
    }
  }

  // ---- paths from the root

  /** A path: each container is referred to by what the one before it emits. */
  predicate IsPath(heap: Heap, atoms: seq<Value>, p: seq<Id>)
    decreases |p|
  {
    p == [] || (Ref(p[0]) in atoms && p[0] in heap && IsPath(heap, Members(heap[p[0]]), p[1..]))
  }

  /** What is emitted where a path ends. */
  function EndAtoms(heap: Heap, atoms: seq<Value>, p: seq<Id>): seq<Value>
    decreases |p|
  {
    if p == [] then atoms
    else if p[0] !in heap then []
    else EndAtoms(heap, Members(heap[p[0]]), p[1..])
  }

  predicate Repeats(p: seq<Id>) {
    exists i, j :: 0 <= i < j < |p| && p[i] == p[j]
  }

  predicate Meets(path: set<Id>, p: seq<Id>) {
    exists i :: 0 <= i < |p| && p[i] in path
  }

  /** Why a path makes the walk refuse. */
  ghost predicate Blames(heap: Heap, path: set<Id>, atoms: seq<Value>, p: seq<Id>, why: Reason) {
    match why
    case Fine => false
    case Cycle => Repeats(p) || Meets(path, p)
    case NotUtf8 => exists t :: Str(t) in EndAtoms(heap, atoms, p) && !t.utf8
    case NotExact => BigNumber in EndAtoms(heap, atoms, p)
  }

  /** References lead to containers there are. */
  ghost predicate Closed(heap: Heap, atoms: seq<Value>) {
    forall id :: Ref(id) in atoms ==> id in heap
  }

  ghost predicate ClosedHeap(heap: Heap) {
    forall id :: id in heap ==> Closed(heap, Members(heap[id]))
  }

  lemma BlameThrough(heap: Heap, path: set<Id>, atoms: seq<Value>, id: Id, p: seq<Id>, why: Reason)
    requires id in heap && id !in path && Blames(heap, path + {id}, Members(heap[id]), p, why)
    ensures Blames(heap, path, atoms, [id] + p, why)
  {
    var q := [id] + p;
    assert q[1..] == p;
    if why == Cycle {
      if Repeats(p) {
        var i, j :| 0 <= i < j < |p| && p[i] == p[j];
        assert q[i + 1] == q[j + 1];
      } else {
        var i :| 0 <= i < |p| && p[i] in path + {id};
        assert q[i + 1] == p[i] && q[0] == id;
      }
    }
  }

  /** A reason given is the truth: some path has it. */
  lemma {:induction false} ReasonIsReal(heap: Heap, path: set<Id>, atoms: seq<Value>) returns (p: seq<Id>)
    requires ClosedHeap(heap) && Closed(heap, atoms) && WalkAtoms(heap, path, atoms) != Fine
    ensures IsPath(heap, atoms, p) && Blames(heap, path, atoms, p, WalkAtoms(heap, path, atoms))
    decreases heap.Keys - path, atoms
  {
    var a := atoms[0];
    if WalkAtom(heap, path, a) == Fine {
      p := ReasonIsReal(heap, path, atoms[1..]);
    } else {
      match a
      case Ref(id) =>
        if id in path {
          p := [id];
          assert p[0] in path;
        } else {
          var rest := ReasonIsReal(heap, path + {id}, Members(heap[id]));
          BlameThrough(heap, path, atoms, id, rest, WalkAtoms(heap, path, atoms));
          p := [id] + rest;
          assert p[1..] == rest;
        }
      case _ => p := [];
    }
  }

  /** A walk that gives no reason finds nothing on any path. */
  lemma {:induction false} FineIsClear(heap: Heap, path: set<Id>, atoms: seq<Value>, p: seq<Id>, why: Reason)
    requires WalkAtoms(heap, path, atoms) == Fine && IsPath(heap, atoms, p)
    ensures !Blames(heap, path, atoms, p, why)
    decreases |p|
  {
    if p == [] {
      forall a | a in atoms ensures WalkAtom(heap, path, a) == Fine {
        FineAtom(heap, path, atoms, a);
      }
    } else {
      FineAtom(heap, path, atoms, Ref(p[0]));
      FineIsClear(heap, path + {p[0]}, Members(heap[p[0]]), p[1..], why);
    }
  }

  lemma {:induction false} FineAtom(heap: Heap, path: set<Id>, atoms: seq<Value>, a: Value)
    requires WalkAtoms(heap, path, atoms) == Fine && a in atoms
    ensures WalkAtom(heap, path, a) == Fine
  {
    if a != atoms[0] {
      FineAtom(heap, path, atoms[1..], a);
    }
  }

  /** Nothing repeats on a path from the root, and every string, key and number emitted at the
      end of one is safe. */
  ghost predicate Safe(heap: Heap, root: Value) {
    forall p :: IsPath(heap, Atoms(root), p) ==>
      && !Repeats(p)
      && (forall t :: Str(t) in EndAtoms(heap, Atoms(root), p) ==> t.utf8)
      && BigNumber !in EndAtoms(heap, Atoms(root), p)
  }

  /** The walk gives no reason exactly when a value is safe. */
  lemma WalkIsExact(heap: Heap, root: Value)
    requires ClosedHeap(heap) && Closed(heap, Atoms(root))
    ensures WalkValue(heap, {}, root) == Fine <==> Safe(heap, root)
  {
    var atoms := Atoms(root);
    ValueIsAtoms(heap, {}, root);
    if WalkAtoms(heap, {}, atoms) == Fine {
      forall p | IsPath(heap, atoms, p)
        ensures !Repeats(p) && (forall t :: Str(t) in EndAtoms(heap, atoms, p) ==> t.utf8)
        ensures BigNumber !in EndAtoms(heap, atoms, p)
      {
        FineIsClear(heap, {}, atoms, p, Cycle);
        FineIsClear(heap, {}, atoms, p, NotUtf8);
        FineIsClear(heap, {}, atoms, p, NotExact);
      }
    } else {
      var p := ReasonIsReal(heap, {}, atoms);
      assert !Meets({}, p);
    }
  }

  // ---- what is safe, part by part

  /** A key a container emits. */
  predicate HasKey(c: Container, key: Text) {
    match c
    case Mapping(textKeys, entries) => textKeys && exists e :: e in entries && e.key == key
    case Ordered(keys, _) => key in keys
    case _ => false
  }

  /** A value a container emits: of an object node the entry of one of its keys. */
  predicate HasPart(c: Container, v: Value) {
    match c
    case Mapping(_, entries) => exists e :: e in entries && e.value == v
    case Slice(elems) => v in elems
    case Pointer(target) => v == target
    case Ordered(keys, vals) => exists key :: key in keys && key.bytes in vals && v == vals[key.bytes]
  }

  lemma {:induction false} FieldAmong(fields: seq<Value>, v: Value, a: Value)
    requires v in fields && a in Atoms(v)
    ensures a in FieldAtoms(fields)
  {
    if v != fields[0] {
      FieldAmong(fields[1..], v, a);
    }
  }

  lemma {:induction false} EntryAmong(textKeys: bool, entries: seq<Entry>, e: Entry, a: Value)
    requires e in entries && (a in Atoms(e.value) || (textKeys && a == Str(e.key)))
    ensures a in EntryAtoms(textKeys, entries)
  {
    if e != entries[0] {
      EntryAmong(textKeys, entries[1..], e, a);
    }
  }

  lemma {:induction false} OrderedAmong(vals: map<seq<nat>, Value>, keys: seq<Text>, key: Text, a: Value)
    requires key in keys && (a == Str(key) || (key.bytes in vals && a in Atoms(vals[key.bytes])))
    ensures a in OrderedAtoms(vals, keys)
  {
    if key != keys[0] {
      OrderedAmong(vals, keys[1..], key, a);
    }
  }

  /** What a part emits, and each key, is among a container's members. */
  lemma PartAmong(c: Container, v: Value, a: Value)
    requires HasPart(c, v) && a in Atoms(v)
    ensures a in Members(c)
  {
    match c
    case Mapping(textKeys, entries) =>
      var e :| e in entries && e.value == v;
      EntryAmong(textKeys, entries, e, a);
    case Slice(elems) => FieldAmong(elems, v, a);
    case Pointer(target) =>
    case Ordered(keys, vals) =>
      var key :| key in keys && key.bytes in vals && v == vals[key.bytes];
      OrderedAmong(vals, keys, key, a);
  }

  lemma KeyAmong(c: Container, key: Text)
    requires HasKey(c, key)
    ensures Str(key) in Members(c)
  {
    match c
    case Mapping(textKeys, entries) =>
      var e :| e in entries && e.key == key;
      EntryAmong(textKeys, entries, e, Str(key));
    case Ordered(keys, vals) => OrderedAmong(vals, keys, key, Str(key));
    case _ =>
  }

  /** A path into a part is one into whatever emits what the part does. */
  lemma PathWidens(heap: Heap, part: seq<Value>, whole: seq<Value>, p: seq<Id>)
    requires IsPath(heap, part, p) && forall a :: a in part ==> a in whole
    ensures IsPath(heap, whole, p)
    ensures forall a :: a in EndAtoms(heap, part, p) ==> a in EndAtoms(heap, whole, p)
  {
  }

  /** Nothing is safe that emits what is not. */
  lemma SafeNarrows(heap: Heap, part: Value, whole: Value)
    requires Safe(heap, whole) && forall a :: a in Atoms(part) ==> a in Atoms(whole)
    ensures Safe(heap, part)
  {
    forall p | IsPath(heap, Atoms(part), p)
      ensures !Repeats(p) && (forall t :: Str(t) in EndAtoms(heap, Atoms(part), p) ==> t.utf8)
      ensures BigNumber !in EndAtoms(heap, Atoms(part), p)
    {
      PathWidens(heap, Atoms(part), Atoms(whole), p);
    }
  }

  lemma PathThrough(heap: Heap, id: Id, p: seq<Id>)
    requires id in heap && IsPath(heap, Members(heap[id]), p)
    ensures var q := [id] + p;
            && IsPath(heap, [Ref(id)], q) && (Repeats(p) ==> Repeats(q))
            && EndAtoms(heap, [Ref(id)], q) == EndAtoms(heap, Members(heap[id]), p)
  {
    var q := [id] + p;
    assert q[1..] == p;
    if Repeats(p) {
      var i, j :| 0 <= i < j < |p| && p[i] == p[j];
      assert q[i + 1] == q[j + 1];
    }
  }

  /** Each part of a safe container is safe, the entries of an object node's keys among them. */
  lemma PartIsSafe(heap: Heap, id: Id, v: Value)
    requires id in heap && Safe(heap, Ref(id)) && HasPart(heap[id], v)
    ensures Safe(heap, v)
  {
    var members := Members(heap[id]);
    forall a | a in Atoms(v) ensures a in members {
      PartAmong(heap[id], v, a);
    }
    forall p | IsPath(heap, Atoms(v), p)
      ensures !Repeats(p) && (forall t :: Str(t) in EndAtoms(heap, Atoms(v), p) ==> t.utf8)
      ensures BigNumber !in EndAtoms(heap, Atoms(v), p)
    {
      PathWidens(heap, Atoms(v), members, p);
      PathThrough(heap, id, p);
      assert IsPath(heap, Atoms(Ref(id)), [id] + p);
    }
  }

  lemma KeyIsSafe(heap: Heap, id: Id, key: Text)
    requires id in heap && Safe(heap, Ref(id)) && HasKey(heap[id], key)
    ensures key.utf8
  {
    KeyAmong(heap[id], key);
    PathThrough(heap, id, []);
    assert IsPath(heap, Atoms(Ref(id)), [id] + []);
  }

  /** What is emitted inline is safe only if each field is. */
  lemma FieldIsSafe(heap: Heap, fields: seq<Value>, v: Value)
    requires Safe(heap, Inline(fields)) && v in fields
    ensures Safe(heap, v)
  {
    forall a | a in Atoms(v) ensures a in Atoms(Inline(fields)) {
      FieldAmong(fields, v, a);
    }
    SafeNarrows(heap, v, Inline(fields));
  }

  lemma {:induction false} FieldFrom(fields: seq<Value>, a: Value) returns (v: Value)
    requires a in FieldAtoms(fields)
    ensures v in fields && a in Atoms(v)
  {
    if a in Atoms(fields[0]) {
      v := fields[0];
    } else {
      v := FieldFrom(fields[1..], a);
    }
  }

  lemma {:induction false} EntryFrom(textKeys: bool, entries: seq<Entry>, a: Value) returns (e: Entry)
    requires a in EntryAtoms(textKeys, entries)
    ensures e in entries && (a in Atoms(e.value) || (textKeys && a == Str(e.key)))
  {
    if a in Atoms(entries[0].value) || (textKeys && a == Str(entries[0].key)) {
      e := entries[0];
    } else {
      e := EntryFrom(textKeys, entries[1..], a);
    }
  }

  lemma {:induction false} OrderedFrom(vals: map<seq<nat>, Value>, keys: seq<Text>, a: Value) returns (key: Text)
    requires a in OrderedAtoms(vals, keys)
    ensures key in keys && (a == Str(key) || a == Plain || (key.bytes in vals && a in Atoms(vals[key.bytes])))
  {
    var first := if keys[0].bytes in vals then Atoms(vals[keys[0].bytes]) else [Plain];
    if a == Str(keys[0]) || a in first {
      key := keys[0];
    } else {
      key := OrderedFrom(vals, keys[1..], a);
    }
  }

  /** A member is a key, null, or what a part emits. */
  predicate FromPart(c: Container, a: Value, v: Value) { HasPart(c, v) && a in Atoms(v) }

  lemma MemberFrom(c: Container, a: Value)
    requires a in Members(c)
    ensures a == Plain || (a.Str? && HasKey(c, a.text)) || exists v :: FromPart(c, a, v)
  {
    match c
    case Mapping(textKeys, entries) =>
      var e := EntryFrom(textKeys, entries, a);
      assert a in Atoms(e.value) ==> FromPart(c, a, e.value);
    case Slice(elems) =>
      var v := FieldFrom(elems, a);
      assert FromPart(c, a, v);
    case Pointer(target) => assert FromPart(c, a, target);
    case Ordered(keys, vals) =>
      var key := OrderedFrom(vals, keys, a);
      assert key.bytes in vals && a in Atoms(vals[key.bytes]) ==> FromPart(c, a, vals[key.bytes]);
  }

  lemma RepeatsFront(id: Id, p: seq<Id>)
    ensures Repeats([id] + p) <==> id in p || Repeats(p)
  {
    var q := [id] + p;
    if i, j :| 0 <= i < j < |q| && q[i] == q[j] {
      assert q[j] == p[j - 1] && (i > 0 ==> q[i] == p[i - 1]);
    }
    if id in p {
      var i :| 0 <= i < |p| && p[i] == id;
      assert q[0] == q[i + 1];
    }
    if i, j :| 0 <= i < j < |p| && p[i] == p[j] {
      assert q[i + 1] == q[j + 1];
    }
  }

  /** No path from a container leads back to it. */
  ghost predicate NoReturn(heap: Heap, id: Id)
    requires id in heap
  {
    forall p :: IsPath(heap, Members(heap[id]), p) ==> id !in p
  }

  lemma NeverReturns(heap: Heap, id: Id)
    requires id in heap && Safe(heap, Ref(id))
    ensures NoReturn(heap, id)
  {
    forall p | IsPath(heap, Members(heap[id]), p) ensures id !in p {
      PathThrough(heap, id, p);
      var q := [id] + p;
      assert IsPath(heap, Atoms(Ref(id)), q);
      RepeatsFront(id, p);
    }
  }

  ghost predicate KeysAreText(c: Container) { forall key :: HasKey(c, key) ==> key.utf8 }

  ghost predicate PartsAreSafe(heap: Heap, c: Container) { forall v :: HasPart(c, v) ==> Safe(heap, v) }

  /** A path into a container whose parts are safe finds nothing wrong. */
  lemma PartsClear(heap: Heap, c: Container, p: seq<Id>)
    requires KeysAreText(c) && PartsAreSafe(heap, c) && IsPath(heap, Members(c), p)
    ensures !Repeats(p) && BigNumber !in EndAtoms(heap, Members(c), p)
    ensures forall t :: Str(t) in EndAtoms(heap, Members(c), p) ==> t.utf8
  {
    if p == [] {
      forall a | a in Members(c) ensures a != BigNumber && (a.Str? ==> a.text.utf8) {
        MemberFrom(c, a);
        if v :| FromPart(c, a, v) {
          assert Safe(heap, v) && IsPath(heap, Atoms(v), []);
        }
      }
    } else {
      MemberFrom(c, Ref(p[0]));
      var v :| FromPart(c, Ref(p[0]), v);
      assert Safe(heap, v) && IsPath(heap, Atoms(v), p);
    }
  }

  /** A container is safe exactly when its keys are text, each of its parts is safe, and no path
      leads back to it. */
  lemma ContainerIsSafe(heap: Heap, id: Id)
    requires id in heap
    ensures Safe(heap, Ref(id)) <==> KeysAreText(heap[id]) && PartsAreSafe(heap, heap[id]) && NoReturn(heap, id)
  {
    var c := heap[id];
    if Safe(heap, Ref(id)) {
      NeverReturns(heap, id);
      forall key | HasKey(c, key) ensures key.utf8 {
        KeyIsSafe(heap, id, key);
      }
      forall v | HasPart(c, v) ensures Safe(heap, v) {
        PartIsSafe(heap, id, v);
      }
    }
    if KeysAreText(c) && PartsAreSafe(heap, c) && NoReturn(heap, id) {
      forall q | IsPath(heap, Atoms(Ref(id)), q)
        ensures !Repeats(q) && (forall t :: Str(t) in EndAtoms(heap, Atoms(Ref(id)), q) ==> t.utf8)
        ensures BigNumber !in EndAtoms(heap, Atoms(Ref(id)), q)
      {
        ReturnClear(heap, id, q);
      }
    }
  }

  lemma ReturnClear(heap: Heap, id: Id, q: seq<Id>)
    requires id in heap && KeysAreText(heap[id]) && PartsAreSafe(heap, heap[id]) && NoReturn(heap, id)
    requires IsPath(heap, [Ref(id)], q)
    ensures !Repeats(q) && BigNumber !in EndAtoms(heap, [Ref(id)], q)
    ensures forall t :: Str(t) in EndAtoms(heap, [Ref(id)], q) ==> t.utf8
  {
    if q != [] {
      var p := q[1..];
      assert q == [id] + p;
      PartsClear(heap, heap[id], p);
      RepeatsFront(id, p);
    }
  }

  lemma FieldsAreSafe(heap: Heap, fields: seq<Value>)
    ensures Safe(heap, Inline(fields)) <==> forall v :: v in fields ==> Safe(heap, v)
  {
    if Safe(heap, Inline(fields)) {
      forall v | v in fields ensures Safe(heap, v) {
        FieldIsSafe(heap, fields, v);
      }
    }
    if forall v :: v in fields ==> Safe(heap, v) {
      var c := Slice(fields);
      assert Members(c) == Atoms(Inline(fields)) && PartsAreSafe(heap, c) && KeysAreText(c);
      forall p | IsPath(heap, Atoms(Inline(fields)), p)
        ensures !Repeats(p) && (forall t :: Str(t) in EndAtoms(heap, Atoms(Inline(fields)), p) ==> t.utf8)
        ensures BigNumber !in EndAtoms(heap, Atoms(Inline(fields)), p)
      {
        PartsClear(heap, c, p);
      }
    }
  }

  /** A string or a number emitted as it stands. */
  lemma LeafIsSafe(heap: Heap, v: Value)
    requires v.Str? || v.BigNumber? || v.Plain? || v.Unemitted?
    ensures Safe(heap, v) <==> v.Plain? || v.Unemitted? || (v.Str? && v.text.utf8)
  {
    assert IsPath(heap, Atoms(v), []);
    assert Atoms(v) == if v.Unemitted? then [] else [v];
    forall p | IsPath(heap, Atoms(v), p) ensures p == [] {
    }
  }

  /** A value whose parts are shared, but repeat on no path, is never reported as a cycle. */
  lemma SharingIsNoCycle(heap: Heap, root: Value)
    requires ClosedHeap(heap) && Closed(heap, Atoms(root))
    requires forall p :: IsPath(heap, Atoms(root), p) ==> !Repeats(p)
    ensures WalkValue(heap, {}, root) != Cycle
  {
    ValueIsAtoms(heap, {}, root);
    if WalkAtoms(heap, {}, Atoms(root)) == Cycle {
      var p := ReasonIsReal(heap, {}, Atoms(root));
    }
  }

  /** An object node whose one entry is the string of the byte FF. */
  lemma FaultyEntry(heap: Heap, key: Text, bad: Text)
    requires key == Text([97], true) && bad == Text([255], false)
    requires heap == map[0 := Ordered([key], map[[97] := Str(bad)])]
    ensures WalkValue(heap, {}, Ref(0)) == NotUtf8 && !Safe(heap, Ref(0))
  {
    var vals: map<seq<nat>, Value> := map[[97] := Str(bad)];
    assert key.bytes in vals && vals[key.bytes] == Str(bad) && HasPart(heap[0], Str(bad));
    ContainerIsSafe(heap, 0);
    LeafIsSafe(heap, Str(bad));
    assert WalkOrdered(heap, {} + {0}, heap[0], [key]) == NotUtf8;
  }

  // ---- the walk as it runs: one set of containers, added to and taken from around each

  class UnsafeWalk {
    var onPath: set<Id>

    constructor ()
      ensures onPath == {}
    {
      onPath := {};
    }

    method Visit(heap: Heap, v: Value) returns (why: Reason)
      modifies this
      ensures onPath == old(onPath) && why == WalkValue(heap, old(onPath), v)
      decreases heap.Keys - onPath, 0, v
    {
      match v {
        case Plain => why := Fine;
        case Unemitted => why := Fine;
        case Str(text) => why := TextReason(text);
        case BigNumber => why := NotExact;
        case Inline(fields) => why := Fields(heap, fields);
        case Ref(id) =>
          if id in onPath {
            return Cycle;
          }
          if id !in heap {
            return Fine;
          }
          ghost var before := onPath;
          onPath := onPath + {id};
          why := Contained(heap, heap[id]);
          onPath := onPath - {id};
          assert onPath == before;
      }
    }

    method Fields(heap: Heap, fields: seq<Value>) returns (why: Reason)
      modifies this
      ensures onPath == old(onPath) && why == WalkFields(heap, old(onPath), fields)
      decreases heap.Keys - onPath, 0, fields
    {
      var i := 0;
      while i < |fields|
        invariant 0 <= i <= |fields| && onPath == old(onPath)
        invariant WalkFields(heap, onPath, fields) == WalkFields(heap, onPath, fields[i..])
      {
        why := Visit(heap, fields[i]);
        if why != Fine {
          return;
        }
        i := i + 1;
      }
      why := Fine;
    }

    method Contained(heap: Heap, c: Container) returns (why: Reason)
      modifies this
      ensures onPath == old(onPath) && why == WalkContainer(heap, old(onPath), c)
      decreases heap.Keys - onPath, 2
    {
      match c {
        case Mapping(textKeys, entries) => why := Entries(heap, textKeys, entries);
        case Slice(elems) => why := Elems(heap, elems);
        case Pointer(target) => why := Visit(heap, target);
        case Ordered(keys, _) => why := InOrder(heap, c, keys);
      }
    }

    method Entries(heap: Heap, textKeys: bool, entries: seq<Entry>) returns (why: Reason)
      modifies this
      ensures onPath == old(onPath) && why == WalkEntries(heap, old(onPath), textKeys, entries)
      decreases heap.Keys - onPath, 1, entries
    {
      var i := 0;
      while i < |entries|
        invariant 0 <= i <= |entries| && onPath == old(onPath)
        invariant WalkEntries(heap, onPath, textKeys, entries) == WalkEntries(heap, onPath, textKeys, entries[i..])
      {
        if textKeys && !entries[i].key.utf8 {
          return NotUtf8;
        }
        why := Visit(heap, entries[i].value);
        if why != Fine {
          return;
        }
        i := i + 1;
      }
      why := Fine;
    }

    method Elems(heap: Heap, elems: seq<Value>) returns (why: Reason)
      modifies this
      ensures onPath == old(onPath) && why == WalkElems(heap, old(onPath), elems)
      decreases heap.Keys - onPath, 1, elems
    {
      var i := 0;
      while i < |elems|
        invariant 0 <= i <= |elems| && onPath == old(onPath)
        invariant WalkElems(heap, onPath, elems) == WalkElems(heap, onPath, elems[i..])
      {
        why := Visit(heap, elems[i]);
        if why != Fine {
          return;
        }
        i := i + 1;
      }
      why := Fine;
    }

    method InOrder(heap: Heap, c: Container, keys: seq<Text>) returns (why: Reason)
      requires c.Ordered?
      modifies this
      ensures onPath == old(onPath) && why == WalkOrdered(heap, old(onPath), c, keys)
      decreases heap.Keys - onPath, 1, keys
    {
      var i := 0;
      while i < |keys|
        invariant 0 <= i <= |keys| && onPath == old(onPath)
        invariant WalkOrdered(heap, onPath, c, keys) == WalkOrdered(heap, onPath, c, keys[i..])
      {
        if !keys[i].utf8 {
          return NotUtf8;
        }
        why := Visit(heap, At(c, keys[i]));
        if why != Fine {
          return;
        }
        i := i + 1;
      }
      why := Fine;
    }
  }

  /** `jsonUnsafe`. */
  method JsonUnsafe(heap: Heap, root: Value) returns (why: Reason)
    ensures why == WalkValue(heap, {}, root)
    ensures ClosedHeap(heap) && Closed(heap, Atoms(root)) ==> (why == Fine <==> Safe(heap, root))
  {
    var w := new UnsafeWalk();
    why := w.Visit(heap, root);
    if ClosedHeap(heap) && Closed(heap, Atoms(root)) {
      WalkIsExact(heap, root);
    }
  }
}
