/** The OpenGL buffer objects of src/frameworks/opengl_sys.rs over Vulkan buffers and memory. */
module GlBuffers {
  import opened Wrappers

  const ARRAY_BUFFER := 0x8892

  const ELEMENT_ARRAY_BUFFER := 0x8893

  const ID_LIMIT := 0x1_0000_0000

  /** A byte that was never written is undefined. */
  type Cell = Option<bv8>

  // ----- what a caller sees: names and their bytes -----

  /** `names` maps every generated, undeleted name to its bytes, once it has any. `ready` says that the
      shared device is there. */
  datatype Model = Model(ready: bool, names: map<nat, Option<seq<Cell>>>, array_: nat, element: nat, nextId: nat)

  function NewModel(ready: bool): Model { Model(ready, map[], 0, 0, 1) }

  function BoundTo(m: Model, target: nat): nat {
    if target == ARRAY_BUFFER then m.array_ else if target == ELEMENT_ARRAY_BUFFER then m.element else 0
  }

  function Known(data: seq<bv8>): (cells: seq<Cell>)
    ensures |cells| == |data|
  {
    seq(|data|, i requires 0 <= i < |data| => Some(data[i]))
  }

  function Undefined(n: nat): (cells: seq<Cell>)
    ensures |cells| == n
  {
    seq(n, _ => None)
  }

  /** The first bytes of the data, or as many undefined ones when there is none. */
  function Filled(size: nat, data: Option<seq<bv8>>): (cells: seq<Cell>)
    requires data.Some? ==> size <= |data.value|
    ensures |cells| == size
  {
    if data.Some? then Known(data.value[..size]) else Undefined(size)
  }

  function Overwrite(cells: seq<Cell>, offset: nat, bytes: seq<Cell>): (r: seq<Cell>)
    requires offset + |bytes| <= |cells|
    ensures |r| == |cells|
    ensures forall i | 0 <= i < |r| :: r[i] == if offset <= i < offset + |bytes| then bytes[i - offset] else cells[i]
  {
    cells[..offset] + bytes + cells[offset + |bytes|..]
  }

  /** n new names without bytes, counted up from the next id. */
  function GenSpec(m: Model, n: int): Model {
    if n <= 0 || !m.ready then m else m.(names := WithNames(m.names, m.nextId, n), nextId := m.nextId + n)
  }

  function WithNames(names: map<nat, Option<seq<Cell>>>, first: nat, n: nat): map<nat, Option<seq<Cell>>> {
    if n == 0 then names else WithNames(names, first, n - 1)[first + n - 1 := None]
  }

  function BindSpec(m: Model, target: nat, id: nat): Model {
    if target == ARRAY_BUFFER then m.(array_ := id) else if target == ELEMENT_ARRAY_BUFFER then m.(element := id) else m
  }

  predicate Reaches(m: Model, target: nat) { m.ready && BoundTo(m, target) != 0 && BoundTo(m, target) in m.names }

  function DataSpec(m: Model, target: nat, size: int, data: Option<seq<bv8>>): Model
    requires data.Some? ==> size <= |data.value|
  {
    if size <= 0 || !Reaches(m, target) then m
    else m.(names := m.names[BoundTo(m, target) := Some(Filled(size, data))])
  }

  /** The sub-range lies within the bytes of the name bound, if it has any. */
  predicate InRange(m: Model, target: nat, offset: int, size: int) {
    size > 0 && Reaches(m, target) && m.names[BoundTo(m, target)].Some? ==>
      0 <= offset && offset + size <= |m.names[BoundTo(m, target)].value|
  }

  function SubDataSpec(m: Model, target: nat, offset: int, size: int, data: seq<bv8>): Model
    requires InRange(m, target, offset, size) && size <= |data|
  {
    if size <= 0 || !Reaches(m, target) then m
    else
      match m.names[BoundTo(m, target)]
      case None => m
      case Some(cells) =>
        m.(names := m.names[BoundTo(m, target) := Some(Overwrite(cells, offset, Known(data[..size])))])
  }

  function IdSet(ids: seq<nat>): set<nat> { set id | id in ids }

  /** Bindings stay where they are. */
  function DeleteSpec(m: Model, ids: seq<nat>): Model {
    if !m.ready then m else m.(names := m.names - IdSet(ids))
  }

  // ----- the device -----

  /** Live buffers with the memory bound to each, and live memory with its bytes. Handle 0 is null. */
  datatype Heap = Heap(next: nat, buffers: map<nat, nat>, memory: map<nat, seq<Cell>>)

  ghost predicate HeapValid(h: Heap) {
    h.next > 0 && (forall b <- h.buffers :: 0 < b < h.next) && forall m <- h.memory :: 0 < m < h.next
  }

  class DeviceHeap {
    var h: Heap

    constructor ()
      ensures h == Heap(1, map[], map[])
    {
      h := Heap(1, map[], map[]);
    }

    /** A new buffer with new memory bound to it, of at least the size asked for, unless a step fails. */
    method CreateBound(size: nat) returns (r: Option<(nat, nat)>, ghost length: nat)
      requires HeapValid(h)
      modifies this
      ensures r.Some? ==> r.value == (old(h).next, old(h).next + 1)
      ensures r.Some? ==> size <= length && h == BoundHeap(old(h), length)
    {
      var ok: bool, extra: nat := *, *;
      if !ok { return None, 0; }
      r, length := Some((h.next, h.next + 1)), size + extra;
      h := BoundHeap(h, size + extra);
    }

    method DestroyBuffer(b: nat)
      requires b in h.buffers
      modifies this
      ensures h == old(h).(buffers := old(h).buffers - {b})
    {
      h := h.(buffers := h.buffers - {b});
    }

    method FreeMemory(m: nat)
      requires m in h.memory
      modifies this
      ensures h == old(h).(memory := old(h).memory - {m})
    {
      h := h.(memory := h.memory - {m});
    }

    /** Maps the range, copies, unmaps. Nothing is known of the device after a range outside the memory. */
    method Write(m: nat, offset: int, bytes: seq<Cell>) returns (ok: bool)
      requires m in h.memory
      modifies this
      ensures ok && 0 <= offset && offset + |bytes| <= |old(h).memory[m]| ==>
        h == old(h).(memory := old(h).memory[m := Overwrite(old(h).memory[m], offset, bytes)])
    {
      ok := *;
      if ok {
        if 0 <= offset && offset + |bytes| <= |h.memory[m]| {
          h := h.(memory := h.memory[m := Overwrite(h.memory[m], offset, bytes)]);
        } else {
          h := *;
        }
      }
    }
  }

  function BoundHeap(h: Heap, size: nat): Heap {
    Heap(h.next + 2, h.buffers[h.next := h.next + 1], h.memory[h.next + 1 := Undefined(size)])
  }

  // ----- the context -----

  datatype GlBuffer = GlBuffer(buffer: nat, memory: nat, size: nat)

  const NO_BUFFER := GlBuffer(0, 0, 0)

  /** A name's handles are both null or both live, bound together, and large enough. */
  ghost predicate Backed(g: GlBuffer, h: Heap) {
    if g.buffer == 0 then g == NO_BUFFER
    else
      && g.buffer in h.buffers && h.buffers[g.buffer] == g.memory
      && g.memory in h.memory && g.size <= |h.memory[g.memory]|
  }

  /** The live buffers and memory are exactly the non-null handles in the map, no two names sharing any. */
  ghost predicate Consistent(table: map<nat, GlBuffer>, h: Heap) {
    HeapValid(h) && AllBacked(table, h) && Unshared(table) && AllNamed(table, h)
  }

  ghost predicate AllBacked(table: map<nat, GlBuffer>, h: Heap) {
    forall id <- table :: Backed(table[id], h)
  }

  ghost predicate Unshared(table: map<nat, GlBuffer>) {
    forall i, j | i in table && j in table && i != j :: Apart(table[i], table[j])
  }

  predicate Apart(f: GlBuffer, g: GlBuffer) {
    f.buffer != 0 ==> f.buffer != g.buffer && f.memory != g.memory
  }

  ghost predicate AllNamed(table: map<nat, GlBuffer>, h: Heap) {
    (forall b <- h.buffers :: Named(table, b)) && forall m <- h.memory :: NamedMemory(table, m)
  }

  /** What consistency says of the device: exactly the non-null handles are live, each for one name. */
  lemma LiveHandles(table: map<nat, GlBuffer>, h: Heap, b: nat)
    requires Consistent(table, h)
    ensures b in h.buffers <==> b != 0 && exists id <- table :: table[id].buffer == b
    ensures forall i, j | i in table && j in table && table[i].buffer == table[j].buffer == b && b in h.buffers ::
      i == j
    ensures b in h.memory <==> b != 0 && exists id <- table :: table[id].memory == b
  {
    forall id <- table ensures Backed(table[id], h) {
    }
    assert b in h.buffers ==> Named(table, b);
    assert b in h.memory ==> NamedMemory(table, b);
  }

  ghost predicate Named(table: map<nat, GlBuffer>, b: nat) {
    exists id <- table :: table[id].buffer == b
  }

  ghost predicate NamedMemory(table: map<nat, GlBuffer>, m: nat) {
    exists id <- table :: table[id].memory == m
  }

  ghost function BytesOf(g: GlBuffer, h: Heap): Option<seq<Cell>>
    requires Backed(g, h)
  {
    if g.buffer == 0 then None else Some(h.memory[g.memory][..g.size])
  }

  ghost function NamesOf(table: map<nat, GlBuffer>, h: Heap): (names: map<nat, Option<seq<Cell>>>)
    requires AllBacked(table, h)
    ensures names.Keys == table.Keys
  {
    map id | id in table :: BytesOf(table[id], h)
  }

  /** Both heaps hold the same for the record. */
  ghost predicate Agree(g: GlBuffer, h: Heap, e: Heap) {
    g.buffer != 0 && g.buffer in h.buffers && g.memory in h.memory ==>
      && g.buffer in e.buffers && e.buffers[g.buffer] == h.buffers[g.buffer]
      && g.memory in e.memory && e.memory[g.memory] == h.memory[g.memory]
  }

  /** Only the record of one name, and what the heap holds for it, changes. */
  ghost predicate ChangedAt(table: map<nat, GlBuffer>, h: Heap, t: map<nat, GlBuffer>, e: Heap, id: nat) {
    && (forall k: nat | k != id :: k in t <==> k in table)
    && (forall k <- t | k != id :: k in table && t[k] == table[k] && Agree(table[k], h, e))
    && (forall k <- t | k != id && id in t :: Apart(t[id], t[k]) && Apart(t[k], t[id]))
    && (id in t ==> Backed(t[id], e))
    && (forall b <- e.buffers ::
      (id in t && t[id].buffer == b) || (b in h.buffers && (id in table ==> table[id].buffer != b)))
    && (forall m <- e.memory ::
      (id in t && t[id].memory == m) || (m in h.memory && (id in table ==> table[id].memory != m)))
  }

  lemma ChangeNamed(table: map<nat, GlBuffer>, h: Heap, t: map<nat, GlBuffer>, e: Heap, id: nat)
    requires AllNamed(table, h) && ChangedAt(table, h, t, e, id)
    ensures AllNamed(t, e)
  {
    hide Backed, Apart, Agree;
    forall b <- e.buffers ensures Named(t, b) {
      if !(id in t && t[id].buffer == b) {
        var k :| k in table && table[k].buffer == b;
        assert k in t && t[k].buffer == b;
      }
    }
    forall m <- e.memory ensures NamedMemory(t, m) {
      if !(id in t && t[id].memory == m) {
        var k :| k in table && table[k].memory == m;
        assert k in t && t[k].memory == m;
      }
    }
  }

  lemma ChangeUnshared(table: map<nat, GlBuffer>, h: Heap, t: map<nat, GlBuffer>, e: Heap, id: nat)
    requires Unshared(table) && ChangedAt(table, h, t, e, id)
    ensures Unshared(t)
  {
    hide Apart, Backed, Agree;
  }

  lemma ChangeKeeps(table: map<nat, GlBuffer>, h: Heap, t: map<nat, GlBuffer>, e: Heap, id: nat)
    requires Consistent(table, h) && HeapValid(e) && ChangedAt(table, h, t, e, id)
    ensures Consistent(t, e)
    ensures NamesOf(t, e) == if id in t then NamesOf(table, h)[id := BytesOf(t[id], e)] else NamesOf(table, h) - {id}
  {
    hide AllNamed, HeapValid, Unshared, Apart;
    ChangeNamed(table, h, t, e, id);
    ChangeUnshared(table, h, t, e, id);
    forall k <- t ensures Backed(t[k], e) && (k != id ==> BytesOf(t[k], e) == BytesOf(table[k], h)) {
      assert k != id ==> Backed(table[k], h);
    }
  }

  lemma Inserted(table: map<nat, GlBuffer>, h: Heap, id: nat)
    requires Consistent(table, h) && id !in table
    ensures Consistent(table[id := NO_BUFFER], h)
    ensures NamesOf(table[id := NO_BUFFER], h) == NamesOf(table, h)[id := None]
  {
    hide AllNamed, Unshared;
    ChangeKeeps(table, h, table[id := NO_BUFFER], h, id);
  }

  /** The heap without what the record holds. */
  function Released(h: Heap, g: GlBuffer): Heap {
    if g.buffer == 0 then h else h.(buffers := h.buffers - {g.buffer}, memory := h.memory - {g.memory})
  }

  /** A name's handles are released while its record is gone or emptied. */
  lemma Dropped(table: map<nat, GlBuffer>, h: Heap, id: nat, other: map<nat, GlBuffer>)
    requires Consistent(table, h) && id in table && (other == table - {id} || other == table[id := NO_BUFFER])
    ensures Consistent(other, Released(h, table[id]))
    ensures NamesOf(other, Released(h, table[id])) ==
      if id in other then NamesOf(table, h)[id := None] else NamesOf(table, h) - {id}
  {
    hide AllNamed;
    assert Backed(table[id], h);
    forall k <- other | k != id ensures Agree(table[k], h, Released(h, table[id])) {
      assert Backed(table[k], h) && Apart(table[k], table[id]);
    }
    ChangeKeeps(table, h, other, Released(h, table[id]), id);
  }

  /** New storage for a name that has none. */
  lemma Stored(table: map<nat, GlBuffer>, h: Heap, id: nat, size: nat, length: nat)
    requires Consistent(table, h) && id in table && table[id] == NO_BUFFER && size <= length
    ensures var t, e := table[id := GlBuffer(h.next, h.next + 1, size)], BoundHeap(h, length);
      Consistent(t, e) && NamesOf(t, e) == NamesOf(table, h)[id := Some(Undefined(size))]
  {
    hide AllNamed, Unshared;
    var t, e := table[id := GlBuffer(h.next, h.next + 1, size)], BoundHeap(h, length);
    forall k <- table ensures Agree(table[k], h, e) && (k != id ==> Apart(t[id], table[k]) && Apart(table[k], t[id])) {
      assert Backed(table[k], h);
    }
    ChangeKeeps(table, h, t, e, id);
    assert Undefined(length)[..size] == Undefined(size);
  }

  lemma Written(table: map<nat, GlBuffer>, h: Heap, id: nat, offset: nat, bytes: seq<Cell>)
    requires Consistent(table, h) && id in table && table[id].buffer != 0 && offset + |bytes| <= table[id].size
    requires table[id].memory in h.memory && offset + |bytes| <= |h.memory[table[id].memory]|
    ensures var m := table[id].memory; var e := h.(memory := h.memory[m := Overwrite(h.memory[m], offset, bytes)]);
      && Consistent(table, e) && table[id].size <= |h.memory[m]|
      && NamesOf(table, e) == NamesOf(table, h)[id := Some(Overwrite(h.memory[m][..table[id].size], offset, bytes))]
  {
    hide AllNamed;
    var g := table[id];
    var e := h.(memory := h.memory[g.memory := Overwrite(h.memory[g.memory], offset, bytes)]);
    assert Backed(g, h);
    forall k <- table | k != id ensures Agree(table[k], h, e) {
      assert Backed(table[k], h) && Apart(table[k], g);
    }
    ChangeKeeps(table, h, table, e, id);
    assert Overwrite(h.memory[g.memory], offset, bytes)[..g.size]
         == Overwrite(h.memory[g.memory][..g.size], offset, bytes);
  }

  class GlContext {
    const device: DeviceHeap
    /** Whether the shared device is there. */
    const ready: bool
    var buffers: map<nat, GlBuffer>
    var boundArray: nat
    var boundElement: nat
    var nextId: nat

    ghost predicate Valid()
      reads this, device
    {
      && Consistent(buffers, device.h) && 0 < nextId < ID_LIMIT
      && forall id <- buffers :: id < nextId
    }

    ghost function State(): Model
      reads this, device
      requires Valid()
    {
      Model(ready, NamesOf(buffers, device.h), boundArray, boundElement, nextId)
    }

    constructor (ready: bool)
      ensures Valid() && State() == NewModel(ready) && fresh(device)
    {
      device := new DeviceHeap();
      this.ready, buffers, boundArray, boundElement, nextId := ready, map[], 0, 0, 1;
    }

    /** The ids count up from the next id and wrap; short of the 32-bit limit they are new names. */
    method GenBuffers(n: int) returns (ids: seq<nat>)
      requires Valid()
      modifies this
      ensures nextId < ID_LIMIT && boundArray == old(boundArray) && boundElement == old(boundElement)
      ensures old(nextId) + n < ID_LIMIT ==> Valid() && State() == GenSpec(old(State()), n)
      ensures ids == if n <= 0 || !ready then [] else seq(n, i requires 0 <= i < n => (old(nextId) + i) % ID_LIMIT)
    {
      hide Consistent, NamesOf;
      ids := [];
      if n <= 0 || !ready { return; }
      ghost var was, fits := State(), nextId + n < ID_LIMIT;
      for i := 0 to n
        invariant nextId == (was.nextId + i) % ID_LIMIT && boundArray == was.array_ && boundElement == was.element
        invariant fits ==> Valid()
        invariant fits ==> State() == was.(names := WithNames(was.names, was.nextId, i), nextId := was.nextId + i)
        invariant ids == seq(i, k requires 0 <= k < i => (was.nextId + k) % ID_LIMIT)
      {
        var id := nextId;
        if fits {
          Inserted(buffers, device.h, id);
        }
        nextId := (nextId + 1) % ID_LIMIT;
        ids := ids + [id];
        buffers := buffers[id := NO_BUFFER];
      }
    }

    method BindBuffer(target: nat, id: nat)
      requires Valid()
      modifies this`boundArray, this`boundElement
      ensures Valid() && State() == BindSpec(old(State()), target, id)
    {
      if target == ARRAY_BUFFER {
        boundArray := id;
      } else if target == ELEMENT_ARRAY_BUFFER {
        boundElement := id;
      }
    }

    function CurrentId(target: nat): nat
      reads this
    {
      if target == ARRAY_BUFFER then boundArray else if target == ELEMENT_ARRAY_BUFFER then boundElement else 0
    }

    method Release(g: GlBuffer)
      requires Backed(g, device.h)
      modifies device
      ensures device.h == Released(old(device.h), g)
    {
      if g.buffer != 0 {
        device.DestroyBuffer(g.buffer);
        device.FreeMemory(g.memory);
      }
    }

    /** Replaces what the name holds by new storage, still to be recorded. */
    method CreateStorage(id: nat, size: nat) returns (r: Option<GlBuffer>)
      requires Consistent(buffers, device.h) && id in buffers
      modifies device
      ensures r.Some? ==> r.value.buffer != 0 && r.value.size == size && Consistent(buffers[id := r.value], device.h)
      ensures r.Some? ==>
        NamesOf(buffers[id := r.value], device.h) == NamesOf(buffers, old(device.h))[id := Some(Undefined(size))]
      ensures r.Some? ==> r.value.memory in device.h.memory && size <= |device.h.memory[r.value.memory]|
    {
      hide Consistent, NamesOf, Undefined;
      ghost var h := device.h;
      Storable(buffers, h, id);
      Release(buffers[id]);
      var bound, length := device.CreateBound(size);
      if bound.None? { return None; }
      Stored(buffers[id := NO_BUFFER], Released(h, buffers[id]), id, size, length);
      r := Some(GlBuffer(bound.value.0, bound.value.1, size));
      assert buffers[id := NO_BUFFER][id := r.value] == buffers[id := r.value];
    }

    /** `ok` is false when the call panics on a failing device, after which there are no more calls. */
    method BufferData(target: nat, size: int, data: Option<seq<bv8>>) returns (ok: bool)
      requires Valid() && (data.Some? ==> size <= |data.value|)
      modifies this`buffers, device
      ensures ok ==> Valid() && State() == DataSpec(old(State()), target, size, data)
    {
      hide Consistent, NamesOf, Known, Undefined;
      if size <= 0 || !ready { return true; }
      var id := CurrentId(target);
      if id == 0 || id !in buffers { return true; }
      var storage := CreateStorage(id, size);
      if storage.None? { return false; }
      var g := storage.value;
      if data.Some? {
        var bytes := Known(data.value[..size]);
        ghost var before := device.h;
        ok := device.Write(g.memory, 0, bytes);
        if !ok { return; }
        Written(buffers[id := g], before, id, 0, bytes);
        WholeOverwrite(before.memory[g.memory][..size], bytes);
      }
      buffers := buffers[id := g];
      ok := true;
    }

    /** Writes within the bytes of the name bound; a range outside them is not tested for. */
    method BufferSubData(target: nat, offset: int, size: int, data: seq<bv8>) returns (ok: bool)
      requires Valid() && size <= |data|
      modifies device
      ensures ok && InRange(old(State()), target, offset, size) ==>
        Valid() && State() == SubDataSpec(old(State()), target, offset, size, data)
    {
      hide Consistent, NamesOf, Known, Overwrite;
      if size <= 0 || |data| == 0 || !ready { return true; }
      var id := CurrentId(target);
      if id == 0 || id !in buffers { return true; }
      var g := buffers[id];
      NameAt(buffers, device.h, id);
      if g.memory != 0 {
        ghost var h := device.h;
        ok := device.Write(g.memory, offset, Known(data[..size]));
        if ok && InRange(old(State()), target, offset, size) {
          Written(buffers, h, id, offset, Known(data[..size]));
        }
        return;
      }
      ok := true;
    }

    method DeleteBuffers(ids: seq<nat>)
      requires Valid()
      modifies this`buffers, device
      ensures Valid() && State() == DeleteSpec(old(State()), ids)
    {
      hide Consistent;
      if |ids| == 0 || !ready { return; }
      ghost var names := State().names;
      for i := 0 to |ids|
        invariant Valid() && State().names == names - IdSet(ids[..i])
      {
        var id := ids[i];
        ghost var before := State().names;
        if id in buffers {
          var g := buffers[id];
          Storable(buffers, device.h, id);
          buffers := buffers - {id};
          Release(g);
        }
        assert State().names == before - {id};
        assert IdSet(ids[..i + 1]) == IdSet(ids[..i]) + {id};
      }
      assert ids[..|ids|] == ids;
    }
  }

  lemma NameAt(table: map<nat, GlBuffer>, h: Heap, id: nat)
    requires Consistent(table, h) && id in table
    ensures Backed(table[id], h) && NamesOf(table, h)[id] == BytesOf(table[id], h)
    ensures table[id].buffer == 0 <==> table[id].memory == 0
  {
  }

  lemma WholeOverwrite(cells: seq<Cell>, bytes: seq<Cell>)
    requires |cells| == |bytes|
    ensures Overwrite(cells, 0, bytes) == bytes
  {
  }

  /** Before a name gets new storage or goes, what it held is released. */
  lemma Storable(table: map<nat, GlBuffer>, h: Heap, id: nat)
    requires Consistent(table, h) && id in table
    ensures Backed(table[id], h)
    ensures var e, t := Released(h, table[id]), table[id := NO_BUFFER];
      HeapValid(e) && Consistent(t, e) && NamesOf(t, e) == NamesOf(table, h)[id := None]
    ensures var e := Released(h, table[id]);
      Consistent(table - {id}, e) && NamesOf(table - {id}, e) == NamesOf(table, h) - {id}
  {
    hide AllNamed, Unshared, Backed;
    assert Backed(table[id], h);
    Dropped(table, h, id, table[id := NO_BUFFER]);
    Dropped(table, h, id, table - {id});
  }

  // ----- laws of the names -----

  datatype Call =
    | Gen(n: int)
    | Bind(target: nat, id: nat)
    | Data(target: nat, size: int, data: Option<seq<bv8>>)
    | SubData(target: nat, offset: int, size: int, bytes: seq<bv8>)
    | Delete(ids: seq<nat>)

  /** The call passes enough data, stays in range, and does not run out of ids. */
  predicate Proper(m: Model, c: Call) {
    match c
    case Gen(n) => m.nextId + n < ID_LIMIT
    case Data(_, size, data) => data.Some? ==> size <= |data.value|
    case SubData(target, offset, size, data) => InRange(m, target, offset, size) && size <= |data|
    case _ => true
  }

  function Step(m: Model, c: Call): Model
    requires Proper(m, c)
  {
    match c
    case Gen(n) => GenSpec(m, n)
    case Bind(target, id) => BindSpec(m, target, id)
    case Data(target, size, data) => DataSpec(m, target, size, data)
    case SubData(target, offset, size, data) => SubDataSpec(m, target, offset, size, data)
    case Delete(ids) => DeleteSpec(m, ids)
  }

  predicate ProperRun(m: Model, calls: seq<Call>)
    decreases |calls|
  {
    calls == [] || (Proper(m, calls[0]) && ProperRun(Step(m, calls[0]), calls[1..]))
  }

  function Run(m: Model, calls: seq<Call>): Model
    requires ProperRun(m, calls)
    decreases |calls|
  {
    if calls == [] then m else Run(Step(m, calls[0]), calls[1..])
  }

  lemma {:induction false} WithNamesAt(names: map<nat, Option<seq<Cell>>>, first: nat, n: nat, x: nat)
    ensures x in WithNames(names, first, n) <==> x in names || first <= x < first + n
    ensures x in names && !(first <= x < first + n) ==>
      x in WithNames(names, first, n) && WithNames(names, first, n)[x] == names[x]
  {
    if n > 0 {
      WithNamesAt(names, first, n - 1, x);
    }
  }

  /** A generated name that was deleted never comes back. */
  lemma {:induction false} DeadStaysDead(m: Model, calls: seq<Call>, x: nat)
    requires ProperRun(m, calls) && x < m.nextId && x !in m.names
    ensures x !in Run(m, calls).names
    decreases |calls|
  {
    if calls != [] {
      if calls[0].Gen? && calls[0].n > 0 {
        WithNamesAt(m.names, m.nextId, calls[0].n, x);
      }
      DeadStaysDead(Step(m, calls[0]), calls[1..], x);
    }
  }

  /** A binding left on a deleted name never reaches another buffer: whatever happens in between, updates
      through it change nothing. */
  lemma StaleBinding(m: Model, ids: seq<nat>, x: nat, calls: seq<Call>, target: nat, offset: int, size: int,
                     data: seq<bv8>)
    requires m.ready && x in ids && x < m.nextId && ProperRun(DeleteSpec(m, ids), calls)
    requires BoundTo(Run(DeleteSpec(m, ids), calls), target) == x && size <= |data|
    ensures var after := Run(DeleteSpec(m, ids), calls);
      && DataSpec(after, target, size, Some(data)) == after
      && InRange(after, target, offset, size) && SubDataSpec(after, target, offset, size, data) == after
  {
    DeadStaysDead(DeleteSpec(m, ids), calls, x);
  }

  /** A name bound before it is generated, unlike a deleted one, reaches the buffer generated later. */
  lemma EarlyBinding(m: Model, target: nat, data: seq<bv8>)
    requires target == ARRAY_BUFFER || target == ELEMENT_ARRAY_BUFFER
    requires m.ready && 0 < m.nextId && m.nextId + 1 < ID_LIMIT && 0 < |data|
    ensures var x := m.nextId;
      var calls := [Bind(target, x), Gen(1), Data(target, |data|, Some(data))];
      ProperRun(m, calls) && x in Run(m, calls).names && Run(m, calls).names[x] == Some(Known(data))
  {
    var x := m.nextId;
    var bound := Step(m, Bind(target, x));
    var made := Step(bound, Gen(1));
    WithNamesAt(m.names, x, 1, x);
    var calls := [Bind(target, x), Gen(1), Data(target, |data|, Some(data))];
    assert calls[1..] == [Gen(1), calls[2]] && calls[1..][1..] == [calls[2]] && [calls[2]][1..] == [];
    assert ProperRun(Step(made, calls[2]), []);
    assert ProperRun(made, [calls[2]]);
    assert Run(m, calls) == Run(bound, calls[1..]) == Run(made, [calls[2]]) == Step(made, calls[2]);
    assert data[..|data|] == data;
  }

  /** The call neither deletes the name nor updates it through a binding. */
  predicate Spares(m: Model, c: Call, y: nat) {
    match c
    case Data(target, _, _) => BoundTo(m, target) != y
    case SubData(target, _, _, _) => BoundTo(m, target) != y
    case Delete(ids) => y !in ids
    case _ => true
  }

  predicate SparesRun(m: Model, calls: seq<Call>, y: nat)
    requires ProperRun(m, calls)
    decreases |calls|
  {
    calls == [] || (Spares(m, calls[0], y) && SparesRun(Step(m, calls[0]), calls[1..], y))
  }

  /** A name keeps its bytes through any calls that neither delete it nor update it through a binding. */
  lemma {:induction false} Isolated(m: Model, calls: seq<Call>, y: nat)
    requires ProperRun(m, calls) && SparesRun(m, calls, y) && y in m.names && y < m.nextId
    ensures y in Run(m, calls).names && Run(m, calls).names[y] == m.names[y]
    decreases |calls|
  {
    if calls != [] {
      if calls[0].Gen? && calls[0].n > 0 {
        WithNamesAt(m.names, m.nextId, calls[0].n, y);
      }
      Isolated(Step(m, calls[0]), calls[1..], y);
    }
  }

  // ----- what updates leave -----

  /** The bytes of a name, none when it has no storage. */
  function CellsOf(m: Model, x: nat): seq<Cell>
    requires x in m.names
  {
    if m.names[x].None? then [] else m.names[x].value
  }

  /** A full update gives the bound name exactly the new bytes, or undefined ones, whatever it held, and
      changes nothing else. */
  lemma FullUpdate(m: Model, target: nat, size: nat, data: Option<seq<bv8>>)
    requires Reaches(m, target) && size > 0 && (data.Some? ==> size <= |data.value|)
    ensures var x, after := BoundTo(m, target), DataSpec(m, target, size, data);
      && x in after.names && after.names[x].Some? && |CellsOf(after, x)| == size
      && (forall i | 0 <= i < size :: CellsOf(after, x)[i] == if data.Some? then Some(data.value[i]) else None)
      && after.names.Keys == m.names.Keys && (forall y <- m.names | y != x :: after.names[y] == m.names[y])
      && after == m.(names := after.names)
  {
  }

  /** Updates of nothing, through a binding that reaches no name, or of a part of a name without storage
      change nothing. */
  lemma NoUpdate(m: Model, target: nat, offset: int, size: int, data: seq<bv8>)
    requires size <= |data|
    ensures size <= 0 || !Reaches(m, target) ==> DataSpec(m, target, size, Some(data)) == m
    ensures size <= 0 || !Reaches(m, target) || m.names[BoundTo(m, target)].None? ==>
      InRange(m, target, offset, size) && SubDataSpec(m, target, offset, size, data) == m
  {
  }

  /** A binding changes its own target only, and none when there is no such target. */
  lemma BindReaches(m: Model, target: nat, id: nat, other: nat)
    ensures var after := BindSpec(m, target, id);
      && BoundTo(after, other)
           == (if other == target && target in {ARRAY_BUFFER, ELEMENT_ARRAY_BUFFER} then id else BoundTo(m, other))
      && after == m.(array_ := after.array_, element := after.element)
  {
  }

  /** Generating adds exactly the next n ids, without bytes, and moves the next id past them. */
  lemma GenExactly(m: Model, n: nat, x: nat)
    requires m.ready && forall y <- m.names :: y < m.nextId
    ensures var after := GenSpec(m, n);
      && (x in after.names <==> x in m.names || m.nextId <= x < m.nextId + n)
      && (x in after.names ==> after.names[x] == if x in m.names then m.names[x] else None)
      && after == m.(names := after.names, nextId := m.nextId + n)
  {
    if n > 0 {
      WithNamesAt(m.names, m.nextId, n, x);
      if m.nextId <= x < m.nextId + n {
        NewNamesEmpty(m.names, m.nextId, n, x);
      }
    }
  }

  lemma {:induction false} NewNamesEmpty(names: map<nat, Option<seq<Cell>>>, first: nat, n: nat, x: nat)
    requires first <= x < first + n
    ensures x in WithNames(names, first, n) && WithNames(names, first, n)[x] == None
  {
    if x < first + n - 1 {
      NewNamesEmpty(names, first, n - 1, x);
    }
  }

  /** Deleting takes exactly the given names away; bindings and the next id stay. */
  lemma DeleteExactly(m: Model, ids: seq<nat>, x: nat)
    requires m.ready
    ensures var after := DeleteSpec(m, ids);
      && (x in after.names <==> x in m.names && x !in ids)
      && (x in after.names ==> after.names[x] == m.names[x])
      && after == m.(names := after.names)
  {
  }

  /** Without the shared device no call but a binding does anything. */
  lemma NotReady(m: Model, c: Call)
    requires !m.ready && Proper(m, c) && !c.Bind?
    ensures Step(m, c) == m
  {
  }

  /** An update of the bound name: all of it, or a part. */
  datatype Update = Whole(size: nat, all: Option<seq<bv8>>) | Part(offset: nat, part: seq<bv8>)

  function CallOf(target: nat, u: Update): Call {
    match u
    case Whole(size, all) => Data(target, size, all)
    case Part(offset, part) => SubData(target, offset, |part|, part)
  }

  function Updates(target: nat, updates: seq<Update>): seq<Call> {
    if updates == [] then [] else [CallOf(target, updates[0])] + Updates(target, updates[1..])
  }

  /** The size the name has after the updates: that of the last full one. */
  function SizeAfter(n: nat, updates: seq<Update>): nat {
    if updates == [] then n
    else
      match updates[|updates| - 1]
      case Whole(size, _) => size
      case Part(_, _) => SizeAfter(n, updates[..|updates| - 1])
  }

  /** Full updates have data enough, and parts lie within the size they find. */
  predicate Fit(n: nat, updates: seq<Update>)
    decreases |updates|
  {
    updates == [] ||
    match updates[0] {
      case Whole(size, all) => size > 0 && (all.Some? ==> size <= |all.value|) && Fit(size, updates[1..])
      case Part(offset, part) => part != [] && offset + |part| <= n && Fit(n, updates[1..])
    }
  }

  /** What an update says of byte i, if it covers it; a full one leaves nothing of what was there. */
  function Says(u: Update, i: nat): Option<Cell> {
    match u
    case Whole(size, all) => Some(if i < size && all.Some? && i < |all.value| then Some(all.value[i]) else None)
    case Part(offset, part) => if offset <= i < offset + |part| then Some(Some(part[i - offset])) else None
  }

  /** Byte i, undefined where there is none. */
  function ByteOr(cells: seq<Cell>, i: nat): Cell { if i < |cells| then cells[i] else None }

  /** Byte i after the updates: the last one that covers it decides. */
  function LastWrite(first: Cell, updates: seq<Update>, i: nat): Cell
    decreases |updates|
  {
    if updates == [] then first
    else
      match Says(updates[|updates| - 1], i)
      case Some(cell) => cell
      case None => LastWrite(first, updates[..|updates| - 1], i)
  }

  lemma {:induction false} LastWriteFirst(first: Cell, after: Cell, updates: seq<Update>, i: nat)
    requires updates != []
    requires after == Resulting(updates[0], first, i)
    ensures LastWrite(first, updates, i) == LastWrite(after, updates[1..], i)
    decreases |updates|
  {
    hide Says;
    var last := |updates| - 1;
    if last > 0 {
      assert updates[1..][last - 1] == updates[last] && updates[1..][..last - 1] == updates[..last][1..];
      LastWriteFirst(first, after, updates[..last], i);
    } else {
      assert updates[..0] == [] && updates[1..] == [];
    }
  }

  lemma {:induction false} SizeFirst(n: nat, updates: seq<Update>)
    requires updates != []
    ensures SizeAfter(n, updates) == SizeAfter(if updates[0].Whole? then updates[0].size else n, updates[1..])
    decreases |updates|
  {
    var last := |updates| - 1;
    if last > 0 {
      assert updates[1..][last - 1] == updates[last] && updates[1..][..last - 1] == updates[..last][1..];
      SizeFirst(n, updates[..last]);
    } else {
      assert updates[..0] == [] && updates[1..] == [];
    }
  }

  /** An update leaves the bound name with the size and bytes that it says. */
  ghost predicate Updated(m: Model, target: nat, u: Update, next: Model) {
    Reaches(m, target) && Reaches(next, target) &&
    var x := BoundTo(m, target);
    && BoundTo(next, target) == x
    && |CellsOf(next, x)| == (if u.Whole? then u.size else |CellsOf(m, x)|)
    && forall i: nat :: ByteOr(CellsOf(next, x), i) == Resulting(u, ByteOr(CellsOf(m, x), i), i)
  }

  function Resulting(u: Update, before: Cell, i: nat): Cell {
    match Says(u, i)
    case Some(cell) => cell
    case None => before
  }

  lemma WholeUpdate(m: Model, target: nat, size: nat, all: Option<seq<bv8>>)
    requires Reaches(m, target) && size > 0 && (all.Some? ==> size <= |all.value|)
    ensures Updated(m, target, Whole(size, all), DataSpec(m, target, size, all))
  {
    hide Filled;
    FullUpdate(m, target, size, all);
  }

  lemma PartUpdate(m: Model, target: nat, offset: nat, part: seq<bv8>)
    requires Reaches(m, target) && part != [] && offset + |part| <= |CellsOf(m, BoundTo(m, target))|
    ensures InRange(m, target, offset, |part|)
    ensures Updated(m, target, Part(offset, part), SubDataSpec(m, target, offset, |part|, part))
  {
    hide Overwrite;
    assert part[..|part|] == part;
  }

  /** One update of the bound name. */
  lemma OneUpdate(m: Model, target: nat, u: Update)
    requires Reaches(m, target) && Fit(|CellsOf(m, BoundTo(m, target))|, [u])
    ensures Proper(m, CallOf(target, u)) && Updated(m, target, u, Step(m, CallOf(target, u)))
  {
    hide Updated, DataSpec, SubDataSpec, InRange, Reaches, CellsOf;
    match u
    case Whole(size, all) => WholeUpdate(m, target, size, all);
    case Part(offset, part) => PartUpdate(m, target, offset, part);
  }

  /** After any mix of full and sub-range updates of the bound name, its size is that of the last full
      one, and each byte is that of the last update covering it, or what it was. */
  lemma {:induction false} AllUpdates(m: Model, target: nat, updates: seq<Update>, i: nat)
    requires Reaches(m, target) && Fit(|CellsOf(m, BoundTo(m, target))|, updates)
    requires i < SizeAfter(|CellsOf(m, BoundTo(m, target))|, updates)
    ensures ProperRun(m, Updates(target, updates))
    ensures var x := BoundTo(m, target); var after := Run(m, Updates(target, updates));
      && x in after.names && |CellsOf(after, x)| == SizeAfter(|CellsOf(m, x)|, updates)
      && CellsOf(after, x)[i] == LastWrite(ByteOr(CellsOf(m, x), i), updates, i)
    decreases |updates|
  {
    if updates != [] {
      hide Says, CallOf, CellsOf, Resulting;
      var x, u, rest := BoundTo(m, target), updates[0], updates[1..];
      var calls := Updates(target, updates);
      assert calls[0] == CallOf(target, u) && calls[1..] == Updates(target, rest);
      assert [u][1..] == [];
      OneUpdate(m, target, u);
      var next := Step(m, CallOf(target, u));
      SizeFirst(|CellsOf(m, x)|, updates);
      AllUpdates(next, target, rest, i);
      LastWriteFirst(ByteOr(CellsOf(m, x), i), ByteOr(CellsOf(next, x), i), updates, i);
    }
  }
}
