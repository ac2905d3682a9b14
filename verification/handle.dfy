/**
 * Wire handles and the table that maps them to native objects: open
 * addressing with linear probing and tombstones, refining a finite map.
 */
module Handles {
  import opened Errno

  const SERIAL_LIMIT: nat := 0x100_0000_0000_0000  // the type sits above bit 56

  const INVALID := 0
  const FIRST_TYPE := 1
  const DEVICE := 3
  const IMAGE := 7
  const IMAGE_VIEW := 8
  const COMMAND_BUFFER := 11
  const BUFFER := 19
  const DESCRIPTOR_SET_LAYOUT := 20
  const DESCRIPTOR_POOL := 21
  const DESCRIPTOR_SET := 22
  const SAMPLER := 23
  const DESCRIPTOR_UPDATE_TEMPLATE := 24
  const QUERY_POOL := 25
  const LAST_TYPE := 25

  type Id = nat

  // ---------------------------------------------------------------- ids

  predicate TypeIsValid(kind: nat) {
    FIRST_TYPE <= kind <= LAST_TYPE
  }

  function MakeId(kind: nat, serial: nat): Id {
    if !TypeIsValid(kind) || serial == 0 || serial >= SERIAL_LIMIT then 0
    else kind * SERIAL_LIMIT + serial
  }

  function TypeOf(id: Id): nat {
    if TypeIsValid(id / SERIAL_LIMIT) then id / SERIAL_LIMIT else INVALID
  }

  function SerialOf(id: Id): nat {
    id % SERIAL_LIMIT
  }

  predicate Expect(id: Id, kind: nat) {
    TypeIsValid(kind) && TypeOf(id) == kind && SerialOf(id) != 0
  }

  // Packing and unpacking are inverse: every id that passes the check is the
  // packing of its parts, and a packed id passes exactly its own type's check.
  lemma IdRoundTrip(id: Id, kind: nat, serial: nat, other: nat)
    requires TypeIsValid(kind) && 0 < serial < SERIAL_LIMIT
    ensures TypeOf(MakeId(kind, serial)) == kind && SerialOf(MakeId(kind, serial)) == serial
    ensures Expect(MakeId(kind, serial), other) <==> other == kind
    ensures Expect(id, kind) ==> MakeId(kind, SerialOf(id)) == id
  {
  }

  // An id of this type as its bits show it: the type above bit 56, and not all zero below.
  predicate Names(id: Id, kind: nat) {
    id / 0x100_0000_0000_0000 == kind && id % 0x100_0000_0000_0000 != 0
  }

  lemma NamesIsExpect(id: Id, kind: nat)
    requires TypeIsValid(kind)
    ensures Names(id, kind) <==> Expect(id, kind)
  {
  }

  // ---------------------------------------------------------------- hashing

  function And(a: nat, b: nat): (r: nat)
    ensures r <= b
    decreases a
  {
    if a == 0 || b == 0 then 0
    else 2 * And(a / 2, b / 2) + (a % 2) * (b % 2)
  }

  function Xor(a: nat, b: nat): nat
    decreases a + b
  {
    if a == 0 then b else if b == 0 then a
    else 2 * Xor(a / 2, b / 2) + (a % 2 + b % 2) % 2
  }

  // 64-bit finaliser of splitmix64.
  function Mix(value: nat): nat {
    var v1 := Xor(value, value / 0x4000_0000);
    var v2 := (v1 * 0xbf58476d1ce4e5b9) % U64_LIMIT;
    var v3 := Xor(v2, v2 / 0x800_0000);
    var v4 := (v3 * 0x94d049bb133111eb) % U64_LIMIT;
    Xor(v4, v4 / 0x8000_0000)
  }

  function Hash(id: Id, capacity: nat): (h: nat)
    requires 0 < capacity
    ensures h < capacity
  {
    And(Mix(id), capacity - 1)
  }

  lemma {:induction false} AndSelf(a: nat)
    ensures And(a, a) == a
  {
    if a > 0 { AndSelf(a / 2); }
  }

  predicate CapacityIsLegal(capacity: nat) {
    8 <= capacity && And(capacity, capacity - 1) == 0
  }

  // When c & (c - 1) is zero, masking with c - 1 keeps everything below c.
  lemma {:induction false} MaskKeepsSmall(x: nat, c: nat)
    requires x < c && And(c, c - 1) == 0
    ensures And(x, c - 1) == x
    decreases c
  {
    if c == 1 {
      return;
    }
    OddMeetsItself(c);
    var d := c / 2;
    HalveMask(c, d);
    MaskKeepsSmall(x / 2, d);
    DoubleMask(x, d);
  }

  lemma OddMeetsItself(c: nat)
    requires 1 < c && And(c, c - 1) == 0
    ensures c % 2 == 0
  {
    if c % 2 == 1 {
      var d := c / 2;
      assert (c - 1) / 2 == d;
      AndSelf(d);
    }
  }

  lemma HalveMask(c: nat, d: nat)
    requires 0 < d && c == 2 * d && And(c, c - 1) == 0
    ensures And(d, d - 1) == 0
  {
  }

  lemma DoubleMask(x: nat, d: nat)
    requires 0 < d && And(x / 2, d - 1) == x / 2
    ensures And(x, 2 * d - 1) == x
  {
    assert (2 * d - 1) / 2 == d - 1 && (2 * d - 1) % 2 == 1;
    assert x == 2 * (x / 2) + x % 2;
  }

  // ---------------------------------------------------------------- table

  datatype Entry = Empty | Tombstone | Occupied(id: Id, parent: Id, native: nat)

  datatype Object = Object(parent: Id, native: nat)

  datatype Reply =
    | Status(code: int)
    | Found(object: Object)
    | Removed(native: nat)

  datatype Op =
    | Insert(id: Id, parent: Id, native: nat)
    | Lookup(id: Id, kind: nat)
    | Remove(id: Id, kind: nat)

  predicate ArgumentsAreValid(id: Id, parent: Id, native: nat) {
    && TypeOf(id) != INVALID && SerialOf(id) != 0 && native != 0
    && (parent != 0 ==> TypeOf(parent) != INVALID && SerialOf(parent) != 0)
  }

  // What each operation does to, and answers from, a finite map.
  function MapStep(m: map<Id, Object>, capacity: nat, op: Op): (map<Id, Object>, Reply) {
    match op
    case Insert(id, parent, native) =>
      if !ArgumentsAreValid(id, parent, native) then (m, Status(EINVAL))
      else if |m| == capacity then (m, Status(ENOSPC))
      else if id in m then (m, Status(EEXIST))
      else (m[id := Object(parent, native)], Status(0))
    case Lookup(id, kind) =>
      if !Expect(id, kind) then (m, Status(EINVAL))
      else if id !in m then (m, Status(ENOENT))
      else (m, Found(m[id]))
    case Remove(id, kind) =>
      if !Expect(id, kind) then (m, Status(EINVAL))
      else if id !in m then (m, Status(ENOENT))
      else (m - {id}, Removed(m[id].native))
  }

  function MapRun(m: map<Id, Object>, capacity: nat, ops: seq<Op>): (replies: seq<Reply>)
    ensures |replies| == |ops|
    decreases |ops|
  {
    if ops == [] then []
    else
      var (next, reply) := MapStep(m, capacity, ops[0]);
      [reply] + MapRun(next, capacity, ops[1..])
  }

  function MapAfter(m: map<Id, Object>, capacity: nat, ops: seq<Op>): map<Id, Object>
    decreases |ops|
  {
    if ops == [] then m else MapAfter(MapStep(m, capacity, ops[0]).0, capacity, ops[1..])
  }

  lemma MapRunUnfolds(m: map<Id, Object>, capacity: nat, ops: seq<Op>, i: nat)
    requires i < |ops|
    ensures MapRun(m, capacity, ops[i..])
         == [MapStep(m, capacity, ops[i]).1] + MapRun(MapStep(m, capacity, ops[i]).0, capacity, ops[i + 1..])
  {
  }

  // The slot k probes after home slot h, wrapping at the capacity.
  function At(h: nat, k: nat, capacity: nat): (i: nat)
    requires h < capacity && k < capacity
    ensures i < capacity
  {
    if h + k < capacity then h + k else h + k - capacity
  }

  function Distance(h: nat, i: nat, capacity: nat): (k: nat)
    requires h < capacity && i < capacity
    ensures k < capacity && At(h, k, capacity) == i
  {
    if h <= i then i - h else i + capacity - h
  }

  // The capacity probes of one search visit every slot exactly once.
  lemma ProbingCoversEverySlot(h: nat, capacity: nat)
    requires h < capacity
    ensures forall i :: 0 <= i < capacity ==> Distance(h, i, capacity) < capacity && At(h, Distance(h, i, capacity), capacity) == i
    ensures forall j, k :: 0 <= j < k < capacity ==> At(h, j, capacity) != At(h, k, capacity)
  {
  }

  ghost function OccupiedSlots(e: seq<Entry>): set<nat> {
    set i: nat | i < |e| && e[i].Occupied?
  }

  lemma FullWhenEverySlotIsOccupied(e: seq<Entry>)
    requires forall i :: 0 <= i < |e| ==> e[i].Occupied?
    ensures |OccupiedSlots(e)| == |e|
  {
    assert OccupiedSlots(e) == Range(|e|);
  }

  lemma EverySlotIsOccupied(e: seq<Entry>, h: nat)
    requires h < |e| && AllOccupied(e, h, |e|)
    ensures |OccupiedSlots(e)| == |e|
  {
    forall i | 0 <= i < |e| ensures e[i].Occupied? {
      assert e[At(h, Distance(h, i, |e|), |e|)].Occupied?;
    }
    FullWhenEverySlotIsOccupied(e);
  }

  lemma OccupiedSlotsFit(e: seq<Entry>)
    ensures |OccupiedSlots(e)| <= |e|
  {
    SubsetSize(OccupiedSlots(e), Range(|e|));
  }

  ghost function Range(n: nat): (r: set<nat>)
    ensures |r| == n && forall i: nat :: i in r <==> i < n
  {
    if n == 0 then {} else Range(n - 1) + {n - 1}
  }

  lemma {:induction false} SubsetSize(a: set<nat>, b: set<nat>)
    requires a <= b
    ensures |a| <= |b|
  {
    assert b == a + (b - a);
  }

  // No EMPTY slot lies on the probe path from the home of e[i] to i.
  predicate PathIsUnbroken(e: seq<Entry>, i: nat)
    requires i < |e| && e[i].Occupied?
  {
    var h := Hash(e[i].id, |e|);
    forall k :: 0 <= k < Distance(h, i, |e|) ==> e[At(h, k, |e|)] != Empty
  }

  // e stores exactly the objects of m, one slot each, every one reachable.
  ghost predicate Represents(e: seq<Entry>, m: map<Id, Object>) {
    && IdsAreUnique(e)
    && StoresOnly(e, m)
    && StoresAll(e, m)
    && PathsAreUnbroken(e)
    && |OccupiedSlots(e)| == |m|
  }

  ghost predicate IdsAreUnique(e: seq<Entry>) {
    forall i, j :: 0 <= i < |e| && 0 <= j < |e| && e[i].Occupied? && e[j].Occupied? && e[i].id == e[j].id ==> i == j
  }

  ghost predicate StoresOnly(e: seq<Entry>, m: map<Id, Object>) {
    forall i :: 0 <= i < |e| && e[i].Occupied? ==> e[i].id in m && m[e[i].id] == Object(e[i].parent, e[i].native)
  }

  ghost predicate StoresAll(e: seq<Entry>, m: map<Id, Object>) {
    forall id :: id in m ==> Stored(e, id)
  }

  ghost predicate Stored(e: seq<Entry>, id: Id) {
    exists i :: Holds(e, i, id)
  }

  ghost predicate PathsAreUnbroken(e: seq<Entry>) {
    forall i :: 0 <= i < |e| && e[i].Occupied? ==> PathIsUnbroken(e, i)
  }

  predicate Holds(e: seq<Entry>, i: nat, id: Id) {
    i < |e| && e[i].Occupied? && e[i].id == id
  }

  // The first k probes for id saw neither id nor an EMPTY slot.
  predicate Missed(e: seq<Entry>, id: Id, k: nat)
    requires 0 < |e| && k <= |e|
  {
    var h := Hash(id, |e|);
    forall j :: 0 <= j < k ==> e[At(h, j, |e|)] != Empty && !Holds(e, At(h, j, |e|), id)
  }

  // Slot t is free and the probes for id reach it.
  predicate Reusable(e: seq<Entry>, id: Id, t: nat) {
    t < |e| && !e[t].Occupied? && Missed(e, id, Distance(Hash(id, |e|), t, |e|))
  }

  predicate AllOccupied(e: seq<Entry>, h: nat, k: nat)
    requires h < |e| && k <= |e|
  {
    forall j :: 0 <= j < k ==> e[At(h, j, |e|)].Occupied?
  }

  lemma SearchIsComplete(e: seq<Entry>, m: map<Id, Object>, id: Id, k: nat)
    requires 0 < |e| && Represents(e, m) && k <= |e| && Missed(e, id, k)
    requires k < |e| ==> e[At(Hash(id, |e|), k, |e|)] == Empty
    ensures id !in m
  {
    assert id in m ==> Stored(e, id);
    forall i | 0 <= i < |e| ensures !Holds(e, i, id) {
      var d := Distance(Hash(id, |e|), i, |e|);
      assert At(Hash(id, |e|), d, |e|) == i;
      assert e[i].Occupied? ==> PathIsUnbroken(e, i);
    }
  }

  // Filling a free slot that the probes for id reach adds one object.
  lemma FillKeepsRepresentation(e: seq<Entry>, m: map<Id, Object>, id: Id, k: nat, value: Object)
    requires 0 < |e| && Represents(e, m) && id !in m
    requires k < |e| && Missed(e, id, k) && !e[At(Hash(id, |e|), k, |e|)].Occupied?
    ensures Represents(e[At(Hash(id, |e|), k, |e|) := Occupied(id, value.parent, value.native)], m[id := value])
  {
    var s := At(Hash(id, |e|), k, |e|);
    var f := e[s := Occupied(id, value.parent, value.native)];
    assert OccupiedSlots(f) == OccupiedSlots(e) + {s};
    FillKeepsPaths(e, id, k, f[s]);
    FillKeepsObjects(e, m, s, id, value);
  }

  lemma FillKeepsPaths(e: seq<Entry>, id: Id, k: nat, entry: Entry)
    requires k < |e| && PathsAreUnbroken(e) && Missed(e, id, k)
    requires entry.Occupied? && entry.id == id
    ensures PathsAreUnbroken(e[At(Hash(id, |e|), k, |e|) := entry])
  {
  }

  lemma FillKeepsObjects(e: seq<Entry>, m: map<Id, Object>, s: nat, id: Id, value: Object)
    requires s < |e| && !e[s].Occupied? && id !in m
    requires IdsAreUnique(e) && StoresOnly(e, m) && StoresAll(e, m)
    ensures var f := e[s := Occupied(id, value.parent, value.native)];
      IdsAreUnique(f) && StoresOnly(f, m[id := value]) && StoresAll(f, m[id := value])
  {
    var f := e[s := Occupied(id, value.parent, value.native)];
    assert Holds(f, s, id);
    forall x | x in m ensures Stored(f, x) {
      assert Stored(e, x);
      var i :| Holds(e, i, x);
      assert Holds(f, i, x);
    }
  }

  // A tombstone takes one object away and breaks no other path.
  lemma BuryKeepsRepresentation(e: seq<Entry>, m: map<Id, Object>, s: nat)
    requires Represents(e, m) && s < |e| && e[s].Occupied?
    ensures Represents(e[s := Tombstone], m - {e[s].id})
  {
    var f := e[s := Tombstone];
    assert OccupiedSlots(f) == OccupiedSlots(e) - {s};
    assert |OccupiedSlots(f)| == |OccupiedSlots(e)| - 1;
    assert |m - {e[s].id}| == |m| - 1;
    BuryKeepsPaths(e, s);
    BuryKeepsObjects(e, m, s);
  }

  lemma BuryKeepsPaths(e: seq<Entry>, s: nat)
    requires PathsAreUnbroken(e) && s < |e|
    ensures PathsAreUnbroken(e[s := Tombstone])
  {
  }

  lemma BuryKeepsObjects(e: seq<Entry>, m: map<Id, Object>, s: nat)
    requires s < |e| && e[s].Occupied?
    requires IdsAreUnique(e) && StoresOnly(e, m) && StoresAll(e, m)
    ensures var f := e[s := Tombstone];
      IdsAreUnique(f) && StoresOnly(f, m - {e[s].id}) && StoresAll(f, m - {e[s].id})
  {
    var f := e[s := Tombstone];
    forall x | x in m && x != e[s].id ensures Stored(f, x) {
      assert Stored(e, x);
      var i :| Holds(e, i, x);
      assert Holds(f, i, x);
    }
  }

  class HandleTable {
    var entries: array<Entry>
    var count: nat
    ghost var contents: map<Id, Object>

    ghost predicate Valid()
      reads this, entries
    {
      && CapacityIsLegal(entries.Length)
      && Represents(entries[..], contents)
      && count == |contents| <= entries.Length
    }

    constructor (capacity: nat)
      requires CapacityIsLegal(capacity)
      ensures Valid() && fresh(entries) && entries.Length == capacity && contents == map[]
    {
      entries := new Entry[capacity](_ => Empty);
      count := 0;
      contents := map[];
      new;
      assert OccupiedSlots(entries[..]) == {};
    }

    method NextIndex(index: nat) returns (next: nat)
      requires CapacityIsLegal(entries.Length) && index < entries.Length
      ensures next == if index + 1 < entries.Length then index + 1 else 0
    {
      if index + 1 < entries.Length { MaskKeepsSmall(index + 1, entries.Length); }
      next := And(index + 1, entries.Length - 1);
    }

    // Where an insertion of id goes: the first tombstone on its path, else the EMPTY slot that
    // ends the path, else nowhere.
    method FreeSlot(id: Id) returns (status: int, slot: nat)
      requires Valid() && count < entries.Length
      ensures status == if id in contents then EEXIST else 0
      ensures status == 0 ==> Reusable(entries[..], id, slot)
    {
      ghost var e := entries[..];
      var h := Hash(id, entries.Length);
      var index := h;
      var probe := 0;
      var tombstone: nat := entries.Length;
      while probe < entries.Length
        invariant probe <= entries.Length && index < entries.Length
        invariant probe < entries.Length ==> index == At(h, probe, entries.Length)
        invariant Missed(e, id, probe)
        invariant tombstone <= entries.Length
        invariant tombstone < entries.Length ==> Reusable(e, id, tombstone)
        invariant tombstone == entries.Length ==> AllOccupied(e, h, probe)
      {
        if entries[index].Occupied? && entries[index].id == id {
          return EEXIST, index;
        }
        if entries[index] == Tombstone && tombstone == entries.Length {
          tombstone := index;
          assert Distance(h, index, entries.Length) == probe;
          assert Reusable(e, id, index);
        }
        if entries[index] == Empty {
          SearchIsComplete(e, contents, id, probe);
          assert Distance(h, index, entries.Length) == probe;
          assert Reusable(e, id, index);
          return 0, if tombstone != entries.Length then tombstone else index;
        }
        index := NextIndex(index);
        probe := probe + 1;
      }
      SearchIsComplete(e, contents, id, probe);
      if tombstone != entries.Length {
        return 0, tombstone;
      }
      status, slot := ENOSPC, entries.Length;
      EverySlotIsOccupied(e, h);
    }

    method Store(slot: nat, id: Id, parent: Id, native: nat)
      requires Valid() && Reusable(entries[..], id, slot) && id !in contents
      modifies this, entries
      ensures Valid() && entries == old(entries)
      ensures contents == old(contents)[id := Object(parent, native)]
    {
      ghost var e := entries[..];
      FillKeepsRepresentation(e, contents, id, Distance(Hash(id, |e|), slot, |e|), Object(parent, native));
      entries[slot] := Occupied(id, parent, native);
      assert entries[..] == e[slot := Occupied(id, parent, native)];
      count := count + 1;
      contents := contents[id := Object(parent, native)];
      OccupiedSlotsFit(entries[..]);
    }

    method Insert(id: Id, parent: Id, native: nat) returns (status: int)
      requires Valid()
      modifies this, entries
      ensures Valid() && entries == old(entries)
      ensures (contents, Status(status)) == MapStep(old(contents), entries.Length, Op.Insert(id, parent, native))
    {
      if TypeOf(id) == INVALID || SerialOf(id) == 0 || native == 0 {
        return EINVAL;
      }
      if parent != 0 && (TypeOf(parent) == INVALID || SerialOf(parent) == 0) {
        return EINVAL;
      }
      if count == entries.Length {
        return ENOSPC;
      }
      var slot;
      status, slot := FreeSlot(id);
      if status == 0 {
        Store(slot, id, parent, native);
      }
    }

    // The slot that holds id, or the capacity.
    method FindEntry(id: Id) returns (slot: nat)
      requires Valid()
      ensures id in contents ==> slot < entries.Length && Holds(entries[..], slot, id)
      ensures id !in contents ==> slot == entries.Length
    {
      ghost var e := entries[..];
      var h := Hash(id, entries.Length);
      var index := h;
      var probe := 0;
      while probe < entries.Length
        invariant probe <= entries.Length && index < entries.Length
        invariant probe < entries.Length ==> index == At(h, probe, entries.Length)
        invariant Missed(e, id, probe)
      {
        if entries[index] == Empty {
          SearchIsComplete(e, contents, id, probe);
          return entries.Length;
        }
        if entries[index].Occupied? && entries[index].id == id {
          return index;
        }
        index := NextIndex(index);
        probe := probe + 1;
      }
      SearchIsComplete(e, contents, id, probe);
      slot := entries.Length;
    }

    method Lookup(id: Id, kind: nat) returns (reply: Reply)
      requires Valid()
      ensures (contents, reply) == MapStep(contents, entries.Length, Op.Lookup(id, kind))
    {
      if !Expect(id, kind) {
        return Status(EINVAL);
      }
      var slot := FindEntry(id);
      if slot == entries.Length {
        return Status(ENOENT);
      }
      reply := Found(Object(entries[slot].parent, entries[slot].native));
    }

    method Remove(id: Id, kind: nat) returns (reply: Reply)
      requires Valid()
      modifies this, entries
      ensures Valid() && entries == old(entries)
      ensures (contents, reply) == MapStep(old(contents), entries.Length, Op.Remove(id, kind))
    {
      if !Expect(id, kind) {
        return Status(EINVAL);
      }
      var slot := FindEntry(id);
      if slot == entries.Length {
        return Status(ENOENT);
      }
      reply := Removed(entries[slot].native);
      ghost var e := entries[..];
      BuryKeepsRepresentation(e, contents, slot);
      entries[slot] := Tombstone;
      assert entries[..] == e[slot := Tombstone];
      count := count - 1;
      contents := contents - {id};
    }

    method Perform(op: Op) returns (reply: Reply)
      requires Valid()
      modifies this, entries
      ensures Valid() && entries == old(entries)
      ensures (contents, reply) == MapStep(old(contents), entries.Length, op)
    {
      match op
      case Insert(id, parent, native) =>
        var status := Insert(id, parent, native);
        reply := Status(status);
      case Lookup(id, kind) =>
        reply := Lookup(id, kind);
      case Remove(id, kind) =>
        reply := Remove(id, kind);
    }
  }

  method PerformAll(table: HandleTable, ops: seq<Op>) returns (replies: seq<Reply>)
    requires table.Valid()
    modifies table, table.entries
    ensures table.Valid() && table.entries == old(table.entries)
    ensures replies == MapRun(old(table.contents), table.entries.Length, ops)
  {
    replies := [];
    ghost var start, capacity := table.contents, table.entries.Length;
    assert ops[0..] == ops;
    for i := 0 to |ops|
      invariant table.Valid() && table.entries == old(table.entries)
      invariant replies + MapRun(table.contents, capacity, ops[i..]) == MapRun(start, capacity, ops)
    {
      MapRunUnfolds(table.contents, capacity, ops, i);
      var reply := table.Perform(ops[i]);
      replies := replies + [reply];
    }
  }

  // Over every run the table answers exactly as a finite map with the same capacity would; a
  // capacity the table cannot use is refused before any operation.
  method Run(capacity: nat, ops: seq<Op>) returns (status: int, replies: seq<Reply>)
    ensures status == if CapacityIsLegal(capacity) then 0 else EINVAL
    ensures status == 0 ==> replies == MapRun(map[], capacity, ops)
  {
    if capacity < 8 || And(capacity, capacity - 1) != 0 {
      return EINVAL, [];
    }
    var table := new HandleTable(capacity);
    replies := PerformAll(table, ops);
    status := 0;
  }

  // The map never outgrows the capacity, so the capacity check is the only way to run out.
  lemma {:induction false} MapStaysWithinCapacity(m: map<Id, Object>, capacity: nat, ops: seq<Op>)
    requires |m| <= capacity
    ensures |MapAfter(m, capacity, ops)| <= capacity
    decreases |ops|
  {
    if ops != [] {
      MapStaysWithinCapacity(MapStep(m, capacity, ops[0]).0, capacity, ops[1..]);
    }
  }
}
