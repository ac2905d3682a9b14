/**
 * Replay protection for command streams: a table of the last sequence
 * accepted from each command buffer, updated all or nothing, which makes
 * room by forgetting buffers that no longer exist.
 */
module StreamGenerations {
  import opened Errno
  import opened Handles

  // One slot; the zero slot is free.
  datatype Generation = Generation(id: Id, last: nat)

  datatype Update = Update(id: Id, sequence: nat)

  const FREE := Generation(0, 0)

  // What the liveness callback answers during one call; NoCallback when none is given.
  datatype Liveness = NoCallback | Live(ids: set<Id>)

  type Table = seq<Generation>

  // An update list being applied to a shadow copy.
  datatype Shadow = Shadow(table: Table, tried: bool, reclaimed: nat, status: int)

  datatype Checked = Slot(index: nat) | Refused(status: int)

  // ---------------------------------------------------------------- specification

  // The first slot with this id, or the length.
  function Find(t: Table, id: Id): (k: nat)
    ensures k <= |t|
    ensures k < |t| ==> t[k].id == id
    ensures forall i :: 0 <= i < k ==> t[i].id != id
  {
    if t == [] || t[0].id == id then 0 else 1 + Find(t[1..], id)
  }

  predicate Has(t: Table, id: Id) {
    Find(t, id) < |t|
  }

  function Last(t: Table, id: Id): nat {
    if Has(t, id) then t[Find(t, id)].last else 0
  }

  predicate IsCommandBuffer(id: Id) {
    Expect(id, COMMAND_BUFFER)
  }

  function Check(t: Table, id: Id, sequence: nat): Checked {
    if t == [] || sequence == 0 || !IsCommandBuffer(id) then Refused(EINVAL)
    else if Has(t, id) then
      if sequence <= Last(t, id) then Refused(ESTALE) else Slot(Find(t, id))
    else if Has(t, 0) then Slot(Find(t, 0))
    else Refused(ENOSPC)
  }

  predicate MayCommit(t: Table, k: nat, id: Id, sequence: nat) {
    && k < |t| && sequence != 0 && IsCommandBuffer(id)
    && (t[k].id == 0 || t[k].id == id)
    && sequence > t[k].last
  }

  function Kept(g: Generation, live: set<Id>): Generation {
    if g.id != 0 && g.id !in live then FREE else g
  }

  function Reclaim(t: Table, live: set<Id>): (r: Table)
    ensures |r| == |t| && forall i :: 0 <= i < |t| ==> r[i] == Kept(t[i], live)
  {
    if t == [] then [] else [Kept(t[0], live)] + Reclaim(t[1..], live)
  }

  function Dropped(t: Table, live: set<Id>): nat {
    if t == [] then 0
    else Dropped(t[..|t| - 1], live) + if Kept(t[|t| - 1], live) == t[|t| - 1] then 0 else 1
  }

  function Record(s: Shadow, u: Update): Shadow {
    match Check(s.table, u.id, u.sequence)
    case Refused(status) => s.(status := status)
    case Slot(k) =>
      if MayCommit(s.table, k, u.id, u.sequence) then s.(table := s.table[k := Generation(u.id, u.sequence)])
      else s.(status := EINVAL)
  }

  predicate NeedsRoom(s: Shadow, u: Update, live: Liveness) {
    Check(s.table, u.id, u.sequence) == Refused(ENOSPC) && live.Live? && !s.tried
  }

  function MakeRoom(s: Shadow, live: set<Id>): Shadow {
    s.(table := Reclaim(s.table, live), tried := true, reclaimed := s.reclaimed + Dropped(s.table, live))
  }

  function Step(s: Shadow, u: Update, live: Liveness): Shadow {
    if s.status != 0 then s
    else if NeedsRoom(s, u, live) then Record(MakeRoom(s, live.ids), u)
    else Record(s, u)
  }

  function After(t: Table, updates: seq<Update>, live: Liveness): Shadow {
    if updates == [] then Shadow(t, false, 0, 0)
    else Step(After(t, updates[..|updates| - 1], live), updates[|updates| - 1], live)
  }

  // ---------------------------------------------------------------- table invariant

  // Free slots are zero and every command buffer has at most one slot.
  ghost predicate WellFormed(t: Table) {
    && (forall i :: 0 <= i < |t| && t[i].id == 0 ==> t[i] == FREE)
    && (forall i, j :: 0 <= i < |t| && 0 <= j < |t| && t[i].id == t[j].id != 0 ==> i == j)
  }

  lemma SlotIsWhereItIs(t: Table, i: nat)
    requires WellFormed(t) && i < |t| && t[i].id != 0
    ensures Find(t, t[i].id) == i && Last(t, t[i].id) == t[i].last
  {
  }

  // A slot that a check hands out can be committed, and holds nothing of another buffer.
  lemma CheckThenCommit(t: Table, u: Update)
    requires WellFormed(t) && Check(t, u.id, u.sequence).Slot?
    ensures var k := Check(t, u.id, u.sequence).index;
      MayCommit(t, k, u.id, u.sequence) && u.sequence > Last(t, u.id)
  {
  }

  lemma CommitKeepsTable(t: Table, u: Update)
    requires WellFormed(t) && Check(t, u.id, u.sequence).Slot?
    ensures var r := t[Check(t, u.id, u.sequence).index := Generation(u.id, u.sequence)];
      && WellFormed(r) && Has(r, u.id) && Last(r, u.id) == u.sequence
      && forall x :: x != 0 && x != u.id ==> Has(r, x) == Has(t, x) && Last(r, x) == Last(t, x)
  {
    var k := Check(t, u.id, u.sequence).index;
    var r := t[k := Generation(u.id, u.sequence)];
    CheckThenCommit(t, u);
    SlotIsWhereItIs(r, k);
    forall x | x != 0 && x != u.id ensures Has(r, x) == Has(t, x) && Last(r, x) == Last(t, x) {
      OtherSlotsStay(t, r, k, x);
    }
  }

  lemma OtherSlotsStay(t: Table, r: Table, k: nat, x: Id)
    requires k < |t| == |r| && r == t[k := r[k]] && t[k].id != x && r[k].id != x
    ensures Has(r, x) == Has(t, x) && Last(r, x) == Last(t, x)
  {
    var f, g := Find(t, x), Find(r, x);
    assert f < |t| ==> r[f] == t[f];
    assert g < |r| ==> t[g] == r[g];
    assert f == g;
  }

  lemma ReclaimKeepsTable(t: Table, live: set<Id>)
    requires WellFormed(t)
    ensures var r := Reclaim(t, live);
      && WellFormed(r)
      && (forall x :: x != 0 && x in live ==> Has(r, x) == Has(t, x) && Last(r, x) == Last(t, x))
      && (forall x :: x != 0 && x !in live ==> !Has(r, x))
  {
  }

  // ---------------------------------------------------------------- what one update does

  predicate Survives(live: Liveness, id: Id) {
    live.Live? ==> id in live.ids
  }

  predicate ForgetsBetween(before: Shadow, after: Shadow, live: Liveness, id: Id) {
    !before.tried && after.tried && !Survives(live, id)
  }

  lemma StepEffect(s: Shadow, u: Update, live: Liveness)
    requires WellFormed(s.table) && s.status == 0
    ensures var r := Step(s, u, live);
      && WellFormed(r.table) && |r.table| == |s.table|
      && (s.tried ==> r.tried) && (r.tried && !s.tried ==> live.Live?)
      && (r.status == 0 ==> IsCommandBuffer(u.id) && u.sequence > 0)
      && (r.status == 0 ==> Has(r.table, u.id) && Last(r.table, u.id) == u.sequence)
      && (r.status == 0 && (Survives(live, u.id) || r.tried == s.tried) ==> u.sequence > Last(s.table, u.id))
      && (r.status == 0 && Has(s.table, u.id) ==> r.tried == s.tried && u.sequence > Last(s.table, u.id))
      && (r.status == ESTALE <==> IsCommandBuffer(u.id) && Has(s.table, u.id) && 0 < u.sequence <= Last(s.table, u.id))
  {
    if NeedsRoom(s, u, live) {
      RoomForNewcomer(s, u, live);
      ReclaimKeepsTable(s.table, live.ids);
      RecordEffect(MakeRoom(s, live.ids), u);
    } else {
      RecordEffect(s, u);
    }
  }

  lemma RecordEffect(s: Shadow, u: Update)
    requires WellFormed(s.table) && s.status == 0
    ensures var r := Record(s, u);
      && WellFormed(r.table) && |r.table| == |s.table| && r.tried == s.tried
      && (r.status == 0 <==> Check(s.table, u.id, u.sequence).Slot?)
      && (r.status == 0 ==> Has(r.table, u.id) && Last(r.table, u.id) == u.sequence)
      && (r.status == 0 ==> u.sequence > Last(s.table, u.id))
      && (r.status == 0 ==> forall x :: x != 0 && x != u.id ==> Has(r.table, x) == Has(s.table, x) && Last(r.table, x) == Last(s.table, x))
      && (r.status != 0 ==> r.table == s.table && Check(s.table, u.id, u.sequence) == Refused(r.status))
  {
    if Check(s.table, u.id, u.sequence).Slot? {
      CheckThenCommit(s.table, u);
      CommitKeepsTable(s.table, u);
    }
  }

  // Only a buffer without a slot makes the table look for room, and reclaiming gives it none of its own.
  lemma RoomForNewcomer(s: Shadow, u: Update, live: Liveness)
    requires WellFormed(s.table) && NeedsRoom(s, u, live)
    ensures IsCommandBuffer(u.id) && u.sequence > 0 && !Has(s.table, u.id) && !Has(MakeRoom(s, live.ids).table, u.id)
  {
  }

  // A successful update leaves every other buffer alone, except that reclaiming forgets exactly
  // the buffers that are not live.
  lemma StepLeavesOthers(s: Shadow, u: Update, live: Liveness, x: Id)
    requires WellFormed(s.table) && s.status == 0 && x != 0 && x != u.id
    ensures var r := Step(s, u, live);
      && (r.status == 0 && ForgetsBetween(s, r, live, x) ==> !Has(r.table, x))
      && (r.status == 0 && !ForgetsBetween(s, r, live, x) ==> Has(r.table, x) == Has(s.table, x) && Last(r.table, x) == Last(s.table, x))
  {
    if NeedsRoom(s, u, live) {
      ReclaimKeepsTable(s.table, live.ids);
      RecordEffect(MakeRoom(s, live.ids), u);
    } else {
      RecordEffect(s, u);
    }
  }

  // ---------------------------------------------------------------- whole update lists

  lemma {:induction false} AfterIsWellFormed(t: Table, p: seq<Update>, live: Liveness)
    requires WellFormed(t)
    ensures var s := After(t, p, live); WellFormed(s.table) && |s.table| == |t| && (s.tried ==> live.Live?)
  {
    if p != [] {
      var q := p[..|p| - 1];
      AfterIsWellFormed(t, q, live);
      if After(t, q, live).status == 0 { StepEffect(After(t, q, live), p[|p| - 1], live); }
    }
  }

  lemma AfterSnoc(t: Table, p: seq<Update>, u: Update, live: Liveness)
    ensures After(t, p + [u], live) == Step(After(t, p, live), u, live)
  {
  }

  // A list applied without error names command buffers only.
  lemma {:induction false} AppliedUpdatesAreReal(t: Table, p: seq<Update>, live: Liveness)
    requires WellFormed(t) && After(t, p, live).status == 0
    ensures forall m :: 0 <= m < |p| ==> IsCommandBuffer(p[m].id) && p[m].id != 0 && p[m].sequence > 0
  {
    if p != [] {
      var q := p[..|p| - 1];
      AfterIsWellFormed(t, q, live);
      assert After(t, q, live).status == 0;
      AppliedUpdatesAreReal(t, q, live);
      StepEffect(After(t, q, live), p[|p| - 1], live);
    }
  }

  predicate Mentions(p: seq<Update>, x: Id) {
    exists i :: 0 <= i < |p| && p[i].id == x
  }

  // The last sequence the list gives x, or what it had before.
  function LastSequence(p: seq<Update>, x: Id, before: nat): nat {
    if p == [] then before
    else if p[|p| - 1].id == x then p[|p| - 1].sequence
    else LastSequence(p[..|p| - 1], x, before)
  }

  ghost predicate Increasing(p: seq<Update>, x: Id, floor: nat) {
    && (forall i :: 0 <= i < |p| && p[i].id == x ==> p[i].sequence > floor)
    && (forall i, j :: 0 <= i < j < |p| && p[i].id == p[j].id == x ==> p[i].sequence < p[j].sequence)
  }

  lemma {:induction false} LastSequenceIsLargest(p: seq<Update>, x: Id, floor: nat)
    requires Increasing(p, x, floor)
    ensures LastSequence(p, x, floor) >= floor
    ensures forall i :: 0 <= i < |p| && p[i].id == x ==> p[i].sequence <= LastSequence(p, x, floor)
  {
    if p != [] {
      LastSequenceIsLargest(p[..|p| - 1], x, floor);
    }
  }

  // Success: every buffer that is live, and every buffer at all if nothing was reclaimed, ends with
  // the last sequence given to it, or the one it had, its sequences strictly increased from there,
  // and it keeps its slot.
  lemma {:induction false} SuccessfulApply(t: Table, p: seq<Update>, live: Liveness, x: Id)
    requires WellFormed(t) && After(t, p, live).status == 0 && x != 0
    requires Survives(live, x) || !After(t, p, live).tried
    ensures var r := After(t, p, live).table;
      && Last(r, x) == LastSequence(p, x, Last(t, x))
      && (Has(r, x) <==> Has(t, x) || Mentions(p, x))
      && Increasing(p, x, Last(t, x))
  {
    if p == [] {
      return;
    }
    var q, u := p[..|p| - 1], p[|p| - 1];
    var s := After(t, q, live);
    AfterIsWellFormed(t, q, live);
    assert s.status == 0;
    SuccessfulApply(t, q, live, x);
    assert p == q + [u];
    MentionsSnoc(q, u, x);
    StepEffect(s, u, live);
    if u.id != x { StepLeavesOthers(s, u, live, x); }
    IncreasingSnoc(q, u, x, Last(t, x));
  }

  lemma IncreasingSnoc(q: seq<Update>, u: Update, x: Id, floor: nat)
    requires Increasing(q, x, floor) && (u.id == x ==> u.sequence > LastSequence(q, x, floor))
    ensures Increasing(q + [u], x, floor)
  {
    LastSequenceIsLargest(q, x, floor);
  }

  lemma MentionsSnoc(q: seq<Update>, u: Update, x: Id)
    ensures Mentions(q + [u], x) <==> Mentions(q, x) || u.id == x
  {
    var p := q + [u];
    assert p[|q|] == u;
    assert forall i :: 0 <= i < |q| ==> p[i] == q[i];
  }

  // ---------------------------------------------------------------- who still has a slot

  function Ids(t: Table): set<Id> {
    set i | 0 <= i < |t| && t[i].id != 0 :: t[i].id
  }

  // The buffers the table or the list names.
  function Known(t: Table, p: seq<Update>): set<Id> {
    Ids(t) + set i | 0 <= i < |p| :: p[i].id
  }

  predicate Reclaims(t: Table, p: seq<Update>, live: Liveness) {
    live.Live? && |Known(t, p)| > |t|
  }

  predicate NamedSinceReclaiming(t: Table, p: seq<Update>, live: Liveness, x: Id) {
    exists m :: 0 <= m < |p| && p[m].id == x && Reclaims(t, p[..m + 1], live)
  }

  function Held(t: Table, p: seq<Update>, live: Liveness): set<Id> {
    set x | x in Known(t, p) && (Reclaims(t, p, live) ==> x in live.ids || NamedSinceReclaiming(t, p, live, x))
  }

  lemma HasSlot(t: Table, x: Id)
    ensures Has(t, x) <==> exists i :: 0 <= i < |t| && t[i].id == x
    ensures x != 0 ==> (Has(t, x) <==> x in Ids(t))
  {
  }

  lemma IdsSnoc(q: Table, g: Generation)
    requires WellFormed(q + [g])
    ensures WellFormed(q)
    ensures Ids(q + [g]) == Ids(q) + if g.id == 0 then {} else {g.id}
    ensures g.id !in Ids(q)
  {
    var t := q + [g];
    assert t[|q|] == g && forall i :: 0 <= i < |q| ==> t[i] == q[i];
  }

  predicate NoSlotIsFree(t: Table) {
    forall i :: 0 <= i < |t| ==> t[i].id != 0
  }

  lemma NoSlotIsFreeSnoc(q: Table, g: Generation)
    ensures NoSlotIsFree(q + [g]) <==> NoSlotIsFree(q) && g.id != 0
  {
    var t := q + [g];
    assert t[|q|] == g && forall i :: 0 <= i < |q| ==> t[i] == q[i];
  }

  lemma {:induction false} SlotsAndIds(t: Table)
    requires WellFormed(t)
    ensures |Ids(t)| <= |t|
    ensures |Ids(t)| == |t| <==> NoSlotIsFree(t)
  {
    if t != [] {
      var q, g := t[..|t| - 1], t[|t| - 1];
      assert t == q + [g];
      IdsSnoc(q, g);
      NoSlotIsFreeSnoc(q, g);
      SlotsAndIds(q);
    }
  }

  lemma StepId(s: Shadow, u: Update, live: Liveness, x: Id)
    requires WellFormed(s.table) && s.status == 0 && Step(s, u, live).status == 0
    ensures var r := Step(s, u, live);
      x in Ids(r.table) <==> x == u.id || (x in Ids(s.table) && !ForgetsBetween(s, r, live, x))
  {
    var r := Step(s, u, live);
    StepEffect(s, u, live);
    HasSlot(r.table, x);
    HasSlot(s.table, x);
    if x != 0 && x != u.id { StepLeavesOthers(s, u, live, x); }
  }

  lemma StepIds(s: Shadow, u: Update, live: Liveness)
    requires WellFormed(s.table) && s.status == 0 && Step(s, u, live).status == 0
    ensures var r := Step(s, u, live);
      && (r.tried == s.tried ==> Ids(r.table) == Ids(s.table) + {u.id})
      && (r.tried != s.tried ==> live.Live? && Ids(r.table) == Ids(s.table) * live.ids + {u.id})
  {
    var r := Step(s, u, live);
    StepEffect(s, u, live);
    forall x ensures x in Ids(r.table) <==> x == u.id || (x in Ids(s.table) && !ForgetsBetween(s, r, live, x)) {
      StepId(s, u, live, x);
    }
  }

  lemma ReclaimingStepWasFull(s: Shadow, u: Update, live: Liveness)
    requires WellFormed(s.table) && s.status == 0 && Step(s, u, live).tried != s.tried
    ensures !s.tried && live.Live? && |Ids(s.table)| == |s.table| && u.id !in Ids(s.table)
  {
    assert NeedsRoom(s, u, live);
    RoomForNewcomer(s, u, live);
    SlotsAndIds(s.table);
    HasSlot(s.table, 0);
    HasSlot(s.table, u.id);
  }

  // No slot is free, and none belongs to a dead buffer that may still be forgotten.
  ghost predicate IsFull(s: Shadow, live: Liveness) {
    NoSlotIsFree(s.table) && (live.Live? && !s.tried ==> forall i :: 0 <= i < |s.table| ==> s.table[i].id in live.ids)
  }

  // The answers when nothing is reclaimed.
  lemma RecordOutcome(s: Shadow, u: Update)
    requires WellFormed(s.table) && s.status == 0
    ensures var status := Record(s, u).status;
      && (status == EINVAL <==> s.table == [] || u.sequence == 0 || !IsCommandBuffer(u.id))
      && (status == ESTALE <==> status != EINVAL && u.id in Ids(s.table) && u.sequence <= Last(s.table, u.id))
      && (status == ENOSPC <==> status != EINVAL && u.id !in Ids(s.table) && NoSlotIsFree(s.table))
      && (status == 0 <==> status != EINVAL && status != ESTALE && status != ENOSPC)
  {
    HasSlot(s.table, u.id);
    HasSlot(s.table, 0);
    RecordEffect(s, u);
  }

  lemma ReclaimingMakesRoom(t: Table, live: set<Id>)
    requires WellFormed(t) && NoSlotIsFree(t)
    ensures var r := Reclaim(t, live);
      WellFormed(r) && (NoSlotIsFree(r) <==> forall i :: 0 <= i < |t| ==> t[i].id in live)
  {
    ReclaimKeepsTable(t, live);
    var r := Reclaim(t, live);
    assert forall i :: 0 <= i < |t| ==> (r[i].id != 0 <==> t[i].id in live);
  }

  // Every answer to one update, and exactly when it is given.
  lemma StepOutcome(s: Shadow, u: Update, live: Liveness)
    requires WellFormed(s.table) && s.status == 0
    ensures var status := Step(s, u, live).status;
      && (status == EINVAL <==> s.table == [] || u.sequence == 0 || !IsCommandBuffer(u.id))
      && (status == ESTALE <==> status != EINVAL && u.id in Ids(s.table) && u.sequence <= Last(s.table, u.id))
      && (status == ENOSPC <==> status != EINVAL && u.id !in Ids(s.table) && IsFull(s, live))
      && (status == 0 <==> status != EINVAL && status != ESTALE && status != ENOSPC)
  {
    RecordOutcome(s, u);
    if NeedsRoom(s, u, live) {
      RoomForNewcomer(s, u, live);
      ReclaimingMakesRoom(s.table, live.ids);
      RecordOutcome(MakeRoom(s, live.ids), u);
      HasSlot(MakeRoom(s, live.ids).table, u.id);
    }
  }

  // As many slots are reported reclaimed as buffers are forgotten.
  lemma {:induction false} DroppedCountsTheDead(t: Table, live: set<Id>)
    requires WellFormed(t)
    ensures Dropped(t, live) == |Ids(t) - live|
  {
    if t != [] {
      var q, g := t[..|t| - 1], t[|t| - 1];
      assert t == q + [g];
      IdsSnoc(q, g);
      DroppedCountsTheDead(q, live);
      MinusOneMore(Ids(q), live, g.id);
    }
  }

  lemma MinusOneMore(a: set<Id>, b: set<Id>, x: Id)
    requires x !in a
    ensures |a + {x} - b| == |a - b| + if x in b then 0 else 1
  {
    assert a + {x} - b == (a - b) + if x in b then {} else {x};
  }

  lemma KnownSnoc(t: Table, q: seq<Update>, u: Update)
    ensures Known(t, q + [u]) == Known(t, q) + {u.id}
  {
    var p := q + [u];
    assert p[|q|] == u && forall i :: 0 <= i < |q| ==> p[i] == q[i];
  }

  lemma {:induction false} KnownGrows(t: Table, p: seq<Update>, live: Liveness, k: nat)
    requires k <= |p|
    ensures Known(t, p[..k]) <= Known(t, p) && |Known(t, p[..k])| <= |Known(t, p)|
    ensures Reclaims(t, p[..k], live) ==> Reclaims(t, p, live)
  {
    assert forall i :: 0 <= i < k ==> p[..k][i] == p[i];
    Smaller(Known(t, p[..k]), Known(t, p));
  }

  lemma {:induction false} Smaller(a: set<Id>, b: set<Id>)
    requires a <= b
    ensures |a| <= |b|
  {
    assert b == a + (b - a);
  }

  lemma NamedSnoc(t: Table, q: seq<Update>, u: Update, live: Liveness, x: Id)
    ensures NamedSinceReclaiming(t, q + [u], live, x) <==>
      NamedSinceReclaiming(t, q, live, x) || (x == u.id && Reclaims(t, q + [u], live))
  {
    var p := q + [u];
    assert p[..|q| + 1] == p;
    assert forall m :: 0 <= m < |q| ==> p[m] == q[m] && p[..m + 1] == q[..m + 1];
    if NamedSinceReclaiming(t, q, live, x) {
      var m :| 0 <= m < |q| && q[m].id == x && Reclaims(t, q[..m + 1], live);
      assert p[m].id == x && Reclaims(t, p[..m + 1], live);
    }
    if x == u.id && Reclaims(t, p, live) {
      assert p[|q|].id == x && Reclaims(t, p[..|q| + 1], live);
    }
  }

  lemma HeldSnoc(t: Table, q: seq<Update>, u: Update, live: Liveness)
    ensures var p := q + [u];
      && (Reclaims(t, q, live) ==> Reclaims(t, p, live))
      && (Reclaims(t, p, live) == Reclaims(t, q, live) ==> Held(t, p, live) == Held(t, q, live) + {u.id})
      && (Reclaims(t, p, live) != Reclaims(t, q, live) ==> Held(t, p, live) == Held(t, q, live) * live.ids + {u.id})
  {
    var p := q + [u];
    KnownSnoc(t, q, u);
    assert p[..|q|] == q;
    KnownGrows(t, p, live, |q|);
    if !Reclaims(t, q, live) { NothingNamedYet(t, q, live); }
    forall x ensures NamedSinceReclaiming(t, p, live, x) <==>
      NamedSinceReclaiming(t, q, live, x) || (x == u.id && Reclaims(t, p, live))
    {
      NamedSnoc(t, q, u, live, x);
    }
  }

  lemma StepReclaims(t: Table, q: seq<Update>, u: Update, live: Liveness)
    requires WellFormed(t) && After(t, q, live).status == 0 && After(t, q + [u], live).status == 0
    requires After(t, q, live).tried <==> Reclaims(t, q, live)
    requires Ids(After(t, q, live).table) == Held(t, q, live)
    ensures After(t, q + [u], live).tried <==> Reclaims(t, q + [u], live)
  {
    var s, p := After(t, q, live), q + [u];
    var r := After(t, p, live);
    AfterSnoc(t, q, u, live);
    AfterIsWellFormed(t, q, live);
    AfterIsWellFormed(t, p, live);
    KnownSnoc(t, q, u);
    if s.tried {
      StepEffect(s, u, live);
      assert p[..|q|] == q;
      KnownGrows(t, p, live, |q|);
    } else {
      NothingNamedYet(t, q, live);
      if r.tried {
        ReclaimingStepWasFull(s, u, live);
      } else {
        StepIds(s, u, live);
        SlotsAndIds(r.table);
      }
    }
  }

  // A successful list reclaims exactly when it and the table name more buffers than there are
  // slots, and then just the dead buffers it does not name again from there on lose theirs.
  lemma {:induction false} ReclaimsWhenFull(t: Table, p: seq<Update>, live: Liveness)
    requires WellFormed(t) && After(t, p, live).status == 0
    ensures After(t, p, live).tried <==> Reclaims(t, p, live)
    ensures Ids(After(t, p, live).table) == Held(t, p, live)
  {
    if p == [] {
      SlotsAndIds(t);
    } else {
      var q, u := p[..|p| - 1], p[|p| - 1];
      assert p == q + [u];
      assert After(t, q, live).status == 0;
      ReclaimsWhenFull(t, q, live);
      StepReclaims(t, q, u, live);
      AfterIsWellFormed(t, q, live);
      StepIds(After(t, q, live), u, live);
      HeldSnoc(t, q, u, live);
    }
  }

  lemma NothingNamedYet(t: Table, q: seq<Update>, live: Liveness)
    requires !Reclaims(t, q, live)
    ensures Held(t, q, live) == Known(t, q)
    ensures forall x :: !NamedSinceReclaiming(t, q, live, x)
  {
    forall x ensures !NamedSinceReclaiming(t, q, live, x) {
      if NamedSinceReclaiming(t, q, live, x) {
        var m :| 0 <= m < |q| && q[m].id == x && Reclaims(t, q[..m + 1], live);
        KnownGrows(t, q, live, m + 1);
      }
    }
  }

  // Whoever has a slot after a successful list has the last sequence given to it, or the one it had.
  lemma {:induction false} HoldersRemember(t: Table, p: seq<Update>, live: Liveness, x: Id)
    requires WellFormed(t) && After(t, p, live).status == 0 && x != 0 && Has(After(t, p, live).table, x)
    ensures Last(After(t, p, live).table, x) == LastSequence(p, x, Last(t, x))
  {
    if p != [] {
      var q, u := p[..|p| - 1], p[|p| - 1];
      var s := After(t, q, live);
      AfterIsWellFormed(t, q, live);
      assert s.status == 0;
      StepEffect(s, u, live);
      if u.id != x {
        StepLeavesOthers(s, u, live, x);
        HoldersRemember(t, q, live, x);
      }
    }
  }

  // While table and list name no more buffers than there are slots, a successful list gives every
  // buffer strictly increasing sequences above the one it had; a live buffer always.
  lemma IncreasingWithinRoom(t: Table, p: seq<Update>, live: Liveness, x: Id)
    requires WellFormed(t) && After(t, p, live).status == 0 && x != 0
    requires Reclaims(t, p, live) ==> x in live.ids
    ensures Increasing(p, x, Last(t, x))
    ensures Last(After(t, p, live).table, x) == LastSequence(p, x, Last(t, x))
  {
    ReclaimsWhenFull(t, p, live);
    SuccessfulApply(t, p, live, x);
  }

  // A sequence at or below the last one of a buffer that the table or the list names is refused as
  // stale exactly while the buffer holds its slot; after that it is taken if a slot is left.
  lemma StaleIsCaughtUnlessForgotten(t: Table, p: seq<Update>, live: Liveness, x: Id, sequence: nat)
    requires WellFormed(t) && After(t, p, live).status == 0 && IsCommandBuffer(x) && x in Known(t, p)
    requires 0 < sequence <= LastSequence(p, x, Last(t, x))
    ensures After(t, p + [Update(x, sequence)], live).status
      == if x in Held(t, p, live) then ESTALE else if |Held(t, p, live)| < |t| then 0 else ENOSPC
  {
    var s, u := After(t, p, live), Update(x, sequence);
    AfterSnoc(t, p, u, live);
    AfterIsWellFormed(t, p, live);
    ReclaimsWhenFull(t, p, live);
    SlotsAndIds(s.table);
    HasSlot(s.table, 0);
    HasSlot(s.table, x);
    if p != [] {
      AfterIsWellFormed(t, p[..|p| - 1], live);
      StepEffect(After(t, p[..|p| - 1], live), p[|p| - 1], live);
    }
    if Has(s.table, x) {
      HoldersRemember(t, p, live, x);
    } else {
      assert s.tried;
      RecordEffect(s, u);
    }
  }

  // A dead buffer repeats its sequence within one list: three buffers on two slots, so the third
  // reclaims the slots of the first two, and the first is taken again as if it were new.
  lemma ForgottenBufferRepeatsItsSequence()
    ensures var a, b, c := MakeId(COMMAND_BUFFER, 1), MakeId(COMMAND_BUFFER, 2), MakeId(COMMAND_BUFFER, 3);
      var p := [Update(a, 5), Update(b, 9), Update(c, 1), Update(a, 5)];
      && After([FREE, FREE], p, Live({})).status == 0
      && After([FREE, FREE], p, Live({})).table == [Generation(c, 1), Generation(a, 5)]
      && !Increasing(p, a, 0)
  {
    var a, b, c := MakeId(COMMAND_BUFFER, 1), MakeId(COMMAND_BUFFER, 2), MakeId(COMMAND_BUFFER, 3);
    IdRoundTrip(0, COMMAND_BUFFER, 1, COMMAND_BUFFER);
    IdRoundTrip(0, COMMAND_BUFFER, 2, COMMAND_BUFFER);
    IdRoundTrip(0, COMMAND_BUFFER, 3, COMMAND_BUFFER);
    var p := [Update(a, 5), Update(b, 9), Update(c, 1), Update(a, 5)];
    var t, live := [FREE, FREE], Live({});
    assert After(t, [], live) == Shadow(t, false, 0, 0);
    assert p[..1] == [] + [p[0]] && p[..2] == p[..1] + [p[1]] && p[..3] == p[..2] + [p[2]] && p == p[..3] + [p[3]];
    AfterSnoc(t, [], p[0], live);
    assert After(t, p[..1], live) == Shadow([Generation(a, 5), FREE], false, 0, 0);
    AfterSnoc(t, p[..1], p[1], live);
    assert After(t, p[..2], live) == Shadow([Generation(a, 5), Generation(b, 9)], false, 0, 0);
    AfterSnoc(t, p[..2], p[2], live);
    assert Reclaim([Generation(a, 5), Generation(b, 9)], {}) == t;
    AfterSnoc(t, p[..3], p[3], live);
    assert p[0].id == p[3].id == a && p[0].sequence == p[3].sequence;
  }

  // ---------------------------------------------------------------- running out of room

  // The slot is taken by a buffer that is live, or was written since reclamation.
  ghost predicate HoldsItsSlot(t: Table, p: seq<Update>, live: Liveness, g: Generation) {
    && g.id != 0
    && (live.Live? ==> g.id in live.ids || exists m :: 0 <= m < |p| && p[m].id == g.id && After(t, p[..m + 1], live).tried)
  }

  ghost predicate NewcomersOnly(t: Table, p: seq<Update>, live: Liveness, r: Table) {
    forall i :: 0 <= i < |r| && r[i].id != 0 ==> HoldsItsSlot(t, p, live, r[i])
  }

  lemma HoldsItsSlotStill(t: Table, q: seq<Update>, u: Update, live: Liveness, g: Generation)
    requires HoldsItsSlot(t, q, live, g)
    ensures HoldsItsSlot(t, q + [u], live, g)
  {
    var p := q + [u];
    if live.Live? && g.id !in live.ids {
      var m :| 0 <= m < |q| && q[m].id == g.id && After(t, q[..m + 1], live).tried;
      assert p[m] == q[m] && p[..m + 1] == q[..m + 1];
    }
  }

  // The slots after a step are those before it (cleared of the dead, if the step reclaims) and
  // the one just written.
  lemma StepSlots(s: Shadow, u: Update, live: Liveness, i: nat)
    requires i < |s.table|
    ensures var r := Step(s, u, live);
      && |r.table| == |s.table|
      && (r.table[i].id == 0 || r.table[i].id == u.id || r.table[i] == s.table[i])
      && (r.tried && !s.tried && r.table[i].id != 0 && r.table[i].id != u.id ==> live.Live? && r.table[i].id in live.ids)
  {
  }

  lemma {:induction false} AfterReclaimingOnlyNewcomers(t: Table, p: seq<Update>, live: Liveness)
    requires WellFormed(t) && After(t, p, live).tried
    ensures NewcomersOnly(t, p, live, After(t, p, live).table)
  {
    if p == [] {
      return;
    }
    var q, u := p[..|p| - 1], p[|p| - 1];
    assert p == q + [u];
    var s, r := After(t, q, live), After(t, p, live);
    if s.tried {
      AfterReclaimingOnlyNewcomers(t, q, live);
    }
    forall i | 0 <= i < |r.table| && r.table[i].id != 0 ensures HoldsItsSlot(t, p, live, r.table[i]) {
      SameLength(s, u, live);
      StepSlots(s, u, live, i);
      if r.table[i].id == u.id {
        assert p[..|q| + 1] == p && p[|q|] == u;
      } else if s.tried {
        HoldsItsSlotStill(t, q, u, live, r.table[i]);
      }
    }
  }

  lemma SameLength(s: Shadow, u: Update, live: Liveness)
    ensures |Step(s, u, live).table| == |s.table|
  {
  }

  // Out of space means what it says: no slot is free and, when liveness is known, every slot
  // belongs to a live buffer or was written since the table was cleared of dead ones.
  lemma {:induction false} OutOfSpaceIsReal(t: Table, p: seq<Update>, live: Liveness)
    requires WellFormed(t) && After(t, p, live).status == ENOSPC
    ensures var s := After(t, p, live);
      && (live.Live? ==> s.tried)
      && forall i :: 0 <= i < |s.table| ==> HoldsItsSlot(t, p, live, s.table[i])
  {
    var q, u := p[..|p| - 1], p[|p| - 1];
    var s, r := After(t, q, live), After(t, p, live);
    AfterIsWellFormed(t, q, live);
    assert p == q + [u];
    if s.status != 0 {
      OutOfSpaceIsReal(t, q, live);
      forall i | 0 <= i < |r.table| ensures HoldsItsSlot(t, p, live, r.table[i]) {
        HoldsItsSlotStill(t, q, u, live, r.table[i]);
      }
    } else {
      NoSpaceMeansFull(s, u, live);
      assert !Has(r.table, 0);
      assert forall i :: 0 <= i < |r.table| ==> r.table[i].id != 0;
      if live.Live? { AfterReclaimingOnlyNewcomers(t, p, live); }
    }
  }

  lemma NoSpaceMeansFull(s: Shadow, u: Update, live: Liveness)
    requires WellFormed(s.table) && s.status == 0 && Step(s, u, live).status == ENOSPC
    ensures !Has(Step(s, u, live).table, 0) && (live.Live? ==> Step(s, u, live).tried)
  {
    if NeedsRoom(s, u, live) {
      ReclaimKeepsTable(s.table, live.ids);
      RecordEffect(MakeRoom(s, live.ids), u);
    } else {
      RecordEffect(s, u);
    }
  }

  // ---------------------------------------------------------------- implementation

  class Generations {
    var slots: array<Generation>

    constructor (size: nat)
      ensures fresh(slots) && slots.Length == size && WellFormed(slots[..])
    {
      slots := new Generation[size](_ => FREE);
    }

    // Applies all updates to a copy, if there is room for one, and keeps the copy only if none failed.
    method Apply(updates: seq<Update>, live: Liveness, room: bool) returns (status: int, reclaimed: nat)
      requires WellFormed(slots[..])
      modifies slots
      ensures WellFormed(slots[..])
      ensures var s := After(old(slots[..]), updates, live);
        && status == (if slots.Length == 0 then EINVAL else if updates != [] && !room then ENOMEM else s.status)
        && slots[..] == (if status == 0 then s.table else old(slots[..]))
        && reclaimed == (if status == 0 then s.reclaimed else 0)
    {
      reclaimed := 0;
      if slots.Length == 0 {
        return EINVAL, 0;
      }
      if updates == [] {
        return 0, 0;
      }
      if !room {
        return ENOMEM, 0;
      }
      ghost var t := slots[..];
      var shadow := new Generation[slots.Length](i requires 0 <= i < slots.Length reads this, slots => slots[i]);
      assert shadow[..] == t;
      var dropped, tried := 0, false;
      status := 0;
      var k := 0;
      while status == 0 && k < |updates|
        invariant k <= |updates| && WellFormed(shadow[..])
        invariant slots[..] == t
        invariant After(t, updates[..k], live) == Shadow(shadow[..], tried, dropped, status)
        decreases |updates| - k
      {
        AfterSnoc(t, updates[..k], updates[k], live);
        AfterIsWellFormed(t, updates[..k + 1], live);
        assert updates[..k + 1] == updates[..k] + [updates[k]];
        var more;
        status, tried, more := ApplyOne(shadow, updates[k], live, tried);
        dropped := dropped + more;
        k := k + 1;
      }
      if status != 0 {
        AfterFailureStays(t, updates, live, k);
      } else {
        forall i | 0 <= i < slots.Length { slots[i] := shadow[i]; }
        reclaimed := dropped;
        assert slots[..] == shadow[..];
        assert updates[..k] == updates;
      }
    }
  }

  lemma {:induction false} AfterFailureStays(t: Table, p: seq<Update>, live: Liveness, k: nat)
    requires k <= |p| && After(t, p[..k], live).status != 0
    ensures After(t, p, live) == After(t, p[..k], live)
  {
    if k == |p| {
      assert p[..k] == p;
    } else {
      assert p[..|p| - 1][..k] == p[..k];
      AfterFailureStays(t, p[..|p| - 1], live, k);
    }
  }

  method CheckSlots(slots: array<Generation>, id: Id, sequence: nat) returns (checked: Checked)
    ensures checked == Check(slots[..], id, sequence)
  {
    if slots.Length == 0 || sequence == 0 || !Expect(id, COMMAND_BUFFER) {
      return Refused(EINVAL);
    }
    ghost var t := slots[..];
    var empty := slots.Length;
    for index := 0 to slots.Length
      invariant forall i :: 0 <= i < index ==> t[i].id != id
      invariant 0 <= empty <= slots.Length
      invariant empty < slots.Length ==> empty < index && t[empty].id == 0 && forall i :: 0 <= i < empty ==> t[i].id != 0
      invariant empty == slots.Length ==> forall i :: 0 <= i < index ==> t[i].id != 0
    {
      if slots[index].id == id {
        assert Find(t, id) == index;
        if sequence <= slots[index].last {
          return Refused(ESTALE);
        }
        return Slot(index);
      }
      if empty == slots.Length && slots[index].id == 0 {
        empty := index;
      }
    }
    if empty == slots.Length {
      return Refused(ENOSPC);
    }
    assert Find(t, 0) == empty;
    checked := Slot(empty);
  }

  method Commit(slots: array<Generation>, index: nat, id: Id, sequence: nat) returns (status: int)
    modifies slots
    ensures status == if MayCommit(old(slots[..]), index, id, sequence) then 0 else EINVAL
    ensures slots[..] == if status == 0 then old(slots[..])[index := Generation(id, sequence)] else old(slots[..])
  {
    if index >= slots.Length || sequence == 0 || !Expect(id, COMMAND_BUFFER)
      || (slots[index].id != 0 && slots[index].id != id) || sequence <= slots[index].last
    {
      return EINVAL;
    }
    slots[index] := Generation(id, sequence);
    status := 0;
  }

  method ForgetDead(slots: array<Generation>, live: set<Id>) returns (dropped: nat)
    modifies slots
    ensures slots[..] == Reclaim(old(slots[..]), live) && dropped == Dropped(old(slots[..]), live)
  {
    dropped := 0;
    ghost var t := slots[..];
    for index := 0 to slots.Length
      invariant forall i :: 0 <= i < index ==> slots[i] == Kept(t[i], live)
      invariant forall i :: index <= i < slots.Length ==> slots[i] == t[i]
      invariant dropped == Dropped(t[..index], live)
    {
      assert t[..index + 1][..index] == t[..index];
      if slots[index].id != 0 && slots[index].id !in live {
        slots[index] := FREE;
        dropped := dropped + 1;
      }
    }
    assert t[..slots.Length] == t;
    assert slots[..] == Reclaim(t, live);
  }

  method ApplyOne(slots: array<Generation>, u: Update, live: Liveness, attempted: bool)
    returns (status: int, tried: bool, dropped: nat)
    modifies slots
    ensures forall reclaimed: nat ::
      Step(Shadow(old(slots[..]), attempted, reclaimed, 0), u, live) == Shadow(slots[..], tried, reclaimed + dropped, status)
  {
    tried, dropped := attempted, 0;
    var checked := CheckSlots(slots, u.id, u.sequence);
    if checked == Refused(ENOSPC) && live.Live? && !attempted {
      tried := true;
      dropped := ForgetDead(slots, live.ids);
      checked := CheckSlots(slots, u.id, u.sequence);
    }
    match checked
    case Refused(reason) =>
      status := reason;
    case Slot(index) =>
      status := Commit(slots, index, u.id, u.sequence);
  }
}
