/**
 * Two-phase submission of shared command streams: every stream of a submit
 * is copied and checked and the replay protection updated before any is
 * replayed.
 */
module StreamSubmit {
  import opened Errno
  import opened Handles
  import opened Wire
  import opened BatchFraming
  import opened StreamGenerations
  import CommandBatch

  const REGION_BYTES: nat := 64 * 2 * 1024 * 1024
  const TABLE_SIZE: nat := 4096
  const SHARED_STREAM: nat := 1

  // One command buffer of a submit; flags are zero when it brings no stream.
  datatype Stream = Stream(id: Id, flags: nat, generation: nat, offset: nat, length: nat, sequence: nat)

  datatype Event =
    | Submitted(live: set<Id>)
    | Replayed(id: Id, sequence: nat, bytes: seq<byte>, status: int)

  function Chosen(commands: seq<Stream>): (streams: seq<Stream>)
    ensures forall i :: 0 <= i < |streams| ==> streams[i].flags != 0
  {
    if commands == [] then []
    else
      var rest := Chosen(commands[..|commands| - 1]);
      if commands[|commands| - 1].flags != 0 then rest + [commands[|commands| - 1]] else rest
  }

  predicate HasStream(commands: seq<Stream>) {
    exists i :: 0 <= i < |commands| && commands[i].flags == SHARED_STREAM
  }

  function Updates(streams: seq<Stream>): (updates: seq<Update>)
    ensures |updates| == |streams|
    ensures forall i :: 0 <= i < |streams| ==> updates[i] == Update(streams[i].id, streams[i].sequence)
  {
    seq(|streams|, i requires 0 <= i < |streams| => Update(streams[i].id, streams[i].sequence))
  }

  // The private copy is a batch of this very stream.
  predicate IsBatchOf(copy: seq<byte>, s: Stream) {
    var p := Parse(copy, CommandBatch.Checked());
    p.Accepted? && p.info.id == s.id && p.info.sequence == s.sequence && p.info.length == s.length == |copy|
  }

  predicate InBounds(s: Stream, generation: nat) {
    s.generation == generation && s.offset <= REGION_BYTES && s.length <= REGION_BYTES - s.offset
  }

  ghost predicate DistinctIds(streams: seq<Stream>) {
    forall i, j :: 0 <= i < j < |streams| ==> streams[i].id != streams[j].id
  }

  // Everything the first phase establishes about the chosen streams and their copies.
  ghost predicate PassedPhaseOne(streams: seq<Stream>, copies: seq<seq<byte>>, generation: nat) {
    && |copies| == |streams|
    && DistinctIds(streams)
    && forall i :: 0 <= i < |streams| ==> InBounds(streams[i], generation) && IsBatchOf(copies[i], streams[i])
  }

  // ---------------------------------------------------------------- what the world answers

  // What one check of a stream meets: whether there is room for a copy, what the region holds while
  // it is copied, and what the driver says of the copy.
  datatype Look = Look(room: bool, memory: nat -> byte, driver: int)

  // What one submit meets: the driver's answer to the submit as a whole, a look for every command,
  // whether there is room to apply the updates, and the driver's answers to the replays in order.
  datatype World = World(submit: int, looks: nat -> Look, room: bool, replays: nat -> int)

  function PrivateCopy(s: Stream, look: Look): (copy: seq<byte>)
    ensures |copy| == s.length
  {
    Contents(look.memory, s.offset, s.length)
  }

  predicate RepeatsEarlier(commands: seq<Stream>, index: nat)
    requires index < |commands|
  {
    exists i :: 0 <= i < index && commands[i].flags != 0 && commands[i].id == commands[index].id
  }

  // The status of the first phase for one stream: the first thing wrong with it.
  function StreamStatus(commands: seq<Stream>, index: nat, generation: nat, look: Look): int
    requires index < |commands|
  {
    var s := commands[index];
    if s.generation != generation then ESTALE
    else if !InBounds(s, generation) then ERANGE
    else if RepeatsEarlier(commands, index) then EPROTO
    else if s.length == 0 || s.length > MAX_BYTES then EINVAL
    else if !look.room then ENOMEM
    else
      match Parse(PrivateCopy(s, look), CommandBatch.Checked())
      case Rejected(status) => status
      case Accepted(_, _) => if IsBatchOf(PrivateCopy(s, look), s) then look.driver else ESTALE
  }

  // The first phase stops at the first stream with an error.
  function PhaseOne(commands: seq<Stream>, count: nat, generation: nat, looks: nat -> Look): int
    requires count <= |commands|
  {
    if count == 0 then 0
    else
      var before := PhaseOne(commands, count - 1, generation, looks);
      if before != 0 || commands[count - 1].flags == 0 then before
      else StreamStatus(commands, count - 1, generation, looks(count - 1))
  }

  function Copies(commands: seq<Stream>, count: nat, looks: nat -> Look): seq<seq<byte>>
    requires count <= |commands|
  {
    if count == 0 then []
    else
      var before := Copies(commands, count - 1, looks);
      if commands[count - 1].flags == 0 then before else before + [PrivateCopy(commands[count - 1], looks(count - 1))]
  }

  // What keeps a submit with streams from replaying anything, or zero.
  function Refusal(commands: seq<Stream>, attached: bool, generation: nat, t: Table, live: set<Id>, world: World): int {
    var checked := PhaseOne(commands, |commands|, generation, world.looks);
    if !attached then EPROTO
    else if world.submit != 0 then world.submit
    else if checked != 0 then checked
    else if !world.room then ENOMEM
    else After(t, Updates(Chosen(commands)), Live(live)).status
  }

  // A stream is in order: inside the region, the only one of its buffer so far, copied, a batch of
  // that very stream, and accepted by the driver.
  predicate StreamIsGood(commands: seq<Stream>, index: nat, generation: nat, look: Look)
    requires index < |commands|
  {
    var s := commands[index];
    && InBounds(s, generation) && !RepeatsEarlier(commands, index)
    && 0 < s.length && look.room && IsBatchOf(PrivateCopy(s, look), s) && look.driver == 0
  }

  // A stream passes exactly when it is in order.
  lemma StreamPasses(commands: seq<Stream>, index: nat, generation: nat, look: Look)
    requires index < |commands|
    ensures StreamStatus(commands, index, generation, look) == 0 <==> StreamIsGood(commands, index, generation, look)
  {
    ParseLength(PrivateCopy(commands[index], look));
  }

  // The validator refuses with an error, and accepts nothing that is too long.
  lemma ParseLength(b: seq<byte>)
    ensures match Parse(b, CommandBatch.Checked())
      case Accepted(info, _) => info.length == |b| <= MAX_BYTES
      case Rejected(status) => status != 0
  {
  }

  // The first phase passes exactly when every chosen stream is in order; two of one buffer never are.
  lemma {:induction false} PhaseOnePasses(commands: seq<Stream>, count: nat, generation: nat, looks: nat -> Look)
    requires count <= |commands|
    ensures PhaseOne(commands, count, generation, looks) == 0 <==>
      forall i :: 0 <= i < count && commands[i].flags != 0 ==> StreamIsGood(commands, i, generation, looks(i))
  {
    if count > 0 {
      PhaseOnePasses(commands, count - 1, generation, looks);
      StreamPasses(commands, count - 1, generation, looks(count - 1));
    }
  }

  // The events of one submit's second phase: the checked copies in order, the last of them with
  // the submit's own status, all before it without error.
  ghost predicate ReplaysOf(events: seq<Event>, streams: seq<Stream>, copies: seq<seq<byte>>, status: int) {
    && |events| <= |streams| && |copies| == |streams|
    && (forall i :: 0 <= i < |events| ==>
          events[i] == Replayed(streams[i].id, streams[i].sequence, copies[i], if i == |events| - 1 then status else 0))
    && (if status == 0 then |events| == |streams| else |events| > 0)
  }

  // The replays got these answers.
  ghost predicate Answered(events: seq<Event>, answers: nat -> int) {
    forall i :: 0 <= i < |events| ==> events[i].Replayed? && events[i].status == answers(i)
  }

  // ---------------------------------------------------------------- replay protection over submits

  // The position of the submit that event i belongs to.
  function SubmitOf(events: seq<Event>, i: nat): (k: nat)
    requires i < |events|
    ensures k <= i
  {
    if events[i].Submitted? || i == 0 then i else SubmitOf(events, i - 1)
  }

  lemma {:induction false} SubmitOfPrefix(events: seq<Event>, more: seq<Event>, i: nat)
    requires i < |events|
    ensures SubmitOf(events + more, i) == SubmitOf(events, i)
  {
    if !events[i].Submitted? && i > 0 { SubmitOfPrefix(events, more, i - 1); }
  }

  // Some submit from event i's own on found x not live.
  ghost predicate DiedSince(events: seq<Event>, i: nat, x: Id)
    requires i < |events|
  {
    exists k :: SubmitOf(events, i) <= k < |events| && events[k].Submitted? && x !in events[k].live
  }

  // The table still remembers every replay of a buffer that stayed live.
  ghost predicate Remembers(t: Table, events: seq<Event>) {
    forall i :: 0 <= i < |events| && events[i].Replayed? ==>
      && events[i].id != 0
      && (DiedSince(events, i, events[i].id) || events[i].sequence <= Last(t, events[i].id))
  }

  predicate SameReplay(a: Event, b: Event) {
    a.Replayed? && b.Replayed? && a.id == b.id && a.sequence == b.sequence
  }

  // Two replays of the same stream have a death of its buffer between the submits.
  ghost predicate NoReplayTwice(events: seq<Event>) {
    forall i, j :: 0 <= i < j < |events| && SameReplay(events[i], events[j]) ==> DiedSince(events[..j], i, events[i].id)
  }

  lemma DiedSinceGrows(events: seq<Event>, more: seq<Event>, i: nat, x: Id)
    requires i < |events|
    ensures DiedSince(events, i, x) ==> DiedSince(events + more, i, x)
  {
    SubmitOfPrefix(events, more, i);
    if DiedSince(events, i, x) {
      var k :| SubmitOf(events, i) <= k < |events| && events[k].Submitted? && x !in events[k].live;
      assert (events + more)[k] == events[k];
    }
  }

  // A submit that replays nothing keeps both facts.
  lemma SubmitStarts(t: Table, events: seq<Event>, live: set<Id>)
    requires Remembers(t, events) && NoReplayTwice(events)
    ensures Remembers(t, events + [Submitted(live)]) && NoReplayTwice(events + [Submitted(live)])
  {
    var next := events + [Submitted(live)];
    forall i | 0 <= i < |next| && next[i].Replayed?
      ensures next[i].id != 0 && (DiedSince(next, i, next[i].id) || next[i].sequence <= Last(t, next[i].id))
    {
      DiedSinceGrows(events, [Submitted(live)], i, next[i].id);
    }
    forall j | 0 <= j <= |events| ensures next[..j] == events[..j] {}
  }

  // Applying the updates of a submit keeps the memory of every buffer that is live in it.
  lemma ApplyRemembers(t: Table, events: seq<Event>, live: set<Id>, updates: seq<Update>)
    requires Remembers(t, events) && WellFormed(t)
    requires events != [] && events[|events| - 1] == Submitted(live)
    requires After(t, updates, Live(live)).status == 0
    ensures Remembers(After(t, updates, Live(live)).table, events)
  {
    var last := |events| - 1;
    forall i | 0 <= i < |events| && events[i].Replayed?
      ensures DiedSince(events, i, events[i].id) || events[i].sequence <= Last(After(t, updates, Live(live)).table, events[i].id)
    {
      var x := events[i].id;
      if x in live {
        SuccessfulApply(t, updates, Live(live), x);
        LastSequenceIsLargest(updates, x, Last(t, x));
      } else {
        assert events[last].Submitted? && x !in events[last].live;
      }
    }
  }

  // The open submit starts at position at, and everything since is its replays.
  ghost predicate OpenAt(events: seq<Event>, at: nat, live: set<Id>) {
    at < |events| && events[at] == Submitted(live) && forall i :: at < i < |events| ==> events[i].Replayed?
  }

  lemma {:induction false} SubmitOfOpen(events: seq<Event>, at: nat, live: set<Id>, i: nat)
    requires OpenAt(events, at, live) && at <= i < |events|
    ensures SubmitOf(events, i) == at
  {
    if i > at { SubmitOfOpen(events, at, live, i - 1); }
  }

  // Every earlier replay of x has a smaller sequence or lies before a death of x.
  ghost predicate Fresh(events: seq<Event>, x: Id, sequence: nat) {
    forall i :: 0 <= i < |events| && events[i].Replayed? && events[i].id == x ==>
      DiedSince(events, i, x) || events[i].sequence < sequence
  }

  lemma FreshAfterApply(t: Table, events: seq<Event>, live: set<Id>, updates: seq<Update>, m: nat)
    requires WellFormed(t) && Remembers(t, events) && m < |updates|
    requires events != [] && events[|events| - 1] == Submitted(live)
    requires After(t, updates, Live(live)).status == 0 && updates[m].id != 0
    ensures Fresh(events, updates[m].id, updates[m].sequence)
    ensures updates[m].id in live ==> updates[m].sequence <= Last(After(t, updates, Live(live)).table, updates[m].id)
  {
    var x, last := updates[m].id, |events| - 1;
    if x in live {
      SuccessfulApply(t, updates, Live(live), x);
      LastSequenceIsLargest(updates, x, Last(t, x));
    } else {
      assert events[last].Submitted? && x !in events[last].live;
    }
  }

  lemma FreshGrows(events: seq<Event>, x: Id, sequence: nat, e: Event)
    requires Fresh(events, x, sequence) && e.Replayed? && e.id != x
    ensures Fresh(events + [e], x, sequence)
  {
    forall i | 0 <= i < |events| && events[i].Replayed? && events[i].id == x
      ensures DiedSince(events + [e], i, x) || events[i].sequence < sequence
    {
      DiedSinceGrows(events, [e], i, x);
    }
  }

  // One more replay of the open submit.
  lemma ReplayKeeps(t: Table, events: seq<Event>, at: nat, live: set<Id>, e: Event)
    requires OpenAt(events, at, live) && Remembers(t, events) && NoReplayTwice(events)
    requires e.Replayed? && e.id != 0 && Fresh(events, e.id, e.sequence)
    requires e.id in live ==> e.sequence <= Last(t, e.id)
    ensures OpenAt(events + [e], at, live) && Remembers(t, events + [e]) && NoReplayTwice(events + [e])
  {
    var next := events + [e];
    assert forall i :: 0 <= i < |events| ==> next[i] == events[i];
    forall i | 0 <= i < |events| && events[i].Replayed?
      ensures DiedSince(next, i, events[i].id) || events[i].sequence <= Last(t, events[i].id)
    {
      DiedSinceGrows(events, [e], i, events[i].id);
    }
    SubmitOfOpen(next, at, live, |events|);
    assert e.id !in live ==> next[at].Submitted? && e.id !in next[at].live;
    assert next[..|events|] == events;
    forall i, j | 0 <= i < j < |next| && SameReplay(next[i], next[j]) ensures DiedSince(next[..j], i, next[i].id) {
      if j < |events| { assert next[..j] == events[..j]; }
    }
  }

  // The streams from k on may be replayed next, in order.
  ghost predicate ReadyFrom(t: Table, events: seq<Event>, live: set<Id>, streams: seq<Stream>, k: nat) {
    forall m :: k <= m < |streams| ==>
      && streams[m].id != 0
      && Fresh(events, streams[m].id, streams[m].sequence)
      && (streams[m].id in live ==> streams[m].sequence <= Last(t, streams[m].id))
  }

  lemma ReadyNext(t: Table, events: seq<Event>, live: set<Id>, streams: seq<Stream>, k: nat, e: Event)
    requires ReadyFrom(t, events, live, streams, k) && DistinctIds(streams) && k < |streams|
    requires e.Replayed? && e.id == streams[k].id
    ensures ReadyFrom(t, events + [e], live, streams, k + 1)
  {
    forall m | k < m < |streams| ensures Fresh(events + [e], streams[m].id, streams[m].sequence) {
      FreshGrows(events, streams[m].id, streams[m].sequence, e);
    }
  }

  // What a successful apply leaves to phase two.
  lemma ApplyMakesReady(t: Table, events: seq<Event>, live: set<Id>, streams: seq<Stream>)
    requires WellFormed(t) && Remembers(t, events)
    requires events != [] && events[|events| - 1] == Submitted(live)
    requires After(t, Updates(streams), Live(live)).status == 0
    ensures var r := After(t, Updates(streams), Live(live)).table;
      Remembers(r, events) && ReadyFrom(r, events, live, streams, 0)
  {
    var updates := Updates(streams);
    ApplyRemembers(t, events, live, updates);
    AppliedUpdatesAreReal(t, updates, Live(live));
    forall m | 0 <= m < |streams|
      ensures streams[m].id != 0 && Fresh(events, streams[m].id, streams[m].sequence)
      ensures streams[m].id in live ==> streams[m].sequence <= Last(After(t, updates, Live(live)).table, streams[m].id)
    {
      assert updates[m].id != 0;
      FreshAfterApply(t, events, live, updates, m);
    }
  }

  // ---------------------------------------------------------------- the submit path

  lemma {:induction false} ChosenAvoids(commands: seq<Stream>, x: Id)
    requires forall i :: 0 <= i < |commands| && commands[i].flags != 0 ==> commands[i].id != x
    ensures forall i :: 0 <= i < |Chosen(commands)| ==> Chosen(commands)[i].id != x
  {
    if commands != [] { ChosenAvoids(commands[..|commands| - 1], x); }
  }

  lemma ChosenSnoc(commands: seq<Stream>, index: nat)
    requires index < |commands|
    ensures Chosen(commands[..index + 1])
         == if commands[index].flags != 0 then Chosen(commands[..index]) + [commands[index]] else Chosen(commands[..index])
  {
    assert commands[..index + 1][..index] == commands[..index];
  }

  lemma DistinctSnoc(commands: seq<Stream>, s: Stream)
    requires DistinctIds(Chosen(commands))
    requires forall i :: 0 <= i < |commands| && commands[i].flags != 0 ==> commands[i].id != s.id
    ensures DistinctIds(Chosen(commands) + [s])
  {
    ChosenAvoids(commands, s.id);
  }

  lemma PhaseOneSnoc(streams: seq<Stream>, copies: seq<seq<byte>>, generation: nat, s: Stream, copy: seq<byte>)
    requires PassedPhaseOne(streams, copies, generation) && DistinctIds(streams + [s])
    requires InBounds(s, generation) && IsBatchOf(copy, s)
    ensures PassedPhaseOne(streams + [s], copies + [copy], generation)
    ensures Updates(streams + [s]) == Updates(streams) + [Update(s.id, s.sequence)]
  {
  }

  lemma {:induction false} ErrorStays(commands: seq<Stream>, count: nat, generation: nat, looks: nat -> Look)
    requires count <= |commands| && PhaseOne(commands, count, generation, looks) != 0
    ensures PhaseOne(commands, |commands|, generation, looks) == PhaseOne(commands, count, generation, looks)
    decreases |commands| - count
  {
    if count < |commands| { ErrorStays(commands, count + 1, generation, looks); }
  }

  lemma {:induction false} PhaseOneEstablishes(commands: seq<Stream>, count: nat, generation: nat, looks: nat -> Look)
    requires count <= |commands| && PhaseOne(commands, count, generation, looks) == 0
    ensures PassedPhaseOne(Chosen(commands[..count]), Copies(commands, count, looks), generation)
  {
    if count > 0 {
      var index := count - 1;
      PhaseOneEstablishes(commands, index, generation, looks);
      ChosenSnoc(commands, index);
      if commands[index].flags != 0 {
        var s := commands[index];
        StreamPasses(commands, index, generation, looks(index));
        DistinctSnoc(commands[..index], s);
        PhaseOneSnoc(Chosen(commands[..index]), Copies(commands, index, looks), generation, s, PrivateCopy(s, looks(index)));
      }
    }
  }

  class SubmitService {
    const generations: Generations
    const attached: bool      // a command stream region of the right size is mapped
    const generation: nat
    var events: seq<Event>

    ghost predicate Valid()
      reads this, generations, generations.slots
    {
      && generations.slots.Length == TABLE_SIZE
      && WellFormed(generations.slots[..])
      && Remembers(generations.slots[..], events)
      && NoReplayTwice(events)
    }

    constructor (attached: bool, generation: nat)
      ensures Valid() && events == [] && fresh(generations) && fresh(generations.slots)
    {
      generations := new Generations(TABLE_SIZE);
      this.attached := attached;
      this.generation := generation;
      events := [];
    }

    // A private copy of the stream's part of shared memory, as it is at that moment.
    method Snapshot(s: Stream, look: Look) returns (status: int, copy: seq<byte>)
      ensures status == if s.length == 0 || s.length > MAX_BYTES then EINVAL else if !look.room then ENOMEM else 0
      ensures copy == if status == 0 then PrivateCopy(s, look) else []
    {
      copy := [];
      if s.length == 0 || s.length > MAX_BYTES {
        return EINVAL, copy;
      }
      if !look.room {
        return ENOMEM, copy;
      }
      copy := CopyOut(look.memory, s.offset, s.length);
      status := 0;
    }

    // Phase one for one stream: bounds, duplicates, header, validation.
    method CheckStream(commands: seq<Stream>, index: nat, look: Look) returns (status: int, copy: seq<byte>)
      requires index < |commands|
      ensures status == StreamStatus(commands, index, generation, look)
      ensures status == 0 ==> copy == PrivateCopy(commands[index], look)
    {
      copy := [];
      var s := commands[index];
      if s.generation != generation || s.offset > REGION_BYTES || s.length > REGION_BYTES - s.offset {
        return if s.generation != generation then ESTALE else ERANGE, copy;
      }
      for earlier := 0 to index
        invariant forall i :: 0 <= i < earlier && commands[i].flags != 0 ==> commands[i].id != s.id
      {
        if commands[earlier].flags != 0 && commands[earlier].id == s.id {
          return EPROTO, copy;
        }
      }
      status, copy := Snapshot(s, look);
      if status == 0 {
        var info;
        status, info := Validate(copy, CommandBatch.Checked());
        ParseLength(copy);
        if status == 0 && (info.id != s.id || info.sequence != s.sequence || info.length != s.length) {
          status := ESTALE;
        } else if status == 0 {
          status := look.driver;  // the driver's own validation of the copy
        }
      }
    }

    method CheckAll(commands: seq<Stream>, looks: nat -> Look) returns (status: int, copies: seq<seq<byte>>, updates: seq<Update>)
      ensures status == PhaseOne(commands, |commands|, generation, looks)
      ensures status == 0 ==> copies == Copies(commands, |commands|, looks) && updates == Updates(Chosen(commands))
      ensures status == 0 ==> PassedPhaseOne(Chosen(commands), copies, generation)
    {
      status, copies, updates := 0, [], [];
      var index := 0;
      while status == 0 && index < |commands|
        invariant index <= |commands| && status == PhaseOne(commands, index, generation, looks)
        invariant status == 0 ==> copies == Copies(commands, index, looks) && updates == Updates(Chosen(commands[..index]))
        decreases |commands| - index
      {
        ChosenSnoc(commands, index);
        if commands[index].flags != 0 {
          var copy;
          status, copy := CheckStream(commands, index, looks(index));
          if status == 0 {
            updates := updates + [Update(commands[index].id, commands[index].sequence)];
            copies := copies + [copy];
          }
        }
        index := index + 1;
      }
      if status != 0 {
        ErrorStays(commands, index, generation, looks);
      } else {
        assert commands[..index] == commands;
        PhaseOneEstablishes(commands, index, generation, looks);
      }
    }

    // Phase two: the copies, in order, up to the first native error.
    method ReplayAll(ghost live: set<Id>, streams: seq<Stream>, copies: seq<seq<byte>>, answers: nat -> int) returns (status: int)
      requires events != [] && events[|events| - 1] == Submitted(live)
      requires Remembers(generations.slots[..], events) && NoReplayTwice(events)
      requires DistinctIds(streams) && |copies| == |streams|
      requires ReadyFrom(generations.slots[..], events, live, streams, 0)
      modifies this
      ensures Remembers(generations.slots[..], events) && NoReplayTwice(events)
      ensures |old(events)| <= |events| && events[..|old(events)|] == old(events)
      ensures ReplaysOf(events[|old(events)|..], streams, copies, status)
      ensures Answered(events[|old(events)|..], answers)
    {
      ghost var start, at := events, |events| - 1;
      ghost var t := generations.slots[..];
      ghost var replays: seq<Event> := [];
      status := 0;
      var k := 0;
      while status == 0 && k < |streams|
        invariant k <= |streams| && OpenAt(events, at, live) && generations.slots[..] == t
        invariant Remembers(t, events) && NoReplayTwice(events)
        invariant |replays| == k && events == start + replays && (k == 0 ==> status == 0)
        invariant forall i :: 0 <= i < k ==>
          replays[i] == Replayed(streams[i].id, streams[i].sequence, copies[i], if i == k - 1 then status else 0)
        invariant Answered(replays, answers)
        invariant ReadyFrom(t, events, live, streams, k)
        decreases |streams| - k
      {
        var s := streams[k];
        status := answers(k);  // the driver replays the copy
        var e := Replayed(s.id, s.sequence, copies[k], status);
        ReplayKeeps(t, events, at, live, e);
        ReadyNext(t, events, live, streams, k, e);
        events := events + [e];
        replays := replays + [e];
        k := k + 1;
      }
      assert events[|start|..] == replays;
    }

    // One submit with the buffers in live alive.  Without a stream nothing happens.  With streams,
    // either something refuses it, and then nothing is replayed and the table is as before; or every
    // chosen stream passed phase one, the whole update list was applied, and the checked copies were
    // replayed in order, all of them or up to the first native error.
    method Submit(commands: seq<Stream>, live: set<Id>, world: World) returns (status: int, ghost copies: seq<seq<byte>>)
      requires Valid()
      modifies this, generations.slots
      ensures Valid()
      ensures |events| > |old(events)| && events[..|old(events)| + 1] == old(events) + [Submitted(live)]
      ensures var replays := events[|old(events)| + 1..];
        var streams, applied := Chosen(commands), After(old(generations.slots[..]), Updates(Chosen(commands)), Live(live));
        var refusal := Refusal(commands, attached, generation, old(generations.slots[..]), live, world);
        if !HasStream(commands) || refusal != 0 then
          && replays == [] && generations.slots[..] == old(generations.slots[..])
          && status == if HasStream(commands) then refusal else 0
        else
          && copies == Copies(commands, |commands|, world.looks) && PassedPhaseOne(streams, copies, generation)
          && applied.status == 0 && generations.slots[..] == applied.table
          && ReplaysOf(replays, streams, copies, status) && Answered(replays, world.replays)
    {
      copies := [];
      SubmitStarts(generations.slots[..], events, live);
      events := events + [Submitted(live)];
      var hasStream := AnyStream(commands);
      if !hasStream {
        return 0, copies;
      }
      if !attached {
        return EPROTO, copies;
      }
      status := world.submit;  // the driver's validation of the whole submit
      if status != 0 {
        return;
      }
      var snapshots, updates;
      status, snapshots, updates := CheckAll(commands, world.looks);
      copies := snapshots;
      if status == 0 {
        StreamIsChosen(commands);
        status := Commit(Chosen(commands), snapshots, updates, live, world);
      }
    }

    // The replay protection for all streams, and then their replays.
    method Commit(streams: seq<Stream>, snapshots: seq<seq<byte>>, updates: seq<Update>, live: set<Id>, world: World) returns (status: int)
      requires Valid() && events != [] && events[|events| - 1] == Submitted(live)
      requires DistinctIds(streams) && |snapshots| == |streams| && updates == Updates(streams) && streams != []
      modifies this, generations.slots
      ensures Valid()
      ensures |events| >= |old(events)| && events[..|old(events)|] == old(events)
      ensures var replays, applied := events[|old(events)|..], After(old(generations.slots[..]), updates, Live(live));
        if !world.room || applied.status != 0 then
          && replays == [] && generations.slots[..] == old(generations.slots[..])
          && status == if world.room then applied.status else ENOMEM
        else
          && generations.slots[..] == applied.table
          && ReplaysOf(replays, streams, snapshots, status) && Answered(replays, world.replays)
    {
      ghost var before, table := generations.slots[..], After(generations.slots[..], updates, Live(live)).table;
      var reclaimed;
      status, reclaimed := generations.Apply(updates, Live(live), world.room);
      if status != 0 {
        assert generations.slots[..] == before;
        return;
      }
      assert generations.slots[..] == table;
      ApplyMakesReady(before, events, live, streams);
      status := ReplayAll(live, streams, snapshots, world.replays);
      assert generations.slots[..] == table;
    }
  }

  method AnyStream(commands: seq<Stream>) returns (found: bool)
    ensures found <==> HasStream(commands)
  {
    found := false;
    for index := 0 to |commands|
      invariant found <==> HasStream(commands[..index])
    {
      found := found || commands[index].flags == SHARED_STREAM;
      HasStreamSnoc(commands, index);
    }
    assert commands[..|commands|] == commands;
  }

  lemma HasStreamSnoc(commands: seq<Stream>, index: nat)
    requires index < |commands|
    ensures HasStream(commands[..index + 1]) <==> HasStream(commands[..index]) || commands[index].flags == SHARED_STREAM
  {
  }

  lemma {:induction false} StreamIsChosen(commands: seq<Stream>)
    requires HasStream(commands)
    ensures Chosen(commands) != []
  {
    var last := |commands| - 1;
    if commands[last].flags == 0 {
      var i :| 0 <= i < |commands| && commands[i].flags == SHARED_STREAM;
      assert commands[..last][i] == commands[i];
      StreamIsChosen(commands[..last]);
    }
  }

  // The buffers that were live at each submit of a run.
  function Lives(events: seq<Event>): seq<set<Id>> {
    if events == [] then []
    else
      var before, last := Lives(events[..|events| - 1]), events[|events| - 1];
      if last.Submitted? then before + [last.live] else before
  }

  lemma {:induction false} LivesIgnoresReplays(events: seq<Event>, replays: seq<Event>)
    requires forall i :: 0 <= i < |replays| ==> replays[i].Replayed?
    ensures Lives(events + replays) == Lives(events)
  {
    if replays == [] {
      assert events + replays == events;
    } else {
      assert (events + replays)[..|events + replays| - 1] == events + replays[..|replays| - 1];
      LivesIgnoresReplays(events, replays[..|replays| - 1]);
    }
  }

  lemma OneMoreSubmit(before: seq<Event>, after: seq<Event>, live: set<Id>)
    requires |before| < |after| && after[..|before| + 1] == before + [Submitted(live)]
    requires forall i :: |before| < i < |after| ==> after[i].Replayed?
    ensures Lives(after) == Lives(before) + [live]
  {
    var start, replays := before + [Submitted(live)], after[|before| + 1..];
    assert after == start + replays;
    LivesIgnoresReplays(start, replays);
    assert start[..|before|] == before;
  }

  // Over any run of submits, whatever the client, the driver and the set of live buffers do, no
  // stream is replayed twice unless its command buffer died in between.
  method Run(attached: bool, generation: nat, submits: seq<(seq<Stream>, set<Id>, World)>) returns (events: seq<Event>)
    ensures NoReplayTwice(events)
    ensures |Lives(events)| == |submits| && forall i :: 0 <= i < |submits| ==> Lives(events)[i] == submits[i].1
  {
    var service := new SubmitService(attached, generation);
    for i := 0 to |submits|
      invariant fresh(service) && fresh(service.generations.slots) && service.Valid()
      invariant |Lives(service.events)| == i && forall k :: 0 <= k < i ==> Lives(service.events)[k] == submits[k].1
    {
      ghost var before := service.events;
      var status, copies := service.Submit(submits[i].0, submits[i].1, submits[i].2);
      OneMoreSubmit(before, service.events, submits[i].1);
    }
    events := service.events;
  }
}
