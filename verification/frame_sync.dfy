/**
 * Lock-step frame exchange: one producer and one consumer thread publish
 * sequence numbers in a shared control block.  Every load and store is a
 * step of its own, and any interleaving of the two threads is a run.
 */
module FrameSync {
  import opened Errno

  const U32_MAX: nat := U32_LIMIT - 1

  datatype Side = Producer | Consumer

  datatype Op =
    | Publish(sequence: nat)
    | Wait(forProducer: bool, after: nat)
    | Fail(status: int)

  // Where a thread is inside its operation.
  datatype Pc =
    | Idle
    | CheckProducer            // about to load the producer's status
    | CheckConsumer            // about to load the consumer's status
    | LoadProduced             // publish: about to load the producer's sequence
    | LoadConsumed(produced: nat)
    | Store
    | Wake
    | LoadWord                 // wait: about to load the awaited sequence
    | Park
    | StoreFailure
    | WakeProducer
    | WakeConsumer

  // late: a failure was already stored when the operation started.
  datatype Thread = Thread(pc: Pc, op: Op, late: bool)

  datatype Memory = Memory(produced: nat, consumed: nat, producerStatus: int, consumerStatus: int)

  datatype Change = Produced(sequence: nat) | Consumed(sequence: nat)

  datatype Return = Return(side: Side, op: Op, late: bool, status: int, value: nat)

  // What has happened: the sequence stores in order, the results in order, and how many
  // sequence stores each side made after a failure was stored.
  datatype History = History(changes: seq<Change>, results: seq<Return>, producerAfter: nat, consumerAfter: nat)

  datatype State = State(frames: nat, memory: Memory, producer: Thread, consumer: Thread, history: History)

  // One step of a run: a side starts an operation or takes its next step; a parked side times
  // out or is woken.
  datatype Action = Start(side: Side, op: Op) | Next(side: Side, timeout: bool)

  // ---------------------------------------------------------------- the steps

  predicate Failed(m: Memory) {
    m.producerStatus < 0 || m.consumerStatus < 0
  }

  function ThreadOf(s: State, side: Side): Thread {
    if side.Producer? then s.producer else s.consumer
  }

  function Other(side: Side): Side {
    if side.Producer? then Consumer else Producer
  }

  function At(s: State, side: Side, pc: Pc): State {
    if side.Producer? then s.(producer := s.producer.(pc := pc)) else s.(consumer := s.consumer.(pc := pc))
  }

  function Finish(s: State, side: Side, status: int, value: nat): State {
    var t := ThreadOf(s, side);
    At(s.(history := s.history.(results := s.history.results + [Return(side, t.op, t.late, status, value)])), side, Idle)
  }

  function Begin(s: State, side: Side, op: Op): State {
    var first := if op.Fail? then (if op.status < 0 then StoreFailure else Idle) else CheckProducer;
    var t := Thread(first, op, Failed(s.memory));
    if ThreadOf(s, side).pc != Idle then s
    else if side.Producer? then s.(producer := t) else s.(consumer := t)
  }

  function PublishStatus(side: Side, frames: nat, sequence: nat, produced: nat, consumed: nat): int {
    var current := if side.Producer? then produced else consumed;
    if sequence == 0 || sequence > frames || current == U32_MAX || sequence != current + 1 then ERANGE
    else if side.Producer? then (if consumed != current then EBUSY else 0)
    else (if produced != sequence then EBUSY else 0)
  }

  function Publishes(s: State, side: Side, sequence: nat): State {
    var change := if side.Producer? then Produced(sequence) else Consumed(sequence);
    var memory := if side.Producer? then s.memory.(produced := sequence) else s.memory.(consumed := sequence);
    var late := if Failed(s.memory) then 1 else 0;
    var history := s.history.(changes := s.history.changes + [change]);
    s.(memory := memory, history :=
      if side.Producer? then history.(producerAfter := history.producerAfter + late)
      else history.(consumerAfter := history.consumerAfter + late))
  }

  function Step(s: State, side: Side, timeout: bool): State {
    var t := ThreadOf(s, side);
    match t.pc
    case Idle => s
    case CheckProducer =>
      if s.memory.producerStatus < 0 then Finish(s, side, s.memory.producerStatus, 0) else At(s, side, CheckConsumer)
    case CheckConsumer =>
      if s.memory.consumerStatus < 0 then Finish(s, side, s.memory.consumerStatus, 0)
      else At(s, side, if t.op.Publish? then LoadProduced else LoadWord)
    case LoadProduced => At(s, side, LoadConsumed(s.memory.produced))
    case LoadConsumed(produced) =>
      if !t.op.Publish? then s
      else
        var status := PublishStatus(side, s.frames, t.op.sequence, produced, s.memory.consumed);
        if status != 0 then Finish(s, side, status, 0) else At(s, side, Store)
    case Store => if t.op.Publish? then At(Publishes(s, side, t.op.sequence), side, Wake) else s
    case Wake => Finish(s, side, 0, 0)
    case LoadWord =>
      if !t.op.Wait? then s
      else
        var current := if t.op.forProducer then s.memory.produced else s.memory.consumed;
        if current > t.op.after then Finish(s, side, 0, current)
        else if current < t.op.after then Finish(s, side, EPROTO, 0)
        else At(s, side, Park)
    case Park => if timeout then Finish(s, side, ETIMEDOUT, 0) else At(s, side, CheckProducer)
    case StoreFailure =>
      if !t.op.Fail? then s
      else
        var memory := if side.Producer? then s.memory.(producerStatus := t.op.status) else s.memory.(consumerStatus := t.op.status);
        At(s.(memory := memory), side, WakeProducer)
    case WakeProducer => At(s, side, WakeConsumer)
    case WakeConsumer => Finish(s, side, 0, 0)
  }

  function Act(s: State, a: Action): State {
    match a
    case Start(side, op) => Begin(s, side, op)
    case Next(side, timeout) => Step(s, side, timeout)
  }

  function Initial(frames: nat): State {
    var idle := Thread(Idle, Fail(0), false);
    State(frames, Memory(0, 0, 0, 0), idle, idle, History([], [], 0, 0))
  }

  // ---------------------------------------------------------------- the invariant

  predicate InStep(m: Memory, frames: nat) {
    m.consumed <= m.produced <= m.consumed + 1 && m.produced <= frames
  }

  // The i-th change of a strict alternation: frame 1 produced, frame 1 consumed, frame 2 produced, ...
  function Alternating(i: nat): Change {
    if i % 2 == 0 then Produced(i / 2 + 1) else Consumed(i / 2 + 1)
  }

  ghost predicate Alternates(changes: seq<Change>, m: Memory) {
    && |changes| == m.produced + m.consumed
    && forall i :: 0 <= i < |changes| ==> changes[i] == Alternating(i)
  }

  // Between its first check and its store.
  predicate MayStore(t: Thread) {
    t.op.Publish? && (t.pc.CheckProducer? || t.pc.CheckConsumer? || t.pc.LoadProduced? || t.pc.LoadConsumed? || t.pc.Store?)
  }

  ghost predicate LateStops(t: Thread, m: Memory) {
    t.late ==>
      && Failed(m)
      && (t.pc.CheckConsumer? ==> m.consumerStatus < 0)
      && (t.pc.Idle? || t.pc.CheckProducer? || t.pc.CheckConsumer? || t.pc.StoreFailure? || t.pc.WakeProducer? || t.pc.WakeConsumer?)
  }

  ghost predicate Shaped(t: Thread) {
    && (t.pc.LoadProduced? || t.pc.LoadConsumed? || t.pc.Store? || t.pc.Wake? ==> t.op.Publish?)
    && (t.pc.LoadWord? || t.pc.Park? ==> t.op.Wait?)
    && (t.pc.CheckProducer? || t.pc.CheckConsumer? ==> !t.op.Fail?)
    && (t.pc.StoreFailure? || t.pc.WakeProducer? || t.pc.WakeConsumer? ==> t.op.Fail? && t.op.status < 0)
  }

  ghost predicate ProducerOk(t: Thread, m: Memory, frames: nat) {
    && (t.pc.LoadConsumed? ==> t.pc.produced == m.produced)
    && (t.pc.Store? && t.op.Publish? ==> t.op.sequence == m.produced + 1 <= frames && m.consumed == m.produced)
  }

  ghost predicate ConsumerOk(t: Thread, m: Memory, frames: nat) {
    && (t.pc.LoadConsumed? ==> t.pc.produced <= m.produced)
    && (t.pc.Store? && t.op.Publish? ==> t.op.sequence == m.consumed + 1 == m.produced)
  }

  // A side that has stored once since the failure is past every store it could still make.
  ghost predicate OneAfter(t: Thread, after: nat, m: Memory) {
    after <= 1 && (after == 1 ==> Failed(m) && (MayStore(t) ==> t.late))
  }

  ghost predicate ReturnsOk(results: seq<Return>) {
    forall i :: 0 <= i < |results| && results[i].late && !results[i].op.Fail? ==> results[i].status != 0
  }

  ghost predicate Inv(s: State) {
    && InStep(s.memory, s.frames)
    && Alternates(s.history.changes, s.memory)
    && Shaped(s.producer) && Shaped(s.consumer)
    && LateStops(s.producer, s.memory) && LateStops(s.consumer, s.memory)
    && ProducerOk(s.producer, s.memory, s.frames) && ConsumerOk(s.consumer, s.memory, s.frames)
    && OneAfter(s.producer, s.history.producerAfter, s.memory) && OneAfter(s.consumer, s.history.consumerAfter, s.memory)
    && ReturnsOk(s.history.results)
  }

  lemma BeginKeeps(s: State, side: Side, op: Op)
    requires Inv(s)
    ensures Inv(Begin(s, side, op))
  {
  }

  lemma CheckKeeps(s: State, side: Side, timeout: bool)
    requires Inv(s) && (ThreadOf(s, side).pc.CheckProducer? || ThreadOf(s, side).pc.CheckConsumer?)
    ensures Inv(Step(s, side, timeout))
  {
  }

  lemma LoadKeeps(s: State, side: Side, timeout: bool)
    requires Inv(s) && (ThreadOf(s, side).pc.LoadProduced? || ThreadOf(s, side).pc.LoadConsumed?)
    ensures Inv(Step(s, side, timeout))
  {
  }

  lemma WaitKeeps(s: State, side: Side, timeout: bool)
    requires Inv(s) && (ThreadOf(s, side).pc.LoadWord? || ThreadOf(s, side).pc.Park?)
    ensures Inv(Step(s, side, timeout))
  {
  }

  lemma StoreKeeps(s: State, side: Side, timeout: bool)
    requires Inv(s) && ThreadOf(s, side).pc.Store?
    ensures Inv(Step(s, side, timeout))
  {
    AlternationGrows(s.history.changes, s.memory, side);
  }

  lemma AlternationGrows(changes: seq<Change>, m: Memory, side: Side)
    requires Alternates(changes, m)
    requires if side.Producer? then m.produced == m.consumed else m.produced == m.consumed + 1
    ensures side.Producer? ==> Alternates(changes + [Produced(m.produced + 1)], m.(produced := m.produced + 1))
    ensures side.Consumer? ==> Alternates(changes + [Consumed(m.consumed + 1)], m.(consumed := m.consumed + 1))
  {
  }

  lemma OtherKeeps(s: State, side: Side, timeout: bool)
    requires Inv(s)
    requires var pc := ThreadOf(s, side).pc; pc.Idle? || pc.Wake? || pc.StoreFailure? || pc.WakeProducer? || pc.WakeConsumer?
    ensures Inv(Step(s, side, timeout))
  {
  }

  lemma ActKeeps(s: State, a: Action)
    requires Inv(s)
    ensures Inv(Act(s, a)) && Act(s, a).frames == s.frames
  {
    match a
    case Start(side, op) => BeginKeeps(s, side, op);
    case Next(side, timeout) =>
      match ThreadOf(s, side).pc
      case CheckProducer => CheckKeeps(s, side, timeout);
      case CheckConsumer => CheckKeeps(s, side, timeout);
      case LoadProduced => LoadKeeps(s, side, timeout);
      case LoadConsumed(_) => LoadKeeps(s, side, timeout);
      case LoadWord => WaitKeeps(s, side, timeout);
      case Park => WaitKeeps(s, side, timeout);
      case Store => StoreKeeps(s, side, timeout);
      case _ => OtherKeeps(s, side, timeout);
  }

  // ---------------------------------------------------------------- runs

  // The state after any interleaving.
  function Run(frames: nat, actions: seq<Action>): (s: State)
    ensures Inv(s) && s.frames == frames
  {
    if actions == [] then Initial(frames)
    else
      var before := Run(frames, actions[..|actions| - 1]);
      ActKeeps(before, actions[|actions| - 1]);
      Act(before, actions[|actions| - 1])
  }

  // Neither side is ever ahead of where the other lets it be, and the stores so far are frame 1
  // produced, frame 1 consumed, frame 2 produced, and so on: each frame once, in strict alternation.
  lemma LockStep(frames: nat, actions: seq<Action>)
    ensures var s := Run(frames, actions);
      && s.memory.consumed <= s.memory.produced <= s.memory.consumed + 1
      && s.memory.produced <= frames && s.memory.consumed <= frames
      && |s.history.changes| == s.memory.produced + s.memory.consumed
      && forall i :: 0 <= i < |s.history.changes| ==>
        s.history.changes[i] == (if i % 2 == 0 then Produced(i / 2 + 1) else Consumed(i / 2 + 1))
  {
    var s := Run(frames, actions);
    forall i | 0 <= i < |s.history.changes|
      ensures s.history.changes[i] == (if i % 2 == 0 then Produced(i / 2 + 1) else Consumed(i / 2 + 1))
    {
      assert s.history.changes[i] == Alternating(i);
    }
  }

  // A publish or wait that starts after a failure was stored fails, and each side makes at most
  // one more sequence store, the one already in flight.
  lemma FailureStops(frames: nat, actions: seq<Action>)
    ensures var s := Run(frames, actions);
      && s.history.producerAfter <= 1 && s.history.consumerAfter <= 1
      && forall i :: 0 <= i < |s.history.results| && s.history.results[i].late && !s.history.results[i].op.Fail? ==>
        s.history.results[i].status != 0
  {
    assert ReturnsOk(Run(frames, actions).history.results);
  }

  lemma RunUnfolds(frames: nat, actions: seq<Action>, a: Action)
    ensures Run(frames, actions + [a]) == Act(Run(frames, actions), a)
  {
    assert (actions + [a])[..|actions|] == actions;
  }

  lemma FailureStep(frames: nat, actions: seq<Action>, a: Action)
    requires Failed(Run(frames, actions).memory)
    ensures Failed(Run(frames, actions + [a]).memory)
  {
    RunUnfolds(frames, actions, a);
    ActKeepsFailure(Run(frames, actions), a);
  }

  ghost predicate HasFailed(frames: nat, actions: seq<Action>) {
    Failed(Run(frames, actions).memory)
  }

  // A stored failure is never withdrawn.
  lemma {:induction false} FailureStays(frames: nat, actions: seq<Action>, more: seq<Action>)
    requires HasFailed(frames, actions)
    ensures HasFailed(frames, actions + more)
  {
    if more == [] {
      assert actions + more == actions;
    } else {
      var prefix, a := more[..|more| - 1], more[|more| - 1];
      FailureStays(frames, actions, prefix);
      FailureStep(frames, actions + prefix, a);
      assert (actions + prefix) + [a] == actions + more;
    }
  }

  lemma ActKeepsFailure(s: State, a: Action)
    requires Failed(s.memory) && Shaped(ThreadOf(s, if a.Next? then a.side else Producer))
    ensures Failed(Act(s, a).memory)
  {
  }

  // What a publish that succeeds did: its own store of that frame is in the history.
  ghost predicate SuccessesStored(s: State) {
    forall i :: 0 <= i < |s.history.results| && s.history.results[i].op.Publish? && s.history.results[i].status == 0 ==>
      StoredBy(s.history.changes, s.history.results[i])
  }

  ghost predicate StoredBy(changes: seq<Change>, r: Return) {
    r.op.Publish? && (if r.side.Producer? then Produced(r.op.sequence) else Consumed(r.op.sequence)) in changes
  }

  ghost predicate WakersStored(s: State) {
    && (s.producer.pc.Wake? && s.producer.op.Publish? ==> Produced(s.producer.op.sequence) in s.history.changes)
    && (s.consumer.pc.Wake? && s.consumer.op.Publish? ==> Consumed(s.consumer.op.sequence) in s.history.changes)
  }

  lemma StoresStay(changes: seq<Change>, change: Change, results: seq<Return>)
    requires forall i :: 0 <= i < |results| && results[i].op.Publish? && results[i].status == 0 ==> StoredBy(changes, results[i])
    ensures forall i :: 0 <= i < |results| && results[i].op.Publish? && results[i].status == 0 ==>
      StoredBy(changes + [change], results[i])
  {
    forall i | 0 <= i < |results| && results[i].op.Publish? && results[i].status == 0
      ensures StoredBy(changes + [change], results[i])
    {
      assert StoredBy(changes, results[i]);
    }
  }

  lemma StoreKeepsStored(s: State, side: Side, timeout: bool)
    requires Inv(s) && SuccessesStored(s) && WakersStored(s) && ThreadOf(s, side).pc.Store?
    ensures SuccessesStored(Step(s, side, timeout)) && WakersStored(Step(s, side, timeout))
  {
    var sequence := ThreadOf(s, side).op.sequence;
    var change := if side.Producer? then Produced(sequence) else Consumed(sequence);
    StoresStay(s.history.changes, change, s.history.results);
    assert change in s.history.changes + [change];
  }

  lemma FinishKeepsStored(s: State, side: Side, status: int, value: nat)
    requires SuccessesStored(s) && WakersStored(s)
    requires var t := ThreadOf(s, side); t.op.Publish? && status == 0 ==> t.pc.Wake?
    ensures SuccessesStored(Finish(s, side, status, value)) && WakersStored(Finish(s, side, status, value))
  {
    var r := Finish(s, side, status, value);
    forall i | 0 <= i < |r.history.results| && r.history.results[i].op.Publish? && r.history.results[i].status == 0
      ensures StoredBy(r.history.changes, r.history.results[i])
    {
      assert i < |s.history.results| ==> StoredBy(s.history.changes, s.history.results[i]);
    }
  }

  lemma ActKeepsStored(s: State, a: Action)
    requires Inv(s) && SuccessesStored(s) && WakersStored(s)
    ensures SuccessesStored(Act(s, a)) && WakersStored(Act(s, a))
  {
    if a.Next? {
      var side := a.side;
      if ThreadOf(s, side).pc.Store? {
        StoreKeepsStored(s, side, a.timeout);
      } else {
        FinishOrMove(s, side, a.timeout);
        var r := Step(s, side, a.timeout);
        if r.history != s.history {
          var last := r.history.results[|s.history.results|];
          FinishKeepsStored(s, side, last.status, last.value);
        }
      }
    }
  }

  // A step that stores no sequence either moves the thread or ends its operation, and a publish
  // succeeds only out of its wake.
  lemma FinishOrMove(s: State, side: Side, timeout: bool)
    requires Inv(s) && !ThreadOf(s, side).pc.Store?
    ensures var r, t := Step(s, side, timeout), ThreadOf(s, side);
      if r.history == s.history then
        && ThreadOf(r, side).op == t.op && (ThreadOf(r, side).pc.Wake? ==> r == s)
        && ThreadOf(r, Other(side)) == ThreadOf(s, Other(side))
      else
        && |r.history.results| == |s.history.results| + 1
        && var last := r.history.results[|s.history.results|];
        && r == Finish(s, side, last.status, last.value)
        && (t.op.Publish? && last.status == 0 ==> t.pc.Wake?)
  {
  }

  lemma {:induction false} SuccessMeansStored(frames: nat, actions: seq<Action>)
    ensures SuccessesStored(Run(frames, actions)) && WakersStored(Run(frames, actions))
  {
    if actions != [] {
      SuccessMeansStored(frames, actions[..|actions| - 1]);
      ActKeepsStored(Run(frames, actions[..|actions| - 1]), actions[|actions| - 1]);
    }
  }

  // ---------------------------------------------------------------- what each operation decides

  // A publish succeeds exactly for the next frame of its side, within the frame count, when the other
  // side is where that frame lets it be; out of turn it is a range error, too early it is busy.
  lemma PublishDecides(side: Side, frames: nat, sequence: nat, produced: nat, consumed: nat)
    requires consumed <= produced <= consumed + 1 && produced <= frames <= U32_MAX
    ensures var status := PublishStatus(side, frames, sequence, produced, consumed);
      var next := if side.Producer? then produced + 1 else consumed + 1;
      && (status == ERANGE <==> sequence != next || next > frames)
      && (status == 0 <==> sequence == next <= frames && produced == (if side.Producer? then consumed else consumed + 1))
      && (status == EBUSY <==> status != ERANGE && status != 0)
  {
  }

  // A wait looks at the other side's frame: past the one it knows, it returns that frame; at it, it
  // goes on waiting; before it, something is wrong.
  lemma WaitDecides(s: State, side: Side, timeout: bool)
    requires Inv(s) && ThreadOf(s, side).pc.LoadWord?
    ensures var t, r := ThreadOf(s, side), Step(s, side, timeout);
      t.op.Wait? &&
      var frame := if t.op.forProducer then s.memory.produced else s.memory.consumed;
      if frame == t.op.after then r.history == s.history && ThreadOf(r, side).pc.Park? && r.memory == s.memory
      else
        && ThreadOf(r, side).pc.Idle? && r.memory == s.memory
        && r.history.results == s.history.results +
             [if frame > t.op.after then Return(side, t.op, t.late, 0, frame) else Return(side, t.op, t.late, EPROTO, 0)]
  {
  }

  // A failure is stored as the failing side's own status, and leaves everything else alone.
  lemma FailureIsOwn(s: State, side: Side, timeout: bool)
    requires Inv(s) && ThreadOf(s, side).pc.StoreFailure?
    ensures var op, r := ThreadOf(s, side).op, Step(s, side, timeout);
      && op.Fail? && op.status < 0 && r.history == s.history
      && r.memory == Memory(s.memory.produced, s.memory.consumed,
           if side == Producer then op.status else s.memory.producerStatus,
           if side == Consumer then op.status else s.memory.consumerStatus)
  {
  }

  // A wait that succeeded returned a frame past the one its caller knew, and that frame was stored.
  ghost predicate WaitsSaw(s: State) {
    forall i :: 0 <= i < |s.history.results| && s.history.results[i].op.Wait? && s.history.results[i].status == 0 ==>
      Saw(s, s.history.results[i])
  }

  ghost predicate Saw(s: State, r: Return) {
    r.op.Wait? && r.op.after < r.value <= if r.op.forProducer then s.memory.produced else s.memory.consumed
  }

  lemma ActKeepsWaits(s: State, a: Action)
    requires Inv(s) && WaitsSaw(s)
    ensures WaitsSaw(Act(s, a))
  {
    var r := Act(s, a);
    FramesGrow(s, a);
    forall i | 0 <= i < |r.history.results| && r.history.results[i].op.Wait? && r.history.results[i].status == 0
      ensures Saw(r, r.history.results[i])
    {
      if i < |s.history.results| {
        assert Saw(s, s.history.results[i]);
      }
    }
  }

  lemma FramesGrow(s: State, a: Action)
    requires Inv(s)
    ensures var r := Act(s, a);
      && s.memory.produced <= r.memory.produced && s.memory.consumed <= r.memory.consumed
      && s.history.results <= r.history.results && |r.history.results| <= |s.history.results| + 1
      && (|r.history.results| == |s.history.results| + 1 ==>
            var last := r.history.results[|s.history.results|];
            last.op.Wait? && last.status == 0 ==> Saw(r, last))
  {
  }

  lemma {:induction false} SuccessfulWaitSaw(frames: nat, actions: seq<Action>)
    ensures WaitsSaw(Run(frames, actions))
  {
    if actions != [] {
      SuccessfulWaitSaw(frames, actions[..|actions| - 1]);
      ActKeepsWaits(Run(frames, actions[..|actions| - 1]), actions[|actions| - 1]);
    }
  }

  // ---------------------------------------------------------------- a frame that passes

  // Both sides are idle, nobody failed, and frame k was the last to be produced and consumed.
  predicate Quiet(s: State, k: nat) {
    s.producer.pc.Idle? && s.consumer.pc.Idle? && s.memory == Memory(k, k, 0, 0)
  }

  function ActAll(s: State, actions: seq<Action>): State {
    if actions == [] then s else Act(ActAll(s, actions[..|actions| - 1]), actions[|actions| - 1])
  }

  lemma {:induction false} ActAllAdds(s: State, actions: seq<Action>, more: seq<Action>)
    ensures ActAll(s, actions + more) == ActAll(ActAll(s, actions), more)
  {
    if more == [] {
      assert actions + more == actions;
    } else {
      var last := |more| - 1;
      assert (actions + more)[..|actions + more| - 1] == actions + more[..last];
      ActAllAdds(s, actions, more[..last]);
    }
  }

  lemma {:induction false} RunIsActAll(frames: nat, actions: seq<Action>)
    ensures Run(frames, actions) == ActAll(Initial(frames), actions)
  {
    if actions != [] { RunIsActAll(frames, actions[..|actions| - 1]); }
  }

  lemma RunContinues(frames: nat, actions: seq<Action>, more: seq<Action>)
    ensures Run(frames, actions + more) == ActAll(Run(frames, actions), more)
  {
    RunIsActAll(frames, actions);
    RunIsActAll(frames, actions + more);
    ActAllAdds(Initial(frames), actions, more);
  }

  // An operation and then k steps of it, none of them a timeout.
  function Acts(side: Side, op: Op, k: nat): seq<Action> {
    [Start(side, op)] + seq(k, _ => Next(side, false))
  }

  function Steps(s: State, side: Side, k: nat): State {
    if k == 0 then s else Step(Steps(s, side, k - 1), side, false)
  }

  lemma {:induction false} NextsAreSteps(s: State, side: Side, k: nat)
    ensures ActAll(s, seq(k, _ => Next(side, false))) == Steps(s, side, k)
  {
    if k > 0 {
      NextsAreSteps(s, side, k - 1);
      var nexts := seq(k, _ => Next(side, false));
      assert nexts[..k - 1] == seq(k - 1, _ => Next(side, false));
    }
  }

  lemma ActsAreSteps(s: State, side: Side, op: Op, k: nat)
    ensures ActAll(s, Acts(side, op, k)) == Steps(Begin(s, side, op), side, k)
  {
    ActAllAdds(s, [Start(side, op)], seq(k, _ => Next(side, false)));
    assert ActAll(s, [Start(side, op)]) == Begin(s, side, op);
    NextsAreSteps(Begin(s, side, op), side, k);
  }

  function Returned(s: State, side: Side, op: Op, memory: Memory, changes: seq<Change>, value: nat): State {
    var t := Thread(Idle, op, false);
    var history := s.history.(changes := changes, results := s.history.results + [Return(side, op, false, 0, value)]);
    if side.Producer? then s.(memory := memory, producer := t, history := history)
    else s.(memory := memory, consumer := t, history := history)
  }

  lemma ProducerPublishes(s: State, k: nat)
    requires Quiet(s, k) && k < s.frames <= U32_MAX
    ensures Steps(Begin(s, Producer, Publish(k + 1)), Producer, 6)
         == Returned(s, Producer, Publish(k + 1), Memory(k + 1, k, 0, 0), s.history.changes + [Produced(k + 1)], 0)
  {
    var b := Begin(s, Producer, Publish(k + 1));
    assert Steps(b, Producer, 1) == At(b, Producer, CheckConsumer);
    assert Steps(b, Producer, 2) == At(b, Producer, LoadProduced);
    assert Steps(b, Producer, 3) == At(b, Producer, LoadConsumed(k));
    assert Steps(b, Producer, 4) == At(b, Producer, Store);
    assert Steps(b, Producer, 5) == At(Publishes(b, Producer, k + 1), Producer, Wake);
  }

  lemma SideWaits(s: State, side: Side, k: nat)
    requires ThreadOf(s, side).pc.Idle? && !Failed(s.memory)
    requires (if side.Consumer? then s.memory.produced else s.memory.consumed) == k + 1
    ensures Steps(Begin(s, side, Wait(side.Consumer?, k)), side, 3)
         == Returned(s, side, Wait(side.Consumer?, k), s.memory, s.history.changes, k + 1)
  {
    var b := Begin(s, side, Wait(side.Consumer?, k));
    assert Steps(b, side, 1) == At(b, side, CheckConsumer);
    assert Steps(b, side, 2) == At(b, side, LoadWord);
  }

  lemma ConsumerPublishes(s: State, k: nat)
    requires s.consumer.pc.Idle? && s.memory == Memory(k + 1, k, 0, 0) && k < s.frames <= U32_MAX
    ensures Steps(Begin(s, Consumer, Publish(k + 1)), Consumer, 6)
         == Returned(s, Consumer, Publish(k + 1), Memory(k + 1, k + 1, 0, 0), s.history.changes + [Consumed(k + 1)], 0)
  {
    var b := Begin(s, Consumer, Publish(k + 1));
    assert Steps(b, Consumer, 1) == At(b, Consumer, CheckConsumer);
    assert Steps(b, Consumer, 2) == At(b, Consumer, LoadProduced);
    assert Steps(b, Consumer, 3) == At(b, Consumer, LoadConsumed(k + 1));
    assert Steps(b, Consumer, 4) == At(b, Consumer, Store);
    assert Steps(b, Consumer, 5) == At(Publishes(b, Consumer, k + 1), Consumer, Wake);
  }

  // Produced, seen, consumed and seen: how one frame goes through.
  function OneFrame(k: nat): seq<Action> {
    Acts(Producer, Publish(k + 1), 6) + Acts(Consumer, Wait(true, k), 3)
    + Acts(Consumer, Publish(k + 1), 6) + Acts(Producer, Wait(false, k), 3)
  }

  function OneFrameResults(k: nat): seq<Return> {
    [Return(Producer, Publish(k + 1), false, 0, 0), Return(Consumer, Wait(true, k), false, 0, k + 1),
     Return(Consumer, Publish(k + 1), false, 0, 0), Return(Producer, Wait(false, k), false, 0, k + 1)]
  }

  lemma FramePassesState(s: State, k: nat)
    requires Quiet(s, k) && k < s.frames <= U32_MAX
    ensures var r := ActAll(s, OneFrame(k));
      Quiet(r, k + 1) && r.history.results == s.history.results + OneFrameResults(k)
  {
    var a, b, c, d := Acts(Producer, Publish(k + 1), 6), Acts(Consumer, Wait(true, k), 3),
      Acts(Consumer, Publish(k + 1), 6), Acts(Producer, Wait(false, k), 3);
    ActAllAdds(s, a + b + c, d);
    ActAllAdds(s, a + b, c);
    ActAllAdds(s, a, b);
    ActsAreSteps(s, Producer, Publish(k + 1), 6);
    ProducerPublishes(s, k);
    var s1 := ActAll(s, a);
    ActsAreSteps(s1, Consumer, Wait(true, k), 3);
    SideWaits(s1, Consumer, k);
    var s2 := ActAll(s1, b);
    ActsAreSteps(s2, Consumer, Publish(k + 1), 6);
    ConsumerPublishes(s2, k);
    var s3 := ActAll(s2, c);
    ActsAreSteps(s3, Producer, Wait(false, k), 3);
    SideWaits(s3, Producer, k);
  }

  // From every quiet point of a run one more frame can pass: both publishes succeed, and each wait
  // returns the other side's new frame.
  lemma FramePasses(frames: nat, actions: seq<Action>, k: nat)
    requires Quiet(Run(frames, actions), k) && k < frames <= U32_MAX
    ensures var s, r := Run(frames, actions), Run(frames, actions + OneFrame(k));
      Quiet(r, k + 1) && r.history.results == s.history.results + OneFrameResults(k)
  {
    RunContinues(frames, actions, OneFrame(k));
    FramePassesState(Run(frames, actions), k);
  }
}
