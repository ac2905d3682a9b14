/**
 * The first-rejection diagnostic: any number of threads race to report, one
 * wins, and the record it writes is what every later snapshot shows.  Each
 * atomic access, mutex operation and write is a step of its own; what a
 * thread does to the snapshot while it holds the mutex is one step.
 */
module FirstRejection {

  datatype Winner = Open | Emitting | Emitted

  // What a rejecting call reports; the texts and numbers it carries are one opaque value.
  datatype Report = Report(details: int, stub: bool, poison: bool, implemented: bool)

  datatype Snapshot = Snapshot(
    executable: nat, stubQueries: nat, stubInvocations: nat, nullQueries: nat,
    implementedRejections: nat, commandPoisons: nat, endFailures: nat, emitted: bool, details: int)

  datatype Counter = Executable | NullQuery | StubQuery

  datatype Op = Record(report: Report) | Count(counter: Counter) | Take

  datatype Pc =
    | Idle
    | Load                          // read the winner state without the mutex
    | Lock
    | Check                         // read it again with the mutex
    | Update                        // record: fill in the snapshot and copy it
    | StoreEmitting(copy: Snapshot)
    | UnlockWinner(copy: Snapshot)
    | Emit(copy: Snapshot)
    | StoreEmitted
    | UnlockLoser(seen: Winner)
    | Spin
    | Increment                     // count: bump the counter
    | Unlock
    | Copy                          // take: copy the snapshot out
    | UnlockTaken(copy: Snapshot, late: bool)

  datatype Thread = Thread(pc: Pc, op: Op)

  datatype Return =
    | Recorded(winner: Winner)
    | Counted
    | Taken(copy: Snapshot, late: bool)  // late: copied after the winner state had left Open

  // Shared memory; owner is the thread holding the mutex, or -1.
  datatype Shared = Shared(winner: Winner, owner: int, snapshot: Snapshot, records: seq<Snapshot>)

  // winners are the threads that found the state open with the mutex held and filled in the
  // snapshot; frozen is the snapshot as the first of them left it; reports are what they reported,
  // and counted is what was counted before.
  datatype History = History(winners: seq<nat>, frozen: Snapshot, results: seq<Return>, reports: seq<Report>, counted: seq<Counter>)

  datatype State = State(shared: Shared, threads: seq<Thread>, history: History)

  // A thread starts a call or takes its next step; a write may fail without a trace.
  datatype Action = Start(thread: nat, op: Op) | Next(thread: nat, writes: bool)

  // ---------------------------------------------------------------- the steps

  function Filled(s: Snapshot, r: Report): Snapshot {
    s.(stubInvocations := if r.stub then s.stubInvocations + 1 else s.stubInvocations,
       commandPoisons := if r.poison then s.commandPoisons + 1 else s.commandPoisons,
       endFailures := if r.poison then s.endFailures + 1 else s.endFailures,
       implementedRejections := if r.implemented then s.implementedRejections + 1 else s.implementedRejections,
       emitted := true, details := r.details)
  }

  function Bumped(s: Snapshot, c: Counter): Snapshot {
    match c
    case Executable => s.(executable := s.executable + 1)
    case NullQuery => s.(nullQueries := s.nullQueries + 1)
    case StubQuery => s.(stubQueries := s.stubQueries + 1)
  }

  function At(s: State, i: nat, pc: Pc): State
    requires i < |s.threads|
  {
    s.(threads := s.threads[i := s.threads[i].(pc := pc)])
  }

  function Finish(s: State, i: nat, r: Return): State
    requires i < |s.threads|
  {
    At(s.(history := s.history.(results := s.history.results + [r])), i, Idle)
  }

  function Unlocked(s: State): State {
    s.(shared := s.shared.(owner := -1))
  }

  function Step(s: State, i: nat, writes: bool): State
    requires i < |s.threads|
  {
    var t, m := s.threads[i], s.shared;
    match t.pc
    case Idle => s
    case Load =>
      if m.winner.Open? then At(s, i, Lock)
      else if !t.op.Record? then Finish(s, i, Counted)
      else if m.winner.Emitting? then At(s, i, Spin)
      else Finish(s, i, Recorded(m.winner))
    case Lock => if m.owner == -1 then At(s.(shared := m.(owner := i)), i, if t.op.Take? then Copy else Check) else s
    case Check =>
      if t.op.Record? then At(s, i, if m.winner.Open? then Update else UnlockLoser(m.winner))
      else At(s, i, if m.winner.Open? then Increment else Unlock)
    case Update =>
      if !t.op.Record? then s
      else
        var filled := Filled(m.snapshot, t.op.report);
        var history := s.history.(winners := s.history.winners + [i], frozen := filled, reports := s.history.reports + [t.op.report]);
        At(s.(shared := m.(snapshot := filled), history := history), i, StoreEmitting(filled))
    case StoreEmitting(copy) => At(s.(shared := m.(winner := Emitting)), i, UnlockWinner(copy))
    case UnlockWinner(copy) => At(Unlocked(s), i, Emit(copy))
    case Emit(copy) => At(if writes then s.(shared := m.(records := m.records + [copy])) else s, i, StoreEmitted)
    case StoreEmitted => Finish(s.(shared := m.(winner := Emitted)), i, Recorded(Emitted))
    case UnlockLoser(seen) => if seen.Emitting? then At(Unlocked(s), i, Spin) else Finish(Unlocked(s), i, Recorded(m.winner))
    case Spin => if m.winner.Emitting? then s else Finish(s, i, Recorded(m.winner))
    case Increment =>
      if !t.op.Count? then s
      else
        var history := s.history.(counted := s.history.counted + [t.op.counter]);
        At(s.(shared := m.(snapshot := Bumped(m.snapshot, t.op.counter)), history := history), i, Unlock)
    case Unlock => Finish(Unlocked(s), i, Counted)
    case Copy => At(s, i, UnlockTaken(m.snapshot, !m.winner.Open?))
    case UnlockTaken(copy, late) => Finish(Unlocked(s), i, Taken(copy, late))
  }

  function Begin(s: State, i: nat, op: Op): State
    requires i < |s.threads|
  {
    if s.threads[i].pc != Idle then s
    else s.(threads := s.threads[i := Thread(if op.Take? then Lock else Load, op)])
  }

  function Act(s: State, a: Action): State {
    if a.thread >= |s.threads| then s
    else
      match a
      case Start(i, op) => Begin(s, i, op)
      case Next(i, writes) => Step(s, i, writes)
  }

  function Initial(threads: nat): State {
    var empty := Snapshot(0, 0, 0, 0, 0, 0, 0, false, 0);
    State(Shared(Open, -1, empty, []), seq(threads, _ => Thread(Idle, Take)), History([], empty, [], [], []))
  }

  // ---------------------------------------------------------------- the invariant

  predicate HoldsMutex(pc: Pc) {
    pc.Check? || pc.Update? || pc.StoreEmitting? || pc.UnlockWinner? || pc.UnlockLoser? || pc.Increment? || pc.Unlock?
    || pc.Copy? || pc.UnlockTaken?
  }

  // What a thread's position says about shared memory.
  ghost predicate ThreadOk(i: nat, t: Thread, m: Shared, h: History) {
    && (HoldsMutex(t.pc) <==> m.owner == i)
    && match t.pc
       case Update => t.op.Record? && m.winner.Open? && h.winners == []
       case StoreEmitting(copy) => t.op.Record? && m.winner.Open? && h.winners == [i] && copy == h.frozen && m.records == []
       case UnlockWinner(copy) => t.op.Record? && m.winner.Emitting? && h.winners == [i] && copy == h.frozen && m.records == []
       case Emit(copy) => t.op.Record? && m.winner.Emitting? && h.winners == [i] && copy == h.frozen && m.records == []
       case StoreEmitted => t.op.Record? && m.winner.Emitting? && h.winners == [i]
       case UnlockLoser(seen) => t.op.Record? && !seen.Open? && !m.winner.Open? && (seen.Emitted? ==> m.winner.Emitted?)
       case Spin => t.op.Record? && !m.winner.Open?
       case Increment => t.op.Count? && m.winner.Open? && h.winners == []
       case Unlock => t.op.Count?
       case Check => !t.op.Take?
       case Load => !t.op.Take?
       case Copy => t.op.Take?
       case UnlockTaken(copy, late) => late ==> copy == h.frozen && h.winners != []
       case Idle => true
       case Lock => true
  }

  ghost predicate ThreadsOk(threads: seq<Thread>, m: Shared, h: History) {
    forall i :: 0 <= i < |threads| ==> ThreadOk(i, threads[i], m, h)
  }

  ghost predicate SharedOk(m: Shared, h: History, threads: seq<Thread>) {
    && -1 <= m.owner < |threads|
    && |h.winners| <= 1
    && (m.winner.Open? && h.winners != [] ==> m.owner != -1 && threads[m.owner].pc.StoreEmitting?)
    && (!m.winner.Open? ==> h.winners != [])
    && (h.winners != [] ==> m.snapshot == h.frozen)
    && |m.records| <= 1 && (m.records != [] ==> m.records == [h.frozen] && h.winners != [])
  }

  ghost predicate ResultOk(r: Return, m: Shared, h: History) {
    match r
    case Recorded(winner) => winner.Emitted? && m.winner.Emitted?
    case Taken(copy, late) => late ==> copy == h.frozen && h.winners != []
    case Counted => true
  }

  ghost predicate ResultsOk(m: Shared, h: History) {
    forall k :: 0 <= k < |h.results| ==> ResultOk(h.results[k], m, h)
  }

  ghost predicate Inv(s: State) {
    && SharedOk(s.shared, s.history, s.threads)
    && ThreadsOk(s.threads, s.shared, s.history)
    && ResultsOk(s.shared, s.history)
  }

  lemma BeginKeeps(s: State, i: nat, op: Op)
    requires Inv(s) && i < |s.threads|
    ensures Inv(Begin(s, i, op))
  {
    assert ThreadOk(i, s.threads[i], s.shared, s.history);
  }

  // Steps that only move the thread.
  lemma MoveKeeps(s: State, i: nat, writes: bool)
    requires Inv(s) && i < |s.threads|
    requires var pc := s.threads[i].pc; pc.Load? || pc.Spin? || pc.Check? || pc.Copy? || pc.Idle?
    ensures Inv(Step(s, i, writes))
  {
    assert ThreadOk(i, s.threads[i], s.shared, s.history);
  }

  lemma LockKeeps(s: State, i: nat, writes: bool)
    requires Inv(s) && i < |s.threads| && s.threads[i].pc.Lock?
    ensures Inv(Step(s, i, writes))
  {
  }

  lemma UnlockKeeps(s: State, i: nat, writes: bool)
    requires Inv(s) && i < |s.threads|
    requires var pc := s.threads[i].pc; pc.Unlock? || pc.UnlockTaken? || pc.UnlockLoser? || pc.UnlockWinner?
    ensures Inv(Step(s, i, writes))
  {
    assert ThreadOk(i, s.threads[i], s.shared, s.history);
  }

  lemma WriteKeeps(s: State, i: nat, writes: bool)
    requires Inv(s) && i < |s.threads|
    requires var pc := s.threads[i].pc; pc.Update? || pc.Increment? || pc.Emit?
    ensures Inv(Step(s, i, writes))
  {
    assert ThreadOk(i, s.threads[i], s.shared, s.history);
  }

  lemma PublishKeeps(s: State, i: nat, writes: bool)
    requires Inv(s) && i < |s.threads|
    requires var pc := s.threads[i].pc; pc.StoreEmitting? || pc.StoreEmitted?
    ensures Inv(Step(s, i, writes))
  {
    assert ThreadOk(i, s.threads[i], s.shared, s.history);
  }

  lemma ActKeeps(s: State, a: Action)
    requires Inv(s)
    ensures Inv(Act(s, a))
  {
    if a.thread < |s.threads| {
      match a
      case Start(i, op) => BeginKeeps(s, i, op);
      case Next(i, writes) =>
        var pc := s.threads[i].pc;
        if pc.Lock? {
          LockKeeps(s, i, writes);
        } else if pc.Unlock? || pc.UnlockTaken? || pc.UnlockLoser? || pc.UnlockWinner? {
          UnlockKeeps(s, i, writes);
        } else if pc.Update? || pc.Increment? || pc.Emit? {
          WriteKeeps(s, i, writes);
        } else if pc.StoreEmitting? || pc.StoreEmitted? {
          PublishKeeps(s, i, writes);
        } else {
          MoveKeeps(s, i, writes);
        }
    }
  }

  // ---------------------------------------------------------------- runs

  // The state after any interleaving of that many threads.
  function Run(threads: nat, actions: seq<Action>): (s: State)
    ensures Inv(s)
  {
    if actions == [] then Initial(threads)
    else
      var before := Run(threads, actions[..|actions| - 1]);
      ActKeeps(before, actions[|actions| - 1]);
      Act(before, actions[|actions| - 1])
  }

  // At most one thread ever wins and at most one record is written; once any report call has
  // returned there is exactly one winner and the state is EMITTED, and every call returned in it.
  lemma OneWinner(threads: nat, actions: seq<Action>)
    ensures var s := Run(threads, actions);
      && |s.history.winners| <= 1 && |s.shared.records| <= 1
      && forall k :: 0 <= k < |s.history.results| && s.history.results[k].Recorded? ==>
        s.history.results[k].winner.Emitted? && s.shared.winner.Emitted? && |s.history.winners| == 1
  {
    var s := Run(threads, actions);
    forall k | 0 <= k < |s.history.results| && s.history.results[k].Recorded?
      ensures s.history.results[k].winner.Emitted? && s.shared.winner.Emitted?
    {
      assert ResultOk(s.history.results[k], s.shared, s.history);
    }
  }

  // The written record, the shared snapshot and every snapshot taken after the state left OPEN
  // are one and the same.
  lemma RecordIsTheSnapshot(threads: nat, actions: seq<Action>)
    ensures var s := Run(threads, actions);
      && (s.shared.records != [] ==> s.shared.records == [s.shared.snapshot])
      && forall k :: 0 <= k < |s.history.results| && s.history.results[k].Taken? && s.history.results[k].late ==>
        s.history.results[k].copy == s.shared.snapshot
  {
    var s := Run(threads, actions);
    forall k | 0 <= k < |s.history.results| && s.history.results[k].Taken? && s.history.results[k].late
      ensures s.history.results[k].copy == s.shared.snapshot
    {
      assert ResultOk(s.history.results[k], s.shared, s.history);
    }
  }

  // Once a winner has filled in the snapshot, no step of any thread changes the snapshot, the
  // winner, or withdraws the record; the winner state only moves forward.
  lemma FrozenStep(s: State, a: Action)
    requires Inv(s)
    ensures var r := Act(s, a);
      && (s.history.winners != [] ==> r.history.winners == s.history.winners && r.shared.snapshot == s.shared.snapshot)
      && (s.shared.records != [] ==> r.shared.records == s.shared.records)
      && (!s.shared.winner.Open? ==> !r.shared.winner.Open?)
      && (s.shared.winner.Emitted? ==> r.shared.winner.Emitted?)
  {
    ActKeeps(s, a);
    if a.thread < |s.threads| {
      assert ThreadOk(a.thread, s.threads[a.thread], s.shared, s.history);
    }
  }

  ghost predicate Follows(s: State, r: State) {
    && (s.history.winners != [] ==> r.history.winners == s.history.winners && r.shared.snapshot == s.shared.snapshot)
    && (s.shared.records != [] ==> r.shared.records == s.shared.records)
    && (!s.shared.winner.Open? ==> !r.shared.winner.Open?)
    && (s.shared.winner.Emitted? ==> r.shared.winner.Emitted?)
  }

  lemma RunUnfolds(threads: nat, actions: seq<Action>, a: Action)
    ensures Follows(Run(threads, actions), Run(threads, actions + [a]))
  {
    assert (actions + [a])[..|actions|] == actions;
    FrozenStep(Run(threads, actions), a);
  }

  lemma {:induction false} SnapshotStaysFrozen(threads: nat, actions: seq<Action>, more: seq<Action>)
    ensures Follows(Run(threads, actions), Run(threads, actions + more))
  {
    if more == [] {
      assert actions + more == actions;
    } else {
      var prefix, a := more[..|more| - 1], more[|more| - 1];
      SnapshotStaysFrozen(threads, actions, prefix);
      RunUnfolds(threads, actions + prefix, a);
      assert (actions + prefix) + [a] == actions + more;
    }
  }

  // ---------------------------------------------------------------- what the snapshot says

  function Times(counted: seq<Counter>, c: Counter): nat {
    if counted == [] then 0 else Times(counted[..|counted| - 1], c) + if counted[|counted| - 1] == c then 1 else 0
  }

  // Each counter is how often it was counted; the rest is the one report, if there was one.
  predicate Says(s: Snapshot, reports: seq<Report>, counted: seq<Counter>) {
    && s.executable == Times(counted, Executable)
    && s.nullQueries == Times(counted, NullQuery)
    && s.stubQueries == Times(counted, StubQuery)
    && match |reports|
       case 0 => s.stubInvocations == s.implementedRejections == s.commandPoisons == s.endFailures == 0 && !s.emitted && s.details == 0
       case _ =>
         var r := reports[0];
         && |reports| == 1 && s.emitted && s.details == r.details
         && s.stubInvocations == (if r.stub then 1 else 0)
         && s.implementedRejections == (if r.implemented then 1 else 0)
         && s.commandPoisons == s.endFailures == (if r.poison then 1 else 0)
  }

  // A snapshot being taken is the shared one, and the winner's report is its own.
  ghost predicate TakesCurrent(threads: seq<Thread>, m: Shared) {
    forall i :: 0 <= i < |threads| && threads[i].pc.UnlockTaken? ==> threads[i].pc.copy == m.snapshot
  }

  ghost predicate Tally(s: State) {
    && Says(s.shared.snapshot, s.history.reports, s.history.counted)
    && |s.history.reports| == |s.history.winners|
    && TakesCurrent(s.threads, s.shared)
  }

  lemma CountedOnce(counted: seq<Counter>, c: Counter)
    ensures forall d :: Times(counted + [c], d) == Times(counted, d) + if d == c then 1 else 0
  {
    assert (counted + [c])[..|counted|] == counted;
  }

  lemma IncrementTallies(s: State, i: nat, writes: bool)
    requires Inv(s) && Tally(s) && i < |s.threads| && s.threads[i].pc.Increment?
    ensures Tally(Step(s, i, writes))
  {
    assert ThreadOk(i, s.threads[i], s.shared, s.history);
    CountedOnce(s.history.counted, s.threads[i].op.counter);
    NoOtherTakes(s, i);
  }

  lemma UpdateTallies(s: State, i: nat, writes: bool)
    requires Inv(s) && Tally(s) && i < |s.threads| && s.threads[i].pc.Update?
    ensures Tally(Step(s, i, writes))
  {
    assert ThreadOk(i, s.threads[i], s.shared, s.history);
    NoOtherTakes(s, i);
  }

  // While a thread holds the mutex no other is taking a snapshot.
  lemma NoOtherTakes(s: State, i: nat)
    requires Inv(s) && i < |s.threads| && HoldsMutex(s.threads[i].pc)
    ensures forall j :: 0 <= j < |s.threads| && j != i ==> !s.threads[j].pc.UnlockTaken?
  {
    assert ThreadOk(i, s.threads[i], s.shared, s.history);
    forall j | 0 <= j < |s.threads| && j != i ensures !s.threads[j].pc.UnlockTaken? {
      assert ThreadOk(j, s.threads[j], s.shared, s.history);
    }
  }

  lemma OthersTally(s: State, i: nat, writes: bool)
    requires Tally(s) && i < |s.threads| && !s.threads[i].pc.Increment? && !s.threads[i].pc.Update?
    ensures Tally(Step(s, i, writes))
  {
    var r := Step(s, i, writes);
    assert r.shared.snapshot == s.shared.snapshot && r.history.counted == s.history.counted && r.history.reports == s.history.reports;
    assert r.history.winners == s.history.winners;
    assert forall j :: 0 <= j < |s.threads| && j != i ==> r.threads[j] == s.threads[j];
  }

  lemma {:induction false} RunTallies(threads: nat, actions: seq<Action>)
    ensures Tally(Run(threads, actions))
  {
    if actions != [] {
      var s, a := Run(threads, actions[..|actions| - 1]), actions[|actions| - 1];
      RunTallies(threads, actions[..|actions| - 1]);
      if a.Next? && a.thread < |s.threads| {
        if s.threads[a.thread].pc.Increment? { IncrementTallies(s, a.thread, a.writes); }
        else if s.threads[a.thread].pc.Update? { UpdateTallies(s, a.thread, a.writes); }
        else { OthersTally(s, a.thread, a.writes); }
      }
    }
  }

  // In every run the snapshot, and with it the record, says exactly what was counted before the
  // winner's report and what that report was.
  lemma SnapshotSaysWhatHappened(threads: nat, actions: seq<Action>)
    ensures var s := Run(threads, actions);
      && Says(s.shared.snapshot, s.history.reports, s.history.counted)
      && |s.history.reports| == |s.history.winners|
      && (s.shared.records != [] ==> |s.history.reports| == 1 && s.shared.records == [s.shared.snapshot])
  {
    RunTallies(threads, actions);
    RecordIsTheSnapshot(threads, actions);
  }

  // ---------------------------------------------------------------- a report that gets through

  function Steps(s: State, i: nat, k: nat): (r: State)
    requires i < |s.threads|
    ensures |r.threads| == |s.threads|
  {
    if k == 0 then s else Step(Steps(s, i, k - 1), i, true)
  }

  // Nobody has won and nobody holds the mutex.
  predicate StillOpen(s: State, i: nat) {
    s.shared.winner.Open? && s.shared.owner == -1 && i < |s.threads| && s.threads[i].pc.Idle?
  }

  // A thread that reports undisturbed wins: it fills in the snapshot, writes it as the record, and
  // returns with the state EMITTED.
  lemma ReportGetsThrough(s: State, i: nat, report: Report)
    requires StillOpen(s, i)
    ensures var r, filled := Steps(Begin(s, i, Record(report)), i, 8), Filled(s.shared.snapshot, report);
      && r.shared == Shared(Emitted, -1, filled, s.shared.records + [filled])
      && r.history.results == s.history.results + [Recorded(Emitted)] && r.threads[i].pc.Idle?
      && r.history.winners == s.history.winners + [i] && r.history.reports == s.history.reports + [report]
  {
    var b, filled := Begin(s, i, Record(report)), Filled(s.shared.snapshot, report);
    assert Steps(b, i, 1) == At(b, i, Lock);
    var held := b.(shared := b.shared.(owner := i));
    assert Steps(b, i, 2) == At(held, i, Check);
    assert Steps(b, i, 3) == At(held, i, Update);
    var won := held.(shared := held.shared.(snapshot := filled),
      history := held.history.(winners := s.history.winners + [i], frozen := filled, reports := s.history.reports + [report]));
    assert Steps(b, i, 4) == At(won, i, StoreEmitting(filled));
    var emitting := won.(shared := won.shared.(winner := Emitting));
    assert Steps(b, i, 5) == At(emitting, i, UnlockWinner(filled));
    assert Steps(b, i, 6) == At(Unlocked(emitting), i, Emit(filled));
    var written := Unlocked(emitting).(shared := Unlocked(emitting).shared.(records := s.shared.records + [filled]));
    assert Steps(b, i, 7) == At(written, i, StoreEmitted);
  }

  // One that counts while the state is open adds one to its counter.
  lemma CountGetsThrough(s: State, i: nat, counter: Counter)
    requires StillOpen(s, i)
    ensures var r := Steps(Begin(s, i, Count(counter)), i, 5);
      && r.shared == s.shared.(snapshot := Bumped(s.shared.snapshot, counter))
      && r.history.results == s.history.results + [Counted] && r.history.counted == s.history.counted + [counter]
      && r.threads[i].pc.Idle?
  {
    var b := Begin(s, i, Count(counter));
    assert Steps(b, i, 1) == At(b, i, Lock);
    var held := b.(shared := b.shared.(owner := i));
    assert Steps(b, i, 2) == At(held, i, Check);
    assert Steps(b, i, 3) == At(held, i, Increment);
    var counted := held.(shared := held.shared.(snapshot := Bumped(s.shared.snapshot, counter)),
      history := held.history.(counted := s.history.counted + [counter]));
    assert Steps(b, i, 4) == At(counted, i, Unlock);
  }

  // One that takes the snapshot gets it as it is, and changes nothing.
  lemma TakeGetsThrough(s: State, i: nat)
    requires s.shared.owner == -1 && i < |s.threads| && s.threads[i].pc.Idle?
    ensures var r := Steps(Begin(s, i, Take), i, 3);
      && r.shared == s.shared && r.threads[i].pc.Idle?
      && r.history.results == s.history.results + [Taken(s.shared.snapshot, !s.shared.winner.Open?)]
  {
    var b := Begin(s, i, Take);
    var held := b.(shared := b.shared.(owner := i));
    assert Steps(b, i, 1) == At(held, i, Copy);
    assert Steps(b, i, 2) == At(held, i, UnlockTaken(s.shared.snapshot, !s.shared.winner.Open?));
  }
}
