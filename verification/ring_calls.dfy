/**
 * What a caller of the transaction ring gets: every return accounted for, in
 * every run, and a run in which a call succeeds.
 */
module RingCalls {
  import opened Errno
  import opened Arithmetic
  import opened TransactionRing

  // ---------------------------------------------------------------- what a return means

  // What the caller must receive for a decision of the worker: its error, or its bytes when they fit
  // a slot.
  function Verdict(d: Decision): Returned {
    if d.status != 0 then Returned(d.status, [])
    else if |d.response| > RESPONSE_BYTES then Returned(EOVERFLOW, [])
    else Returned(0, d.response)
  }

  predicate BadRequest(request: Bytes) {
    request == [] || |request| > REQUEST_BYTES
  }

  // A failure somebody announced.
  predicate Announced(log: Log, status: int) {
    status < 0 && status in log.failures
  }

  // The one way each return can come about.  A call that did not wait was malformed, found a failed
  // peer or a slot in use, or had no clock; one whose wait failed returns that failure; any other
  // returns the worker's verdict on its own request, if that fits its buffer.
  predicate Explained(log: Log, q: nat)
    requires q in log.returned
  {
    && q in log.asked
    && var a, r := log.asked[q], log.returned[q];
    if BadRequest(a.request) then r == Returned(EINVAL, [])
    else if q !in log.waited then
      r.response == [] && if q in log.sent then r.status == EIO else r.status == EBUSY || Announced(log, r.status)
    else if log.waited[q] != 0 then
      r == Returned(log.waited[q], []) && (r.status == EIO || r.status == ETIMEDOUT || Announced(log, r.status))
    else
      && q in log.decided && q in log.answers && q in log.sent && log.sent[q] == a.request
      && r == if |Verdict(log.decided[q]).response| > a.capacity then Returned(EPROTO, []) else Verdict(log.decided[q])
  }

  // ---------------------------------------------------------------- invariant

  // The wait for the answer is over and was not in vain.
  predicate Past(pc: ClientPc) {
    Reading(pc) || Leaving(pc)
  }

  predicate FitsBuffer(pc: ClientPc) {
    pc.ReadStatus? || pc.CopyResponse? || Leaving(pc)
  }

  predicate CallAccount(c: ClientThread, log: Log) {
    && (forall q :: q in log.asked ==> q <= c.call)
    && (forall q :: q in log.waited ==> q <= c.call)
    && (c.pc != Resting ==>
          && c.call in log.asked && log.asked[c.call] == Asked(c.request, c.capacity)
          && (c.call in log.waited <==> Past(c.pc))
          && (Past(c.pc) ==> log.waited[c.call] == 0)
          && (FitsBuffer(c.pc) ==> c.call in log.answers && |log.answers[c.call].response| <= c.capacity))
  }

  // The worker's thread holds its verdict until the slot is completed with it.
  predicate HoldsVerdict(pc: ServicePc) {
    pc.RecheckSequence? || pc.RecheckState? || pc.WriteStatus? || pc.WriteResponse? || pc.StoreCompleted?
  }

  predicate WorkAccount(t: ServiceThread, log: Log) {
    HoldsVerdict(t.pc) ==> t.Next() in log.decided && Verdict(log.decided[t.Next()]) == Returned(t.status, t.answer)
  }

  predicate AnswersAccount(log: Log) {
    forall q :: q in log.answers ==>
      q in log.decided && Verdict(log.decided[q]) == Returned(log.answers[q].status, log.answers[q].response)
  }

  predicate SentAccount(log: Log) {
    forall q :: q in log.sent ==> q in log.asked && log.sent[q] == log.asked[q].request
  }

  predicate ReturnsAccount(log: Log) {
    forall q :: q in log.returned ==> Explained(log, q)
  }

  predicate WaitAccount(w: WaitPc, log: Log) {
    (w.StoreIdle? || w.Done?) && w.result != 0 ==> w.result == EIO || w.result == ETIMEDOUT || Announced(log, w.result)
  }

  predicate FailuresAccount(mem: Memory, c: ClientThread, log: Log) {
    && (mem.PeerStatus() != 0 ==> Announced(log, mem.PeerStatus()))
    && (mem.clientStatus < 0 ==> mem.clientStatus in log.failures)
    && (mem.serviceStatus < 0 ==> mem.serviceStatus in log.failures)
    && (c.pc.AwaitCompletion? ==> WaitAccount(c.pc.wait, log))
  }

  predicate AccountOk(s: State) {
    && CallAccount(s.client, s.log) && WorkAccount(s.service, s.log)
    && AnswersAccount(s.log) && SentAccount(s.log) && ReturnsAccount(s.log)
    && FailuresAccount(s.mem, s.client, s.log)
  }

  // What the ring's own invariant says about the running call.
  predicate CallFacts(s: State) {
    && Runnable(s)
    && (forall q :: q in s.log.returned ==> q <= s.client.call)
    && (forall q :: q in s.log.sent ==> q <= s.client.call)
    && (s.client.pc != Resting ==> s.client.call !in s.log.returned && !BadRequest(s.client.request))
    && (s.client.pc.CheckPeer? || s.client.pc.CheckSlot? ==> s.client.call !in s.log.sent)
    && (Waiting(s.client.pc) || Reading(s.client.pc) ==> s.client.call in s.log.sent)
    && (Reading(s.client.pc) || Leaving(s.client.pc) ==> s.client.call in s.log.sent && s.client.call in s.log.answers)
    && (Reading(s.client.pc) ==>
          var slot := s.mem.SlotAt(s.client.call);
          && slot.sequence == s.client.call && slot.state == COMPLETED
          && s.log.answers[s.client.call] == Answer(s.log.sent[s.client.call], slot.status, slot.response))
    && (Leaving(s.client.pc) ==>
          s.log.answers[s.client.call] == Answer(s.log.sent[s.client.call], 0, s.client.copied))
  }

  lemma InvGivesFacts(s: State)
    requires Inv(s)
    ensures CallFacts(s)
  {
    if s.client.pc != Resting {
      assert SlotOk(s.mem.SlotAt(s.client.call), Index(s.client.call, |s.mem.slots|), |s.mem.slots|, s.client, s.log);
    }
  }

  lemma ClientStarts(s: State, c: Choice)
    requires CallFacts(s) && AccountOk(s) && s.client.pc.Resting? && !BadRequest(c.request)
    ensures AccountOk(ClientStep(s, c))
  {
  }

  lemma ClientRefuses(s: State, c: Choice)
    requires CallFacts(s) && AccountOk(s) && s.client.pc.Resting? && BadRequest(c.request)
    ensures AccountOk(ClientStep(s, c))
  {
  }

  lemma ClientChecksPeer(s: State, c: Choice)
    requires CallFacts(s) && AccountOk(s) && s.client.pc.CheckPeer?
    ensures AccountOk(ClientStep(s, c))
  {
  }

  lemma ClientChecksSlot(s: State, c: Choice)
    requires CallFacts(s) && AccountOk(s) && s.client.pc.CheckSlot?
    ensures AccountOk(ClientStep(s, c))
  {
  }

  lemma ClientFills(s: State, c: Choice)
    requires CallFacts(s) && AccountOk(s) && Filling(s.client.pc) && !s.client.pc.StoreRequested?
    ensures AccountOk(ClientStep(s, c))
  {
  }

  lemma ClientRequests(s: State, c: Choice)
    requires CallFacts(s) && AccountOk(s) && s.client.pc.StoreRequested?
    ensures AccountOk(ClientStep(s, c))
  {
  }

  lemma ClientPublishes(s: State, c: Choice)
    requires CallFacts(s) && AccountOk(s)
    requires Waiting(s.client.pc) && !s.client.pc.AwaitCompletion? && !s.client.pc.StartDeadline?
    ensures AccountOk(ClientStep(s, c))
  {
  }

  lemma ClientSetsDeadline(s: State, c: Choice)
    requires CallFacts(s) && AccountOk(s) && s.client.pc.StartDeadline?
    ensures AccountOk(ClientStep(s, c))
  {
  }

  lemma ClientWaited(s: State, c: Choice)
    requires CallFacts(s) && AccountOk(s) && s.client.pc.AwaitCompletion? && s.client.pc.wait.Done?
    ensures AccountOk(ClientStep(s, c))
  {
  }

  lemma ClientAwaits(s: State, c: Choice)
    requires CallFacts(s) && AccountOk(s) && s.client.pc.AwaitCompletion? && !s.client.pc.wait.Done?
    ensures AccountOk(ClientStep(s, c))
  {
    WaitResult(s.client.pc.wait, s.mem.completionSequence, s.client.call, s.mem.PeerStatus(), s.mem.completionWait, c.event, s.log);
  }

  // A wait ends with its word, an announced failure, a lost clock or its deadline.
  lemma WaitResult(w: WaitPc, word: nat, expected: nat, peer: int, state: WaitState, event: Event, log: Log)
    requires WaitAccount(w, log) && (peer != 0 ==> Announced(log, peer))
    ensures WaitAccount(WaitStep(w, word, expected, peer, state, event).0, log)
  {
  }

  lemma ClientMatches(s: State, c: Choice)
    requires CallFacts(s) && AccountOk(s) && (s.client.pc.ReadSequence? || s.client.pc.ReadState?)
    ensures AccountOk(ClientStep(s, c))
  {
  }

  lemma ClientReads(s: State, c: Choice)
    requires CallFacts(s) && AccountOk(s) && Reading(s.client.pc) && !s.client.pc.ReadSequence? && !s.client.pc.ReadState?
    ensures AccountOk(ClientStep(s, c))
  {
  }

  lemma ClientLeaves(s: State, c: Choice)
    requires CallFacts(s) && AccountOk(s) && (s.client.pc.StoreAvailable? || s.client.pc.StoreNextSlot?)
    ensures AccountOk(ClientStep(s, c))
  {
  }

  lemma WorkerDecides(s: State, c: Choice)
    requires Inv(s) && AccountOk(s) && s.service.pc.Serve?
    ensures AccountOk(ServiceStep(s, c))
  {
  }

  lemma WorkerCompletes(s: State, c: Choice)
    requires Inv(s) && AccountOk(s) && s.service.pc.StoreCompleted?
    ensures AccountOk(ServiceStep(s, c))
  {
  }

  // The worker's other steps leave the log, the peer statuses and the waiting caller's outcome alone.
  lemma WorkerMoves(s: State, c: Choice)
    requires Runnable(s) && AccountOk(s) && !s.service.pc.Serve? && !s.service.pc.StoreCompleted?
    ensures AccountOk(ServiceStep(s, c))
  {
    var r := ServiceStep(s, c);
    assert r.log == s.log && r.mem.clientStatus == s.mem.clientStatus && r.mem.serviceStatus == s.mem.serviceStatus;
    assert r.client == s.client || (s.client.pc.AwaitCompletion? && r.client == s.client.(pc := AwaitCompletion(Awaken(s.client.pc.wait))));
    assert WorkAccount(r.service, r.log);
  }

  lemma StepKeepsAccount(s: State, a: Action)
    requires Inv(s) && AccountOk(s)
    ensures AccountOk(Step(s, a))
  {
    InvGivesFacts(s);
    match a
    case Client(c) =>
      if s.client.pc.Resting? { if BadRequest(c.request) { ClientRefuses(s, c); } else { ClientStarts(s, c); } }
      else if s.client.pc.AwaitCompletion? { if s.client.pc.wait.Done? { ClientWaited(s, c); } else { ClientAwaits(s, c); } }
      else if s.client.pc.StartDeadline? { ClientSetsDeadline(s, c); }
      else if Waiting(s.client.pc) { ClientPublishes(s, c); }
      else if s.client.pc.ReadSequence? || s.client.pc.ReadState? { ClientMatches(s, c); }
      else if Reading(s.client.pc) { ClientReads(s, c); }
      else if Leaving(s.client.pc) { ClientLeaves(s, c); }
      else if s.client.pc.StoreRequested? { ClientRequests(s, c); }
      else if Filling(s.client.pc) { ClientFills(s, c); }
      else if s.client.pc.CheckPeer? { ClientChecksPeer(s, c); }
      else { ClientChecksSlot(s, c); }
    case Service(c) =>
      if s.service.pc.Serve? { WorkerDecides(s, c); }
      else if s.service.pc.StoreCompleted? { WorkerCompletes(s, c); }
      else { WorkerMoves(s, c); }
    case FailClient(_) =>
    case FailService(_) =>
  }

  // ---------------------------------------------------------------- every return, in every run

  lemma {:induction false} RunKeepsAccount(slotCount: nat, actions: seq<Action>)
    requires 0 < slotCount
    ensures AccountOk(Run(slotCount, actions))
  {
    if actions != [] {
      var last := |actions| - 1;
      RunKeepsAccount(slotCount, actions[..last]);
      StepKeepsAccount(Run(slotCount, actions[..last]), actions[last]);
    }
  }

  // Whatever the two threads did: what a call returned is what its request, the announced failures,
  // the end of its wait or the worker's verdict on that very request made it return.
  lemma EveryReturnIsExplained(slotCount: nat, actions: seq<Action>, q: nat)
    requires 0 < slotCount && q in Run(slotCount, actions).log.returned
    ensures Explained(Run(slotCount, actions).log, q)
  {
    RunKeepsAccount(slotCount, actions);
  }

  // Before it waits a call gives up in exactly three places, each for one reason.
  lemma GivesUpEarly(s: State, c: Choice)
    requires Inv(s)
    ensures s.client.pc.CheckPeer? ==>
      (ClientStep(s, c).client.pc.Resting? <==> s.mem.clientStatus < 0 || s.mem.serviceStatus < 0)
    ensures s.client.pc.CheckSlot? ==>
      (ClientStep(s, c).client.pc.Resting? <==> exists q :: EarlierCallKeepsSlot(s, q))
    ensures s.client.pc.StartDeadline? ==> (ClientStep(s, c).client.pc.Resting? <==> c.event.Broken?)
  {
    if s.client.pc.CheckSlot? {
      var i := Index(s.client.call, |s.mem.slots|);
      var slot := s.mem.slots[i];
      assert SlotOk(slot, i, |s.mem.slots|, s.client, s.log);
      if slot.state != AVAILABLE { assert EarlierCallKeepsSlot(s, slot.sequence); }
    }
  }

  // A call before the running one was sent in the same slot, and the slot is still its own.
  predicate EarlierCallKeepsSlot(s: State, q: nat) {
    && 0 < |s.mem.slots| && 0 < q < s.client.call && q in s.log.sent
    && Index(q, |s.mem.slots|) == Index(s.client.call, |s.mem.slots|)
    && s.mem.SlotAt(q).sequence == q && s.mem.SlotAt(q).state != AVAILABLE
  }

  // ---------------------------------------------------------------- waits that see their word

  // k steps of a wait during which nothing else happens and no clock runs out.
  function WaitOn(w: WaitPc, word: nat, expected: nat, state: WaitState, k: nat): (WaitPc, WaitState) {
    if k == 0 then (w, state)
    else
      var (v, before) := WaitOn(w, word, expected, state, k - 1);
      WaitStep(v, word, expected, 0, before, Tick)
  }

  // Once its word is published, a waiter that is not parked succeeds within five steps, wherever it
  // is in its loop, and leaves its wait state idle if it had announced one.
  lemma WaitFinds(w: WaitPc, word: nat, expected: nat, state: WaitState, publishing: bool)
    requires WaiterOk(w, word, expected, state, publishing) && word >= expected
    requires !w.Parked? && (w.StoreIdle? || w.Done? ==> w.result == 0)
    ensures WaitOn(w, word, expected, state, 5).0 == Done(0)
    ensures !w.FirstPeer? && !w.FirstLoad? && !w.Done? ==> WaitOn(w, word, expected, state, 5).1 == IDLE
  {
    assert WaitOn(w, word, expected, state, 0) == (w, state);
    var s1 := WaitOn(w, word, expected, state, 1);
    var s2 := WaitOn(w, word, expected, state, 2);
    var s3 := WaitOn(w, word, expected, state, 3);
    var s4 := WaitOn(w, word, expected, state, 4);
    assert s1 == WaitStep(w, word, expected, 0, state, Tick);
    assert s2 == WaitStep(s1.0, word, expected, 0, s1.1, Tick);
    assert s3 == WaitStep(s2.0, word, expected, 0, s2.1, Tick);
    assert s4 == WaitStep(s3.0, word, expected, 0, s3.1, Tick);
  }

  // A waiter whose spinning is over and whose word is not published announces that it sleeps, looks
  // once more, and parks on the word it saw.
  lemma WaitSleeps(word: nat, expected: nat, state: WaitState)
    requires word < expected
    ensures WaitOn(StoreSleeping, word, expected, state, 4) == (Parked(word), SLEEPING)
  {
    assert WaitOn(StoreSleeping, word, expected, state, 0) == (StoreSleeping, state);
    var s1 := WaitOn(StoreSleeping, word, expected, state, 1);
    var s2 := WaitOn(StoreSleeping, word, expected, state, 2);
    var s3 := WaitOn(StoreSleeping, word, expected, state, 3);
    assert s1 == (SleepPeer, SLEEPING) && s2 == (SleepLoad, SLEEPING) && s3 == (Futex(word), SLEEPING);
  }

  // The first call goes to the first slot, and each call to the one after its predecessor's, around.
  lemma SlotsTakeTurns(q: nat, n: nat)
    requires 0 < q && 0 < n
    ensures Index(1, n) == 0 && Index(q + 1, n) == (Index(q, n) + 1) % n
  {
    if n == 1 {
      DivisionIsUnique(q, 1, q, 0);
    } else {
      var a, r := (q - 1) / n, (q - 1) % n;
      assert q - 1 == n * a + r;
      if r + 1 < n {
        DivisionIsUnique(q, n, a, r + 1);
        DivisionIsUnique(r + 1, n, 0, r + 1);
      } else {
        DivisionIsUnique(q, n, a + 1, 0);
        DivisionIsUnique(r + 1, n, 1, 0);
      }
    }
  }

  // ---------------------------------------------------------------- failures and numbers

  predicate SomebodyFailed(s: State) {
    s.mem.clientStatus < 0 || s.mem.serviceStatus < 0
  }

  // Only a negative status can be announced, each side's in its own word; no announcement is ever
  // withdrawn, and no other step touches the words.
  lemma FailuresStay(s: State, a: Action)
    requires Runnable(s)
    ensures var r := Step(s, a);
      && (SomebodyFailed(s) ==> SomebodyFailed(r))
      && r.mem.clientStatus == (if a.FailClient? && a.status < 0 then a.status else s.mem.clientStatus)
      && r.mem.serviceStatus == (if a.FailService? && a.status < 0 then a.status else s.mem.serviceStatus)
  {
  }

  // Calls are numbered one by one and never run out of 32 bits.
  lemma {:induction false} CallsFitTheirNumber(slotCount: nat, actions: seq<Action>)
    requires 0 < slotCount
    ensures Run(slotCount, actions).client.call < U32_LIMIT
  {
    if actions != [] {
      var last := |actions| - 1;
      CallsFitTheirNumber(slotCount, actions[..last]);
      RunnableAlways(slotCount, actions[..last]);
      NumberGrows(Run(slotCount, actions[..last]), actions[last]);
    }
  }

  lemma NumberGrows(s: State, a: Action)
    requires Runnable(s) && s.client.call < U32_LIMIT
    ensures Step(s, a).client.call < U32_LIMIT
    ensures Step(s, a).client.call == s.client.call || Step(s, a).client.call == s.client.call + 1
  {
  }

  // ---------------------------------------------------------------- a call that succeeds

  // Both threads are idle, nobody failed, and every slot is free.
  predicate Quiet(s: State) {
    && s.client.pc.Resting? && s.service.pc == AwaitRequest(FirstPeer)
    && s.service.after == s.client.call == s.mem.requestSequence == s.mem.completionSequence
    && s.mem.clientStatus >= 0 && s.mem.serviceStatus >= 0
    && s.mem.requestWait == IDLE && s.mem.completionWait == IDLE
    && 0 < |s.mem.slots| && forall i :: 0 <= i < |s.mem.slots| ==> s.mem.slots[i].state == AVAILABLE
  }

  function Iterate<S>(f: S -> S, s: S, k: nat): S {
    if k == 0 then s else f(Iterate(f, s, k - 1))
  }

  lemma {:induction false} IterateAdds<S>(f: S -> S, s: S, j: nat, k: nat)
    ensures Iterate(f, Iterate(f, s, j), k) == Iterate(f, s, j + k)
  {
    if k > 0 { IterateAdds(f, s, j, k - 1); }
  }

  function Mover(a: Action): State -> State {
    (s: State) => if Runnable(s) then Step(s, a) else s
  }

  // k steps of one thread.
  function Repeat(s: State, a: Action, k: nat): State {
    Iterate(Mover(a), s, k)
  }

  lemma OneMore(s: State, a: Action, k: nat, r: State)
    requires Repeat(s, a, k) == r && Runnable(r)
    ensures Repeat(s, a, k + 1) == Step(r, a)
  {
  }

  lemma PutTwice(mem: Memory, q: nat, a: Slot, b: Slot)
    requires 0 < |mem.slots| && 0 < q
    ensures mem.PutSlot(q, a).SlotAt(q) == a && mem.PutSlot(q, a).PutSlot(q, b) == mem.PutSlot(q, b)
  {
  }

  // A caller with a well-formed request, and a worker that comes to this decision.
  predicate GoodChoice(s: State, c: Choice) {
    c.event.Tick? && !BadRequest(c.request) && s.client.call + 1 < U32_LIMIT
  }

  function Requested(s: State, c: Choice): Slot {
    Slot(REQUESTED, s.client.call + 1, 0, c.request, [])
  }

  // The call found its peer alive and its slot free.
  function Admitted(s: State, c: Choice): State {
    State(s.mem, ClientThread(ClearSlot, s.client.call + 1, c.request, c.capacity, []), s.service,
          s.log.(asked := s.log.asked[s.client.call + 1 := Asked(c.request, c.capacity)]))
  }

  // The request is in its slot.
  function Filled(s: State, c: Choice): State
    requires 0 < |s.mem.slots|
  {
    var r := Admitted(s, c);
    State(s.mem.PutSlot(s.client.call + 1, Requested(s, c)), r.client.(pc := PublishRequest), r.service,
          r.log.(sent := r.log.sent[s.client.call + 1 := c.request]))
  }

  // The caller waits for its answer.
  function Submitted(s: State, c: Choice): State
    requires 0 < |s.mem.slots|
  {
    var r := Filled(s, c);
    State(r.mem.(requestSequence := s.client.call + 1), r.client.(pc := AwaitCompletion(FirstPeer)), r.service, r.log)
  }

  function WithSlot(r: State, pc: ClientPc, slot: Slot): State
    requires 0 < |r.mem.slots| && 0 < r.client.call
  {
    State(r.mem.PutSlot(r.client.call, slot), r.client.(pc := pc), r.service, r.log)
  }

  function WithAnswer(r: State, q: nat, pc: ServicePc, slot: Slot): State
    requires 0 < |r.mem.slots| && 0 < q
  {
    State(r.mem.PutSlot(q, slot), r.client, r.service.(pc := pc), r.log)
  }

  lemma CallIsAdmitted(s: State, c: Choice)
    requires Quiet(s) && GoodChoice(s, c)
    ensures Repeat(s, Client(c), 3) == Admitted(s, c)
  {
    var a, r := Client(c), Admitted(s, c);
    OneMore(s, a, 0, s);
    OneMore(s, a, 1, AtClient(r, CheckPeer));
    assert r.mem.SlotAt(r.client.call).state == AVAILABLE;
    OneMore(s, a, 2, AtClient(r, CheckSlot));
  }

  lemma SlotIsFilled(s: State, c: Choice)
    requires Quiet(s) && GoodChoice(s, c)
    ensures Repeat(Admitted(s, c), Client(c), 4) == Filled(s, c)
  {
    var a, r, q := Client(c), Admitted(s, c), s.client.call + 1;
    var x := ZERO_SLOT.(request := c.request);
    var y := x.(sequence := q);
    OneMore(r, a, 0, r);
    PutTwice(r.mem, q, ZERO_SLOT, x);
    OneMore(r, a, 1, WithSlot(r, FillRequest, ZERO_SLOT));
    PutTwice(r.mem, q, x, y);
    OneMore(r, a, 2, WithSlot(r, StampSequence, x));
    PutTwice(r.mem, q, y, Requested(s, c));
    OneMore(r, a, 3, WithSlot(r, StoreRequested, y));
  }

  lemma RequestIsPublished(s: State, c: Choice)
    requires Quiet(s) && GoodChoice(s, c)
    ensures Repeat(Filled(s, c), Client(c), 3) == Submitted(s, c)
  {
    var a, r := Client(c), Filled(s, c);
    var r' := Submitted(s, c);
    OneMore(r, a, 0, r);
    OneMore(r, a, 1, AtClient(r', LoadRequestWait));
    OneMore(r, a, 2, AtClient(r', StartDeadline));
  }

  lemma CallIsSubmitted(s: State, c: Choice)
    requires Quiet(s) && GoodChoice(s, c)
    ensures Repeat(s, Client(c), 10) == Submitted(s, c)
  {
    CallIsAdmitted(s, c);
    SlotIsFilled(s, c);
    IterateAdds(Mover(Client(c)), s, 3, 4);
    RequestIsPublished(s, c);
    IterateAdds(Mover(Client(c)), s, 7, 3);
  }

  // ---------------------------------------------------------------- the worker's half

  function DecisionOf(c: Choice): Decision {
    Decision(if c.status < 0 then c.status else 0, c.response)
  }

  // The worker has taken the request from its slot.
  function Taken(s: State, c: Choice): State
    requires 0 < |s.mem.slots|
  {
    var r := Submitted(s, c);
    State(r.mem, r.client, r.service.(pc := Serve, taken := c.request), r.log)
  }

  // It has decided and checked the slot again.
  function Decided(s: State, c: Choice): State
    requires 0 < |s.mem.slots|
  {
    var r, v := Taken(s, c), Verdict(DecisionOf(c));
    State(r.mem, r.client, r.service.(pc := WriteStatus, status := v.status, answer := v.response),
          r.log.(decided := r.log.decided[s.client.call + 1 := DecisionOf(c)]))
  }

  // The verdict is in the slot, published, and the worker waits again.
  function Served(s: State, c: Choice): State
    requires 0 < |s.mem.slots|
  {
    var r, v, q := Decided(s, c), Verdict(DecisionOf(c)), s.client.call + 1;
    State(r.mem.PutSlot(q, Slot(COMPLETED, q, v.status, c.request, v.response)).(completionSequence := q),
          r.client, r.service.(pc := AwaitRequest(FirstPeer), after := q),
          r.log.(answers := r.log.answers[q := Answer(c.request, v.status, v.response)]))
  }

  lemma RequestIsTaken(s: State, c: Choice)
    requires Quiet(s) && GoodChoice(s, c)
    ensures Repeat(Submitted(s, c), Service(c), 6) == Taken(s, c)
  {
    var a, r, q := Service(c), Submitted(s, c), s.client.call + 1;
    assert r.mem.SlotAt(q) == Requested(s, c);
    OneMore(r, a, 0, r);
    OneMore(r, a, 1, AtService(r, AwaitRequest(FirstLoad)));
    OneMore(r, a, 2, AtService(r, AwaitRequest(Done(0))));
    OneMore(r, a, 3, AtService(r, MatchSequence));
    OneMore(r, a, 4, AtService(r, MatchState));
    OneMore(r, a, 5, AtService(r, TakeRequest));
  }

  lemma VerdictIsReached(s: State, c: Choice)
    requires Quiet(s) && GoodChoice(s, c)
    ensures Repeat(Taken(s, c), Service(c), 3) == Decided(s, c)
  {
    var a, r, q := Service(c), Taken(s, c), s.client.call + 1;
    assert r.mem.SlotAt(q) == Requested(s, c);
    OneMore(r, a, 0, r);
    OneMore(r, a, 1, AtService(Decided(s, c), RecheckSequence));
    OneMore(r, a, 2, AtService(Decided(s, c), RecheckState));
  }

  lemma AnswerIsWritten(s: State, c: Choice)
    requires Quiet(s) && GoodChoice(s, c)
    ensures Repeat(Decided(s, c), Service(c), 5) == Served(s, c)
  {
    var a, r, v, q := Service(c), Decided(s, c), Verdict(DecisionOf(c)), s.client.call + 1;
    var x := Requested(s, c);
    assert r.mem.SlotAt(q) == x;
    var y := x.(status := v.status);
    var z := y.(response := v.response);
    OneMore(r, a, 0, r);
    PutTwice(r.mem, q, y, z);
    OneMore(r, a, 1, WithAnswer(r, q, WriteResponse, y));
    PutTwice(r.mem, q, z, z.(state := COMPLETED));
    OneMore(r, a, 2, WithAnswer(r, q, StoreCompleted, z));
    var r' := Served(s, c);
    OneMore(r, a, 3, State(r'.mem.(completionSequence := r.mem.completionSequence), r'.client, r.service.(pc := PublishCompletion), r'.log));
    OneMore(r, a, 4, State(r'.mem, r'.client, r.service.(pc := LoadCompletionWait), r'.log));
  }

  lemma RequestIsServed(s: State, c: Choice)
    requires Quiet(s) && GoodChoice(s, c)
    ensures Repeat(Submitted(s, c), Service(c), 14) == Served(s, c)
  {
    var r, a := Submitted(s, c), Service(c);
    RequestIsTaken(s, c);
    VerdictIsReached(s, c);
    IterateAdds(Mover(a), r, 6, 3);
    AnswerIsWritten(s, c);
    IterateAdds(Mover(a), r, 9, 5);
  }

  // ---------------------------------------------------------------- the caller's second half

  // How many steps the caller takes from its wait to its return.
  function StepsToReturn(s: State, c: Choice): nat {
    var v := Verdict(DecisionOf(c));
    if |v.response| > c.capacity then 5 else if v.status != 0 then 6 else 10
  }

  // What it returns.
  function Outcome(c: Choice): Returned {
    var v := Verdict(DecisionOf(c));
    if |v.response| > c.capacity then Returned(EPROTO, []) else v
  }

  // The wait is over.
  function Awaited(s: State, c: Choice): State
    requires 0 < |s.mem.slots|
  {
    var r, q := Served(s, c), s.client.call + 1;
    State(r.mem, r.client.(pc := ReadSequence), r.service, r.log.(waited := r.log.waited[q := 0]))
  }

  lemma AnswerIsAwaited(s: State, c: Choice)
    requires Quiet(s) && GoodChoice(s, c)
    ensures Repeat(Served(s, c), Client(c), 3) == Awaited(s, c)
  {
    var a, r := Client(c), Served(s, c);
    OneMore(r, a, 0, r);
    OneMore(r, a, 1, AtClient(r, AwaitCompletion(FirstLoad)));
    OneMore(r, a, 2, AtClient(r, AwaitCompletion(Done(0))));
  }

  lemma TooLongForBuffer(s: State, c: Choice)
    requires Quiet(s) && GoodChoice(s, c) && StepsToReturn(s, c) == 5
    ensures Repeat(Awaited(s, c), Client(c), 2) == Return(Awaited(s, c), EPROTO, [])
  {
    var a, r := Client(c), Awaited(s, c);
    OneMore(r, a, 0, r);
    OneMore(r, a, 1, AtClient(r, ReadState));
  }

  lemma ErrorIsReturned(s: State, c: Choice)
    requires Quiet(s) && GoodChoice(s, c) && StepsToReturn(s, c) == 6
    ensures Repeat(Awaited(s, c), Client(c), 3) == Return(Awaited(s, c), Verdict(DecisionOf(c)).status, [])
  {
    var a, r := Client(c), Awaited(s, c);
    OneMore(r, a, 0, r);
    OneMore(r, a, 1, AtClient(r, ReadState));
    OneMore(r, a, 2, AtClient(r, ReadStatus));
  }

  // The answer is copied out and the slot free again.
  function Released(s: State, c: Choice): State
    requires 0 < |s.mem.slots|
  {
    var r, q := Awaited(s, c), s.client.call + 1;
    Return(State(r.mem.PutSlot(q, ZERO_SLOT).(nextSlot := (Index(q, |s.mem.slots|) + 1) % |s.mem.slots|),
                 r.client.(copied := Verdict(DecisionOf(c)).response), r.service, r.log),
           0, Verdict(DecisionOf(c)).response)
  }

  lemma AnswerIsCopied(s: State, c: Choice)
    requires Quiet(s) && GoodChoice(s, c) && StepsToReturn(s, c) == 10
    ensures Repeat(Awaited(s, c), Client(c), 4) == Copied(s, c)
  {
    var a, r := Client(c), Awaited(s, c);
    OneMore(r, a, 0, r);
    OneMore(r, a, 1, AtClient(r, ReadState));
    OneMore(r, a, 2, AtClient(r, ReadStatus));
    OneMore(r, a, 3, AtClient(r, CopyResponse));
  }

  function Copied(s: State, c: Choice): State
    requires 0 < |s.mem.slots|
  {
    var r := Awaited(s, c);
    State(r.mem, r.client.(copied := Verdict(DecisionOf(c)).response, pc := EraseSlot), r.service, r.log)
  }

  lemma SlotIsErased(s: State, c: Choice)
    requires Quiet(s) && GoodChoice(s, c) && StepsToReturn(s, c) == 10
    ensures Repeat(Copied(s, c), Client(c), 3) == Released(s, c)
  {
    var a, x, q := Client(c), Copied(s, c), s.client.call + 1;
    OneMore(x, a, 0, x);
    PutTwice(x.mem, q, ZERO_SLOT, ZERO_SLOT);
    OneMore(x, a, 1, WithSlot(x, StoreAvailable, ZERO_SLOT));
    OneMore(x, a, 2, WithSlot(x, StoreNextSlot, ZERO_SLOT));
  }

  lemma SlotIsReleased(s: State, c: Choice)
    requires Quiet(s) && GoodChoice(s, c) && StepsToReturn(s, c) == 10
    ensures Repeat(Awaited(s, c), Client(c), 7) == Released(s, c)
  {
    AnswerIsCopied(s, c);
    SlotIsErased(s, c);
    IterateAdds(Mover(Client(c)), Awaited(s, c), 4, 3);
  }

  lemma CallReturns(s: State, c: Choice)
    requires Quiet(s) && GoodChoice(s, c)
    ensures var r := Repeat(Served(s, c), Client(c), StepsToReturn(s, c));
      && s.client.call + 1 in r.log.returned && r.log.returned[s.client.call + 1] == Outcome(c)
      && (Outcome(c).status == 0 ==> r == Released(s, c))
  {
    AnswerIsAwaited(s, c);
    IterateAdds(Mover(Client(c)), Served(s, c), 3, StepsToReturn(s, c) - 3);
    if StepsToReturn(s, c) == 5 {
      TooLongForBuffer(s, c);
    } else if StepsToReturn(s, c) == 6 {
      ErrorIsReturned(s, c);
    } else {
      SlotIsReleased(s, c);
    }
  }

  // ---------------------------------------------------------------- as a run

  // The caller submits, the worker serves, the caller returns.
  function Completed(s: State, c: Choice): State {
    Repeat(Repeat(Repeat(s, Client(c), 10), Service(c), 14), Client(c), StepsToReturn(s, c))
  }

  lemma CallCompletes(s: State, c: Choice)
    requires Quiet(s) && GoodChoice(s, c)
    ensures CallReturned(s, Completed(s, c), Outcome(c))
  {
    CallIsSubmitted(s, c);
    RequestIsServed(s, c);
    CallReturns(s, c);
    if Outcome(c).status == 0 { ReleasedIsQuiet(s, c); }
  }

  function Schedule(s: State, actions: seq<Action>): State {
    if actions == [] then s else Mover(actions[|actions| - 1])(Schedule(s, actions[..|actions| - 1]))
  }

  lemma {:induction false} ScheduleRepeats(s: State, actions: seq<Action>, a: Action, k: nat) returns (more: seq<Action>)
    ensures Schedule(s, more) == Repeat(Schedule(s, actions), a, k)
  {
    more := actions;
    if k > 0 {
      var shorter := ScheduleRepeats(s, actions, a, k - 1);
      more := shorter + [a];
      assert more[..|more| - 1] == shorter;
    }
  }

  lemma CallIsScheduled(s: State, c: Choice) returns (more: seq<Action>)
    ensures Schedule(s, more) == Completed(s, c)
  {
    more := ScheduleRepeats(s, [], Client(c), 10);
    more := ScheduleRepeats(s, more, Service(c), 14);
    more := ScheduleRepeats(s, more, Client(c), StepsToReturn(s, c));
  }

  lemma {:induction false} ScheduleAdds(s: State, actions: seq<Action>, more: seq<Action>)
    ensures Schedule(s, actions + more) == Schedule(Schedule(s, actions), more)
  {
    if more == [] {
      assert actions + more == actions;
    } else {
      var last := |more| - 1;
      ScheduleAdds(s, actions, more[..last]);
      assert (actions + more)[..|actions + more| - 1] == actions + more[..last];
    }
  }

  lemma {:induction false} RunIsSchedule(slotCount: nat, actions: seq<Action>)
    requires 0 < slotCount
    ensures Run(slotCount, actions) == Schedule(Init(slotCount), actions)
  {
    if actions != [] {
      RunIsSchedule(slotCount, actions[..|actions| - 1]);
      RunnableAlways(slotCount, actions[..|actions| - 1]);
    }
  }

  lemma RunnableAlways(slotCount: nat, actions: seq<Action>)
    requires 0 < slotCount
    ensures Runnable(Run(slotCount, actions))
  {
  }

  lemma RunThenSchedule(slotCount: nat, actions: seq<Action>, more: seq<Action>)
    requires 0 < slotCount
    ensures Run(slotCount, actions + more) == Schedule(Run(slotCount, actions), more)
  {
    RunIsSchedule(slotCount, actions);
    RunIsSchedule(slotCount, actions + more);
    ScheduleAdds(Init(slotCount), actions, more);
  }

  // The next call returned this, and if it is a success the ring is quiet again.
  predicate CallReturned(s: State, r: State, outcome: Returned) {
    var q := s.client.call + 1;
    && q in r.log.returned && r.log.returned[q] == outcome
    && (outcome.status == 0 ==> Quiet(r) && r.client.call == q)
  }

  // From any quiet state a run can reach, any well-formed request, buffer and decision of the worker:
  // some continuation answers the call with exactly the worker's verdict, or a protocol error if that
  // does not fit the buffer; and after a success the ring is quiet again.
  lemma CallCanComplete(slotCount: nat, actions: seq<Action>, c: Choice) returns (more: seq<Action>)
    requires 0 < slotCount && Quiet(Run(slotCount, actions)) && GoodChoice(Run(slotCount, actions), c)
    ensures CallReturned(Run(slotCount, actions), Run(slotCount, actions + more), Outcome(c))
  {
    more := CallIsScheduled(Run(slotCount, actions), c);
    RunThenSchedule(slotCount, actions, more);
    CallCompletes(Run(slotCount, actions), c);
  }

  lemma ReleasedIsQuiet(s: State, c: Choice)
    requires Quiet(s)
    ensures Quiet(Released(s, c))
  {
  }

  // The ring starts quiet.
  lemma StartsQuiet(slotCount: nat)
    requires 0 < slotCount
    ensures Quiet(Run(slotCount, []))
  {
  }
}
