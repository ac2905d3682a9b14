/**
 * The descriptor transaction ring: one client thread and one service thread
 * exchange requests and responses through slots in shared memory.
 *
 * Every load, store and futex call of either thread is a step of its own and
 * the steps interleave in any order (sequential consistency).  A thread's
 * program counter says what it does next; `Step` performs it.  The fields
 * after `service` are local variables of the two threads and a record of what
 * was sent, answered and returned.
 */
module TransactionRing {
  import opened Errno

  const REQUEST_BYTES := 176
  const RESPONSE_BYTES := 136

  type Bytes = seq<bv8>

  datatype SlotState = AVAILABLE | REQUESTED | COMPLETED
  datatype Slot = Slot(state: SlotState, sequence: nat, status: int, request: Bytes, response: Bytes)
  const ZERO_SLOT := Slot(AVAILABLE, 0, 0, [], [])

  datatype WaitState = IDLE | SPINNING | SLEEPING

  // wait_for_sequence, one shared access at a time.
  datatype WaitPc =
    | FirstPeer | FirstLoad | StartClock | StoreSpinning
    | SpinPeer | SpinLoad | SpinClock
    | StoreSleeping
    | SleepPeer | SleepLoad | Futex(observed: nat) | Parked(observed: nat)
    | StoreIdle(result: int)
    | Done(result: int)

  datatype ClientPc =
    | Resting
    | CheckPeer | CheckSlot
    | ClearSlot | FillRequest | StampSequence | StoreRequested
    | PublishRequest | LoadRequestWait | WakeService
    | StartDeadline | AwaitCompletion(wait: WaitPc)
    | ReadSequence | ReadState | ReadStatus | CopyResponse
    | EraseSlot | StoreAvailable | StoreNextSlot

  datatype ServicePc =
    | AwaitRequest(wait: WaitPc)
    | MatchSequence | MatchState | TakeRequest
    | Serve
    | RecheckSequence | RecheckState
    | WriteStatus | WriteResponse | StoreCompleted
    | PublishCompletion | LoadCompletionWait | WakeClient
    | Halted

  // What a thread cannot control: clocks and signals, the next request, the native answer.
  datatype Event = Tick | Expired | Broken | Interrupted
  datatype Choice = Choice(event: Event, request: Bytes, capacity: nat, status: int, response: Bytes)

  datatype Action =
    | Client(choice: Choice)
    | Service(choice: Choice)
    | FailClient(status: int)
    | FailService(status: int)

  datatype Answer = Answer(request: Bytes, status: int, response: Bytes)
  datatype Returned = Returned(status: int, response: Bytes)

  datatype Memory = Memory(
    slots: seq<Slot>, requestSequence: nat, completionSequence: nat,
    requestWait: WaitState, completionWait: WaitState,
    clientStatus: int, serviceStatus: int, nextSlot: nat)
  {
    function PeerStatus(): int {
      if clientStatus < 0 then clientStatus else if serviceStatus < 0 then serviceStatus else 0
    }

    function SlotAt(sequence: nat): Slot
      requires 0 < |slots| && 0 < sequence
    {
      slots[Index(sequence, |slots|)]
    }

    function PutSlot(sequence: nat, slot: Slot): Memory
      requires 0 < |slots| && 0 < sequence
    {
      this.(slots := slots[Index(sequence, |slots|) := slot])
    }
  }

  function Index(sequence: nat, slotCount: nat): (i: nat)
    requires 0 < slotCount && 0 < sequence
    ensures i < slotCount
  {
    (sequence - 1) % slotCount
  }

  // The client's local variables; `call` numbers its current or last call.
  datatype ClientThread = ClientThread(pc: ClientPc, call: nat, request: Bytes, capacity: nat, copied: Bytes)

  // The service's local variables; it serves call `after + 1` next.
  datatype ServiceThread = ServiceThread(pc: ServicePc, after: nat, taken: Bytes, status: int, answer: Bytes)
  {
    function Next(): nat { after + 1 }
  }

  // What the caller asked for, and what the worker came to.
  datatype Asked = Asked(request: Bytes, capacity: nat)
  datatype Decision = Decision(status: int, response: Bytes)

  // What was requested, answered and returned, by call number; also what each call asked for and the
  // worker decided, how each wait for an answer ended, and which failures were announced.
  datatype Log = Log(
    sent: map<nat, Bytes>, answers: map<nat, Answer>, returned: map<nat, Returned>,
    asked: map<nat, Asked>, decided: map<nat, Decision>, waited: map<nat, int>, failures: set<int>)

  datatype State = State(mem: Memory, client: ClientThread, service: ServiceThread, log: Log)

  function Init(slotCount: nat): State
    requires 0 < slotCount
  {
    State(Memory(seq(slotCount, _ => ZERO_SLOT), 0, 0, IDLE, IDLE, 0, 0, 0),
          ClientThread(Resting, 0, [], 0, []),
          ServiceThread(AwaitRequest(FirstPeer), 0, [], 0, []),
          Log(map[], map[], map[], map[], map[], map[], {}))
  }

  // The wait loop: its next program counter and the wait-state word it leaves.
  function WaitStep(w: WaitPc, word: nat, expected: nat, peer: int, state: WaitState, event: Event): (WaitPc, WaitState) {
    match w
    case FirstPeer => (if peer != 0 then Done(peer) else FirstLoad, state)
    case FirstLoad => (if word >= expected then Done(0) else StartClock, state)
    case StartClock => (if event.Broken? then Done(EIO) else StoreSpinning, state)
    case StoreSpinning => (SpinPeer, SPINNING)
    case SpinPeer => (if peer != 0 then StoreIdle(peer) else SpinLoad, state)
    case SpinLoad => (if word >= expected then StoreIdle(0) else SpinClock, state)
    case SpinClock =>
      (if event.Broken? then StoreIdle(EIO) else if event.Expired? then StoreSleeping else SpinPeer, state)
    case StoreSleeping => (SleepPeer, SLEEPING)
    case SleepPeer => (if peer != 0 then StoreIdle(peer) else SleepLoad, state)
    case SleepLoad => (if word >= expected then StoreIdle(0) else Futex(word), state)
    case Futex(observed) =>
      (match event
       case Broken => StoreIdle(EIO)
       case Expired => StoreIdle(ETIMEDOUT)
       case Interrupted => SleepPeer
       case Tick => if word == observed then Parked(observed) else SleepPeer, state)
    case Parked(observed) =>
      (match event
       case Broken => StoreIdle(EIO)
       case Expired => StoreIdle(ETIMEDOUT)
       case Interrupted => SleepPeer
       case Tick => w, state)
    case StoreIdle(result) => (Done(result), IDLE)
    case Done(_) => (w, state)
  }

  function Awaken(w: WaitPc): WaitPc {
    if w.Parked? then SleepPeer else w
  }

  function AtClient(s: State, pc: ClientPc): State {
    s.(client := s.client.(pc := pc))
  }

  function AtService(s: State, pc: ServicePc): State {
    s.(service := s.service.(pc := pc))
  }

  // The call returns to its caller.
  function Return(s: State, status: int, response: Bytes): State {
    State(s.mem, s.client.(pc := Resting), s.service,
          s.log.(returned := s.log.returned[s.client.call := Returned(status, response)]))
  }

  predicate Runnable(s: State) {
    0 < |s.mem.slots| && (s.client.pc != Resting ==> 0 < s.client.call)
  }

  function StartCall(s: State, c: Choice): State {
    var call := s.client.call + 1;
    if call >= U32_LIMIT then s
    else
      var log := s.log.(asked := s.log.asked[call := Asked(c.request, c.capacity)]);
      if |c.request| == 0 || |c.request| > REQUEST_BYTES then
        Return(State(s.mem, s.client.(call := call), s.service, log), EINVAL, [])
      else State(s.mem, ClientThread(CheckPeer, call, c.request, c.capacity, []), s.service, log)
  }

  // The client writes its slot.
  function ClientWrite(s: State, slot: Slot, pc: ClientPc): State
    requires Runnable(s) && s.client.pc != Resting
  {
    State(s.mem.PutSlot(s.client.call, slot), s.client.(pc := pc), s.service, s.log)
  }

  function ClientStep(s: State, c: Choice): State
    requires Runnable(s)
  {
    var call := s.client.call;
    match s.client.pc
    case Resting => StartCall(s, c)
    case CheckPeer =>
      if s.mem.PeerStatus() != 0 then Return(s, s.mem.PeerStatus(), []) else AtClient(s, CheckSlot)
    case CheckSlot =>
      if s.mem.SlotAt(call).state != AVAILABLE then Return(s, EBUSY, []) else AtClient(s, ClearSlot)
    case ClearSlot => ClientWrite(s, ZERO_SLOT, FillRequest)
    case FillRequest => ClientWrite(s, s.mem.SlotAt(call).(request := s.client.request), StampSequence)
    case StampSequence => ClientWrite(s, s.mem.SlotAt(call).(sequence := call), StoreRequested)
    case StoreRequested =>
      ClientWrite(s, s.mem.SlotAt(call).(state := REQUESTED), PublishRequest)
        .(log := s.log.(sent := s.log.sent[call := s.client.request]))
    case PublishRequest =>
      State(s.mem.(requestSequence := call), s.client.(pc := LoadRequestWait), s.service, s.log)
    case LoadRequestWait =>
      AtClient(s, if s.mem.requestWait == SLEEPING then WakeService else StartDeadline)
    case WakeService =>
      State(s.mem, s.client.(pc := StartDeadline),
            if s.service.pc.AwaitRequest? then s.service.(pc := AwaitRequest(Awaken(s.service.pc.wait))) else s.service,
            s.log)
    case StartDeadline =>
      if c.event.Broken? then Return(s, EIO, []) else AtClient(s, AwaitCompletion(FirstPeer))
    case AwaitCompletion(w) =>
      if w.Done? then
        var r := s.(log := s.log.(waited := s.log.waited[call := w.result]));
        if w.result != 0 then Return(r, w.result, []) else AtClient(r, ReadSequence)
      else
        var (w', word) := WaitStep(w, s.mem.completionSequence, call, s.mem.PeerStatus(), s.mem.completionWait, c.event);
        State(s.mem.(completionWait := word), s.client.(pc := AwaitCompletion(w')), s.service, s.log)
    case ReadSequence =>
      if s.mem.SlotAt(call).sequence != call then Return(s, EPROTO, []) else AtClient(s, ReadState)
    case ReadState =>
      if s.mem.SlotAt(call).state != COMPLETED || |s.mem.SlotAt(call).response| > s.client.capacity
      then Return(s, EPROTO, []) else AtClient(s, ReadStatus)
    case ReadStatus =>
      if s.mem.SlotAt(call).status != 0 then Return(s, s.mem.SlotAt(call).status, []) else AtClient(s, CopyResponse)
    case CopyResponse =>
      s.(client := s.client.(copied := s.mem.SlotAt(call).response, pc := EraseSlot))
    case EraseSlot => ClientWrite(s, ZERO_SLOT, StoreAvailable)
    case StoreAvailable => ClientWrite(s, s.mem.SlotAt(call).(state := AVAILABLE), StoreNextSlot)
    case StoreNextSlot =>
      Return(s.(mem := s.mem.(nextSlot := (Index(call, |s.mem.slots|) + 1) % |s.mem.slots|)), 0, s.client.copied)
  }

  function ServiceWrite(s: State, slot: Slot, pc: ServicePc): State
    requires Runnable(s)
  {
    State(s.mem.PutSlot(s.service.Next(), slot), s.client, s.service.(pc := pc), s.log)
  }

  // The worker answers with a response, or with a negative status and none.
  function Decide(t: ServiceThread, c: Choice): ServiceThread {
    if c.status < 0 then t.(status := c.status, answer := [], pc := RecheckSequence)
    else if |c.response| <= RESPONSE_BYTES then t.(status := 0, answer := c.response, pc := RecheckSequence)
    else t.(status := EOVERFLOW, answer := [], pc := RecheckSequence)
  }

  function ServiceStep(s: State, c: Choice): State
    requires Runnable(s)
  {
    var t := s.service;
    var next := t.Next();
    match t.pc
    case AwaitRequest(w) =>
      if w.Done? then
        AtService(s, if w.result == 0 then MatchSequence
                     else if w.result == ETIMEDOUT then AwaitRequest(FirstPeer) else Halted)
      else
        var (w', word) := WaitStep(w, s.mem.requestSequence, next, s.mem.PeerStatus(), s.mem.requestWait, c.event);
        State(s.mem.(requestWait := word), s.client, t.(pc := AwaitRequest(w')), s.log)
    case MatchSequence => AtService(s, if s.mem.SlotAt(next).sequence != next then Halted else MatchState)
    case MatchState => AtService(s, if s.mem.SlotAt(next).state != REQUESTED then Halted else TakeRequest)
    case TakeRequest =>
      var request := s.mem.SlotAt(next).request;
      if |request| == 0 || |request| > REQUEST_BYTES then AtService(s, Halted)
      else s.(service := t.(taken := request, pc := Serve))
    case Serve =>
      State(s.mem, s.client, Decide(t, c),
            s.log.(decided := s.log.decided[next := Decision(if c.status < 0 then c.status else 0, c.response)]))
    case RecheckSequence => AtService(s, if s.mem.SlotAt(next).sequence != next then Halted else RecheckState)
    case RecheckState => AtService(s, if s.mem.SlotAt(next).state != REQUESTED then Halted else WriteStatus)
    case WriteStatus => ServiceWrite(s, s.mem.SlotAt(next).(status := t.status), WriteResponse)
    case WriteResponse => ServiceWrite(s, s.mem.SlotAt(next).(response := t.answer), StoreCompleted)
    case StoreCompleted =>
      ServiceWrite(s, s.mem.SlotAt(next).(state := COMPLETED), PublishCompletion)
        .(log := s.log.(answers := s.log.answers[next := Answer(t.taken, t.status, t.answer)]))
    case PublishCompletion =>
      State(s.mem.(completionSequence := next), s.client, t.(pc := LoadCompletionWait), s.log)
    case LoadCompletionWait =>
      if s.mem.completionWait == SLEEPING then AtService(s, WakeClient)
      else s.(service := t.(after := next, pc := AwaitRequest(FirstPeer)))
    case WakeClient =>
      State(s.mem,
            if s.client.pc.AwaitCompletion? then s.client.(pc := AwaitCompletion(Awaken(s.client.pc.wait))) else s.client,
            t.(after := next, pc := AwaitRequest(FirstPeer)), s.log)
    case Halted => s
  }

  function Step(s: State, a: Action): State
    requires Runnable(s)
  {
    match a
    case Client(c) => ClientStep(s, c)
    case Service(c) => ServiceStep(s, c)
    case FailClient(status) =>
      if status >= 0 then s
      else State(s.mem.(clientStatus := status), s.client, s.service, s.log.(failures := s.log.failures + {status}))
    case FailService(status) =>
      if status >= 0 then s
      else State(s.mem.(serviceStatus := status), s.client, s.service, s.log.(failures := s.log.failures + {status}))
  }

  // ---------------------------------------------------------------- invariant

  predicate Filling(pc: ClientPc) {
    pc.ClearSlot? || pc.FillRequest? || pc.StampSequence? || pc.StoreRequested?
  }

  // The slot belongs to the call from the moment it is requested until the client has read the outcome.
  predicate Waiting(pc: ClientPc) {
    pc.PublishRequest? || pc.LoadRequestWait? || pc.WakeService? || pc.StartDeadline? || pc.AwaitCompletion?
  }

  predicate Reading(pc: ClientPc) {
    pc.ReadSequence? || pc.ReadState? || pc.ReadStatus? || pc.CopyResponse? || pc.EraseSlot?
  }

  predicate Leaving(pc: ClientPc) {
    pc.EraseSlot? || pc.StoreAvailable? || pc.StoreNextSlot?
  }

  predicate HasTaken(pc: ServicePc) {
    pc.Serve? || pc.RecheckSequence? || pc.RecheckState? || pc.WriteStatus? || pc.WriteResponse? || pc.StoreCompleted?
  }

  // The service owns the slot it is serving.
  predicate Serving(pc: ServicePc) {
    pc.MatchState? || pc.TakeRequest? || HasTaken(pc)
  }

  predicate Finishing(pc: ServicePc) {
    pc.LoadCompletionWait? || pc.WakeClient?
  }

  predicate PublishingRequest(pc: ClientPc) {
    pc.LoadRequestWait? || pc.WakeService?
  }

  predicate SlotOk(slot: Slot, i: nat, n: nat, client: ClientThread, log: Log)
    requires 0 < n
  {
    match slot.state
    case AVAILABLE =>
      slot.sequence == 0 || (client.pc.StoreRequested? && slot.sequence == client.call && i == Index(slot.sequence, n))
    case REQUESTED =>
      && 0 < slot.sequence <= client.call && i == Index(slot.sequence, n)
      && slot.sequence in log.sent && slot.sequence !in log.answers
      && slot.request == log.sent[slot.sequence]
    case COMPLETED =>
      && 0 < slot.sequence <= client.call && i == Index(slot.sequence, n)
      && slot.sequence in log.sent && slot.sequence in log.answers
      && log.answers[slot.sequence] == Answer(log.sent[slot.sequence], slot.status, slot.response)
  }

  predicate SlotsOk(slots: seq<Slot>, client: ClientThread, log: Log) {
    && 0 < |slots|
    && forall i {:trigger slots[i]} :: 0 <= i < |slots| ==> SlotOk(slots[i], i, |slots|, client, log)
  }

  predicate LogOk(log: Log, call: nat, answered: nat) {
    && (forall q :: q in log.sent ==> 0 < q <= call && 0 < |log.sent[q]| <= REQUEST_BYTES)
    && (forall q :: q in log.answers ==> q in log.sent && 0 < q <= answered)
    && (forall q :: 0 < q <= answered ==> q in log.answers)
    && (forall q :: q in log.returned ==> q <= call)
    && (forall q :: q in log.returned && log.returned[q].status == 0 ==>
          q in log.answers && log.answers[q] == Answer(log.sent[q], 0, log.returned[q].response))
  }

  // The last call the service has completed.
  function Answered(t: ServiceThread): nat {
    if t.pc.PublishCompletion? || Finishing(t.pc) then t.Next() else t.after
  }

  predicate ClientOk(c: ClientThread, mem: Memory, log: Log)
    requires 0 < |mem.slots|
  {
    c.pc != Resting ==>
      && 0 < c.call && 0 < |c.request| <= REQUEST_BYTES && c.call !in log.returned
      && ((c.pc.CheckPeer? || c.pc.CheckSlot? || Filling(c.pc)) ==>
            mem.requestSequence < c.call && c.call !in log.sent)
      && (Filling(c.pc) ==>
            && mem.SlotAt(c.call).state == AVAILABLE
            && (c.pc.StampSequence? || c.pc.StoreRequested? ==> mem.SlotAt(c.call).request == c.request)
            && (c.pc.StoreRequested? ==> mem.SlotAt(c.call).sequence == c.call))
      && (Waiting(c.pc) ==> mem.SlotAt(c.call).state != AVAILABLE && mem.SlotAt(c.call).sequence == c.call)
      && (Reading(c.pc) ==> mem.SlotAt(c.call).state == COMPLETED && mem.SlotAt(c.call).sequence == c.call)
      && (c.pc.CopyResponse? ==> mem.SlotAt(c.call).status == 0)
      && (Leaving(c.pc) ==>
            c.call in log.sent && c.call in log.answers && log.answers[c.call] == Answer(log.sent[c.call], 0, c.copied))
      && (c.pc.StoreAvailable? ==> mem.SlotAt(c.call) == ZERO_SLOT)
  }

  predicate ServiceOk(t: ServiceThread, mem: Memory)
    requires 0 < |mem.slots|
  {
    && (t.pc.MatchSequence? ==> t.Next() <= mem.requestSequence)
    && (Serving(t.pc) ==> mem.SlotAt(t.Next()).state == REQUESTED && mem.SlotAt(t.Next()).sequence == t.Next())
    && (HasTaken(t.pc) ==> t.taken == mem.SlotAt(t.Next()).request)
    && (t.pc.WriteResponse? || t.pc.StoreCompleted? ==> mem.SlotAt(t.Next()).status == t.status)
    && (t.pc.StoreCompleted? ==> mem.SlotAt(t.Next()).response == t.answer)
    && mem.completionSequence == (if Finishing(t.pc) then t.Next() else t.after)
  }

  predicate Asleep(w: WaitPc) {
    w.SleepPeer? || w.SleepLoad? || w.Futex? || w.Parked?
  }

  // A waiter in its sleeping phase has announced it; a parked waiter whose word
  // has moved on is about to be woken; a wait succeeds only on its word.
  predicate WaiterOk(w: WaitPc, word: nat, expected: nat, state: WaitState, publishing: bool) {
    && (Asleep(w) ==> state == SLEEPING)
    && (w.Futex? || w.Parked? ==> w.observed <= word && w.observed < expected)
    && (w.Parked? && word != w.observed ==> publishing)
    && (w == StoreIdle(0) || w == Done(0) ==> expected <= word)
  }

  predicate WaitsOk(s: State) {
    && (s.service.pc.AwaitRequest? ==>
          WaiterOk(s.service.pc.wait, s.mem.requestSequence, s.service.Next(), s.mem.requestWait,
                   PublishingRequest(s.client.pc)))
    && (s.client.pc.AwaitCompletion? ==>
          WaiterOk(s.client.pc.wait, s.mem.completionSequence, s.client.call, s.mem.completionWait,
                   Finishing(s.service.pc)))
  }

  predicate Inv(s: State) {
    && SlotsOk(s.mem.slots, s.client, s.log)
    && s.mem.requestSequence <= s.client.call
    && LogOk(s.log, s.client.call, Answered(s.service))
    && ClientOk(s.client, s.mem, s.log)
    && ServiceOk(s.service, s.mem)
    && WaitsOk(s)
  }

  // A call that was requested and not yet answered still sits in its slot.
  predicate Pending(mem: Memory, log: Log) {
    forall q :: q in log.sent && q !in log.answers && 0 < q && 0 < |mem.slots| ==>
      mem.SlotAt(q).state == REQUESTED && mem.SlotAt(q).sequence == q
  }

  lemma InitInv(n: nat)
    requires 0 < n
    ensures Inv(Init(n)) && Pending(Init(n).mem, Init(n).log)
  {
  }

  // One step of a wait keeps the waiter's part of the invariant.
  lemma WaitStepOk(w: WaitPc, word: nat, expected: nat, peer: int, state: WaitState, event: Event, publishing: bool)
    requires WaiterOk(w, word, expected, state, publishing) && peer <= 0
    ensures var (w', state') := WaitStep(w, word, expected, peer, state, event);
      WaiterOk(w', word, expected, state', publishing)
  {
  }

  lemma ClientWaited(s: State, c: Choice)
    requires Inv(s) && s.client.pc.AwaitCompletion? && s.client.pc.wait.Done?
    ensures Inv(ClientStep(s, c))
  {
  }

  lemma ServiceWaited(s: State, c: Choice)
    requires Inv(s) && s.service.pc.AwaitRequest? && s.service.pc.wait.Done?
    ensures Inv(ServiceStep(s, c))
  {
  }

  lemma ClientAwaits(s: State, c: Choice)
    requires Inv(s) && s.client.pc.AwaitCompletion? && !s.client.pc.wait.Done?
    ensures Inv(ClientStep(s, c))
  {
    WaitStepOk(s.client.pc.wait, s.mem.completionSequence, s.client.call, s.mem.PeerStatus(), s.mem.completionWait,
               c.event, Finishing(s.service.pc));
  }

  lemma ServiceAwaits(s: State, c: Choice)
    requires Inv(s) && s.service.pc.AwaitRequest? && !s.service.pc.wait.Done?
    ensures Inv(ServiceStep(s, c))
  {
    WaitStepOk(s.service.pc.wait, s.mem.requestSequence, s.service.Next(), s.mem.PeerStatus(), s.mem.requestWait,
               c.event, PublishingRequest(s.client.pc));
  }

  lemma ClientStarts(s: State, c: Choice)
    requires Inv(s) && s.client.pc.Resting?
    ensures Inv(ClientStep(s, c))
  {
  }

  // Giving up a call keeps the invariant, unless its slot is half written or a wake-up is owed.
  lemma ReturnKeepsInv(s: State, status: int)
    requires Inv(s) && s.client.pc != Resting && status != 0 && !Filling(s.client.pc) && !PublishingRequest(s.client.pc)
    ensures Inv(Return(s, status, []))
  {
  }

  lemma ClientChecks(s: State, c: Choice)
    requires Inv(s) && (s.client.pc.CheckPeer? || s.client.pc.CheckSlot?)
    ensures Inv(ClientStep(s, c))
  {
    ReturnKeepsInv(s, if s.client.pc.CheckPeer? && s.mem.PeerStatus() != 0 then s.mem.PeerStatus() else EBUSY);
  }

  lemma ClientClears(s: State, c: Choice)
    requires Inv(s) && s.client.pc.ClearSlot?
    ensures Inv(ClientStep(s, c))
  {
  }

  lemma ClientFills(s: State, c: Choice)
    requires Inv(s) && (s.client.pc.FillRequest? || s.client.pc.StampSequence?)
    ensures Inv(ClientStep(s, c))
  {
  }

  lemma ClientRequests(s: State, c: Choice)
    requires Inv(s) && s.client.pc.StoreRequested?
    ensures Inv(ClientStep(s, c))
  {
  }

  lemma ClientPublishes(s: State, c: Choice)
    requires Inv(s) && (s.client.pc.PublishRequest? || s.client.pc.LoadRequestWait?)
    ensures Inv(ClientStep(s, c))
  {
  }

  lemma ClientWakes(s: State, c: Choice)
    requires Inv(s) && s.client.pc.WakeService?
    ensures Inv(ClientStep(s, c))
  {
  }

  lemma ClientSetsDeadline(s: State, c: Choice)
    requires Inv(s) && s.client.pc.StartDeadline?
    ensures Inv(ClientStep(s, c))
  {
  }

  lemma ClientReads(s: State, c: Choice)
    requires Inv(s) && (s.client.pc.ReadSequence? || s.client.pc.ReadState?)
    ensures Inv(ClientStep(s, c))
  {
    ReturnKeepsInv(s, EPROTO);
  }

  lemma ClientCopies(s: State, c: Choice)
    requires Inv(s) && (s.client.pc.ReadStatus? || s.client.pc.CopyResponse?)
    ensures Inv(ClientStep(s, c))
  {
  }

  lemma ClientErases(s: State, c: Choice)
    requires Inv(s) && s.client.pc.EraseSlot?
    ensures Inv(ClientStep(s, c))
  {
  }

  lemma ClientLeaves(s: State, c: Choice)
    requires Inv(s) && (s.client.pc.StoreAvailable? || s.client.pc.StoreNextSlot?)
    ensures Inv(ClientStep(s, c))
  {
  }

  lemma ServiceMatches(s: State, c: Choice)
    requires Inv(s) && (s.service.pc.MatchSequence? || s.service.pc.MatchState?)
    ensures Inv(ServiceStep(s, c))
  {
  }

  lemma ServiceTakes(s: State, c: Choice)
    requires Inv(s) && (s.service.pc.TakeRequest? || s.service.pc.Serve? || s.service.pc.RecheckSequence? || s.service.pc.RecheckState?)
    ensures Inv(ServiceStep(s, c))
  {
  }

  lemma ServiceWrites(s: State, c: Choice)
    requires Inv(s) && (s.service.pc.WriteStatus? || s.service.pc.WriteResponse?)
    ensures Inv(ServiceStep(s, c))
  {
  }

  lemma ServiceCompletes(s: State, c: Choice)
    requires Inv(s) && s.service.pc.StoreCompleted?
    ensures Inv(ServiceStep(s, c))
  {
  }

  lemma ServicePublishes(s: State, c: Choice)
    requires Inv(s) && (s.service.pc.PublishCompletion? || s.service.pc.LoadCompletionWait?)
    ensures Inv(ServiceStep(s, c))
  {
  }

  lemma ServiceWakes(s: State, c: Choice)
    requires Inv(s) && (s.service.pc.WakeClient? || s.service.pc.Halted?)
    ensures Inv(ServiceStep(s, c))
  {
  }

  lemma ClientKeepsInv(s: State, c: Choice)
    requires Inv(s)
    ensures Inv(ClientStep(s, c))
  {
    match s.client.pc
    case Resting => ClientStarts(s, c);
    case CheckPeer => ClientChecks(s, c);
    case CheckSlot => ClientChecks(s, c);
    case ClearSlot => ClientClears(s, c);
    case FillRequest => ClientFills(s, c);
    case StampSequence => ClientFills(s, c);
    case StoreRequested => ClientRequests(s, c);
    case PublishRequest => ClientPublishes(s, c);
    case LoadRequestWait => ClientPublishes(s, c);
    case WakeService => ClientWakes(s, c);
    case StartDeadline => ClientSetsDeadline(s, c);
    case AwaitCompletion(w) => if w.Done? { ClientWaited(s, c); } else { ClientAwaits(s, c); }
    case ReadSequence => ClientReads(s, c);
    case ReadState => ClientReads(s, c);
    case ReadStatus => ClientCopies(s, c);
    case CopyResponse => ClientCopies(s, c);
    case EraseSlot => ClientErases(s, c);
    case StoreAvailable => ClientLeaves(s, c);
    case StoreNextSlot => ClientLeaves(s, c);
  }

  lemma ServiceKeepsInv(s: State, c: Choice)
    requires Inv(s)
    ensures Inv(ServiceStep(s, c))
  {
    match s.service.pc
    case AwaitRequest(w) => if w.Done? { ServiceWaited(s, c); } else { ServiceAwaits(s, c); }
    case MatchSequence => ServiceMatches(s, c);
    case MatchState => ServiceMatches(s, c);
    case TakeRequest => ServiceTakes(s, c);
    case Serve => ServiceTakes(s, c);
    case RecheckSequence => ServiceTakes(s, c);
    case RecheckState => ServiceTakes(s, c);
    case WriteStatus => ServiceWrites(s, c);
    case WriteResponse => ServiceWrites(s, c);
    case StoreCompleted => ServiceCompletes(s, c);
    case PublishCompletion => ServicePublishes(s, c);
    case LoadCompletionWait => ServicePublishes(s, c);
    case WakeClient => ServiceWakes(s, c);
    case Halted =>
  }

  lemma StepKeepsInv(s: State, a: Action)
    requires Inv(s)
    ensures Inv(Step(s, a))
  {
    match a
    case Client(c) => ClientKeepsInv(s, c);
    case Service(c) => ServiceKeepsInv(s, c);
    case FailClient(_) =>
    case FailService(_) =>
  }

  // Steps that write to a slot or to the log of sent requests.
  predicate TouchesSlot(pc: ClientPc) {
    || pc.ClearSlot? || pc.FillRequest? || pc.StampSequence? || pc.StoreRequested? || pc.PublishRequest?
    || pc.EraseSlot? || pc.StoreAvailable?
  }

  lemma ClientKeepsPending(s: State, c: Choice)
    requires Inv(s) && Pending(s.mem, s.log)
    ensures Pending(ClientStep(s, c).mem, ClientStep(s, c).log)
  {
    if s.client.pc.EraseSlot? || s.client.pc.StoreAvailable? {
      FreeingKeepsPending(s, c);
    } else if TouchesSlot(s.client.pc) {
      FillingKeepsPending(s, c);
    } else {
      QuietStep(s, c);
    }
  }

  lemma FreeingKeepsPending(s: State, c: Choice)
    requires Inv(s) && Pending(s.mem, s.log) && (s.client.pc.EraseSlot? || s.client.pc.StoreAvailable?)
    ensures Pending(ClientStep(s, c).mem, ClientStep(s, c).log)
  {
  }

  lemma FillingKeepsPending(s: State, c: Choice)
    requires Inv(s) && Pending(s.mem, s.log)
    requires TouchesSlot(s.client.pc) && !s.client.pc.EraseSlot? && !s.client.pc.StoreAvailable?
    ensures Pending(ClientStep(s, c).mem, ClientStep(s, c).log)
  {
  }

  lemma QuietStep(s: State, c: Choice)
    requires Inv(s) && !TouchesSlot(s.client.pc)
    ensures var r := ClientStep(s, c);
      r.mem.slots == s.mem.slots && r.log.sent == s.log.sent && r.log.answers == s.log.answers
  {
    if s.client.pc.AwaitCompletion? || Reading(s.client.pc) { QuietLateStep(s, c); }
  }

  lemma QuietLateStep(s: State, c: Choice)
    requires Inv(s) && !TouchesSlot(s.client.pc) && (s.client.pc.AwaitCompletion? || Reading(s.client.pc))
    ensures var r := ClientStep(s, c);
      r.mem.slots == s.mem.slots && r.log.sent == s.log.sent && r.log.answers == s.log.answers
  {
  }

  lemma ServiceKeepsPending(s: State, c: Choice)
    requires Inv(s) && Pending(s.mem, s.log)
    ensures Pending(ServiceStep(s, c).mem, ServiceStep(s, c).log)
  {
  }

  lemma StepKeepsPending(s: State, a: Action)
    requires Inv(s) && Pending(s.mem, s.log)
    ensures Pending(Step(s, a).mem, Step(s, a).log)
  {
    match a
    case Client(c) => ClientKeepsPending(s, c);
    case Service(c) => ServiceKeepsPending(s, c);
    case FailClient(_) =>
    case FailService(_) =>
  }

  // ---------------------------------------------------------------- results over every run

  // The state after a run of interleaved steps.
  function Run(slotCount: nat, actions: seq<Action>): (s: State)
    requires 0 < slotCount
    ensures Inv(s) && Pending(s.mem, s.log)
  {
    if actions == [] then
      InitInv(slotCount);
      Init(slotCount)
    else
      var last := |actions| - 1;
      StepKeepsInv(Run(slotCount, actions[..last]), actions[last]);
      StepKeepsPending(Run(slotCount, actions[..last]), actions[last]);
      Step(Run(slotCount, actions[..last]), actions[last])
  }

  // A call that returns success delivers exactly what the service answered to
  // that call, and the service answered exactly that call's request.
  lemma CallDeliversItsAnswer(slotCount: nat, actions: seq<Action>, q: nat)
    requires 0 < slotCount
    requires var log := Run(slotCount, actions).log; q in log.returned && log.returned[q].status == 0
    ensures var log := Run(slotCount, actions).log;
      && q in log.sent && q in log.answers
      && log.answers[q] == Answer(log.sent[q], 0, log.returned[q].response)
  {
  }

  // Nothing recorded in l is missing or different in m.
  ghost predicate Extends(l: Log, m: Log) {
    && (forall q :: q in l.sent ==> q in m.sent && m.sent[q] == l.sent[q])
    && (forall q :: q in l.answers ==> q in m.answers && m.answers[q] == l.answers[q])
    && (forall q :: q in l.returned ==> q in m.returned && m.returned[q] == l.returned[q])
  }

  // The running call is not on record as sent before it is requested, nor as returned before it returns.
  predicate CallIsOpen(c: ClientThread, log: Log) {
    && (c.pc == Resting ==> c.call + 1 !in log.returned)
    && (c.pc != Resting ==> c.call !in log.returned)
    && (c.pc.StoreRequested? ==> c.call !in log.sent)
  }

  lemma ClientOnlyAdds(s: State, c: Choice)
    requires Inv(s)
    ensures Extends(s.log, ClientStep(s, c).log)
  {
    assert CallIsOpen(s.client, s.log);
    OpenCallOnlyAdds(s, c);
  }

  lemma OpenCallOnlyAdds(s: State, c: Choice)
    requires Runnable(s) && CallIsOpen(s.client, s.log)
    ensures Extends(s.log, ClientStep(s, c).log)
  {
  }

  lemma ServiceOnlyAdds(s: State, c: Choice)
    requires Inv(s)
    ensures Extends(s.log, ServiceStep(s, c).log)
  {
  }

  // What was sent, answered or returned for a call never changes afterwards.
  lemma LogOnlyGrows(s: State, a: Action)
    requires Inv(s)
    ensures Extends(s.log, Step(s, a).log)
  {
    match a
    case Client(c) => ClientOnlyAdds(s, c);
    case Service(c) => ServiceOnlyAdds(s, c);
    case FailClient(_) =>
    case FailService(_) =>
  }

  // How a client step may change the state of a slot.
  ghost predicate ClientMoves(s: State, slot: Slot, slot': Slot) {
    slot'.state != slot.state ==>
      match slot.state
      case AVAILABLE =>
        s.client.pc.StoreRequested? && slot'.state == REQUESTED && slot'.sequence == s.client.call && slot'.request == s.client.request
      case REQUESTED => false
      case COMPLETED =>
        && s.client.pc.EraseSlot? && slot'.state == AVAILABLE
        && slot.sequence == s.client.call && slot.status == 0 && slot.response == s.client.copied
  }

  // How a service step may.
  ghost predicate ServiceMoves(s: State, slot: Slot, slot': Slot) {
    slot'.state != slot.state ==>
      && slot.state == REQUESTED && s.service.pc.StoreCompleted? && slot'.state == COMPLETED
      && slot'.sequence == slot.sequence == s.service.Next() && slot'.request == slot.request == s.service.taken
  }

  // A slot is requested only by the call that owns it, completed only with the
  // answer to the request it holds, and freed only by that call's successful reader.
  lemma SlotLifecycle(s: State, a: Action, i: nat)
    requires Inv(s) && i < |s.mem.slots|
    ensures var slot, slot' := s.mem.slots[i], Step(s, a).mem.slots[i];
      match a
      case Client(_) => ClientMoves(s, slot, slot')
      case Service(_) => ServiceMoves(s, slot, slot')
      case FailClient(_) => slot' == slot
      case FailService(_) => slot' == slot
  {
    match a
    case Client(c) => ClientSlot(s, c, i);
    case Service(c) => ServiceSlot(s, c, i);
    case FailClient(_) =>
    case FailService(_) =>
  }

  lemma ClientSlot(s: State, c: Choice, i: nat)
    requires Inv(s) && i < |s.mem.slots|
    ensures ClientMoves(s, s.mem.slots[i], ClientStep(s, c).mem.slots[i])
  {
  }

  lemma ServiceSlot(s: State, c: Choice, i: nat)
    requires Inv(s) && i < |s.mem.slots|
    ensures ServiceMoves(s, s.mem.slots[i], ServiceStep(s, c).mem.slots[i])
  {
  }

  // No waiter stays parked once its sequence is published, unless its waker is still on the way.
  lemma NoLostWakeup(slotCount: nat, actions: seq<Action>)
    requires 0 < slotCount
    ensures var s := Run(slotCount, actions);
      && (s.service.pc.AwaitRequest? && s.service.pc.wait.Parked? && s.mem.requestSequence >= s.service.Next() ==>
            PublishingRequest(s.client.pc) && s.mem.requestWait == SLEEPING)
      && (s.client.pc.AwaitCompletion? && s.client.pc.wait.Parked? && s.mem.completionSequence >= s.client.call ==>
            Finishing(s.service.pc) && s.mem.completionWait == SLEEPING)
  {
  }

  // The service's checks before and after serving never fail: it stops only when
  // its wait fails, or when the call it expects was never requested.
  lemma ServiceStopsOnlyFor(s: State, a: Action)
    requires Inv(s) && Pending(s.mem, s.log) && s.service.pc != Halted && Step(s, a).service.pc == Halted
    ensures
      || (s.service.pc.AwaitRequest? && s.service.pc.wait.Done? && s.service.pc.wait.result != 0 && s.service.pc.wait.result != ETIMEDOUT)
      || (s.service.pc.MatchSequence? && s.service.Next() !in s.log.sent)
  {
  }

  // A protocol error reaches the caller only when the answer is larger than its buffer.
  lemma ProtocolErrorMeansSmallBuffer(s: State, c: Choice)
    requires Inv(s) && (s.client.pc.ReadSequence? || s.client.pc.ReadState?)
    ensures ClientStep(s, c).client.pc == Resting <==>
      s.client.pc.ReadState? && |s.log.answers[s.client.call].response| > s.client.capacity
  {
  }
}
