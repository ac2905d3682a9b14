/**
 * The request paths that consume the descriptor journal.  Each runs under
 * the context mutex, so a run is some order of whole requests.
 */
module JournalService {
  import opened Wrappers
  import opened Errno
  import opened Wire
  import opened DescriptorWire
  import opened DescriptorJournal

  const FLUSH_SIZE: nat := 24

  // ---------------------------------------------------------------- requests

  datatype Flush = Flush(generation: u64, sequence: u64, length: u32, count: u32)

  predicate FlushIsValid(f: Flush) {
    && f.generation != 0 && f.sequence != 0
    && 0 < f.length <= JOURNAL_REGION_BYTES && 0 < f.count <= JOURNAL_MAX_RECORDS
  }

  function DecodeFlush(b: seq<byte>): Result<Flush> {
    if |b| != FLUSH_SIZE then Fail(EPROTO)
    else
      var f := Flush(GetU64(b, 0), GetU64(b, 8), GetU32(b, 16), GetU32(b, 20));
      if FlushIsValid(f) then Ok(f) else Fail(EPROTO)
  }

  // What one request meets: whether there is room for a copy of the journal, what the region holds
  // while it is copied, the driver's answers to the updates in order, and how the native allocation
  // and the encoding of its response end.
  datatype World = World(room: bool, memory: nat -> byte, natives: nat -> int, allocation: int)

  // A flush is 24 bytes: generation, sequence, length and record count, none of them zero and the
  // last two within 16 MiB and 64 Ki; anything else is malformed.
  lemma FlushFieldsLie(b: seq<byte>)
    ensures DecodeFlush(b).Ok? <==>
      && |b| == 24 && GetU64(b, 0) != 0 && GetU64(b, 8) != 0
      && 1 <= GetU32(b, 16) <= 16777216 && 1 <= GetU32(b, 20) <= 65536
    ensures DecodeFlush(b).Ok? ==> DecodeFlush(b).value == Flush(GetU64(b, 0), GetU64(b, 8), GetU32(b, 16), GetU32(b, 20))
    ensures DecodeFlush(b).Fail? ==> DecodeFlush(b).status == EPROTO
  {
  }

  // One request, on the flush path, the transaction path, or the ring worker; the worker's mutex
  // calls may fail.
  datatype Attempt =
    | FlushRpc(request: seq<byte>, world: World)
    | TransactionRpc(request: seq<byte>, world: World)
    | Ring(request: seq<byte>, world: World, lockFails: bool, unlockFails: bool)

  // The journal sequence a request names, or zero when it cannot be decoded.
  function SequenceOf(a: Attempt): u64 {
    match a
    case FlushRpc(request, _) => if DecodeFlush(request).Ok? then DecodeFlush(request).value.sequence else 0
    case TransactionRpc(request, _) => TransactionSequence(request)
    case Ring(request, _, _, _) => TransactionSequence(request)
  }

  function TransactionSequence(request: seq<byte>): u64 {
    if DecodeTransaction(request, true).Ok? then DecodeTransaction(request, true).value.sequence else 0
  }

  predicate UnlockFails(a: Attempt) {
    a.Ring? && !a.lockFails && a.unlockFails
  }

  // ---------------------------------------------------------------- how each request ends

  // The service at one moment: its journal and the last sequence accepted from it.
  datatype Journal = Journal(generation: u64, length: nat, last: u64)

  function SequenceStatus(j: Journal, generation: u64, sequence: u64, length: u32): int {
    if generation != j.generation || j.last == U64_MAX || sequence != j.last + 1 then ESTALE
    else if length > j.length then ERANGE
    else 0
  }

  function JournalCopy(length: u32, world: World): seq<byte> {
    Contents(world.memory, 0, length)
  }

  function JournalStatus(length: u32, count: u32, world: World): int {
    if length == 0 then 0
    else if !world.room then ENOMEM
    else
      var checked := StatusWith(JournalCopy(length, world), count, UpdateDecoder());
      if checked != 0 then checked else FirstError(world.natives, count)
  }

  // The updates that reach the driver: none unless the copy is accepted, and then those up to its
  // first error.
  function JournalHanded(length: u32, count: u32, world: World): seq<seq<byte>> {
    if length == 0 || !world.room || !Accepts(JournalCopy(length, world), count) then []
    else PayloadsOf(Updates(JournalCopy(length, world), count))[..Reached(world.natives, count)]
  }

  // The whole journal was handed over, and the driver took all of it.
  predicate JournalTaken(length: u32, count: u32, world: World) {
    length != 0 ==>
      && world.room && Accepts(JournalCopy(length, world), count)
      && forall i :: 0 <= i < count ==> world.natives(i) == 0
  }

  lemma JournalSucceeds(length: u32, count: u32, world: World)
    ensures JournalStatus(length, count, world) == 0 <==> JournalTaken(length, count, world)
    ensures JournalStatus(length, count, world) == 0 && length != 0 ==>
      JournalHanded(length, count, world) == PayloadsOf(Updates(JournalCopy(length, world), count))
  {
    FirstErrorIsFirst(world.natives, count);
    UpdateErrors();
    FailuresAreErrors(JournalCopy(length, world), count, UpdateDecoder());
  }

  function FlushStatus(j: Journal, request: seq<byte>, world: World): int {
    match DecodeFlush(request)
    case Fail(_) => EPROTO
    case Ok(f) =>
      var stale := SequenceStatus(j, f.generation, f.sequence, f.length);
      if stale != 0 then stale else JournalStatus(f.length, f.count, world)
  }

  function FlushHanded(j: Journal, request: seq<byte>, world: World): seq<seq<byte>> {
    match DecodeFlush(request)
    case Fail(_) => []
    case Ok(f) =>
      if SequenceStatus(j, f.generation, f.sequence, f.length) != 0 then [] else JournalHanded(f.length, f.count, world)
  }

  function TransactionStatus(j: Journal, request: seq<byte>, world: World): int {
    match DecodeTransaction(request, true)
    case Fail(status) => status
    case Ok(t) =>
      var stale := SequenceStatus(j, t.generation, t.sequence, t.length);
      if stale != 0 then stale
      else
        var replayed := JournalStatus(t.length, t.count, world);
        if replayed != 0 then replayed else world.allocation
  }

  function TransactionHanded(j: Journal, request: seq<byte>, world: World): seq<seq<byte>> {
    match DecodeTransaction(request, true)
    case Fail(_) => []
    case Ok(t) =>
      if SequenceStatus(j, t.generation, t.sequence, t.length) != 0 then [] else JournalHanded(t.length, t.count, world)
  }

  // A flush succeeds exactly when its 24 bytes name the journal's generation, the next sequence and a
  // length within the region, and the announced number of valid updates is there and taken by the driver.
  lemma FlushSucceeds(j: Journal, request: seq<byte>, world: World)
    ensures FlushStatus(j, request, world) == 0 <==>
      && |request| == FLUSH_SIZE && j.last < U64_MAX
      && GetU64(request, 0) == j.generation != 0 && GetU64(request, 8) == j.last + 1
      && var length, count := GetU32(request, 16), GetU32(request, 20);
      && 0 < length <= JOURNAL_REGION_BYTES && length <= j.length && 0 < count <= JOURNAL_MAX_RECORDS
      && JournalTaken(length, count, world)
    ensures FlushStatus(j, request, world) == 0 ==>
      var length, count := GetU32(request, 16), GetU32(request, 20);
      && Accepts(JournalCopy(length, world), count)
      && FlushHanded(j, request, world) == PayloadsOf(Updates(JournalCopy(length, world), count))
  {
    if DecodeFlush(request).Ok? {
      var f := DecodeFlush(request).value;
      JournalSucceeds(f.length, f.count, world);
    }
  }

  // A transaction succeeds exactly when it decodes, comes next in its generation, its journal, if it
  // has one, is there and taken by the driver, and the sets are allocated.
  lemma TransactionSucceeds(j: Journal, request: seq<byte>, world: World)
    ensures TransactionStatus(j, request, world) == 0 <==>
      && DecodeTransaction(request, true).Ok? && j.last < U64_MAX
      && var t := DecodeTransaction(request, true).value;
      && t.generation == j.generation && t.sequence == j.last + 1 && t.length <= j.length
      && JournalTaken(t.length, t.count, world) && world.allocation == 0
    ensures TransactionStatus(j, request, world) == 0 ==>
      var t := DecodeTransaction(request, true).value;
      TransactionHanded(j, request, world) ==
        if t.length == 0 then [] else PayloadsOf(Updates(JournalCopy(t.length, world), t.count))
  {
    TransactionFailures(request);
    if DecodeTransaction(request, true).Ok? {
      var t := DecodeTransaction(request, true).value;
      JournalSucceeds(t.length, t.count, world);
    }
  }

  // The worker's lock is not taken, or the transaction's outcome, spoilt by the unlock if it was good.
  function AttemptStatus(j: Journal, a: Attempt): int {
    match a
    case FlushRpc(request, world) => FlushStatus(j, request, world)
    case TransactionRpc(request, world) => TransactionStatus(j, request, world)
    case Ring(request, world, lockFails, unlockFails) =>
      var core := TransactionStatus(j, request, world);
      if lockFails || (core == 0 && unlockFails) then EDEADLK else core
  }

  function HandedBy(j: Journal, a: Attempt): seq<seq<byte>> {
    match a
    case FlushRpc(request, world) => FlushHanded(j, request, world)
    case TransactionRpc(request, world) => TransactionHanded(j, request, world)
    case Ring(request, world, lockFails, _) => if lockFails then [] else TransactionHanded(j, request, world)
  }

  predicate UsesUp(j: Journal, a: Attempt) {
    match a
    case FlushRpc(request, world) => FlushStatus(j, request, world) == 0
    case TransactionRpc(request, world) => TransactionStatus(j, request, world) == 0
    case Ring(request, world, lockFails, _) => !lockFails && TransactionStatus(j, request, world) == 0
  }

  function Next(j: Journal, a: Attempt): Journal {
    if UsesUp(j, a) then j.(last := SequenceOf(a)) else j
  }

  function AfterAll(j: Journal, attempts: seq<Attempt>): Journal {
    if attempts == [] then j else Next(AfterAll(j, attempts[..|attempts| - 1]), attempts[|attempts| - 1])
  }

  function HandedByAll(j: Journal, attempts: seq<Attempt>): seq<seq<byte>> {
    if attempts == [] then []
    else
      var last := |attempts| - 1;
      HandedByAll(j, attempts[..last]) + HandedBy(AfterAll(j, attempts[..last]), attempts[last])
  }

  lemma OneMoreAttempt(j: Journal, attempts: seq<Attempt>, i: nat)
    requires i < |attempts|
    ensures AfterAll(j, attempts[..i + 1]) == Next(AfterAll(j, attempts[..i]), attempts[i])
    ensures HandedByAll(j, attempts[..i + 1]) == HandedByAll(j, attempts[..i]) + HandedBy(AfterAll(j, attempts[..i]), attempts[i])
  {
    assert attempts[..i + 1][..i] == attempts[..i];
  }

  // Every attempt so far was answered as specified.
  ghost predicate AnsweredAsSpecified(j: Journal, attempts: seq<Attempt>, statuses: seq<int>) {
    |statuses| <= |attempts| && forall i :: 0 <= i < |statuses| ==> statuses[i] == AttemptStatus(AfterAll(j, attempts[..i]), attempts[i])
  }

  lemma OneMoreAnswer(j: Journal, attempts: seq<Attempt>, statuses: seq<int>, status: int)
    requires AnsweredAsSpecified(j, attempts, statuses) && |statuses| < |attempts|
    requires status == AttemptStatus(AfterAll(j, attempts[..|statuses|]), attempts[|statuses|])
    ensures AnsweredAsSpecified(j, attempts, statuses + [status])
  {
  }

  // ---------------------------------------------------------------- the shared counter

  class Service {
    const generation: u64
    const regionLength: nat
    var lastSequence: u64
    var accepted: seq<u64>
    var driven: seq<seq<byte>>  // every update handed to the driver, in order

    ghost function Now(): Journal
      reads this
    {
      Journal(generation, regionLength, lastSequence)
    }

    ghost predicate Valid()
      reads this
    {
      |accepted| == lastSequence && forall i :: 0 <= i < |accepted| ==> accepted[i] == i + 1
    }

    constructor (generation: u64, regionLength: nat)
      ensures Valid() && accepted == [] && driven == [] && Now() == Journal(generation, regionLength, 0)
    {
      this.generation := generation;
      this.regionLength := regionLength;
      lastSequence := 0;
      accepted, driven := [], [];
    }

    twostate predicate Accepted(sequence: u64)
      reads this
    {
      lastSequence == old(lastSequence) + 1 == sequence && accepted == old(accepted) + [sequence]
    }

    twostate predicate Unchanged()
      reads this
    {
      lastSequence == old(lastSequence) && accepted == old(accepted)
    }

    method CheckSequence(requested: u64, sequence: u64, length: u32) returns (status: int)
      ensures status == 0 ==> lastSequence < U64_MAX && sequence == lastSequence + 1
      ensures status == SequenceStatus(Now(), requested, sequence, length)
    {
      if requested != generation {
        return ESTALE;
      }
      if lastSequence == U64_MAX || sequence != lastSequence + 1 {
        return ESTALE;
      }
      status := if length > regionLength then ERANGE else 0;
    }

    // Copies the journal out of shared memory, validates the copy, replays the copy.  A copy that is
    // not accepted is answered with the validator's error and nothing reaches the driver; of an
    // accepted one the updates reach it in order, all of them or up to its first error.
    method ReplayJournal(length: u32, count: u32, world: World) returns (status: int)
      requires Valid()
      modifies this`driven
      ensures Valid() && Now() == old(Now())
      ensures status == JournalStatus(length, count, world)
      ensures driven == old(driven) + JournalHanded(length, count, world)
    {
      status := 0;
      if length == 0 {
        return;
      }
      if !world.room {
        return ENOMEM;
      }
      var copy := CopyOut(world.memory, 0, length);
      UpdateErrors();
      status := Validate(copy, count, UpdateDecoder());
      if status == 0 {
        var replayed, natives;
        status, replayed, natives := Replay(copy, count, UpdateDecoder(), world.natives);
        driven := driven + replayed;
      }
    }

    method AnswerFlush(request: seq<byte>, world: World) returns (status: int)
      requires Valid()
      modifies this
      ensures Valid()
      ensures status == FlushStatus(old(Now()), request, world)
      ensures driven == old(driven) + FlushHanded(old(Now()), request, world)
      ensures if status == 0 then Accepted(SequenceOf(FlushRpc(request, world))) else Unchanged()
    {
      var decoded := DecodeFlush(request);
      if decoded.Fail? {
        return EPROTO;
      }
      var flush := decoded.value;
      status := CheckSequence(flush.generation, flush.sequence, flush.length);
      if status == 0 {
        status := ReplayJournal(flush.length, flush.count, world);
      }
      if status == 0 {
        lastSequence := flush.sequence;
        accepted := accepted + [flush.sequence];
      }
    }

    // The steps both transaction paths share, up to the response.
    method Transact(request: seq<byte>, world: World) returns (status: int)
      requires Valid()
      modifies this
      ensures Valid()
      ensures status == TransactionStatus(old(Now()), request, world)
      ensures driven == old(driven) + TransactionHanded(old(Now()), request, world)
      ensures if status == 0 then Accepted(TransactionSequence(request)) else Unchanged()
    {
      TransactionFailures(request);
      var decoded := DecodeTransaction(request, true);
      if decoded.Fail? {
        return decoded.status;
      }
      var transaction := decoded.value;
      status := CheckSequence(transaction.generation, transaction.sequence, transaction.length);
      if status == 0 {
        status := ReplayJournal(transaction.length, transaction.count, world);
        if status == 0 {
          status := world.allocation;  // the native allocation and the encoding of its response
        }
      }
      if status == 0 {
        lastSequence := transaction.sequence;
        accepted := accepted + [transaction.sequence];
      }
    }

    method AnswerTransaction(request: seq<byte>, world: World) returns (status: int)
      requires Valid()
      modifies this
      ensures Valid()
      ensures status == TransactionStatus(old(Now()), request, world)
      ensures driven == old(driven) + TransactionHanded(old(Now()), request, world)
      ensures if status == 0 then Accepted(TransactionSequence(request)) else Unchanged()
    {
      status := Transact(request, world);
    }

    // The ring worker takes the same steps between a lock and an unlock.  Its answer is a success
    // exactly when the sequence was used up and the unlock succeeded, so an error leaves the counter
    // alone except for an accepted transaction whose unlock failed.
    method ServeRing(request: seq<byte>, world: World, lockFails: bool, unlockFails: bool) returns (status: int)
      requires Valid()
      modifies this
      ensures Valid()
      ensures var core := TransactionStatus(old(Now()), request, world);
        && status == (if lockFails || (core == 0 && unlockFails) then EDEADLK else core)
        && if !lockFails && core == 0 then Accepted(TransactionSequence(request)) else Unchanged()
      ensures driven == old(driven) + if lockFails then [] else TransactionHanded(old(Now()), request, world)
    {
      if lockFails {
        return EDEADLK;
      }
      status := Transact(request, world);
      if unlockFails && status == 0 {
        status := EDEADLK;
      }
    }

    method Serve(a: Attempt) returns (status: int)
      requires Valid()
      modifies this
      ensures Valid()
      ensures status == 0 ==> Accepted(SequenceOf(a))
      ensures status != 0 && !UnlockFails(a) ==> Unchanged()
      ensures Accepted(SequenceOf(a)) || Unchanged()
      ensures status == AttemptStatus(old(Now()), a)
      ensures driven == old(driven) + HandedBy(old(Now()), a) && Now() == Next(old(Now()), a)
    {
      match a
      case FlushRpc(request, world) => status := AnswerFlush(request, world);
      case TransactionRpc(request, world) => status := AnswerTransaction(request, world);
      case Ring(request, world, lockFails, unlockFails) =>
        status := ServeRing(request, world, lockFails, unlockFails);
    }
  }

  lemma TransactionFailures(request: seq<byte>)
    ensures DecodeTransaction(request, true).Fail? ==> DecodeTransaction(request, true).status != 0
  {
  }

  // Which attempt consumed each sequence: in order, sequence k + 1 by attempt consumers[k], which named
  // it and was answered with success unless only its unlock failed; and no success is missing.
  ghost predicate Explains(attempts: seq<Attempt>, statuses: seq<int>, consumers: seq<nat>) {
    && |statuses| <= |attempts|
    && (forall k :: 0 <= k < |consumers| ==> Consumes(attempts, statuses, consumers[k], k + 1))
    && (forall j, k :: 0 <= j < k < |consumers| ==> consumers[j] < consumers[k])
    && (forall i :: 0 <= i < |statuses| && statuses[i] == 0 ==> i in consumers)
  }

  predicate Consumes(attempts: seq<Attempt>, statuses: seq<int>, i: nat, sequence: nat) {
    && i < |statuses| && i < |attempts|
    && SequenceOf(attempts[i]) == sequence
    && (statuses[i] == 0 || UnlockFails(attempts[i]))
  }

  lemma ExplainsMore(attempts: seq<Attempt>, statuses: seq<int>, consumers: seq<nat>, status: int, consumed: bool)
    requires Explains(attempts, statuses, consumers) && |statuses| < |attempts|
    requires status == 0 ==> consumed
    requires consumed ==>
      SequenceOf(attempts[|statuses|]) == |consumers| + 1 && (status == 0 || UnlockFails(attempts[|statuses|]))
    ensures Explains(attempts, statuses + [status], if consumed then consumers + [|statuses|] else consumers)
  {
    var more, next := statuses + [status], if consumed then consumers + [|statuses|] else consumers;
    forall k | 0 <= k < |next| ensures Consumes(attempts, more, next[k], k + 1) {
      if k < |consumers| { assert Consumes(attempts, statuses, consumers[k], k + 1); }
    }
    forall i | 0 <= i < |more| && more[i] == 0 ensures i in next {
      if i < |statuses| {
        assert statuses[i] == 0;
      } else {
        assert next[|consumers|] == i;
      }
    }
  }

  // In any order of requests over the three paths the accepted sequences are 1, 2, 3, ...: each
  // by one request that named it, none skipped, none twice.  A request answered with an error
  // consumed nothing unless it came through the ring and only its unlock failed.
  // Every answer is the one specified, and the driver was handed exactly the updates of the accepted
  // copies, in order, each up to the driver's first error.
  method Run(generation: u64, regionLength: nat, attempts: seq<Attempt>)
    returns (accepted: seq<u64>, statuses: seq<int>, consumers: seq<nat>, driven: seq<seq<byte>>)
    ensures |statuses| == |attempts| && |consumers| == |accepted|
    ensures forall k :: 0 <= k < |accepted| ==> accepted[k] == k + 1
    ensures Explains(attempts, statuses, consumers)
    ensures var start := Journal(generation, regionLength, 0);
      AnsweredAsSpecified(start, attempts, statuses) && driven == HandedByAll(start, attempts)
  {
    ghost var start := Journal(generation, regionLength, 0);
    var service := new Service(generation, regionLength);
    statuses, consumers := [], [];
    for i := 0 to |attempts|
      invariant fresh(service) && service.Valid()
      invariant |statuses| == i && |consumers| == |service.accepted|
      invariant Explains(attempts, statuses, consumers)
      invariant service.Now() == AfterAll(start, attempts[..i]) && service.driven == HandedByAll(start, attempts[..i])
      invariant AnsweredAsSpecified(start, attempts, statuses)
    {
      OneMoreAttempt(start, attempts, i);
      var before := service.lastSequence;
      var status := service.Serve(attempts[i]);
      OneMoreAnswer(start, attempts, statuses, status);
      ExplainsMore(attempts, statuses, consumers, status, service.lastSequence != before);
      if service.lastSequence != before {
        consumers := consumers + [i];
      }
      statuses := statuses + [status];
    }
    accepted, driven := service.accepted, service.driven;
    assert attempts[..|attempts|] == attempts;
  }
}
