/**
 * Command batches: a builder that frames records into a byte buffer, the
 * validator, and the iterator that walks an accepted batch.
 */
module CommandBatch {
  import opened Wrappers
  import opened Errno
  import opened Handles
  import opened Wire
  import opened Commands
  import opened BatchFraming
  import CommandCodec

  predicate BarrierLength(memory: u32, buffers: u32, images: u32, length: nat) {
    && memory <= MAX_MEMORY_BARRIERS && buffers <= MAX_BUFFER_BARRIERS && images <= MAX_IMAGE_BARRIERS
    && length == 16 + 32 * memory + 64 * buffers + 80 * images
  }

  predicate UpdateLength(data: u32, length: nat) {
    data != 0 && data <= MAX_UPDATE_BUFFER_BYTES && data % 4 == 0 && length == 24 + data
  }

  predicate TransferLength(regions: u32, length: nat) {
    regions != 0 && regions <= MAX_TRANSFER_REGIONS && length == 32 + 128 * regions
  }

  predicate FixedLength(opcode: u16, length: nat) {
    if opcode == FILL_BUFFER then length == 32
    else if opcode == CLEAR_COLOR_IMAGE_GENERAL then length == 128
    else if opcode == INIT_IMAGE_BARRIER then length == 40
    else if opcode == QUERY then length == 40
    else opcode == END && length == 0
  }

  // The payload length an opcode allows, read from the counts inside the payload.
  predicate LengthIsValid(opcode: u16, payload: seq<byte>) {
    if opcode == IMAGE_BARRIER_2 then
      |payload| >= 16 && BarrierLength(GetU32(payload, 4), GetU32(payload, 8), GetU32(payload, 12), |payload|)
    else if opcode == UPDATE_BUFFER then |payload| >= 24 && UpdateLength(GetU32(payload, 16), |payload|)
    else if IsTransfer(opcode) then |payload| >= 32 && TransferLength(GetU32(payload, 28), |payload|)
    else FixedLength(opcode, |payload|)
  }

  // Read in bytes or in words, the length rule is the same, and never lets a fraction of a word in.
  lemma LengthInWords(opcode: u16, payload: seq<byte>)
    ensures LengthIsValid(opcode, payload) <==> |payload| % 4 == 0 && LengthFits(opcode, ToWords(payload))
    ensures LengthIsValid(opcode, payload) ==> |payload| < 0x10_0000
  {
    var ws := ToWords(payload);
    if opcode == IMAGE_BARRIER_2 {
      if |payload| >= 16 {
        FieldIsWord(payload, 1);
        FieldIsWord(payload, 2);
        FieldIsWord(payload, 3);
        BarrierWordLength(ws, |payload|);
      }
    } else if opcode == UPDATE_BUFFER {
      if |payload| >= 24 {
        FieldIsWord(payload, 4);
        UpdateWordLength(ws, |payload|);
      }
    } else if IsTransfer(opcode) {
      if |payload| >= 32 {
        FieldIsWord(payload, 7);
        TransferWordLength(opcode, ws, |payload|);
      }
    } else {
      FixedWordLength(opcode, ws, |payload|);
    }
  }

  lemma BarrierWordLength(ws: Words, n: nat)
    requires |ws| == n / 4 && n >= 16
    ensures BarrierLength(ws[1], ws[2], ws[3], n) <==> n % 4 == 0 && LengthFits(IMAGE_BARRIER_2, ws)
    ensures BarrierLength(ws[1], ws[2], ws[3], n) ==> n < 0x10_0000
  {
  }

  lemma UpdateWordLength(ws: Words, n: nat)
    requires |ws| == n / 4 && n >= 24
    ensures UpdateLength(ws[4], n) <==> n % 4 == 0 && LengthFits(UPDATE_BUFFER, ws)
    ensures UpdateLength(ws[4], n) ==> n < 0x10_0000
  {
  }

  lemma TransferWordLength(opcode: u16, ws: Words, n: nat)
    requires |ws| == n / 4 && n >= 32 && IsTransfer(opcode)
    ensures TransferLength(ws[7], n) <==> n % 4 == 0 && LengthFits(opcode, ws)
    ensures TransferLength(ws[7], n) ==> n < 0x10_0000
  {
  }

  lemma FixedWordLength(opcode: u16, ws: Words, n: nat)
    requires |ws| == n / 4 && opcode != IMAGE_BARRIER_2 && opcode != UPDATE_BUFFER && !IsTransfer(opcode)
    ensures FixedLength(opcode, n) <==> n % 4 == 0 && LengthFits(opcode, ws)
  {
  }

  predicate RecordIsValid(r: Record) {
    |r.payload| % 4 == 0 && Valid(r.opcode, ToWords(r.payload))
  }

  // ---------------------------------------------------------------- building from commands

  // An append by command, or the copying append of a record that is validated first.
  datatype Request = Typed(command: Command) | Raw(record: Record)

  predicate RecordOk(r: Record) {
    LengthIsValid(r.opcode, r.payload) && RecordIsValid(r)
  }

  function Checked(): Check {
    (r: Record) => RecordOk(r)
  }

  method CheckRecord(r: Record) returns (ok: bool)
    ensures ok == Checked()(r)
  {
    ok := LengthIsValid(r.opcode, r.payload);
    if ok {
      LengthInWords(r.opcode, r.payload);
      var status := CommandCodec.ValidatePayload(r.opcode, ToWords(r.payload));
      ok := status == 0;
    }
  }

  lemma AppendedBytes(c: Command)
    requires Appendable(c)
    ensures var b, p := ToBytes(Payload(c)), Payload(c);
      && |b| < 0x10_0000 && ToWords(b) == p
      && LengthFits(Opcode(c), p) && CountsFit(Opcode(c), p) && Decode(Opcode(c), p) == c
      && (RecordOk(Record(Opcode(c), b)) <==> FilterIsClear(c))
  {
    WordsRoundTrip(Payload(c));
    AppendedPayload(c);
    LengthInWords(Opcode(c), ToBytes(Payload(c)));
  }

  function RequestRecord(q: Request): (r: Option<Record>)
    ensures r.Some? ==> |r.value.payload| <= MAX_BYTES
  {
    match q
    case Typed(c) =>
      if !Appendable(c) then None
      else
        AppendedBytes(c);
        Some(Record(Opcode(c), ToBytes(Payload(c))))
    case Raw(r) =>
      if !RecordOk(r) then None
      else
        LengthInWords(r.opcode, r.payload);
        Some(r)
  }

  predicate Encodable(qs: seq<Request>) {
    forall i :: 0 <= i < |qs| ==> RequestRecord(qs[i]).Some?
  }

  function Records(qs: seq<Request>): (rs: seq<Record>)
    requires Encodable(qs)
    ensures |rs| == |qs|
  {
    seq(|qs|, i requires 0 <= i < |qs| => RequestRecord(qs[i]).value)
  }

  function RequestStatus(capacity: nat, kept: seq<Request>, q: Request): int
    requires Encodable(kept)
  {
    if RequestRecord(q).None? then EINVAL else AppendStatus(capacity, Records(kept), RequestRecord(q).value)
  }

  // The requests that succeed when all are tried in order; a failed one leaves no trace.
  function Kept(capacity: nat, requests: seq<Request>): (kept: seq<Request>)
    ensures Encodable(kept)
  {
    if requests == [] then []
    else
      var q := requests[|requests| - 1];
      var before := Kept(capacity, requests[..|requests| - 1]);
      if RequestStatus(capacity, before, q) == 0 then before + [q] else before
  }

  lemma {:induction false} KeptFits(capacity: nat, requests: seq<Request>)
    requires HEADER_SIZE <= capacity
    ensures var rs := Records(Kept(capacity, requests)); HEADER_SIZE + |Body(rs)| <= capacity && |rs| <= MAX_COMMANDS
  {
    if requests != [] {
      var prefix, q := requests[..|requests| - 1], requests[|requests| - 1];
      var before := Kept(capacity, prefix);
      KeptFits(capacity, prefix);
      if RequestStatus(capacity, before, q) == 0 {
        var r := RequestRecord(q).value;
        BodySnoc(Records(before), r);
        assert Records(before + [q]) == Records(before) + [r];
      }
    }
  }

  // The answer to one request and the records after it.
  function AppendOutcome(capacity: nat, records: seq<Record>, r: Option<Record>): (int, seq<Record>) {
    if r.None? then (EINVAL, records)
    else
      var status := AppendStatus(capacity, records, r.value);
      (status, if status == 0 then records + [r.value] else records)
  }

  method AppendRequest(builder: Builder, q: Request) returns (status: int)
    requires builder.Valid() && !builder.finished
    modifies builder, builder.bytes
    ensures builder.Valid() && builder.bytes == old(builder.bytes) && !builder.finished
    ensures builder.id == old(builder.id) && builder.sequence == old(builder.sequence)
    ensures (status, builder.records) == AppendOutcome(builder.bytes.Length, old(builder.records), RequestRecord(q))
  {
    var record := EncodeRequest(q);
    if record.None? {
      return EINVAL;
    }
    status := builder.AppendRecord(record.value);
  }

  // The record a request asks for, once its command or its payload has been checked.
  method EncodeRequest(q: Request) returns (record: Option<Record>)
    ensures record == RequestRecord(q)
  {
    match q
    case Typed(c) =>
      var status, p := CommandCodec.Encode(c);
      if status != 0 {
        return None;
      }
      AppendedBytes(c);
      record := Some(Record(Opcode(c), ToBytes(p)));
    case Raw(r) =>
      var ok := CheckRecord(r);
      record := if ok then Some(r) else None;
  }

  // The answers to all requests, each given what the earlier ones left.
  ghost predicate AnswersFor(capacity: nat, requests: seq<Request>, statuses: seq<int>) {
    && |statuses| == |requests|
    && forall i :: 0 <= i < |requests| ==> statuses[i] == RequestStatus(capacity, Kept(capacity, requests[..i]), requests[i])
  }

  lemma AnswersSnoc(capacity: nat, requests: seq<Request>, statuses: seq<int>, q: Request)
    requires AnswersFor(capacity, requests, statuses)
    ensures AnswersFor(capacity, requests + [q], statuses + [RequestStatus(capacity, Kept(capacity, requests), q)])
  {
    assert forall i :: 0 <= i <= |requests| ==> (requests + [q])[..i] == requests[..i];
    assert requests[..|requests|] == requests;
  }

  method AppendAll(builder: Builder, requests: seq<Request>) returns (statuses: seq<int>)
    requires builder.Valid() && !builder.finished && builder.records == []
    modifies builder, builder.bytes
    ensures builder.Valid() && builder.bytes == old(builder.bytes) && !builder.finished
    ensures builder.id == old(builder.id) && builder.sequence == old(builder.sequence)
    ensures builder.records == Records(Kept(builder.bytes.Length, requests))
    ensures AnswersFor(builder.bytes.Length, requests, statuses)
  {
    statuses := [];
    ghost var capacity := builder.bytes.Length;
    for i := 0 to |requests|
      invariant builder.Valid() && builder.bytes == old(builder.bytes) && !builder.finished
      invariant builder.id == old(builder.id) && builder.sequence == old(builder.sequence)
      invariant builder.records == Records(Kept(capacity, requests[..i]))
      invariant AnswersFor(capacity, requests[..i], statuses)
    {
      KeptStep(capacity, requests, i);
      AnswersSnoc(capacity, requests[..i], statuses, requests[i]);
      assert requests[..i + 1] == requests[..i] + [requests[i]];
      var code := AppendRequest(builder, requests[i]);
      statuses := statuses + [code];
    }
    assert requests[..|requests|] == requests;
  }

  // Begin, try every request, finish: the bytes frame exactly the requests that succeeded.
  method BuildBatch(capacity: nat, id: u64, sequence: u64, requests: seq<Request>)
    returns (status: int, bytes: seq<byte>, statuses: seq<int>)
    ensures status == if MayBegin(capacity, id, sequence) && Kept(capacity, requests) != [] then 0 else EINVAL
    ensures status == 0 ==>
      && Framable(id, sequence, Records(Kept(capacity, requests)))
      && bytes == Serialize(id, sequence, Records(Kept(capacity, requests)))
      && AnswersFor(capacity, requests, statuses)
  {
    bytes, statuses := [], [];
    if capacity < HEADER_SIZE || capacity > MAX_BYTES || sequence == 0 || !Expect(id, COMMAND_BUFFER) {
      return EINVAL, bytes, statuses;
    }
    var builder := new Builder(capacity, id, sequence);
    statuses := AppendAll(builder, requests);
    KeptFits(capacity, requests);
    var length;
    status, length := builder.Finish();
    if status == 0 {
      bytes := builder.bytes[..length];
    }
  }

  lemma KeptStep(capacity: nat, requests: seq<Request>, i: nat)
    requires i < |requests|
    ensures var before := Kept(capacity, requests[..i]);
      AppendOutcome(capacity, Records(before), RequestRecord(requests[i]))
        == (RequestStatus(capacity, before, requests[i]), Records(Kept(capacity, requests[..i + 1])))
  {
    var before, q := Kept(capacity, requests[..i]), requests[i];
    assert requests[..i + 1][..i] == requests[..i];
    if RequestStatus(capacity, before, q) == 0 {
      assert Records(before + [q]) == Records(before) + [RequestRecord(q).value];
    }
  }

  // ---------------------------------------------------------------- build, then parse

  predicate FilterClear(q: Request) {
    q.Typed? ==> FilterIsClear(q.command)
  }

  // A built batch is accepted exactly when no kept append set a filter on a transfer that is not
  // a blit; the parsed records are the kept ones in order, and each decodes to what was appended.
  lemma BuildThenParse(capacity: nat, id: u64, sequence: u64, requests: seq<Request>)
    requires MayBegin(capacity, id, sequence) && Kept(capacity, requests) != []
    ensures var kept := Kept(capacity, requests);
      var rs := Records(kept);
      && Framable(id, sequence, rs)
      && var b := Serialize(id, sequence, rs);
      && |b| <= capacity
      && Parse(b, Checked()) == (if forall i :: 0 <= i < |kept| ==> FilterClear(kept[i]) then Accepted(Info(id, sequence, |rs|, |b|), rs) else Rejected(EPROTO))
      && forall i :: 0 <= i < |kept| ==> ReadsBackAs(rs[i], kept[i])
  {
    var kept := Kept(capacity, requests);
    var rs := Records(kept);
    KeptFits(capacity, requests);
    ParseOfSerialize(id, sequence, rs, Checked());
    forall i | 0 <= i < |kept|
      ensures ReadsBackAs(rs[i], kept[i]) && (RecordOk(rs[i]) <==> FilterClear(kept[i]))
    {
      RequestReadsBack(kept[i]);
    }
    assert AllValid(rs, Checked()) <==> forall i :: 0 <= i < |kept| ==> FilterClear(kept[i]) by {
      assert forall i :: 0 <= i < |kept| ==> Checked()(rs[i]) == FilterClear(kept[i]);
    }
  }

  predicate ReadsBackAs(r: Record, q: Request) {
    match q
    case Raw(record) => r == record
    case Typed(c) =>
      var p := ToWords(r.payload);
      r.opcode == Opcode(c) && LengthFits(r.opcode, p) && CountsFit(r.opcode, p) && Decode(r.opcode, p) == c
  }

  lemma RequestReadsBack(q: Request)
    requires RequestRecord(q).Some?
    ensures ReadsBackAs(RequestRecord(q).value, q)
    ensures RecordOk(RequestRecord(q).value) <==> FilterClear(q)
  {
    if q.Typed? { AppendedBytes(q.command); }
  }

  // ---------------------------------------------------------------- parse, then build

  function Rebuild(rs: seq<Record>): (qs: seq<Request>)
    requires AllValid(rs, Checked())
    ensures |qs| == |rs|
  {
    seq(|rs|, i requires 0 <= i < |rs| => RebuildOne(rs[i]))
  }

  function RebuildOne(r: Record): Request
    requires Checked()(r)
  {
    ValidPayloadIsCanonical(r.opcode, ToWords(r.payload));
    Typed(Decode(r.opcode, ToWords(r.payload)))
  }

  lemma RebuildsOne(r: Record)
    requires Checked()(r)
    ensures RequestRecord(RebuildOne(r)) == Some(r) && FilterClear(RebuildOne(r))
  {
    ValidPayloadIsCanonical(r.opcode, ToWords(r.payload));
    BytesRoundTrip(r.payload);
  }

  // Any byte string the validator accepts is the batch one gets by decoding each record and
  // appending the commands again: there are no other accepted bytes.
  lemma ParseThenBuild(b: seq<byte>)
    requires Parse(b, Checked()).Accepted?
    ensures var p := Parse(b, Checked());
      && AllValid(p.records, Checked())
      && Encodable(Rebuild(p.records))
      && Records(Rebuild(p.records)) == p.records
      && Framable(p.info.id, p.info.sequence, p.records)
      && Serialize(p.info.id, p.info.sequence, Records(Rebuild(p.records))) == b
  {
    SerializeOfParse(b, Checked());
    var rs := Parse(b, Checked()).records;
    forall i | 0 <= i < |rs| ensures RequestRecord(Rebuild(rs)[i]) == Some(rs[i]) {
      RebuildsOne(rs[i]);
    }
    assert Records(Rebuild(rs)) == rs;
  }
}
