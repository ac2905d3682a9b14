/**
 * The descriptor journal: canonical records that are validated as a whole
 * before any is replayed, and three request paths that share one sequence
 * counter under the context mutex.
 */
module DescriptorJournal {
  import opened Wrappers
  import opened Errno
  import opened Wire
  import opened DescriptorWire

  const RECORD_HEADER: nat := 8

  // ---------------------------------------------------------------- the format

  // The record length rounded up to 8 bytes, or zero when that would leave 32 bits.
  function RecordLength(payload: u32): (n: u32)
    ensures n == 0 <==> payload > U32_LIMIT - 1 - RECORD_HEADER - 7
    ensures n != 0 ==> n % 8 == 0 && RECORD_HEADER + payload <= n < RECORD_HEADER + payload + 8
  {
    if payload > U32_LIMIT - 1 - RECORD_HEADER - 7 then 0
    else (RECORD_HEADER + payload + 7) / 8 * 8
  }

  predicate Fits(payload: seq<byte>) {
    0 < |payload| <= MAX_PAYLOAD
  }

  // Length word, zero word, payload, zero padding to 8 bytes.
  function RecordOf(payload: seq<byte>): (b: seq<byte>)
    requires Fits(payload)
    ensures |b| == RecordLength(|payload|)
  {
    ToBytes([|payload|, 0]) + payload + ZeroBytes(RecordLength(|payload|) - RECORD_HEADER - |payload|)
  }

  predicate AllFit(payloads: seq<seq<byte>>) {
    forall i :: 0 <= i < |payloads| ==> Fits(payloads[i])
  }

  function JournalOf(payloads: seq<seq<byte>>): seq<byte>
    requires AllFit(payloads)
  {
    if payloads == [] then [] else RecordOf(payloads[0]) + JournalOf(payloads[1..])
  }

  function FrameWith(b: seq<byte>, n: u32, reserved: u32): (payload: Result<seq<byte>>)
    requires |b| >= RECORD_HEADER
    ensures payload.Ok? ==> Fits(payload.value) && |payload.value| == n && RecordLength(n) <= |b|
  {
    if reserved != 0 || n == 0 || n > MAX_PAYLOAD || RecordLength(n) == 0 || RecordLength(n) > |b| then Fail(EPROTO)
    else Ok(b[RECORD_HEADER..RECORD_HEADER + n])
  }

  // The payload of the first record, when its frame is well formed; padding is checked later.
  function FrameAt(b: seq<byte>): (payload: Result<seq<byte>>)
    ensures payload.Ok? ==> Fits(payload.value) && RecordLength(|payload.value|) <= |b|
  {
    if |b| < RECORD_HEADER then Fail(EPROTO) else FrameWith(b, GetU32(b, 0), GetU32(b, 4))
  }

  type Decoder = seq<byte> -> Result<UpdateRequest>

  function ParseRecord(b: seq<byte>, decode: Decoder): (payload: Result<seq<byte>>)
    ensures payload.Ok? ==> FrameAt(b) == payload
  {
    match FrameAt(b)
    case Fail(status) => Fail(status)
    case Ok(payload) =>
      match decode(payload)
      case Fail(status) => Fail(status)
      case Ok(_) =>
        if AllZeroBytes(b[RECORD_HEADER + |payload|..RecordLength(|payload|)]) then Ok(payload) else Fail(EPROTO)
  }

  function ParseJournal(b: seq<byte>, count: nat, decode: Decoder): (r: Result<seq<seq<byte>>>)
    ensures r.Ok? ==> AllFit(r.value) && |r.value| == count
  {
    if count == 0 then if b == [] then Ok([]) else Fail(EPROTO)
    else
      match ParseRecord(b, decode)
      case Fail(status) => Fail(status)
      case Ok(payload) =>
        match ParseJournal(b[RecordLength(|payload|)..], count - 1, decode)
        case Fail(status) => Fail(status)
        case Ok(rest) => Ok([payload] + rest)
  }

  lemma HeaderReads(n: u32, rest: seq<byte>)
    ensures GetU32(ToBytes([n, 0]) + rest, 0) == n && GetU32(ToBytes([n, 0]) + rest, 4) == 0
  {
    WordReads([n, 0], rest, 0);
    WordReads([n, 0], rest, 1);
  }

  lemma FrameReads(header: seq<byte>, payload: seq<byte>, zeros: seq<byte>, rest: seq<byte>, m: nat)
    requires |header| == RECORD_HEADER && m == RECORD_HEADER + |payload| + |zeros|
    ensures var b, n := header + (payload + zeros + rest), |payload|;
      && b == (header + payload + zeros) + rest
      && b[RECORD_HEADER..RECORD_HEADER + n] == payload
      && b[RECORD_HEADER + n..m] == zeros
      && b[m..] == rest
  {
  }

  lemma RecordReads(payload: seq<byte>, rest: seq<byte>)
    requires Fits(payload)
    ensures var b, n := RecordOf(payload) + rest, |payload|;
      && FrameAt(b) == Ok(payload)
      && b[RECORD_HEADER + n..RecordLength(n)] == ZeroBytes(RecordLength(n) - RECORD_HEADER - n)
      && b[RecordLength(n)..] == rest
  {
    var zeros := ZeroBytes(RecordLength(|payload|) - RECORD_HEADER - |payload|);
    HeaderReads(|payload|, payload + zeros + rest);
    FrameReads(ToBytes([|payload|, 0]), payload, zeros, rest, RecordLength(|payload|));
  }

  lemma RecordRebuilds(b: seq<byte>, decode: Decoder)
    requires ParseRecord(b, decode).Ok?
    ensures var payload := ParseRecord(b, decode).value; RecordOf(payload) + b[RecordLength(|payload|)..] == b
  {
    var payload := ParseRecord(b, decode).value;
    var n: u32 := |payload|;
    var zeros := ZeroBytes(RecordLength(n) - RECORD_HEADER - n);
    assert b[RECORD_HEADER + n..RecordLength(n)] == zeros;
    var ws: Words := [n, 0];
    assert FieldIs(b, 0, ws[0]) && FieldIs(b, 1, ws[1]);
    PrefixFields(b, RECORD_HEADER, ws);
    FieldsDetermineBytes(b[..RECORD_HEADER], ws);
    Reassemble(b, n, RecordLength(n));
  }

  lemma Reassemble(b: seq<byte>, n: nat, m: nat)
    requires RECORD_HEADER + n <= m <= |b|
    ensures b[..RECORD_HEADER] + b[RECORD_HEADER..RECORD_HEADER + n] + b[RECORD_HEADER + n..m] + b[m..] == b
  {
  }

  ghost predicate AllDecode(payloads: seq<seq<byte>>, decode: Decoder) {
    forall i :: 0 <= i < |payloads| ==> decode(payloads[i]).Ok?
  }

  lemma {:induction false} ParseOfJournal(payloads: seq<seq<byte>>, decode: Decoder)
    requires AllFit(payloads) && AllDecode(payloads, decode)
    ensures ParseJournal(JournalOf(payloads), |payloads|, decode) == Ok(payloads)
  {
    if payloads != [] {
      var rest := JournalOf(payloads[1..]);
      RecordReads(payloads[0], rest);
      ParseOfJournal(payloads[1..], decode);
      assert payloads == [payloads[0]] + payloads[1..];
    }
  }

  lemma {:induction false} JournalOfParse(b: seq<byte>, count: nat, decode: Decoder)
    requires ParseJournal(b, count, decode).Ok?
    ensures var payloads := ParseJournal(b, count, decode).value;
      AllDecode(payloads, decode) && JournalOf(payloads) == b
  {
    if count > 0 {
      var payload := ParseRecord(b, decode).value;
      var rest := b[RecordLength(|payload|)..];
      RecordRebuilds(b, decode);
      JournalOfParse(rest, count - 1, decode);
      var tail := ParseJournal(rest, count - 1, decode).value;
      assert ParseJournal(b, count, decode).value == [payload] + tail;
      assert ([payload] + tail)[1..] == tail;
    }
  }

  // ---------------------------------------------------------------- accepting a snapshot

  ghost predicate ErrorsOnly(decode: Decoder) {
    forall b :: decode(b).Fail? ==> decode(b).status != 0
  }

  predicate AcceptedBy(b: seq<byte>, count: nat, decode: Decoder) {
    b != [] && 0 < count <= JOURNAL_MAX_RECORDS && ParseJournal(b, count, decode).Ok?
  }

  function StatusOf<T>(r: Result<T>): int {
    match r
    case Ok(_) => 0
    case Fail(status) => status
  }

  function StatusWith(b: seq<byte>, count: nat, decode: Decoder): int {
    if b == [] || count == 0 || count > JOURNAL_MAX_RECORDS then EINVAL else StatusOf(ParseJournal(b, count, decode))
  }

  lemma {:induction false} FailuresAreErrors(b: seq<byte>, count: nat, decode: Decoder)
    requires ErrorsOnly(decode)
    ensures StatusOf(ParseJournal(b, count, decode)) == 0 <==> ParseJournal(b, count, decode).Ok?
  {
    if count > 0 && ParseRecord(b, decode).Ok? {
      FailuresAreErrors(b[RecordLength(|ParseRecord(b, decode).value|)..], count - 1, decode);
    }
  }

  // One record at an offset: its frame, its decoding, its padding.
  method CheckRecord(b: seq<byte>, offset: nat, decode: Decoder) returns (status: int, length: nat)
    requires offset <= |b| && ErrorsOnly(decode)
    ensures status == StatusOf(ParseRecord(b[offset..], decode))
    ensures status == 0 <==> ParseRecord(b[offset..], decode).Ok?
    ensures status == 0 ==> length == RecordLength(|ParseRecord(b[offset..], decode).value|) && offset + length <= |b|
  {
    ghost var rest := b[offset..];
    var framed;
    framed, length := ReadFrame(b, offset);
    if framed.Fail? {
      return framed.status, 0;
    }
    var n := |framed.value|;
    var decoded := decode(framed.value);
    if decoded.Fail? {
      return decoded.status, 0;
    }
    SliceOfSuffix(b, offset, RECORD_HEADER + n, length);
    var zero := CheckPadding(b, offset + RECORD_HEADER + n, offset + length);
    status := if zero then 0 else EPROTO;
  }

  method ReadFrame(b: seq<byte>, offset: nat) returns (framed: Result<seq<byte>>, length: nat)
    requires offset <= |b|
    ensures framed == FrameAt(b[offset..])
    ensures framed.Fail? ==> framed.status == EPROTO
    ensures framed.Ok? ==> length == RecordLength(|framed.value|) && offset + length <= |b|
  {
    if RECORD_HEADER > |b| - offset {
      return Fail(EPROTO), 0;
    }
    SuffixField(b, offset, 0);
    SuffixField(b, offset, 4);
    framed, length := CheckFrame(b, offset, GetU32(b, offset), GetU32(b, offset + 4));
  }

  method CheckFrame(b: seq<byte>, offset: nat, n: u32, reserved: u32) returns (framed: Result<seq<byte>>, length: nat)
    requires offset + RECORD_HEADER <= |b|
    ensures framed == FrameWith(b[offset..], n, reserved)
    ensures framed.Fail? ==> framed.status == EPROTO
    ensures framed.Ok? ==> length == RecordLength(|framed.value|) && offset + length <= |b|
  {
    length := RecordLength(n);
    if reserved != 0 || n == 0 || n > MAX_PAYLOAD || length == 0 || length > |b| - offset {
      return Fail(EPROTO), 0;
    }
    SliceOfSuffix(b, offset, RECORD_HEADER, RECORD_HEADER + n);
    framed := Ok(b[offset + RECORD_HEADER..offset + RECORD_HEADER + n]);
  }

  lemma SliceOfSuffix(b: seq<byte>, offset: nat, from: nat, to: nat)
    requires from <= to && offset + to <= |b|
    ensures b[offset..][from..to] == b[offset + from..offset + to]
  {
  }

  method CheckPadding(b: seq<byte>, from: nat, to: nat) returns (zero: bool)
    requires from <= to <= |b|
    ensures zero <==> AllZeroBytes(b[from..to])
  {
    var padding := from;
    while padding < to
      invariant from <= padding <= to
      invariant forall i :: from <= i < padding ==> b[i] == 0
    {
      if b[padding] != 0 {
        assert b[from..to][padding - from] != 0;
        return false;
      }
      padding := padding + 1;
    }
    zero := true;
  }

  lemma ParseUnfolds(b: seq<byte>, count: nat, decode: Decoder)
    requires count > 0
    ensures var r := ParseRecord(b, decode);
      StatusOf(ParseJournal(b, count, decode))
        == if r.Fail? then r.status else StatusOf(ParseJournal(b[RecordLength(|r.value|)..], count - 1, decode))
  {
  }

  method Validate(b: seq<byte>, count: nat, decode: Decoder) returns (status: int)
    requires ErrorsOnly(decode)
    ensures status == StatusWith(b, count, decode)
    ensures status == 0 <==> AcceptedBy(b, count, decode)
  {
    FailuresAreErrors(b, count, decode);
    if b == [] || count == 0 || count > JOURNAL_MAX_RECORDS {
      return EINVAL;
    }
    status := ValidateRecords(b, count, decode);
  }

  method ValidateRecords(b: seq<byte>, count: nat, decode: Decoder) returns (status: int)
    requires ErrorsOnly(decode)
    ensures status == StatusOf(ParseJournal(b, count, decode))
  {
    ghost var expected, rest := StatusOf(ParseJournal(b, count, decode)), b;
    var offset: nat := 0;
    var left := count;
    while left > 0
      invariant offset <= |b| && rest == b[offset..]
      invariant expected == StatusOf(ParseJournal(rest, left, decode))
    {
      ParseUnfolds(rest, left, decode);
      var length;
      status, length := CheckRecord(b, offset, decode);
      if status != 0 {
        return;
      }
      rest := rest[length..];
      offset := offset + length;
      left := left - 1;
    }
    status := if offset == |b| then 0 else EPROTO;
  }

  // What a replay answers, given what the driver answered for each payload handed to it: every
  // answer but the last is success, and the last is the answer, so only a driver error ends it early.
  ghost predicate StopsAtFirstError(natives: seq<int>, status: int, count: nat) {
    && |natives| <= count
    && (forall i :: 0 <= i < |natives| - 1 ==> natives[i] == 0)
    && (if natives == [] then status == 0 else status == natives[|natives| - 1])
    && (status == 0 ==> |natives| == count)
  }

  // The driver's first error among its answers to `count` payloads, or zero.
  function FirstError(answers: nat -> int, count: nat): int {
    if count == 0 then 0
    else
      var before := FirstError(answers, count - 1);
      if before != 0 then before else answers(count - 1)
  }

  // How many payloads reach it: those up to the first error.
  function Reached(answers: nat -> int, count: nat): (k: nat)
    ensures k <= count
  {
    if count == 0 then 0 else if FirstError(answers, count - 1) != 0 then Reached(answers, count - 1) else count
  }

  lemma {:induction false} FirstErrorIsFirst(answers: nat -> int, count: nat)
    ensures FirstError(answers, count) == 0 <==> forall i :: 0 <= i < count ==> answers(i) == 0
    ensures FirstError(answers, count) == 0 ==> Reached(answers, count) == count
    ensures FirstError(answers, count) != 0 ==>
      var k := Reached(answers, count);
      0 < k && answers(k - 1) == FirstError(answers, count) && forall i :: 0 <= i < k - 1 ==> answers(i) == 0
  {
    if count > 0 { FirstErrorIsFirst(answers, count - 1); }
  }

  lemma {:induction false} StopIsDetermined(natives: seq<int>, answers: nat -> int, status: int, count: nat)
    requires StopsAtFirstError(natives, status, count) && forall i :: 0 <= i < |natives| ==> natives[i] == answers(i)
    ensures status == FirstError(answers, count) && |natives| == Reached(answers, count)
  {
    FirstErrorIsFirst(answers, count);
  }

  // Replays an accepted snapshot: the payloads of the parsed list, in order, up to the first
  // native error.  Decoding never fails here, and the final offset check never does.
  method Replay(b: seq<byte>, count: nat, decode: Decoder, answers: nat -> int)
    returns (status: int, replayed: seq<seq<byte>>, natives: seq<int>)
    requires AcceptedBy(b, count, decode)
    ensures |replayed| == |natives| && StopsAtFirstError(natives, status, count)
    ensures forall i :: 0 <= i < |natives| ==> natives[i] == answers(i)
    ensures status == FirstError(answers, count)
    ensures replayed == ParseJournal(b, count, decode).value[..Reached(answers, count)]
  {
    ghost var payloads := ParseJournal(b, count, decode).value;
    JournalOfParse(b, count, decode);
    status, replayed, natives := ReplayRecords(b, count, payloads, decode, answers);
    StopIsDetermined(natives, answers, status, count);
  }

  method ReplayRecords(b: seq<byte>, count: nat, ghost payloads: seq<seq<byte>>, decode: Decoder, answers: nat -> int)
    returns (status: int, replayed: seq<seq<byte>>, natives: seq<int>)
    requires |payloads| == count && AllFit(payloads) && AllDecode(payloads, decode) && JournalOf(payloads) == b
    ensures |replayed| == |natives| && StopsAtFirstError(natives, status, count)
    ensures forall i :: 0 <= i < |natives| ==> natives[i] == answers(i)
    ensures |replayed| <= count && replayed == payloads[..|replayed|]
  {
    var offset: nat := 0;
    replayed, natives := [], [];
    ghost var rest := payloads;
    assert b[0..] == b;
    for index := 0 to count
      invariant rest == payloads[index..] && offset <= |b|
      invariant AllFit(rest) && b[offset..] == JournalOf(rest)
      invariant replayed == payloads[..index] && |natives| == index
      invariant forall i :: 0 <= i < index ==> natives[i] == answers(i) == 0
    {
      var n, payload := PayloadAt(b, offset, rest);
      assert payload == payloads[index];
      var decoded := decode(payload);
      if decoded.Fail? {
        assert false;  // validation decoded the same payload
      }
      rest := rest[1..];
      var native := answers(index);  // the driver applies the update
      replayed, natives := replayed + [payload], natives + [native];
      if native != 0 {
        return native, replayed, natives;
      }
      offset := offset + RecordLength(n);
    }
    assert rest == [] && offset == |b|;
    status := if offset == |b| then 0 else EPROTO;
  }

  method PayloadAt(b: seq<byte>, offset: nat, ghost payloads: seq<seq<byte>>) returns (n: u32, payload: seq<byte>)
    requires AllFit(payloads) && payloads != [] && offset <= |b| && b[offset..] == JournalOf(payloads)
    ensures payload == payloads[0] && n == |payload| && offset + RecordLength(n) <= |b|
    ensures b[offset + RecordLength(n)..] == JournalOf(payloads[1..])
  {
    RecordReads(payloads[0], JournalOf(payloads[1..]));
    SuffixField(b, offset, 0);
    n := GetU32(b, offset);
    SliceOfSuffix(b, offset, RECORD_HEADER, RECORD_HEADER + n);
    payload := b[offset + RECORD_HEADER..offset + RECORD_HEADER + n];
    assert b[offset + RecordLength(n)..] == b[offset..][RecordLength(n)..];
  }

  // ---------------------------------------------------------------- journals of updates

  function UpdateDecoder(): Decoder {
    (b: seq<byte>) => DecodeUpdate(b, true)
  }

  predicate AllValidUpdates(rs: seq<UpdateRequest>) {
    forall i :: 0 <= i < |rs| ==> UpdateIsValid(rs[i])
  }

  function PayloadsOf(rs: seq<UpdateRequest>): (payloads: seq<seq<byte>>)
    requires AllValidUpdates(rs)
    ensures |payloads| == |rs|
  {
    seq(|rs|, i requires 0 <= i < |rs| => ToBytes(UpdateWords(rs[i])))
  }

  lemma PayloadsFit(rs: seq<UpdateRequest>)
    requires AllValidUpdates(rs)
    ensures AllFit(PayloadsOf(rs)) && AllDecode(PayloadsOf(rs), UpdateDecoder())
    ensures forall i :: 0 <= i < |rs| ==> DecodeUpdate(PayloadsOf(rs)[i], true) == Ok(rs[i])
  {
    forall i | 0 <= i < |rs|
      ensures Fits(PayloadsOf(rs)[i]) && UpdateDecoder()(PayloadsOf(rs)[i]).Ok? && DecodeUpdate(PayloadsOf(rs)[i], true) == Ok(rs[i])
    {
      UpdateSize(rs[i]);
      UpdateRoundTrip(rs[i], true);
    }
  }

  // The serialisation of a list of updates.
  function Serialize(rs: seq<UpdateRequest>): seq<byte>
    requires AllValidUpdates(rs)
  {
    PayloadsFit(rs);
    JournalOf(PayloadsOf(rs))
  }

  predicate Accepts(b: seq<byte>, count: nat) {
    AcceptedBy(b, count, UpdateDecoder())
  }

  lemma UpdateErrors()
    ensures ErrorsOnly(UpdateDecoder())
  {
  }

  // The updates of an accepted snapshot, in order.
  function Updates(b: seq<byte>, count: nat): (rs: seq<UpdateRequest>)
    requires Accepts(b, count)
    ensures |rs| == count && AllValidUpdates(rs)
    ensures PayloadsOf(rs) == ParseJournal(b, count, UpdateDecoder()).value
  {
    var payloads := ParseJournal(b, count, UpdateDecoder()).value;
    JournalOfParse(b, count, UpdateDecoder());
    DecodeAll(payloads)
  }

  function DecodeOne(payload: seq<byte>): (r: UpdateRequest)
    requires UpdateDecoder()(payload).Ok?
    ensures UpdateIsValid(r) && ToBytes(UpdateWords(r)) == payload
  {
    UpdateIsCanonical(payload);
    DecodeUpdate(payload, true).value
  }

  function DecodeAll(payloads: seq<seq<byte>>): (rs: seq<UpdateRequest>)
    requires AllDecode(payloads, UpdateDecoder())
    ensures |rs| == |payloads| && AllValidUpdates(rs) && PayloadsOf(rs) == payloads
  {
    seq(|payloads|, i requires 0 <= i < |payloads| => DecodeOne(payloads[i]))
  }

  lemma PayloadsDetermineUpdates(rs: seq<UpdateRequest>, us: seq<UpdateRequest>)
    requires AllValidUpdates(rs) && AllValidUpdates(us) && PayloadsOf(rs) == PayloadsOf(us)
    ensures rs == us
  {
    PayloadsFit(rs);
    PayloadsFit(us);
    forall i | 0 <= i < |rs| ensures rs[i] == us[i] {
      assert PayloadsOf(rs)[i] == PayloadsOf(us)[i];
    }
  }

  lemma SerializationIsAccepted(rs: seq<UpdateRequest>)
    requires AllValidUpdates(rs) && 0 < |rs| <= JOURNAL_MAX_RECORDS
    ensures Accepts(Serialize(rs), |rs|)
    ensures Updates(Serialize(rs), |rs|) == rs
  {
    PayloadsFit(rs);
    ParseOfJournal(PayloadsOf(rs), UpdateDecoder());
    assert |Serialize(rs)| >= |RecordOf(PayloadsOf(rs)[0])|;
    PayloadsDetermineUpdates(Updates(Serialize(rs), |rs|), rs);
  }

  // Validation succeeds exactly on the serialisations of lists of that many valid updates, and
  // each accepted snapshot is the serialisation of one list only, the one that replay visits.
  lemma AcceptedIsSerialization(b: seq<byte>, count: nat)
    ensures Accepts(b, count) <==> IsSerialization(b, count)
    ensures Accepts(b, count) ==> Serialize(Updates(b, count)) == b
  {
    if Accepts(b, count) {
      JournalOfParse(b, count, UpdateDecoder());
      assert SerializationOf(b, count, Updates(b, count));
    }
    if IsSerialization(b, count) {
      var rs :| SerializationOf(b, count, rs);
      SerializationIsAccepted(rs);
    }
  }

  ghost predicate IsSerialization(b: seq<byte>, count: nat) {
    exists rs :: SerializationOf(b, count, rs)
  }

  predicate SerializationOf(b: seq<byte>, count: nat, rs: seq<UpdateRequest>) {
    0 < count <= JOURNAL_MAX_RECORDS && |rs| == count && AllValidUpdates(rs) && Serialize(rs) == b
  }

  lemma SerializationIsUnique(b: seq<byte>, count: nat, rs: seq<UpdateRequest>)
    requires SerializationOf(b, count, rs)
    ensures Accepts(b, count) && Updates(b, count) == rs
  {
    SerializationIsAccepted(rs);
  }
}
