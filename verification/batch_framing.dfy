/**
 * Batch framing: a header and length-prefixed records. What counts as an
 * acceptable payload is a parameter, so these results hold for every opcode.
 */
module BatchFraming {
  import opened Wrappers
  import opened Errno
  import opened Handles
  import opened Wire

  const MAGIC: u32 := 0x43425642
  const VERSION: u32 := 1
  const HEADER_SIZE: nat := 32
  const RECORD_HEADER_SIZE: nat := 8
  const MAX_BYTES: nat := 16 * 1024 * 1024
  const MAX_COMMANDS: nat := 1024 * 1024

  type Bytes = b: seq<byte> | |b| < 0x1_0000_0000

  datatype Record = Record(opcode: u16, payload: Bytes)

  datatype Info = Info(id: u64, sequence: u64, count: nat, length: nat)

  datatype Parsed = Accepted(info: Info, records: seq<Record>) | Rejected(status: int)

  // The opcode is known and the payload is well formed for it.
  type Check = Record -> bool

  // ---------------------------------------------------------------- records

  function RecordBytes(r: Record): (b: seq<byte>)
    ensures |b| == RECORD_HEADER_SIZE + |r.payload|
  {
    ToBytes([r.opcode, |r.payload|]) + r.payload
  }

  function Body(rs: seq<Record>): seq<byte> {
    if rs == [] then [] else RecordBytes(rs[0]) + Body(rs[1..])
  }

  lemma {:induction false} BodySnoc(rs: seq<Record>, r: Record)
    ensures Body(rs + [r]) == Body(rs) + RecordBytes(r)
  {
    if rs == [] {
      assert [] + [r] == [r];
    } else {
      assert (rs + [r])[1..] == rs[1..] + [r];
      BodySnoc(rs[1..], r);
    }
  }

  lemma RecordHeaderReads(r: Record, rest: seq<byte>)
    ensures var b := RecordBytes(r) + rest;
      && GetU16(b, 0) == r.opcode && GetU16(b, 2) == 0 && GetU32(b, 4) == |r.payload|
      && b[8..8 + |r.payload|] == r.payload && b[8 + |r.payload|..] == rest
  {
    var ws := [r.opcode, |r.payload|];
    var b := RecordBytes(r) + rest;
    assert b == ToBytes(ws) + (r.payload + rest);
    WordReads(ws, r.payload + rest, 0);
    WordReads(ws, r.payload + rest, 1);
    Halves(b, 0);
  }

  lemma ReadLater(b: seq<byte>, tail: seq<byte>)
    requires |b| >= 4 && b[4..] == tail && |tail| >= 4
    ensures GetU32(b, 4) == GetU32(tail, 0)
  {
    assert b[4..8] == tail[0..4];
  }

  lemma RecordRebuilds(b: seq<byte>)
    requires |b| >= 8 && GetU16(b, 2) == 0 && 8 + GetU32(b, 4) <= |b|
    ensures var n := GetU32(b, 4); RecordBytes(Record(GetU16(b, 0), b[8..8 + n])) + b[8 + n..] == b
  {
    var n := GetU32(b, 4);
    ReadLater(b, b[4..]);
    GetPut(b[4..]);
    assert b[4..][..4] == b[4..8];
    GetPut(b);
    Halves(b, 0);
    TwoWords(GetU16(b, 0), n);
    FourParts(b, n);
  }

  lemma TwoWords(v: u32, w: u32)
    ensures ToBytes([v, w]) == PutU32(v) + PutU32(w)
  {
  }

  lemma FourParts(b: seq<byte>, n: nat)
    requires 8 + n <= |b|
    ensures (b[..4] + b[4..8]) + b[8..8 + n] + b[8 + n..] == b
  {
  }

  // ---------------------------------------------------------------- parsing

  function ParseRecord(b: seq<byte>, check: Check): (p: Option<Record>)
    ensures p.Some? ==> RECORD_HEADER_SIZE + |p.value.payload| <= |b|
  {
    if |b| < RECORD_HEADER_SIZE then None
    else
      var n := GetU32(b, 4);
      if GetU16(b, 2) != 0 || n > |b| - RECORD_HEADER_SIZE then None
      else
        var r := Record(GetU16(b, 0), b[8..8 + n]);
        if check(r) then Some(r) else None
  }

  function ParseBody(b: seq<byte>, count: nat, check: Check): Option<seq<Record>> {
    if count == 0 then if b == [] then Some([]) else None
    else
      match ParseRecord(b, check)
      case None => None
      case Some(r) =>
        match ParseBody(b[RECORD_HEADER_SIZE + |r.payload|..], count - 1, check)
        case None => None
        case Some(rest) => Some([r] + rest)
  }

  lemma ParseOfRecord(r: Record, rest: seq<byte>, check: Check)
    ensures ParseRecord(RecordBytes(r) + rest, check) == if check(r) then Some(r) else None
  {
    RecordHeaderReads(r, rest);
  }

  lemma RecordOfParse(b: seq<byte>, check: Check)
    ensures var p := ParseRecord(b, check);
      p.Some? ==> check(p.value) && RecordBytes(p.value) + b[RECORD_HEADER_SIZE + |p.value.payload|..] == b
  {
    if ParseRecord(b, check).Some? { RecordRebuilds(b); }
  }

  predicate AllValid(rs: seq<Record>, check: Check) {
    forall i :: 0 <= i < |rs| ==> check(rs[i])
  }

  lemma ParseUnfolds(r: Record, rest: seq<byte>, count: nat, check: Check)
    requires count > 0
    ensures ParseBody(RecordBytes(r) + rest, count, check)
         == if !check(r) then None else Prepend(r, ParseBody(rest, count - 1, check))
  {
    ParseOfRecord(r, rest, check);
    assert (RecordBytes(r) + rest)[RECORD_HEADER_SIZE + |r.payload|..] == rest;
  }

  function Prepend(r: Record, rest: Option<seq<Record>>): Option<seq<Record>> {
    if rest.None? then None else Some([r] + rest.value)
  }

  lemma AllValidCons(rs: seq<Record>, check: Check)
    requires rs != []
    ensures AllValid(rs, check) <==> check(rs[0]) && AllValid(rs[1..], check)
    ensures rs == [rs[0]] + rs[1..]
  {
  }

  // Framed records parse back to exactly themselves, if and only if each payload is valid.
  lemma {:induction false} ParseOfBody(rs: seq<Record>, check: Check)
    ensures ParseBody(Body(rs), |rs|, check) == if AllValid(rs, check) then Some(rs) else None
  {
    if rs != [] {
      var r, tail := rs[0], rs[1..];
      ParseOfBody(tail, check);
      ParseUnfolds(r, Body(tail), |rs|, check);
      AllValidCons(rs, check);
      assert Body(rs) == RecordBytes(r) + Body(tail);
      assert ParseBody(Body(rs), |rs|, check) == if !check(r) then None else Prepend(r, ParseBody(Body(tail), |tail|, check));
    }
  }

  // Whatever parses is the framing of its records.
  lemma {:induction false} BodyOfParse(b: seq<byte>, count: nat, check: Check)
    ensures var p := ParseBody(b, count, check);
      p.Some? ==> |p.value| == count && AllValid(p.value, check) && Body(p.value) == b
  {
    if count > 0 && ParseBody(b, count, check).Some? {
      RecordOfParse(b, check);
      var r := ParseRecord(b, check).value;
      var rest := b[RECORD_HEADER_SIZE + |r.payload|..];
      BodyOfParse(rest, count - 1, check);
      var rs := ParseBody(rest, count - 1, check).value;
      assert ParseBody(b, count, check).value == [r] + rs;
      assert ([r] + rs)[1..] == rs;
    }
  }

  function Header(length: u32, count: u32, id: u64, sequence: u64): (h: Words)
    ensures |h| == 8
  {
    [MAGIC, VERSION, length, count, Lo(id), Hi(id), Lo(sequence), Hi(sequence)]
  }

  function Serialize(id: u64, sequence: u64, rs: seq<Record>): seq<byte>
    requires HEADER_SIZE + |Body(rs)| <= MAX_BYTES && |rs| <= MAX_COMMANDS
  {
    ToBytes(Header(HEADER_SIZE + |Body(rs)|, |rs|, id, sequence)) + Body(rs)
  }

  predicate HeaderIsValid(b: seq<byte>)
    requires HEADER_SIZE <= |b|
  {
    && GetU32(b, 0) == MAGIC && GetU16(b, 4) == VERSION && GetU16(b, 6) == 0 && GetU32(b, 8) == |b|
    && GetU32(b, 12) != 0 && GetU32(b, 12) <= MAX_COMMANDS
    && Expect(GetU64(b, 16), COMMAND_BUFFER) && GetU64(b, 24) != 0
  }

  function Parse(b: seq<byte>, check: Check): Parsed {
    if |b| < HEADER_SIZE || |b| > MAX_BYTES then Rejected(EINVAL)
    else if !HeaderIsValid(b) then Rejected(EPROTO)
    else
      match ParseBody(b[HEADER_SIZE..], GetU32(b, 12), check)
      case None => Rejected(EPROTO)
      case Some(rs) => Accepted(Info(GetU64(b, 16), GetU64(b, 24), GetU32(b, 12), |b|), rs)
  }

  predicate Framable(id: u64, sequence: u64, rs: seq<Record>) {
    && Expect(id, COMMAND_BUFFER) && sequence != 0
    && 0 < |rs| <= MAX_COMMANDS && HEADER_SIZE + |Body(rs)| <= MAX_BYTES
  }

  lemma HeaderReads(h: Words, body: seq<byte>)
    requires |h| == 8
    ensures var b := ToBytes(h) + body;
      && GetU32(b, 0) == h[0] && GetU32(b, 4) == h[1] && GetU32(b, 8) == h[2] && GetU32(b, 12) == h[3]
      && GetU32(b, 16) == h[4] && GetU32(b, 20) == h[5] && GetU32(b, 24) == h[6] && GetU32(b, 28) == h[7]
      && b[HEADER_SIZE..] == body
  {
    WordReads(h, body, 0);
    WordReads(h, body, 1);
    WordReads(h, body, 2);
    WordReads(h, body, 3);
    WordReads(h, body, 4);
    WordReads(h, body, 5);
    WordReads(h, body, 6);
    WordReads(h, body, 7);
  }

  // The header fields seen as words.
  lemma HeaderInWords(b: seq<byte>, h: Words)
    requires HEADER_SIZE <= |b| && |h| == 8
    requires GetU32(b, 0) == h[0] && GetU32(b, 4) == h[1] && GetU32(b, 8) == h[2] && GetU32(b, 12) == h[3]
    requires GetU32(b, 16) == h[4] && GetU32(b, 20) == h[5] && GetU32(b, 24) == h[6] && GetU32(b, 28) == h[7]
    ensures GetU64(b, 16) == Join(h[4], h[5]) && GetU64(b, 24) == Join(h[6], h[7])
    ensures HeaderIsValid(b) <==>
      && h[0] == MAGIC && h[1] == VERSION && h[2] == |b| && 0 < h[3] <= MAX_COMMANDS
      && Expect(Join(h[4], h[5]), COMMAND_BUFFER) && Join(h[6], h[7]) != 0
  {
    Halves(b, 4);
  }

  lemma HeaderAccepted(id: u64, sequence: u64, rs: seq<Record>)
    requires Framable(id, sequence, rs)
    ensures var b := Serialize(id, sequence, rs);
      && HeaderIsValid(b) && b[HEADER_SIZE..] == Body(rs)
      && GetU32(b, 12) == |rs| && GetU64(b, 16) == id && GetU64(b, 24) == sequence
  {
    var h := Header(HEADER_SIZE + |Body(rs)|, |rs|, id, sequence);
    HeaderReads(h, Body(rs));
    HeaderInWords(Serialize(id, sequence, rs), h);
    JoinSplit(id);
    JoinSplit(sequence);
  }

  // A framed batch is accepted exactly when every payload in it is valid, and then parses back
  // to the same header fields and the same records.
  lemma ParseOfSerialize(id: u64, sequence: u64, rs: seq<Record>, check: Check)
    requires Framable(id, sequence, rs)
    ensures var b := Serialize(id, sequence, rs);
      Parse(b, check) == if AllValid(rs, check) then Accepted(Info(id, sequence, |rs|, |b|), rs) else Rejected(EPROTO)
  {
    HeaderAccepted(id, sequence, rs);
    ParseOfBody(rs, check);
  }

  lemma HeaderOfParse(b: seq<byte>)
    requires HEADER_SIZE <= |b| < U32_LIMIT && HeaderIsValid(b)
    ensures b == ToBytes(Header(|b|, GetU32(b, 12), GetU64(b, 16), GetU64(b, 24))) + b[HEADER_SIZE..]
  {
    var h := [GetU32(b, 0), GetU32(b, 4), GetU32(b, 8), GetU32(b, 12), GetU32(b, 16), GetU32(b, 20), GetU32(b, 24), GetU32(b, 28)];
    HeaderInWords(b, h);
    assert FieldIs(b, 0, h[0]) && FieldIs(b, 1, h[1]) && FieldIs(b, 2, h[2]) && FieldIs(b, 3, h[3]);
    assert FieldIs(b, 4, h[4]) && FieldIs(b, 5, h[5]) && FieldIs(b, 6, h[6]) && FieldIs(b, 7, h[7]);
    PrefixFields(b, HEADER_SIZE, h);
    FieldsDetermineBytes(b[..HEADER_SIZE], h);
    assert h == Header(|b|, h[3], Join(h[4], h[5]), Join(h[6], h[7]));
  }

  // An accepted byte string is the framing of the records it parses to, byte for byte.
  lemma SerializeOfParse(b: seq<byte>, check: Check)
    requires Parse(b, check).Accepted?
    ensures var p := Parse(b, check);
      && Framable(p.info.id, p.info.sequence, p.records) && AllValid(p.records, check)
      && Serialize(p.info.id, p.info.sequence, p.records) == b
      && p.info.length == |b| && p.info.count == |p.records|
  {
    BodyOfParse(b[HEADER_SIZE..], GetU32(b, 12), check);
    HeaderOfParse(b);
  }

  // ---------------------------------------------------------------- building

  predicate MayBegin(capacity: nat, id: u64, sequence: u64) {
    HEADER_SIZE <= capacity <= MAX_BYTES && sequence != 0 && Expect(id, COMMAND_BUFFER)
  }

  // What appending r to an unfinished batch of rs answers.
  function AppendStatus(capacity: nat, rs: seq<Record>, r: Record): int {
    if |rs| >= MAX_COMMANDS then EINVAL
    else if HEADER_SIZE + |Body(rs)| + |RecordBytes(r)| > capacity then ENOSPC
    else 0
  }

  method Copy(data: seq<byte>, target: array<byte>, at: nat)
    requires at + |data| <= target.Length
    modifies target
    ensures target[..at] == old(target[..at])
    ensures target[at..at + |data|] == data
    ensures target[at + |data|..] == old(target[at + |data|..])
  {
    forall i | 0 <= i < |data| { target[at + i] := data[i]; }
  }

  class Builder {
    var bytes: array<byte>
    var length: nat
    var id: u64
    var sequence: u64
    var count: nat
    var finished: bool
    ghost var records: seq<Record>

    ghost predicate Valid()
      reads this, bytes
    {
      && MayBegin(bytes.Length, id, sequence)
      && HEADER_SIZE <= length <= bytes.Length
      && count == |records| <= MAX_COMMANDS
      && bytes[HEADER_SIZE..length] == Body(records)
      && (finished ==> count > 0 && bytes[..length] == Serialize(id, sequence, records))
    }

    constructor (capacity: nat, id: u64, sequence: u64)
      requires MayBegin(capacity, id, sequence)
      ensures Valid() && fresh(bytes) && bytes.Length == capacity
      ensures this.id == id && this.sequence == sequence && records == [] && !finished
    {
      bytes := new byte[capacity];
      length := HEADER_SIZE;
      this.id := id;
      this.sequence := sequence;
      count := 0;
      finished := false;
      records := [];
    }

    method AppendRecord(r: Record) returns (status: int)
      requires Valid() && |r.payload| <= MAX_BYTES
      modifies this, bytes
      ensures Valid() && bytes == old(bytes) && id == old(id) && sequence == old(sequence) && finished == old(finished)
      ensures status == if old(finished) then EINVAL else AppendStatus(bytes.Length, old(records), r)
      ensures records == if status == 0 then old(records) + [r] else old(records)
    {
      if finished || count >= MAX_COMMANDS {
        return EINVAL;
      }
      var recordLength := RECORD_HEADER_SIZE + |r.payload|;
      if recordLength > MAX_BYTES || recordLength > bytes.Length || length > bytes.Length - recordLength
        || length > MAX_BYTES - recordLength
      {
        return ENOSPC;
      }
      var record := RecordBytes(r);
      BodySnoc(records, r);
      Copy(record, bytes, length);
      assert bytes[HEADER_SIZE..length] == bytes[..length][HEADER_SIZE..];
      assert old(bytes[HEADER_SIZE..length]) == old(bytes[..length])[HEADER_SIZE..];
      assert bytes[HEADER_SIZE..length + recordLength] == bytes[HEADER_SIZE..length] + bytes[length..length + recordLength];
      length := length + recordLength;
      count := count + 1;
      records := records + [r];
      status := 0;
    }

    method Finish() returns (status: int, output: nat)
      requires Valid()
      modifies this, bytes
      ensures Valid() && bytes == old(bytes) && id == old(id) && sequence == old(sequence) && records == old(records)
      ensures status == if old(finished) || records == [] then EINVAL else 0
      ensures status == 0 ==> finished && output <= bytes.Length && bytes[..output] == Serialize(id, sequence, records)
    {
      if finished || count == 0 {
        return EINVAL, 0;
      }
      var header := ToBytes(Header(length, count, id, sequence));
      Copy(header, bytes, 0);
      assert bytes[0..HEADER_SIZE] == bytes[..HEADER_SIZE];
      assert bytes[HEADER_SIZE..length] == bytes[HEADER_SIZE..][..length - HEADER_SIZE];
      assert old(bytes[HEADER_SIZE..length]) == old(bytes[HEADER_SIZE..])[..length - HEADER_SIZE];
      assert bytes[..length] == bytes[..HEADER_SIZE] + bytes[HEADER_SIZE..length];
      finished := true;
      status, output := 0, length;
    }
  }

  // ---------------------------------------------------------------- validating and walking

  method Validate(b: seq<byte>, check: Check) returns (status: int, info: Info)
    ensures match Parse(b, check)
      case Accepted(i, _) => status == 0 && info == i
      case Rejected(s) => status == s
  {
    info := Info(0, 0, 0, 0);
    if |b| < HEADER_SIZE || |b| > MAX_BYTES {
      return EINVAL, info;
    }
    if !HeaderIsValid(b) {
      return EPROTO, info;
    }
    var count := GetU32(b, 12);
    var ok := ValidateBody(b, HEADER_SIZE, count, check);
    if !ok {
      return EPROTO, info;
    }
    status, info := 0, Info(GetU64(b, 16), GetU64(b, 24), count, |b|);
  }

  method ValidateBody(b: seq<byte>, start: nat, count: nat, check: Check) returns (ok: bool)
    requires start <= |b|
    ensures ok <==> ParseBody(b[start..], count, check).Some?
  {
    var offset: nat := start;
    for index := 0 to count
      invariant offset <= |b|
      invariant ParseBody(b[start..], count, check).Some? <==> ParseBody(b[offset..], count - index, check).Some?
    {
      var good, record := ReadRecord(b, offset, check);
      if !good {
        return false;
      }
      offset := offset + RECORD_HEADER_SIZE + |record.payload|;
    }
    ok := offset == |b|;
  }

  method ReadRecord(b: seq<byte>, offset: nat, check: Check) returns (ok: bool, record: Record)
    requires offset <= |b|
    ensures match ParseRecord(b[offset..], check)
      case None => !ok
      case Some(r) =>
        && ok && record == r
        && offset + RECORD_HEADER_SIZE + |r.payload| <= |b|
        && b[offset..][RECORD_HEADER_SIZE + |r.payload|..] == b[offset + RECORD_HEADER_SIZE + |r.payload|..]
  {
    ok, record := false, Record(0, []);
    if |b| - offset < RECORD_HEADER_SIZE {
      return;
    }
    SuffixReads(b, offset);
    var n := GetU32(b, offset + 4);
    if GetU16(b, offset + 2) != 0 || n > |b| - offset - RECORD_HEADER_SIZE {
      return;
    }
    var start := offset + RECORD_HEADER_SIZE;
    record := Record(GetU16(b, offset), b[start..start + n]);
    assert b[offset..][8..8 + n] == b[start..start + n];
    ok := check(record);
  }

  lemma SuffixReads(b: seq<byte>, offset: nat)
    requires offset + 8 <= |b|
    ensures var rest := b[offset..];
      GetU16(rest, 0) == GetU16(b, offset) && GetU16(rest, 2) == GetU16(b, offset + 2) && GetU32(rest, 4) == GetU32(b, offset + 4)
  {
    SuffixField(b, offset, 4);
    assert b[offset..][0..2] == b[offset..offset + 2] && b[offset..][2..4] == b[offset + 2..offset + 4];
  }

  class Cursor {
    const bytes: seq<byte>
    var offset: nat
    var remaining: nat
    ghost var rest: seq<Record>

    ghost predicate Valid()
      reads this
    {
      offset <= |bytes| && bytes[offset..] == Body(rest) && remaining == |rest|
    }

    constructor (b: seq<byte>, ghost check: Check)
      requires Parse(b, check).Accepted?
      ensures Valid() && bytes == b && rest == Parse(b, check).records
    {
      BodyOfParse(b[HEADER_SIZE..], GetU32(b, 12), check);
      bytes := b;
      offset := HEADER_SIZE;
      remaining := GetU32(b, 12);
      rest := Parse(b, check).records;
    }

    // The next record, or 1 when none is left, which is when the offset has reached the end.
    method Next() returns (status: int, record: Record)
      requires Valid()
      modifies this
      ensures Valid()
      ensures status == if old(rest) == [] then 1 else 0
      ensures status == 0 ==> record == old(rest)[0] && rest == old(rest)[1..]
      ensures status == 1 ==> rest == old(rest) && offset == |bytes|
    {
      record := Record(0, []);
      if remaining == 0 {
        return 1, record;
      }
      ghost var after := Body(rest[1..]);
      RecordHeaderReads(rest[0], after);
      SuffixReads(bytes, offset);
      var n := GetU32(bytes, offset + 4);
      var start := offset + RECORD_HEADER_SIZE;
      assert bytes[offset..][8..8 + n] == bytes[start..start + n];
      record := Record(GetU16(bytes, offset), bytes[start..start + n]);
      assert bytes[offset..][8 + n..] == bytes[start + n..];
      offset := start + n;
      remaining := remaining - 1;
      rest := rest[1..];
      status := 0;
    }
  }

  // Validating and then iterating to the end delivers the parsed records in order and stops
  // exactly at the byte length.
  method Walk(b: seq<byte>, check: Check) returns (status: int, records: seq<Record>, end: nat)
    ensures match Parse(b, check)
      case Accepted(_, rs) => status == 0 && records == rs && end == |b|
      case Rejected(s) => status == s
  {
    var info;
    status, info := Validate(b, check);
    records, end := [], 0;
    if status != 0 {
      return;
    }
    var cursor := new Cursor(b, check);
    records := Drain(cursor);
    end := cursor.offset;
  }

  method Drain(cursor: Cursor) returns (records: seq<Record>)
    requires cursor.Valid()
    modifies cursor
    ensures records == old(cursor.rest) && cursor.offset == |cursor.bytes|
  {
    records := [];
    ghost var all := cursor.rest;
    var status, record := cursor.Next();
    while status == 0
      invariant cursor.Valid() && (status == 0 || status == 1)
      invariant status == 0 ==> all == records + [record] + cursor.rest
      invariant status == 1 ==> all == records && cursor.offset == |cursor.bytes|
      decreases |cursor.rest| + if status == 0 then 1 else 0
    {
      records := records + [record];
      ghost var rest := cursor.rest;
      status, record := cursor.Next();
      assert status == 0 ==> rest == [record] + cursor.rest;
    }
  }
}
