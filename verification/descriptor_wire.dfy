/**
 * Descriptor requests on the wire: a fixed prefix followed by an array of
 * fixed-size records.  A decoder re-encodes what it read, and some of them
 * compare the result with the input.
 */
module DescriptorWire {
  import opened Wrappers
  import opened Errno
  import opened Handles
  import opened Wire

  const MAX_PAYLOAD: nat := 4096
  const MAX_LAYOUT_BINDINGS: nat := 32
  const MAX_POOL_SIZES: nat := 16
  const MAX_SETS_PER_ALLOCATE: nat := 16
  const MAX_TEMPLATE_ENTRIES: nat := 32
  const MAX_TEMPLATE_DATA: nat := 0x10_0000
  const MAX_TEMPLATE_VALUES: nat := 64
  const MAX_BOUND_SETS: nat := 8
  const MAX_DYNAMIC_OFFSETS: nat := 32
  const PIPELINE_LAYOUT: nat := 15
  const JOURNAL_REGION_BYTES: nat := 16 * 1024 * 1024
  const JOURNAL_MAX_RECORDS: nat := 64 * 1024
  const TRANSACTION_PREFIX: nat := 32
  const TRANSACTION_MAX_SIZE: nat := 32 + 16 + 16 * 8

  // The codec's own id check, which looks at the top byte alone.
  predicate WireIdIs(value: u64, kind: nat) {
    value / SERIAL_LIMIT % 256 == kind && value % SERIAL_LIMIT != 0
  }

  // It agrees with the handle check for every object type.
  lemma WireIdIsHandle(value: u64, kind: nat)
    requires TypeIsValid(kind)
    ensures WireIdIs(value, kind) <==> Expect(value, kind)
  {
  }

  // ---------------------------------------------------------------- prefix and records

  lemma SplitsBack(prefix: Words, chunks: seq<Words>, size: nat)
    requires AllSized(chunks, size)
    ensures var ws := prefix + Flatten(chunks);
      && |ws| == |prefix| + size * |chunks|
      && Chunks(ws, |prefix|, size, |chunks|) == chunks
      && forall i :: 0 <= i < |prefix| ==> ws[i] == prefix[i]
  {
    ChunksOfFlatten(prefix, chunks, [], size);
    assert prefix + Flatten(chunks) + [] == prefix + Flatten(chunks);
  }

  lemma JoinsBack(ws: Words, prefix: Words, size: nat, n: nat)
    requires |ws| == |prefix| + size * n
    requires forall i :: 0 <= i < |prefix| ==> ws[i] == prefix[i]
    ensures ws == prefix + Flatten(Chunks(ws, |prefix|, size, n))
  {
    FlattenOfChunks(ws, |prefix|, size, n);
    assert ws == ws[..|prefix|] + ws[|prefix|..|prefix| + size * n];
    assert ws[..|prefix|] == prefix;
  }

  function IdsOf(chunks: seq<Words>): (ids: seq<u64>)
    requires AllSized(chunks, 2)
    ensures |ids| == |chunks|
  {
    seq(|chunks|, i requires 0 <= i < |chunks| => Long(chunks[i], 0))
  }

  lemma IdsRoundTrip(ids: seq<u64>, chunks: seq<Words>)
    requires AllSized(chunks, 2)
    ensures IdsOf(LongChunks(ids)) == ids && LongChunks(IdsOf(chunks)) == chunks
  {
    forall i | 0 <= i < |ids| ensures IdsOf(LongChunks(ids))[i] == ids[i] { JoinSplit(ids[i]); }
    forall i | 0 <= i < |chunks| ensures LongChunks(IdsOf(chunks))[i] == chunks[i] {
      assert |chunks[i]| == 2;
    }
  }

  // ---------------------------------------------------------------- set layouts

  datatype Binding = Binding(binding: u32, kind: u32, count: u32, stages: u32, flags: u32)

  datatype LayoutRequest = LayoutRequest(device: u64, flags: u32, hasFlags: u32, bindings: seq<Binding>)

  predicate LayoutIsValid(r: LayoutRequest) {
    && WireIdIs(r.device, DEVICE) && |r.bindings| <= MAX_LAYOUT_BINDINGS && r.hasFlags <= 1
    && (forall i :: 0 <= i < |r.bindings| ==> BindingIsValid(r.bindings[i], r.hasFlags))
    && BindingsAreDistinct(r.bindings)
  }

  predicate BindingIsValid(b: Binding, hasFlags: u32) {
    b.count != 0 && b.stages != 0 && (hasFlags != 0 || b.flags == 0)
  }

  predicate BindingsAreDistinct(bindings: seq<Binding>) {
    forall i, j :: 0 <= i < j < |bindings| ==> bindings[i].binding != bindings[j].binding
  }

  function BindingWords(b: Binding): (ws: Words)
    ensures |ws| == 5
  {
    [b.binding, b.kind, b.count, b.stages, b.flags]
  }

  function BindingChunks(bs: seq<Binding>): (chunks: seq<Words>)
    ensures |chunks| == |bs| && AllSized(chunks, 5)
  {
    seq(|bs|, i requires 0 <= i < |bs| => BindingWords(bs[i]))
  }

  function BindingsOf(chunks: seq<Words>): (bs: seq<Binding>)
    requires AllSized(chunks, 5)
    ensures |bs| == |chunks|
  {
    seq(|chunks|, i requires 0 <= i < |chunks| =>
      Binding(chunks[i][0], chunks[i][1], chunks[i][2], chunks[i][3], chunks[i][4]))
  }

  function CreatePrefix(device: u64, flags: u32, second: u32, third: u32): (ws: Words)
    ensures |ws| == 6
  {
    [Lo(device), Hi(device), flags, second, third, 0]
  }

  function LayoutWords(r: LayoutRequest): Words
    requires LayoutIsValid(r)
  {
    CreatePrefix(r.device, r.flags, |r.bindings|, r.hasFlags) + Flatten(BindingChunks(r.bindings))
  }

  function DecodeLayoutWords(ws: Words, length: nat): Result<LayoutRequest>
    requires |ws| == length / 4
  {
    if length < 24 || ws[5] != 0 then Fail(EINVAL)
    else if ws[3] > MAX_LAYOUT_BINDINGS || length != 24 + 20 * ws[3] then Fail(EPROTO)
    else
      var r := LayoutRequest(Long(ws, 0), ws[2], ws[4], BindingsOf(Chunks(ws, 6, 5, ws[3])));
      if LayoutIsValid(r) then Ok(r) else Fail(EPROTO)
  }

  function DecodeLayout(b: seq<byte>): Result<LayoutRequest> {
    DecodeLayoutWords(ToWords(b), |b|)
  }

  lemma LayoutRoundTrip(r: LayoutRequest)
    requires LayoutIsValid(r)
    ensures DecodeLayout(ToBytes(LayoutWords(r))) == Ok(r)
  {
    var prefix, chunks := CreatePrefix(r.device, r.flags, |r.bindings|, r.hasFlags), BindingChunks(r.bindings);
    WordsRoundTrip(LayoutWords(r));
    SplitsBack(prefix, chunks, 5);
    JoinSplit(r.device);
    assert BindingsOf(chunks) == r.bindings;
  }

  lemma LayoutWordsAreCanonical(ws: Words, length: nat)
    requires |ws| == length / 4 && DecodeLayoutWords(ws, length).Ok?
    ensures var r := DecodeLayoutWords(ws, length).value; LayoutIsValid(r) && LayoutWords(r) == ws && length == 4 * |ws|
  {
    var r := DecodeLayoutWords(ws, length).value;
    var chunks := Chunks(ws, 6, 5, ws[3]);
    forall i | 0 <= i < |chunks| ensures BindingChunks(BindingsOf(chunks))[i] == chunks[i] {
      assert |chunks[i]| == 5;
    }
    assert BindingChunks(BindingsOf(chunks)) == chunks;
    JoinsBack(ws, CreatePrefix(r.device, r.flags, ws[3], r.hasFlags), 5, ws[3]);
  }

  // No comparison is made here, and none is needed: accepted bytes are the encoding.
  lemma LayoutIsCanonical(b: seq<byte>)
    requires DecodeLayout(b).Ok?
    ensures var r := DecodeLayout(b).value;
      LayoutIsValid(r) && BindingsAreDistinct(r.bindings) && ToBytes(LayoutWords(r)) == b
  {
    LayoutWordsAreCanonical(ToWords(b), |b|);
    BytesRoundTrip(b);
  }

  // ---------------------------------------------------------------- pools

  datatype PoolSize = PoolSize(kind: u32, count: u32)

  datatype PoolRequest = PoolRequest(device: u64, flags: u32, maxSets: u32, sizes: seq<PoolSize>)

  predicate PoolIsValid(r: PoolRequest) {
    && WireIdIs(r.device, DEVICE) && r.maxSets != 0 && 0 < |r.sizes| <= MAX_POOL_SIZES
    && (forall i :: 0 <= i < |r.sizes| ==> r.sizes[i].count != 0)
    && PoolTypesAreDistinct(r.sizes)
  }

  predicate PoolTypesAreDistinct(sizes: seq<PoolSize>) {
    forall i, j :: 0 <= i < j < |sizes| ==> sizes[i].kind != sizes[j].kind
  }

  function PoolChunks(sizes: seq<PoolSize>): (chunks: seq<Words>)
    ensures |chunks| == |sizes| && AllSized(chunks, 2)
  {
    seq(|sizes|, i requires 0 <= i < |sizes| => [sizes[i].kind, sizes[i].count])
  }

  function PoolSizesOf(chunks: seq<Words>): (sizes: seq<PoolSize>)
    requires AllSized(chunks, 2)
    ensures |sizes| == |chunks|
  {
    seq(|chunks|, i requires 0 <= i < |chunks| => PoolSize(chunks[i][0], chunks[i][1]))
  }

  function PoolWords(r: PoolRequest): Words
    requires PoolIsValid(r)
  {
    CreatePrefix(r.device, r.flags, r.maxSets, |r.sizes|) + Flatten(PoolChunks(r.sizes))
  }

  function DecodePoolWords(ws: Words, length: nat): Result<PoolRequest>
    requires |ws| == length / 4
  {
    if length < 24 || ws[5] != 0 then Fail(EINVAL)
    else if ws[4] > MAX_POOL_SIZES || length != 24 + 8 * ws[4] then Fail(EPROTO)
    else
      var r := PoolRequest(Long(ws, 0), ws[2], ws[3], PoolSizesOf(Chunks(ws, 6, 2, ws[4])));
      if PoolIsValid(r) then Ok(r) else Fail(EPROTO)
  }

  function DecodePool(b: seq<byte>): Result<PoolRequest> {
    DecodePoolWords(ToWords(b), |b|)
  }

  lemma PoolRoundTrip(r: PoolRequest)
    requires PoolIsValid(r)
    ensures DecodePool(ToBytes(PoolWords(r))) == Ok(r)
  {
    var prefix, chunks := CreatePrefix(r.device, r.flags, r.maxSets, |r.sizes|), PoolChunks(r.sizes);
    WordsRoundTrip(PoolWords(r));
    SplitsBack(prefix, chunks, 2);
    JoinSplit(r.device);
    assert PoolSizesOf(chunks) == r.sizes;
  }

  lemma PoolWordsAreCanonical(ws: Words, length: nat)
    requires |ws| == length / 4 && DecodePoolWords(ws, length).Ok?
    ensures var r := DecodePoolWords(ws, length).value; PoolIsValid(r) && PoolWords(r) == ws && length == 4 * |ws|
  {
    var r := DecodePoolWords(ws, length).value;
    var chunks := Chunks(ws, 6, 2, ws[4]);
    forall i | 0 <= i < |chunks| ensures PoolChunks(PoolSizesOf(chunks))[i] == chunks[i] {
      assert |chunks[i]| == 2;
    }
    assert PoolChunks(PoolSizesOf(chunks)) == chunks;
    JoinsBack(ws, CreatePrefix(r.device, r.flags, r.maxSets, ws[4]), 2, ws[4]);
  }

  lemma PoolIsCanonical(b: seq<byte>)
    requires DecodePool(b).Ok?
    ensures var r := DecodePool(b).value;
      PoolIsValid(r) && PoolTypesAreDistinct(r.sizes) && ToBytes(PoolWords(r)) == b
  {
    PoolWordsAreCanonical(ToWords(b), |b|);
    BytesRoundTrip(b);
  }

  // ---------------------------------------------------------------- allocation

  datatype AllocateRequest = AllocateRequest(pool: u64, layouts: seq<u64>)

  predicate AllocateIsValid(r: AllocateRequest) {
    && WireIdIs(r.pool, DESCRIPTOR_POOL) && 0 < |r.layouts| <= MAX_SETS_PER_ALLOCATE
    && forall i :: 0 <= i < |r.layouts| ==> WireIdIs(r.layouts[i], DESCRIPTOR_SET_LAYOUT)
  }

  function AllocatePrefix(pool: u64, count: u32): (ws: Words)
    ensures |ws| == 4
  {
    [Lo(pool), Hi(pool), count, 0]
  }

  function AllocateWords(r: AllocateRequest): (ws: Words)
    requires AllocateIsValid(r)
  {
    AllocatePrefix(r.pool, |r.layouts|) + Flatten(LongChunks(r.layouts))
  }

  function DecodeAllocateWords(ws: Words, length: nat): Result<AllocateRequest>
    requires |ws| == length / 4
  {
    if length < 16 || ws[3] != 0 then Fail(EINVAL)
    else if ws[2] == 0 || ws[2] > MAX_SETS_PER_ALLOCATE || length != 16 + 8 * ws[2] then Fail(EPROTO)
    else
      var r := AllocateRequest(Long(ws, 0), IdsOf(Chunks(ws, 4, 2, ws[2])));
      if AllocateIsValid(r) then Ok(r) else Fail(EPROTO)
  }

  function DecodeAllocate(b: seq<byte>): Result<AllocateRequest> {
    DecodeAllocateWords(ToWords(b), |b|)
  }

  lemma AllocateRoundTrip(r: AllocateRequest)
    requires AllocateIsValid(r)
    ensures DecodeAllocate(ToBytes(AllocateWords(r))) == Ok(r)
    ensures |ToBytes(AllocateWords(r))| == 16 + 8 * |r.layouts|
  {
    var prefix, chunks := AllocatePrefix(r.pool, |r.layouts|), LongChunks(r.layouts);
    WordsRoundTrip(AllocateWords(r));
    SplitsBack(prefix, chunks, 2);
    JoinSplit(r.pool);
    IdsRoundTrip(r.layouts, chunks);
  }

  lemma AllocateWordsAreCanonical(ws: Words, length: nat)
    requires |ws| == length / 4 && DecodeAllocateWords(ws, length).Ok?
    ensures var r := DecodeAllocateWords(ws, length).value; AllocateIsValid(r) && AllocateWords(r) == ws && length == 4 * |ws|
  {
    var r := DecodeAllocateWords(ws, length).value;
    IdsRoundTrip([], Chunks(ws, 4, 2, ws[2]));
    JoinsBack(ws, AllocatePrefix(r.pool, ws[2]), 2, ws[2]);
  }

  lemma AllocateIsCanonical(b: seq<byte>)
    requires DecodeAllocate(b).Ok?
    ensures var r := DecodeAllocate(b).value; AllocateIsValid(r) && ToBytes(AllocateWords(r)) == b
  {
    AllocateWordsAreCanonical(ToWords(b), |b|);
    BytesRoundTrip(b);
  }

  // An allocation that carries a journal to be replayed first.
  datatype TransactionRequest =
    TransactionRequest(generation: u64, sequence: u64, length: u32, count: u32, allocation: AllocateRequest)

  predicate JournalFieldsAreValid(generation: u64, sequence: u64, length: u32, count: u32) {
    && generation != 0 && sequence != 0 && length <= JOURNAL_REGION_BYTES && count <= JOURNAL_MAX_RECORDS
    && (length == 0 <==> count == 0)
  }

  predicate TransactionIsValid(r: TransactionRequest) {
    JournalFieldsAreValid(r.generation, r.sequence, r.length, r.count) && AllocateIsValid(r.allocation)
  }

  function TransactionPrefix(generation: u64, sequence: u64, length: u32, count: u32, allocation: u32): (ws: Words)
    ensures |ws| == 8
  {
    [Lo(generation), Hi(generation), Lo(sequence), Hi(sequence), length, count, allocation, 0]
  }

  function TransactionBytes(r: TransactionRequest): seq<byte>
    requires TransactionIsValid(r)
  {
    AllocateRoundTrip(r.allocation);
    var allocation := ToBytes(AllocateWords(r.allocation));
    ToBytes(TransactionPrefix(r.generation, r.sequence, r.length, r.count, |allocation|)) + allocation
  }

  function DecodeTransactionWords(ws: Words, tail: seq<byte>, length: nat): Result<TransactionRequest>
    requires |ws| == length / 4
  {
    if length < TRANSACTION_PREFIX + 16 then Fail(EINVAL)
    else if !JournalFieldsAreValid(Long(ws, 0), Long(ws, 2), ws[4], ws[5]) || ws[7] != 0
      || ws[6] > TRANSACTION_MAX_SIZE - TRANSACTION_PREFIX || length != TRANSACTION_PREFIX + ws[6] then Fail(EPROTO)
    else
      match DecodeAllocate(tail)
      case Fail(status) => Fail(status)
      case Ok(allocation) =>
        var r := TransactionRequest(Long(ws, 0), Long(ws, 2), ws[4], ws[5], allocation);
        if TransactionIsValid(r) then Ok(r) else Fail(EPROTO)
  }

  function DecodeTransaction(b: seq<byte>, compare: bool): Result<TransactionRequest> {
    var d := DecodeTransactionWords(ToWords(b), if |b| < TRANSACTION_PREFIX then [] else b[TRANSACTION_PREFIX..], |b|);
    if d.Ok? && compare && (!TransactionIsValid(d.value) || TransactionBytes(d.value) != b) then Fail(EPROTO) else d
  }

  lemma PrefixWords(prefix: Words, rest: seq<byte>)
    ensures var b := ToBytes(prefix) + rest;
      && |ToWords(b)| >= |prefix|
      && forall i :: 0 <= i < |prefix| ==> ToWords(b)[i] == prefix[i]
  {
    var b := ToBytes(prefix) + rest;
    forall i | 0 <= i < |prefix| ensures ToWords(b)[i] == prefix[i] {
      WordReads(prefix, rest, i);
      FieldIsWord(b, i);
    }
  }

  lemma {:induction false} PrefixRebuilds(b: seq<byte>, prefix: Words)
    requires 4 * |prefix| <= |b| && |ToWords(b)| >= |prefix|
    requires forall i :: 0 <= i < |prefix| ==> ToWords(b)[i] == prefix[i]
    ensures b == ToBytes(prefix) + b[4 * |prefix|..]
  {
    forall i | 0 <= i < |prefix| ensures FieldIs(b, i, prefix[i]) { FieldIsWord(b, i); }
    PrefixFields(b, 4 * |prefix|, prefix);
    FieldsDetermineBytes(b[..4 * |prefix|], prefix);
  }

  lemma TransactionRoundTrip(r: TransactionRequest, compare: bool)
    requires TransactionIsValid(r)
    ensures DecodeTransaction(TransactionBytes(r), compare) == Ok(r)
  {
    AllocateRoundTrip(r.allocation);
    var allocation := ToBytes(AllocateWords(r.allocation));
    var prefix := TransactionPrefix(r.generation, r.sequence, r.length, r.count, |allocation|);
    PrefixWords(prefix, allocation);
    JoinSplit(r.generation);
    JoinSplit(r.sequence);
    assert TransactionBytes(r)[TRANSACTION_PREFIX..] == allocation;
  }

  lemma TransactionPrefixIsCanonical(ws: Words, tail: seq<byte>, length: nat)
    requires |ws| == length / 4 && DecodeTransactionWords(ws, tail, length).Ok?
    ensures var r := DecodeTransactionWords(ws, tail, length).value;
      && TransactionIsValid(r) && DecodeAllocate(tail) == Ok(r.allocation) && |ws| >= 8 && length == TRANSACTION_PREFIX + ws[6]
      && forall i :: 0 <= i < 8 ==> ws[i] == TransactionPrefix(r.generation, r.sequence, r.length, r.count, ws[6])[i]
  {
  }

  lemma TransactionRebuilds(b: seq<byte>)
    requires DecodeTransaction(b, false).Ok?
    ensures var r := DecodeTransaction(b, false).value; TransactionIsValid(r) && TransactionBytes(r) == b
  {
    var ws, r, tail := ToWords(b), DecodeTransaction(b, false).value, b[TRANSACTION_PREFIX..];
    TransactionPrefixIsCanonical(ws, tail, |b|);
    AllocateIsCanonical(tail);
    var n := ws[6];
    assert |tail| == n;
    PrefixRebuilds(b, TransactionPrefix(r.generation, r.sequence, r.length, r.count, n));
  }

  // The comparison never rejects: every field the encoder writes was already checked.
  lemma TransactionIsCanonical(b: seq<byte>)
    ensures DecodeTransaction(b, true) == DecodeTransaction(b, false)
    ensures DecodeTransaction(b, true).Ok? ==>
      var r := DecodeTransaction(b, true).value; TransactionIsValid(r) && TransactionBytes(r) == b
  {
    if DecodeTransaction(b, false).Ok? { TransactionRebuilds(b); }
  }

  // ---------------------------------------------------------------- update templates

  datatype TemplateEntry = TemplateEntry(binding: u32, element: u32, count: u32, kind: u32, offset: u64, stride: u64)

  datatype TemplateRequest = TemplateRequest(
    device: u64, flags: u32, templateType: u32, setNumber: u32, layout: u64, pipelineLayout: u64, bindPoint: u32,
    entries: seq<TemplateEntry>)

  // The bound is checked by division, so that nothing can overflow 64 bits.
  predicate EntryIsBounded(e: TemplateEntry) {
    && e.count != 0 && e.kind <= 10 && e.stride != 0
    && e.offset < MAX_TEMPLATE_DATA && e.stride <= MAX_TEMPLATE_DATA
    && e.count - 1 <= (MAX_TEMPLATE_DATA - 1 - e.offset) / e.stride
  }

  // Over the integers: the last descriptor of an entry starts inside the template data.
  lemma BoundedEntryFits(e: TemplateEntry)
    ensures EntryIsBounded(e) <==>
      && e.count != 0 && e.kind <= 10 && e.stride != 0 && e.stride <= MAX_TEMPLATE_DATA
      && e.offset + (e.count - 1) * e.stride < MAX_TEMPLATE_DATA
  {
    if e.count != 0 && e.stride != 0 {
      if e.offset < MAX_TEMPLATE_DATA {
        QuotientBound(e.count - 1, MAX_TEMPLATE_DATA - 1 - e.offset, e.stride);
      } else {
        ProductIsNat(e.count - 1, e.stride);
      }
    }
  }

  lemma ProductIsNat(a: nat, b: nat)
    ensures a * b >= 0
  {
  }

  lemma QuotientBound(n: nat, room: nat, stride: nat)
    requires stride > 0
    ensures n <= room / stride <==> n * stride <= room
  {
    var q := room / stride;
    assert room == stride * q + room % stride;
    if n <= q {
      ProductIsNat(q - n, stride);
      assert (q - n) * stride == q * stride - n * stride;
    } else {
      ProductIsNat(n - q - 1, stride);
      assert (n - q - 1) * stride == n * stride - q * stride - stride;
    }
  }

  predicate TemplateIsValid(r: TemplateRequest) {
    && WireIdIs(r.device, DEVICE) && WireIdIs(r.layout, DESCRIPTOR_SET_LAYOUT)
    && r.flags == 0 && r.templateType == 0 && r.setNumber == 0 && r.pipelineLayout == 0 && r.bindPoint == 0
    && 0 < |r.entries| <= MAX_TEMPLATE_ENTRIES
    && forall i :: 0 <= i < |r.entries| ==> EntryIsBounded(r.entries[i])
  }

  function EntryWords(e: TemplateEntry): (ws: Words)
    ensures |ws| == 8
  {
    [e.binding, e.element, e.count, e.kind, Lo(e.offset), Hi(e.offset), Lo(e.stride), Hi(e.stride)]
  }

  function EntryAt(ws: Words): TemplateEntry
    requires |ws| == 8
  {
    TemplateEntry(ws[0], ws[1], ws[2], ws[3], Long(ws, 4), Long(ws, 6))
  }

  function EntryChunks(es: seq<TemplateEntry>): (chunks: seq<Words>)
    ensures |chunks| == |es| && AllSized(chunks, 8)
  {
    seq(|es|, i requires 0 <= i < |es| => EntryWords(es[i]))
  }

  function EntriesOf(chunks: seq<Words>): (es: seq<TemplateEntry>)
    requires AllSized(chunks, 8)
    ensures |es| == |chunks|
  {
    seq(|chunks|, i requires 0 <= i < |chunks| => EntryAt(chunks[i]))
  }

  lemma EntriesRoundTrip(es: seq<TemplateEntry>, chunks: seq<Words>)
    requires AllSized(chunks, 8)
    ensures EntriesOf(EntryChunks(es)) == es && EntryChunks(EntriesOf(chunks)) == chunks
  {
    forall i | 0 <= i < |es| ensures EntryAt(EntryWords(es[i])) == es[i] {
      JoinSplit(es[i].offset);
      JoinSplit(es[i].stride);
    }
    assert EntriesOf(EntryChunks(es)) == es;
    forall i | 0 <= i < |chunks| ensures EntryWords(EntryAt(chunks[i])) == chunks[i] {
      assert |chunks[i]| == 8;
    }
    assert EntryChunks(EntriesOf(chunks)) == chunks;
  }

  function TemplatePrefix(r: TemplateRequest, count: u32): (ws: Words)
    ensures |ws| == 12
  {
    [Lo(r.device), Hi(r.device), r.flags, count, r.templateType, r.setNumber, Lo(r.layout), Hi(r.layout),
     Lo(r.pipelineLayout), Hi(r.pipelineLayout), r.bindPoint, 0]
  }

  function TemplateWords(r: TemplateRequest): Words
    requires TemplateIsValid(r)
  {
    TemplatePrefix(r, |r.entries|) + Flatten(EntryChunks(r.entries))
  }

  function DecodeTemplateWords(ws: Words, length: nat): Result<TemplateRequest>
    requires |ws| == length / 4
  {
    if length < 48 || ws[11] != 0 then Fail(EINVAL)
    else if ws[3] == 0 || ws[3] > MAX_TEMPLATE_ENTRIES || length != 48 + 32 * ws[3] then Fail(EPROTO)
    else
      var r := TemplateRequest(Long(ws, 0), ws[2], ws[4], ws[5], Long(ws, 6), Long(ws, 8), ws[10],
                               EntriesOf(Chunks(ws, 12, 8, ws[3])));
      if TemplateIsValid(r) then Ok(r) else Fail(EPROTO)
  }

  function DecodeTemplate(b: seq<byte>, compare: bool): Result<TemplateRequest> {
    var d := DecodeTemplateWords(ToWords(b), |b|);
    if d.Ok? && compare && (!TemplateIsValid(d.value) || ToBytes(TemplateWords(d.value)) != b) then Fail(EPROTO) else d
  }

  lemma TemplateReads(r: TemplateRequest)
    requires TemplateIsValid(r)
    ensures DecodeTemplateWords(TemplateWords(r), 4 * |TemplateWords(r)|) == Ok(r)
  {
    var prefix, chunks := TemplatePrefix(r, |r.entries|), EntryChunks(r.entries);
    SplitsBack(prefix, chunks, 8);
    JoinSplit(r.device);
    JoinSplit(r.layout);
    JoinSplit(r.pipelineLayout);
    EntriesRoundTrip(r.entries, chunks);
  }

  lemma TemplateRoundTrip(r: TemplateRequest, compare: bool)
    requires TemplateIsValid(r)
    ensures DecodeTemplate(ToBytes(TemplateWords(r)), compare) == Ok(r)
  {
    WordsRoundTrip(TemplateWords(r));
    TemplateReads(r);
  }

  lemma TemplateWordsAreCanonical(ws: Words, length: nat)
    requires |ws| == length / 4 && DecodeTemplateWords(ws, length).Ok?
    ensures var r := DecodeTemplateWords(ws, length).value; TemplateIsValid(r) && TemplateWords(r) == ws && length == 4 * |ws|
  {
    var r := DecodeTemplateWords(ws, length).value;
    EntriesRoundTrip([], Chunks(ws, 12, 8, ws[3]));
    JoinsBack(ws, TemplatePrefix(r, ws[3]), 8, ws[3]);
  }

  lemma TemplateIsCanonical(b: seq<byte>)
    ensures DecodeTemplate(b, true) == DecodeTemplate(b, false)
    ensures DecodeTemplate(b, true).Ok? ==>
      var r := DecodeTemplate(b, true).value;
      && TemplateIsValid(r) && ToBytes(TemplateWords(r)) == b
      && forall i :: 0 <= i < |r.entries| ==> EntryFits(r.entries[i])
  {
    if DecodeTemplate(b, false).Ok? {
      TemplateWordsAreCanonical(ToWords(b), |b|);
      BytesRoundTrip(b);
      var r := DecodeTemplate(b, false).value;
      forall i | 0 <= i < |r.entries| ensures EntryFits(r.entries[i]) { BoundedEntryFits(r.entries[i]); }
    }
  }

  predicate EntryFits(e: TemplateEntry) {
    e.count > 0 && e.offset + (e.count - 1) * e.stride < MAX_TEMPLATE_DATA
  }

  // ---------------------------------------------------------------- template updates

  datatype TemplateValue = TemplateValue(kind: u32, imageLayout: u32, resource: u64, auxiliary: u64, offset: u64, range: u64)

  datatype UpdateRequest = UpdateRequest(device: u64, descriptorSet: u64, template: u64, values: seq<TemplateValue>)

  predicate ZeroOr(id: u64, kind: nat) {
    id == 0 || WireIdIs(id, kind)
  }

  predicate ValueIsCanonical(v: TemplateValue) {
    match v.kind
    case 0 => ZeroOr(v.resource, SAMPLER) && v.auxiliary == 0 && v.imageLayout == 0 && v.offset == 0 && v.range == 0
    case 1 => ZeroOr(v.resource, IMAGE_VIEW) && ZeroOr(v.auxiliary, SAMPLER) && v.offset == 0 && v.range == 0
    case 4 => v.resource == 0 && v.auxiliary == 0 && v.imageLayout == 0 && v.offset == 0 && v.range == 0
    case 5 => v.resource == 0 && v.auxiliary == 0 && v.imageLayout == 0 && v.offset == 0 && v.range == 0
    case k =>
      if k == 2 || k == 3 || k == 10 then ZeroOr(v.resource, IMAGE_VIEW) && v.auxiliary == 0 && v.offset == 0 && v.range == 0
      else 6 <= k <= 9 && ZeroOr(v.resource, BUFFER) && v.auxiliary == 0 && v.imageLayout == 0
  }

  predicate UpdateIsValid(r: UpdateRequest) {
    && WireIdIs(r.device, DEVICE) && WireIdIs(r.descriptorSet, DESCRIPTOR_SET)
    && WireIdIs(r.template, DESCRIPTOR_UPDATE_TEMPLATE)
    && 0 < |r.values| <= MAX_TEMPLATE_VALUES
    && forall i :: 0 <= i < |r.values| ==> ValueIsCanonical(r.values[i])
  }

  function ValueWords(v: TemplateValue): (ws: Words)
    ensures |ws| == 10
  {
    [v.kind, v.imageLayout, Lo(v.resource), Hi(v.resource), Lo(v.auxiliary), Hi(v.auxiliary),
     Lo(v.offset), Hi(v.offset), Lo(v.range), Hi(v.range)]
  }

  function ValueAt(ws: Words): TemplateValue
    requires |ws| == 10
  {
    TemplateValue(ws[0], ws[1], Long(ws, 2), Long(ws, 4), Long(ws, 6), Long(ws, 8))
  }

  function ValueChunks(vs: seq<TemplateValue>): (chunks: seq<Words>)
    ensures |chunks| == |vs| && AllSized(chunks, 10)
  {
    seq(|vs|, i requires 0 <= i < |vs| => ValueWords(vs[i]))
  }

  function ValuesOf(chunks: seq<Words>): (vs: seq<TemplateValue>)
    requires AllSized(chunks, 10)
    ensures |vs| == |chunks|
  {
    seq(|chunks|, i requires 0 <= i < |chunks| => ValueAt(chunks[i]))
  }

  lemma ValuesRoundTrip(vs: seq<TemplateValue>, chunks: seq<Words>)
    requires AllSized(chunks, 10)
    ensures ValuesOf(ValueChunks(vs)) == vs && ValueChunks(ValuesOf(chunks)) == chunks
  {
    forall i | 0 <= i < |vs| ensures ValueAt(ValueWords(vs[i])) == vs[i] {
      JoinSplit(vs[i].resource);
      JoinSplit(vs[i].auxiliary);
      JoinSplit(vs[i].offset);
      JoinSplit(vs[i].range);
    }
    assert ValuesOf(ValueChunks(vs)) == vs;
    forall i | 0 <= i < |chunks| ensures ValueWords(ValueAt(chunks[i])) == chunks[i] {
      assert |chunks[i]| == 10;
    }
    assert ValueChunks(ValuesOf(chunks)) == chunks;
  }

  function UpdatePrefix(device: u64, descriptorSet: u64, template: u64, count: u32): (ws: Words)
    ensures |ws| == 8
  {
    [Lo(device), Hi(device), Lo(descriptorSet), Hi(descriptorSet), Lo(template), Hi(template), count, 0]
  }

  function UpdateWords(r: UpdateRequest): (ws: Words)
    requires UpdateIsValid(r)
    ensures |ws| == 8 + 10 * |r.values|
  {
    FlattenLength(ValueChunks(r.values), 10);
    UpdatePrefix(r.device, r.descriptorSet, r.template, |r.values|) + Flatten(ValueChunks(r.values))
  }

  function DecodeUpdateWords(ws: Words, length: nat): Result<UpdateRequest>
    requires |ws| == length / 4
  {
    if length < 32 || ws[7] != 0 then Fail(EINVAL)
    else if ws[6] == 0 || ws[6] > MAX_TEMPLATE_VALUES || length != 32 + 40 * ws[6] then Fail(EPROTO)
    else
      var r := UpdateRequest(Long(ws, 0), Long(ws, 2), Long(ws, 4), ValuesOf(Chunks(ws, 8, 10, ws[6])));
      if UpdateIsValid(r) then Ok(r) else Fail(EPROTO)
  }

  function DecodeUpdate(b: seq<byte>, compare: bool): Result<UpdateRequest> {
    var d := DecodeUpdateWords(ToWords(b), |b|);
    if d.Ok? && compare && (!UpdateIsValid(d.value) || ToBytes(UpdateWords(d.value)) != b) then Fail(EPROTO) else d
  }

  lemma UpdateReads(r: UpdateRequest)
    requires UpdateIsValid(r)
    ensures DecodeUpdateWords(UpdateWords(r), 4 * |UpdateWords(r)|) == Ok(r)
  {
    var prefix, chunks := UpdatePrefix(r.device, r.descriptorSet, r.template, |r.values|), ValueChunks(r.values);
    SplitsBack(prefix, chunks, 10);
    JoinSplit(r.device);
    JoinSplit(r.descriptorSet);
    JoinSplit(r.template);
    ValuesRoundTrip(r.values, chunks);
  }

  lemma UpdateRoundTrip(r: UpdateRequest, compare: bool)
    requires UpdateIsValid(r)
    ensures DecodeUpdate(ToBytes(UpdateWords(r)), compare) == Ok(r)
  {
    WordsRoundTrip(UpdateWords(r));
    UpdateReads(r);
  }

  // Every update fits a payload and is a whole number of 64-bit units.
  lemma UpdateSize(r: UpdateRequest)
    requires UpdateIsValid(r)
    ensures 0 < |ToBytes(UpdateWords(r))| <= MAX_PAYLOAD && |ToBytes(UpdateWords(r))| % 8 == 0
  {
  }

  lemma UpdateWordsAreCanonical(ws: Words, length: nat)
    requires |ws| == length / 4 && DecodeUpdateWords(ws, length).Ok?
    ensures var r := DecodeUpdateWords(ws, length).value; UpdateIsValid(r) && UpdateWords(r) == ws && length == 4 * |ws|
  {
    var r := DecodeUpdateWords(ws, length).value;
    ValuesRoundTrip([], Chunks(ws, 8, 10, ws[6]));
    JoinsBack(ws, UpdatePrefix(r.device, r.descriptorSet, r.template, ws[6]), 10, ws[6]);
  }

  lemma UpdateIsCanonical(b: seq<byte>)
    ensures DecodeUpdate(b, true) == DecodeUpdate(b, false)
    ensures DecodeUpdate(b, true).Ok? ==>
      var r := DecodeUpdate(b, true).value; UpdateIsValid(r) && ToBytes(UpdateWords(r)) == b
  {
    if DecodeUpdate(b, false).Ok? {
      UpdateWordsAreCanonical(ToWords(b), |b|);
      BytesRoundTrip(b);
    }
  }

  // ---------------------------------------------------------------- binding sets

  datatype BindRequest = BindRequest(
    commandBuffer: u64, pipelineLayout: u64, bindPoint: u32, first: u32, sets: seq<u64>, offsets: seq<u32>)

  predicate BindIsValid(r: BindRequest) {
    && WireIdIs(r.commandBuffer, COMMAND_BUFFER) && WireIdIs(r.pipelineLayout, PIPELINE_LAYOUT) && r.bindPoint <= 1
    && 0 < |r.sets| <= MAX_BOUND_SETS && |r.offsets| <= MAX_DYNAMIC_OFFSETS
    && forall i :: 0 <= i < |r.sets| ==> WireIdIs(r.sets[i], DESCRIPTOR_SET)
  }

  function BindPrefix(r: BindRequest, sets: u32, offsets: u32): (ws: Words)
    ensures |ws| == 8
  {
    [Lo(r.commandBuffer), Hi(r.commandBuffer), Lo(r.pipelineLayout), Hi(r.pipelineLayout), r.bindPoint, r.first, sets, offsets]
  }

  function BindWords(r: BindRequest): Words
    requires BindIsValid(r)
  {
    BindPrefix(r, |r.sets|, |r.offsets|) + Flatten(LongChunks(r.sets)) + r.offsets
  }

  function DecodeBindWords(ws: Words, length: nat): Result<BindRequest>
    requires |ws| == length / 4
  {
    if length < 32 then Fail(EINVAL)
    else if ws[6] == 0 || ws[6] > MAX_BOUND_SETS || ws[7] > MAX_DYNAMIC_OFFSETS || length != 32 + 8 * ws[6] + 4 * ws[7] then
      Fail(EPROTO)
    else
      var r := BindRequest(Long(ws, 0), Long(ws, 2), ws[4], ws[5], IdsOf(Chunks(ws, 8, 2, ws[6])), ws[8 + 2 * ws[6]..]);
      if BindIsValid(r) then Ok(r) else Fail(EPROTO)
  }

  function DecodeBind(b: seq<byte>, compare: bool): Result<BindRequest> {
    var d := DecodeBindWords(ToWords(b), |b|);
    if d.Ok? && compare && (!BindIsValid(d.value) || ToBytes(BindWords(d.value)) != b) then Fail(EPROTO) else d
  }

  lemma BindReads(r: BindRequest)
    requires BindIsValid(r)
    ensures DecodeBindWords(BindWords(r), 4 * |BindWords(r)|) == Ok(r)
  {
    var prefix, ids := BindPrefix(r, |r.sets|, |r.offsets|), Flatten(LongChunks(r.sets));
    ChunksOfFlatten(prefix, LongChunks(r.sets), r.offsets, 2);
    JoinSplit(r.commandBuffer);
    JoinSplit(r.pipelineLayout);
    IdsRoundTrip(r.sets, LongChunks(r.sets));
    var ws := prefix + ids + r.offsets;
    assert forall i :: 0 <= i < 8 ==> ws[i] == prefix[i];
    assert ws[8 + 2 * |r.sets|..] == r.offsets;
  }

  lemma BindRoundTrip(r: BindRequest, compare: bool)
    requires BindIsValid(r)
    ensures DecodeBind(ToBytes(BindWords(r)), compare) == Ok(r)
  {
    WordsRoundTrip(BindWords(r));
    BindReads(r);
  }

  lemma BindWordsAreCanonical(ws: Words, length: nat)
    requires |ws| == length / 4 && DecodeBindWords(ws, length).Ok?
    ensures var r := DecodeBindWords(ws, length).value; BindIsValid(r) && BindWords(r) == ws && length == 4 * |ws|
  {
    var r := DecodeBindWords(ws, length).value;
    IdsRoundTrip([], Chunks(ws, 8, 2, ws[6]));
    var cut := 8 + 2 * ws[6];
    JoinsBack(ws[..cut], BindPrefix(r, ws[6], ws[7]), 2, ws[6]);
    ChunksOfPrefix(ws, cut, 8, 2, ws[6]);
    assert ws == ws[..cut] + ws[cut..];
  }

  lemma {:induction false} ChunksOfPrefix(ws: Words, cut: nat, at: nat, size: nat, n: nat)
    requires at + size * n <= cut <= |ws|
    ensures Chunks(ws[..cut], at, size, n) == Chunks(ws, at, size, n)
    decreases n
  {
    if n > 0 {
      assert size * n == size + size * (n - 1);
      assert ws[..cut][at..at + size] == ws[at..at + size];
      ChunksOfPrefix(ws, cut, at + size, size, n - 1);
    }
  }

  lemma BindIsCanonical(b: seq<byte>)
    ensures DecodeBind(b, true) == DecodeBind(b, false)
    ensures DecodeBind(b, true).Ok? ==>
      var r := DecodeBind(b, true).value; BindIsValid(r) && ToBytes(BindWords(r)) == b
  {
    if DecodeBind(b, false).Ok? {
      BindWordsAreCanonical(ToWords(b), |b|);
      BytesRoundTrip(b);
    }
  }
}
