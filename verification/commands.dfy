/**
 * Command payloads: what an append accepts and writes, what the validator
 * accepts, and what a decoder reads back.
 */
module Commands {
  import opened Errno
  import opened Handles
  import opened Wire

  const FILL_BUFFER: u16 := 7
  const IMAGE_BARRIER_2: u16 := 10
  const CLEAR_COLOR_IMAGE_GENERAL: u16 := 11
  const COPY_BUFFER_2: u16 := 14
  const COPY_BUFFER_TO_IMAGE_2: u16 := 15
  const COPY_IMAGE_TO_BUFFER_2: u16 := 16
  const BLIT_IMAGE_2: u16 := 18
  const RESOLVE_IMAGE_2: u16 := 19
  const INIT_IMAGE_BARRIER: u16 := 22
  const END: u16 := 23
  const UPDATE_BUFFER: u16 := 36
  const QUERY: u16 := 37

  const MAX_INIT_IMAGE_BARRIERS: nat := 4
  const MAX_MEMORY_BARRIERS: nat := 64
  const MAX_BUFFER_BARRIERS: nat := 256
  const MAX_IMAGE_BARRIERS: nat := 2048
  const MAX_CLEAR_RANGES: nat := 4
  const MAX_TRANSFER_REGIONS: nat := 16
  const MAX_UPDATE_BUFFER_BYTES: nat := 64 * 1024

  // Sizes in 32-bit words.
  const BARRIER_HEADER: nat := 4
  const MEMORY_BARRIER: nat := 8
  const BUFFER_BARRIER: nat := 16
  const IMAGE_BARRIER: nat := 20
  const RANGE: nat := 6
  const CLEAR_HEADER: nat := 8
  const TRANSFER_HEADER: nat := 8
  const REGION: nat := 32
  const UPDATE_HEADER: nat := 6

  // ---------------------------------------------------------------- commands

  datatype Range = Range(aspect: u32, baseLevel: u32, levels: u32, baseLayer: u32, layers: u32)

  datatype MemoryBarrier = MemoryBarrier(sourceStage: u64, sourceAccess: u64, destinationStage: u64, destinationAccess: u64)

  datatype BufferBarrier = BufferBarrier(
    scope: MemoryBarrier, sourceFamily: u32, destinationFamily: u32, buffer: u64, offset: u64, size: u64)

  datatype ImageBarrier = ImageBarrier(
    scope: MemoryBarrier, oldLayout: u32, newLayout: u32, sourceFamily: u32, destinationFamily: u32,
    image: u64, range: Range)

  datatype Layers = Layers(aspect: u32, level: u32, baseLayer: u32, count: u32)

  datatype Point = Point(x: i32, y: i32, z: i32)

  datatype Region = Region(
    sourceOffset: u64, destinationOffset: u64, size: u64, rowLength: u32, imageHeight: u32,
    sourceLayers: Layers, destinationLayers: Layers,
    source0: Point, source1: Point, destination0: Point, destination1: Point,
    width: u32, height: u32, depth: u32)

  datatype Command =
    | FillBuffer(buffer: u64, offset: u64, size: u64, data: u32)
    | Barrier2(flags: u32, memory: seq<MemoryBarrier>, buffers: seq<BufferBarrier>, images: seq<ImageBarrier>)
    | ClearColor(image: u64, layout: u32, c0: u32, c1: u32, c2: u32, c3: u32, ranges: seq<Range>)
    | Transfer(kind: u16, source: u64, destination: u64, sourceLayout: u32, destinationLayout: u32,
               filter: u32, regions: seq<Region>)
    | InitBarrier(ids: seq<u64>)
    | End
    | UpdateBuffer(buffer: u64, offset: u64, bytes: seq<byte>)
    | Query(pool: u64, stage: u64, first: u32, count: u32, queryFlags: u32, index: u32, queryKind: u32)

  function Opcode(c: Command): u16 {
    match c
    case FillBuffer(_, _, _, _) => FILL_BUFFER
    case Barrier2(_, _, _, _) => IMAGE_BARRIER_2
    case ClearColor(_, _, _, _, _, _, _) => CLEAR_COLOR_IMAGE_GENERAL
    case Transfer(kind, _, _, _, _, _, _) => kind
    case InitBarrier(_) => INIT_IMAGE_BARRIER
    case End => END
    case UpdateBuffer(_, _, _) => UPDATE_BUFFER
    case Query(_, _, _, _, _, _, _) => QUERY
  }

  predicate IsTransfer(opcode: u16) {
    COPY_BUFFER_2 <= opcode <= RESOLVE_IMAGE_2
  }

  predicate ReadsBuffer(opcode: u16) {
    opcode == COPY_BUFFER_2 || opcode == COPY_BUFFER_TO_IMAGE_2
  }

  predicate WritesBuffer(opcode: u16) {
    opcode == COPY_BUFFER_2 || opcode == COPY_IMAGE_TO_BUFFER_2
  }

  function Side(isBuffer: bool): nat {
    if isBuffer then BUFFER else IMAGE
  }

  // ---------------------------------------------------------------- what append accepts

  predicate RangeIsValid(r: Range) {
    r.aspect != 0 && r.levels != 0 && r.layers != 0
  }

  // Bits 0 to 3, 5 and 6 of a dependency flag word.
  predicate OnlyDependencyBits(flags: u32) {
    flags < 0x80 && flags / 16 % 2 == 0
  }

  predicate QueryIsValid(stage: u64, count: u32, flags: u32, index: u32, kind: u32) {
    match kind
    case 1 => stage == 0 && flags == 0 && index == 0
    case 2 => stage == 0 && count == 1 && flags <= 1 && index == 0
    case 3 => stage == 0 && count == 1 && flags == 0 && index == 0
    case 4 => stage != 0 && count == 1 && flags == 0 && index == 0
    case 5 => stage != 0 && count == 1 && flags == 0 && index == 0
    case 6 => stage == 0 && count == 1 && flags <= 1
    case 7 => stage == 0 && count == 1 && flags == 0
    case _ => false
  }

  predicate RegionIsValid(opcode: u16, r: Region) {
    && (if opcode == COPY_BUFFER_2 then r.size != 0 else r.width != 0 && r.height != 0 && r.depth != 0)
    && (ReadsBuffer(opcode) || (r.sourceLayers.aspect != 0 && r.sourceLayers.count != 0))
    && (WritesBuffer(opcode) || (r.destinationLayers.aspect != 0 && r.destinationLayers.count != 0))
  }

  predicate Distinct(ids: seq<u64>) {
    forall i, j :: 0 <= i < j < |ids| ==> ids[i] != ids[j]
  }

  predicate BufferBarrierIsValid(b: BufferBarrier) {
    Expect(b.buffer, BUFFER) && b.size != 0
  }

  predicate ImageBarrierIsValid(b: ImageBarrier) {
    Expect(b.image, IMAGE) && RangeIsValid(b.range)
  }

  predicate Appendable(c: Command) {
    match c
    case FillBuffer(buffer, offset, size, _) =>
      size != 0 && offset % 4 == 0 && size % 4 == 0 && Expect(buffer, BUFFER)
    case Barrier2(flags, memory, buffers, images) =>
      && OnlyDependencyBits(flags)
      && |memory| <= MAX_MEMORY_BARRIERS && |buffers| <= MAX_BUFFER_BARRIERS && |images| <= MAX_IMAGE_BARRIERS
      && (forall i :: 0 <= i < |buffers| ==> BufferBarrierIsValid(buffers[i]))
      && (forall i :: 0 <= i < |images| ==> ImageBarrierIsValid(images[i]))
    case ClearColor(image, layout, _, _, _, _, ranges) =>
      && layout != 0 && 0 < |ranges| <= MAX_CLEAR_RANGES && Expect(image, IMAGE)
      && (forall i :: 0 <= i < |ranges| ==> RangeIsValid(ranges[i]))
    case Transfer(kind, source, destination, sourceLayout, destinationLayout, filter, regions) =>
      && IsTransfer(kind) && 0 < |regions| <= MAX_TRANSFER_REGIONS
      && Expect(source, Side(ReadsBuffer(kind))) && Expect(destination, Side(WritesBuffer(kind)))
      && (ReadsBuffer(kind) || sourceLayout != 0) && (WritesBuffer(kind) || destinationLayout != 0)
      && (kind == BLIT_IMAGE_2 ==> filter <= 1)
      && (forall i :: 0 <= i < |regions| ==> RegionIsValid(kind, regions[i]))
    case InitBarrier(ids) =>
      0 < |ids| <= MAX_INIT_IMAGE_BARRIERS && (forall i :: 0 <= i < |ids| ==> Expect(ids[i], IMAGE)) && Distinct(ids)
    case End => true
    case UpdateBuffer(buffer, offset, bytes) =>
      0 < |bytes| <= MAX_UPDATE_BUFFER_BYTES && |bytes| % 4 == 0 && offset % 4 == 0 && Expect(buffer, BUFFER)
    case Query(pool, stage, _, count, flags, index, kind) =>
      Expect(pool, QUERY_POOL) && count != 0 && QueryIsValid(stage, count, flags, index, kind)
  }

  // The one thing an append lets through and the validator does not: a filter on a transfer
  // that is not a blit.
  predicate FilterIsClear(c: Command) {
    c.Transfer? && c.kind != BLIT_IMAGE_2 ==> c.filter == 0
  }

  // ---------------------------------------------------------------- records of fixed size

  function RangeWords(r: Range): (ws: Words)
    ensures |ws| == RANGE
  {
    [r.aspect, r.baseLevel, r.levels, r.baseLayer, r.layers, 0]
  }

  function RangeAt(ws: Words): Range
    requires |ws| == RANGE
  {
    Range(ws[0], ws[1], ws[2], ws[3], ws[4])
  }

  predicate RangeWordsAreValid(ws: Words)
    requires |ws| == RANGE
  {
    ws[0] != 0 && ws[2] != 0 && ws[4] != 0 && ws[5] == 0
  }

  function MemoryWords(b: MemoryBarrier): (ws: Words)
    ensures |ws| == MEMORY_BARRIER
  {
    [Lo(b.sourceStage), Hi(b.sourceStage), Lo(b.sourceAccess), Hi(b.sourceAccess),
     Lo(b.destinationStage), Hi(b.destinationStage), Lo(b.destinationAccess), Hi(b.destinationAccess)]
  }

  function MemoryAt(ws: Words): MemoryBarrier
    requires |ws| >= MEMORY_BARRIER
  {
    MemoryBarrier(Long(ws, 0), Long(ws, 2), Long(ws, 4), Long(ws, 6))
  }

  function BufferWords(b: BufferBarrier): (ws: Words)
    ensures |ws| == BUFFER_BARRIER
  {
    MemoryWords(b.scope) +
    [b.sourceFamily, b.destinationFamily, Lo(b.buffer), Hi(b.buffer), Lo(b.offset), Hi(b.offset), Lo(b.size), Hi(b.size)]
  }

  function BufferAt(ws: Words): BufferBarrier
    requires |ws| == BUFFER_BARRIER
  {
    BufferBarrier(MemoryAt(ws), ws[8], ws[9], Long(ws, 10), Long(ws, 12), Long(ws, 14))
  }

  predicate BufferWordsAreValid(ws: Words)
    requires |ws| == BUFFER_BARRIER
  {
    Expect(Long(ws, 10), BUFFER) && Long(ws, 14) != 0
  }

  function ImageWords(b: ImageBarrier): (ws: Words)
    ensures |ws| == IMAGE_BARRIER
  {
    MemoryWords(b.scope) +
    [b.oldLayout, b.newLayout, b.sourceFamily, b.destinationFamily, Lo(b.image), Hi(b.image)] +
    RangeWords(b.range)
  }

  function ImageAt(ws: Words): ImageBarrier
    requires |ws| == IMAGE_BARRIER
  {
    ImageBarrier(MemoryAt(ws), ws[8], ws[9], ws[10], ws[11], Long(ws, 12), RangeAt(ws[14..]))
  }

  predicate ImageWordsAreValid(ws: Words)
    requires |ws| == IMAGE_BARRIER
  {
    Expect(Long(ws, 12), IMAGE) && RangeWordsAreValid(ws[14..])
  }

  function LayersWords(l: Layers): (ws: Words)
    ensures |ws| == 4
  {
    [l.aspect, l.level, l.baseLayer, l.count]
  }

  function LayersAt(ws: Words, i: nat): Layers
    requires i + 4 <= |ws|
  {
    Layers(ws[i], ws[i + 1], ws[i + 2], ws[i + 3])
  }

  function PointWords(p: Point): (ws: Words)
    ensures |ws| == 3
  {
    [FromSigned(p.x), FromSigned(p.y), FromSigned(p.z)]
  }

  function PointAt(ws: Words, i: nat): Point
    requires i + 3 <= |ws|
  {
    Point(ToSigned(ws[i]), ToSigned(ws[i + 1]), ToSigned(ws[i + 2]))
  }

  function RegionHead(r: Region): (ws: Words)
    ensures |ws| == 8
  {
    [Lo(r.sourceOffset), Hi(r.sourceOffset), Lo(r.destinationOffset), Hi(r.destinationOffset),
     Lo(r.size), Hi(r.size), r.rowLength, r.imageHeight]
  }

  function RegionTail(r: Region): (ws: Words)
    ensures |ws| == 16
  {
    PointWords(r.source0) + PointWords(r.source1) + PointWords(r.destination0) + PointWords(r.destination1) +
    [r.width, r.height, r.depth, 0]
  }

  function RegionWords(r: Region): (ws: Words)
    ensures |ws| == REGION
  {
    RegionHead(r) + LayersWords(r.sourceLayers) + LayersWords(r.destinationLayers) + RegionTail(r)
  }

  function RegionAt(ws: Words): Region
    requires |ws| == REGION
  {
    Region(Long(ws, 0), Long(ws, 2), Long(ws, 4), ws[6], ws[7], LayersAt(ws, 8), LayersAt(ws, 12),
           PointAt(ws, 16), PointAt(ws, 19), PointAt(ws, 22), PointAt(ws, 25), ws[28], ws[29], ws[30])
  }

  predicate RegionWordsAreValid(opcode: u16, ws: Words)
    requires |ws| == REGION
  {
    && (if opcode == COPY_BUFFER_2 then Long(ws, 4) != 0 else ws[28] != 0 && ws[29] != 0 && ws[30] != 0)
    && (ReadsBuffer(opcode) || (ws[8] != 0 && ws[11] != 0))
    && (WritesBuffer(opcode) || (ws[12] != 0 && ws[15] != 0))
    && ws[31] == 0
  }

  lemma RangeRoundTrip(r: Range, ws: Words)
    requires |ws| == RANGE
    ensures RangeAt(RangeWords(r)) == r
    ensures RangeWordsAreValid(RangeWords(r)) == RangeIsValid(r)
    ensures RangeWordsAreValid(ws) ==> RangeIsValid(RangeAt(ws)) && RangeWords(RangeAt(ws)) == ws
  {
  }

  lemma MemoryRoundTrip(b: MemoryBarrier, rest: Words, ws: Words)
    requires |ws| == MEMORY_BARRIER
    ensures MemoryAt(MemoryWords(b) + rest) == b
    ensures MemoryWords(MemoryAt(ws + rest)) == ws
  {
  }

  lemma BufferRoundTrip(b: BufferBarrier, ws: Words)
    requires |ws| == BUFFER_BARRIER
    ensures BufferAt(BufferWords(b)) == b
    ensures BufferWordsAreValid(BufferWords(b)) == BufferBarrierIsValid(b)
    ensures BufferWords(BufferAt(ws)) == ws
    ensures BufferWordsAreValid(ws) == BufferBarrierIsValid(BufferAt(ws))
  {
  }

  lemma ImageRoundTrip(b: ImageBarrier, ws: Words)
    requires |ws| == IMAGE_BARRIER
    ensures ImageAt(ImageWords(b)) == b
    ensures ImageWordsAreValid(ImageWords(b)) == ImageBarrierIsValid(b)
    ensures ImageWordsAreValid(ws) ==> ImageBarrierIsValid(ImageAt(ws)) && ImageWords(ImageAt(ws)) == ws
  {
  }

  lemma RegionRoundTrip(opcode: u16, r: Region, ws: Words)
    requires |ws| == REGION
    ensures RegionAt(RegionWords(r)) == r
    ensures RegionWordsAreValid(opcode, RegionWords(r)) == RegionIsValid(opcode, r)
    ensures RegionWordsAreValid(opcode, ws) ==> RegionIsValid(opcode, RegionAt(ws)) && RegionWords(RegionAt(ws)) == ws
  {
  }

  // ---------------------------------------------------------------- arrays of records

  function MemoryChunks(bs: seq<MemoryBarrier>): (chunks: seq<Words>)
    ensures |chunks| == |bs| && AllSized(chunks, MEMORY_BARRIER)
  {
    seq(|bs|, i requires 0 <= i < |bs| => MemoryWords(bs[i]))
  }

  function BufferChunks(bs: seq<BufferBarrier>): (chunks: seq<Words>)
    ensures |chunks| == |bs| && AllSized(chunks, BUFFER_BARRIER)
  {
    seq(|bs|, i requires 0 <= i < |bs| => BufferWords(bs[i]))
  }

  function ImageChunks(bs: seq<ImageBarrier>): (chunks: seq<Words>)
    ensures |chunks| == |bs| && AllSized(chunks, IMAGE_BARRIER)
  {
    seq(|bs|, i requires 0 <= i < |bs| => ImageWords(bs[i]))
  }

  function RangeChunks(rs: seq<Range>): (chunks: seq<Words>)
    ensures |chunks| == |rs| && AllSized(chunks, RANGE)
  {
    seq(|rs|, i requires 0 <= i < |rs| => RangeWords(rs[i]))
  }

  function RegionChunks(rs: seq<Region>): (chunks: seq<Words>)
    ensures |chunks| == |rs| && AllSized(chunks, REGION)
  {
    seq(|rs|, i requires 0 <= i < |rs| => RegionWords(rs[i]))
  }

  function MemoryFrom(chunks: seq<Words>): (bs: seq<MemoryBarrier>)
    requires AllSized(chunks, MEMORY_BARRIER)
    ensures |bs| == |chunks|
  {
    seq(|chunks|, i requires 0 <= i < |chunks| => MemoryAt(chunks[i]))
  }

  function BuffersFrom(chunks: seq<Words>): (bs: seq<BufferBarrier>)
    requires AllSized(chunks, BUFFER_BARRIER)
    ensures |bs| == |chunks|
  {
    seq(|chunks|, i requires 0 <= i < |chunks| => BufferAt(chunks[i]))
  }

  function ImagesFrom(chunks: seq<Words>): (bs: seq<ImageBarrier>)
    requires AllSized(chunks, IMAGE_BARRIER)
    ensures |bs| == |chunks|
  {
    seq(|chunks|, i requires 0 <= i < |chunks| => ImageAt(chunks[i]))
  }

  function RangesFrom(chunks: seq<Words>): (rs: seq<Range>)
    requires AllSized(chunks, RANGE)
    ensures |rs| == |chunks|
  {
    seq(|chunks|, i requires 0 <= i < |chunks| => RangeAt(chunks[i]))
  }

  function RegionsFrom(chunks: seq<Words>): (rs: seq<Region>)
    requires AllSized(chunks, REGION)
    ensures |rs| == |chunks|
  {
    seq(|chunks|, i requires 0 <= i < |chunks| => RegionAt(chunks[i]))
  }

  // ---------------------------------------------------------------- payloads

  function BarrierHeader(flags: u32, m: u32, b: u32, i: u32): (h: Words)
    ensures |h| == BARRIER_HEADER
  {
    [flags, m, b, i]
  }

  function TransferHeader(source: u64, destination: u64, sourceLayout: u32, destinationLayout: u32, filter: u32, n: u32): (h: Words)
    ensures |h| == TRANSFER_HEADER
  {
    [Lo(source), Hi(source), Lo(destination), Hi(destination), sourceLayout, destinationLayout, filter, n]
  }

  function BarrierBody(memory: seq<MemoryBarrier>, buffers: seq<BufferBarrier>, images: seq<ImageBarrier>): Words {
    Flatten(MemoryChunks(memory)) + Flatten(BufferChunks(buffers)) + Flatten(ImageChunks(images))
  }

  function Pad(ws: Words, size: nat): (padded: Words)
    ensures |padded| >= size
  {
    if |ws| < size then ws + Zeros(size - |ws|) else ws
  }

  // The payload an accepted command is written as.
  function Payload(c: Command): Words
    requires Appendable(c)
  {
    match c
    case FillBuffer(buffer, offset, size, data) =>
      [Lo(buffer), Hi(buffer), Lo(offset), Hi(offset), Lo(size), Hi(size), data, 0]
    case Barrier2(flags, memory, buffers, images) =>
      BarrierHeader(flags, |memory|, |buffers|, |images|) + BarrierBody(memory, buffers, images)
    case ClearColor(image, layout, c0, c1, c2, c3, ranges) =>
      [Lo(image), Hi(image), layout, |ranges|, c0, c1, c2, c3] +
      Pad(Flatten(RangeChunks(ranges)), RANGE * MAX_CLEAR_RANGES)
    case Transfer(_, source, destination, sourceLayout, destinationLayout, filter, regions) =>
      TransferHeader(source, destination, sourceLayout, destinationLayout, filter, |regions|) + Flatten(RegionChunks(regions))
    case InitBarrier(ids) =>
      [|ids|, 0] + Pad(Flatten(LongChunks(ids)), 2 * MAX_INIT_IMAGE_BARRIERS)
    case End => []
    case UpdateBuffer(buffer, offset, bytes) =>
      [Lo(buffer), Hi(buffer), Lo(offset), Hi(offset), |bytes|, 0] + ToWords(bytes)
    case Query(pool, stage, first, count, flags, index, kind) =>
      [Lo(pool), Hi(pool), Lo(stage), Hi(stage), first, count, flags, index, kind, 0]
  }

  // ---------------------------------------------------------------- what the validator accepts

  predicate LengthFits(opcode: u16, p: Words) {
    if opcode == IMAGE_BARRIER_2 then
      && |p| >= BARRIER_HEADER
      && p[1] <= MAX_MEMORY_BARRIERS && p[2] <= MAX_BUFFER_BARRIERS && p[3] <= MAX_IMAGE_BARRIERS
      && |p| == BARRIER_HEADER + MEMORY_BARRIER * p[1] + BUFFER_BARRIER * p[2] + IMAGE_BARRIER * p[3]
    else if opcode == UPDATE_BUFFER then
      && |p| >= UPDATE_HEADER
      && p[4] != 0 && p[4] <= MAX_UPDATE_BUFFER_BYTES && p[4] % 4 == 0
      && 4 * |p| == 4 * UPDATE_HEADER + p[4]
    else if IsTransfer(opcode) then
      |p| >= TRANSFER_HEADER && p[7] != 0 && p[7] <= MAX_TRANSFER_REGIONS && |p| == TRANSFER_HEADER + REGION * p[7]
    else if opcode == FILL_BUFFER then |p| == 8
    else if opcode == CLEAR_COLOR_IMAGE_GENERAL then |p| == CLEAR_HEADER + RANGE * MAX_CLEAR_RANGES
    else if opcode == INIT_IMAGE_BARRIER then |p| == 2 + 2 * MAX_INIT_IMAGE_BARRIERS
    else if opcode == QUERY then |p| == 10
    else opcode == END && |p| == 0
  }

  function BarrierMemory(p: Words): (chunks: seq<Words>)
    requires LengthFits(IMAGE_BARRIER_2, p)
    ensures AllSized(chunks, MEMORY_BARRIER) && |chunks| == p[1]
  {
    Chunks(p, BARRIER_HEADER, MEMORY_BARRIER, p[1])
  }

  function BarrierBuffers(p: Words): (chunks: seq<Words>)
    requires LengthFits(IMAGE_BARRIER_2, p)
    ensures AllSized(chunks, BUFFER_BARRIER) && |chunks| == p[2]
  {
    Chunks(p, BARRIER_HEADER + MEMORY_BARRIER * p[1], BUFFER_BARRIER, p[2])
  }

  function BarrierImages(p: Words): (chunks: seq<Words>)
    requires LengthFits(IMAGE_BARRIER_2, p)
    ensures AllSized(chunks, IMAGE_BARRIER) && |chunks| == p[3]
  {
    Chunks(p, BARRIER_HEADER + MEMORY_BARRIER * p[1] + BUFFER_BARRIER * p[2], IMAGE_BARRIER, p[3])
  }

  predicate BarrierIsValid(p: Words)
    requires LengthFits(IMAGE_BARRIER_2, p)
  {
    && OnlyDependencyBits(p[0])
    && (var chunks := BarrierBuffers(p); forall i :: 0 <= i < |chunks| ==> BufferWordsAreValid(chunks[i]))
    && (var chunks := BarrierImages(p); forall i :: 0 <= i < |chunks| ==> ImageWordsAreValid(chunks[i]))
  }

  function ClearRanges(p: Words): (chunks: seq<Words>)
    requires LengthFits(CLEAR_COLOR_IMAGE_GENERAL, p)
    ensures AllSized(chunks, RANGE) && |chunks| == MAX_CLEAR_RANGES
  {
    Chunks(p, CLEAR_HEADER, RANGE, MAX_CLEAR_RANGES)
  }

  predicate ClearIsValid(p: Words)
    requires LengthFits(CLEAR_COLOR_IMAGE_GENERAL, p)
  {
    && Expect(Long(p, 0), IMAGE) && p[2] != 0 && 0 < p[3] <= MAX_CLEAR_RANGES
    && (var chunks := ClearRanges(p);
        forall i :: 0 <= i < MAX_CLEAR_RANGES ==> if i < p[3] then RangeWordsAreValid(chunks[i]) else AllZero(chunks[i]))
  }

  function TransferRegions(opcode: u16, p: Words): (chunks: seq<Words>)
    requires IsTransfer(opcode) && LengthFits(opcode, p)
    ensures AllSized(chunks, REGION) && |chunks| == p[7]
  {
    Chunks(p, TRANSFER_HEADER, REGION, p[7])
  }

  predicate TransferIsValid(opcode: u16, p: Words)
    requires IsTransfer(opcode) && LengthFits(opcode, p)
  {
    && Expect(Long(p, 0), Side(ReadsBuffer(opcode))) && Expect(Long(p, 2), Side(WritesBuffer(opcode)))
    && (ReadsBuffer(opcode) || p[4] != 0) && (WritesBuffer(opcode) || p[5] != 0)
    && (if opcode == BLIT_IMAGE_2 then p[6] <= 1 else p[6] == 0)
    && (var chunks := TransferRegions(opcode, p);
        forall i :: 0 <= i < |chunks| ==> RegionWordsAreValid(opcode, chunks[i]))
  }

  function InitIds(p: Words): (ids: seq<u64>)
    requires LengthFits(INIT_IMAGE_BARRIER, p)
    ensures |ids| == MAX_INIT_IMAGE_BARRIERS
  {
    [Long(p, 2), Long(p, 4), Long(p, 6), Long(p, 8)]
  }

  predicate InitIsValid(p: Words)
    requires LengthFits(INIT_IMAGE_BARRIER, p)
  {
    && 0 < p[0] <= MAX_INIT_IMAGE_BARRIERS && p[1] == 0
    && (var ids := InitIds(p);
        forall i :: 0 <= i < MAX_INIT_IMAGE_BARRIERS ==>
          if i < p[0] then Expect(ids[i], IMAGE) && ids[i] !in ids[..i] else ids[i] == 0)
  }

  predicate PayloadIsValid(opcode: u16, p: Words)
    requires LengthFits(opcode, p)
  {
    if opcode == FILL_BUFFER then
      Expect(Long(p, 0), BUFFER) && Long(p, 4) != 0 && Long(p, 2) % 4 == 0 && Long(p, 4) % 4 == 0 && p[7] == 0
    else if opcode == IMAGE_BARRIER_2 then BarrierIsValid(p)
    else if opcode == CLEAR_COLOR_IMAGE_GENERAL then ClearIsValid(p)
    else if IsTransfer(opcode) then TransferIsValid(opcode, p)
    else if opcode == INIT_IMAGE_BARRIER then InitIsValid(p)
    else if opcode == UPDATE_BUFFER then Expect(Long(p, 0), BUFFER) && Long(p, 2) % 4 == 0 && p[5] == 0
    else if opcode == QUERY then
      Expect(Long(p, 0), QUERY_POOL) && p[5] != 0 && p[9] == 0 && QueryIsValid(Long(p, 2), p[5], p[6], p[7], p[8])
    else opcode == END
  }

  predicate Valid(opcode: u16, p: Words) {
    LengthFits(opcode, p) && PayloadIsValid(opcode, p)
  }

  // ---------------------------------------------------------------- decoding

  // A decoder copies as many array elements as the count says; for the two payloads of fixed
  // size only the validator keeps that count within the array.
  predicate CountsFit(opcode: u16, p: Words)
    requires LengthFits(opcode, p)
  {
    && (opcode == CLEAR_COLOR_IMAGE_GENERAL ==> p[3] <= MAX_CLEAR_RANGES)
    && (opcode == INIT_IMAGE_BARRIER ==> p[0] <= MAX_INIT_IMAGE_BARRIERS)
  }

  function Decode(opcode: u16, p: Words): (c: Command)
    requires LengthFits(opcode, p) && CountsFit(opcode, p)
    ensures Opcode(c) == opcode
  {
    if opcode == FILL_BUFFER then FillBuffer(Long(p, 0), Long(p, 2), Long(p, 4), p[6])
    else if opcode == IMAGE_BARRIER_2 then
      Barrier2(p[0], MemoryFrom(BarrierMemory(p)), BuffersFrom(BarrierBuffers(p)), ImagesFrom(BarrierImages(p)))
    else if opcode == CLEAR_COLOR_IMAGE_GENERAL then
      ClearColor(Long(p, 0), p[2], p[4], p[5], p[6], p[7], RangesFrom(ClearRanges(p)[..p[3]]))
    else if IsTransfer(opcode) then
      Transfer(opcode, Long(p, 0), Long(p, 2), p[4], p[5], p[6], RegionsFrom(TransferRegions(opcode, p)))
    else if opcode == INIT_IMAGE_BARRIER then InitBarrier(InitIds(p)[..p[0]])
    else if opcode == UPDATE_BUFFER then UpdateBuffer(Long(p, 0), Long(p, 2), ToBytes(p[UPDATE_HEADER..]))
    else if opcode == QUERY then Query(Long(p, 0), Long(p, 2), p[4], p[5], p[6], p[7], p[8])
    else End
  }

  // ---------------------------------------------------------------- one family at a time

  lemma FixedPayload(c: Command)
    requires Appendable(c) && (c.FillBuffer? || c.Query? || c.End?)
    ensures Valid(Opcode(c), Payload(c)) && Decode(Opcode(c), Payload(c)) == c
  {
  }

  lemma FixedIsCanonical(opcode: u16, p: Words)
    requires Valid(opcode, p) && (opcode == FILL_BUFFER || opcode == QUERY || opcode == END)
    ensures Appendable(Decode(opcode, p)) && Payload(Decode(opcode, p)) == p
  {
  }

  lemma UpdatePayload(c: Command)
    requires Appendable(c) && c.UpdateBuffer?
    ensures Valid(UPDATE_BUFFER, Payload(c)) && Decode(UPDATE_BUFFER, Payload(c)) == c
  {
    JoinSplit(c.buffer);
    JoinSplit(c.offset);
    BytesRoundTrip(c.bytes);
    assert Payload(c)[UPDATE_HEADER..] == ToWords(c.bytes);
  }

  lemma UpdateIsCanonical(p: Words)
    requires Valid(UPDATE_BUFFER, p)
    ensures Appendable(Decode(UPDATE_BUFFER, p)) && Payload(Decode(UPDATE_BUFFER, p)) == p
  {
    var data := p[UPDATE_HEADER..];
    WordsRoundTrip(data);
    assert |ToBytes(data)| == p[4];
    UpdateHeaderRebuilds(p);
  }

  lemma UpdateHeaderRebuilds(p: Words)
    requires |p| >= UPDATE_HEADER && p[5] == 0
    ensures [Lo(Long(p, 0)), Hi(Long(p, 0)), Lo(Long(p, 2)), Hi(Long(p, 2)), p[4], 0] + p[UPDATE_HEADER..] == p
  {
  }

  lemma TransferPayload(c: Command)
    requires Appendable(c) && c.Transfer?
    ensures LengthFits(c.kind, Payload(c)) && Decode(c.kind, Payload(c)) == c
    ensures PayloadIsValid(c.kind, Payload(c)) <==> FilterIsClear(c)
  {
    var chunks := RegionChunks(c.regions);
    var p := Payload(c);
    FlattenLength(chunks, REGION);
    TransferHeaderReads(c, p);
    ChunksOfFlatten(p[..TRANSFER_HEADER], chunks, [], REGION);
    assert p == p[..TRANSFER_HEADER] + Flatten(chunks) + [];
    forall i | 0 <= i < |c.regions|
      ensures RegionAt(chunks[i]) == c.regions[i] && RegionWordsAreValid(c.kind, chunks[i])
    {
      RegionRoundTrip(c.kind, c.regions[i], Zeros(REGION));
    }
    assert RegionsFrom(chunks) == c.regions;
  }

  lemma TransferHeaderReads(c: Command, p: Words)
    requires c.Transfer? && |c.regions| < U32_LIMIT && |p| >= TRANSFER_HEADER
    requires p[..TRANSFER_HEADER] == TransferHeader(c.source, c.destination, c.sourceLayout, c.destinationLayout, c.filter, |c.regions|)
    ensures Long(p, 0) == c.source && Long(p, 2) == c.destination && p[4] == c.sourceLayout && p[5] == c.destinationLayout
    ensures p[6] == c.filter && p[7] == |c.regions|
  {
  }

  lemma RegionsAreCanonical(opcode: u16, p: Words)
    requires IsTransfer(opcode) && LengthFits(opcode, p) && TransferIsValid(opcode, p)
    ensures var regions := RegionsFrom(TransferRegions(opcode, p));
      && p[TRANSFER_HEADER..] == Flatten(RegionChunks(regions))
      && forall i :: 0 <= i < |regions| ==> RegionIsValid(opcode, regions[i])
  {
    var chunks := TransferRegions(opcode, p);
    var regions := RegionsFrom(chunks);
    forall i | 0 <= i < |chunks|
      ensures RegionIsValid(opcode, regions[i]) && RegionWords(regions[i]) == chunks[i]
    {
      RegionRoundTrip(opcode, regions[i], chunks[i]);
    }
    assert RegionChunks(regions) == chunks;
    FlattenOfChunks(p, TRANSFER_HEADER, REGION, p[7]);
  }

  lemma TransferIsCanonical(opcode: u16, p: Words)
    requires IsTransfer(opcode) && Valid(opcode, p)
    ensures Appendable(Decode(opcode, p)) && FilterIsClear(Decode(opcode, p)) && Payload(Decode(opcode, p)) == p
  {
    RegionsAreCanonical(opcode, p);
    assert p == p[..TRANSFER_HEADER] + p[TRANSFER_HEADER..];
    assert p[..TRANSFER_HEADER] == TransferHeader(Long(p, 0), Long(p, 2), p[4], p[5], p[6], p[7]);
  }

  // Three arrays one after another, cut apart where the header's counts say.
  lemma BarrierArrays(header: Words, memory: seq<Words>, buffers: seq<Words>, images: seq<Words>)
    requires |header| == BARRIER_HEADER
    requires AllSized(memory, MEMORY_BARRIER) && AllSized(buffers, BUFFER_BARRIER) && AllSized(images, IMAGE_BARRIER)
    ensures var p := header + (Flatten(memory) + Flatten(buffers) + Flatten(images));
      && |p| == BARRIER_HEADER + MEMORY_BARRIER * |memory| + BUFFER_BARRIER * |buffers| + IMAGE_BARRIER * |images|
      && Chunks(p, BARRIER_HEADER, MEMORY_BARRIER, |memory|) == memory
      && Chunks(p, BARRIER_HEADER + MEMORY_BARRIER * |memory|, BUFFER_BARRIER, |buffers|) == buffers
      && Chunks(p, BARRIER_HEADER + MEMORY_BARRIER * |memory| + BUFFER_BARRIER * |buffers|, IMAGE_BARRIER, |images|) == images
  {
    var m, b, i := Flatten(memory), Flatten(buffers), Flatten(images);
    Regroup(header, m, b, i);
    FlattenLength(memory, MEMORY_BARRIER);
    FlattenLength(buffers, BUFFER_BARRIER);
    FlattenLength(images, IMAGE_BARRIER);
    ChunksOfFlatten(header, memory, b + i, MEMORY_BARRIER);
    ChunksOfFlatten(header + m, buffers, i, BUFFER_BARRIER);
    ChunksOfFlatten(header + m + b, images, [], IMAGE_BARRIER);
  }

  lemma Regroup(h: Words, m: Words, b: Words, i: Words)
    ensures h + (m + b + i) == h + m + (b + i)
    ensures h + (m + b + i) == (h + m) + b + i
    ensures h + (m + b + i) == (h + m + b) + i + []
  {
  }

  lemma BarrierRecordsRoundTrip(memory: seq<MemoryBarrier>, buffers: seq<BufferBarrier>, images: seq<ImageBarrier>)
    ensures MemoryFrom(MemoryChunks(memory)) == memory
    ensures BuffersFrom(BufferChunks(buffers)) == buffers
    ensures ImagesFrom(ImageChunks(images)) == images
    ensures forall i :: 0 <= i < |buffers| ==> BufferWordsAreValid(BufferChunks(buffers)[i]) == BufferBarrierIsValid(buffers[i])
    ensures forall i :: 0 <= i < |images| ==> ImageWordsAreValid(ImageChunks(images)[i]) == ImageBarrierIsValid(images[i])
  {
  }

  lemma BarrierReads(flags: u32, memory: seq<MemoryBarrier>, buffers: seq<BufferBarrier>, images: seq<ImageBarrier>)
    requires |memory| <= MAX_MEMORY_BARRIERS && |buffers| <= MAX_BUFFER_BARRIERS && |images| <= MAX_IMAGE_BARRIERS
    ensures var p := BarrierHeader(flags, |memory|, |buffers|, |images|) + BarrierBody(memory, buffers, images);
      && LengthFits(IMAGE_BARRIER_2, p) && p[0] == flags
      && BarrierMemory(p) == MemoryChunks(memory)
      && BarrierBuffers(p) == BufferChunks(buffers)
      && BarrierImages(p) == ImageChunks(images)
  {
    var header := BarrierHeader(flags, |memory|, |buffers|, |images|);
    BarrierArrays(header, MemoryChunks(memory), BufferChunks(buffers), ImageChunks(images));
    HeaderComesFirst(header, BarrierBody(memory, buffers, images));
  }

  lemma HeaderComesFirst(header: Words, body: Words)
    requires |header| == BARRIER_HEADER
    ensures var p := header + body; p[0] == header[0] && p[1] == header[1] && p[2] == header[2] && p[3] == header[3]
  {
  }

  lemma BarrierPayload(c: Command)
    requires Appendable(c) && c.Barrier2?
    ensures Valid(IMAGE_BARRIER_2, Payload(c)) && Decode(IMAGE_BARRIER_2, Payload(c)) == c
  {
    BarrierReads(c.flags, c.memory, c.buffers, c.images);
    BarrierRecordsRoundTrip(c.memory, c.buffers, c.images);
  }

  lemma BarrierRecordsAreCanonical(memory: seq<Words>, buffers: seq<Words>, images: seq<Words>)
    requires AllSized(memory, MEMORY_BARRIER) && AllSized(buffers, BUFFER_BARRIER) && AllSized(images, IMAGE_BARRIER)
    requires forall i :: 0 <= i < |buffers| ==> BufferWordsAreValid(buffers[i])
    requires forall i :: 0 <= i < |images| ==> ImageWordsAreValid(images[i])
    ensures MemoryChunks(MemoryFrom(memory)) == memory
    ensures BufferChunks(BuffersFrom(buffers)) == buffers
    ensures ImageChunks(ImagesFrom(images)) == images
    ensures forall i :: 0 <= i < |buffers| ==> BufferBarrierIsValid(BuffersFrom(buffers)[i])
    ensures forall i :: 0 <= i < |images| ==> ImageBarrierIsValid(ImagesFrom(images)[i])
  {
    forall i | 0 <= i < |memory| ensures MemoryWords(MemoryAt(memory[i])) == memory[i] {
      MemoryRoundTrip(MemoryAt(memory[i]), [], memory[i]);
      assert memory[i] + [] == memory[i];
    }
    forall i | 0 <= i < |buffers|
      ensures BufferWords(BufferAt(buffers[i])) == buffers[i] && BufferBarrierIsValid(BufferAt(buffers[i]))
    {
      BufferRoundTrip(BufferAt(buffers[i]), buffers[i]);
    }
    forall i | 0 <= i < |images|
      ensures ImageWords(ImageAt(images[i])) == images[i] && ImageBarrierIsValid(ImageAt(images[i]))
    {
      ImageRoundTrip(ImageAt(images[i]), images[i]);
    }
  }

  lemma BarrierBodyIsCanonical(p: Words)
    requires LengthFits(IMAGE_BARRIER_2, p)
    ensures p[BARRIER_HEADER..] == Flatten(BarrierMemory(p)) + Flatten(BarrierBuffers(p)) + Flatten(BarrierImages(p))
  {
    var b := BARRIER_HEADER + MEMORY_BARRIER * p[1];
    var i := b + BUFFER_BARRIER * p[2];
    FlattenOfChunks(p, BARRIER_HEADER, MEMORY_BARRIER, p[1]);
    FlattenOfChunks(p, b, BUFFER_BARRIER, p[2]);
    FlattenOfChunks(p, i, IMAGE_BARRIER, p[3]);
    assert p[BARRIER_HEADER..] == p[BARRIER_HEADER..b] + p[b..i] + p[i..];
    assert p[i..] == p[i..i + IMAGE_BARRIER * p[3]];
  }

  lemma BarrierIsCanonical(p: Words)
    requires Valid(IMAGE_BARRIER_2, p)
    ensures Appendable(Decode(IMAGE_BARRIER_2, p)) && Payload(Decode(IMAGE_BARRIER_2, p)) == p
  {
    BarrierRecordsAreCanonical(BarrierMemory(p), BarrierBuffers(p), BarrierImages(p));
    BarrierReassembles(p);
  }

  lemma BarrierReassembles(p: Words)
    requires LengthFits(IMAGE_BARRIER_2, p)
    ensures p == BarrierHeader(p[0], p[1], p[2], p[3]) + (Flatten(BarrierMemory(p)) + Flatten(BarrierBuffers(p)) + Flatten(BarrierImages(p)))
  {
    BarrierBodyIsCanonical(p);
    assert p == p[..BARRIER_HEADER] + p[BARRIER_HEADER..];
    assert p[..BARRIER_HEADER] == BarrierHeader(p[0], p[1], p[2], p[3]);
  }

  // A payload of fixed size: the records, then zeros up to the maximum number of records.
  lemma PaddedChunks(header: Words, chunks: seq<Words>, size: nat, n: nat)
    requires AllSized(chunks, size) && |chunks| <= n && 0 < size
    ensures var all := chunks + seq(n - |chunks|, _ => Zeros(size));
      && |Pad(Flatten(chunks), size * n)| == size * n
      && Chunks(header + Pad(Flatten(chunks), size * n), |header|, size, n) == all
  {
    var zeros := seq(n - |chunks|, _ => Zeros(size));
    var all := chunks + zeros;
    FlattenLength(chunks, size);
    assert size * |chunks| + size * (n - |chunks|) == size * n;
    FlattenAppend(chunks, zeros);
    FlattenLength(zeros, size);
    FlattenZeros(size, n - |chunks|);
    assert Flatten(all) == Pad(Flatten(chunks), size * n);
    ChunksOfFlatten(header, all, [], size);
    assert header + Flatten(all) + [] == header + Flatten(all);
  }

  lemma {:induction false} FlattenAppend(a: seq<Words>, b: seq<Words>)
    ensures Flatten(a + b) == Flatten(a) + Flatten(b)
  {
    if a == [] {
      assert a + b == b;
    } else {
      assert (a + b)[1..] == a[1..] + b;
      FlattenAppend(a[1..], b);
    }
  }

  lemma {:induction false} FlattenZeros(size: nat, n: nat)
    ensures AllZero(Flatten(seq(n, _ => Zeros(size))))
    decreases n
  {
    if n > 0 {
      var zeros := seq(n, _ => Zeros(size));
      assert zeros[1..] == seq(n - 1, _ => Zeros(size));
      FlattenZeros(size, n - 1);
    }
  }

  lemma ClearPayload(c: Command)
    requires Appendable(c) && c.ClearColor?
    ensures Valid(CLEAR_COLOR_IMAGE_GENERAL, Payload(c)) && Decode(CLEAR_COLOR_IMAGE_GENERAL, Payload(c)) == c
  {
    var chunks := RangeChunks(c.ranges);
    var header := [Lo(c.image), Hi(c.image), c.layout, |c.ranges|, c.c0, c.c1, c.c2, c.c3];
    PaddedChunks(header, chunks, RANGE, MAX_CLEAR_RANGES);
    var p := Payload(c);
    assert forall i :: 0 <= i < CLEAR_HEADER ==> p[i] == header[i];
    JoinSplit(c.image);
    forall i | 0 <= i < |c.ranges| ensures RangeAt(chunks[i]) == c.ranges[i] && RangeWordsAreValid(chunks[i]) {
      RangeRoundTrip(c.ranges[i], chunks[i]);
    }
    assert ClearRanges(p)[..|c.ranges|] == chunks;
    assert RangesFrom(chunks) == c.ranges;
  }

  lemma ClearIsCanonical(p: Words)
    requires Valid(CLEAR_COLOR_IMAGE_GENERAL, p)
    ensures Appendable(Decode(CLEAR_COLOR_IMAGE_GENERAL, p)) && Payload(Decode(CLEAR_COLOR_IMAGE_GENERAL, p)) == p
  {
    var all := ClearRanges(p);
    var chunks := all[..p[3]];
    var ranges := RangesFrom(chunks);
    forall i | 0 <= i < p[3] ensures RangeIsValid(ranges[i]) && RangeWords(ranges[i]) == chunks[i] {
      assert chunks[i] == all[i];
      RangeRoundTrip(ranges[i], chunks[i]);
    }
    assert RangeChunks(ranges) == chunks;
    ZeroTailIsPadding(p, CLEAR_HEADER, RANGE, MAX_CLEAR_RANGES, p[3]);
    assert p == p[..CLEAR_HEADER] + p[CLEAR_HEADER..];
    assert p[..CLEAR_HEADER] == [Lo(Long(p, 0)), Hi(Long(p, 0)), p[2], p[3], p[4], p[5], p[6], p[7]];
  }

  lemma ZeroTailIsPadding(p: Words, at: nat, size: nat, n: nat, used: nat)
    requires used <= n && |p| == at + size * n
    requires forall i :: used <= i < n ==> AllZero(Chunks(p, at, size, n)[i])
    ensures p[at..] == Pad(Flatten(Chunks(p, at, size, n)[..used]), size * n)
  {
    var all := Chunks(p, at, size, n);
    FlattenOfChunks(p, at, size, n);
    assert p[at..at + size * n] == p[at..];
    FlattenAppend(all[..used], all[used..]);
    assert all == all[..used] + all[used..];
    FlattenAllZero(all[used..]);
    PadsToLength(Flatten(all[..used]), Flatten(all[used..]), size * n);
  }

  lemma PadsToLength(ws: Words, zeros: Words, size: nat)
    requires AllZero(zeros) && |ws + zeros| == size
    ensures ws + zeros == Pad(ws, size)
  {
  }

  lemma {:induction false} FlattenAllZero(chunks: seq<Words>)
    requires forall i :: 0 <= i < |chunks| ==> AllZero(chunks[i])
    ensures AllZero(Flatten(chunks))
  {
    if chunks != [] { FlattenAllZero(chunks[1..]); }
  }

  lemma InitReads(ids: seq<u64>)
    requires |ids| <= MAX_INIT_IMAGE_BARRIERS
    ensures var p := [|ids|, 0] + Pad(Flatten(LongChunks(ids)), 2 * MAX_INIT_IMAGE_BARRIERS);
      && |p| == 10 && p[0] == |ids| && p[1] == 0
      && forall i :: 0 <= i < MAX_INIT_IMAGE_BARRIERS ==> InitIds(p)[i] == if i < |ids| then ids[i] else 0
  {
    var chunks := LongChunks(ids);
    var header := [|ids|, 0];
    PaddedChunks(header, chunks, 2, MAX_INIT_IMAGE_BARRIERS);
    var p := header + Pad(Flatten(chunks), 2 * MAX_INIT_IMAGE_BARRIERS);
    forall i | 0 <= i < MAX_INIT_IMAGE_BARRIERS ensures InitIds(p)[i] == if i < |ids| then ids[i] else 0 {
      ChunkAt(p, 2, 2, MAX_INIT_IMAGE_BARRIERS, i);
      assert InitIds(p)[i] == Long(Chunks(p, 2, 2, MAX_INIT_IMAGE_BARRIERS)[i], 0);
      if i < |ids| { JoinSplit(ids[i]); }
    }
  }

  lemma InitPayload(c: Command)
    requires Appendable(c) && c.InitBarrier?
    ensures Valid(INIT_IMAGE_BARRIER, Payload(c)) && Decode(INIT_IMAGE_BARRIER, Payload(c)) == c
  {
    InitReads(c.ids);
    var all := InitIds(Payload(c));
    assert all[..|c.ids|] == c.ids;
    forall i | 0 <= i < |c.ids| ensures all[i] !in all[..i] {
      assert forall j :: 0 <= j < i ==> all[..i][j] == c.ids[j];
    }
  }

  lemma InitIsCanonical(p: Words)
    requires Valid(INIT_IMAGE_BARRIER, p)
    ensures Appendable(Decode(INIT_IMAGE_BARRIER, p)) && Payload(Decode(INIT_IMAGE_BARRIER, p)) == p
  {
    var all := InitIds(p);
    var ids := all[..p[0]];
    forall i, j | 0 <= i < j < |ids| ensures ids[i] != ids[j] {
      assert all[j] !in all[..j] && all[..j][i] == ids[i];
    }
    InitReads(ids);
    var q := [|ids|, 0] + Pad(Flatten(LongChunks(ids)), 2 * MAX_INIT_IMAGE_BARRIERS);
    assert forall i :: 0 <= i < MAX_INIT_IMAGE_BARRIERS ==> InitIds(q)[i] == InitIds(p)[i];
    IdsDetermineWords(p, q);
  }

  lemma IdsDetermineWords(p: Words, q: Words)
    requires LengthFits(INIT_IMAGE_BARRIER, p) && LengthFits(INIT_IMAGE_BARRIER, q)
    requires p[0] == q[0] && p[1] == q[1]
    requires forall i :: 0 <= i < MAX_INIT_IMAGE_BARRIERS ==> InitIds(p)[i] == InitIds(q)[i]
    ensures p == q
  {
    assert InitIds(p)[0] == InitIds(q)[0] && InitIds(p)[1] == InitIds(q)[1];
    assert InitIds(p)[2] == InitIds(q)[2] && InitIds(p)[3] == InitIds(q)[3];
  }

  // ---------------------------------------------------------------- the whole payload codec

  // Every payload an append writes has the length its opcode and counts demand, and reads back
  // as the command; the validator accepts it unless a filter was set where none belongs.
  lemma AppendedPayload(c: Command)
    requires Appendable(c)
    ensures LengthFits(Opcode(c), Payload(c)) && CountsFit(Opcode(c), Payload(c))
    ensures Decode(Opcode(c), Payload(c)) == c
    ensures PayloadIsValid(Opcode(c), Payload(c)) <==> FilterIsClear(c)
  {
    match c
    case FillBuffer(_, _, _, _) => FixedPayload(c);
    case Barrier2(_, _, _, _) => BarrierPayload(c);
    case ClearColor(_, _, _, _, _, _, _) => ClearPayload(c);
    case Transfer(_, _, _, _, _, _, _) => TransferPayload(c);
    case InitBarrier(_) => InitPayload(c);
    case End => FixedPayload(c);
    case UpdateBuffer(_, _, _) => UpdatePayload(c);
    case Query(_, _, _, _, _, _, _) => FixedPayload(c);
  }

  // Every payload the validator accepts keeps all counts in bounds and is the one way to write
  // the command it decodes to, which an append would take.
  lemma ValidPayloadIsCanonical(opcode: u16, p: Words)
    requires Valid(opcode, p)
    ensures CountsFit(opcode, p)
    ensures Appendable(Decode(opcode, p)) && FilterIsClear(Decode(opcode, p))
    ensures Payload(Decode(opcode, p)) == p
  {
    if opcode == IMAGE_BARRIER_2 {
      BarrierIsCanonical(p);
    } else if opcode == CLEAR_COLOR_IMAGE_GENERAL {
      ClearIsCanonical(p);
    } else if IsTransfer(opcode) {
      TransferIsCanonical(opcode, p);
    } else if opcode == INIT_IMAGE_BARRIER {
      InitIsCanonical(p);
    } else if opcode == UPDATE_BUFFER {
      UpdateIsCanonical(p);
    } else {
      FixedIsCanonical(opcode, p);
    }
  }

  // A buffer copy with a filter goes into a batch that its own validator then refuses.
  lemma FilterOnCopyIsRefused()
    ensures var buffer, zero, p := MakeId(BUFFER, 1), Layers(0, 0, 0, 0), Point(0, 0, 0);
      var c := Transfer(COPY_BUFFER_2, buffer, buffer, 0, 0, 1, [Region(0, 0, 4, 0, 0, zero, zero, p, p, p, p, 0, 0, 0)]);
      Appendable(c) && LengthFits(Opcode(c), Payload(c)) && !PayloadIsValid(Opcode(c), Payload(c))
  {
    var buffer, zero, p := MakeId(BUFFER, 1), Layers(0, 0, 0, 0), Point(0, 0, 0);
    IdRoundTrip(0, BUFFER, 1, BUFFER);
    AppendedPayload(Transfer(COPY_BUFFER_2, buffer, buffer, 0, 0, 1, [Region(0, 0, 4, 0, 0, zero, zero, p, p, p, p, 0, 0, 0)]));
  }
}
