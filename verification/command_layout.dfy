/**
 * The command payloads as a reader of the format sees them: which word is
 * which field, and what each may hold.  Nothing here uses the helpers of the
 * encoder or of the validator; opcodes, object types, limits and offsets are
 * written out.  Word i of a payload is at byte 4 * i.
 */
module CommandLayout {
  import opened Handles
  import opened Wire
  import opened Commands

  // ---------------------------------------------------------------- transfers

  // The types of the objects read and written, by opcode: 19 is a buffer, 7 an image.
  function ReadType(opcode: u16): nat {
    match opcode
    case 14 => 19
    case 15 => 19
    case _ => 7
  }

  function WrittenType(opcode: u16): nat {
    match opcode
    case 14 => 19
    case 16 => 19
    case _ => 7
  }

  // 32 words: offsets into buffers, size, row length and height; aspect, level, layer and count of
  // the source and then of the destination; four points; the extent; and a zero.
  predicate RegionLaw(opcode: u16, p: Words, i: nat)
    requires 8 + 32 * i + 32 <= |p|
  {
    var at := 8 + 32 * i;
    && (if opcode == 14 then p[at + 4] != 0 || p[at + 5] != 0 else p[at + 28] != 0 && p[at + 29] != 0 && p[at + 30] != 0)
    && (ReadType(opcode) == 7 ==> p[at + 8] != 0 && p[at + 11] != 0)
    && (WrittenType(opcode) == 7 ==> p[at + 12] != 0 && p[at + 15] != 0)
    && p[at + 31] == 0
  }

  predicate TransferLaw(opcode: u16, p: Words) {
    && |p| >= 8 && 1 <= p[7] <= 16 && |p| == 8 + 32 * p[7]
    && Names(Long(p, 0), ReadType(opcode)) && Names(Long(p, 2), WrittenType(opcode))
    && (ReadType(opcode) == 7 ==> p[4] != 0) && (WrittenType(opcode) == 7 ==> p[5] != 0)
    && (if opcode == 18 then p[6] == 0 || p[6] == 1 else p[6] == 0)
    && forall i :: 0 <= i < p[7] ==> RegionLaw(opcode, p, i)
  }

  // ---------------------------------------------------------------- barriers

  // 16 words: stages and accesses, two queue families, the buffer at word 10 and its size at 14.
  predicate BufferLaw(p: Words, i: nat)
    requires |p| >= 4 && 4 + 8 * p[1] + 16 * i + 16 <= |p|
  {
    var at := 4 + 8 * p[1] + 16 * i;
    Names(Long(p, at + 10), 19) && (p[at + 14] != 0 || p[at + 15] != 0)
  }

  // 20 words: stages and accesses, layouts, two queue families, the image at word 12, and a range.
  predicate ImageLaw(p: Words, i: nat)
    requires |p| >= 4 && 4 + 8 * p[1] + 16 * p[2] + 20 * i + 20 <= |p|
  {
    var at := 4 + 8 * p[1] + 16 * p[2] + 20 * i;
    Names(Long(p, at + 12), 7) && p[at + 14] != 0 && p[at + 16] != 0 && p[at + 18] != 0 && p[at + 19] == 0
  }

  predicate BarrierLaw(p: Words) {
    && |p| >= 4 && p[1] <= 64 && p[2] <= 256 && p[3] <= 2048
    && |p| == 4 + 8 * p[1] + 16 * p[2] + 20 * p[3]
    && p[0] < 128 && p[0] % 32 < 16
    && (forall i :: 0 <= i < p[2] ==> BufferLaw(p, i))
    && (forall i :: 0 <= i < p[3] ==> ImageLaw(p, i))
  }

  // ---------------------------------------------------------------- the others

  // Six words: aspect, level, level count, layer, layer count, and a zero; an unused one is all zero.
  predicate RangeLaw(p: Words, i: nat)
    requires 8 + 6 * i + 6 <= |p|
  {
    var at := 8 + 6 * i;
    if i < p[3] then p[at] != 0 && p[at + 2] != 0 && p[at + 4] != 0 && p[at + 5] == 0
    else forall k :: at <= k < at + 6 ==> p[k] == 0
  }

  predicate ClearLaw(p: Words) {
    && |p| == 32 && Names(Long(p, 0), 7) && p[2] != 0 && 1 <= p[3] <= 4
    && forall i :: 0 <= i < 4 ==> RangeLaw(p, i)
  }

  predicate InitLaw(p: Words) {
    && |p| == 10 && 1 <= p[0] <= 4 && p[1] == 0
    && (forall i :: 0 <= i < p[0] ==> Names(IdAt(p, i), 7))
    && (forall i, j :: 0 <= i < j < p[0] ==> IdAt(p, i) != IdAt(p, j))
    && (forall i :: p[0] <= i < 4 ==> IdAt(p, i) == 0)
  }

  function IdAt(p: Words, i: nat): u64
    requires |p| == 10 && i < 4
  {
    Long(p, 2 + 2 * i)
  }

  predicate FillLaw(p: Words) {
    && |p| == 8 && Names(Long(p, 0), 19)
    && p[2] % 4 == 0 && p[4] % 4 == 0 && (p[4] != 0 || p[5] != 0) && p[7] == 0
  }

  predicate UpdateLaw(p: Words) {
    && |p| >= 6 && 1 <= p[4] <= 65536 && p[4] % 4 == 0 && |p| == 6 + p[4] / 4
    && Names(Long(p, 0), 19) && p[2] % 4 == 0 && p[5] == 0
  }

  // Kinds 1 to 7: only 4 and 5 name a stage, only 1 counts more than one, only 2 and 6 take a flag,
  // and only 6 and 7 an index.
  predicate QueryLaw(p: Words) {
    && |p| == 10 && Names(Long(p, 0), 25) && p[5] != 0 && p[9] == 0
    && 1 <= p[8] <= 7
    && (Long(p, 2) != 0 <==> p[8] == 4 || p[8] == 5)
    && (p[8] != 1 ==> p[5] == 1)
    && p[6] <= (if p[8] == 2 || p[8] == 6 then 1 else 0)
    && (p[8] < 6 ==> p[7] == 0)
  }

  predicate Law(opcode: u16, p: Words) {
    match opcode
    case 7 => FillLaw(p)
    case 10 => BarrierLaw(p)
    case 11 => ClearLaw(p)
    case 22 => InitLaw(p)
    case 23 => p == []
    case 36 => UpdateLaw(p)
    case 37 => QueryLaw(p)
    case _ => 14 <= opcode <= 19 && TransferLaw(opcode, p)
  }

  // ---------------------------------------------------------------- the validator keeps the law

  lemma LongIsZero(p: Words, i: nat)
    requires i + 2 <= |p|
    ensures Long(p, i) == 0 <==> p[i] == 0 && p[i + 1] == 0
    ensures Long(p, i) % 4 == p[i] % 4
  {
    var hi: nat := p[i + 1];
    QuartersDrop(p[i], 0x4000_0000 * hi);
  }

  lemma QuartersDrop(a: nat, b: nat)
    ensures (a + 4 * b) % 4 == a % 4
  {
  }

  lemma RegionIsLawful(opcode: u16, p: Words, i: nat)
    requires IsTransfer(opcode) && LengthFits(opcode, p) && i < p[7]
    ensures RegionWordsAreValid(opcode, TransferRegions(opcode, p)[i]) <==> RegionLaw(opcode, p, i)
  {
    ChunkAt(p, 8, 32, p[7], i);
    var ws := p[8 + 32 * i..8 + 32 * i + 32];
    assert TransferRegions(opcode, p)[i] == ws;
    LongIsZero(ws, 4);
  }

  lemma TransferIsLawful(opcode: u16, p: Words)
    requires 14 <= opcode <= 19
    ensures Valid(opcode, p) <==> TransferLaw(opcode, p)
  {
    if LengthFits(opcode, p) {
      NamesIsExpect(Long(p, 0), ReadType(opcode));
      NamesIsExpect(Long(p, 2), WrittenType(opcode));
      forall i | 0 <= i < p[7]
        ensures RegionWordsAreValid(opcode, TransferRegions(opcode, p)[i]) <==> RegionLaw(opcode, p, i)
      {
        RegionIsLawful(opcode, p, i);
      }
    }
  }

  lemma BufferIsLawful(p: Words, i: nat)
    requires LengthFits(IMAGE_BARRIER_2, p) && i < p[2]
    ensures 4 + 8 * p[1] + 16 * i + 16 <= |p|
    ensures BufferWordsAreValid(BarrierBuffers(p)[i]) <==> BufferLaw(p, i)
  {
    var at := 4 + 8 * p[1] + 16 * i;
    ChunkAt(p, 4 + 8 * p[1], 16, p[2], i);
    var ws := p[at..at + 16];
    assert BarrierBuffers(p)[i] == ws;
    NamesIsExpect(Long(ws, 10), 19);
    LongIsZero(ws, 14);
  }

  lemma ImageIsLawful(p: Words, i: nat)
    requires LengthFits(IMAGE_BARRIER_2, p) && i < p[3]
    ensures 4 + 8 * p[1] + 16 * p[2] + 20 * i + 20 <= |p|
    ensures ImageWordsAreValid(BarrierImages(p)[i]) <==> ImageLaw(p, i)
  {
    var at := 4 + 8 * p[1] + 16 * p[2] + 20 * i;
    ChunkAt(p, 4 + 8 * p[1] + 16 * p[2], 20, p[3], i);
    var ws := p[at..at + 20];
    assert BarrierImages(p)[i] == ws;
    NamesIsExpect(Long(ws, 12), 7);
    assert forall k :: 0 <= k < 6 ==> ws[14..][k] == p[at + 14 + k];
  }

  lemma BarrierIsLawful(p: Words)
    ensures Valid(10, p) <==> BarrierLaw(p)
  {
    if LengthFits(10, p) {
      forall i | 0 <= i < p[2]
        ensures BufferWordsAreValid(BarrierBuffers(p)[i]) <==> BufferLaw(p, i)
      {
        BufferIsLawful(p, i);
      }
      forall i | 0 <= i < p[3]
        ensures ImageWordsAreValid(BarrierImages(p)[i]) <==> ImageLaw(p, i)
      {
        ImageIsLawful(p, i);
      }
    }
  }

  lemma RangeIsLawful(p: Words, i: nat)
    requires |p| == 32 && i < 4
    ensures (if i < p[3] then RangeWordsAreValid(ClearRanges(p)[i]) else AllZero(ClearRanges(p)[i])) <==> RangeLaw(p, i)
  {
    var at := 8 + 6 * i;
    ChunkAt(p, 8, 6, 4, i);
    var ws := p[at..at + 6];
    assert ClearRanges(p)[i] == ws;
    assert forall k :: at <= k < at + 6 ==> ws[k - at] == p[k];
    assert forall k :: 0 <= k < 6 ==> ws[k] == p[at + k];
  }

  lemma ClearIsLawful(p: Words)
    ensures Valid(11, p) <==> ClearLaw(p)
  {
    if |p| == 32 {
      NamesIsExpect(Long(p, 0), 7);
      forall i | 0 <= i < 4
        ensures (if i < p[3] then RangeWordsAreValid(ClearRanges(p)[i]) else AllZero(ClearRanges(p)[i])) <==> RangeLaw(p, i)
      {
        RangeIsLawful(p, i);
      }
    }
  }

  lemma InitIsLawful(p: Words)
    ensures Valid(22, p) <==> InitLaw(p)
  {
    if |p| == 10 {
      var ids := InitIds(p);
      forall i | 0 <= i < 4 ensures ids[i] == IdAt(p, i) && (Names(ids[i], 7) <==> Expect(ids[i], 7)) {
        NamesIsExpect(ids[i], 7);
      }
      if p[0] <= 4 {
        assert (forall i :: 0 <= i < p[0] ==> ids[i] !in ids[..i]) <==> (forall i, j :: 0 <= i < j < p[0] ==> ids[i] != ids[j]) by {
          assert forall i, j :: 0 <= i < j < 4 ==> ids[..j][i] == ids[i];
        }
      }
    }
  }

  lemma SmallIsLawful(opcode: u16, p: Words)
    requires opcode == 7 || opcode == 23 || opcode == 36 || opcode == 37
    ensures Valid(opcode, p) <==> Law(opcode, p)
  {
    if LengthFits(opcode, p) && opcode != 23 {
      NamesIsExpect(Long(p, 0), 19);
      NamesIsExpect(Long(p, 0), 25);
      LongIsZero(p, 2);
      LongIsZero(p, 4);
    }
  }

  // The validator accepts exactly the lawful payloads.
  lemma ValidIsLawful(opcode: u16, p: Words)
    ensures Valid(opcode, p) <==> Law(opcode, p)
  {
    if 14 <= opcode <= 19 { TransferIsLawful(opcode, p); }
    else if opcode == 10 { BarrierIsLawful(p); }
    else if opcode == 11 { ClearIsLawful(p); }
    else if opcode == 22 { InitIsLawful(p); }
    else if opcode == 7 || opcode == 23 || opcode == 36 || opcode == 37 { SmallIsLawful(opcode, p); }
  }

  // ---------------------------------------------------------------- what appends take

  // What an append takes, the validator accepts, except that only blits have their filter looked at.
  lemma AppendIsLawful(c: Command)
    requires Appendable(c)
    ensures Law(Opcode(c), Payload(c)) <==> (14 <= Opcode(c) <= 19 && Opcode(c) != 18 ==> c.filter == 0)
  {
    AppendedPayload(c);
    ValidIsLawful(Opcode(c), Payload(c));
  }

  // Whatever is lawful can be appended.
  lemma LawfulIsAppended(opcode: u16, p: Words)
    requires Law(opcode, p)
    ensures CountsFit(opcode, p) && Appendable(Decode(opcode, p)) && Payload(Decode(opcode, p)) == p
  {
    ValidIsLawful(opcode, p);
    ValidPayloadIsCanonical(opcode, p);
  }

  lemma FilterIsIgnored(c: Command, filter: u32)
    requires c.Transfer? && c.kind != 18
    ensures Appendable(c.(filter := filter)) <==> Appendable(c)
  {
  }

  // A transfer of one pixel, or of four bytes.
  function OneRegion(kind: u16, source: u64, destination: u64): Command {
    var layers, origin := Layers(1, 0, 0, 1), Point(0, 0, 0);
    Transfer(kind, source, destination, 1, 1, 0,
      [Region(0, 0, 4, 0, 0, layers, layers, origin, origin, origin, origin, 1, 1, 1)])
  }

  // Which objects each transfer moves data between, and that it does take such objects.
  lemma TransferObjects(source: u64, destination: u64)
    ensures Appendable(OneRegion(14, source, destination)) <==> Names(source, 19) && Names(destination, 19)
    ensures Appendable(OneRegion(15, source, destination)) <==> Names(source, 19) && Names(destination, 7)
    ensures Appendable(OneRegion(16, source, destination)) <==> Names(source, 7) && Names(destination, 19)
    ensures Appendable(OneRegion(17, source, destination)) <==> Names(source, 7) && Names(destination, 7)
    ensures Appendable(OneRegion(18, source, destination)) <==> Names(source, 7) && Names(destination, 7)
    ensures Appendable(OneRegion(19, source, destination)) <==> Names(source, 7) && Names(destination, 7)
    ensures Names(MakeId(BUFFER, 1), 19) && Names(MakeId(IMAGE, 1), 7)
  {
    NamesIsExpect(source, 19);
    NamesIsExpect(source, 7);
    NamesIsExpect(destination, 19);
    NamesIsExpect(destination, 7);
  }

  // ---------------------------------------------------------------- where each field lies

  function Signed(w: u32): i32 {
    if w < 0x8000_0000 then w else w - 0x1_0000_0000
  }

  predicate PointIsAt(q: Point, p: Words, at: nat)
    requires at + 3 <= |p|
  {
    q.x == Signed(p[at]) && q.y == Signed(p[at + 1]) && q.z == Signed(p[at + 2])
  }

  predicate LayersAreAt(l: Layers, p: Words, at: nat)
    requires at + 4 <= |p|
  {
    l.aspect == p[at] && l.level == p[at + 1] && l.baseLayer == p[at + 2] && l.count == p[at + 3]
  }

  predicate RegionIsAt(r: Region, p: Words, at: nat)
    requires at + 32 <= |p|
  {
    && r.sourceOffset == Long(p, at) && r.destinationOffset == Long(p, at + 2) && r.size == Long(p, at + 4)
    && r.rowLength == p[at + 6] && r.imageHeight == p[at + 7]
    && LayersAreAt(r.sourceLayers, p, at + 8) && LayersAreAt(r.destinationLayers, p, at + 12)
    && PointIsAt(r.source0, p, at + 16) && PointIsAt(r.source1, p, at + 19)
    && PointIsAt(r.destination0, p, at + 22) && PointIsAt(r.destination1, p, at + 25)
    && r.width == p[at + 28] && r.height == p[at + 29] && r.depth == p[at + 30]
  }

  predicate MemoryIsAt(m: MemoryBarrier, p: Words, at: nat)
    requires at + 8 <= |p|
  {
    && m.sourceStage == Long(p, at) && m.sourceAccess == Long(p, at + 2)
    && m.destinationStage == Long(p, at + 4) && m.destinationAccess == Long(p, at + 6)
  }

  predicate BufferIsAt(m: BufferBarrier, p: Words, at: nat)
    requires at + 16 <= |p|
  {
    && MemoryIsAt(m.scope, p, at) && m.sourceFamily == p[at + 8] && m.destinationFamily == p[at + 9]
    && m.buffer == Long(p, at + 10) && m.offset == Long(p, at + 12) && m.size == Long(p, at + 14)
  }

  predicate RangeIsAt(r: Range, p: Words, at: nat)
    requires at + 6 <= |p|
  {
    r.aspect == p[at] && r.baseLevel == p[at + 1] && r.levels == p[at + 2] && r.baseLayer == p[at + 3] && r.layers == p[at + 4]
  }

  predicate ImageIsAt(m: ImageBarrier, p: Words, at: nat)
    requires at + 20 <= |p|
  {
    && MemoryIsAt(m.scope, p, at) && m.oldLayout == p[at + 8] && m.newLayout == p[at + 9]
    && m.sourceFamily == p[at + 10] && m.destinationFamily == p[at + 11]
    && m.image == Long(p, at + 12) && RangeIsAt(m.range, p, at + 14)
  }

  // Every field of a command in its place.
  predicate IsAt(c: Command, p: Words) {
    match c
    case FillBuffer(buffer, offset, size, data) =>
      |p| == 8 && buffer == Long(p, 0) && offset == Long(p, 2) && size == Long(p, 4) && data == p[6]
    case Barrier2(flags, memory, buffers, images) =>
      && |p| == 4 + 8 * |memory| + 16 * |buffers| + 20 * |images|
      && flags == p[0] && |memory| == p[1] && |buffers| == p[2] && |images| == p[3]
      && (forall i :: 0 <= i < |memory| ==> MemoryIsAt(memory[i], p, 4 + 8 * i))
      && (forall i :: 0 <= i < |buffers| ==> BufferIsAt(buffers[i], p, 4 + 8 * |memory| + 16 * i))
      && (forall i :: 0 <= i < |images| ==> ImageIsAt(images[i], p, 4 + 8 * |memory| + 16 * |buffers| + 20 * i))
    case ClearColor(image, layout, c0, c1, c2, c3, ranges) =>
      && |p| == 32 && |ranges| <= 4 && image == Long(p, 0) && layout == p[2] && |ranges| == p[3]
      && c0 == p[4] && c1 == p[5] && c2 == p[6] && c3 == p[7]
      && forall i :: 0 <= i < |ranges| ==> RangeIsAt(ranges[i], p, 8 + 6 * i)
    case Transfer(_, source, destination, sourceLayout, destinationLayout, filter, regions) =>
      && |p| == 8 + 32 * |regions| && source == Long(p, 0) && destination == Long(p, 2)
      && sourceLayout == p[4] && destinationLayout == p[5] && filter == p[6] && |regions| == p[7]
      && forall i :: 0 <= i < |regions| ==> RegionIsAt(regions[i], p, 8 + 32 * i)
    case InitBarrier(ids) =>
      |p| == 10 && |ids| <= 4 && |ids| == p[0] && forall i :: 0 <= i < |ids| ==> ids[i] == Long(p, 2 + 2 * i)
    case End => p == []
    case UpdateBuffer(buffer, offset, bytes) =>
      && |p| >= 6 && buffer == Long(p, 0) && offset == Long(p, 2) && |bytes| == p[4]
      && |bytes| % 4 == 0 && ToWords(bytes) == p[6..]
    case Query(pool, stage, first, count, flags, index, kind) =>
      && |p| == 10 && pool == Long(p, 0) && stage == Long(p, 2) && first == p[4] && count == p[5]
      && flags == p[6] && index == p[7] && kind == p[8]
  }

  lemma RegionLies(p: Words, at: nat)
    requires at + 32 <= |p|
    ensures RegionIsAt(RegionAt(p[at..at + 32]), p, at)
  {
    var ws := p[at..at + 32];
    assert forall k :: 0 <= k < 32 ==> ws[k] == p[at + k];
  }

  lemma MemoryLies(p: Words, at: nat)
    requires at + 8 <= |p|
    ensures MemoryIsAt(MemoryAt(p[at..at + 8]), p, at)
  {
  }

  lemma BufferLies(p: Words, at: nat)
    requires at + 16 <= |p|
    ensures BufferIsAt(BufferAt(p[at..at + 16]), p, at)
  {
  }

  lemma ImageLies(p: Words, at: nat)
    requires at + 20 <= |p|
    ensures ImageIsAt(ImageAt(p[at..at + 20]), p, at)
  {
    assert p[at..at + 20][14..] == p[at + 14..at + 20];
  }

  lemma RegionOfTransferLies(opcode: u16, p: Words, i: nat)
    requires 14 <= opcode <= 19 && LengthFits(opcode, p) && i < p[7]
    ensures RegionsFrom(TransferRegions(opcode, p))[i] == RegionAt(p[8 + 32 * i..8 + 32 * i + 32])
  {
    ChunkAt(p, 8, 32, p[7], i);
  }

  lemma TransferLies(opcode: u16, p: Words)
    requires 14 <= opcode <= 19 && LengthFits(opcode, p)
    ensures IsAt(Decode(opcode, p), p)
  {
    forall i | 0 <= i < p[7] ensures RegionIsAt(RegionsFrom(TransferRegions(opcode, p))[i], p, 8 + 32 * i) {
      RegionOfTransferLies(opcode, p, i);
      RegionLies(p, 8 + 32 * i);
    }
  }

  lemma MemoryOfBarrierLies(p: Words, i: nat)
    requires LengthFits(10, p) && i < p[1]
    ensures 4 + 8 * i + 8 <= |p| && MemoryIsAt(MemoryFrom(BarrierMemory(p))[i], p, 4 + 8 * i)
  {
    ChunkAt(p, 4, 8, p[1], i);
    MemoryLies(p, 4 + 8 * i);
  }

  lemma BufferOfBarrierLies(p: Words, i: nat)
    requires LengthFits(10, p) && i < p[2]
    ensures var at := 4 + 8 * p[1] + 16 * i; at + 16 <= |p| && BufferIsAt(BuffersFrom(BarrierBuffers(p))[i], p, at)
  {
    ChunkAt(p, 4 + 8 * p[1], 16, p[2], i);
    BufferLies(p, 4 + 8 * p[1] + 16 * i);
  }

  lemma ImageOfBarrierLies(p: Words, i: nat)
    requires LengthFits(10, p) && i < p[3]
    ensures var at := 4 + 8 * p[1] + 16 * p[2] + 20 * i; at + 20 <= |p| && ImageIsAt(ImagesFrom(BarrierImages(p))[i], p, at)
  {
    ChunkAt(p, 4 + 8 * p[1] + 16 * p[2], 20, p[3], i);
    ImageLies(p, 4 + 8 * p[1] + 16 * p[2] + 20 * i);
  }

  lemma BarrierLies(p: Words)
    requires LengthFits(10, p)
    ensures IsAt(Decode(10, p), p)
  {
    forall i | 0 <= i < p[1] ensures MemoryIsAt(MemoryFrom(BarrierMemory(p))[i], p, 4 + 8 * i) {
      MemoryOfBarrierLies(p, i);
    }
    forall i | 0 <= i < p[2] ensures BufferIsAt(BuffersFrom(BarrierBuffers(p))[i], p, 4 + 8 * p[1] + 16 * i) {
      BufferOfBarrierLies(p, i);
    }
    forall i | 0 <= i < p[3] ensures ImageIsAt(ImagesFrom(BarrierImages(p))[i], p, 4 + 8 * p[1] + 16 * p[2] + 20 * i) {
      ImageOfBarrierLies(p, i);
    }
  }

  lemma ClearLies(p: Words)
    requires LengthFits(11, p) && CountsFit(11, p)
    ensures IsAt(Decode(11, p), p)
  {
    var c := Decode(11, p);
    forall i | 0 <= i < |c.ranges| ensures RangeIsAt(c.ranges[i], p, 8 + 6 * i) {
      ChunkAt(p, 8, 6, 4, i);
    }
  }

  lemma SmallLies(opcode: u16, p: Words)
    requires LengthFits(opcode, p) && CountsFit(opcode, p)
    requires opcode == 7 || opcode == 22 || opcode == 23 || opcode == 36 || opcode == 37
    ensures IsAt(Decode(opcode, p), p)
  {
    if opcode == 36 {
      WordsRoundTrip(p[6..]);
    } else if opcode == 22 {
      var ids := InitIds(p);
      assert forall i :: 0 <= i < 4 ==> ids[i] == Long(p, 2 + 2 * i);
    }
  }

  // Each field of a decoded command is read from its own place in the payload.
  lemma DecodedFieldsLie(opcode: u16, p: Words)
    requires LengthFits(opcode, p) && CountsFit(opcode, p)
    ensures IsAt(Decode(opcode, p), p)
  {
    if 14 <= opcode <= 19 { TransferLies(opcode, p); }
    else if opcode == 10 { BarrierLies(p); }
    else if opcode == 11 { ClearLies(p); }
    else { SmallLies(opcode, p); }
  }

  // And so each field of an appended command is written to that place.
  lemma EncodedFieldsLie(c: Command)
    requires Appendable(c)
    ensures IsAt(c, Payload(c))
  {
    AppendedPayload(c);
    DecodedFieldsLie(Opcode(c), Payload(c));
  }

  // Word i of a payload is its 32-bit field at byte 4 * i.
  lemma WordLiesAtByte(p: Words, i: nat)
    requires i < |p|
    ensures GetU32(ToBytes(p), 4 * i) == p[i]
  {
    WordsRoundTrip(p);
    FieldIsWord(ToBytes(p), i);
  }
}
