/**
 * The loops that write, check and read command payloads, proved against the
 * payload functions of Commands.
 */
module CommandCodec {
  import opened Errno
  import opened Handles
  import opened Wire
  import opened Commands

  // ---------------------------------------------------------------- writing

  method WriteRegions(kind: u16, regions: seq<Region>) returns (status: int, body: Words)
    ensures status == (if forall i :: 0 <= i < |regions| ==> RegionIsValid(kind, regions[i]) then 0 else EINVAL)
    ensures status == 0 ==> body == Flatten(RegionChunks(regions))
  {
    body := [];
    for index := 0 to |regions|
      invariant forall i :: 0 <= i < index ==> RegionIsValid(kind, regions[i])
      invariant body == Flatten(RegionChunks(regions[..index]))
    {
      var region := regions[index];
      if !RegionIsValid(kind, region) {
        return EINVAL, [];
      }
      FlattenSnoc(RegionChunks(regions[..index]), RegionWords(region));
      assert RegionChunks(regions[..index + 1]) == RegionChunks(regions[..index]) + [RegionWords(region)];
      body := body + RegionWords(region);
    }
    assert regions[..|regions|] == regions;
    status := 0;
  }

  method WriteMemory(barriers: seq<MemoryBarrier>) returns (body: Words)
    ensures body == Flatten(MemoryChunks(barriers))
  {
    body := [];
    for index := 0 to |barriers|
      invariant body == Flatten(MemoryChunks(barriers[..index]))
    {
      FlattenSnoc(MemoryChunks(barriers[..index]), MemoryWords(barriers[index]));
      assert MemoryChunks(barriers[..index + 1]) == MemoryChunks(barriers[..index]) + [MemoryWords(barriers[index])];
      body := body + MemoryWords(barriers[index]);
    }
    assert barriers[..|barriers|] == barriers;
  }

  method WriteBuffers(barriers: seq<BufferBarrier>) returns (status: int, body: Words)
    ensures status == (if forall i :: 0 <= i < |barriers| ==> BufferBarrierIsValid(barriers[i]) then 0 else EINVAL)
    ensures status == 0 ==> body == Flatten(BufferChunks(barriers))
  {
    body := [];
    for index := 0 to |barriers|
      invariant forall i :: 0 <= i < index ==> BufferBarrierIsValid(barriers[i])
      invariant body == Flatten(BufferChunks(barriers[..index]))
    {
      if !BufferBarrierIsValid(barriers[index]) {
        return EINVAL, [];
      }
      FlattenSnoc(BufferChunks(barriers[..index]), BufferWords(barriers[index]));
      assert BufferChunks(barriers[..index + 1]) == BufferChunks(barriers[..index]) + [BufferWords(barriers[index])];
      body := body + BufferWords(barriers[index]);
    }
    assert barriers[..|barriers|] == barriers;
    status := 0;
  }

  method WriteImages(barriers: seq<ImageBarrier>) returns (status: int, body: Words)
    ensures status == (if forall i :: 0 <= i < |barriers| ==> ImageBarrierIsValid(barriers[i]) then 0 else EINVAL)
    ensures status == 0 ==> body == Flatten(ImageChunks(barriers))
  {
    body := [];
    for index := 0 to |barriers|
      invariant forall i :: 0 <= i < index ==> ImageBarrierIsValid(barriers[i])
      invariant body == Flatten(ImageChunks(barriers[..index]))
    {
      if !ImageBarrierIsValid(barriers[index]) {
        return EINVAL, [];
      }
      FlattenSnoc(ImageChunks(barriers[..index]), ImageWords(barriers[index]));
      assert ImageChunks(barriers[..index + 1]) == ImageChunks(barriers[..index]) + [ImageWords(barriers[index])];
      body := body + ImageWords(barriers[index]);
    }
    assert barriers[..|barriers|] == barriers;
    status := 0;
  }

  method WriteRanges(ranges: seq<Range>) returns (status: int, body: Words)
    ensures status == (if forall i :: 0 <= i < |ranges| ==> RangeIsValid(ranges[i]) then 0 else EINVAL)
    ensures status == 0 ==> body == Flatten(RangeChunks(ranges))
  {
    body := [];
    for index := 0 to |ranges|
      invariant forall i :: 0 <= i < index ==> RangeIsValid(ranges[i])
      invariant body == Flatten(RangeChunks(ranges[..index]))
    {
      if !RangeIsValid(ranges[index]) {
        return EINVAL, [];
      }
      FlattenSnoc(RangeChunks(ranges[..index]), RangeWords(ranges[index]));
      assert RangeChunks(ranges[..index + 1]) == RangeChunks(ranges[..index]) + [RangeWords(ranges[index])];
      body := body + RangeWords(ranges[index]);
    }
    assert ranges[..|ranges|] == ranges;
    status := 0;
  }

  method WriteIds(ids: seq<u64>) returns (status: int, body: Words)
    ensures status == (if (forall i :: 0 <= i < |ids| ==> Expect(ids[i], IMAGE)) && Distinct(ids) then 0 else EINVAL)
    ensures status == 0 ==> body == Flatten(LongChunks(ids))
  {
    body := [];
    for index := 0 to |ids|
      invariant forall i :: 0 <= i < index ==> Expect(ids[i], IMAGE)
      invariant Distinct(ids[..index])
      invariant body == Flatten(LongChunks(ids[..index]))
    {
      if !Expect(ids[index], IMAGE) {
        return EINVAL, [];
      }
      for earlier := 0 to index
        invariant forall i :: 0 <= i < earlier ==> ids[i] != ids[index]
      {
        if ids[earlier] == ids[index] {
          return EINVAL, [];
        }
      }
      FlattenSnoc(LongChunks(ids[..index]), [Lo(ids[index]), Hi(ids[index])]);
      assert LongChunks(ids[..index + 1]) == LongChunks(ids[..index]) + [[Lo(ids[index]), Hi(ids[index])]];
      body := body + [Lo(ids[index]), Hi(ids[index])];
    }
    assert ids[..|ids|] == ids;
    status := 0;
  }

  // The check and the encoding that every append starts with.
  method Encode(c: Command) returns (status: int, p: Words)
    ensures status == (if Appendable(c) then 0 else EINVAL)
    ensures status == 0 ==> p == Payload(c)
  {
    status, p := EINVAL, [];
    match c
    case FillBuffer(buffer, offset, size, data) =>
      if size != 0 && offset % 4 == 0 && size % 4 == 0 && Expect(buffer, BUFFER) {
        status, p := 0, [Lo(buffer), Hi(buffer), Lo(offset), Hi(offset), Lo(size), Hi(size), data, 0];
      }
    case Barrier2(flags, memory, buffers, images) =>
      if OnlyDependencyBits(flags) && |memory| <= MAX_MEMORY_BARRIERS && |buffers| <= MAX_BUFFER_BARRIERS
        && |images| <= MAX_IMAGE_BARRIERS
      {
        var m := WriteMemory(memory);
        var b, i;
        status, b := WriteBuffers(buffers);
        if status == 0 { status, i := WriteImages(images); }
        if status == 0 { p := BarrierHeader(flags, |memory|, |buffers|, |images|) + (m + b + i); }
      }
    case ClearColor(image, layout, c0, c1, c2, c3, ranges) =>
      if layout != 0 && 0 < |ranges| <= MAX_CLEAR_RANGES && Expect(image, IMAGE) {
        var body;
        status, body := WriteRanges(ranges);
        if status == 0 {
          p := [Lo(image), Hi(image), layout, |ranges|, c0, c1, c2, c3] + Pad(body, RANGE * MAX_CLEAR_RANGES);
        }
      }
    case Transfer(kind, source, destination, sourceLayout, destinationLayout, filter, regions) =>
      if IsTransfer(kind) && 0 < |regions| <= MAX_TRANSFER_REGIONS
        && Expect(source, Side(ReadsBuffer(kind))) && Expect(destination, Side(WritesBuffer(kind)))
        && (ReadsBuffer(kind) || sourceLayout != 0) && (WritesBuffer(kind) || destinationLayout != 0)
        && (kind != BLIT_IMAGE_2 || filter <= 1)
      {
        var body;
        status, body := WriteRegions(kind, regions);
        if status == 0 {
          p := TransferHeader(source, destination, sourceLayout, destinationLayout, filter, |regions|) + body;
        }
      }
    case InitBarrier(ids) =>
      if 0 < |ids| <= MAX_INIT_IMAGE_BARRIERS {
        var body;
        status, body := WriteIds(ids);
        if status == 0 { p := [|ids|, 0] + Pad(body, 2 * MAX_INIT_IMAGE_BARRIERS); }
      }
    case End =>
      status := 0;
    case UpdateBuffer(buffer, offset, bytes) =>
      if Expect(buffer, BUFFER) && 0 < |bytes| <= MAX_UPDATE_BUFFER_BYTES && offset % 4 == 0 && |bytes| % 4 == 0 {
        status, p := 0, [Lo(buffer), Hi(buffer), Lo(offset), Hi(offset), |bytes|, 0] + ToWords(bytes);
      }
    case Query(pool, stage, first, count, flags, index, kind) =>
      if Expect(pool, QUERY_POOL) && count != 0 && QueryIsValid(stage, count, flags, index, kind) {
        status, p := 0, [Lo(pool), Hi(pool), Lo(stage), Hi(stage), first, count, flags, index, kind, 0];
      }
  }

  // ---------------------------------------------------------------- checking

  method CheckRegions(opcode: u16, p: Words) returns (ok: bool)
    requires IsTransfer(opcode) && LengthFits(opcode, p)
    ensures ok <==> forall i :: 0 <= i < p[7] ==> RegionWordsAreValid(opcode, TransferRegions(opcode, p)[i])
  {
    for index := 0 to p[7]
      invariant forall i :: 0 <= i < index ==> RegionWordsAreValid(opcode, TransferRegions(opcode, p)[i])
    {
      ChunkAt(p, TRANSFER_HEADER, REGION, p[7], index);
      var wire := p[TRANSFER_HEADER + REGION * index..TRANSFER_HEADER + REGION * index + REGION];
      assert TransferRegions(opcode, p)[index] == wire;
      if !RegionWordsAreValid(opcode, wire) {
        return false;
      }
    }
    ok := true;
  }

  method CheckBuffers(p: Words) returns (ok: bool)
    requires LengthFits(IMAGE_BARRIER_2, p)
    ensures ok <==> forall i :: 0 <= i < p[2] ==> BufferWordsAreValid(BarrierBuffers(p)[i])
  {
    var base := BARRIER_HEADER + MEMORY_BARRIER * p[1];
    for index := 0 to p[2]
      invariant forall i :: 0 <= i < index ==> BufferWordsAreValid(BarrierBuffers(p)[i])
    {
      var at := base + BUFFER_BARRIER * index;
      ChunkAt(p, base, BUFFER_BARRIER, p[2], index);
      var barrier := p[at..at + BUFFER_BARRIER];
      assert BarrierBuffers(p)[index] == barrier;
      if !BufferWordsAreValid(barrier) {
        return false;
      }
    }
    ok := true;
  }

  method CheckImages(p: Words) returns (ok: bool)
    requires LengthFits(IMAGE_BARRIER_2, p)
    ensures ok <==> forall i :: 0 <= i < p[3] ==> ImageWordsAreValid(BarrierImages(p)[i])
  {
    var base := BARRIER_HEADER + MEMORY_BARRIER * p[1] + BUFFER_BARRIER * p[2];
    for index := 0 to p[3]
      invariant forall i :: 0 <= i < index ==> ImageWordsAreValid(BarrierImages(p)[i])
    {
      var at := base + IMAGE_BARRIER * index;
      ChunkAt(p, base, IMAGE_BARRIER, p[3], index);
      var barrier := p[at..at + IMAGE_BARRIER];
      assert BarrierImages(p)[index] == barrier;
      if !ImageWordsAreValid(barrier) {
        return false;
      }
    }
    ok := true;
  }

  method CheckRanges(p: Words) returns (ok: bool)
    requires LengthFits(CLEAR_COLOR_IMAGE_GENERAL, p)
    ensures ok <==> forall i :: 0 <= i < MAX_CLEAR_RANGES ==>
      if i < p[3] then RangeWordsAreValid(ClearRanges(p)[i]) else AllZero(ClearRanges(p)[i])
  {
    for index := 0 to MAX_CLEAR_RANGES
      invariant forall i :: 0 <= i < index ==>
        if i < p[3] then RangeWordsAreValid(ClearRanges(p)[i]) else AllZero(ClearRanges(p)[i])
    {
      ChunkAt(p, CLEAR_HEADER, RANGE, MAX_CLEAR_RANGES, index);
      var range := p[CLEAR_HEADER + RANGE * index..CLEAR_HEADER + RANGE * index + RANGE];
      assert ClearRanges(p)[index] == range;
      if index < p[3] {
        if !RangeWordsAreValid(range) {
          return false;
        }
      } else if !AllZero(range) {
        return false;
      }
    }
    ok := true;
  }

  method CheckIds(p: Words) returns (ok: bool)
    requires LengthFits(INIT_IMAGE_BARRIER, p)
    ensures ok <==> forall i :: 0 <= i < MAX_INIT_IMAGE_BARRIERS ==>
      if i < p[0] then Expect(InitIds(p)[i], IMAGE) && InitIds(p)[i] !in InitIds(p)[..i] else InitIds(p)[i] == 0
  {
    var ids := InitIds(p);
    for index := 0 to MAX_INIT_IMAGE_BARRIERS
      invariant forall i :: 0 <= i < index ==>
        if i < p[0] then Expect(ids[i], IMAGE) && ids[i] !in ids[..i] else ids[i] == 0
    {
      if index >= p[0] {
        if ids[index] != 0 {
          return false;
        }
      } else {
        if !Expect(ids[index], IMAGE) {
          return false;
        }
        for earlier := 0 to index
          invariant forall i :: 0 <= i < earlier ==> ids[i] != ids[index]
        {
          if ids[earlier] == ids[index] {
            assert ids[..index][earlier] == ids[index];
            return false;
          }
        }
      }
    }
    ok := true;
  }

  method ValidatePayload(opcode: u16, p: Words) returns (status: int)
    requires LengthFits(opcode, p)
    ensures status == if PayloadIsValid(opcode, p) then 0 else EPROTO
  {
    var ok := false;
    if opcode == FILL_BUFFER {
      ok := Expect(Long(p, 0), BUFFER) && Long(p, 4) != 0 && Long(p, 2) % 4 == 0 && Long(p, 4) % 4 == 0 && p[7] == 0;
    } else if opcode == IMAGE_BARRIER_2 {
      if OnlyDependencyBits(p[0]) {
        ok := CheckBuffers(p);
        if ok { ok := CheckImages(p); }
      }
    } else if opcode == CLEAR_COLOR_IMAGE_GENERAL {
      if Expect(Long(p, 0), IMAGE) && p[2] != 0 && p[3] != 0 && p[3] <= MAX_CLEAR_RANGES {
        ok := CheckRanges(p);
      }
    } else if IsTransfer(opcode) {
      if Expect(Long(p, 0), Side(ReadsBuffer(opcode))) && Expect(Long(p, 2), Side(WritesBuffer(opcode)))
        && (ReadsBuffer(opcode) || p[4] != 0) && (WritesBuffer(opcode) || p[5] != 0)
        && (opcode != BLIT_IMAGE_2 || p[6] <= 1) && (opcode == BLIT_IMAGE_2 || p[6] == 0)
      {
        ok := CheckRegions(opcode, p);
      }
    } else if opcode == INIT_IMAGE_BARRIER {
      if p[0] != 0 && p[0] <= MAX_INIT_IMAGE_BARRIERS && p[1] == 0 {
        ok := CheckIds(p);
      }
    } else if opcode == UPDATE_BUFFER {
      ok := Expect(Long(p, 0), BUFFER) && Long(p, 2) % 4 == 0 && p[5] == 0;
    } else if opcode == QUERY {
      ok := Expect(Long(p, 0), QUERY_POOL) && p[5] != 0 && p[9] == 0 && QueryIsValid(Long(p, 2), p[5], p[6], p[7], p[8]);
    } else {
      ok := opcode == END;
    }
    status := if ok then 0 else EPROTO;
  }

  // ---------------------------------------------------------------- reading

  method ReadRegions(opcode: u16, p: Words) returns (regions: seq<Region>)
    requires IsTransfer(opcode) && LengthFits(opcode, p)
    ensures regions == RegionsFrom(TransferRegions(opcode, p))
  {
    regions := [];
    for index := 0 to p[7]
      invariant |regions| == index
      invariant forall i :: 0 <= i < index ==> regions[i] == RegionAt(TransferRegions(opcode, p)[i])
    {
      ChunkAt(p, TRANSFER_HEADER, REGION, p[7], index);
      regions := regions + [RegionAt(p[TRANSFER_HEADER + REGION * index..TRANSFER_HEADER + REGION * index + REGION])];
    }
  }

  method ReadMemory(p: Words) returns (memory: seq<MemoryBarrier>)
    requires LengthFits(IMAGE_BARRIER_2, p)
    ensures memory == MemoryFrom(BarrierMemory(p))
  {
    memory := [];
    var base := BARRIER_HEADER;
    for index := 0 to p[1]
      invariant |memory| == index
      invariant forall i :: 0 <= i < index ==> memory[i] == MemoryAt(BarrierMemory(p)[i])
    {
      ChunkAt(p, base, MEMORY_BARRIER, p[1], index);
      memory := memory + [MemoryAt(p[base + MEMORY_BARRIER * index..base + MEMORY_BARRIER * index + MEMORY_BARRIER])];
    }
  }

  method ReadBuffers(p: Words) returns (buffers: seq<BufferBarrier>)
    requires LengthFits(IMAGE_BARRIER_2, p)
    ensures buffers == BuffersFrom(BarrierBuffers(p))
  {
    buffers := [];
    var base := BARRIER_HEADER + MEMORY_BARRIER * p[1];
    for index := 0 to p[2]
      invariant |buffers| == index
      invariant forall i :: 0 <= i < index ==> buffers[i] == BufferAt(BarrierBuffers(p)[i])
    {
      ChunkAt(p, base, BUFFER_BARRIER, p[2], index);
      buffers := buffers + [BufferAt(p[base + BUFFER_BARRIER * index..base + BUFFER_BARRIER * index + BUFFER_BARRIER])];
    }
  }

  method ReadImages(p: Words) returns (images: seq<ImageBarrier>)
    requires LengthFits(IMAGE_BARRIER_2, p)
    ensures images == ImagesFrom(BarrierImages(p))
  {
    images := [];
    var base := BARRIER_HEADER + MEMORY_BARRIER * p[1] + BUFFER_BARRIER * p[2];
    for index := 0 to p[3]
      invariant |images| == index
      invariant forall i :: 0 <= i < index ==> images[i] == ImageAt(BarrierImages(p)[i])
    {
      ChunkAt(p, base, IMAGE_BARRIER, p[3], index);
      images := images + [ImageAt(p[base + IMAGE_BARRIER * index..base + IMAGE_BARRIER * index + IMAGE_BARRIER])];
    }
  }

  method ReadRanges(p: Words) returns (ranges: seq<Range>)
    requires LengthFits(CLEAR_COLOR_IMAGE_GENERAL, p) && CountsFit(CLEAR_COLOR_IMAGE_GENERAL, p)
    ensures ranges == RangesFrom(ClearRanges(p)[..p[3]])
  {
    ranges := [];
    for index := 0 to p[3]
      invariant |ranges| == index
      invariant forall i :: 0 <= i < index ==> ranges[i] == RangeAt(ClearRanges(p)[i])
    {
      ChunkAt(p, CLEAR_HEADER, RANGE, MAX_CLEAR_RANGES, index);
      ranges := ranges + [RangeAt(p[CLEAR_HEADER + RANGE * index..CLEAR_HEADER + RANGE * index + RANGE])];
    }
  }

  method ReadIds(p: Words) returns (ids: seq<u64>)
    requires LengthFits(INIT_IMAGE_BARRIER, p) && CountsFit(INIT_IMAGE_BARRIER, p)
    ensures ids == InitIds(p)[..p[0]]
  {
    ids := [];
    for index := 0 to p[0]
      invariant ids == InitIds(p)[..index]
    {
      ids := ids + [Long(p, 2 + 2 * index)];
    }
  }

  // The decoder of each modelled payload: its fields one by one, its arrays by the loops above.
  method Read(opcode: u16, p: Words) returns (c: Command)
    requires LengthFits(opcode, p) && CountsFit(opcode, p)
    ensures c == Decode(opcode, p)
  {
    if opcode == FILL_BUFFER {
      c := FillBuffer(Long(p, 0), Long(p, 2), Long(p, 4), p[6]);
    } else if opcode == IMAGE_BARRIER_2 {
      var memory := ReadMemory(p);
      var buffers := ReadBuffers(p);
      var images := ReadImages(p);
      c := Barrier2(p[0], memory, buffers, images);
    } else if opcode == CLEAR_COLOR_IMAGE_GENERAL {
      var ranges := ReadRanges(p);
      c := ClearColor(Long(p, 0), p[2], p[4], p[5], p[6], p[7], ranges);
    } else if IsTransfer(opcode) {
      var regions := ReadRegions(opcode, p);
      c := Transfer(opcode, Long(p, 0), Long(p, 2), p[4], p[5], p[6], regions);
    } else if opcode == INIT_IMAGE_BARRIER {
      var ids := ReadIds(p);
      c := InitBarrier(ids);
    } else if opcode == UPDATE_BUFFER {
      assert p[UPDATE_HEADER..] == p[UPDATE_HEADER..UPDATE_HEADER + p[4] / 4];
      c := UpdateBuffer(Long(p, 0), Long(p, 2), ToBytes(p[UPDATE_HEADER..UPDATE_HEADER + p[4] / 4]));
    } else if opcode == QUERY {
      c := Query(Long(p, 0), Long(p, 2), p[4], p[5], p[6], p[7], p[8]);
    } else {
      c := End;
    }
  }
}
