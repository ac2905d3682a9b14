/**
 * The cursor loops of the descriptor codecs, proved against the payload
 * functions of DescriptorWire.
 */
module DescriptorCodec {
  import opened Wrappers
  import opened Errno
  import opened Handles
  import opened Wire
  import opened DescriptorWire

  method EncodeLayout(r: LayoutRequest) returns (status: int, ws: Words)
    ensures status == if LayoutIsValid(r) then 0 else EINVAL
    ensures status == 0 ==> ws == LayoutWords(r)
  {
    ws := [];
    if !WireIdIs(r.device, DEVICE) || |r.bindings| > MAX_LAYOUT_BINDINGS || r.hasFlags > 1 {
      return EINVAL, ws;
    }
    var body: Words := [];
    for index := 0 to |r.bindings|
      invariant forall i :: 0 <= i < index ==> BindingIsValid(r.bindings[i], r.hasFlags)
      invariant BindingsAreDistinct(r.bindings[..index])
      invariant body == Flatten(BindingChunks(r.bindings[..index]))
    {
      var binding := r.bindings[index];
      if !BindingIsValid(binding, r.hasFlags) {
        return EINVAL, ws;
      }
      for prior := 0 to index
        invariant forall i :: 0 <= i < prior ==> r.bindings[i].binding != binding.binding
      {
        if r.bindings[prior].binding == binding.binding {
          return EINVAL, ws;
        }
      }
      FlattenSnoc(BindingChunks(r.bindings[..index]), BindingWords(binding));
      assert BindingChunks(r.bindings[..index + 1]) == BindingChunks(r.bindings[..index]) + [BindingWords(binding)];
      body := body + BindingWords(binding);
    }
    assert r.bindings[..|r.bindings|] == r.bindings;
    status, ws := 0, CreatePrefix(r.device, r.flags, |r.bindings|, r.hasFlags) + body;
  }

  method EncodePool(r: PoolRequest) returns (status: int, ws: Words)
    ensures status == if PoolIsValid(r) then 0 else EINVAL
    ensures status == 0 ==> ws == PoolWords(r)
  {
    ws := [];
    if !WireIdIs(r.device, DEVICE) || r.maxSets == 0 || r.sizes == [] || |r.sizes| > MAX_POOL_SIZES {
      return EINVAL, ws;
    }
    var body: Words := [];
    for index := 0 to |r.sizes|
      invariant forall i :: 0 <= i < index ==> r.sizes[i].count != 0
      invariant PoolTypesAreDistinct(r.sizes[..index])
      invariant body == Flatten(PoolChunks(r.sizes[..index]))
    {
      var size := r.sizes[index];
      if size.count == 0 {
        return EINVAL, ws;
      }
      for prior := 0 to index
        invariant forall i :: 0 <= i < prior ==> r.sizes[i].kind != size.kind
      {
        if r.sizes[prior].kind == size.kind {
          return EINVAL, ws;
        }
      }
      FlattenSnoc(PoolChunks(r.sizes[..index]), [size.kind, size.count]);
      assert PoolChunks(r.sizes[..index + 1]) == PoolChunks(r.sizes[..index]) + [[size.kind, size.count]];
      body := body + [size.kind, size.count];
    }
    assert r.sizes[..|r.sizes|] == r.sizes;
    status, ws := 0, CreatePrefix(r.device, r.flags, r.maxSets, |r.sizes|) + body;
  }

  method EncodeUpdate(r: UpdateRequest) returns (status: int, b: seq<byte>)
    ensures status == if UpdateIsValid(r) then 0 else EINVAL
    ensures status == 0 ==> b == ToBytes(UpdateWords(r))
  {
    b := [];
    if !WireIdIs(r.device, DEVICE) || !WireIdIs(r.descriptorSet, DESCRIPTOR_SET)
      || !WireIdIs(r.template, DESCRIPTOR_UPDATE_TEMPLATE) || r.values == [] || |r.values| > MAX_TEMPLATE_VALUES
    {
      return EINVAL, b;
    }
    var body: Words := [];
    for index := 0 to |r.values|
      invariant forall i :: 0 <= i < index ==> ValueIsCanonical(r.values[i])
      invariant body == Flatten(ValueChunks(r.values[..index]))
    {
      var value := r.values[index];
      if !ValueIsCanonical(value) {
        return EINVAL, b;
      }
      FlattenSnoc(ValueChunks(r.values[..index]), ValueWords(value));
      assert ValueChunks(r.values[..index + 1]) == ValueChunks(r.values[..index]) + [ValueWords(value)];
      body := body + ValueWords(value);
    }
    assert r.values[..|r.values|] == r.values;
    status, b := 0, ToBytes(UpdatePrefix(r.device, r.descriptorSet, r.template, |r.values|) + body);
  }

  method ReadValues(ws: Words, count: u32) returns (values: seq<TemplateValue>)
    requires |ws| == 8 + 10 * count
    ensures values == ValuesOf(Chunks(ws, 8, 10, count))
  {
    values := [];
    var cursor := 8;
    for index := 0 to count
      invariant cursor == 8 + 10 * index && |values| == index
      invariant forall i :: 0 <= i < index ==> values[i] == ValueAt(Chunks(ws, 8, 10, count)[i])
    {
      ChunkAt(ws, 8, 10, count, index);
      values := values + [ValueAt(ws[cursor..cursor + 10])];
      cursor := cursor + 10;
    }
  }

  // Reads the fields, writes them again and compares.
  method DecodeTemplateUpdate(b: seq<byte>) returns (result: Result<UpdateRequest>)
    ensures result == DecodeUpdate(b, true)
  {
    var ws := ToWords(b);
    if |b| < 32 || ws[7] != 0 {
      return Fail(EINVAL);
    }
    var count := ws[6];
    if count == 0 || count > MAX_TEMPLATE_VALUES || |b| != 32 + 40 * count {
      return Fail(EPROTO);
    }
    var values := ReadValues(ws, count);
    var decoded := UpdateRequest(Long(ws, 0), Long(ws, 2), Long(ws, 4), values);
    var status, again := EncodeUpdate(decoded);
    if status != 0 || |again| != |b| || again != b {
      return Fail(EPROTO);
    }
    result := Ok(decoded);
  }
}
