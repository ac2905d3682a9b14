/**
 * The descriptor requests as a reader of the format sees them: which word is
 * which field, and what each may hold.  Nothing here uses the helpers of the
 * encoders or decoders; object types, limits and offsets are written out.
 * Word i of a request is at byte 4 * i.
 */
module DescriptorLayout {
  import opened Wrappers
  import opened Errno
  import opened Handles
  import opened Wire
  import opened DescriptorWire

  lemma NamesIsWireId(id: u64, kind: nat)
    ensures kind < 256 ==> (Names(id, kind) <==> WireIdIs(id, kind))
  {
    assert id / 0x100_0000_0000_0000 < 256;
  }

  // ---------------------------------------------------------------- set layouts: device 3

  // Five words: the binding's number, kind, count, stages and flags.
  predicate BindingLaw(ws: Words, i: nat)
    requires |ws| >= 6 && 6 + 5 * i + 5 <= |ws|
  {
    var at := 6 + 5 * i;
    ws[at + 2] != 0 && ws[at + 3] != 0 && (ws[4] == 0 ==> ws[at + 4] == 0)
  }

  function BindingNumber(ws: Words, i: nat): u32
    requires 6 + 5 * i + 5 <= |ws|
  {
    ws[6 + 5 * i]
  }

  predicate LayoutLaw(ws: Words, length: nat) {
    && |ws| >= 6 && ws[5] == 0 && ws[3] <= 32 && length == 4 * |ws| == 24 + 20 * ws[3]
    && Names(Long(ws, 0), 3) && ws[4] <= 1
    && (forall i :: 0 <= i < ws[3] ==> BindingLaw(ws, i))
    && (forall i, j :: 0 <= i < j < ws[3] ==> BindingNumber(ws, i) != BindingNumber(ws, j))
  }

  predicate BindingIsAt(b: Binding, ws: Words, at: nat)
    requires at + 5 <= |ws|
  {
    b.binding == ws[at] && b.kind == ws[at + 1] && b.count == ws[at + 2] && b.stages == ws[at + 3] && b.flags == ws[at + 4]
  }

  lemma LayoutIsLawful(ws: Words, length: nat)
    requires |ws| == length / 4
    ensures var d := DecodeLayoutWords(ws, length);
      && (d.Ok? <==> LayoutLaw(ws, length))
      && (d.Fail? ==> d.status == if length < 24 || ws[5] != 0 then EINVAL else EPROTO)
      && (d.Ok? ==>
            && d.value.device == Long(ws, 0) && d.value.flags == ws[2] && d.value.hasFlags == ws[4] && |d.value.bindings| == ws[3]
            && forall i :: 0 <= i < ws[3] ==> BindingIsAt(d.value.bindings[i], ws, 6 + 5 * i))
  {
    if length >= 24 && ws[5] == 0 && ws[3] <= 32 && length == 24 + 20 * ws[3] {
      NamesIsWireId(Long(ws, 0), 3);
      var bs := BindingsOf(Chunks(ws, 6, 5, ws[3]));
      forall i | 0 <= i < ws[3]
        ensures BindingIsAt(bs[i], ws, 6 + 5 * i) && bs[i].binding == BindingNumber(ws, i)
        ensures BindingIsValid(bs[i], ws[4]) <==> BindingLaw(ws, i)
      {
        ChunkAt(ws, 6, 5, ws[3], i);
      }
    }
  }

  // ---------------------------------------------------------------- pools: device 3

  // Two words: the kind and how many.
  function PoolKind(ws: Words, i: nat): u32
    requires 6 + 2 * i + 2 <= |ws|
  {
    ws[6 + 2 * i]
  }

  function PoolCount(ws: Words, i: nat): u32
    requires 6 + 2 * i + 2 <= |ws|
  {
    ws[7 + 2 * i]
  }

  predicate PoolLaw(ws: Words, length: nat) {
    && |ws| >= 6 && ws[5] == 0 && 1 <= ws[4] <= 16 && length == 4 * |ws| == 24 + 8 * ws[4]
    && Names(Long(ws, 0), 3) && ws[3] != 0
    && (forall i :: 0 <= i < ws[4] ==> PoolCount(ws, i) != 0)
    && (forall i, j :: 0 <= i < j < ws[4] ==> PoolKind(ws, i) != PoolKind(ws, j))
  }

  lemma PoolIsLawful(ws: Words, length: nat)
    requires |ws| == length / 4
    ensures var d := DecodePoolWords(ws, length);
      && (d.Ok? <==> PoolLaw(ws, length))
      && (d.Fail? ==> d.status == if length < 24 || ws[5] != 0 then EINVAL else EPROTO)
      && (d.Ok? ==>
            && d.value.device == Long(ws, 0) && d.value.flags == ws[2] && d.value.maxSets == ws[3] && |d.value.sizes| == ws[4]
            && forall i :: 0 <= i < ws[4] ==> d.value.sizes[i] == PoolSize(PoolKind(ws, i), PoolCount(ws, i)))
  {
    if length >= 24 && ws[5] == 0 && ws[4] <= 16 && length == 24 + 8 * ws[4] {
      NamesIsWireId(Long(ws, 0), 3);
      var sizes := PoolSizesOf(Chunks(ws, 6, 2, ws[4]));
      forall i | 0 <= i < ws[4] ensures sizes[i] == PoolSize(PoolKind(ws, i), PoolCount(ws, i)) {
        ChunkAt(ws, 6, 2, ws[4], i);
      }
    }
  }

  // ---------------------------------------------------------------- allocation: pool 21, layouts 20

  function LongAt(ws: Words, base: nat, i: nat): u64
    requires base + 2 * i + 2 <= |ws|
  {
    Long(ws, base + 2 * i)
  }

  predicate AllocateLaw(ws: Words, length: nat) {
    && |ws| >= 4 && ws[3] == 0 && 1 <= ws[2] <= 16 && length == 4 * |ws| == 16 + 8 * ws[2]
    && Names(Long(ws, 0), 21)
    && forall i :: 0 <= i < ws[2] ==> Names(LongAt(ws, 4, i), 20)
  }

  lemma IdsLie(ws: Words, base: nat, n: nat)
    requires base + 2 * n <= |ws|
    ensures forall i :: 0 <= i < n ==> IdsOf(Chunks(ws, base, 2, n))[i] == LongAt(ws, base, i)
    ensures forall i, kind: nat :: 0 <= i < n && kind < 256 ==> (WireIdIs(LongAt(ws, base, i), kind) <==> Names(LongAt(ws, base, i), kind))
  {
    forall i | 0 <= i < n ensures IdsOf(Chunks(ws, base, 2, n))[i] == LongAt(ws, base, i) {
      ChunkAt(ws, base, 2, n, i);
    }
    forall i, kind: nat | 0 <= i < n && kind < 256
      ensures WireIdIs(LongAt(ws, base, i), kind) <==> Names(LongAt(ws, base, i), kind)
    {
      NamesIsWireId(LongAt(ws, base, i), kind);
    }
  }

  lemma AllocateIsLawful(ws: Words, length: nat)
    requires |ws| == length / 4
    ensures var d := DecodeAllocateWords(ws, length);
      && (d.Ok? <==> AllocateLaw(ws, length))
      && (d.Fail? ==> d.status == if length < 16 || ws[3] != 0 then EINVAL else EPROTO)
      && (d.Ok? ==>
            && d.value.pool == Long(ws, 0) && |d.value.layouts| == ws[2]
            && forall i :: 0 <= i < ws[2] ==> d.value.layouts[i] == LongAt(ws, 4, i))
  {
    if length >= 16 && ws[3] == 0 && 1 <= ws[2] <= 16 && length == 16 + 8 * ws[2] {
      NamesIsWireId(Long(ws, 0), 21);
      IdsLie(ws, 4, ws[2]);
    }
  }

  // ---------------------------------------------------------------- transactions

  // Generation, sequence, length and count of the journal, the length of the allocation that
  // follows, and a zero.
  predicate TransactionLaw(b: seq<byte>) {
    && |b| >= 48
    && var ws, tail := ToWords(b), b[32..];
    && Long(ws, 0) != 0 && Long(ws, 2) != 0 && ws[4] <= 16777216 && ws[5] <= 65536 && (ws[4] == 0 <==> ws[5] == 0)
    && ws[6] == |tail| && ws[7] == 0
    && AllocateLaw(ToWords(tail), |tail|)
  }

  lemma TransactionIsLawful(b: seq<byte>)
    ensures var d := DecodeTransaction(b, true);
      && (d.Ok? <==> TransactionLaw(b))
      && (d.Ok? ==>
            var ws := ToWords(b);
            && d.value.generation == Long(ws, 0) && d.value.sequence == Long(ws, 2)
            && d.value.length == ws[4] && d.value.count == ws[5]
            && DecodeAllocate(b[32..]) == Ok(d.value.allocation))
  {
    TransactionIsCanonical(b);
    if |b| >= 48 {
      AllocateIsLawful(ToWords(b[32..]), |b[32..]|);
    }
  }

  // ---------------------------------------------------------------- update templates: device 3, layout 20

  // Eight words: binding, element, count, kind, and the 64-bit offset and stride.
  predicate EntryLaw(ws: Words, i: nat)
    requires 12 + 8 * i + 8 <= |ws|
  {
    var at := 12 + 8 * i;
    var count, kind, offset, stride := ws[at + 2], ws[at + 3], Long(ws, at + 4), Long(ws, at + 6);
    count != 0 && kind <= 10 && 1 <= stride <= 1048576 && offset + (count - 1) * stride < 1048576
  }

  predicate TemplateLaw(ws: Words, length: nat) {
    && |ws| >= 12 && ws[11] == 0 && 1 <= ws[3] <= 32 && length == 4 * |ws| == 48 + 32 * ws[3]
    && Names(Long(ws, 0), 3) && Names(Long(ws, 6), 20)
    && ws[2] == 0 && ws[4] == 0 && ws[5] == 0 && Long(ws, 8) == 0 && ws[10] == 0
    && forall i :: 0 <= i < ws[3] ==> EntryLaw(ws, i)
  }

  predicate EntryIsAt(e: TemplateEntry, ws: Words, at: nat)
    requires at + 8 <= |ws|
  {
    && e.binding == ws[at] && e.element == ws[at + 1] && e.count == ws[at + 2] && e.kind == ws[at + 3]
    && e.offset == Long(ws, at + 4) && e.stride == Long(ws, at + 6)
  }

  lemma EntryIsLawful(ws: Words, n: nat, i: nat)
    requires 12 + 8 * n <= |ws| && i < n
    ensures var e := EntriesOf(Chunks(ws, 12, 8, n))[i];
      EntryIsAt(e, ws, 12 + 8 * i) && (EntryIsBounded(e) <==> EntryLaw(ws, i))
  {
    ChunkAt(ws, 12, 8, n, i);
    BoundedEntryFits(EntriesOf(Chunks(ws, 12, 8, n))[i]);
  }

  lemma TemplateIsLawful(ws: Words, length: nat)
    requires |ws| == length / 4
    ensures var d := DecodeTemplateWords(ws, length);
      && (d.Ok? <==> TemplateLaw(ws, length))
      && (d.Fail? ==> d.status == if length < 48 || ws[11] != 0 then EINVAL else EPROTO)
      && (d.Ok? ==>
            && d.value.device == Long(ws, 0) && d.value.layout == Long(ws, 6) && |d.value.entries| == ws[3]
            && forall i :: 0 <= i < ws[3] ==> EntryIsAt(d.value.entries[i], ws, 12 + 8 * i))
  {
    if length >= 48 && ws[11] == 0 && 1 <= ws[3] <= 32 && length == 48 + 32 * ws[3] {
      NamesIsWireId(Long(ws, 0), 3);
      NamesIsWireId(Long(ws, 6), 20);
      var es := EntriesOf(Chunks(ws, 12, 8, ws[3]));
      forall i | 0 <= i < ws[3] ensures EntryIsAt(es[i], ws, 12 + 8 * i) && (EntryIsBounded(es[i]) <==> EntryLaw(ws, i)) {
        EntryIsLawful(ws, ws[3], i);
      }
    }
  }

  // ---------------------------------------------------------------- updates: device 3, set 22, template 24

  // The object a descriptor kind may refer to: a sampler 23, an image view 8, a buffer 19, or none.
  function ResourceType(kind: u32): nat {
    if kind == 0 then 23 else if kind == 4 || kind == 5 then 0 else if 6 <= kind <= 9 then 19 else 8
  }

  // Ten words: kind, image layout, resource, auxiliary sampler, offset and range.  Only images have a
  // layout, only buffers an offset and a range, only a combined image (kind 1) a second object.
  predicate ValueLaw(v: TemplateValue) {
    && v.kind <= 10
    && (v.resource == 0 || (ResourceType(v.kind) != 0 && Names(v.resource, ResourceType(v.kind))))
    && (v.auxiliary == 0 || (v.kind == 1 && Names(v.auxiliary, 23)))
    && (v.imageLayout == 0 || ResourceType(v.kind) == 8)
    && ((v.offset == 0 && v.range == 0) || ResourceType(v.kind) == 19)
  }

  lemma ValueIsLawful(v: TemplateValue)
    ensures ValueIsCanonical(v) <==> ValueLaw(v)
  {
    NamesIsWireId(v.resource, 23);
    NamesIsWireId(v.resource, 8);
    NamesIsWireId(v.resource, 19);
    NamesIsWireId(v.auxiliary, 23);
  }

  function ValueOf(ws: Words, i: nat): TemplateValue
    requires 8 + 10 * i + 10 <= |ws|
  {
    var at := 8 + 10 * i;
    TemplateValue(ws[at], ws[at + 1], Long(ws, at + 2), Long(ws, at + 4), Long(ws, at + 6), Long(ws, at + 8))
  }

  predicate UpdateLaw(ws: Words, length: nat) {
    && |ws| >= 8 && ws[7] == 0 && 1 <= ws[6] <= 64 && length == 4 * |ws| == 32 + 40 * ws[6]
    && Names(Long(ws, 0), 3) && Names(Long(ws, 2), 22) && Names(Long(ws, 4), 24)
    && forall i :: 0 <= i < ws[6] ==> ValueLaw(ValueOf(ws, i))
  }

  lemma UpdateIsLawful(ws: Words, length: nat)
    requires |ws| == length / 4
    ensures var d := DecodeUpdateWords(ws, length);
      && (d.Ok? <==> UpdateLaw(ws, length))
      && (d.Fail? ==> d.status == if length < 32 || ws[7] != 0 then EINVAL else EPROTO)
      && (d.Ok? ==>
            && d.value.device == Long(ws, 0) && d.value.descriptorSet == Long(ws, 2) && d.value.template == Long(ws, 4)
            && |d.value.values| == ws[6] && forall i :: 0 <= i < ws[6] ==> d.value.values[i] == ValueOf(ws, i))
  {
    if length >= 32 && ws[7] == 0 && 1 <= ws[6] <= 64 && length == 32 + 40 * ws[6] {
      NamesIsWireId(Long(ws, 0), 3);
      NamesIsWireId(Long(ws, 2), 22);
      NamesIsWireId(Long(ws, 4), 24);
      var vs := ValuesOf(Chunks(ws, 8, 10, ws[6]));
      forall i | 0 <= i < ws[6] ensures vs[i] == ValueOf(ws, i) && (ValueIsCanonical(vs[i]) <==> ValueLaw(vs[i])) {
        ChunkAt(ws, 8, 10, ws[6], i);
        ValueIsLawful(vs[i]);
      }
    }
  }

  // ---------------------------------------------------------------- binds: command buffer 11, pipeline layout 15, sets 22

  predicate BindLaw(ws: Words, length: nat) {
    && |ws| >= 8 && 1 <= ws[6] <= 8 && ws[7] <= 32 && length == 4 * |ws| == 32 + 8 * ws[6] + 4 * ws[7]
    && Names(Long(ws, 0), 11) && Names(Long(ws, 2), 15) && ws[4] <= 1
    && forall i :: 0 <= i < ws[6] ==> Names(LongAt(ws, 8, i), 22)
  }

  lemma BindIsLawful(ws: Words, length: nat)
    requires |ws| == length / 4
    ensures var d := DecodeBindWords(ws, length);
      && (d.Ok? <==> BindLaw(ws, length))
      && (d.Fail? ==> d.status == if length < 32 then EINVAL else EPROTO)
      && (d.Ok? ==>
            && d.value.commandBuffer == Long(ws, 0) && d.value.pipelineLayout == Long(ws, 2)
            && d.value.bindPoint == ws[4] && d.value.first == ws[5]
            && |d.value.sets| == ws[6] && (forall i :: 0 <= i < ws[6] ==> d.value.sets[i] == LongAt(ws, 8, i))
            && |d.value.offsets| == ws[7] && forall i :: 0 <= i < ws[7] ==> d.value.offsets[i] == ws[8 + 2 * ws[6] + i])
  {
    if length >= 32 && 1 <= ws[6] <= 8 && ws[7] <= 32 && length == 32 + 8 * ws[6] + 4 * ws[7] {
      NamesIsWireId(Long(ws, 0), 11);
      NamesIsWireId(Long(ws, 2), 15);
      IdsLie(ws, 8, ws[6]);
    }
  }
}
