/**
 * Little-endian wire words. Every record of the protocol is a whole number
 * of 32-bit words, so encoders produce words and decoders read them back.
 */
module Wire {
  import opened Errno

  type byte = x: nat | x < 256
  type u16 = x: nat | x < 0x1_0000
  type u32 = x: nat | x < 0x1_0000_0000
  type u64 = x: nat | x < 0x1_0000_0000_0000_0000
  type Words = seq<u32>

  // ---------------------------------------------------------------- words as bytes

  // The number whose base-256 digits these are, lowest first.
  function Value(b: seq<byte>): (n: nat)
    ensures |b| <= 1 ==> n < 256
    ensures |b| <= 2 ==> n < 0x1_0000
    ensures |b| <= 3 ==> n < 0x100_0000
    ensures |b| <= 4 ==> n < 0x1_0000_0000
  {
    if b == [] then 0 else b[0] + 256 * Value(b[1..])
  }

  // The four lowest digits of a number, after those already taken.
  function Digits(n: nat, taken: seq<byte>): (b: seq<byte>)
    requires |taken| <= 4
    ensures |b| == 4
    decreases 4 - |taken|
  {
    if |taken| == 4 then taken else Digits(n / 256, taken + [n % 256])
  }

  function PutU32(w: u32): (b: seq<byte>)
    ensures |b| == 4
  {
    Digits(w, [])
  }

  function GetU16(b: seq<byte>, offset: nat): u16
    requires offset + 2 <= |b|
  {
    Value(b[offset..offset + 2])
  }

  function GetU32(b: seq<byte>, offset: nat): u32
    requires offset + 4 <= |b|
  {
    Value(b[offset..offset + 4])
  }

  function GetU64(b: seq<byte>, offset: nat): u64
    requires offset + 8 <= |b|
  {
    GetU32(b, offset) + U32_LIMIT * GetU32(b, offset + 4)
  }

  function ToBytes(ws: Words): (b: seq<byte>)
    ensures |b| == 4 * |ws|
  {
    if ws == [] then [] else PutU32(ws[0]) + ToBytes(ws[1..])
  }

  // The words of a byte string; a trailing fraction of a word is not part of any field.
  function ToWords(b: seq<byte>): (ws: Words)
    ensures |ws| == |b| / 4
  {
    if |b| < 4 then [] else [GetU32(b, 0)] + ToWords(b[4..])
  }

  lemma FourDigits(w: u32)
    ensures PutU32(w) == [w % 256, w / 256 % 256, w / 256 / 256 % 256, w / 256 / 256 / 256]
  {
    var x: nat, y: nat, z: nat := w / 256, w / 256 / 256, w / 256 / 256 / 256;
    var a: byte, b: byte, c: byte, d: byte := w % 256, x % 256, y % 256, z % 256;
    assert [] + [a] == [a] && [a] + [b] == [a, b] && [a, b] + [c] == [a, b, c] && [a, b, c] + [d] == [a, b, c, d];
    assert Digits(w, []) == Digits(x, [a]);
    assert Digits(x, [a]) == Digits(y, [a, b]);
    assert Digits(y, [a, b]) == Digits(z, [a, b, c]);
    assert Digits(z, [a, b, c]) == Digits(z / 256, [a, b, c, d]);
  }

  function Number(low: nat, high: nat): nat {
    low + 256 * high
  }

  lemma TwoValue(b: seq<byte>)
    requires |b| == 2
    ensures Value(b) == Number(b[0], b[1])
  {
  }

  lemma FourValue(b: seq<byte>)
    requires |b| == 4
    ensures Value(b) == Number(b[0], Number(b[1], Number(b[2], b[3])))
  {
    assert b[2..][0] == b[2] && b[2..][1] == b[3];
    TwoValue(b[2..]);
    assert b[1..][1..] == b[2..];
    assert Value(b[1..]) == Number(b[1], Value(b[2..]));
  }

  lemma PutGet(w: u32, rest: seq<byte>)
    ensures GetU32(PutU32(w) + rest, 0) == w
  {
    FourDigits(w);
    FourValue(PutU32(w));
    assert (PutU32(w) + rest)[0..4] == PutU32(w);
  }

  // The two 16-bit fields that make up a word.
  lemma Halves(b: seq<byte>, offset: nat)
    requires offset + 4 <= |b|
    ensures GetU32(b, offset) == GetU16(b, offset) + 0x1_0000 * GetU16(b, offset + 2)
    ensures GetU32(b, offset) < 0x1_0000 ==> GetU16(b, offset) == GetU32(b, offset) && GetU16(b, offset + 2) == 0
  {
    FourValue(b[offset..offset + 4]);
    TwoValue(b[offset..offset + 2]);
    TwoValue(b[offset + 2..offset + 4]);
  }

  lemma LastDigit(low: byte, high: nat)
    ensures Number(low, high) % 256 == low && Number(low, high) / 256 == high
  {
  }

  lemma GetPut(b: seq<byte>)
    requires |b| >= 4
    ensures PutU32(GetU32(b, 0)) == b[..4]
  {
    assert b[0..4] == b[..4];
    FourValue(b[..4]);
    FourDigits(GetU32(b, 0));
    LastDigit(b[0], Number(b[1], Number(b[2], b[3])));
    LastDigit(b[1], Number(b[2], b[3]));
    LastDigit(b[2], b[3]);
  }

  // Writing words and reading them back.
  lemma {:induction false} WordsRoundTrip(ws: Words)
    ensures ToWords(ToBytes(ws)) == ws
  {
    if ws != [] {
      PutGet(ws[0], ToBytes(ws[1..]));
      assert ToBytes(ws)[4..] == ToBytes(ws[1..]);
      WordsRoundTrip(ws[1..]);
    }
  }

  // Reading whole words and writing them back.
  lemma {:induction false} BytesRoundTrip(b: seq<byte>)
    requires |b| % 4 == 0
    ensures ToBytes(ToWords(b)) == b
  {
    if |b| >= 4 {
      GetPut(b);
      BytesRoundTrip(b[4..]);
      assert ToWords(b)[1..] == ToWords(b[4..]);
      assert b == b[..4] + b[4..];
    }
  }

  // Bytes whose fields are ws are the bytes of ws.
  lemma {:induction false} FieldsDetermineBytes(b: seq<byte>, ws: Words)
    requires |b| == 4 * |ws|
    requires forall i :: 0 <= i < |ws| ==> FieldIs(b, i, ws[i])
    ensures ToBytes(ws) == b
  {
    if ws != [] {
      GetPut(b);
      assert FieldIs(b, 0, ws[0]);
      forall i | 0 <= i < |ws| - 1 ensures FieldIs(b[4..], i, ws[1..][i]) {
        assert FieldIs(b, i + 1, ws[i + 1]);
        ShiftedField(b, i);
      }
      FieldsDetermineBytes(b[4..], ws[1..]);
      assert b == b[..4] + b[4..];
    }
  }

  predicate FieldIs(b: seq<byte>, i: nat, w: u32) {
    4 * i + 4 <= |b| && GetU32(b, 4 * i) == w
  }

  lemma ShiftedField(b: seq<byte>, i: nat)
    requires 4 * i + 8 <= |b|
    ensures GetU32(b[4..], 4 * i) == GetU32(b, 4 * i + 4)
  {
    assert b[4..][4 * i..4 * i + 4] == b[4 * i + 4..4 * i + 8];
  }

  lemma {:induction false} WordReads(ws: Words, rest: seq<byte>, i: nat)
    requires i < |ws|
    ensures GetU32(ToBytes(ws) + rest, 4 * i) == ws[i]
  {
    WordsRoundTrip(ws);
    FieldIsWord(ToBytes(ws), i);
    var b := ToBytes(ws) + rest;
    assert b[..4 * |ws|] == ToBytes(ws);
    PrefixField(b, 4 * |ws|, 4 * i);
  }

  lemma PrefixFields(b: seq<byte>, n: nat, ws: Words)
    requires 4 * |ws| <= n <= |b| && forall i :: 0 <= i < |ws| ==> FieldIs(b, i, ws[i])
    ensures forall i :: 0 <= i < |ws| ==> FieldIs(b[..n], i, ws[i])
  {
    forall i | 0 <= i < |ws| ensures FieldIs(b[..n], i, ws[i]) {
      assert FieldIs(b, i, ws[i]);
      PrefixField(b, n, 4 * i);
    }
  }

  lemma PrefixField(b: seq<byte>, n: nat, offset: nat)
    requires offset + 4 <= n <= |b|
    ensures GetU32(b[..n], offset) == GetU32(b, offset)
  {
    assert b[..n][offset..offset + 4] == b[offset..offset + 4];
  }

  lemma SuffixField(b: seq<byte>, start: nat, offset: nat)
    requires start + offset + 4 <= |b|
    ensures GetU32(b[start..], offset) == GetU32(b, start + offset)
  {
    assert b[start..][offset..offset + 4] == b[start + offset..start + offset + 4];
  }

  // A field read at byte offset 4 * i is word i.
  lemma {:induction false} FieldIsWord(b: seq<byte>, i: nat)
    requires 4 * i + 4 <= |b|
    ensures ToWords(b)[i] == GetU32(b, 4 * i)
  {
    if i > 0 {
      FieldIsWord(b[4..], i - 1);
      ShiftedField(b, i - 1);
    }
  }

  // ---------------------------------------------------------------- 64-bit fields

  function Lo(x: u64): u32 {
    x % U32_LIMIT
  }

  function Hi(x: u64): u32 {
    x / U32_LIMIT
  }

  function Join(lo: u32, hi: u32): (x: u64)
    ensures Lo(x) == lo && Hi(x) == hi
  {
    lo + U32_LIMIT * hi
  }

  // The 64-bit field whose low half is word i.
  function Long(ws: Words, i: nat): (x: u64)
    requires i + 2 <= |ws|
    ensures Lo(x) == ws[i] && Hi(x) == ws[i + 1]
  {
    Join(ws[i], ws[i + 1])
  }

  lemma JoinSplit(x: u64)
    ensures Join(Lo(x), Hi(x)) == x
  {
  }

  // Signed fields travel as their two's complement.
  type i32 = x: int | -0x8000_0000 <= x < 0x8000_0000

  function FromSigned(x: i32): u32 {
    if x < 0 then x + U32_LIMIT else x
  }

  function ToSigned(w: u32): (x: i32)
    ensures FromSigned(x) == w
  {
    if w < 0x8000_0000 then w else w - U32_LIMIT
  }

  // ---------------------------------------------------------------- arrays of fixed-size records

  // n records of size words each, one after another, starting at word `at`.
  function Chunks(ws: Words, at: nat, size: nat, n: nat): (chunks: seq<Words>)
    requires at + size * n <= |ws|
    ensures |chunks| == n && forall i :: 0 <= i < n ==> |chunks[i]| == size
    decreases n
  {
    if n == 0 then [] else
      assert size * n == size + size * (n - 1);
      [ws[at..at + size]] + Chunks(ws, at + size, size, n - 1)
  }

  function Flatten(chunks: seq<Words>): Words {
    if chunks == [] then [] else chunks[0] + Flatten(chunks[1..])
  }

  predicate AllSized(chunks: seq<Words>, size: nat) {
    forall i :: 0 <= i < |chunks| ==> |chunks[i]| == size
  }

  lemma {:induction false} FlattenLength(chunks: seq<Words>, size: nat)
    requires AllSized(chunks, size)
    ensures |Flatten(chunks)| == size * |chunks|
  {
    if chunks != [] {
      FlattenLength(chunks[1..], size);
      assert size * |chunks| == size + size * (|chunks| - 1);
    }
  }

  lemma {:induction false} FlattenSnoc(chunks: seq<Words>, chunk: Words)
    ensures Flatten(chunks + [chunk]) == Flatten(chunks) + chunk
  {
    if chunks != [] {
      assert (chunks + [chunk])[1..] == chunks[1..] + [chunk];
      FlattenSnoc(chunks[1..], chunk);
    }
  }

  // Laying records out and cutting them apart again, with anything before and after.
  lemma {:induction false} ChunksOfFlatten(before: Words, chunks: seq<Words>, after: Words, size: nat)
    requires AllSized(chunks, size)
    ensures |Flatten(chunks)| == size * |chunks|
    ensures Chunks(before + Flatten(chunks) + after, |before|, size, |chunks|) == chunks
    decreases |chunks|
  {
    FlattenLength(chunks, size);
    if chunks != [] {
      var ws := before + Flatten(chunks) + after;
      FlattenLength(chunks[1..], size);
      assert size * |chunks| == size + size * (|chunks| - 1);
      assert ws == (before + chunks[0]) + Flatten(chunks[1..]) + after;
      assert ws[|before|..|before| + size] == chunks[0];
      ChunksOfFlatten(before + chunks[0], chunks[1..], after, size);
    }
  }

  lemma {:induction false} FlattenOfChunks(ws: Words, at: nat, size: nat, n: nat)
    requires at + size * n <= |ws|
    ensures Flatten(Chunks(ws, at, size, n)) == ws[at..at + size * n]
    decreases n
  {
    if n > 0 {
      assert size * n == size + size * (n - 1);
      FlattenOfChunks(ws, at + size, size, n - 1);
      assert ws[at..at + size * n] == ws[at..at + size] + ws[at + size..at + size * n];
    }
  }

  lemma {:induction false} ChunkAt(ws: Words, at: nat, size: nat, n: nat, i: nat)
    requires at + size * n <= |ws| && i < n
    ensures 0 <= size * i && at + size * i + size <= |ws|
    ensures Chunks(ws, at, size, n)[i] == ws[at + size * i..at + size * i + size]
    decreases n
  {
    assert size * n == size + size * (n - 1);
    assert Chunks(ws, at, size, n) == [ws[at..at + size]] + Chunks(ws, at + size, size, n - 1);
    if i > 0 {
      assert size * i == size + size * (i - 1);
      ChunkAt(ws, at + size, size, n - 1, i - 1);
      assert Chunks(ws, at, size, n)[i] == Chunks(ws, at + size, size, n - 1)[i - 1];
    } else {
      assert size * i == 0;
    }
  }

  // 64-bit fields as records of two words.
  function LongChunks(xs: seq<u64>): (chunks: seq<Words>)
    ensures |chunks| == |xs| && AllSized(chunks, 2)
  {
    seq(|xs|, i requires 0 <= i < |xs| => [Lo(xs[i]), Hi(xs[i])])
  }

  function Zeros(n: nat): (z: Words)
    ensures |z| == n && forall i :: 0 <= i < n ==> z[i] == 0
  {
    seq(n, _ => 0)
  }

  predicate AllZero(ws: Words) {
    forall i :: 0 <= i < |ws| ==> ws[i] == 0
  }

  function ZeroBytes(n: nat): (z: seq<byte>)
    ensures |z| == n && forall i :: 0 <= i < n ==> z[i] == 0
  {
    seq(n, _ => 0)
  }

  predicate AllZeroBytes(b: seq<byte>) {
    forall i :: 0 <= i < |b| ==> b[i] == 0
  }

  // What a stretch of memory holds at some moment.
  function Contents(memory: nat -> byte, offset: nat, length: nat): (b: seq<byte>)
    ensures |b| == length && forall i :: 0 <= i < length ==> b[i] == memory(offset + i)
  {
    if length == 0 then [] else Contents(memory, offset, length - 1) + [memory(offset + length - 1)]
  }

  method CopyOut(memory: nat -> byte, offset: nat, length: nat) returns (b: seq<byte>)
    ensures b == Contents(memory, offset, length)
  {
    b := [];
    for i := 0 to length
      invariant b == Contents(memory, offset, i)
    {
      b := b + [memory(offset + i)];
    }
  }
}
