/**
 * The generated discovery codecs: for each structure an encoder and a
 * decoder as lists of statements over a writer and a reader whose status
 * sticks at the first error.
 */
module DiscoveryCodec {
  import opened Wrappers
  import opened Errno
  import opened Wire
  import opened SchemaOrder

  const MAX_PAYLOAD: nat := 4096
  const MAX_QUEUE_FAMILIES: nat := 64

  // ---------------------------------------------------------------- generated code

  datatype Leaf = CallStruct(name: Name) | WordLeaf | NarrowLeaf | LongLeaf

  // One statement handles one member; a decoder's byte copy may also look for a NUL.
  datatype Stmt = CopyBytes(length: nat, needsNul: bool) | ForEach(count: nat, leaf: Leaf) | Single(leaf: Leaf)

  datatype Codec = Codec(name: Name, encoder: seq<Stmt>, decoder: seq<Stmt>)

  function LeafOf(kind: Type): Leaf {
    match kind
    case Named(name) => CallStruct(name)
    case Plain(basic) =>
      match basic
      case U32 => WordLeaf
      case Float => WordLeaf  // its 32 bits
      case U64 => LongLeaf
      case Byte => NarrowLeaf
  }

  function EncoderStmt(m: Member): Stmt {
    match m.dimension
    case Scalar => Single(LeafOf(m.kind))
    case Array(n) => if m.kind == Plain(Byte) then CopyBytes(n, false) else ForEach(n, LeafOf(m.kind))
  }

  function DecoderStmt(m: Member): Stmt {
    match m.dimension
    case Scalar => Single(LeafOf(m.kind))
    case Array(n) => if m.kind == Plain(Byte) then CopyBytes(n, m.nullTerminated) else ForEach(n, LeafOf(m.kind))
  }

  // Appends the two functions of every structure in order.
  method Generate(schema: Schema, ordered: seq<Name>) returns (codecs: seq<Codec>)
    requires Ordered(schema, ordered)
    ensures Emitted(schema, ordered, codecs)
  {
    codecs := [];
    for i := 0 to |ordered|
      invariant |codecs| == i
      invariant forall p :: 0 <= p < i ==> CodecOf(schema, ordered[p], codecs[p])
    {
      assert After(schema, ordered, i);
      var members := schema[ordered[i]];
      var encoder, decoder: seq<Stmt> := [], [];
      for k := 0 to |members|
        invariant |encoder| == |decoder| == k
        invariant forall j :: 0 <= j < k ==> encoder[j] == EncoderStmt(members[j]) && decoder[j] == DecoderStmt(members[j])
      {
        encoder := encoder + [EncoderStmt(members[k])];
        decoder := decoder + [DecoderStmt(members[k])];
      }
      codecs := codecs + [Codec(ordered[i], encoder, decoder)];
    }
  }

  // The whole generator: it refuses exactly the schemas that cannot be ordered.
  method Compile(schema: Schema, roots: seq<Name>) returns (ok: bool, ordered: seq<Name>, codecs: seq<Codec>)
    ensures ok <==> forall i :: 0 <= i < |roots| ==> !Broken(schema, roots[i])
    ensures ok ==> Emitted(schema, ordered, codecs) && forall i :: 0 <= i < |roots| ==> roots[i] in ordered
  {
    codecs := [];
    ok, ordered := Order(schema, roots);
    if ok {
      codecs := Generate(schema, ordered);
    }
  }

  ghost predicate CodecOf(schema: Schema, name: Name, c: Codec) {
    && name in schema && c.name == name
    && |c.encoder| == |c.decoder| == |schema[name]|
    && forall j :: 0 <= j < |schema[name]| ==>
         c.encoder[j] == EncoderStmt(schema[name][j]) && c.decoder[j] == DecoderStmt(schema[name][j])
  }

  ghost predicate Emitted(schema: Schema, ordered: seq<Name>, codecs: seq<Codec>) {
    && Ordered(schema, ordered) && |codecs| == |ordered|
    && forall p :: 0 <= p < |codecs| ==> CodecOf(schema, ordered[p], codecs[p])
  }

  // The codec a call inside codec p means: only earlier functions are declared there.
  function Find(codecs: seq<Codec>, p: nat, name: Name): (q: nat)
    requires p <= |codecs|
    ensures q <= p && (q < p ==> codecs[q].name == name)
    ensures (exists k :: 0 <= k < p && codecs[k].name == name) ==> q < p
  {
    if p == 0 then 0
    else if codecs[p - 1].name == name then p - 1
    else
      var q := Find(codecs, p - 1, name);
      if q == p - 1 then p else q
  }

  // ---------------------------------------------------------------- values

  datatype Value = Word(w: u32) | Long(x: u64) | Raw(b: seq<byte>) | Items(items: seq<Value>) | Struct(fields: seq<Value>)

  predicate HasKind(schema: Schema, kind: Type, v: Value)
    decreases v, 0
  {
    match kind
    case Named(name) => name in schema && v.Struct? && HasMembers(schema, schema[name], v.fields)
    case Plain(basic) =>
      match basic
      case U32 => v.Word?
      case Float => v.Word?
      case Byte => v.Word? && v.w < 256
      case U64 => v.Long?
  }

  predicate HasMembers(schema: Schema, members: seq<Member>, fields: seq<Value>)
    decreases fields, 1
  {
    |fields| == |members| && forall i :: 0 <= i < |fields| ==> HasMember(schema, members[i], fields[i])
  }

  // A value of the member's C type, with a NUL in every array that must be terminated.
  predicate HasMember(schema: Schema, m: Member, v: Value)
    decreases v, 1
  {
    match m.dimension
    case Scalar => HasKind(schema, m.kind, v)
    case Array(n) =>
      if m.kind == Plain(Byte) then v.Raw? && |v.b| == n && (m.nullTerminated ==> 0 in v.b)
      else v.Items? && |v.items| == n && forall i :: 0 <= i < n ==> HasKind(schema, m.kind, v.items[i])
  }

  // The wire form of a value, which does not mention the schema.
  function Bytes(v: Value): seq<byte>
    decreases v, 0
  {
    match v
    case Word(w) => PutU32(w)
    case Long(x) => PutU32(Lo(x)) + PutU32(Hi(x))
    case Raw(b) => b
    case Items(items) => AllBytes(items)
    case Struct(fields) => AllBytes(fields)
  }

  function AllBytes(vs: seq<Value>): seq<byte>
    decreases vs, 1
  {
    if vs == [] then [] else Bytes(vs[0]) + AllBytes(vs[1..])
  }

  // ---------------------------------------------------------------- writer

  datatype Writer = Writer(bytes: seq<byte>, capacity: nat, status: int)

  function Put(w: Writer, b: seq<byte>): Writer {
    if w.status != 0 then w
    else if |b| > w.capacity - |w.bytes| then w.(status := EMSGSIZE)
    else w.(bytes := w.bytes + b)
  }

  function EncodeLeaf(codecs: seq<Codec>, p: nat, leaf: Leaf, v: Value, w: Writer): Writer
    requires p <= |codecs|
    decreases p, 0, 0
  {
    match leaf
    case CallStruct(name) =>
      var q := Find(codecs, p, name);
      if q < p then EncodeStruct(codecs, q, v, w) else w
    case WordLeaf => if v.Word? then Put(w, PutU32(v.w)) else w
    case NarrowLeaf => if v.Word? then Put(w, PutU32(v.w)) else w
    case LongLeaf => if v.Long? then Put(w, PutU32(Lo(v.x)) + PutU32(Hi(v.x))) else w
  }

  function EncodeItems(codecs: seq<Codec>, p: nat, leaf: Leaf, items: seq<Value>, w: Writer): Writer
    requires p <= |codecs|
    decreases p, 1, |items|
  {
    if items == [] then w else EncodeItems(codecs, p, leaf, items[1..], EncodeLeaf(codecs, p, leaf, items[0], w))
  }

  function EncodeStmt(codecs: seq<Codec>, p: nat, s: Stmt, v: Value, w: Writer): Writer
    requires p <= |codecs|
    decreases p, 2, 0
  {
    match s
    case CopyBytes(n, _) => if v.Raw? && |v.b| == n then Put(w, v.b) else w
    case ForEach(n, leaf) => if v.Items? && |v.items| == n then EncodeItems(codecs, p, leaf, v.items, w) else w
    case Single(leaf) => EncodeLeaf(codecs, p, leaf, v, w)
  }

  function EncodeStmts(codecs: seq<Codec>, p: nat, stmts: seq<Stmt>, fields: seq<Value>, w: Writer): Writer
    requires p <= |codecs|
    decreases p, 3, |stmts|
  {
    if stmts == [] || fields == [] then w
    else EncodeStmts(codecs, p, stmts[1..], fields[1..], EncodeStmt(codecs, p, stmts[0], fields[0], w))
  }

  function EncodeStruct(codecs: seq<Codec>, p: nat, v: Value, w: Writer): Writer
    requires p < |codecs|
    decreases p, 4, 0
  {
    if v.Struct? then EncodeStmts(codecs, p, codecs[p].encoder, v.fields, w) else w
  }

  // What trying to put b does: nothing after an error, all of it when it fits, an error otherwise.
  ghost predicate Puts(w: Writer, r: Writer, b: seq<byte>) {
    && r.capacity == w.capacity
    && (w.status != 0 ==> r == w)
    && (w.status == 0 && |w.bytes| + |b| <= w.capacity ==> r == w.(bytes := w.bytes + b))
    && (w.status == 0 && |w.bytes| <= w.capacity < |w.bytes| + |b| ==> r.status == EMSGSIZE)
  }

  lemma PutsBoth(w: Writer, m: Writer, r: Writer, a: seq<byte>, b: seq<byte>)
    requires Puts(w, m, a) && Puts(m, r, b)
    ensures Puts(w, r, a + b)
  {
  }

  // Everything a member of codec p can call is declared before it.
  predicate Declared(ordered: seq<Name>, p: nat, kind: Type)
    requires p <= |ordered|
  {
    kind.Named? ==> kind.name in ordered[..p]
  }

  lemma CallIsDeclared(schema: Schema, ordered: seq<Name>, codecs: seq<Codec>, p: nat, name: Name)
    requires Emitted(schema, ordered, codecs) && p <= |codecs| && name in ordered[..p]
    ensures var q := Find(codecs, p, name); q < p && ordered[q] == name
  {
  }

  lemma {:induction false} LeafPuts(schema: Schema, ordered: seq<Name>, codecs: seq<Codec>, p: nat, kind: Type, v: Value, w: Writer)
    requires Emitted(schema, ordered, codecs) && p <= |codecs| && Declared(ordered, p, kind) && HasKind(schema, kind, v)
    ensures Puts(w, EncodeLeaf(codecs, p, LeafOf(kind), v, w), Bytes(v))
    decreases p, 0, 0
  {
    if kind.Named? {
      CallIsDeclared(schema, ordered, codecs, p, kind.name);
      StructPuts(schema, ordered, codecs, Find(codecs, p, kind.name), v, w);
    }
  }

  lemma {:induction false} ItemsPut(schema: Schema, ordered: seq<Name>, codecs: seq<Codec>, p: nat, kind: Type, items: seq<Value>, w: Writer)
    requires Emitted(schema, ordered, codecs) && p <= |codecs| && Declared(ordered, p, kind)
    requires forall i :: 0 <= i < |items| ==> HasKind(schema, kind, items[i])
    ensures Puts(w, EncodeItems(codecs, p, LeafOf(kind), items, w), AllBytes(items))
    decreases p, 1, |items|
  {
    if items == [] {
      assert w.bytes + [] == w.bytes;
    } else {
      var m := EncodeLeaf(codecs, p, LeafOf(kind), items[0], w);
      LeafPuts(schema, ordered, codecs, p, kind, items[0], w);
      ItemsPut(schema, ordered, codecs, p, kind, items[1..], m);
      PutsBoth(w, m, EncodeItems(codecs, p, LeafOf(kind), items[1..], m), Bytes(items[0]), AllBytes(items[1..]));
    }
  }

  lemma {:induction false} MemberPuts(schema: Schema, ordered: seq<Name>, codecs: seq<Codec>, p: nat, m: Member, v: Value, w: Writer)
    requires Emitted(schema, ordered, codecs) && p <= |codecs| && Declared(ordered, p, m.kind) && HasMember(schema, m, v)
    ensures Puts(w, EncodeStmt(codecs, p, EncoderStmt(m), v, w), Bytes(v))
    decreases p, 2, 0
  {
    if m.dimension.Scalar? {
      LeafPuts(schema, ordered, codecs, p, m.kind, v, w);
    } else if m.kind != Plain(Byte) {
      ItemsPut(schema, ordered, codecs, p, m.kind, v.items, w);
    }
  }

  lemma {:induction false} MembersPut(schema: Schema, ordered: seq<Name>, codecs: seq<Codec>, p: nat, k: nat, fields: seq<Value>, w: Writer)
    requires Emitted(schema, ordered, codecs) && p < |codecs|
    requires var members := schema[ordered[p]]; k <= |members| && HasMembers(schema, members[k..], fields)
    ensures Puts(w, EncodeStmts(codecs, p, codecs[p].encoder[k..], fields, w), AllBytes(fields))
    decreases p, 3, |fields|
  {
    var members, stmts := schema[ordered[p]], codecs[p].encoder[k..];
    if fields == [] {
      assert w.bytes + [] == w.bytes;
    } else {
      assert members[k..][0] == members[k] && members[k..][1..] == members[k + 1..];
      assert stmts[0] == EncoderStmt(members[k]) && stmts[1..] == codecs[p].encoder[k + 1..];
      var m := EncodeStmt(codecs, p, stmts[0], fields[0], w);
      assert After(schema, ordered, p) && members[k] in members;
      assert HasMembers(schema, members[k + 1..], fields[1..]) by { TailHasMembers(schema, members[k..], fields); }
      MemberPuts(schema, ordered, codecs, p, members[k], fields[0], w);
      MembersPut(schema, ordered, codecs, p, k + 1, fields[1..], m);
      PutsBoth(w, m, EncodeStmts(codecs, p, stmts[1..], fields[1..], m), Bytes(fields[0]), AllBytes(fields[1..]));
    }
  }

  lemma TailHasMembers(schema: Schema, members: seq<Member>, fields: seq<Value>)
    requires HasMembers(schema, members, fields) && fields != []
    ensures HasMember(schema, members[0], fields[0]) && HasMembers(schema, members[1..], fields[1..])
  {
  }

  // The emitted encoder writes the wire form of the value, all of it or not at all.
  lemma {:induction false} StructPuts(schema: Schema, ordered: seq<Name>, codecs: seq<Codec>, p: nat, v: Value, w: Writer)
    requires Emitted(schema, ordered, codecs) && p < |codecs| && HasKind(schema, Named(ordered[p]), v)
    ensures Puts(w, EncodeStruct(codecs, p, v, w), Bytes(v))
    decreases p, 4, 0
  {
    assert CodecOf(schema, ordered[p], codecs[p]);
    var members := schema[ordered[p]];
    assert members[0..] == members && codecs[p].encoder[0..] == codecs[p].encoder;
    MembersPut(schema, ordered, codecs, p, 0, v.fields, w);
  }

  // ---------------------------------------------------------------- reader

  datatype Reader = Reader(input: seq<byte>, offset: nat, status: int)

  // A failed read leaves the destination as it was, which is zero.
  function Get(r: Reader, n: nat): (result: (seq<byte>, Reader))
    ensures |result.0| == n
  {
    if r.status != 0 then (ZeroBytes(n), r)
    else if r.offset + n > |r.input| then (ZeroBytes(n), r.(status := EMSGSIZE))
    else (r.input[r.offset..r.offset + n], r.(offset := r.offset + n))
  }

  function GetWord(r: Reader): (u32, Reader) {
    var (b, next) := Get(r, 4);
    (GetU32(b, 0), next)
  }

  function DecodeLeaf(codecs: seq<Codec>, p: nat, leaf: Leaf, r: Reader): (Value, Reader)
    requires p <= |codecs|
    decreases p, 0, 0
  {
    match leaf
    case CallStruct(name) =>
      var q := Find(codecs, p, name);
      if q < p then DecodeStruct(codecs, q, r) else (Struct([]), r)
    case WordLeaf => var (w, next) := GetWord(r); (Word(w), next)
    case NarrowLeaf => var (w, next) := GetWord(r); (Word(w % 256), next)
    case LongLeaf => var (b, next) := Get(r, 8); (Value.Long(GetU64(b, 0)), next)
  }

  function DecodeItems(codecs: seq<Codec>, p: nat, leaf: Leaf, count: nat, r: Reader): (seq<Value>, Reader)
    requires p <= |codecs|
    decreases p, 1, count
  {
    if count == 0 then ([], r)
    else
      var (v, next) := DecodeLeaf(codecs, p, leaf, r);
      var (rest, last) := DecodeItems(codecs, p, leaf, count - 1, next);
      ([v] + rest, last)
  }

  function DecodeStmt(codecs: seq<Codec>, p: nat, s: Stmt, r: Reader): (Value, Reader)
    requires p <= |codecs|
    decreases p, 2, 0
  {
    match s
    case CopyBytes(n, needsNul) =>
      var (b, next) := Get(r, n);
      (Raw(b), if needsNul && 0 !in b then next.(status := EPROTO) else next)
    case ForEach(n, leaf) => var (items, next) := DecodeItems(codecs, p, leaf, n, r); (Items(items), next)
    case Single(leaf) => DecodeLeaf(codecs, p, leaf, r)
  }

  function DecodeStmts(codecs: seq<Codec>, p: nat, stmts: seq<Stmt>, r: Reader): (seq<Value>, Reader)
    requires p <= |codecs|
    decreases p, 3, |stmts|
  {
    if stmts == [] then ([], r)
    else
      var (v, next) := DecodeStmt(codecs, p, stmts[0], r);
      var (rest, last) := DecodeStmts(codecs, p, stmts[1..], next);
      ([v] + rest, last)
  }

  function DecodeStruct(codecs: seq<Codec>, p: nat, r: Reader): (Value, Reader)
    requires p < |codecs|
    decreases p, 4, 0
  {
    var (fields, next) := DecodeStmts(codecs, p, codecs[p].decoder, r);
    (Struct(fields), next)
  }

  // ---------------------------------------------------------------- decoding undoes encoding

  // The reader is good and b comes next.
  predicate Next(r: Reader, b: seq<byte>) {
    r.status == 0 && r.offset + |b| <= |r.input| && r.input[r.offset..r.offset + |b|] == b
  }

  function Advanced(r: Reader, n: nat): Reader {
    r.(offset := r.offset + n)
  }

  lemma NextSplits(r: Reader, a: seq<byte>, b: seq<byte>)
    requires Next(r, a + b)
    ensures Next(r, a) && Next(Advanced(r, |a|), b) && Advanced(Advanced(r, |a|), |b|) == Advanced(r, |a + b|)
  {
    var c := r.input[r.offset..r.offset + |a + b|];
    assert c[..|a|] == a && c[|a|..] == b;
  }

  lemma WordComesBack(w: u32)
    ensures GetU32(PutU32(w), 0) == w
  {
    PutGet(w, []);
    assert PutU32(w) + [] == PutU32(w);
  }

  lemma LongComesBack(x: u64)
    ensures GetU64(PutU32(Lo(x)) + PutU32(Hi(x)), 0) == x
  {
    var b := PutU32(Lo(x)) + PutU32(Hi(x));
    PutGet(Lo(x), PutU32(Hi(x)));
    SuffixField(b, 4, 0);
    assert b[4..] == PutU32(Hi(x));
    WordComesBack(Hi(x));
    JoinSplit(x);
  }

  lemma {:induction false} LeafReads(schema: Schema, ordered: seq<Name>, codecs: seq<Codec>, p: nat, kind: Type, v: Value, r: Reader)
    requires Emitted(schema, ordered, codecs) && p <= |codecs| && Declared(ordered, p, kind) && HasKind(schema, kind, v)
    requires Next(r, Bytes(v))
    ensures DecodeLeaf(codecs, p, LeafOf(kind), r) == (v, Advanced(r, |Bytes(v)|))
    decreases p, 0, 0
  {
    if kind.Named? {
      CallIsDeclared(schema, ordered, codecs, p, kind.name);
      StructReads(schema, ordered, codecs, Find(codecs, p, kind.name), v, r);
    } else if v.Word? {
      WordComesBack(v.w);
    } else {
      LongComesBack(v.x);
    }
  }

  lemma {:induction false} ItemsRead(schema: Schema, ordered: seq<Name>, codecs: seq<Codec>, p: nat, kind: Type, items: seq<Value>, r: Reader)
    requires Emitted(schema, ordered, codecs) && p <= |codecs| && Declared(ordered, p, kind)
    requires forall i :: 0 <= i < |items| ==> HasKind(schema, kind, items[i])
    requires Next(r, AllBytes(items))
    ensures DecodeItems(codecs, p, LeafOf(kind), |items|, r) == (items, Advanced(r, |AllBytes(items)|))
    decreases p, 1, |items|
  {
    if items != [] {
      NextSplits(r, Bytes(items[0]), AllBytes(items[1..]));
      LeafReads(schema, ordered, codecs, p, kind, items[0], r);
      ItemsRead(schema, ordered, codecs, p, kind, items[1..], Advanced(r, |Bytes(items[0])|));
      assert [items[0]] + items[1..] == items;
    }
  }

  lemma {:induction false} MemberReads(schema: Schema, ordered: seq<Name>, codecs: seq<Codec>, p: nat, m: Member, v: Value, r: Reader)
    requires Emitted(schema, ordered, codecs) && p <= |codecs| && Declared(ordered, p, m.kind) && HasMember(schema, m, v)
    requires Next(r, Bytes(v))
    ensures DecodeStmt(codecs, p, DecoderStmt(m), r) == (v, Advanced(r, |Bytes(v)|))
    decreases p, 2, 0
  {
    if m.dimension.Scalar? {
      LeafReads(schema, ordered, codecs, p, m.kind, v, r);
    } else if m.kind != Plain(Byte) {
      ItemsRead(schema, ordered, codecs, p, m.kind, v.items, r);
    }
  }

  lemma {:induction false} MembersRead(schema: Schema, ordered: seq<Name>, codecs: seq<Codec>, p: nat, k: nat, fields: seq<Value>, r: Reader)
    requires Emitted(schema, ordered, codecs) && p < |codecs|
    requires var members := schema[ordered[p]]; k <= |members| && HasMembers(schema, members[k..], fields)
    requires Next(r, AllBytes(fields))
    ensures DecodeStmts(codecs, p, codecs[p].decoder[k..], r) == (fields, Advanced(r, |AllBytes(fields)|))
    decreases p, 3, |fields|
  {
    var members, stmts := schema[ordered[p]], codecs[p].decoder[k..];
    if fields != [] {
      assert members[k..][0] == members[k] && members[k..][1..] == members[k + 1..];
      assert stmts[0] == DecoderStmt(members[k]) && stmts[1..] == codecs[p].decoder[k + 1..];
      assert After(schema, ordered, p) && members[k] in members;
      TailHasMembers(schema, members[k..], fields);
      NextSplits(r, Bytes(fields[0]), AllBytes(fields[1..]));
      MemberReads(schema, ordered, codecs, p, members[k], fields[0], r);
      MembersRead(schema, ordered, codecs, p, k + 1, fields[1..], Advanced(r, |Bytes(fields[0])|));
      assert [fields[0]] + fields[1..] == fields;
    }
  }

  // The emitted decoder reads the wire form back to the value and stops right after it.
  lemma {:induction false} StructReads(schema: Schema, ordered: seq<Name>, codecs: seq<Codec>, p: nat, v: Value, r: Reader)
    requires Emitted(schema, ordered, codecs) && p < |codecs| && HasKind(schema, Named(ordered[p]), v)
    requires Next(r, Bytes(v))
    ensures DecodeStruct(codecs, p, r) == (v, Advanced(r, |Bytes(v)|))
    decreases p, 4, 0
  {
    assert CodecOf(schema, ordered[p], codecs[p]);
    var members := schema[ordered[p]];
    assert members[0..] == members && codecs[p].decoder[0..] == codecs[p].decoder;
    MembersRead(schema, ordered, codecs, p, 0, v.fields, r);
  }

  // ---------------------------------------------------------------- sizes and errors

  function LeafSize(codecs: seq<Codec>, p: nat, leaf: Leaf): nat
    requires p <= |codecs|
    decreases p, 0, 0
  {
    match leaf
    case CallStruct(name) => var q := Find(codecs, p, name); if q < p then StructSize(codecs, q) else 0
    case WordLeaf => 4
    case NarrowLeaf => 4
    case LongLeaf => 8
  }

  function StmtSize(codecs: seq<Codec>, p: nat, s: Stmt): nat
    requires p <= |codecs|
    decreases p, 1, 0
  {
    match s
    case CopyBytes(n, _) => n
    case ForEach(n, leaf) => n * LeafSize(codecs, p, leaf)
    case Single(leaf) => LeafSize(codecs, p, leaf)
  }

  function StmtsSize(codecs: seq<Codec>, p: nat, stmts: seq<Stmt>): nat
    requires p <= |codecs|
    decreases p, 2, |stmts|
  {
    if stmts == [] then 0 else StmtSize(codecs, p, stmts[0]) + StmtsSize(codecs, p, stmts[1..])
  }

  // The length of a structure on the wire, from the generated code alone.
  function StructSize(codecs: seq<Codec>, p: nat): nat
    requires p < |codecs|
    decreases p, 3, 0
  {
    StmtsSize(codecs, p, codecs[p].decoder)
  }

  // What a decoder does to its reader: after an error it stays where it is, with that error or a
  // missing NUL in its place; without one, it has moved on by exactly n.
  ghost predicate Consumes(r: Reader, s: Reader, n: nat) {
    && s.input == r.input
    && (r.status != 0 ==> s.offset == r.offset && (s.status == r.status || s.status == EPROTO))
    && (s.status == 0 ==> s.offset == r.offset + n)
    && (r.status == 0 && r.offset <= |r.input| < r.offset + n ==> s.status != 0)
    && (r.offset <= |r.input| ==> s.offset <= |s.input|)
  }

  lemma ConsumesBoth(r: Reader, m: Reader, s: Reader, a: nat, b: nat)
    requires Consumes(r, m, a) && Consumes(m, s, b)
    ensures Consumes(r, s, a + b)
  {
  }

  lemma {:induction false} LeafConsumes(codecs: seq<Codec>, p: nat, leaf: Leaf, r: Reader)
    requires p <= |codecs|
    ensures Consumes(r, DecodeLeaf(codecs, p, leaf, r).1, LeafSize(codecs, p, leaf))
    decreases p, 0, 0
  {
    if leaf.CallStruct? {
      var q := Find(codecs, p, leaf.name);
      if q < p { StructConsumes(codecs, q, r); }
    }
  }

  lemma {:induction false} ItemsConsume(codecs: seq<Codec>, p: nat, leaf: Leaf, count: nat, r: Reader)
    requires p <= |codecs|
    ensures Consumes(r, DecodeItems(codecs, p, leaf, count, r).1, count * LeafSize(codecs, p, leaf))
    decreases p, 1, count
  {
    if count > 0 {
      var n := LeafSize(codecs, p, leaf);
      var m := DecodeLeaf(codecs, p, leaf, r).1;
      LeafConsumes(codecs, p, leaf, r);
      ItemsConsume(codecs, p, leaf, count - 1, m);
      ConsumesBoth(r, m, DecodeItems(codecs, p, leaf, count - 1, m).1, n, (count - 1) * n);
      assert n + (count - 1) * n == count * n;
    }
  }

  lemma {:induction false} StmtConsumes(codecs: seq<Codec>, p: nat, s: Stmt, r: Reader)
    requires p <= |codecs|
    ensures Consumes(r, DecodeStmt(codecs, p, s, r).1, StmtSize(codecs, p, s))
    decreases p, 2, 0
  {
    match s
    case CopyBytes(_, _) =>
    case ForEach(n, leaf) => ItemsConsume(codecs, p, leaf, n, r);
    case Single(leaf) => LeafConsumes(codecs, p, leaf, r);
  }

  lemma {:induction false} StmtsConsume(codecs: seq<Codec>, p: nat, stmts: seq<Stmt>, r: Reader)
    requires p <= |codecs|
    ensures Consumes(r, DecodeStmts(codecs, p, stmts, r).1, StmtsSize(codecs, p, stmts))
    decreases p, 3, |stmts|
  {
    if stmts != [] {
      var m := DecodeStmt(codecs, p, stmts[0], r).1;
      StmtConsumes(codecs, p, stmts[0], r);
      StmtsConsume(codecs, p, stmts[1..], m);
      ConsumesBoth(r, m, DecodeStmts(codecs, p, stmts[1..], m).1, StmtSize(codecs, p, stmts[0]), StmtsSize(codecs, p, stmts[1..]));
    }
  }

  // On any input and from any state, a decoder that ends without an error had none before and has
  // consumed exactly the structure's size; after an error it neither clears it nor moves.
  lemma {:induction false} StructConsumes(codecs: seq<Codec>, p: nat, r: Reader)
    requires p < |codecs|
    ensures Consumes(r, DecodeStruct(codecs, p, r).1, StructSize(codecs, p))
    decreases p, 4, 0
  {
    StmtsConsume(codecs, p, codecs[p].decoder, r);
  }

  // Every value of a structure has that length on the wire.
  lemma ValueHasStructSize(schema: Schema, ordered: seq<Name>, codecs: seq<Codec>, p: nat, v: Value)
    requires Emitted(schema, ordered, codecs) && p < |codecs| && HasKind(schema, Named(ordered[p]), v)
    ensures |Bytes(v)| == StructSize(codecs, p)
  {
    var r := Reader(Bytes(v), 0, 0);
    assert r.input[0..|Bytes(v)|] == Bytes(v);
    StructReads(schema, ordered, codecs, p, v, r);
    StructConsumes(codecs, p, r);
  }

  // ---------------------------------------------------------------- which error is reported

  // Terminated arrays have room for their NUL.
  predicate ArraysHaveRoom(codecs: seq<Codec>) {
    forall p :: 0 <= p < |codecs| ==> StmtsHaveRoom(codecs[p].decoder)
  }

  predicate StmtsHaveRoom(stmts: seq<Stmt>) {
    forall k :: 0 <= k < |stmts| ==> StmtHasRoom(stmts[k])
  }

  predicate StmtHasRoom(s: Stmt) {
    s.CopyBytes? && s.needsNul ==> s.length > 0
  }

  // Once a reader has failed, nothing happens to it any more.
  ghost predicate FirstErrorStays(codecs: seq<Codec>) {
    forall p: nat, r: Reader :: p < |codecs| && r.status != 0 ==> DecodeStruct(codecs, p, r).1 == r
  }

  lemma {:induction false} LeafKeepsError(codecs: seq<Codec>, p: nat, leaf: Leaf, r: Reader)
    requires p <= |codecs| && ArraysHaveRoom(codecs) && r.status != 0
    ensures DecodeLeaf(codecs, p, leaf, r).1 == r
    decreases p, 0, 0
  {
    if leaf.CallStruct? {
      var q := Find(codecs, p, leaf.name);
      if q < p { StmtsKeepError(codecs, q, codecs[q].decoder, r); }
    }
  }

  lemma {:induction false} ItemsKeepError(codecs: seq<Codec>, p: nat, leaf: Leaf, count: nat, r: Reader)
    requires p <= |codecs| && ArraysHaveRoom(codecs) && r.status != 0
    ensures DecodeItems(codecs, p, leaf, count, r).1 == r
    decreases p, 1, count
  {
    if count > 0 {
      LeafKeepsError(codecs, p, leaf, r);
      ItemsKeepError(codecs, p, leaf, count - 1, r);
    }
  }

  // The bytes of a failed read are zero, so the first of them passes for a NUL.
  lemma {:induction false} StmtsKeepError(codecs: seq<Codec>, p: nat, stmts: seq<Stmt>, r: Reader)
    requires p <= |codecs| && ArraysHaveRoom(codecs) && StmtsHaveRoom(stmts) && r.status != 0
    ensures DecodeStmts(codecs, p, stmts, r).1 == r
    decreases p, 3, |stmts|
  {
    if stmts != [] {
      match stmts[0] {
        case CopyBytes(n, _) => assert n > 0 ==> Get(r, n).0[0] == 0;
        case ForEach(n, leaf) => ItemsKeepError(codecs, p, leaf, n, r);
        case Single(leaf) => LeafKeepsError(codecs, p, leaf, r);
      }
      StmtsKeepError(codecs, p, stmts[1..], r);
    }
  }

  // With an array that cannot hold its NUL among them, every error ends as a missing NUL.
  lemma {:induction false} StmtsReplaceError(codecs: seq<Codec>, p: nat, stmts: seq<Stmt>, r: Reader)
    requires p <= |codecs| && !StmtsHaveRoom(stmts) && r.status != 0
    ensures DecodeStmts(codecs, p, stmts, r).1.status == EPROTO
    decreases |stmts|
  {
    var m := DecodeStmt(codecs, p, stmts[0], r).1;
    StmtConsumes(codecs, p, stmts[0], r);
    if StmtHasRoom(stmts[0]) {
      StmtsReplaceError(codecs, p, stmts[1..], m);
    } else {
      StmtsConsume(codecs, p, stmts[1..], m);
    }
  }

  // The first error is the one reported exactly when terminated arrays have room for their NUL.
  lemma FirstErrorStaysIfRoom(codecs: seq<Codec>)
    ensures FirstErrorStays(codecs) <==> ArraysHaveRoom(codecs)
  {
    if ArraysHaveRoom(codecs) {
      forall p: nat, r: Reader | p < |codecs| && r.status != 0 ensures DecodeStruct(codecs, p, r).1 == r {
        StmtsKeepError(codecs, p, codecs[p].decoder, r);
      }
    } else {
      var p :| 0 <= p < |codecs| && !StmtsHaveRoom(codecs[p].decoder);
      var r := Reader([], 0, EMSGSIZE);
      StmtsReplaceError(codecs, p, codecs[p].decoder, r);
      assert DecodeStruct(codecs, p, r).1 != r;
    }
  }

  // The same condition on the schema, before any code is generated.
  predicate SchemaHasRoom(schema: Schema, ordered: seq<Name>)
    requires forall name :: name in ordered ==> name in schema
  {
    forall name, m :: name in ordered && m in schema[name] && m.kind == Plain(Byte) && m.nullTerminated ==> m.dimension != Array(0)
  }

  lemma RoomIsInTheSchema(schema: Schema, ordered: seq<Name>, codecs: seq<Codec>)
    requires Emitted(schema, ordered, codecs)
    ensures (forall name :: name in ordered ==> name in schema)
    ensures ArraysHaveRoom(codecs) <==> SchemaHasRoom(schema, ordered)
  {
    forall p | 0 <= p < |codecs| ensures ordered[p] in schema {
      assert CodecOf(schema, ordered[p], codecs[p]);
    }
    if SchemaHasRoom(schema, ordered) {
      forall p, k | 0 <= p < |codecs| && 0 <= k < |codecs[p].decoder| ensures StmtHasRoom(codecs[p].decoder[k]) {
        assert CodecOf(schema, ordered[p], codecs[p]);
        assert schema[ordered[p]][k] in schema[ordered[p]] && ordered[p] in ordered;
      }
    }
    if ArraysHaveRoom(codecs) {
      forall name, m | name in ordered && m in schema[name] && m.kind == Plain(Byte) && m.nullTerminated ensures m.dimension != Array(0) {
        var p :| 0 <= p < |ordered| && ordered[p] == name;
        var k :| 0 <= k < |schema[name]| && schema[name][k] == m;
        assert CodecOf(schema, ordered[p], codecs[p]) && StmtsHaveRoom(codecs[p].decoder);
        assert StmtHasRoom(codecs[p].decoder[k]);
      }
    }
  }

  // A schema whose one structure is a word and a terminated array of no bytes: reading the word
  // from an empty payload finds it too short, and the decoder reports a missing NUL instead.
  lemma EmptyTerminatedArrayReplacesTheError()
    ensures var schema: Schema := map["S" := [Member(Plain(U32), Scalar, false), Member(Plain(Byte), Array(0), true)]];
      var codec := Codec("S", [Single(WordLeaf), CopyBytes(0, false)], [Single(WordLeaf), CopyBytes(0, true)]);
      && Emitted(schema, ["S"], [codec])
      && DecodeStmt([codec], 0, codec.decoder[0], Reader([], 0, 0)).1.status == EMSGSIZE
      && DecodePayload([codec], 0, []) == Fail(EPROTO)
  {
    var schema: Schema := map["S" := [Member(Plain(U32), Scalar, false), Member(Plain(Byte), Array(0), true)]];
    var codec := Codec("S", [Single(WordLeaf), CopyBytes(0, false)], [Single(WordLeaf), CopyBytes(0, true)]);
    assert CodecOf(schema, "S", codec);
    assert codec.decoder[1..] == [CopyBytes(0, true)];
    var r := Reader([], 0, EMSGSIZE);
    assert DecodeStmts([codec], 0, [CopyBytes(0, true)], r).1 == r.(status := EPROTO);
  }

  // ---------------------------------------------------------------- whole payloads

  function FinishWriter(w: Writer): Result<seq<byte>> {
    if w.status != 0 then Fail(w.status) else if |w.bytes| >= U32_LIMIT then Fail(EOVERFLOW) else Ok(w.bytes)
  }

  function ReaderStatus(r: Reader): int {
    if r.status != 0 then r.status else if r.offset == |r.input| then 0 else EPROTO
  }

  function EncodePayload(codecs: seq<Codec>, p: nat, v: Value): Result<seq<byte>>
    requires p < |codecs|
  {
    FinishWriter(EncodeStruct(codecs, p, v, Writer([], MAX_PAYLOAD, 0)))
  }

  function DecodePayload(codecs: seq<Codec>, p: nat, input: seq<byte>): Result<Value>
    requires p < |codecs|
  {
    var (v, r) := DecodeStruct(codecs, p, Reader(input, 0, 0));
    if ReaderStatus(r) == 0 then Ok(v) else Fail(ReaderStatus(r))
  }

  // For every schema that can be ordered: a structure that fits is encoded and decodes to itself,
  // one that does not is refused, and no payload of another length is ever accepted.
  lemma PayloadRoundTrip(schema: Schema, ordered: seq<Name>, codecs: seq<Codec>, p: nat, v: Value, input: seq<byte>)
    requires Emitted(schema, ordered, codecs) && p < |codecs| && HasKind(schema, Named(ordered[p]), v)
    ensures EncodePayload(codecs, p, v) == if StructSize(codecs, p) <= MAX_PAYLOAD then Ok(Bytes(v)) else Fail(EMSGSIZE)
    ensures DecodePayload(codecs, p, Bytes(v)) == Ok(v)
    ensures DecodePayload(codecs, p, input).Ok? ==> |input| == StructSize(codecs, p)
  {
    ValueHasStructSize(schema, ordered, codecs, p, v);
    StructPuts(schema, ordered, codecs, p, v, Writer([], MAX_PAYLOAD, 0));
    assert [] + Bytes(v) == Bytes(v);
    var r := Reader(Bytes(v), 0, 0);
    assert r.input[0..|Bytes(v)|] == Bytes(v);
    StructReads(schema, ordered, codecs, p, v, r);
    StructConsumes(codecs, p, Reader(input, 0, 0));
  }

  // A count and then that many structures.
  function EncodeAll(codecs: seq<Codec>, p: nat, vs: seq<Value>, w: Writer): Writer
    requires p < |codecs|
    decreases |vs|
  {
    if vs == [] then w else EncodeAll(codecs, p, vs[1..], EncodeStruct(codecs, p, vs[0], w))
  }

  function DecodeAll(codecs: seq<Codec>, p: nat, count: nat, r: Reader): (seq<Value>, Reader)
    requires p < |codecs|
    decreases count
  {
    if count == 0 then ([], r)
    else
      var (v, next) := DecodeStruct(codecs, p, r);
      var (rest, last) := DecodeAll(codecs, p, count - 1, next);
      ([v] + rest, last)
  }

  function EncodeCounted(codecs: seq<Codec>, p: nat, vs: seq<Value>): Result<seq<byte>>
    requires p < |codecs|
  {
    if |vs| > MAX_QUEUE_FAMILIES then Fail(EINVAL)
    else FinishWriter(EncodeAll(codecs, p, vs, Put(Writer([], MAX_PAYLOAD, 0), PutU32(|vs|))))
  }

  function DecodeCounted(codecs: seq<Codec>, p: nat, input: seq<byte>): Result<seq<Value>>
    requires p < |codecs|
  {
    var (count, r) := GetWord(Reader(input, 0, 0));
    if count > MAX_QUEUE_FAMILIES then Fail(EPROTO)
    else
      var (vs, last) := DecodeAll(codecs, p, count, r);
      if ReaderStatus(last) == 0 then Ok(vs) else Fail(ReaderStatus(last))
  }

  lemma {:induction false} AllPut(schema: Schema, ordered: seq<Name>, codecs: seq<Codec>, p: nat, vs: seq<Value>, w: Writer)
    requires Emitted(schema, ordered, codecs) && p < |codecs|
    requires forall i :: 0 <= i < |vs| ==> HasKind(schema, Named(ordered[p]), vs[i])
    ensures Puts(w, EncodeAll(codecs, p, vs, w), AllBytes(vs))
    decreases |vs|
  {
    if vs == [] {
      assert w.bytes + [] == w.bytes;
    } else {
      var m := EncodeStruct(codecs, p, vs[0], w);
      StructPuts(schema, ordered, codecs, p, vs[0], w);
      AllPut(schema, ordered, codecs, p, vs[1..], m);
      PutsBoth(w, m, EncodeAll(codecs, p, vs[1..], m), Bytes(vs[0]), AllBytes(vs[1..]));
    }
  }

  lemma {:induction false} AllRead(schema: Schema, ordered: seq<Name>, codecs: seq<Codec>, p: nat, vs: seq<Value>, r: Reader)
    requires Emitted(schema, ordered, codecs) && p < |codecs|
    requires forall i :: 0 <= i < |vs| ==> HasKind(schema, Named(ordered[p]), vs[i])
    requires Next(r, AllBytes(vs))
    ensures DecodeAll(codecs, p, |vs|, r) == (vs, Advanced(r, |AllBytes(vs)|))
    decreases |vs|
  {
    if vs != [] {
      NextSplits(r, Bytes(vs[0]), AllBytes(vs[1..]));
      StructReads(schema, ordered, codecs, p, vs[0], r);
      AllRead(schema, ordered, codecs, p, vs[1..], Advanced(r, |Bytes(vs[0])|));
      assert [vs[0]] + vs[1..] == vs;
    }
  }

  lemma CountedIsEncoded(schema: Schema, ordered: seq<Name>, codecs: seq<Codec>, p: nat, vs: seq<Value>)
    requires Emitted(schema, ordered, codecs) && p < |codecs| && |vs| <= MAX_QUEUE_FAMILIES
    requires forall i :: 0 <= i < |vs| ==> HasKind(schema, Named(ordered[p]), vs[i])
    ensures var encoded := EncodeCounted(codecs, p, vs);
      && (encoded.Ok? <==> 4 + |AllBytes(vs)| <= MAX_PAYLOAD)
      && (encoded.Ok? ==> encoded.value == PutU32(|vs|) + AllBytes(vs))
  {
    var w := Put(Writer([], MAX_PAYLOAD, 0), PutU32(|vs|));
    assert w.bytes == PutU32(|vs|);
    AllPut(schema, ordered, codecs, p, vs, w);
  }

  lemma CountedIsDecoded(schema: Schema, ordered: seq<Name>, codecs: seq<Codec>, p: nat, vs: seq<Value>)
    requires Emitted(schema, ordered, codecs) && p < |codecs| && |vs| <= MAX_QUEUE_FAMILIES
    requires forall i :: 0 <= i < |vs| ==> HasKind(schema, Named(ordered[p]), vs[i])
    ensures DecodeCounted(codecs, p, PutU32(|vs|) + AllBytes(vs)) == Ok(vs)
  {
    var count, body := PutU32(|vs|), AllBytes(vs);
    var r := Reader(count + body, 0, 0);
    assert r.input[0..|count + body|] == count + body;
    NextSplits(r, count, body);
    WordComesBack(|vs|);
    AllRead(schema, ordered, codecs, p, vs, Advanced(r, 4));
  }

  // A list that is encoded decodes to itself; it is refused when it is too long or does not fit.
  lemma CountedRoundTrip(schema: Schema, ordered: seq<Name>, codecs: seq<Codec>, p: nat, vs: seq<Value>)
    requires Emitted(schema, ordered, codecs) && p < |codecs|
    requires forall i :: 0 <= i < |vs| ==> HasKind(schema, Named(ordered[p]), vs[i])
    ensures var encoded := EncodeCounted(codecs, p, vs);
      && (encoded.Ok? <==> |vs| <= MAX_QUEUE_FAMILIES && 4 + |AllBytes(vs)| <= MAX_PAYLOAD)
      && (encoded.Ok? ==> DecodeCounted(codecs, p, encoded.value) == Ok(vs))
  {
    if |vs| <= MAX_QUEUE_FAMILIES {
      CountedIsEncoded(schema, ordered, codecs, p, vs);
      CountedIsDecoded(schema, ordered, codecs, p, vs);
    }
  }
}
