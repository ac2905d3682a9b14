/**
 * A brokered shared region: each accepted execute request names a batch in
 * the region with a sequence above every one accepted before.
 */
module VisibleBatch {
  import opened Errno
  import opened Wire
  import opened BatchFraming
  import CommandBatch

  const EXECUTE_SIZE: nat := 56
  const TOKEN_SIZE: nat := 32

  type Token = seq<bv8>

  datatype Execute = Execute(token: Token, generation: u64, offset: u32, length: u32, sequence: u64)

  predicate IsZero(token: Token) {
    forall i :: 0 <= i < |token| ==> token[i] == 0
  }

  // Compares without stopping at the first difference.
  method TokenMatches(left: Token, right: Token) returns (same: bool)
    requires |left| == |right|
    ensures same <==> left == right
  {
    var difference: bv8 := 0;
    for index := 0 to |left|
      invariant difference == 0 <==> left[..index] == right[..index]
    {
      AccumulatesDifference(difference, left[index], right[index]);
      difference := difference | (left[index] ^ right[index]);
      assert left[..index + 1] == left[..index] + [left[index]];
      assert right[..index + 1] == right[..index] + [right[index]];
    }
    assert left[..|left|] == left && right[..|left|] == right;
    same := difference == 0;
  }

  lemma AccumulatesDifference(difference: bv8, l: bv8, r: bv8)
    ensures difference | (l ^ r) == 0 <==> difference == 0 && l == r
  {
  }

  method TokenIsNonzero(token: Token) returns (nonzero: bool)
    ensures nonzero <==> !IsZero(token)
  {
    var combined: bv8 := 0;
    for index := 0 to |token|
      invariant combined == 0 <==> forall i :: 0 <= i < index ==> token[i] == 0
    {
      AccumulatesBits(combined, token[index]);
      combined := combined | token[index];
    }
    nonzero := combined != 0;
  }

  lemma AccumulatesBits(combined: bv8, bits: bv8)
    ensures combined | bits == 0 <==> combined == 0 && bits == 0
  {
  }

  predicate IsDecodable(e: Execute) {
    && |e.token| == TOKEN_SIZE && !IsZero(e.token)
    && e.generation != 0 && HEADER_SIZE <= e.length <= MAX_BYTES && e.sequence != 0
  }

  ghost predicate Increasing(sequences: seq<u64>) {
    && (forall i :: 0 <= i < |sequences| ==> sequences[i] > 0)
    && (forall i, j :: 0 <= i < j < |sequences| ==> sequences[i] < sequences[j])
  }

  // A region as its owner set it up, and the last sequence executed from it.
  datatype Setup = Setup(token: Token, mapped: bool, length: nat, generation: u64, last: u64)

  // What an execute is refused for, in the order of the checks; zero when it is accepted.
  function ExecuteStatus(r: Setup, e: Execute, payloadLength: nat, memory: nat -> byte): int {
    if payloadLength != EXECUTE_SIZE then EINVAL
    else if !r.mapped then ENXIO
    else if !IsDecodable(e) then EPROTO
    else if e.token != r.token then EACCES
    else if e.generation != r.generation then ESTALE
    else if e.sequence <= r.last then EALREADY
    else if e.offset > r.length || e.length > r.length - e.offset then ERANGE
    else
      match Parse(Contents(memory, e.offset, e.length), CommandBatch.Checked())
      case Rejected(status) => status
      case Accepted(info, _) => if info.sequence == e.sequence then 0 else EPROTO
  }

  // An execute is accepted exactly when it is whole and names the region, its generation, a sequence
  // not executed yet and a stretch of the region that holds a valid batch of that sequence.
  lemma ExecuteSucceeds(r: Setup, e: Execute, payloadLength: nat, memory: nat -> byte)
    requires |r.token| == TOKEN_SIZE
    ensures ExecuteStatus(r, e, payloadLength, memory) == 0 <==>
      && payloadLength == EXECUTE_SIZE && r.mapped && IsDecodable(e)
      && e.token == r.token && e.generation == r.generation && r.last < e.sequence
      && e.offset + e.length <= r.length
      && var parsed := Parse(Contents(memory, e.offset, e.length), CommandBatch.Checked());
      parsed.Accepted? && parsed.info.sequence == e.sequence
  {
    RefusalIsAnError(Contents(memory, e.offset, e.length));
  }

  // The validator refuses with an error.
  lemma RefusalIsAnError(b: seq<byte>)
    ensures Parse(b, CommandBatch.Checked()).Rejected? ==> Parse(b, CommandBatch.Checked()).status != 0
  {
  }

  class Region {
    const token: Token
    const mapped: bool
    const length: nat
    const generation: u64
    var lastSequence: u64
    var executed: seq<u64>

    ghost predicate Valid()
      reads this
    {
      && |token| == TOKEN_SIZE
      && Increasing(executed)
      && lastSequence == if executed == [] then 0 else executed[|executed| - 1]
    }

    constructor (token: Token, mapped: bool, length: nat, generation: u64)
      requires |token| == TOKEN_SIZE
      ensures Valid() && executed == [] && Now() == Setup(token, mapped, length, generation, 0)
    {
      this.token := token;
      this.mapped := mapped;
      this.length := length;
      this.generation := generation;
      lastSequence := 0;
      executed := [];
    }

    ghost function Now(): Setup
      reads this
    {
      Setup(token, mapped, length, generation, lastSequence)
    }

    method Run(e: Execute, payloadLength: nat, memory: nat -> byte) returns (status: int, batch: seq<byte>)
      requires Valid() && |e.token| == TOKEN_SIZE
      modifies this
      ensures Valid()
      ensures status == ExecuteStatus(old(Now()), e, payloadLength, memory)
      ensures if status == 0 then
          && batch == Contents(memory, e.offset, e.length)
          && executed == old(executed) + [e.sequence] && lastSequence == e.sequence > old(lastSequence)
        else batch == [] && executed == old(executed) && lastSequence == old(lastSequence)
    {
      batch := [];
      if payloadLength != EXECUTE_SIZE {
        return EINVAL, batch;
      }
      if !mapped {
        return ENXIO, batch;
      }
      var nonzero := TokenIsNonzero(e.token);
      if !nonzero || e.generation == 0 || e.length < HEADER_SIZE || e.length > MAX_BYTES || e.sequence == 0 {
        return EPROTO, batch;
      }
      var matches := TokenMatches(token, e.token);
      if !matches {
        return EACCES, batch;
      }
      if e.generation != generation {
        return ESTALE, batch;
      }
      if e.sequence <= lastSequence {
        return EALREADY, batch;
      }
      if e.offset > length || e.length > length - e.offset {
        return ERANGE, batch;
      }
      var candidate := Contents(memory, e.offset, e.length);  // no copy is made
      var info;
      status, info := Validate(candidate, CommandBatch.Checked());
      if status != 0 {
        return;
      }
      if info.sequence != e.sequence {
        return EPROTO, batch;
      }
      lastSequence := e.sequence;
      executed := executed + [e.sequence];
      batch := candidate;
    }
  }

  // Whatever requests arrive and whatever the region holds, accepted sequences strictly increase.
  method RunAll(token: Token, mapped: bool, length: nat, generation: u64, requests: seq<(Execute, nat -> byte)>)
    returns (executed: seq<u64>)
    requires |token| == TOKEN_SIZE && forall i :: 0 <= i < |requests| ==> |requests[i].0.token| == TOKEN_SIZE
    ensures Increasing(executed)
    ensures forall i :: 0 <= i < |executed| ==> exists k :: 0 <= k < |requests| && requests[k].0.sequence == executed[i]
  {
    var region := new Region(token, mapped, length, generation);
    for i := 0 to |requests|
      invariant fresh(region) && region.Valid()
      invariant forall j :: 0 <= j < |region.executed| ==> exists k :: 0 <= k < i && requests[k].0.sequence == region.executed[j]
    {
      var status, batch := region.Run(requests[i].0, EXECUTE_SIZE, requests[i].1);
    }
    executed := region.executed;
  }
}
