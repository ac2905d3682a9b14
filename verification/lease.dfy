/**
 * Descriptor leases.
 *
 * The service answers a descriptor-set allocation by asking the native
 * allocator for several repetitions of the request at once.  The first
 * repetition goes back to the client; the surplus is published in a bank from
 * which the client later claims sets without a round trip.  A plan remembers,
 * per pool and layout signature, how many repetitions to ask for.
 *
 * The ledger is ghost: it says where every set obtained from the native
 * allocator currently is, and is what the safety results speak about.
 */
module DescriptorLeases {
  import opened Wrappers
  import opened Arithmetic
  import opened Errno

  const BANK_COUNT := 64
  const BANK_CAPACITY := 64
  const MAX_CLAIM := 16
  const MAX_SETS_PER_ALLOCATE := 16

  const VK_SUCCESS := 0
  const VK_ERROR_FRAGMENTED_POOL := -12
  const VK_ERROR_OUT_OF_POOL_MEMORY := -1000069000

  type Id = nat

  datatype Record = Record(layoutId: Id, setId: Id)

  // `count` of the shared layout is |records|.
  datatype Bank = Bank(poolId: Id, epoch: nat, cursor: nat, ready: bool, records: seq<Record>)

  datatype Plan = Plan(poolId: Id, epoch: nat, signature: seq<Id>, repetitions: nat,
                       observed: nat, published: bool, disabled: bool)

  const NO_BANK := Bank(0, 0, 0, false, [])
  const NO_PLAN := Plan(0, 0, [], 0, 0, false, false)

  // The owners of sets once a pool has got these as well.
  function Owned(owners: map<Id, Id>, pool: Id, ids: seq<Id>): map<Id, Id> {
    map id | id in owners.Keys + SetOf(ids) :: if id in owners then owners[id] else pool
  }

  // What the native allocator answers: a transport error, or a Vulkan result with sets.
  datatype Outcome = Failed(status: int) | Answered(vkResult: int, ids: seq<Id>)

  function IdsOf(o: Outcome): seq<Id> {
    if o.Answered? then o.ids else []
  }

  predicate Succeeded(o: Outcome) {
    o.Answered? && o.vkResult == VK_SUCCESS
  }

  predicate OutOfRoom(o: Outcome) {
    o.Answered? && (o.vkResult == VK_ERROR_OUT_OF_POOL_MEMORY || o.vkResult == VK_ERROR_FRAGMENTED_POOL)
  }

  // One native allocation: how many sets it asked for and what came back.
  datatype Call = Call(size: nat, answer: Outcome)

  function SetOf<T>(s: seq<T>): set<T> {
    set x | x in s
  }

  predicate Distinct<T(==)>(s: seq<T>) {
    forall i, j :: 0 <= i < j < |s| ==> s[i] != s[j]
  }

  // vkAllocateDescriptorSets: all the sets asked for, fresh and distinct, or none.
  predicate Permitted(issued: set<Id>, want: nat, o: Outcome) {
    match o
    case Failed(status) => status < 0
    case Answered(r, ids) =>
      if r == VK_SUCCESS then
        && |ids| == want
        && Distinct(ids)
        && forall i :: 0 <= i < |ids| ==> ids[i] != 0 && ids[i] !in issued
      else ids == []
  }

  // ---------------------------------------------------------------- ledger

  datatype Place = Returned | Claimed | Waiting(bank: nat, index: nat) | Stranded

  datatype Ledger = Ledger(
    issued: set<Id>,          // every set the native allocator ever handed out
    obtained: map<Id, Id>,    // set -> pool, for pools not reset or destroyed since
    places: map<Id, Place>,
    delivered: seq<Id>)       // everything the client received, in order

  const EMPTY_LEDGER := Ledger({}, map[], map[], [])

  predicate IsWaiting(banks: seq<Bank>, b: int, k: int) {
    0 <= b < |banks| && banks[b].ready && banks[b].cursor <= k < |banks[b].records|
  }

  ghost predicate LedgerOk(banks: seq<Bank>, l: Ledger) {
    match l
    case Ledger(issued, obtained, places, delivered) =>
      && Distinct(delivered)
      && SetOf(delivered) <= issued
      && obtained.Keys == places.Keys <= issued
      && (forall id :: id in places ==> ((places[id].Returned? || places[id].Claimed?) <==> id in delivered))
      && (forall b, k :: IsWaiting(banks, b, k) ==>
            var id := banks[b].records[k].setId;
            id in places && places[id] == Waiting(b, k) && obtained[id] == banks[b].poolId)
      && (forall id :: id in places && places[id].Waiting? ==>
            IsWaiting(banks, places[id].bank, places[id].index)
            && banks[places[id].bank].records[places[id].index].setId == id)
  }

  // The ledger after the native allocator handed out `returned + surplus`:
  // the surplus waits in bank `bank`, or is stranded when there is none.
  ghost function Grow(l: Ledger, pool: Id, returned: seq<Id>, surplus: seq<Id>, bank: Option<nat>): Ledger {
    Ledger(
      l.issued + SetOf(returned) + SetOf(surplus),
      map id | id in l.obtained.Keys + SetOf(returned) + SetOf(surplus) ::
        if id in l.obtained then l.obtained[id] else pool,
      map id | id in l.places.Keys + SetOf(returned) + SetOf(surplus) ::
        if id in l.places then l.places[id]
        else if id in surplus && bank.Some? then Waiting(bank.value, IndexOf(surplus, id))
        else if id in surplus then Stranded
        else Returned,
      l.delivered + returned)
  }

  ghost function IndexOf<T(!new)>(s: seq<T>, x: T): (i: nat)
    requires x in s
    ensures i < |s| && s[i] == x
  {
    var i :| 0 <= i < |s| && s[i] == x;
    i
  }

  ghost function Forget(l: Ledger, pool: Id): Ledger {
    l.(obtained := map id | id in l.obtained && l.obtained[id] != pool :: l.obtained[id],
       places := map id | id in l.obtained && id in l.places && l.obtained[id] != pool :: l.places[id])
  }

  ghost function Take(l: Ledger, ids: seq<Id>): Ledger {
    l.(places := map id | id in l.places :: if id in ids then Claimed else l.places[id],
       delivered := l.delivered + ids)
  }

  // The sets waiting in a bank can no longer be claimed.
  ghost function Strand(l: Ledger, b: nat): Ledger {
    l.(places := map id | id in l.places :: if l.places[id].Waiting? && l.places[id].bank == b then Stranded else l.places[id])
  }

  predicate WaitsIn(l: Ledger, id: Id) {
    id in l.places && l.places[id].Waiting?
  }

  // Between two ledgers the client claimed these sets, all of them waiting, and nothing else happened.
  ghost predicate TookWaiting(before: Ledger, after: Ledger, claimed: seq<Record>) {
    after == Take(before, SetIds(claimed)) && forall i :: 0 <= i < |claimed| ==> WaitsIn(before, claimed[i].setId)
  }

  // ---------------------------------------------------------------- layouts

  // Sets waiting to be claimed are labelled with the layout the native allocator made them for.
  ghost predicate Labelled(banks: seq<Bank>, layoutOf: map<Id, Id>) {
    forall b, k :: IsWaiting(banks, b, k) ==>
      var r := banks[b].records[k]; r.setId in layoutOf && layoutOf[r.setId] == r.layoutId
  }

  // Each set was made for the layout it is delivered as.
  ghost predicate MadeFor(received: seq<Record>, layoutOf: map<Id, Id>) {
    forall i :: 0 <= i < |received| ==>
      received[i].setId in layoutOf && layoutOf[received[i].setId] == received[i].layoutId
  }

  ghost predicate Extends(before: map<Id, Id>, after: map<Id, Id>) {
    forall id :: id in before ==> id in after && after[id] == before[id]
  }

  function Paired(layouts: seq<Id>, ids: seq<Id>): (r: seq<Record>)
    requires |ids| <= |layouts|
    ensures SetIds(r) == ids && forall i :: 0 <= i < |r| ==> r[i].layoutId == layouts[i]
  {
    seq(|ids|, i requires 0 <= i < |ids| => Record(layouts[i], ids[i]))
  }

  // ---------------------------------------------------------------- plans and banks

  function MaxRepetitions(n: nat): nat
    requires n > 0
  {
    MAX_SETS_PER_ALLOCATE / n
  }

  // The signature over and over, `count` layouts in all.
  function Repeated(signature: seq<Id>, count: nat): (r: seq<Id>)
    ensures signature != [] ==> |r| == count
    decreases count
  {
    if signature == [] then []
    else if count <= |signature| then signature[..count]
    else signature + Repeated(signature, count - |signature|)
  }

  function LayoutsOf(records: seq<Record>): (r: seq<Id>)
    ensures |r| == |records| && forall i :: 0 <= i < |r| ==> r[i] == records[i].layoutId
  {
    seq(|records|, i requires 0 <= i < |records| => records[i].layoutId)
  }

  predicate PlanOk(p: Plan) {
    if p.poolId == 0 then p == NO_PLAN
    else
      && 0 < |p.signature| <= MAX_SETS_PER_ALLOCATE
      && 2 <= p.repetitions
      && (p.repetitions == 2 || p.repetitions <= MaxRepetitions(|p.signature|))
      && p.epoch <= U64_MAX
  }

  // A plan is published exactly when its bank is ready, and then they agree on
  // pool, epoch and layouts.
  predicate Coupled(p: Plan, b: Bank) {
    && PlanOk(p)
    && (p.published <==> b.ready)
    && (b.ready ==>
          && p.poolId != 0 && b.poolId == p.poolId
          && b.epoch == p.epoch && b.epoch != 0
          && 0 < |b.records| <= BANK_CAPACITY && b.cursor <= |b.records|
          && LayoutsOf(b.records) == Repeated(p.signature, |b.records|)
          && forall k :: 0 <= k < |b.records| ==> b.records[k].setId != 0)
  }

  predicate AllCoupled(plans: seq<Plan>, banks: seq<Bank>) {
    |plans| == |banks| == BANK_COUNT && forall i :: 0 <= i < BANK_COUNT ==> Coupled(plans[i], banks[i])
  }

  predicate PlanMatches(p: Plan, pool: Id, layouts: seq<Id>) {
    p.poolId == pool && p.signature == layouts
  }

  predicate Serves(b: Bank, pool: Id, layouts: seq<Id>) {
    && b.ready && b.poolId == pool
    && b.cursor + |layouts| <= |b.records|
    && forall i :: 0 <= i < |layouts| ==>
         b.records[b.cursor + i].layoutId == layouts[i] && b.records[b.cursor + i].setId != 0
  }

  // The lowest bank that can serve the claim, or the number of banks.
  function FirstServing(banks: seq<Bank>, pool: Id, layouts: seq<Id>, start: nat := 0): (r: nat)
    requires start <= |banks|
    ensures start <= r <= |banks|
    ensures r < |banks| ==> Serves(banks[r], pool, layouts)
    ensures forall j :: start <= j < r ==> !Serves(banks[j], pool, layouts)
    decreases |banks| - start
  {
    if start == |banks| || Serves(banks[start], pool, layouts) then start
    else FirstServing(banks, pool, layouts, start + 1)
  }

  // The next n records to be claimed, and the bank without them.
  function NextSets(bank: Bank, n: nat): seq<Record>
    requires bank.cursor + n <= |bank.records|
  {
    bank.records[bank.cursor..bank.cursor + n]
  }

  function Moved(bank: Bank, n: nat): Bank {
    bank.(cursor := bank.cursor + n)
  }

  // A bank with nothing left to claim.
  predicate Drained(b: Bank) {
    !b.ready || b.cursor >= |b.records|
  }

  // What claims do to a bank; one with nothing to claim stays as it is.
  predicate OnlyCursorMoved(before: Bank, after: Bank) {
    after == before.(cursor := after.cursor) && before.cursor <= after.cursor && (Drained(before) ==> after == before)
  }

  function SetIds(records: seq<Record>): (ids: seq<Id>)
    ensures |ids| == |records| && forall i :: 0 <= i < |ids| ==> ids[i] == records[i].setId
  {
    seq(|records|, i requires 0 <= i < |records| => records[i].setId)
  }

  // The largest whole number of repetitions that one native call allows, at most `repetitions`.
  function BatchSetCount(n: nat, repetitions: nat): (r: nat)
    ensures 0 < n <= MAX_SETS_PER_ALLOCATE && 0 < repetitions ==> n <= r <= MAX_SETS_PER_ALLOCATE && r % n == 0
  {
    if 0 < n <= MAX_SETS_PER_ALLOCATE && 0 < repetitions then
      RepetitionsFit(n);
      MultipleHasNoRemainder(if repetitions > MaxRepetitions(n) then MaxRepetitions(n) else repetitions, n);
      (if repetitions > MaxRepetitions(n) then MaxRepetitions(n) else repetitions) * n
    else 0
  }

  lemma RepetitionsFit(n: nat)
    requires 0 < n <= MAX_SETS_PER_ALLOCATE
    ensures 1 <= MaxRepetitions(n) && MaxRepetitions(n) * n <= MAX_SETS_PER_ALLOCATE
    ensures forall r: nat :: 1 <= r <= MaxRepetitions(n) ==> n <= r * n <= MAX_SETS_PER_ALLOCATE
  {
    forall r: nat | 1 <= r <= MaxRepetitions(n)
      ensures n <= r * n <= MAX_SETS_PER_ALLOCATE
    {
      assert r * n <= MaxRepetitions(n) * n;
    }
  }

  // The next size to try when the pool cannot hold `current` sets: still whole
  // repetitions, and fewer of them.
  function SmallerBatch(current: nat, n: nat): (r: nat)
    ensures 0 < n < current ==> n <= r < current && r % n == 0
  {
    if current <= n || n == 0 then n
    else
      var half := (current / n) / 2;
      HalvingShrinks(current, n, half);
      if half > 1 then half * n else n
  }

  // Of k repetitions half are tried next, rounded down, and at least one.
  lemma SmallerBatchHalves(k: nat, n: nat)
    requires 1 < k && 0 < n
    ensures SmallerBatch(k * n, n) == (if k < 4 then 1 else k / 2) * n
  {
    MultipleHasNoRemainder(k, n);
    DivisionIsUnique(k * n, n, k, 0);
    assert k * n > n by { assert k * n >= 2 * n; }
  }

  lemma HalvingShrinks(current: nat, n: nat, half: nat)
    requires 0 < n < current && half == (current / n) / 2
    ensures half * n < current && (half * n) % n == 0 && (half > 1 ==> n <= half * n)
  {
    MultipleHasNoRemainder(half, n);
    assert current == n * (current / n) + current % n;
    assert half <= current / n - 1 || current / n == 0;
    if current / n > 0 {
      assert half * n <= (current / n - 1) * n;
    }
  }

  lemma {:induction false} RepeatedAt(signature: seq<Id>, count: nat, k: nat)
    requires signature != [] && k < count
    ensures Repeated(signature, count)[k] == signature[k % |signature|]
    decreases count
  {
    var n := |signature|;
    if k < n {
      DivisionIsUnique(k, n, 0, k);
    } else {
      RepeatedAt(signature, count - n, k - n);
      DivisionIsUnique(k, n, (k - n) / n + 1, (k - n) % n);
    }
  }

  lemma {:induction false} RepeatedHasNoZero(signature: seq<Id>, count: nat)
    requires 0 !in signature
    ensures 0 !in Repeated(signature, count)
    decreases count
  {
    if signature != [] && |signature| < count {
      RepeatedHasNoZero(signature, count - |signature|);
    }
  }

  lemma WholeRepetitions(total: nat, n: nat)
    requires 0 < n < total && total % n == 0
    ensures 2 * n <= total
  {
    assert total == n * (total / n);
    var q := total / n;
    assert q <= 1 ==> n * q <= n;
  }

  lemma RepetitionsInRange(total: nat, n: nat)
    requires 0 < n < total <= MAX_SETS_PER_ALLOCATE && total % n == 0
    ensures 2 <= total / n <= MaxRepetitions(n)
  {
    WholeRepetitions(total, n);
    var q := total / n;
    assert total == n * q;
    assert q <= 1 ==> n * q <= n;
    var m := MaxRepetitions(n);
    assert MAX_SETS_PER_ALLOCATE == n * m + MAX_SETS_PER_ALLOCATE % n;
    assert m < q ==> n * (m + 1) <= n * q;
  }

  // ---------------------------------------------------------------- the planner's specification

  // When the planner may ask for more than the request: reuse was observed
  // twice, or the client drained everything published.
  predicate Hot(p: Plan, b: Bank) {
    !p.disabled && (if p.published then Drained(b) else p.observed >= 2)
  }

  // The plan a request of this signature works with.
  function Started(p: Plan, pool: Id, layouts: seq<Id>): Plan {
    if p.poolId == 0 then Plan(pool, 0, layouts, 2, 0, false, false) else p
  }

  predicate MayBatch(p: Plan) {
    !p.disabled && BatchSetCount(|p.signature|, p.repetitions) > |p.signature|
  }

  predicate NoPlanFor(plans: seq<Plan>, pool: Id, layouts: seq<Id>) {
    forall i :: 0 <= i < |plans| ==> !PlanMatches(plans[i], pool, layouts)
  }

  // A request is not planned for when it is malformed, or has no plan and none can be started.
  predicate NoRoomFor(plans: seq<Plan>, pool: Id, layouts: seq<Id>) {
    || pool == 0 || layouts == [] || |layouts| > MAX_SETS_PER_ALLOCATE
    || (NoPlanFor(plans, pool, layouts) && forall i :: 0 <= i < |plans| ==> plans[i].poolId != 0)
  }

  // What one request does to plans and banks; claims made meanwhile may have moved cursors.
  ghost predicate Planned(pool: Id, layouts: seq<Id>, plans: seq<Plan>, banks: seq<Bank>, plans': seq<Plan>, banks': seq<Bank>,
    slot: nat, made: seq<Call>, published: bool)
  {
    && made != [] && |plans| == |banks| == |banks'|
    && (forall i :: 0 <= i < |banks| && i != slot ==> OnlyCursorMoved(banks[i], banks'[i]))
    && if slot >= |plans| then
         plans' == plans && NoRoomFor(plans, pool, layouts) && made[0].size == |layouts|
       else
         var p := Started(plans[slot], pool, layouts);
         var q := Prepared(p, banks[slot]);
         && PlanMatches(p, pool, layouts) && (plans[slot].poolId == 0 ==> NoPlanFor(plans, pool, layouts))
         && made[0].size == FirstSize(p, banks[slot])
         && plans' == plans[slot := if made[0].size <= |layouts| then q else Settled(q, made[|made| - 1], published)]
         && (published ==> banks'[slot] == Filled(q, banks[slot], made[|made| - 1], true))
  }

  // The part of this before the native calls.
  ghost predicate Chosen(pool: Id, layouts: seq<Id>, plans: seq<Plan>, banks: seq<Bank>, plans': seq<Plan>, banks': seq<Bank>,
    slot: nat, count: nat)
  {
    && |plans| == |banks| == |banks'|
    && (forall i :: 0 <= i < |banks| && i != slot ==> OnlyCursorMoved(banks[i], banks'[i]))
    && if slot >= |plans| then
         plans' == plans && NoRoomFor(plans, pool, layouts) && count == |layouts|
       else
         var p := Started(plans[slot], pool, layouts);
         && PlanMatches(p, pool, layouts) && (plans[slot].poolId == 0 ==> NoPlanFor(plans, pool, layouts))
         && count == FirstSize(p, banks[slot]) && plans' == plans[slot := Prepared(p, banks[slot])]
  }

  // Of the banks only that of the plan in use is filled, if its surplus is published.
  ghost predicate Refilled(before: seq<Bank>, after: seq<Bank>, index: nat, p: Plan, last: Call, published: bool) {
    && index < |before| == |after|
    && after[index] == Filled(p, before[index], last, published)
    && forall i :: 0 <= i < |before| && i != index ==> OnlyCursorMoved(before[i], after[i])
  }

  ghost predicate OnlyClaimed(before: seq<Bank>, after: seq<Bank>) {
    |before| == |after| && forall i :: 0 <= i < |before| ==> OnlyCursorMoved(before[i], after[i])
  }

  lemma ClaimedThenRefilled(a: seq<Bank>, b: seq<Bank>, c: seq<Bank>, index: nat, p: Plan, last: Call, published: bool)
    requires OnlyClaimed(a, b) && Refilled(b, c, index, p, last, published) && Drained(a[index])
    ensures Refilled(a, c, index, p, last, published)
  {
  }

  lemma ChosenExactly(pool: Id, layouts: seq<Id>, plans: seq<Plan>, banks: seq<Bank>, plans': seq<Plan>, banks': seq<Bank>,
    slot: nat, reply: Outcome)
    requires Chosen(pool, layouts, plans, banks, plans', banks', slot, |layouts|)
    ensures Planned(pool, layouts, plans, banks, plans', banks', slot, [Call(|layouts|, reply)], false)
  {
  }

  lemma ChosenThenSettled(pool: Id, layouts: seq<Id>, plans: seq<Plan>, banks: seq<Bank>, plans': seq<Plan>, banks': seq<Bank>,
    banks'': seq<Bank>, slot: nat, made: seq<Call>, published: bool)
    requires slot < |plans| && made != [] && made[0].size > |layouts|
    requires Chosen(pool, layouts, plans, banks, plans', banks', slot, made[0].size)
    requires Refilled(banks', banks'', slot, plans'[slot], made[|made| - 1], published)
    ensures Planned(pool, layouts, plans, banks, plans'[slot := Settled(plans'[slot], made[|made| - 1], published)], banks'', slot, made, published)
  {
  }

  // A drained bank doubles the repetitions, up to what one native call allows.
  function Grown(n: nat, repetitions: nat): nat
    requires n > 0
  {
    if repetitions >= MaxRepetitions(n) then repetitions
    else if 2 * repetitions > MaxRepetitions(n) then MaxRepetitions(n)
    else 2 * repetitions
  }

  function FirstSize(p: Plan, b: Bank): nat {
    var n := |p.signature|;
    if n == 0 || !MayBatch(p) || !Hot(p, b) then n
    else BatchSetCount(n, if p.published then Grown(n, p.repetitions) else p.repetitions)
  }

  // The plan when the native calls begin: a cold request is counted, a drained bank is taken back.
  function Prepared(p: Plan, b: Bank): Plan {
    if p.signature == [] || !MayBatch(p) then p
    else if Hot(p, b) && p.published then p.(published := false, repetitions := Grown(|p.signature|, p.repetitions))
    else if !p.published && p.observed < 2 then p.(observed := p.observed + 1)
    else p
  }

  // The plan after the last native call of a batch.
  function Settled(p: Plan, last: Call, published: bool): Plan {
    var n := |p.signature|;
    if last.size <= n then p.(disabled := true)
    else if Succeeded(last.answer) && n > 0 then Offered(p, last.size / n, published)
    else p
  }

  function Offered(p: Plan, repetitions: nat, published: bool): Plan {
    var q := p.(repetitions := repetitions, epoch := if p.epoch == U64_MAX then p.epoch else p.epoch + 1);
    if published then q.(published := true) else q.(disabled := true)
  }

  // The sets of a successful batch behind its first repetition.
  function SurplusOf(signature: seq<Id>, ids: seq<Id>): seq<Record> {
    if signature == [] || |ids| < |signature| then []
    else Paired(Repeated(signature, |ids|), ids)[|signature|..]
  }

  // The plan's bank after the last native call of a batch.
  function Filled(p: Plan, b: Bank, last: Call, published: bool): Bank {
    if published then Bank(p.poolId, p.epoch + 1, 0, true, SurplusOf(p.signature, IdsOf(last.answer))) else b
  }

  // From the third request on a plan asks for two repetitions.
  lemma ThirdRequestIsBatched(pool: Id, layouts: seq<Id>, b: Bank)
    requires pool != 0 && 0 < |layouts| <= MAX_SETS_PER_ALLOCATE / 2
    ensures var p := Started(NO_PLAN, pool, layouts);
      var q := Prepared(p, b);
      var r := Prepared(q, b);
      FirstSize(p, b) == FirstSize(q, b) == |layouts| && FirstSize(r, b) == 2 * |layouts| && Prepared(r, b) == r
  {
    var n := |layouts|;
    assert MaxRepetitions(n) >= 2 by { RepetitionsFit(n); DoubleFits(n); }
    assert BatchSetCount(n, 2) == 2 * n;
  }

  lemma DoubleFits(n: nat)
    requires 0 < n <= MAX_SETS_PER_ALLOCATE / 2
    ensures MaxRepetitions(n) >= 2
  {
    var m := MaxRepetitions(n);
    assert MAX_SETS_PER_ALLOCATE == n * m + MAX_SETS_PER_ALLOCATE % n;
    assert m <= 1 ==> n * m <= n;
  }

  // Once its bank is drained, a plan whose last batch had r repetitions asks for twice as many, as
  // far as one native call allows.
  lemma DrainedPlanDoubles(p: Plan, b: Bank)
    requires PlanOk(p) && p.poolId != 0 && p.published && !p.disabled && Drained(b)
    requires 2 <= MaxRepetitions(|p.signature|)
    ensures var n := |p.signature|;
      var most := MaxRepetitions(n);
      FirstSize(p, b) == (if 2 * p.repetitions <= most then 2 * p.repetitions else most) * n
  {
    var n := |p.signature|;
    RepetitionsFit(n);
    MoreThanOnce(p.repetitions, n);
  }

  lemma MoreThanOnce(r: nat, n: nat)
    requires 2 <= r && 0 < n
    ensures r * n > n
  {
    assert r * n >= 2 * n;
  }

  // ---------------------------------------------------------------- ledger lemmas

  ghost predicate FreshSets(issued: set<Id>, ids: seq<Id>) {
    Distinct(ids) && forall i :: 0 <= i < |ids| ==> ids[i] != 0 && ids[i] !in issued
  }

  lemma GrowKeepsLedger(banks: seq<Bank>, l: Ledger, pool: Id, returned: seq<Id>, surplus: seq<Id>)
    requires LedgerOk(banks, l) && FreshSets(l.issued, returned + surplus)
    ensures LedgerOk(banks, Grow(l, pool, returned, surplus, None))
  {
    SplitFresh(l.issued, returned, surplus);
  }

  lemma CutJoins(ids: seq<Id>, n: nat)
    requires n <= |ids|
    ensures ids[..n] + ids[n..] == ids
  {
  }

  lemma GrowOwns(l: Ledger, pool: Id, returned: seq<Id>, surplus: seq<Id>, bank: Option<nat>)
    ensures var r := Grow(l, pool, returned, surplus, bank);
      && r.obtained == Owned(l.obtained, pool, returned + surplus)
      && r.issued == l.issued + SetOf(returned + surplus)
  {
    assert SetOf(returned + surplus) == SetOf(returned) + SetOf(surplus);
  }

  lemma SplitFresh(issued: set<Id>, returned: seq<Id>, surplus: seq<Id>)
    requires FreshSets(issued, returned + surplus)
    ensures FreshSets(issued, returned) && FreshSets(issued, surplus)
    ensures SetOf(returned) !! SetOf(surplus)
  {
    var all := returned + surplus;
    assert forall i :: 0 <= i < |returned| ==> all[i] == returned[i];
    assert forall i :: 0 <= i < |surplus| ==> all[|returned| + i] == surplus[i];
  }

  lemma PublishKeepsLedger(banks: seq<Bank>, l: Ledger, b: nat, bank: Bank, returned: seq<Id>)
    requires LedgerOk(banks, l) && b < |banks| && Drained(banks[b])
    requires bank.ready && bank.cursor == 0
    requires FreshSets(l.issued, returned + SetIds(bank.records))
    ensures LedgerOk(banks[b := bank], Grow(l, bank.poolId, returned, SetIds(bank.records), Some(b)))
  {
    SplitFresh(l.issued, returned, SetIds(bank.records));
    var surplus := SetIds(bank.records);
    var l' := Grow(l, bank.poolId, returned, surplus, Some(b));
    var banks' := banks[b := bank];
    forall c, k | IsWaiting(banks', c, k)
      ensures var id := banks'[c].records[k].setId;
        id in l'.places && l'.places[id] == Waiting(c, k) && l'.obtained[id] == banks'[c].poolId
    {
      if c != b {
        assert IsWaiting(banks, c, k);
      } else {
        assert surplus[k] == bank.records[k].setId;
      }
    }
    forall id | id in l'.places && l'.places[id].Waiting?
      ensures IsWaiting(banks', l'.places[id].bank, l'.places[id].index)
      ensures banks'[l'.places[id].bank].records[l'.places[id].index].setId == id
    {
    }
  }

  lemma ClaimKeepsLedger(banks: seq<Bank>, l: Ledger, b: nat, n: nat)
    requires LedgerOk(banks, l) && b < |banks|
    requires banks[b].ready && banks[b].cursor + n <= |banks[b].records|
    ensures var bank := banks[b];
      var ids := SetIds(NextSets(bank, n));
      && LedgerOk(banks[b := Moved(bank, n)], Take(l, ids))
      && (forall i :: 0 <= i < n ==>
            && WaitsIn(l, ids[i])
            && l.places[ids[i]] == Waiting(b, bank.cursor + i)
            && l.obtained[ids[i]] == bank.poolId)
  {
    var bank := banks[b];
    var ids := SetIds(NextSets(bank, n));
    var banks' := banks[b := Moved(bank, n)];
    var l' := Take(l, ids);
    forall i | 0 <= i < n
      ensures ids[i] in l.places && l.places[ids[i]] == Waiting(b, bank.cursor + i)
      ensures l.obtained[ids[i]] == bank.poolId
    {
      assert IsWaiting(banks, b, bank.cursor + i);
    }
    assert Distinct(l'.delivered);
    forall c, k | IsWaiting(banks', c, k)
      ensures var id := banks'[c].records[k].setId;
        id in l'.places && l'.places[id] == Waiting(c, k) && l'.obtained[id] == banks'[c].poolId
    {
      assert IsWaiting(banks, c, k);
    }
    assert forall k :: bank.cursor <= k < bank.cursor + n ==> bank.records[k].setId == ids[k - bank.cursor];
    forall id | id in l'.places && l'.places[id].Waiting?
      ensures IsWaiting(banks', l'.places[id].bank, l'.places[id].index)
      ensures banks'[l'.places[id].bank].records[l'.places[id].index].setId == id
    {
    }
  }

  // Disabling every ready bank of a pool, and forgetting the pool's sets.
  lemma ForgetKeepsLedger(banks: seq<Bank>, banks': seq<Bank>, l: Ledger, pool: Id)
    requires LedgerOk(banks, l) && |banks'| == |banks|
    requires forall i :: 0 <= i < |banks| ==>
      if banks[i].ready && banks[i].poolId == pool then !banks'[i].ready
      else banks'[i] == banks[i] || (!banks[i].ready && !banks'[i].ready)
    ensures LedgerOk(banks', Forget(l, pool))
    ensures forall id :: id in Forget(l, pool).obtained ==> Forget(l, pool).obtained[id] != pool
  {
    forall c, k | IsWaiting(banks', c, k)
      ensures IsWaiting(banks, c, k) && banks'[c] == banks[c] && banks[c].poolId != pool
    {
    }
  }

  lemma DisableDrainedKeepsLedger(banks: seq<Bank>, l: Ledger, b: nat)
    requires LedgerOk(banks, l) && b < |banks| && Drained(banks[b])
    ensures LedgerOk(banks[b := NO_BANK], l)
  {
    var banks' := banks[b := NO_BANK];
    forall c, k | IsWaiting(banks', c, k)
      ensures IsWaiting(banks, c, k) && banks'[c] == banks[c]
    {
    }
  }

  lemma StrandKeepsLedger(banks: seq<Bank>, l: Ledger, b: nat)
    requires LedgerOk(banks, l) && b < |banks|
    ensures LedgerOk(banks[b := NO_BANK], Strand(l, b))
  {
    var banks' := banks[b := NO_BANK];
    forall c, k | IsWaiting(banks', c, k)
      ensures IsWaiting(banks, c, k) && banks'[c] == banks[c] && c != b
    {
    }
  }

  // Sets stranded in a bank of the pool are among those forgotten with it.
  lemma ForgetAfterStrand(banks: seq<Bank>, l: Ledger, b: nat, pool: Id)
    requires LedgerOk(banks, l) && b < |banks| && (banks[b].ready ==> banks[b].poolId == pool)
    ensures Forget(Strand(l, b), pool) == Forget(l, pool)
  {
    forall id | id in l.places && l.places[id].Waiting? && l.places[id].bank == b
      ensures l.obtained[id] == pool
    {
      assert IsWaiting(banks, b, l.places[id].index);
    }
    assert Forget(Strand(l, b), pool).places == Forget(l, pool).places;
  }

  lemma ForgetAfterTake(a: Ledger, b: Ledger, pool: Id, ids: seq<Id>)
    requires Forget(a, pool) == Forget(b, pool)
    ensures Forget(Take(a, ids), pool) == Forget(Take(b, ids), pool)
  {
    var fa, fb := Forget(a, pool), Forget(b, pool);
    assert Forget(Take(a, ids), pool).obtained == fa.obtained == fb.obtained == Forget(Take(b, ids), pool).obtained;
    assert fa.places.Keys == fb.places.Keys;
    assert Forget(Take(a, ids), pool).places == map id | id in fa.places :: if id in ids then Claimed else fa.places[id];
    assert Forget(Take(b, ids), pool).places == map id | id in fb.places :: if id in ids then Claimed else fb.places[id];
  }

  lemma SetIdsOfBoth(x: seq<Record>, y: seq<Record>)
    ensures SetIds(x + y) == SetIds(x) + SetIds(y)
  {
  }

  lemma TookNone(l: Ledger)
    ensures TookWaiting(l, l, [])
  {
    assert SetIds([]) == [];
    TakeNothing(l);
  }

  lemma TookBoth(a: Ledger, b: Ledger, c: Ledger, x: seq<Record>, y: seq<Record>)
    requires TookWaiting(a, b, x) && TookWaiting(b, c, y)
    ensures TookWaiting(a, c, x + y)
  {
    SetIdsOfBoth(x, y);
    assert a.delivered + SetIds(x) + SetIds(y) == a.delivered + SetIds(x + y);
    assert c.places == Take(a, SetIds(x + y)).places;
    forall i | 0 <= i < |y| ensures WaitsIn(a, y[i].setId) {
      assert WaitsIn(b, y[i].setId);
    }
    assert forall i :: 0 <= i < |x + y| ==> WaitsIn(a, (x + y)[i].setId);
  }

  lemma LabelsStay(banks: seq<Bank>, before: map<Id, Id>, after: map<Id, Id>)
    requires Labelled(banks, before) && Extends(before, after)
    ensures Labelled(banks, after)
  {
  }

  // ---------------------------------------------------------------- the service

  predicate WholeRepetition(size: nat, n: nat) {
    n > 0 && n <= size && size % n == 0
  }

  // Sizes asked of the native allocator while serving one request of n sets.
  ghost predicate ShrinkingSizes(sizes: seq<nat>, n: nat) {
    && sizes != []
    && (forall i :: 0 <= i < |sizes| ==> WholeRepetition(sizes[i], n))
    && (forall i :: 0 <= i < |sizes| - 1 ==> sizes[i + 1] == SmallerBatch(sizes[i], n))
    && (forall i, j :: 0 <= i < j < |sizes| ==> sizes[j] < sizes[i])
  }

  lemma ShrinkOnce(sizes: seq<nat>, n: nat)
    requires ShrinkingSizes(sizes, n) && n < sizes[|sizes| - 1]
    ensures ShrinkingSizes(sizes + [SmallerBatch(sizes[|sizes| - 1], n)], n)
  {
    var longer := sizes + [SmallerBatch(sizes[|sizes| - 1], n)];
    forall i, j | 0 <= i < j < |longer|
      ensures longer[j] < longer[i]
    {
      assert i < |sizes| && longer[i] == sizes[i] && sizes[i] >= sizes[|sizes| - 1];
    }
  }

  // What a request of n sets is answered when its last native call got `answer`: the first n sets
  // of a success, any other answer unchanged.
  ghost predicate Settles(n: nat, answer: Outcome, reply: Outcome, surplus: seq<Id>) {
    if Succeeded(answer) then
      n <= |answer.ids| && reply == Answered(VK_SUCCESS, answer.ids[..n]) && surplus == answer.ids[n..]
    else reply == answer && surplus == []
  }

  // The native calls behind one request: whole multiples of it, each half of the one before, each after the first
  // because the one before found no room, and the last one answers; having no room is an answer
  // only when the request itself got it.
  ghost predicate Attempts(calls: seq<Call>, n: nat, reply: Outcome, surplus: seq<Id>) {
    && calls != []
    && ShrinkingSizes(Sizes(calls), n)
    && (forall i :: 0 <= i < |calls| - 1 ==> OutOfRoom(calls[i].answer))
    && Settles(n, calls[|calls| - 1].answer, reply, surplus)
    && (OutOfRoom(reply) ==> calls[|calls| - 1].size == n)
    && Complete(calls[|calls| - 1])
  }

  // A success brings as many sets as were asked for, none of them zero.
  ghost predicate Complete(c: Call) {
    Succeeded(c.answer) ==> |c.answer.ids| == c.size && 0 !in c.answer.ids
  }

  function Sizes(calls: seq<Call>): (sizes: seq<nat>)
    ensures |sizes| == |calls| && forall i :: 0 <= i < |calls| ==> sizes[i] == calls[i].size
  {
    seq(|calls|, i requires 0 <= i < |calls| => calls[i].size)
  }

  // The reply carries exactly the sets of the request, made for its layouts, or none; reply and
  // surplus together are fresh sets.
  ghost predicate AnswersOneRequest(issued: set<Id>, layouts: seq<Id>, layoutOf: map<Id, Id>, reply: Outcome, surplus: seq<Id>) {
    match reply
    case Failed(_) => surplus == []
    case Answered(r, ids) =>
      if r == VK_SUCCESS then
        |ids| == |layouts| && FreshSets(issued, ids + surplus) && MadeFor(Paired(layouts, ids), layoutOf)
      else ids == [] && surplus == []
  }

  // The calls so far found no room; the next asks for `count`.
  ghost predicate Unsettled(calls: seq<Call>, first: nat, count: nat, n: nat) {
    && ShrinkingSizes(Sizes(calls) + [count], n) && (Sizes(calls) + [count])[0] == first
    && forall i :: 0 <= i < |calls| ==> OutOfRoom(calls[i].answer)
  }

  lemma SizesSnoc(calls: seq<Call>, c: Call)
    ensures Sizes(calls + [c]) == Sizes(calls) + [c.size]
  {
  }

  lemma StillUnsettled(calls: seq<Call>, first: nat, count: nat, n: nat, answer: Outcome)
    requires Unsettled(calls, first, count, n) && OutOfRoom(answer) && 0 < n < count
    ensures Unsettled(calls + [Call(count, answer)], first, SmallerBatch(count, n), n)
  {
    SizesSnoc(calls, Call(count, answer));
    ShrinkOnce(Sizes(calls) + [count], n);
  }

  lemma NowSettled(calls: seq<Call>, first: nat, count: nat, n: nat, answer: Outcome, reply: Outcome, surplus: seq<Id>)
    requires Unsettled(calls, first, count, n) && Settles(n, answer, reply, surplus) && (OutOfRoom(reply) ==> count == n)
    requires Complete(Call(count, answer))
    ensures var made := calls + [Call(count, answer)]; Attempts(made, n, reply, surplus) && made[0].size == first
  {
    SizesSnoc(calls, Call(count, answer));
    var made := calls + [Call(count, answer)];
    assert made[0].size == Sizes(made)[0];
  }

  // After claiming some sets that were waiting, the sets a native call returned are entered.
  ghost predicate GrewAfterClaims(before: Ledger, after: Ledger, claimed: seq<Record>, pool: Id, returned: seq<Id>, surplus: seq<Id>, bank: Option<nat>) {
    && after == Grow(Take(before, SetIds(claimed)), pool, returned, surplus, bank)
    && forall i :: 0 <= i < |claimed| ==> WaitsIn(before, claimed[i].setId)
  }

  lemma GrewLater(a: Ledger, b: Ledger, c: Ledger, x: seq<Record>, y: seq<Record>, pool: Id, returned: seq<Id>, surplus: seq<Id>, bank: Option<nat>)
    requires TookWaiting(a, b, x) && GrewAfterClaims(b, c, y, pool, returned, surplus, bank)
    ensures GrewAfterClaims(a, c, x + y, pool, returned, surplus, bank)
  {
    TookBoth(a, b, Take(b, SetIds(y)), x, y);
  }

  lemma BothMadeFor(x: seq<Record>, y: seq<Record>, before: map<Id, Id>, after: map<Id, Id>)
    requires MadeFor(x, before) && Extends(before, after) && MadeFor(y, after)
    ensures MadeFor(x + y, after)
  {
  }

  lemma PairedIsServed(bank: Bank, pool: Id, layouts: seq<Id>, ids: seq<Id>)
    requires Serves(bank, pool, layouts) && ids == SetIds(NextSets(bank, |layouts|))
    ensures Paired(layouts, ids) == NextSets(bank, |layouts|)
  {
    forall i | 0 <= i < |ids| ensures Paired(layouts, ids)[i] == bank.records[bank.cursor + i] {
    }
  }

  lemma AdvanceKeepsCoupling(plans: seq<Plan>, banks: seq<Bank>, b: nat, n: nat)
    requires AllCoupled(plans, banks) && b < |banks| && banks[b].cursor + n <= |banks[b].records|
    ensures AllCoupled(plans, banks[b := Moved(banks[b], n)])
  {
    assert Coupled(plans[b], banks[b]);
  }

  lemma AdvanceKeepsLabels(banks: seq<Bank>, layoutOf: map<Id, Id>, b: nat, n: nat)
    requires Labelled(banks, layoutOf) && b < |banks| && banks[b].ready && banks[b].cursor + n <= |banks[b].records|
    ensures Labelled(banks[b := Moved(banks[b], n)], layoutOf)
    ensures MadeFor(NextSets(banks[b], n), layoutOf)
  {
    var bank := banks[b];
    var banks' := banks[b := Moved(bank, n)];
    assert forall c, k :: IsWaiting(banks', c, k) ==> IsWaiting(banks, c, k);
    var part := NextSets(bank, n);
    forall i | 0 <= i < |part| ensures part[i].setId in layoutOf && layoutOf[part[i].setId] == part[i].layoutId {
      assert IsWaiting(banks, b, bank.cursor + i);
    }
  }

  lemma FirstRepetition(layouts: seq<Id>, batch: seq<Id>, ids: seq<Id>, layoutOf: map<Id, Id>)
    requires 0 < |layouts| <= |ids| == |batch| && batch == Repeated(layouts, |batch|) && MadeFor(Paired(batch, ids), layoutOf)
    ensures MadeFor(Paired(layouts, ids[..|layouts|]), layoutOf)
  {
    forall i | 0 <= i < |layouts| ensures Paired(layouts, ids[..|layouts|])[i] == Paired(batch, ids)[i] {
      RepeatedAt(layouts, |batch|, i);
      DivisionIsUnique(i, |layouts|, 0, i);
    }
  }

  lemma FirstPartAnswers(issued: set<Id>, layouts: seq<Id>, ids: seq<Id>, layoutOf: map<Id, Id>)
    requires |layouts| <= |ids| && MadeFor(Paired(layouts, ids[..|layouts|]), layoutOf) && FreshSets(issued, ids)
    ensures AnswersOneRequest(issued, layouts, layoutOf, Answered(VK_SUCCESS, ids[..|layouts|]), ids[|layouts|..])
  {
    var returned, surplus := ids[..|layouts|], ids[|layouts|..];
    CutJoins(ids, |layouts|);
    assert FreshSets(issued, returned + surplus);
  }

  lemma LeasesRepeat(layouts: seq<Id>, batch: seq<Id>, ids: seq<Id>)
    requires 0 < |layouts| && 2 * |layouts| <= |ids| == |batch| && batch == Repeated(layouts, |batch|)
    ensures var leases := Paired(batch, ids)[|layouts|..];
      && SetIds(leases) == ids[|layouts|..]
      && LayoutsOf(leases) == Repeated(layouts, |leases|)
      && ((forall k :: 0 <= k < |leases| ==> leases[k].layoutId != 0) <==> 0 !in layouts)
  {
    var leases := Paired(batch, ids)[|layouts|..];
    assert LayoutsOf(leases) == batch[|layouts|..] == Repeated(layouts, |leases|);
    LayoutsNonzero(layouts, leases);
  }

  lemma PublishKeepsLabels(banks: seq<Bank>, layoutOf: map<Id, Id>, b: nat, bank: Bank)
    requires Labelled(banks, layoutOf) && b < |banks| && MadeFor(bank.records, layoutOf)
    ensures Labelled(banks[b := bank], layoutOf)
  {
    var banks' := banks[b := bank];
    assert forall c, k :: IsWaiting(banks', c, k) && c != b ==> IsWaiting(banks, c, k);
  }

  lemma DisableKeepsLabels(banks: seq<Bank>, layoutOf: map<Id, Id>, b: nat)
    requires Labelled(banks, layoutOf) && b < |banks|
    ensures Labelled(banks[b := NO_BANK], layoutOf)
  {
    var banks' := banks[b := NO_BANK];
    forall c, k | IsWaiting(banks', c, k)
      ensures IsWaiting(banks, c, k) && banks'[c] == banks[c]
    {
    }
  }

  // The service at one moment.
  datatype View = View(ledger: Ledger, issued: set<Id>, layoutOf: map<Id, Id>, plans: seq<Plan>, banks: seq<Bank>)

  // Native calls found no room: the client claimed some waiting sets and nothing else changed.
  ghost predicate Passed(a: View, b: View, claimed: seq<Record>) {
    match b
    case View(ledger, issued, layoutOf, plans, banks) =>
      && issued == a.issued && plans == a.plans && OnlyClaimed(a.banks, banks)
      && TookWaiting(a.ledger, ledger, claimed)
      && Extends(a.layoutOf, layoutOf) && MadeFor(claimed, layoutOf)
  }

  // The request of plan `index` was answered by this native call.
  ghost predicate ServedBy(a: View, b: View, index: nat, layouts: seq<Id>, last: Call, reply: Outcome, claimed: seq<Record>,
    surplus: seq<Id>, bank: Option<nat>)
  {
    match b
    case View(ledger, issued, layoutOf, plans, banks) =>
      && index < |a.plans|
      && AnswersOneRequest(a.issued, layouts, layoutOf, reply, surplus) && Settles(|layouts|, last.answer, reply, surplus)
      && GrewAfterClaims(a.ledger, ledger, claimed, a.plans[index].poolId, IdsOf(reply), surplus, bank)
      && Extends(a.layoutOf, layoutOf) && MadeFor(claimed, layoutOf)
      && (surplus != [] ==> bank == if a.plans[index].epoch < U64_MAX && 0 !in layouts then Some(index) else None)
      && plans == a.plans[index := Settled(a.plans[index], last, bank.Some?)]
      && Refilled(a.banks, banks, index, a.plans[index], last, bank.Some?)
  }

  lemma PassedNone(a: View)
    ensures Passed(a, a, [])
  {
    TookNone(a.ledger);
  }

  lemma PassedBoth(a: View, b: View, c: View, x: seq<Record>, y: seq<Record>)
    requires Passed(a, b, x) && Passed(b, c, y)
    ensures Passed(a, c, x + y)
  {
    TookBoth(a.ledger, b.ledger, c.ledger, x, y);
    BothMadeFor(x, y, b.layoutOf, c.layoutOf);
  }

  lemma ServedLater(a: View, b: View, c: View, index: nat, layouts: seq<Id>, last: Call, reply: Outcome, x: seq<Record>,
    y: seq<Record>, surplus: seq<Id>, bank: Option<nat>)
    requires Passed(a, b, x) && ServedBy(b, c, index, layouts, last, reply, y, surplus, bank)
    requires index < |a.banks| && Drained(a.banks[index])
    ensures ServedBy(a, c, index, layouts, last, reply, x + y, surplus, bank)
  {
    GrewLater(a.ledger, b.ledger, c.ledger, x, y, a.plans[index].poolId, IdsOf(reply), surplus, bank);
    BothMadeFor(x, y, b.layoutOf, c.layoutOf);
    ClaimedThenRefilled(a.banks, b.banks, c.banks, index, a.plans[index], last, bank.Some?);
  }

  // A native answer entered after some claims serves the request, unless it found no room.
  lemma EnteredServes(a: View, b: View, c: View, index: nat, layouts: seq<Id>, last: Call, reply: Outcome, claimed: seq<Record>,
    surplus: seq<Id>, bank: Option<nat>)
    requires index < |a.plans| == |a.banks| == |b.banks| && Drained(a.banks[index]) && b.plans == a.plans
    requires OnlyClaimed(a.banks, b.banks) && TookWaiting(a.ledger, b.ledger, claimed)
    requires Extends(a.layoutOf, b.layoutOf) && MadeFor(claimed, b.layoutOf) && c.layoutOf == b.layoutOf
    requires AnswersOneRequest(a.issued, layouts, c.layoutOf, reply, surplus) && Settles(|layouts|, last.answer, reply, surplus)
    requires c.ledger == Grow(b.ledger, a.plans[index].poolId, IdsOf(reply), surplus, bank)
    requires surplus != [] ==> bank == if a.plans[index].epoch < U64_MAX && 0 !in layouts then Some(index) else None
    requires c.plans == a.plans[index := Settled(a.plans[index], last, bank.Some?)]
    requires c.banks == b.banks[index := Filled(a.plans[index], b.banks[index], last, bank.Some?)]
    ensures ServedBy(a, c, index, layouts, last, reply, claimed, surplus, bank)
  {
  }

  class LeaseService {
    const banks: array<Bank>
    const plans: array<Plan>
    // The native context behind the service.
    var issued: set<Id>     // every set it ever handed out
    var live: map<Id, Id>   // set -> pool, for pools not reset or destroyed since
    var calls: seq<Call>    // all its allocations, in order
    ghost var layoutOf: map<Id, Id>  // the layout each set was made for

    ghost var ledger: Ledger

    // What holds at every step, also while a native call is not yet entered in the ledger.
    ghost predicate Books()
      reads this, banks, plans
    {
      && AllCoupled(plans[..], banks[..])
      && LedgerOk(banks[..], ledger)
      && Labelled(banks[..], layoutOf)
      && ledger.issued <= issued == layoutOf.Keys
    }

    ghost function Now(): View
      reads this, banks, plans
    {
      View(ledger, issued, layoutOf, plans[..], banks[..])
    }

    ghost predicate Valid()
      reads this, banks, plans
    {
      Books() && ledger.issued == issued && ledger.obtained == live
    }

    constructor ()
      ensures Valid() && fresh(banks) && fresh(plans)
      ensures ledger == EMPTY_LEDGER && calls == []
      ensures forall i :: 0 <= i < BANK_COUNT ==> banks[i] == NO_BANK && plans[i] == NO_PLAN
    {
      banks := new Bank[BANK_COUNT](_ => NO_BANK);
      plans := new Plan[BANK_COUNT](_ => NO_PLAN);
      issued, live, calls, layoutOf, ledger := {}, map[], [], map[], EMPTY_LEDGER;
    }

    // The native allocator: any answer it is permitted to give.
    method NativeAllocate(pool: Id, layouts: seq<Id>) returns (o: Outcome)
      requires layoutOf.Keys == issued
      modifies this`issued, this`live, this`calls, this`layoutOf
      ensures Permitted(old(issued), |layouts|, o)
      ensures issued == old(issued) + SetOf(IdsOf(o)) == layoutOf.Keys
      ensures live == Owned(old(live), pool, IdsOf(o))
      ensures calls == old(calls) + [Call(|layouts|, o)]
      ensures Extends(old(layoutOf), layoutOf) && |IdsOf(o)| <= |layouts| && MadeFor(Paired(layouts, IdsOf(o)), layoutOf)
    {
      o := *;
      if !Permitted(issued, |layouts|, o) { o := Failed(EIO); }
      var ids := SetOf(IdsOf(o));
      layoutOf := map id | id in issued + ids :: if id in issued then layoutOf[id] else layouts[IndexOf(IdsOf(o), id)];
      issued := issued + ids;
      live := Owned(live, pool, IdsOf(o));
      calls := calls + [Call(|layouts|, o)];
    }

    // ------------------------------------------------------------ banks

    method BankCursor(b: nat) returns (status: int, cursor: nat, count: nat)
      requires Valid()
      ensures status == if b >= BANK_COUNT then EINVAL else if !banks[b].ready then ENOENT else 0
      ensures status == 0 ==> cursor == banks[b].cursor && count == |banks[b].records|
    {
      cursor, count := 0, 0;
      if b >= BANK_COUNT { return EINVAL, 0, 0; }
      if !banks[b].ready { return ENOENT, 0, 0; }
      return 0, banks[b].cursor, |banks[b].records|;
    }

    method BankServes(bank: Bank, pool: Id, layouts: seq<Id>) returns (matches: bool)
      ensures matches == Serves(bank, pool, layouts)
    {
      if !bank.ready || bank.poolId != pool { return false; }
      if bank.cursor > |bank.records| || |layouts| > |bank.records| - bank.cursor { return false; }
      for i := 0 to |layouts|
        invariant forall j :: 0 <= j < i ==>
          bank.records[bank.cursor + j].layoutId == layouts[j] && bank.records[bank.cursor + j].setId != 0
      {
        var record := bank.records[bank.cursor + i];
        if record.layoutId != layouts[i] || record.setId == 0 {
          assert !Serves(bank, pool, layouts);
          return false;
        }
      }
      assert Serves(bank, pool, layouts);
      return true;
    }

    // Hands out the next n sets of a ready bank.
    method Advance(b: nat, n: nat) returns (ids: seq<Id>)
      requires Books() && b < BANK_COUNT && banks[b].ready && banks[b].cursor + n <= |banks[b].records|
      modifies this`ledger, banks
      ensures Books()
      ensures banks[..] == old(banks[..])[b := Moved(old(banks[b]), n)]
      ensures ids == SetIds(NextSets(old(banks[b]), n))
      ensures ledger == Take(old(ledger), ids)
      ensures MadeFor(NextSets(old(banks[b]), n), layoutOf)
      ensures forall i :: 0 <= i < |ids| ==> WaitsIn(old(ledger), ids[i]) && old(ledger).obtained[ids[i]] == old(banks[b]).poolId
    {
      var bank := banks[b];
      ids := SetIds(NextSets(bank, n));
      ClaimKeepsLedger(banks[..], ledger, b, n);
      AdvanceKeepsLabels(banks[..], layoutOf, b, n);
      AdvanceKeepsCoupling(plans[..], banks[..], b, n);
      banks[b] := Moved(bank, n);
      assert banks[..] == old(banks[..])[b := Moved(bank, n)];
      ledger := Take(ledger, ids);
    }

    // The lowest ready bank of the pool whose next records carry the requested layouts serves the claim.
    method Claim(pool: Id, layouts: seq<Id>) returns (status: int, ids: seq<Id>, epoch: nat)
      requires Books()
      modifies this`ledger, banks
      ensures Books()
      ensures (status == EINVAL) <==> (pool == 0 || layouts == [] || |layouts| > MAX_CLAIM)
      ensures status == 0 || status == ENOENT || status == EINVAL
      ensures status != EINVAL ==>
        var b := FirstServing(old(banks[..]), pool, layouts);
        && (status == 0 <==> b < BANK_COUNT)
        && (status == 0 ==>
              var bank := old(banks[..])[b];
              && banks[..] == old(banks[..])[b := Moved(bank, |layouts|)]
              && ids == SetIds(NextSets(bank, |layouts|))
              && epoch == bank.epoch
              && MadeFor(Paired(layouts, ids), layoutOf)
              && forall i :: 0 <= i < |ids| ==> WaitsIn(old(ledger), ids[i]) && old(ledger).obtained[ids[i]] == pool)
      ensures status != 0 ==> banks[..] == old(banks[..]) && ids == []
      ensures ledger == Take(old(ledger), ids)
    {
      ids, epoch := [], 0;
      TakeNothing(ledger);
      if pool == 0 || layouts == [] || |layouts| > MAX_CLAIM { return EINVAL, [], 0; }
      var b := 0;
      while b < BANK_COUNT
        invariant b <= BANK_COUNT
        invariant FirstServing(banks[..], pool, layouts) == FirstServing(banks[..], pool, layouts, b)
        invariant banks[..] == old(banks[..]) && ledger == old(ledger)
      {
        var bank := banks[b];
        var matches := BankServes(bank, pool, layouts);
        if matches {
          assert FirstServing(old(banks[..]), pool, layouts) == b && bank == old(banks[..])[b];
          ids := Advance(b, |layouts|);
          PairedIsServed(bank, pool, layouts, ids);
          return 0, ids, bank.epoch;
        }
        b := b + 1;
      }
      return ENOENT, [], 0;
    }

    // Whatever the client claims between two steps of the service: any number of claims.
    method ClientClaims() returns (claimed: seq<Record>)
      requires Books()
      modifies this`ledger, banks
      ensures Books() && TookWaiting(old(ledger), ledger, claimed) && MadeFor(claimed, layoutOf)
      ensures forall i :: 0 <= i < BANK_COUNT ==> OnlyCursorMoved(old(banks[i]), banks[i])
    {
      claimed := [];
      TookNone(ledger);
      var requests: seq<(Id, seq<Id>)> := *;
      for i := 0 to |requests|
        invariant Books() && TookWaiting(old(ledger), ledger, claimed) && MadeFor(claimed, layoutOf)
        invariant forall j :: 0 <= j < BANK_COUNT ==> OnlyCursorMoved(old(banks[j]), banks[j])
      {
        ghost var before := ledger;
        var more := ClaimOnce(requests[i].0, requests[i].1);
        TookBoth(old(ledger), before, ledger, claimed, more);
        claimed := claimed + more;
      }
    }

    method ClaimOnce(pool: Id, layouts: seq<Id>) returns (claimed: seq<Record>)
      requires Books()
      modifies this`ledger, banks
      ensures Books() && TookWaiting(old(ledger), ledger, claimed) && MadeFor(claimed, layoutOf)
      ensures forall i :: 0 <= i < BANK_COUNT ==> OnlyCursorMoved(old(banks[i]), banks[i])
      ensures forall i :: 0 <= i < |claimed| ==> old(ledger).obtained[claimed[i].setId] == pool
    {
      var status, ids, epoch := Claim(pool, layouts);
      claimed := if status == 0 then Paired(layouts, ids) else [];
      assert SetIds(claimed) == ids;
      forall i | 0 <= i < BANK_COUNT ensures OnlyCursorMoved(old(banks[i]), banks[i]) {
        assert old(banks[..])[i] == old(banks[i]) && banks[..][i] == banks[i];
      }
    }

    method Disable(b: nat)
      requires b < BANK_COUNT && banks.Length == BANK_COUNT
      modifies banks
      ensures banks[..] == old(banks[..])[b := NO_BANK]
    {
      banks[b] := NO_BANK;
    }

    method Publish(b: nat, pool: Id, epoch: nat, records: seq<Record>) returns (status: int)
      requires banks.Length == BANK_COUNT
      modifies banks
      ensures status == 0 || status == EINVAL
      ensures status == 0 <==>
        && b < BANK_COUNT && pool != 0 && epoch != 0 && 0 < |records| <= BANK_CAPACITY
        && forall i :: 0 <= i < |records| ==> records[i].layoutId != 0 && records[i].setId != 0
      ensures banks[..] == if status == 0 then old(banks[..])[b := Bank(pool, epoch, 0, true, records)] else old(banks[..])
    {
      if b >= BANK_COUNT || pool == 0 || epoch == 0 || |records| == 0 || |records| > BANK_CAPACITY { return EINVAL; }
      for i := 0 to |records|
        invariant forall j :: 0 <= j < i ==> records[j].layoutId != 0 && records[j].setId != 0
      {
        if records[i].layoutId == 0 || records[i].setId == 0 { return EINVAL; }
      }
      banks[b] := Bank(pool, epoch, 0, true, records);
      return 0;
    }

    // ------------------------------------------------------------ planner

    // The plan of this pool and signature; made in the first unused slot when there is none.
    method PlanFind(pool: Id, layouts: seq<Id>) returns (found: bool, index: nat)
      requires Valid()
      modifies plans
      ensures Valid()
      ensures found ==> index < BANK_COUNT && plans[index].poolId == pool != 0 && plans[index].signature == layouts
      ensures found ==> 0 < |layouts| <= MAX_SETS_PER_ALLOCATE
      ensures found ==> plans[..] == old(plans[..])[index := Started(old(plans[..])[index], pool, layouts)]
      ensures found && old(plans[..])[index].poolId == 0 ==> NoPlanFor(old(plans[..]), pool, layouts)
      ensures !found ==> plans[..] == old(plans[..]) && index == BANK_COUNT && NoRoomFor(plans[..], pool, layouts)
    {
      index := BANK_COUNT;
      if pool == 0 || |layouts| == 0 || |layouts| > MAX_SETS_PER_ALLOCATE { return false, BANK_COUNT; }
      for i := 0 to BANK_COUNT
        invariant index == BANK_COUNT || (index < i && plans[index].poolId == 0)
        invariant index == BANK_COUNT ==> forall j :: 0 <= j < i ==> plans[j].poolId != 0
        invariant forall j :: 0 <= j < i ==> !PlanMatches(plans[j], pool, layouts)
        invariant plans[..] == old(plans[..])
      {
        if PlanMatches(plans[i], pool, layouts) { return true, i; }
        if index == BANK_COUNT && plans[i].poolId == 0 { index := i; }
      }
      if index == BANK_COUNT { return false, BANK_COUNT; }
      assert Coupled(plans[index], banks[index]);
      plans[index] := Plan(pool, 0, layouts, 2, 0, false, false);
      return true, index;
    }

    method AllocateExactly(pool: Id, layouts: seq<Id>) returns (reply: Outcome)
      requires Valid()
      modifies this`issued, this`live, this`calls, this`layoutOf, this`ledger
      ensures Valid()
      ensures Permitted(old(issued), |layouts|, reply)
      ensures calls == old(calls) + [Call(|layouts|, reply)]
      ensures ledger == Grow(old(ledger), pool, IdsOf(reply), [], None)
      ensures Extends(old(layoutOf), layoutOf) && MadeFor(Paired(layouts, IdsOf(reply)), layoutOf)
    {
      reply := NativeAllocate(pool, layouts);
      assert IdsOf(reply) + [] == IdsOf(reply);
      GrowKeepsLedger(banks[..], ledger, pool, IdsOf(reply), []);
      LabelsStay(banks[..], old(layoutOf), layoutOf);
      GrowOwns(ledger, pool, IdsOf(reply), [], None);
      ledger := Grow(ledger, pool, IdsOf(reply), [], None);
    }

    method MakeBatch(layouts: seq<Id>, count: nat) returns (batch: seq<Id>)
      requires layouts != []
      ensures batch == Repeated(layouts, count)
    {
      batch := [];
      for k := 0 to count
        invariant batch == Repeated(layouts, count)[..k]
      {
        RepeatedAt(layouts, count, k);
        batch := batch + [layouts[k % |layouts|]];
      }
    }

    // The surplus of a batch as lease records.
    method MakeLeases(layouts: seq<Id>, batch: seq<Id>, ids: seq<Id>) returns (leases: seq<Record>)
      requires 0 < |layouts| && 2 * |layouts| <= |ids| == |batch| && batch == Repeated(layouts, |batch|)
      ensures leases == Paired(batch, ids)[|layouts|..]
      ensures SetIds(leases) == ids[|layouts|..]
      ensures LayoutsOf(leases) == Repeated(layouts, |leases|)
      ensures (forall k :: 0 <= k < |leases| ==> leases[k].layoutId != 0) <==> 0 !in layouts
    {
      var n := |layouts|;
      leases := [];
      for k := 0 to |batch| - n
        invariant leases == Paired(batch, ids)[n..n + k]
      {
        leases := leases + [Record(batch[n + k], ids[n + k])];
      }
      LeasesRepeat(layouts, batch, ids);
    }

    // Publishes the surplus under a new epoch; a plan whose epochs have run out stops batching.
    method Offer(index: nat, repetitions: nat, leases: seq<Record>) returns (published: bool)
      requires AllCoupled(plans[..], banks[..])
      requires index < BANK_COUNT && plans[index].poolId != 0 && !plans[index].published
      requires 2 <= repetitions <= MaxRepetitions(|plans[index].signature|)
      requires 0 < |leases| <= BANK_CAPACITY && forall k :: 0 <= k < |leases| ==> leases[k].setId != 0
      requires LayoutsOf(leases) == Repeated(plans[index].signature, |leases|)
      modifies banks, plans
      ensures AllCoupled(plans[..], banks[..])
      ensures published <==>
        old(plans[index]).epoch < U64_MAX && forall k :: 0 <= k < |leases| ==> leases[k].layoutId != 0
      ensures banks[..] == if published
        then old(banks[..])[index := Bank(old(plans[index]).poolId, old(plans[index]).epoch + 1, 0, true, leases)]
        else old(banks[..])
      ensures plans[..] == old(plans[..])[index := Offered(old(plans[..])[index], repetitions, published)]
    {
      var plan := plans[index].(repetitions := repetitions);
      var status := EOVERFLOW;
      if plan.epoch != U64_MAX {
        plan := plan.(epoch := plan.epoch + 1);
        status := Publish(index, plan.poolId, plan.epoch, leases);
      }
      published := status == 0;
      plans[index] := if published then plan.(published := true) else plan.(disabled := true);
    }

    // The native allocator answered a whole batch: the first repetition is the
    // reply and the rest is published, or stranded when it cannot be.
    method ShareBatch(index: nat, layouts: seq<Id>, batch: seq<Id>, ids: seq<Id>)
      returns (reply: Outcome, ghost bank: Option<nat>)
      requires Books() && FreshSets(ledger.issued, ids)
      requires issued == ledger.issued + SetOf(ids)
      requires index < BANK_COUNT && plans[index].poolId != 0 && plans[index].signature == layouts
      requires !plans[index].published
      requires live == Owned(ledger.obtained, plans[index].poolId, ids)
      requires |layouts| < |ids| == |batch| <= MAX_SETS_PER_ALLOCATE && |batch| % |layouts| == 0
      requires batch == Repeated(layouts, |batch|) && MadeFor(Paired(batch, ids), layoutOf)
      modifies this`ledger, banks, plans
      ensures Valid()
      ensures reply == Answered(VK_SUCCESS, ids[..|layouts|])
      ensures ledger == Grow(old(ledger), old(plans[index]).poolId, ids[..|layouts|], ids[|layouts|..], bank)
      ensures bank == if old(plans[index]).epoch < U64_MAX && 0 !in layouts then Some(index) else None
      ensures plans[..] == old(plans[..])[index := Settled(old(plans[..])[index], Call(|batch|, Answered(VK_SUCCESS, ids)), bank.Some?)]
      ensures banks[..] == old(banks[..])[index := Filled(old(plans[..])[index], old(banks[..])[index], Call(|batch|, Answered(VK_SUCCESS, ids)), bank.Some?)]
    {
      var n, poolId := |layouts|, plans[index].poolId;
      reply := Answered(VK_SUCCESS, ids[..n]);
      bank := OfferSurplus(index, layouts, batch, ids);
      CutJoins(ids, n);
      GrowOwns(ledger, poolId, ids[..n], ids[n..], bank);
      ledger := Grow(ledger, poolId, ids[..n], ids[n..], bank);
    }

    method OfferSurplus(index: nat, layouts: seq<Id>, batch: seq<Id>, ids: seq<Id>) returns (ghost bank: Option<nat>)
      requires Books() && FreshSets(ledger.issued, ids)
      requires index < BANK_COUNT && plans[index].poolId != 0 && plans[index].signature == layouts
      requires !plans[index].published
      requires |layouts| < |ids| == |batch| <= MAX_SETS_PER_ALLOCATE && |batch| % |layouts| == 0
      requires batch == Repeated(layouts, |batch|) && MadeFor(Paired(batch, ids), layoutOf)
      modifies banks, plans
      ensures AllCoupled(plans[..], banks[..]) && Labelled(banks[..], layoutOf)
      ensures LedgerOk(banks[..], Grow(ledger, old(plans[index]).poolId, ids[..|layouts|], ids[|layouts|..], bank))
      ensures bank == if old(plans[index]).epoch < U64_MAX && 0 !in layouts then Some(index) else None
      ensures plans[..] == old(plans[..])[index := Settled(old(plans[..])[index], Call(|batch|, Answered(VK_SUCCESS, ids)), bank.Some?)]
      ensures banks[..] == old(banks[..])[index := Filled(old(plans[..])[index], old(banks[..])[index], Call(|batch|, Answered(VK_SUCCESS, ids)), bank.Some?)]
    {
      var n := |layouts|;
      WholeRepetitions(|batch|, n);
      var leases := MakeLeases(layouts, batch, ids);
      CutJoins(ids, n);
      RepetitionsInRange(|batch|, n);
      ghost var poolId := plans[index].poolId;
      var published := Offer(index, |batch| / n, leases);
      bank := if published then Some(index) else None;
      if published {
        PublishKeepsLedger(old(banks[..]), ledger, index, banks[index], ids[..n]);
        PublishKeepsLabels(old(banks[..]), layoutOf, index, banks[index]);
      } else {
        GrowKeepsLedger(banks[..], ledger, poolId, ids[..n], ids[n..]);
      }
    }

    // One attempt at a whole batch; unsettled when the pool is out of room.  The client may claim
    // while the native call runs.
    method TryBatch(index: nat, layouts: seq<Id>, count: nat)
      returns (settled: bool, reply: Outcome, claimed: seq<Record>, answer: Outcome, ghost surplus: seq<Id>, ghost bank: Option<nat>)
      requires Valid()
      requires index < BANK_COUNT && plans[index].poolId != 0 && plans[index].signature == layouts
      requires !plans[index].published
      requires 0 < |layouts| < count <= MAX_SETS_PER_ALLOCATE && count % |layouts| == 0
      modifies this, banks, plans
      ensures Valid()
      ensures calls == old(calls) + [Call(count, answer)]
      ensures settled <==> !OutOfRoom(answer)
      ensures Complete(Call(count, answer))
      ensures !settled ==> Passed(old(Now()), Now(), claimed)
      ensures settled ==> ServedBy(old(Now()), Now(), index, layouts, Call(count, answer), reply, claimed, surplus, bank)
    {
      ghost var before := Now();
      assert Coupled(before.plans[index], before.banks[index]);
      var batch := MakeBatch(layouts, count);
      answer, claimed := AskWhileClaimed(plans[index].poolId, batch);
      ghost var asked := Now();
      settled := answer.Failed? ||
        (answer.vkResult != VK_ERROR_OUT_OF_POOL_MEMORY && answer.vkResult != VK_ERROR_FRAGMENTED_POOL);
      reply, surplus, bank := EnterAnswer(index, layouts, batch, answer);
      EnteredServes(before, asked, Now(), index, layouts, Call(count, answer), reply, claimed, surplus, bank);
    }

    // Only a success brings sets; anything else is passed on and leaves the books as they are.
    method EnterAnswer(index: nat, layouts: seq<Id>, batch: seq<Id>, answer: Outcome)
      returns (reply: Outcome, ghost surplus: seq<Id>, ghost bank: Option<nat>)
      requires Books() && Permitted(ledger.issued, |batch|, answer)
      requires index < BANK_COUNT && plans[index].poolId != 0 && plans[index].signature == layouts
      requires !plans[index].published
      requires issued == ledger.issued + SetOf(IdsOf(answer))
      requires live == Owned(ledger.obtained, plans[index].poolId, IdsOf(answer))
      requires 0 < |layouts| < |batch| <= MAX_SETS_PER_ALLOCATE && |batch| % |layouts| == 0
      requires batch == Repeated(layouts, |batch|)
      requires |IdsOf(answer)| <= |batch| && MadeFor(Paired(batch, IdsOf(answer)), layoutOf)
      modifies this`ledger, banks, plans
      ensures Valid()
      ensures AnswersOneRequest(old(ledger.issued), layouts, layoutOf, reply, surplus) && Settles(|layouts|, answer, reply, surplus)
      ensures ledger == Grow(old(ledger), old(plans[index]).poolId, IdsOf(reply), surplus, bank)
      ensures !Succeeded(answer) ==> ledger == old(ledger) && bank == None
      ensures plans[..] == old(plans[..])[index := Settled(old(plans[..])[index], Call(|batch|, answer), bank.Some?)]
      ensures banks[..] == old(banks[..])[index := Filled(old(plans[..])[index], old(banks[..])[index], Call(|batch|, answer), bank.Some?)]
      ensures surplus != [] ==>
        bank == if old(plans[index]).epoch < U64_MAX && 0 !in layouts then Some(index) else None
    {
      reply, surplus, bank := answer, [], None;
      if answer.Answered? && answer.vkResult == VK_SUCCESS {
        surplus := answer.ids[|layouts|..];
        FirstRepetition(layouts, batch, answer.ids, layoutOf);
        FirstPartAnswers(ledger.issued, layouts, answer.ids, layoutOf);
        reply, bank := ShareBatch(index, layouts, batch, answer.ids);
      } else {
        GrowNothing(ledger, plans[index].poolId, bank);
        assert live == ledger.obtained;
      }
    }

    // A native call, and the claims that come before its answer is entered in the books.
    method AskWhileClaimed(pool: Id, layouts: seq<Id>) returns (answer: Outcome, claimed: seq<Record>)
      requires Valid()
      modifies this, banks
      ensures Books() && plans[..] == old(plans[..]) && OnlyClaimed(old(banks[..]), banks[..])
      ensures TookWaiting(old(ledger), ledger, claimed) && MadeFor(claimed, layoutOf)
      ensures Permitted(old(issued), |layouts|, answer) && ledger.issued == old(issued)
      ensures issued == old(issued) + SetOf(IdsOf(answer))
      ensures live == Owned(ledger.obtained, pool, IdsOf(answer))
      ensures calls == old(calls) + [Call(|layouts|, answer)]
      ensures Extends(old(layoutOf), layoutOf) && |IdsOf(answer)| <= |layouts| && MadeFor(Paired(layouts, IdsOf(answer)), layoutOf)
    {
      answer := NativeAllocate(pool, layouts);
      LabelsStay(banks[..], old(layoutOf), layoutOf);
      claimed := ClientClaims();
    }

    // The pool cannot hold a second repetition: batching stops and the request is served exactly.
    method FallBack(index: nat, layouts: seq<Id>) returns (reply: Outcome)
      requires Valid() && index < BANK_COUNT && plans[index].poolId != 0 && plans[index].signature == layouts
      modifies this, plans
      ensures Valid() && calls == old(calls) + [Call(|layouts|, reply)]
      ensures ServedBy(old(Now()), Now(), index, layouts, Call(|layouts|, reply), reply, [], [], None)
      ensures Complete(Call(|layouts|, reply))
    {
      plans[index] := plans[index].(disabled := true);
      reply := AllocateExactly(plans[index].poolId, layouts);
      assert IdsOf(reply) + [] == IdsOf(reply);
      TookNone(old(ledger));
    }

    // Asks for ever smaller whole repetitions until the pool can hold them.
    method AllocateBatch(index: nat, layouts: seq<Id>, first: nat)
      returns (reply: Outcome, claimed: seq<Record>, ghost surplus: seq<Id>, ghost bank: Option<nat>, ghost made: seq<Call>)
      requires Valid()
      requires index < BANK_COUNT && plans[index].poolId != 0 && plans[index].signature == layouts
      requires !plans[index].published
      requires 0 < |layouts| < first <= MAX_SETS_PER_ALLOCATE && first % |layouts| == 0
      modifies this, banks, plans
      ensures Valid() && calls == old(calls) + made
      ensures Attempts(made, |layouts|, reply, surplus) && made[0].size == first
      ensures ServedBy(old(Now()), Now(), index, layouts, made[|made| - 1], reply, claimed, surplus, bank)
    {
      ghost var start := Now();
      assert Coupled(start.plans[index], start.banks[index]);
      var settled;
      settled, reply, claimed, surplus, bank, made := AskSmaller(index, layouts, first);
      if !settled {
        ghost var before := Now();
        assert plans[..][index] == start.plans[index];
        reply := FallBack(index, layouts);
        surplus, bank := [], None;
        ServedLater(start, before, Now(), index, layouts, Call(|layouts|, reply), reply, claimed, [], surplus, bank);
        assert claimed + [] == claimed;
        NowSettled(made, first, |layouts|, |layouts|, reply, reply, []);
        made := made + [Call(|layouts|, reply)];
      }
    }

    // The batches tried, the last of them the first that found room, if any did.
    method AskSmaller(index: nat, layouts: seq<Id>, first: nat)
      returns (settled: bool, reply: Outcome, claimed: seq<Record>, ghost surplus: seq<Id>, ghost bank: Option<nat>, ghost made: seq<Call>)
      requires Valid()
      requires index < BANK_COUNT && plans[index].poolId != 0 && plans[index].signature == layouts
      requires !plans[index].published
      requires 0 < |layouts| < first <= MAX_SETS_PER_ALLOCATE && first % |layouts| == 0
      modifies this, banks, plans
      ensures Valid() && calls == old(calls) + made
      ensures settled ==> Attempts(made, |layouts|, reply, surplus) && made[0].size == first
      ensures settled ==> ServedBy(old(Now()), Now(), index, layouts, made[|made| - 1], reply, claimed, surplus, bank)
      ensures !settled ==> Passed(old(Now()), Now(), claimed) && Unsettled(made, first, |layouts|, |layouts|)
    {
      var n := |layouts|;
      var count: nat := first;
      settled, reply, claimed, surplus, bank, made := false, Failed(EIO), [], [], None, [];
      ghost var start := Now();
      PassedNone(start);
      assert Coupled(start.plans[index], start.banks[index]);
      while count > n
        invariant WholeRepetition(count, n) && count <= MAX_SETS_PER_ALLOCATE
        invariant Valid() && Passed(start, Now(), claimed) && !settled
        invariant calls == old(calls) + made && Unsettled(made, first, count, n)
        decreases count
      {
        ghost var before := Now();
        assert plans[..][index] == start.plans[index];
        var more, answer;
        settled, reply, more, answer, surplus, bank := TryBatch(index, layouts, count);
        if settled {
          ServedLater(start, before, Now(), index, layouts, Call(count, answer), reply, claimed, more, surplus, bank);
          NowSettled(made, first, count, n, answer, reply, surplus);
          return settled, reply, claimed + more, surplus, bank, made + [Call(count, answer)];
        }
        PassedBoth(start, before, Now(), claimed, more);
        StillUnsettled(made, first, count, n, answer);
        made, claimed := made + [Call(count, answer)], claimed + more;
        count := SmallerBatch(count, n);
      }
    }

    // The size of the batch to ask for, or the request's own size for an exact allocation.
    method ChooseSize(pool: Id, layouts: seq<Id>) returns (slot: nat, count: nat, claimed: seq<Record>)
      requires Valid()
      modifies this`ledger, banks, plans
      ensures Valid() && TookWaiting(old(ledger), ledger, claimed) && MadeFor(claimed, layoutOf)
      ensures count == |layouts| || (count <= MAX_SETS_PER_ALLOCATE && |layouts| < count && WholeRepetition(count, |layouts|))
      ensures count != |layouts| ==>
        && slot < BANK_COUNT && PlanMatches(plans[slot], pool, layouts) && plans[slot].poolId != 0 && !plans[slot].published
      ensures Chosen(pool, layouts, old(plans[..]), old(banks[..]), plans[..], banks[..], slot, count)
    {
      var found;
      found, slot := PlanFind(pool, layouts);
      if found {
        assert Coupled(plans[..][slot], banks[..][slot]);
        count, claimed := Prepare(slot);
      } else {
        count, claimed := |layouts|, [];
        TookNone(ledger);
      }
    }

    // Counts a cold request, or takes back a drained bank, and says how many sets to ask for.  The
    // client may claim between the look at the bank and taking it back.
    method Prepare(slot: nat) returns (count: nat, claimed: seq<Record>)
      requires Valid() && slot < BANK_COUNT && plans[slot].poolId != 0
      modifies this`ledger, banks, plans
      ensures Valid() && TookWaiting(old(ledger), ledger, claimed) && MadeFor(claimed, layoutOf)
      ensures count == FirstSize(old(plans[..])[slot], old(banks[..])[slot])
      ensures plans[..] == old(plans[..])[slot := Prepared(old(plans[..])[slot], old(banks[..])[slot])]
      ensures forall i :: 0 <= i < BANK_COUNT && i != slot ==> OnlyCursorMoved(old(banks[..])[i], banks[..][i])
      ensures count > |plans[slot].signature| ==>
        !plans[slot].published && count <= MAX_SETS_PER_ALLOCATE && WholeRepetition(count, |plans[slot].signature|)
    {
      var n := |plans[slot].signature|;
      claimed := [];
      TookNone(ledger);
      assert Coupled(plans[..][slot], banks[..][slot]);
      count := BatchSetCount(n, plans[slot].repetitions);
      if plans[slot].disabled || count <= n { return n, claimed; }
      if !plans[slot].published && plans[slot].observed < 2 {
        Observe(slot);
        return n, claimed;
      }
      if plans[slot].published {
        var status, cursor, total := BankCursor(slot);
        if status == 0 && cursor < total { return n, claimed; }
        claimed := ClientClaims();
        Retire(slot);
        count := BatchSetCount(n, plans[slot].repetitions);
      }
    }

    /**
     * Serves one allocation.  A signature is first observed twice, then asked
     * for in whole repetitions; a published plan asks for more only when the
     * client has drained its bank.  What the client claims meanwhile is not
     * affected: a claim at any point not shown here sees the same banks as one
     * that is.
     */
    method AllocateLiveBatch(pool: Id, layouts: seq<Id>)
      returns (reply: Outcome, claimed: seq<Record>, ghost surplus: seq<Id>, ghost bank: Option<nat>, ghost slot: nat, ghost made: seq<Call>)
      requires Valid()
      modifies this, banks, plans
      ensures Valid()
      ensures AnswersOneRequest(old(issued), layouts, layoutOf, reply, surplus)
      ensures Extends(old(layoutOf), layoutOf) && MadeFor(claimed, layoutOf)
      ensures GrewAfterClaims(old(ledger), ledger, claimed, pool, IdsOf(reply), surplus, bank)
      ensures surplus != [] ==>
        slot < BANK_COUNT && bank == if old(plans[slot]).epoch < U64_MAX && 0 !in layouts then Some(slot) else None
      ensures calls == old(calls) + made
      ensures made != [] && if made[0].size == |layouts| then made == [Call(|layouts|, reply)] else Attempts(made, |layouts|, reply, surplus)
      ensures made[0].size <= MAX_SETS_PER_ALLOCATE || made == [Call(|layouts|, reply)]
      ensures Planned(pool, layouts, old(plans[..]), old(banks[..]), plans[..], banks[..], slot, made, bank.Some?)
    {
      var index, count;
      index, count, claimed := ChooseSize(pool, layouts);
      ghost var before, labels, plans', banks' := ledger, layoutOf, plans[..], banks[..];
      slot, surplus, bank := index, [], None;
      if count == |layouts| {
        reply := AllocateExactly(pool, layouts);
        made := [Call(|layouts|, reply)];
        assert IdsOf(reply) + [] == IdsOf(reply);
        BothMadeFor(claimed, [], labels, layoutOf);
        assert claimed + [] == claimed;
        ChosenExactly(pool, layouts, old(plans[..]), old(banks[..]), plans', banks', slot, reply);
      } else {
        var more;
        reply, more, surplus, bank, made := AllocateBatch(index, layouts, count);
        BothMadeFor(claimed, more, labels, layoutOf);
        GrewLater(old(ledger), before, ledger, claimed, more, pool, IdsOf(reply), surplus, bank);
        ChosenThenSettled(pool, layouts, old(plans[..]), old(banks[..]), plans', banks', banks[..], slot, made, bank.Some?);
        claimed := claimed + more;
      }
    }

    method Observe(index: nat)
      requires Valid() && index < BANK_COUNT && plans[index].poolId != 0
      modifies plans
      ensures Valid() && plans[..] == old(plans[..])[index := old(plans[index]).(observed := old(plans[index]).observed + 1)]
    {
      plans[index] := plans[index].(observed := plans[index].observed + 1);
      assert plans[..] == old(plans[..])[index := old(plans[index]).(observed := old(plans[index]).observed + 1)];
    }

    // Takes back a drained bank and doubles the plan, up to what one native call allows.
    method Retire(index: nat)
      requires Valid() && index < BANK_COUNT && plans[index].published && Drained(banks[index])
      modifies banks, plans
      ensures Valid()
      ensures banks[..] == old(banks[..])[index := NO_BANK]
      ensures var before := old(plans[..])[index];
        plans[..] == old(plans[..])[index := before.(published := false, repetitions := Grown(|before.signature|, before.repetitions))]
    {
      DisableDrainedKeepsLedger(banks[..], ledger, index);
      DisableKeepsLabels(banks[..], layoutOf, index);
      Disable(index);
      var maximum := MaxRepetitions(|plans[index].signature|);
      var grown := plans[index].repetitions;
      if grown < maximum {
        grown := if grown * 2 > maximum then maximum else grown * 2;
      }
      plans[index] := plans[index].(published := false, repetitions := grown);
    }

    // ------------------------------------------------------------ pool lifetime

    // Takes the bank of a plan whose pool is gone; sets still waiting there are lost.
    method Withdraw(b: nat)
      requires Books() && b < BANK_COUNT
      modifies this`ledger, banks
      ensures LedgerOk(banks[..], ledger) && Labelled(banks[..], layoutOf)
      ensures ledger == Strand(old(ledger), b) && banks[..] == old(banks[..])[b := NO_BANK]
    {
      StrandKeepsLedger(banks[..], ledger, b);
      DisableKeepsLabels(banks[..], layoutOf, b);
      Disable(b);
      ledger := Strand(ledger, b);
    }

    // One bank: the client may claim, and then, if it is the pool's, the bank goes and its plan changes.
    method ForgetPlace(i: nat, pool: Id, next: Plan, ghost start: Ledger, claimed: seq<Record>) returns (all: seq<Record>)
      requires Books() && i < BANK_COUNT && pool != 0
      requires plans[i].poolId == pool ==> PlanOk(next) && !next.published
      requires ForgotAfterClaims(start, ledger, claimed, pool) && MadeFor(claimed, layoutOf)
      modifies this`ledger, banks, plans
      ensures Books() && ForgotAfterClaims(start, ledger, all, pool) && MadeFor(all, layoutOf)
      ensures plans[..] == if old(plans[i]).poolId == pool then old(plans[..])[i := next] else old(plans[..])
      ensures forall j :: 0 <= j < BANK_COUNT ==>
        if j == i && old(plans[i]).poolId == pool then banks[j] == NO_BANK else OnlyCursorMoved(old(banks[j]), banks[j])
    {
      ghost var before := ledger;
      var more := ClientClaims();
      ForgotMore(start, before, ledger, claimed, more, pool);
      all := claimed + more;
      if plans[i].poolId == pool {
        assert Coupled(plans[i], banks[i]);
        ForgetAfterStrand(banks[..], ledger, i, pool);
        StrandWaits(start, ledger, i, all, pool);
        ghost var was := banks[..];
        Withdraw(i);
        assert forall j :: 0 <= j < BANK_COUNT && j != i ==> banks[..][j] == was[j];
        plans[i] := next;
      }
    }

    // Clears every plan and bank of the pool, one by one; the client may claim before each.
    method ForgetPool(pool: Id) returns (claimed: seq<Record>)
      requires Books()
      modifies this`ledger, banks, plans
      ensures Books() && MadeFor(claimed, layoutOf)
      ensures ForgotAfterClaims(old(ledger), ledger, claimed, pool)
      ensures forall i :: 0 <= i < BANK_COUNT ==>
        if pool != 0 && old(plans[i]).poolId == pool then plans[i] == NO_PLAN && banks[i] == NO_BANK
        else plans[i] == old(plans[i]) && OnlyCursorMoved(old(banks[i]), banks[i])
    {
      claimed := [];
      ForgotNone(ledger, pool);
      if pool == 0 { return; }
      for i := 0 to BANK_COUNT
        invariant Books() && MadeFor(claimed, layoutOf)
        invariant ForgotAfterClaims(old(ledger), ledger, claimed, pool)
        invariant forall j :: i <= j < BANK_COUNT ==> plans[j] == old(plans[j]) && OnlyCursorMoved(old(banks[j]), banks[j])
        invariant forall j :: 0 <= j < i ==>
          if old(plans[j]).poolId == pool then plans[j] == NO_PLAN && banks[j] == NO_BANK
          else plans[j] == old(plans[j]) && OnlyCursorMoved(old(banks[j]), banks[j])
      {
        assert Coupled(plans[i], banks[i]);
        claimed := ForgetPlace(i, pool, NO_PLAN, old(ledger), claimed);
      }
    }

    // Disables every bank of the pool and starts its plans over; the client may claim before each.
    method AfterPoolReset(pool: Id) returns (claimed: seq<Record>)
      requires Books() && pool != 0
      modifies this`ledger, banks, plans
      ensures Books() && MadeFor(claimed, layoutOf)
      ensures ForgotAfterClaims(old(ledger), ledger, claimed, pool)
      ensures forall i :: 0 <= i < BANK_COUNT ==>
        if old(plans[i]).poolId == pool
        then banks[i] == NO_BANK && plans[i] == old(plans[i]).(published := false, disabled := false, repetitions := 2, observed := 0)
        else plans[i] == old(plans[i]) && OnlyCursorMoved(old(banks[i]), banks[i])
    {
      claimed := [];
      ForgotNone(ledger, pool);
      for i := 0 to BANK_COUNT
        invariant Books() && MadeFor(claimed, layoutOf)
        invariant ForgotAfterClaims(old(ledger), ledger, claimed, pool)
        invariant forall j :: i <= j < BANK_COUNT ==> plans[j] == old(plans[j]) && OnlyCursorMoved(old(banks[j]), banks[j])
        invariant forall j :: 0 <= j < i ==>
          if old(plans[j]).poolId == pool
          then banks[j] == NO_BANK && plans[j] == old(plans[j]).(published := false, disabled := false, repetitions := 2, observed := 0)
          else plans[j] == old(plans[j]) && OnlyCursorMoved(old(banks[j]), banks[j])
      {
        assert Coupled(plans[i], banks[i]);
        var restarted := plans[i].(published := false, disabled := false, repetitions := 2, observed := 0);
        claimed := ForgetPlace(i, pool, restarted, old(ledger), claimed);
      }
    }

    method NativeRelease(pool: Id)
      modifies this`live
      ensures live == map id | id in old(live) && old(live)[id] != pool :: old(live)[id]
    {
      live := map id | id in live && live[id] != pool :: live[id];
    }

    // Between the native call and the last bank of the pool the client can still claim sets of the
    // pool, but only such as were waiting when the pool was destroyed.
    method DestroyPool(pool: Id) returns (claimed: seq<Record>)
      requires Valid()
      modifies this, banks, plans
      ensures Valid() && issued == old(issued) && calls == old(calls) && layoutOf == old(layoutOf)
      ensures MadeFor(claimed, layoutOf) && forall i :: 0 <= i < |claimed| ==> WaitsIn(old(ledger), claimed[i].setId)
      ensures ledger == Forget(Take(old(ledger), SetIds(claimed)), pool)
      ensures forall id :: id in ledger.obtained ==> ledger.obtained[id] != pool
      ensures forall i :: 0 <= i < BANK_COUNT ==> !(banks[i].ready && banks[i].poolId == pool)
    {
      NativeRelease(pool);
      claimed := ForgetPool(pool);
      CloseBooks(pool);
    }

    // A reset the native context refuses changes nothing.
    method ResetPool(pool: Id, vkResult: int) returns (claimed: seq<Record>)
      requires Valid() && pool != 0
      modifies this, banks, plans
      ensures Valid() && issued == old(issued) && calls == old(calls) && layoutOf == old(layoutOf)
      ensures MadeFor(claimed, layoutOf) && forall i :: 0 <= i < |claimed| ==> WaitsIn(old(ledger), claimed[i].setId)
      ensures vkResult != VK_SUCCESS ==> ledger == old(ledger) && claimed == []
      ensures vkResult == VK_SUCCESS ==>
        && ledger == Forget(Take(old(ledger), SetIds(claimed)), pool)
        && (forall id :: id in ledger.obtained ==> ledger.obtained[id] != pool)
        && forall i :: 0 <= i < BANK_COUNT ==> !(banks[i].ready && banks[i].poolId == pool)
    {
      claimed := [];
      if vkResult != VK_SUCCESS { return; }
      NativeRelease(pool);
      claimed := AfterPoolReset(pool);
      CloseBooks(pool);
    }

    // With no bank of the pool left, its sets leave the books as they left the native context.
    ghost method CloseBooks(pool: Id)
      requires Books() && ledger.issued == issued && live == Forget(ledger, pool).obtained
      requires forall i :: 0 <= i < BANK_COUNT ==> !(banks[i].ready && banks[i].poolId == pool)
      modifies this`ledger
      ensures Valid() && ledger == Forget(old(ledger), pool)
      ensures forall id :: id in ledger.obtained ==> ledger.obtained[id] != pool
    {
      ForgetKeepsLedger(banks[..], banks[..], ledger, pool);
      ledger := Forget(ledger, pool);
    }

    // ------------------------------------------------------------ runs

    method Step(op: Op) returns (received: seq<Record>)
      requires Valid() && (op.Reset? ==> op.pool != 0)
      modifies this, banks, plans
      ensures Valid()
      ensures ledger.delivered == old(ledger).delivered + SetIds(received)
      ensures OnlyWaitingSurvive(old(ledger), ledger, SetIds(received))
      ensures Extends(old(layoutOf), layoutOf) && MadeFor(received, layoutOf)
    {
      match op
      case Allocate(pool, layouts) =>
        received := StepAllocate(pool, layouts);
      case ClaimSets(pool, layouts) =>
        received := ClaimOnce(pool, layouts);
        TakeSurvives(old(ledger), received);
      case Reset(pool, vkResult) =>
        received := ResetPool(pool, vkResult);
        TakeSurvives(old(ledger), received);
        TakeNothing(old(ledger));
      case Destroy(pool) =>
        received := DestroyPool(pool);
        TakeSurvives(old(ledger), received);
    }

    method StepAllocate(pool: Id, layouts: seq<Id>) returns (received: seq<Record>)
      requires Valid()
      modifies this, banks, plans
      ensures Valid()
      ensures ledger.delivered == old(ledger).delivered + SetIds(received)
      ensures OnlyWaitingSurvive(old(ledger), ledger, SetIds(received))
      ensures Extends(old(layoutOf), layoutOf) && MadeFor(received, layoutOf)
    {
      var reply, claimed, surplus, bank, slot, made := AllocateLiveBatch(pool, layouts);
      received := claimed + Paired(layouts, IdsOf(reply));
      SetIdsOfBoth(claimed, Paired(layouts, IdsOf(reply)));
      GrewSurvives(old(ledger), ledger, claimed, pool, IdsOf(reply), surplus, bank);
    }

    method Serve(ops: seq<Op>) returns (received: seq<Record>)
      requires Valid() && forall i :: 0 <= i < |ops| && ops[i].Reset? ==> ops[i].pool != 0
      modifies this, banks, plans
      ensures Valid()
      ensures ledger.delivered == old(ledger).delivered + SetIds(received)
      ensures OnlyWaitingSurvive(old(ledger), ledger, SetIds(received))
      ensures Extends(old(layoutOf), layoutOf) && MadeFor(received, layoutOf)
    {
      received := [];
      for i := 0 to |ops|
        invariant Valid()
        invariant ledger.delivered == old(ledger).delivered + SetIds(received)
        invariant OnlyWaitingSurvive(old(ledger), ledger, SetIds(received))
        invariant Extends(old(layoutOf), layoutOf) && MadeFor(received, layoutOf)
      {
        ghost var labels := layoutOf;
        var more := Step(ops[i]);
        SetIdsOfBoth(received, more);
        BothMadeFor(received, more, labels, layoutOf);
        received := received + more;
      }
    }

    method ResetThenServe(pool: Id, ops: seq<Op>) returns (during: seq<Record>, late: seq<Record>)
      requires Valid() && pool != 0 && forall i :: 0 <= i < |ops| && ops[i].Reset? ==> ops[i].pool != 0
      modifies this, banks, plans
      ensures Valid()
      ensures ledger.delivered == old(ledger).delivered + SetIds(during) + SetIds(late)
      ensures forall i :: 0 <= i < |during| ==> WaitsIn(old(ledger), during[i].setId)
      ensures forall id :: id in old(live) && old(live)[id] == pool ==> id !in SetIds(late)
    {
      during := ResetPool(pool, VK_SUCCESS);
      assert forall id :: id in old(live) && old(live)[id] == pool ==> id in ledger.issued && id !in ledger.places;
      late := Serve(ops);
    }
  }

  // The pool's sets apart, the ledger only saw these claims of sets that were waiting.
  ghost predicate ForgotAfterClaims(before: Ledger, after: Ledger, claimed: seq<Record>, pool: Id) {
    && after.issued == before.issued && after.obtained == before.obtained
    && Forget(after, pool) == Forget(Take(before, SetIds(claimed)), pool)
    && (forall i :: 0 <= i < |claimed| ==> WaitsIn(before, claimed[i].setId))
    && forall id :: WaitsIn(after, id) ==> WaitsIn(before, id)
  }

  lemma ForgotNone(l: Ledger, pool: Id)
    ensures ForgotAfterClaims(l, l, [], pool)
  {
    assert SetIds([]) == [];
    TakeNothing(l);
  }

  lemma ForgotMore(a: Ledger, b: Ledger, c: Ledger, x: seq<Record>, y: seq<Record>, pool: Id)
    requires ForgotAfterClaims(a, b, x, pool) && TookWaiting(b, c, y)
    ensures ForgotAfterClaims(a, c, x + y, pool)
  {
    SetIdsOfBoth(x, y);
    ForgetAfterTake(b, Take(a, SetIds(x)), pool, SetIds(y));
    TakeTwice(a, SetIds(x), SetIds(y));
    assert forall i :: 0 <= i < |x + y| ==> WaitsIn(a, (x + y)[i].setId);
  }

  lemma TakeTwice(l: Ledger, x: seq<Id>, y: seq<Id>)
    ensures Take(Take(l, x), y) == Take(l, x + y)
  {
    assert l.delivered + x + y == l.delivered + (x + y);
    assert Take(Take(l, x), y).places == Take(l, x + y).places;
  }

  lemma StrandWaits(a: Ledger, b: Ledger, bank: nat, claimed: seq<Record>, pool: Id)
    requires ForgotAfterClaims(a, b, claimed, pool) && Forget(Strand(b, bank), pool) == Forget(b, pool)
    ensures ForgotAfterClaims(a, Strand(b, bank), claimed, pool)
  {
    forall id | WaitsIn(Strand(b, bank), id) ensures WaitsIn(a, id) {
      assert WaitsIn(b, id);
    }
  }

  datatype Op =
    | Allocate(pool: Id, layouts: seq<Id>)
    | ClaimSets(pool: Id, layouts: seq<Id>)
    | Reset(pool: Id, vkResult: int)
    | Destroy(pool: Id)

  // Of the sets that existed before, the client can only receive those that
  // were waiting in a bank then.
  ghost predicate OnlyWaitingSurvive(before: Ledger, after: Ledger, received: seq<Id>) {
    && before.issued <= after.issued
    && (forall id :: id in before.issued && id in received ==> id in before.places && before.places[id].Waiting?)
    && (forall id :: id in before.issued && id in after.places && after.places[id].Waiting? ==>
          id in before.places && before.places[id].Waiting?)
  }

  lemma GrowKeepsPlaces(l: Ledger, pool: Id, returned: seq<Id>, surplus: seq<Id>, bank: Option<nat>)
    requires FreshSets(l.issued, returned + surplus)
    ensures OnlyWaitingSurvive(l, Grow(l, pool, returned, surplus, bank), returned)
  {
    SplitFresh(l.issued, returned, surplus);
  }

  lemma TakeSurvives(l: Ledger, claimed: seq<Record>)
    requires forall i :: 0 <= i < |claimed| ==> WaitsIn(l, claimed[i].setId)
    ensures OnlyWaitingSurvive(l, Take(l, SetIds(claimed)), SetIds(claimed))
  {
    forall id | id in SetIds(claimed) ensures WaitsIn(l, id) {
      var i :| 0 <= i < |claimed| && claimed[i].setId == id;
    }
  }

  lemma GrewSurvives(a: Ledger, b: Ledger, claimed: seq<Record>, pool: Id, returned: seq<Id>, surplus: seq<Id>, bank: Option<nat>)
    requires GrewAfterClaims(a, b, claimed, pool, returned, surplus, bank) && FreshSets(a.issued, returned + surplus)
    ensures b.delivered == a.delivered + (SetIds(claimed) + returned)
    ensures OnlyWaitingSurvive(a, b, SetIds(claimed) + returned)
  {
    TakeSurvives(a, claimed);
    GrowKeepsPlaces(Take(a, SetIds(claimed)), pool, returned, surplus, bank);
  }

  // Whatever the client and the native context do, no set is delivered twice, and each is delivered
  // as a set of the layout it was made for.
  method Run(ops: seq<Op>) returns (received: seq<Record>, ghost layoutOf: map<Id, Id>)
    requires forall i :: 0 <= i < |ops| && ops[i].Reset? ==> ops[i].pool != 0
    ensures Distinct(SetIds(received))
    ensures MadeFor(received, layoutOf)
  {
    var service := new LeaseService();
    received := service.Serve(ops);
    layoutOf := service.layoutOf;
    assert service.ledger.delivered == [] + SetIds(received) == SetIds(received);
  }

  // Sets a pool owned when it was reset never reach the client afterwards; while the reset is under
  // way only those can that were waiting in a bank.
  method RunAcrossReset(before: seq<Op>, pool: Id, after: seq<Op>)
    returns (owned: set<Id>, ghost waiting: set<Id>, early: seq<Record>, during: seq<Record>, late: seq<Record>)
    requires forall i :: 0 <= i < |before| && before[i].Reset? ==> before[i].pool != 0
    requires forall i :: 0 <= i < |after| && after[i].Reset? ==> after[i].pool != 0
    requires pool != 0
    ensures Distinct(SetIds(early) + SetIds(during) + SetIds(late))
    ensures forall id :: id in owned ==> id !in SetIds(late)
    ensures forall id :: id in SetIds(during) ==> id in waiting
  {
    var service := new LeaseService();
    early := service.Serve(before);
    owned := set id | id in service.live && service.live[id] == pool;
    waiting := set id | id in service.ledger.places && WaitsIn(service.ledger, id);
    during, late := service.ResetThenServe(pool, after);
    assert service.ledger.delivered == SetIds(early) + SetIds(during) + SetIds(late);
    assert Distinct(service.ledger.delivered);
  }

  // Exactly one place is in use.
  predicate OnlyPlan(plans: seq<Plan>, banks: seq<Bank>, slot: nat, p: Plan) {
    && slot < |plans| == |banks| && plans[slot] == p && p.poolId != 0
    && forall i :: 0 <= i < |plans| && i != slot ==> plans[i] == NO_PLAN && banks[i] == NO_BANK
  }

  lemma FirstRequestStartsPlan(pool: Id, layouts: seq<Id>, plans: seq<Plan>, banks: seq<Bank>, plans': seq<Plan>, banks': seq<Bank>,
    slot: nat, made: seq<Call>, published: bool)
    requires pool != 0 && 0 < |layouts| <= MAX_SETS_PER_ALLOCATE / 2 && 0 < |plans| == |banks| == |banks'|
    requires forall i :: 0 <= i < |plans| ==> plans[i] == NO_PLAN && banks[i] == NO_BANK
    requires Planned(pool, layouts, plans, banks, plans', banks', slot, made, published)
    ensures made[0].size == |layouts| && slot < |plans|
    ensures OnlyPlan(plans', banks', slot, Prepared(Started(NO_PLAN, pool, layouts), NO_BANK))
  {
    assert plans[0].poolId == 0;
    ThirdRequestIsBatched(pool, layouts, NO_BANK);
  }

  lemma NextRequestFindsPlan(pool: Id, layouts: seq<Id>, plans: seq<Plan>, banks: seq<Bank>, plans': seq<Plan>, banks': seq<Bank>,
    at: nat, p: Plan, slot: nat, made: seq<Call>, published: bool)
    requires OnlyPlan(plans, banks, at, p) && PlanMatches(p, pool, layouts) && layouts != [] && |layouts| <= MAX_SETS_PER_ALLOCATE
    requires Planned(pool, layouts, plans, banks, plans', banks', slot, made, published)
    ensures slot == at && made[0].size == FirstSize(p, banks[at])
    ensures var q := Prepared(p, banks[at]);
      OnlyPlan(plans', banks', at, if made[0].size <= |layouts| then q else Settled(q, made[|made| - 1], published))
  {
    assert PlanMatches(plans[at], pool, layouts);
  }

  // The bank of a two-repetition batch serves one more request of the same layouts, with the second half.
  lemma SecondHalfServes(p: Plan, b: Bank, ids: seq<Id>)
    requires p.signature != [] && |ids| == 2 * |p.signature| && 0 !in ids
    ensures var bank := Filled(p, b, Call(|ids|, Answered(VK_SUCCESS, ids)), true);
      && Serves(bank, p.poolId, p.signature)
      && SetIds(NextSets(bank, |p.signature|)) == ids[|p.signature|..]
  {
    var n := |p.signature|;
    var bank := Filled(p, b, Call(|ids|, Answered(VK_SUCCESS, ids)), true);
    RepeatedTwice(p.signature);
    var batch := p.signature + p.signature;
    assert bank.records == Paired(batch, ids)[n..];
    assert forall i :: 0 <= i < n ==> bank.records[i] == Record(batch[n + i], ids[n + i]);
  }

  lemma RepeatedTwice(signature: seq<Id>)
    requires signature != []
    ensures Repeated(signature, 2 * |signature|) == signature + signature
  {
    assert Repeated(signature, |signature|) == signature;
  }

  lemma OnlyBankServes(banks: seq<Bank>, slot: nat, pool: Id, layouts: seq<Id>)
    requires slot < |banks| && Serves(banks[slot], pool, layouts)
    requires forall i :: 0 <= i < |banks| && i != slot ==> banks[i] == NO_BANK
    ensures FirstServing(banks, pool, layouts) == slot
  {
  }

  // The plan after two requests of its signature.
  ghost function Warm(pool: Id, layouts: seq<Id>): Plan {
    Plan(pool, 0, layouts, 2, 2, false, false)
  }

  lemma WarmPlanBatches(pool: Id, layouts: seq<Id>, b: Bank)
    requires pool != 0 && 0 < |layouts| <= MAX_SETS_PER_ALLOCATE / 2
    ensures var p := Warm(pool, layouts);
      FirstSize(p, b) == 2 * |layouts| && Prepared(p, b) == p
    ensures Prepared(Prepared(Started(NO_PLAN, pool, layouts), NO_BANK), b) == Warm(pool, layouts)
    ensures FirstSize(Prepared(Started(NO_PLAN, pool, layouts), NO_BANK), b) == |layouts|
  {
    ThirdRequestIsBatched(pool, layouts, b);
    ThirdRequestIsBatched(pool, layouts, NO_BANK);
  }

  method TwoRequests(pool: Id, layouts: seq<Id>) returns (service: LeaseService, first: Outcome, second: Outcome, ghost at: nat)
    requires pool != 0 && 0 < |layouts| <= MAX_SETS_PER_ALLOCATE / 2
    ensures fresh(service) && fresh(service.banks) && fresh(service.plans) && service.Valid()
    ensures service.calls == [Call(|layouts|, first), Call(|layouts|, second)]
    ensures OnlyPlan(service.plans[..], service.banks[..], at, Warm(pool, layouts))
  {
    service := new LeaseService();
    ghost var p := Prepared(Started(NO_PLAN, pool, layouts), NO_BANK);
    ghost var plans, banks := service.plans[..], service.banks[..];
    var claimed;
    ghost var surplus, bank, slot, made;
    first, claimed, surplus, bank, slot, made := service.AllocateLiveBatch(pool, layouts);
    FirstRequestStartsPlan(pool, layouts, plans, banks, service.plans[..], service.banks[..], slot, made, bank.Some?);
    at, plans, banks := slot, service.plans[..], service.banks[..];
    assert service.calls == [Call(|layouts|, first)];
    WarmPlanBatches(pool, layouts, banks[at]);
    second, claimed, surplus, bank, slot, made := service.AllocateLiveBatch(pool, layouts);
    NextRequestFindsPlan(pool, layouts, plans, banks, service.plans[..], service.banks[..], at, p, slot, made, bank.Some?);
  }

  // What batching is for: from a fresh service the third request of one signature asks for twice its
  // sets, and when it gets them the next claim of that signature takes the second half.
  method ThirdRequestFillsBank(pool: Id, layouts: seq<Id>)
    returns (first: Outcome, second: Outcome, third: Outcome, calls: seq<Call>, status: int, ids: seq<Id>)
    requires pool != 0 && 0 < |layouts| <= MAX_SETS_PER_ALLOCATE / 2 && 0 !in layouts
    ensures |calls| >= 3 && calls[..2] == [Call(|layouts|, first), Call(|layouts|, second)] && calls[2].size == 2 * |layouts|
    ensures Succeeded(calls[2].answer) ==>
      && |calls| == 3 && |calls[2].answer.ids| == 2 * |layouts|
      && third == Answered(VK_SUCCESS, calls[2].answer.ids[..|layouts|])
      && status == 0 && ids == calls[2].answer.ids[|layouts|..]
  {
    var service;
    ghost var at;
    service, first, second, at := TwoRequests(pool, layouts);
    ghost var made;
    third, made := ThirdRequest(service, pool, layouts, at);
    calls := service.calls;
    ghost var filled := service.banks[..];
    var epoch;
    status, ids, epoch := service.Claim(pool, layouts);
    if Succeeded(calls[2].answer) {
      SecondHalfServes(Warm(pool, layouts), NO_BANK, calls[2].answer.ids);
      OnlyBankServes(filled, at, pool, layouts);
    }
  }

  method ThirdRequest(service: LeaseService, pool: Id, layouts: seq<Id>, ghost at: nat) returns (third: Outcome, ghost made: seq<Call>)
    requires pool != 0 && 0 < |layouts| <= MAX_SETS_PER_ALLOCATE / 2 && 0 !in layouts
    requires service.Valid() && OnlyPlan(service.plans[..], service.banks[..], at, Warm(pool, layouts))
    modifies service, service.banks, service.plans
    ensures service.Valid() && service.calls == old(service.calls) + made
    ensures made != [] && made[0].size == 2 * |layouts|
    ensures Succeeded(made[0].answer) ==> HalvesShared(pool, layouts, third, made, service.banks[..], at)
  {
    ghost var plans, banks := service.plans[..], service.banks[..];
    var claimed;
    ghost var surplus, bank, slot;
    third, claimed, surplus, bank, slot, made := service.AllocateLiveBatch(pool, layouts);
    ThirdPlanned(pool, layouts, plans, banks, service.plans[..], service.banks[..], at, slot, made, third, surplus, bank);
  }

  // One native call got twice the sets; the first half is the reply and the second fills the only bank.
  ghost predicate HalvesShared(pool: Id, layouts: seq<Id>, reply: Outcome, made: seq<Call>, banks: seq<Bank>, at: nat) {
    && |made| == 1 && made[0].answer.Answered?
    && var ids := made[0].answer.ids;
      && made == [Call(|ids|, Answered(VK_SUCCESS, ids))]
      && |ids| == 2 * |layouts| && 0 !in ids && reply == Answered(VK_SUCCESS, ids[..|layouts|])
      && at < |banks| && banks[at] == Filled(Warm(pool, layouts), NO_BANK, made[0], true)
      && forall i :: 0 <= i < |banks| && i != at ==> banks[i] == NO_BANK
  }

  lemma ThirdPlanned(pool: Id, layouts: seq<Id>, plans: seq<Plan>, banks: seq<Bank>, plans': seq<Plan>, banks': seq<Bank>,
    at: nat, slot: nat, made: seq<Call>, reply: Outcome, surplus: seq<Id>, bank: Option<nat>)
    requires pool != 0 && 0 < |layouts| <= MAX_SETS_PER_ALLOCATE / 2 && 0 !in layouts
    requires OnlyPlan(plans, banks, at, Warm(pool, layouts))
    requires Planned(pool, layouts, plans, banks, plans', banks', slot, made, bank.Some?)
    requires made[0].size == |layouts| || Attempts(made, |layouts|, reply, surplus)
    requires surplus != [] ==> slot < |plans| && bank == if plans[slot].epoch < U64_MAX && 0 !in layouts then Some(slot) else None
    ensures made[0].size == 2 * |layouts|
    ensures Succeeded(made[0].answer) ==> HalvesShared(pool, layouts, reply, made, banks', at)
  {
    WarmPlanBatches(pool, layouts, banks[at]);
    NextRequestFindsPlan(pool, layouts, plans, banks, plans', banks', at, Warm(pool, layouts), slot, made, bank.Some?);
    if Succeeded(made[0].answer) {
      assert !OutOfRoom(made[0].answer);
      assert |made| == 1;
      assert |surplus| == |layouts|;
    }
  }

  // A set whose pool still lives is with the client, or waits at exactly one
  // position of one bank, or was stranded: never two of these, never none.
  lemma SetIsInOnePlace(banks: seq<Bank>, l: Ledger, id: Id)
    requires LedgerOk(banks, l) && id in l.obtained
    ensures id in l.delivered ==> l.places[id] != Stranded && !exists b, k :: WaitsAt(banks, id, b, k)
    ensures id !in l.delivered && l.places[id] != Stranded ==> exists b, k :: WaitsAt(banks, id, b, k)
    ensures l.places[id] == Stranded ==> !exists b, k :: WaitsAt(banks, id, b, k)
    ensures forall b, k, c, j :: WaitsAt(banks, id, b, k) && WaitsAt(banks, id, c, j) ==> b == c && k == j
  {
    if l.places[id].Waiting? {
      assert WaitsAt(banks, id, l.places[id].bank, l.places[id].index);
    }
  }

  predicate WaitsAt(banks: seq<Bank>, id: Id, b: int, k: int) {
    IsWaiting(banks, b, k) && banks[b].records[k].setId == id
  }

  // A set waiting in a bank carries the layout its plan's signature has at that position.
  lemma LeaseLayout(p: Plan, b: Bank, k: nat)
    requires Coupled(p, b) && b.ready && k < |b.records|
    ensures b.records[k].layoutId == p.signature[k % |p.signature|]
  {
    RepeatedAt(p.signature, |b.records|, k);
    assert LayoutsOf(b.records)[k] == b.records[k].layoutId;
  }

  lemma LayoutsNonzero(layouts: seq<Id>, leases: seq<Record>)
    requires 0 < |layouts| <= |leases| && LayoutsOf(leases) == Repeated(layouts, |leases|)
    ensures (forall k :: 0 <= k < |leases| ==> leases[k].layoutId != 0) <==> 0 !in layouts
  {
    if 0 !in layouts {
      RepeatedHasNoZero(layouts, |leases|);
      forall k | 0 <= k < |leases|
        ensures leases[k].layoutId != 0
      {
        assert LayoutsOf(leases)[k] in Repeated(layouts, |leases|);
      }
    } else {
      var i :| 0 <= i < |layouts| && layouts[i] == 0;
      assert LayoutsOf(leases)[i] == layouts[i];
    }
  }

  lemma GrowNothing(l: Ledger, pool: Id, bank: Option<nat>)
    requires l.obtained.Keys == l.places.Keys
    ensures Grow(l, pool, [], [], bank) == l
  {
    assert l.delivered + [] == l.delivered;
    assert l.issued + SetOf([]) + SetOf([]) == l.issued;
    assert Grow(l, pool, [], [], bank).obtained == l.obtained;
    assert Grow(l, pool, [], [], bank).places == l.places;
  }

  lemma TakeNothing(l: Ledger)
    ensures Take(l, []) == l
  {
    assert l.delivered + [] == l.delivered;
  }
}
