/**
 * The counting allocator: eight shared counters, updated by one atomic operation at a time around
 * every allocation, reallocation and deallocation.
 *
 * `CountingAllocator` is the recorder as each thread runs it. `Step` interleaves the atomic
 * operations of any number of threads over any number of blocks; a block has at most one call in
 * progress, because the allocator's contract gives its caller sole ownership.
 */
module AllocationCounters {
  import opened Basics

  datatype Counters = Counters(
    allocCalls: nat, reallocCalls: nat, deallocCalls: nat,
    allocatedBytes: nat, reallocatedBytes: nat, deallocatedBytes: nat,
    live: nat, peak: nat)

  /** One atomic operation on the counters. A reallocation carries the size it replaces along. */
  datatype Atomic =
    | CountAlloc
    | CountRealloc
    | CountDealloc
    | AddAllocated(size: nat)
    | AddReallocated(size: nat, replaced: nat)
    | AddDeallocated(size: nat)
    | AddLive(size: nat)
    | SubLive(size: nat)
    | PublishPeak(seen: nat)

  function Apply(c: Counters, a: Atomic): Counters {
    match a
    case CountAlloc => c.(allocCalls := WrappingAdd(c.allocCalls, 1))
    case CountRealloc => c.(reallocCalls := WrappingAdd(c.reallocCalls, 1))
    case CountDealloc => c.(deallocCalls := WrappingAdd(c.deallocCalls, 1))
    case AddAllocated(n) => c.(allocatedBytes := WrappingAdd(c.allocatedBytes, n))
    case AddReallocated(n, _) => c.(reallocatedBytes := WrappingAdd(c.reallocatedBytes, n))
    case AddDeallocated(n) => c.(deallocatedBytes := WrappingAdd(c.deallocatedBytes, n))
    case AddLive(n) => c.(live := WrappingAdd(c.live, n))
    case SubLive(n) => c.(live := WrappingSub(c.live, n))
    case PublishPeak(seen) => c.(peak := Max(c.peak, seen))
  }

  /** What is left to do after the first operation: adding to the live bytes leaves the total it saw to publish. */
  function Rest(c: Counters, todo: seq<Atomic>): seq<Atomic>
    requires todo != []
  {
    (match todo[0]
     case AddLive(n) => [PublishPeak(SaturatingAdd(c.live, n))]
     case _ => []) + todo[1..]
  }

  function AllocProgram(size: nat): seq<Atomic> {
    [CountAlloc, AddAllocated(size), AddLive(size)]
  }

  function DeallocProgram(size: nat): seq<Atomic> {
    [CountDealloc, AddDeallocated(size), SubLive(size)]
  }

  function ReallocProgram(oldSize: nat, newSize: nat): seq<Atomic> {
    [CountRealloc, AddReallocated(newSize, oldSize),
     if newSize >= oldSize then AddLive(newSize - oldSize) else SubLive(oldSize - newSize)]
  }

  // ----- One thread by itself

  function Additions(todo: seq<Atomic>): nat {
    if todo == [] then 0 else (if todo[0].AddLive? then 1 else 0) + Additions(todo[1..])
  }

  lemma AdditionsConcat(a: seq<Atomic>, b: seq<Atomic>)
    ensures Additions(a + b) == Additions(a) + Additions(b)
  {
    if a == [] {
      assert a + b == b;
    } else {
      assert (a + b)[1..] == a[1..] + b;
    }
  }

  lemma RestIsShorter(c: Counters, todo: seq<Atomic>)
    requires todo != []
    ensures |Rest(c, todo)| + Additions(Rest(c, todo)) < |todo| + Additions(todo)
  {
    if todo[0].AddLive? {
      var publish := [PublishPeak(SaturatingAdd(c.live, todo[0].size))];
      AdditionsConcat(publish, todo[1..]);
      assert publish[1..] == [];
    } else {
      assert Rest(c, todo) == todo[1..];
    }
  }

  /** The counters after a thread ran its operations without interruption. */
  function RunAlone(c: Counters, todo: seq<Atomic>): Counters
    decreases |todo| + Additions(todo)
  {
    if todo == [] then c else
      RestIsShorter(c, todo);
      RunAlone(Apply(c, todo[0]), Rest(c, todo))
  }

  lemma RunAloneLast(c: Counters, a: Atomic)
    ensures RunAlone(c, [a]) ==
            if a.AddLive? then Apply(Apply(c, a), PublishPeak(SaturatingAdd(c.live, a.size))) else Apply(c, a)
  {
    assert [a][1..] == [];
    if a.AddLive? {
      var publish := PublishPeak(SaturatingAdd(c.live, a.size));
      assert Rest(c, [a]) == [publish];
      assert [publish][1..] == [];
      assert Rest(Apply(c, a), [publish]) == [];
      assert RunAlone(Apply(Apply(c, a), publish), []) == Apply(Apply(c, a), publish);
    } else {
      assert Rest(c, [a]) == [];
    }
  }

  lemma RunAloneThree(c: Counters, a: Atomic, b: Atomic, last: Atomic)
    requires !a.AddLive? && !b.AddLive?
    ensures RunAlone(c, [a, b, last]) == RunAlone(Apply(Apply(c, a), b), [last])
  {
    assert Rest(c, [a, b, last]) == [b, last];
    assert Rest(Apply(c, a), [b, last]) == [last];
  }

  /** The peak after a total was reached, which saturates. */
  function HigherPeak(peak: nat, total: nat): nat {
    Max(peak, if total <= U64_MAX then total else U64_MAX)
  }

  class CountingAllocator {
    var allocCalls: nat
    var reallocCalls: nat
    var deallocCalls: nat
    var allocatedBytes: nat
    var reallocatedBytes: nat
    var deallocatedBytes: nat
    var liveBytes: nat
    var peakLiveBytes: nat

    constructor ()
      ensures Snapshot() == Counters(0, 0, 0, 0, 0, 0, 0, 0)
    {
      allocCalls, reallocCalls, deallocCalls := 0, 0, 0;
      allocatedBytes, reallocatedBytes, deallocatedBytes := 0, 0, 0;
      liveBytes, peakLiveBytes := 0, 0;
    }

    function Snapshot(): Counters
      reads this
    {
      Counters(allocCalls, reallocCalls, deallocCalls, allocatedBytes, reallocatedBytes, deallocatedBytes,
               liveBytes, peakLiveBytes)
    }

    method AddLiveBytes(size: nat)
      modifies this
      ensures Snapshot() == RunAlone(old(Snapshot()), [AddLive(size)])
      ensures Snapshot() == old(Snapshot()).(
                live := (old(liveBytes) + size) % 0x1_0000_0000_0000_0000,
                peak := HigherPeak(old(peakLiveBytes), old(liveBytes) + size))
    {
      RunAloneLast(Snapshot(), AddLive(size));
      var previous := liveBytes;
      liveBytes := WrappingAdd(liveBytes, size);
      var live := SaturatingAdd(previous, size);
      peakLiveBytes := Max(peakLiveBytes, live);
    }

    method RecordAllocation(size: nat)
      modifies this
      ensures Snapshot() == RunAlone(old(Snapshot()), AllocProgram(size))
      ensures Snapshot() == old(Snapshot()).(
                allocCalls := (old(allocCalls) + 1) % 0x1_0000_0000_0000_0000,
                allocatedBytes := (old(allocatedBytes) + size) % 0x1_0000_0000_0000_0000,
                live := (old(liveBytes) + size) % 0x1_0000_0000_0000_0000,
                peak := HigherPeak(old(peakLiveBytes), old(liveBytes) + size))
    {
      RunAloneThree(Snapshot(), CountAlloc, AddAllocated(size), AddLive(size));
      allocCalls := WrappingAdd(allocCalls, 1);
      allocatedBytes := WrappingAdd(allocatedBytes, size);
      AddLiveBytes(size);
    }

    method RecordDeallocation(size: nat)
      modifies this
      ensures Snapshot() == RunAlone(old(Snapshot()), DeallocProgram(size))
      ensures Snapshot() == old(Snapshot()).(
                deallocCalls := (old(deallocCalls) + 1) % 0x1_0000_0000_0000_0000,
                deallocatedBytes := (old(deallocatedBytes) + size) % 0x1_0000_0000_0000_0000,
                live := (old(liveBytes) - size) % 0x1_0000_0000_0000_0000)
    {
      RunAloneThree(Snapshot(), CountDealloc, AddDeallocated(size), SubLive(size));
      deallocCalls := WrappingAdd(deallocCalls, 1);
      deallocatedBytes := WrappingAdd(deallocatedBytes, size);
      RunAloneLast(Snapshot(), SubLive(size));
      liveBytes := WrappingSub(liveBytes, size);
    }

    method RecordReallocation(oldSize: nat, newSize: nat)
      modifies this
      ensures Snapshot() == RunAlone(old(Snapshot()), ReallocProgram(oldSize, newSize))
      ensures Snapshot() == old(Snapshot()).(
                reallocCalls := (old(reallocCalls) + 1) % 0x1_0000_0000_0000_0000,
                reallocatedBytes := (old(reallocatedBytes) + newSize) % 0x1_0000_0000_0000_0000,
                live := (old(liveBytes) + newSize - oldSize) % 0x1_0000_0000_0000_0000,
                peak := if newSize < oldSize then old(peakLiveBytes)
                        else HigherPeak(old(peakLiveBytes), old(liveBytes) + newSize - oldSize))
    {
      RunAloneThree(Snapshot(), CountRealloc, AddReallocated(newSize, oldSize), ReallocProgram(oldSize, newSize)[2]);
      reallocCalls := WrappingAdd(reallocCalls, 1);
      reallocatedBytes := WrappingAdd(reallocatedBytes, newSize);
      if newSize >= oldSize {
        AddLiveBytes(newSize - oldSize);
      } else {
        RunAloneLast(Snapshot(), SubLive(oldSize - newSize));
        liveBytes := WrappingSub(liveBytes, oldSize - newSize);
      }
    }
  }

  // ----- All threads, interleaved

  /** A block the system allocator handed out: its size, how much of it is in the live counter, whether its
      deallocation has begun, and what the call in progress on it still has to do. */
  datatype Block = Block(size: nat, accounted: nat, released: bool, todo: seq<Atomic>)

  /** Exact totals of what was counted so far, and what reallocations replaced. */
  datatype Totals = Totals(
    allocs: nat, reallocs: nat, deallocs: nat, obtained: nat, resized: nat, returned: nat, replaced: nat)

  /** `lives` records the accounted total after every step. */
  datatype State = State(counters: Counters, blocks: seq<Block>, totals: Totals, lives: seq<nat>)

  const INITIAL: State :=
    State(Counters(0, 0, 0, 0, 0, 0, 0, 0), [], Totals(0, 0, 0, 0, 0, 0, 0), [0])

  /** The system allocator has succeeded in the first two; a failed call records nothing. */
  datatype Event =
    | Alloc(size: nat)
    | Realloc(block: nat, newSize: nat)
    | Dealloc(block: nat)
    | Advance(block: nat)

  predicate Enabled(s: State, e: Event) {
    match e
    case Alloc(_) => true
    case Realloc(i, _) => i < |s.blocks| && !s.blocks[i].released && s.blocks[i].todo == []
    case Dealloc(i) => i < |s.blocks| && !s.blocks[i].released && s.blocks[i].todo == []
    case Advance(i) => i < |s.blocks| && s.blocks[i].todo != []
  }

  function Count(t: Totals, a: Atomic): Totals {
    match a
    case CountAlloc => t.(allocs := t.allocs + 1)
    case CountRealloc => t.(reallocs := t.reallocs + 1)
    case CountDealloc => t.(deallocs := t.deallocs + 1)
    case AddAllocated(n) => t.(obtained := t.obtained + n)
    case AddReallocated(n, replaced) => t.(resized := t.resized + n, replaced := t.replaced + replaced)
    case AddDeallocated(n) => t.(returned := t.returned + n)
    case _ => t
  }

  /** How an operation changes the accounted size of its block. */
  function LiveDelta(a: Atomic): int {
    match a
    case AddLive(n) => n
    case SubLive(n) => 0 - n
    case _ => 0
  }

  function Advanced(c: Counters, b: Block): Block
    requires b.todo != []
  {
    var accounted := b.accounted + LiveDelta(b.todo[0]);
    b.(accounted := if accounted >= 0 then accounted else 0, todo := Rest(c, b.todo))
  }

  function Accounted(b: Block): int {
    b.accounted
  }

  function AccountedTotal(blocks: seq<Block>): (total: nat)
  {
    SumByNonNegative(blocks, Accounted);
    SumBy(blocks, Accounted)
  }

  function Step(s: State, e: Event): State
    requires Enabled(s, e)
  {
    match e
    case Alloc(size) => s.(blocks := s.blocks + [Block(size, 0, false, AllocProgram(size))])
    case Realloc(i, newSize) =>
      var b := s.blocks[i];
      s.(blocks := s.blocks[i := b.(size := newSize, todo := ReallocProgram(b.size, newSize))])
    case Dealloc(i) =>
      var b := s.blocks[i];
      s.(blocks := s.blocks[i := b.(released := true, todo := DeallocProgram(b.size))])
    case Advance(i) =>
      var b := s.blocks[i];
      var blocks := s.blocks[i := Advanced(s.counters, b)];
      State(Apply(s.counters, b.todo[0]), blocks, Count(s.totals, b.todo[0]), s.lives + [AccountedTotal(blocks)])
  }

  /** The state after a run of events, if each was enabled in turn. */
  function Run(events: seq<Event>): Option<State> {
    if events == [] then Some(INITIAL) else
      match Run(events[..|events| - 1])
      case None => None
      case Some(s) => if Enabled(s, events[|events| - 1]) then Some(Step(s, events[|events| - 1])) else None
  }

  // ----- What every step keeps

  /** How an operation changes the byte totals, net of what a reallocation replaces. */
  function ByteDelta(a: Atomic): int {
    match a
    case AddAllocated(n) => n
    case AddReallocated(n, replaced) => n - replaced
    case AddDeallocated(n) => 0 - n
    case _ => 0
  }

  /** The live change that the call in progress still owes: it is always the last of its operations. */
  function Owed(b: Block): int {
    if b.todo == [] then 0 else LiveDelta(b.todo[|b.todo| - 1])
  }

  /** Bytes already in the byte totals and not yet in the live counter. */
  function Lead(b: Block): int {
    if |b.todo| == 1 then Owed(b) else 0
  }

  predicate ChangesLive(a: Atomic) {
    a.AddLive? || a.SubLive?
  }

  /** The size is accounted for, up to what the call in progress still owes; its byte count comes right before. */
  ghost predicate BlockInv(b: Block) {
    var n := |b.todo|;
    && n <= 3
    && b.accounted + Owed(b) == (if b.released then 0 else b.size)
    && (n >= 1 ==> ChangesLive(b.todo[n - 1]) || (n == 1 && b.todo[0].PublishPeak?))
    && (n >= 2 ==> ByteDelta(b.todo[n - 2]) == Owed(b))
    && (n == 3 ==> ByteDelta(b.todo[0]) == 0)
    && forall j | 0 <= j < n - 1 :: !ChangesLive(b.todo[j]) && !b.todo[j].PublishPeak?
  }

  ghost predicate CountersMatch(c: Counters, t: Totals, live: nat) {
    && c.allocCalls == t.allocs % U64_LIMIT
    && c.reallocCalls == t.reallocs % U64_LIMIT
    && c.deallocCalls == t.deallocs % U64_LIMIT
    && c.allocatedBytes == t.obtained % U64_LIMIT
    && c.reallocatedBytes == t.resized % U64_LIMIT
    && c.deallocatedBytes == t.returned % U64_LIMIT
    && c.live == live % U64_LIMIT
  }

  ghost predicate Inv(s: State) {
    && (forall i | 0 <= i < |s.blocks| :: BlockInv(s.blocks[i]))
    && CountersMatch(s.counters, s.totals, AccountedTotal(s.blocks))
    && s.totals.obtained + s.totals.resized
       == s.totals.returned + s.totals.replaced + AccountedTotal(s.blocks) + SumBy(s.blocks, Lead)
    && s.lives != [] && s.lives[|s.lives| - 1] == AccountedTotal(s.blocks)
  }

  lemma ModAdd(x: nat, n: nat)
    ensures WrappingAdd(x % U64_LIMIT, n) == (x + n) % U64_LIMIT
  {
  }

  lemma ModSub(x: nat, n: nat)
    requires n <= x
    ensures WrappingSub(x % U64_LIMIT, n) == (x - n) % U64_LIMIT
  {
  }

  lemma AdvancedKeepsBlock(c: Counters, b: Block)
    requires BlockInv(b) && b.todo != []
    ensures BlockInv(Advanced(c, b))
    ensures Advanced(c, b).accounted == b.accounted + LiveDelta(b.todo[0])
    ensures Lead(Advanced(c, b)) == Lead(b) + ByteDelta(b.todo[0]) - LiveDelta(b.todo[0])
  {
    var after := Advanced(c, b);
    if b.todo[0].AddLive? {
      assert b.todo[1..] == [];
      AddedTodo(b, after);
    } else {
      assert Rest(c, b.todo) == b.todo[1..];
      CoveredByAccounted(b);
      ShorterTodo(b, after);
    }
  }

  lemma AddedTodo(b: Block, after: Block)
    requires BlockInv(b) && b.todo != [] && b.todo[0].AddLive?
    requires |after.todo| == 1 && after.todo[0].PublishPeak?
    requires after.size == b.size && after.released == b.released
    requires after.accounted == b.accounted + LiveDelta(b.todo[0])
    ensures BlockInv(after) && Lead(after) == Lead(b) + ByteDelta(b.todo[0]) - LiveDelta(b.todo[0])
  {
  }

  lemma CoveredByAccounted(b: Block)
    requires BlockInv(b) && b.todo != []
    ensures b.accounted + LiveDelta(b.todo[0]) >= 0
  {
  }

  lemma ShorterTodo(b: Block, after: Block)
    requires BlockInv(b) && b.todo != [] && !b.todo[0].AddLive? && after.todo == b.todo[1..]
    requires after.size == b.size && after.released == b.released
    requires after.accounted == b.accounted + LiveDelta(b.todo[0])
    ensures BlockInv(after) && Lead(after) == Lead(b) + ByteDelta(b.todo[0]) - LiveDelta(b.todo[0])
  {
    if |b.todo| == 1 {
      assert after.todo == [];
    } else if |b.todo| == 2 {
      assert after.todo == [b.todo[1]];
    } else {
      assert after.todo == [b.todo[1], b.todo[2]];
    }
  }

  lemma ApplyMatchesCount(c: Counters, t: Totals, live: nat, a: Atomic)
    requires CountersMatch(c, t, live) && live + LiveDelta(a) >= 0
    ensures CountersMatch(Apply(c, a), Count(t, a), live + LiveDelta(a))
    ensures var u := Count(t, a);
            u.obtained + u.resized - u.returned - u.replaced
            == t.obtained + t.resized - t.returned - t.replaced + ByteDelta(a)
  {
    match a {
      case CountAlloc => ModAdd(t.allocs, 1);
      case CountRealloc => ModAdd(t.reallocs, 1);
      case CountDealloc => ModAdd(t.deallocs, 1);
      case AddAllocated(n) => ModAdd(t.obtained, n);
      case AddReallocated(n, _) => ModAdd(t.resized, n);
      case AddDeallocated(n) => ModAdd(t.returned, n);
      case AddLive(n) => ModAdd(live, n);
      case SubLive(n) => ModSub(live, n);
      case PublishPeak(_) =>
    }
  }

  lemma StepKeepsInv(s: State, e: Event)
    requires Inv(s) && Enabled(s, e)
    ensures Inv(Step(s, e))
  {
    match e {
      case Alloc(size) =>
        AllocKeepsInv(s, Block(size, 0, false, AllocProgram(size)));
      case Realloc(i, newSize) =>
        BeginKeepsInv(s, i, s.blocks[i].(size := newSize, todo := ReallocProgram(s.blocks[i].size, newSize)));
      case Dealloc(i) =>
        BeginKeepsInv(s, i, s.blocks[i].(released := true, todo := DeallocProgram(s.blocks[i].size)));
      case Advance(i) =>
        AdvanceKeepsInv(s, i);
    }
  }

  lemma AllocKeepsInv(s: State, b: Block)
    requires Inv(s) && BlockInv(b) && b == Block(b.size, 0, false, AllocProgram(b.size))
    ensures Inv(s.(blocks := s.blocks + [b]))
  {
    SumByAppend(s.blocks, b, Accounted);
    SumByAppend(s.blocks, b, Lead);
  }

  lemma BeginKeepsInv(s: State, i: nat, b: Block)
    requires Inv(s) && i < |s.blocks| && s.blocks[i].todo == []
    requires BlockInv(b) && |b.todo| == 3 && b.accounted == s.blocks[i].accounted
    ensures Inv(s.(blocks := s.blocks[i := b]))
  {
    SumByUpdate(s.blocks, i, b, Accounted);
    SumByUpdate(s.blocks, i, b, Lead);
  }

  lemma AdvanceTotals(s: State, i: nat)
    requires Inv(s) && Enabled(s, Advance(i))
    ensures var a := s.blocks[i].todo[0];
            var blocks := s.blocks[i := Advanced(s.counters, s.blocks[i])];
            && AccountedTotal(blocks) == AccountedTotal(s.blocks) + LiveDelta(a)
            && SumBy(blocks, Lead) == SumBy(s.blocks, Lead) + ByteDelta(a) - LiveDelta(a)
            && BlockInv(Advanced(s.counters, s.blocks[i]))
  {
    var c := Advanced(s.counters, s.blocks[i]);
    assert BlockInv(s.blocks[i]);
    AdvancedKeepsBlock(s.counters, s.blocks[i]);
    SumByUpdate(s.blocks, i, c, Accounted);
    SumByUpdate(s.blocks, i, c, Lead);
  }

  lemma AdvanceKeepsInv(s: State, i: nat)
    requires Inv(s) && Enabled(s, Advance(i))
    ensures Inv(Step(s, Advance(i)))
  {
    AdvanceTotals(s, i);
    ApplyMatchesCount(s.counters, s.totals, AccountedTotal(s.blocks), s.blocks[i].todo[0]);
  }

  lemma {:induction false} RunKeepsInv(events: seq<Event>)
    requires Run(events).Some?
    ensures Inv(Run(events).value)
  {
    if events != [] {
      var n := |events| - 1;
      RunKeepsInv(events[..n]);
      StepKeepsInv(Run(events[..n]).value, events[n]);
    }
  }

  /** In every interleaving the live counter is the accounted sizes of all blocks (modulo its width), and every block
      no call works on is accounted for in full. */
  lemma LiveBytesAreAccounted(events: seq<Event>)
    requires Run(events).Some?
    ensures var s := Run(events).value;
            && s.counters.live == AccountedTotal(s.blocks) % U64_LIMIT
            && (AccountedTotal(s.blocks) < U64_LIMIT ==> s.counters.live == AccountedTotal(s.blocks))
            && (forall i | 0 <= i < |s.blocks| && s.blocks[i].todo == [] ::
                  s.blocks[i].accounted == if s.blocks[i].released then 0 else s.blocks[i].size)
  {
    RunKeepsInv(events);
    LiveCounterIsTotal(Run(events).value);
    IdleBlocksAreAccounted(Run(events).value);
  }

  lemma LiveCounterIsTotal(s: State)
    requires Inv(s)
    ensures s.counters.live == AccountedTotal(s.blocks) % U64_LIMIT
    ensures AccountedTotal(s.blocks) < U64_LIMIT ==> s.counters.live == AccountedTotal(s.blocks)
  {
    SmallModulus(AccountedTotal(s.blocks));
  }

  lemma SmallModulus(n: nat)
    ensures n < U64_LIMIT ==> n % U64_LIMIT == n
  {
  }

  lemma IdleBlocksAreAccounted(s: State)
    requires Inv(s)
    ensures forall i | 0 <= i < |s.blocks| && s.blocks[i].todo == [] ::
              s.blocks[i].accounted == if s.blocks[i].released then 0 else s.blocks[i].size
  {
    forall i | 0 <= i < |s.blocks| && s.blocks[i].todo == []
      ensures s.blocks[i].accounted == if s.blocks[i].released then 0 else s.blocks[i].size
    {
      assert BlockInv(s.blocks[i]);
    }
  }

  /** No subtraction from the live counter takes more than is in it. */
  lemma SubtractionNeverUnderflows(events: seq<Event>, i: nat)
    requires Run(events).Some? && i < |Run(events).value.blocks|
    requires var b := Run(events).value.blocks[i]; b.todo != [] && b.todo[0].SubLive?
    ensures var s := Run(events).value;
            && s.blocks[i].todo[0].size <= s.blocks[i].accounted <= AccountedTotal(s.blocks)
            && (AccountedTotal(s.blocks) < U64_LIMIT ==>
                  Apply(s.counters, s.blocks[i].todo[0]).live == s.counters.live - s.blocks[i].todo[0].size)
  {
    RunKeepsInv(events);
    SubtractionIsCovered(Run(events).value, i);
  }

  lemma SubtractionIsCovered(s: State, i: nat)
    requires Inv(s) && i < |s.blocks| && s.blocks[i].todo != [] && s.blocks[i].todo[0].SubLive?
    ensures s.blocks[i].todo[0].size <= s.blocks[i].accounted <= AccountedTotal(s.blocks)
    ensures AccountedTotal(s.blocks) < U64_LIMIT ==>
              WrappingSub(s.counters.live, s.blocks[i].todo[0].size) == s.counters.live - s.blocks[i].todo[0].size
  {
    assert BlockInv(s.blocks[i]);
    SumByMember(s.blocks, i, Accounted);
  }

  ghost predicate Quiescent(s: State) {
    forall i | 0 <= i < |s.blocks| :: s.blocks[i].todo == []
  }

  /** With no call in progress, what was obtained and resized is what was returned, replaced and is still live,
      and the counters are these totals modulo their width. */
  lemma TotalsBalance(events: seq<Event>)
    requires Run(events).Some? && Quiescent(Run(events).value)
    ensures var s := Run(events).value;
            && s.totals.obtained + s.totals.resized
               == s.totals.returned + s.totals.replaced + AccountedTotal(s.blocks)
            && CountersMatch(s.counters, s.totals, AccountedTotal(s.blocks))
  {
    RunKeepsInv(events);
    SumByZero(Run(events).value.blocks, Lead);
  }

  // ----- The peak

  ghost predicate Pending(s: State, i: nat, seen: nat) {
    i < |s.blocks| && s.blocks[i].todo != [] && s.blocks[i].todo[0] == PublishPeak(seen)
  }

  /** The accounted total always fitted the counter. */
  ghost predicate NeverOverflowed(s: State) {
    forall l | l in s.lives :: l < U64_LIMIT
  }

  /** The total is below the peak or one about to be published. */
  ghost predicate IsCovered(s: State, l: nat) {
    l <= s.counters.peak || exists i, seen :: Pending(s, i, seen) && l <= seen
  }

  /** The peak and every total about to be published were live totals; every live total is below one of them. */
  ghost predicate PeakInv(s: State) {
    && s.counters.peak in s.lives
    && (forall i, seen | Pending(s, i, seen) :: seen in s.lives)
    && (forall l | l in s.lives :: IsCovered(s, l))
  }

  lemma StepKeepsPeak(s: State, e: Event)
    requires Inv(s) && PeakInv(s) && Enabled(s, e) && NeverOverflowed(Step(s, e))
    ensures PeakInv(Step(s, e))
  {
    var t := Step(s, e);
    match e {
      case Advance(i) =>
        AdvanceKeepsPeak(s, i);
      case Alloc(_) =>
        assert forall j, seen :: Pending(s, j, seen) <==> Pending(t, j, seen);
      case Realloc(i, _) =>
        assert forall j, seen :: Pending(s, j, seen) <==> Pending(t, j, seen);
      case Dealloc(i) =>
        assert forall j, seen :: Pending(s, j, seen) <==> Pending(t, j, seen);
    }
  }

  lemma AdvanceKeepsPeak(s: State, i: nat)
    requires Inv(s) && PeakInv(s) && Enabled(s, Advance(i)) && NeverOverflowed(Step(s, Advance(i)))
    ensures PeakInv(Step(s, Advance(i)))
  {
    var t := Step(s, Advance(i));
    OthersStayPending(s, i);
    OwnPending(s, i);
    assert AccountedTotal(t.blocks) == t.lives[|s.lives|];
    if s.blocks[i].todo[0].PublishPeak? {
      assert Pending(s, i, s.blocks[i].todo[0].seen);
    }
    forall l | l in t.lives
      ensures IsCovered(t, l)
    {
      AdvanceCovers(s, i, l);
    }
  }

  /** Every live total, the new one included, stays below the peak or a total about to be published. */
  lemma AdvanceCovers(s: State, i: nat, l: nat)
    requires Inv(s) && PeakInv(s) && Enabled(s, Advance(i)) && NeverOverflowed(Step(s, Advance(i)))
    requires l in Step(s, Advance(i)).lives
    ensures IsCovered(Step(s, Advance(i)), l)
  {
    var t := Step(s, Advance(i));
    if l in s.lives {
      StillCovered(s, i, l);
    } else {
      NewTotal(s, i);
      OwnPending(s, i);
      if s.blocks[i].todo[0].AddLive? {
        assert Pending(t, i, l);
      } else {
        StillCovered(s, i, s.lives[|s.lives| - 1]);
      }
    }
  }

  lemma NewTotal(s: State, i: nat)
    requires Inv(s) && Enabled(s, Advance(i))
    ensures var t := Step(s, Advance(i));
            && t.lives == s.lives + [AccountedTotal(t.blocks)]
            && (!s.blocks[i].todo[0].AddLive? ==> AccountedTotal(t.blocks) <= s.lives[|s.lives| - 1])
  {
    AdvanceTotals(s, i);
  }

  lemma StillCovered(s: State, i: nat, l: nat)
    requires PeakInv(s) && Enabled(s, Advance(i)) && l in s.lives
    ensures IsCovered(Step(s, Advance(i)), l)
  {
    OthersStayPending(s, i);
    PeakOnlyGrows(s.counters, s.blocks[i].todo[0]);
    CoverCarriesOver(s, Step(s, Advance(i)), i, l);
  }

  lemma CoverCarriesOver(s: State, t: State, i: nat, l: nat)
    requires IsCovered(s, l) && s.counters.peak <= t.counters.peak
    requires forall j: nat, seen: nat | Pending(s, j, seen) ::
               if j == i then seen <= t.counters.peak else Pending(t, j, seen)
    ensures IsCovered(t, l)
  {
    if l > s.counters.peak {
      var j, seen :| Pending(s, j, seen) && l <= seen;
    }
  }

  lemma PeakOnlyGrows(c: Counters, a: Atomic)
    ensures c.peak <= Apply(c, a).peak && (a.PublishPeak? ==> a.seen <= Apply(c, a).peak)
  {
  }

  lemma OthersStayPending(s: State, i: nat)
    requires Enabled(s, Advance(i))
    ensures forall j, seen | j != i :: Pending(s, j, seen) <==> Pending(Step(s, Advance(i)), j, seen)
  {
  }

  /** Adding leaves exactly the total it reached to publish; any other operation leaves nothing to publish. */
  lemma OwnPending(s: State, i: nat)
    requires Inv(s) && Enabled(s, Advance(i)) && NeverOverflowed(Step(s, Advance(i)))
    ensures var t := Step(s, Advance(i));
            forall seen :: Pending(t, i, seen) <==> s.blocks[i].todo[0].AddLive? && seen == AccountedTotal(t.blocks)
  {
    var t := Step(s, Advance(i));
    AdvanceTotals(s, i);
    assert AccountedTotal(t.blocks) in t.lives && BlockInv(s.blocks[i]);
    if !s.blocks[i].todo[0].AddLive? {
      assert t.blocks[i].todo == s.blocks[i].todo[1..];
      NoPublishNext(s.blocks[i]);
    }
  }

  lemma NoPublishNext(b: Block)
    requires BlockInv(b) && b.todo != [] && !b.todo[0].AddLive?
    ensures var rest := b.todo[1..]; rest == [] || !rest[0].PublishPeak?
  {
  }

  lemma {:induction false} RunKeepsPeak(events: seq<Event>)
    requires Run(events).Some? && NeverOverflowed(Run(events).value)
    ensures PeakInv(Run(events).value)
  {
    if events != [] {
      var n := |events| - 1;
      var s := Run(events[..n]).value;
      assert forall l | l in s.lives :: l in Run(events).value.lives;
      RunKeepsPeak(events[..n]);
      RunKeepsInv(events[..n]);
      StepKeepsPeak(s, events[n]);
    }
  }

  // ----- The counters and the calls that were made

  function Allocations(events: seq<Event>): nat {
    if events == [] then 0 else
      Allocations(events[..|events| - 1]) + if events[|events| - 1].Alloc? then 1 else 0
  }

  function Reallocations(events: seq<Event>): nat {
    if events == [] then 0 else
      Reallocations(events[..|events| - 1]) + if events[|events| - 1].Realloc? then 1 else 0
  }

  function Deallocations(events: seq<Event>): nat {
    if events == [] then 0 else
      Deallocations(events[..|events| - 1]) + if events[|events| - 1].Dealloc? then 1 else 0
  }

  function BytesAllocated(events: seq<Event>): nat {
    if events == [] then 0 else
      BytesAllocated(events[..|events| - 1]) +
      match events[|events| - 1] case Alloc(size) => size case _ => 0
  }

  function BytesReallocated(events: seq<Event>): nat {
    if events == [] then 0 else
      BytesReallocated(events[..|events| - 1]) +
      match events[|events| - 1] case Realloc(_, newSize) => newSize case _ => 0
  }

  /** The size of block i: that of the allocation that made it, or of its last reallocation. */
  function SizeOf(events: seq<Event>, i: nat): nat {
    if events == [] then 0 else
      var front := events[..|events| - 1];
      match events[|events| - 1]
      case Alloc(size) => if i == Allocations(front) then size else SizeOf(front, i)
      case Realloc(j, newSize) => if i == j then newSize else SizeOf(front, i)
      case _ => SizeOf(front, i)
  }

  function BytesDeallocated(events: seq<Event>): nat {
    if events == [] then 0 else
      var front := events[..|events| - 1];
      BytesDeallocated(front) + match events[|events| - 1] case Dealloc(i) => SizeOf(front, i) case _ => 0
  }

  /** The sizes that reallocations replaced. */
  function BytesReplaced(events: seq<Event>): nat {
    if events == [] then 0 else
      var front := events[..|events| - 1];
      BytesReplaced(front) + match events[|events| - 1] case Realloc(i, _) => SizeOf(front, i) case _ => 0
  }

  datatype Figure =
    | AllocCalls | ReallocCalls | DeallocCalls
    | AllocatedBytes | ReallocatedBytes | DeallocatedBytes | ReplacedBytes

  /** What the calls of a run amount to, begun ones included. */
  function Called(f: Figure, events: seq<Event>): nat {
    match f
    case AllocCalls => Allocations(events)
    case ReallocCalls => Reallocations(events)
    case DeallocCalls => Deallocations(events)
    case AllocatedBytes => BytesAllocated(events)
    case ReallocatedBytes => BytesReallocated(events)
    case DeallocatedBytes => BytesDeallocated(events)
    case ReplacedBytes => BytesReplaced(events)
  }

  function Counted(f: Figure, t: Totals): nat {
    match f
    case AllocCalls => t.allocs
    case ReallocCalls => t.reallocs
    case DeallocCalls => t.deallocs
    case AllocatedBytes => t.obtained
    case ReallocatedBytes => t.resized
    case DeallocatedBytes => t.returned
    case ReplacedBytes => t.replaced
  }

  function ToCount(f: Figure, a: Atomic): nat {
    match (f, a)
    case (AllocCalls, CountAlloc) => 1
    case (ReallocCalls, CountRealloc) => 1
    case (DeallocCalls, CountDealloc) => 1
    case (AllocatedBytes, AddAllocated(n)) => n
    case (ReallocatedBytes, AddReallocated(n, _)) => n
    case (DeallocatedBytes, AddDeallocated(n)) => n
    case (ReplacedBytes, AddReallocated(_, replaced)) => replaced
    case _ => 0
  }

  function StillToCount(f: Figure, todo: seq<Atomic>): nat {
    if todo == [] then 0 else ToCount(f, todo[0]) + StillToCount(f, todo[1..])
  }

  function PendingOf(f: Figure): Block -> int {
    (b: Block) => StillToCount(f, b.todo)
  }

  lemma OneProgram(f: Figure, a: Atomic, b: Atomic, c: Atomic)
    ensures StillToCount(f, [a, b, c]) == ToCount(f, a) + ToCount(f, b) + ToCount(f, c)
  {
    assert [a, b, c][1..] == [b, c] && [b, c][1..] == [c] && [c][1..] == [];
    assert StillToCount(f, [c]) == ToCount(f, c) + StillToCount(f, []);
    assert StillToCount(f, [b, c]) == ToCount(f, b) + StillToCount(f, [c]);
  }

  lemma CountedNext(f: Figure, c: Counters, t: Totals, todo: seq<Atomic>)
    requires todo != []
    ensures Counted(f, Count(t, todo[0])) + StillToCount(f, Rest(c, todo)) == Counted(f, t) + StillToCount(f, todo)
  {
    if todo[0].AddLive? {
      var publish := PublishPeak(SaturatingAdd(c.live, todo[0].size));
      assert Rest(c, todo)[1..] == todo[1..];
      assert ToCount(f, publish) == 0;
    } else {
      assert Rest(c, todo) == todo[1..];
    }
  }

  /** The figures so far, and what calls in progress still have to count, are those of the calls. */
  ghost predicate CountsCalls(f: Figure, s: State, events: seq<Event>) {
    Counted(f, s.totals) + SumBy(s.blocks, PendingOf(f)) == Called(f, events)
  }

  ghost predicate HasSizes(s: State, events: seq<Event>) {
    |s.blocks| == Allocations(events) && forall i | 0 <= i < |s.blocks| :: s.blocks[i].size == SizeOf(events, i)
  }

  lemma StepHasSizes(s: State, events: seq<Event>)
    requires events != [] && HasSizes(s, events[..|events| - 1]) && Enabled(s, events[|events| - 1])
    ensures HasSizes(Step(s, events[|events| - 1]), events)
  {
  }

  /** The size of the block that a call takes, as it is before the call. */
  function OldSize(front: seq<Event>, e: Event): nat {
    if e.Dealloc? || e.Realloc? then SizeOf(front, e.block) else 0
  }

  /** What one more event adds to a figure, given that size. */
  function CallAdds(f: Figure, e: Event, size: nat): nat {
    match (f, e)
    case (AllocCalls, Alloc(_)) => 1
    case (ReallocCalls, Realloc(_, _)) => 1
    case (DeallocCalls, Dealloc(_)) => 1
    case (AllocatedBytes, Alloc(n)) => n
    case (ReallocatedBytes, Realloc(_, n)) => n
    case (DeallocatedBytes, Dealloc(_)) => size
    case (ReplacedBytes, Realloc(_, _)) => size
    case _ => 0
  }

  lemma CalledStep(f: Figure, events: seq<Event>, front: seq<Event>, e: Event)
    requires events != [] && front == events[..|events| - 1] && e == events[|events| - 1]
    ensures Called(f, events) == Called(f, front) + CallAdds(f, e, OldSize(front, e))
  {
  }

  /** A call that begins has as much to count as its event adds. */
  lemma CallBegins(f: Figure, s: State, e: Event, size: nat)
    requires Enabled(s, e) && !e.Advance? && (e.Dealloc? || e.Realloc? ==> size == s.blocks[e.block].size)
    ensures SumBy(Step(s, e).blocks, PendingOf(f)) == SumBy(s.blocks, PendingOf(f)) + CallAdds(f, e, size)
  {
    match e {
      case Alloc(n) =>
        AllocAdds(f, n);
        SumByAppend(s.blocks, Block(n, 0, false, AllocProgram(n)), PendingOf(f));
      case Realloc(i, newSize) =>
        ReallocAdds(f, i, size, newSize);
        SumByUpdate(s.blocks, i, s.blocks[i].(size := newSize, todo := ReallocProgram(size, newSize)), PendingOf(f));
      case Dealloc(i) =>
        DeallocAdds(f, i, size);
        SumByUpdate(s.blocks, i, s.blocks[i].(released := true, todo := DeallocProgram(size)), PendingOf(f));
    }
  }

  lemma AllocAdds(f: Figure, size: nat)
    ensures StillToCount(f, AllocProgram(size)) == CallAdds(f, Alloc(size), 0)
  {
    OneProgram(f, CountAlloc, AddAllocated(size), AddLive(size));
  }

  lemma ReallocAdds(f: Figure, i: nat, oldSize: nat, newSize: nat)
    ensures StillToCount(f, ReallocProgram(oldSize, newSize)) == CallAdds(f, Realloc(i, newSize), oldSize)
  {
    OneProgram(f, CountRealloc, AddReallocated(newSize, oldSize), ReallocProgram(oldSize, newSize)[2]);
  }

  lemma DeallocAdds(f: Figure, i: nat, size: nat)
    ensures StillToCount(f, DeallocProgram(size)) == CallAdds(f, Dealloc(i), size)
  {
    OneProgram(f, CountDealloc, AddDeallocated(size), SubLive(size));
  }

  lemma StepCountsCalls(f: Figure, s: State, events: seq<Event>, front: seq<Event>, e: Event)
    requires events != [] && front == events[..|events| - 1] && e == events[|events| - 1]
    requires HasSizes(s, front) && CountsCalls(f, s, front) && Enabled(s, e)
    ensures CountsCalls(f, Step(s, e), events)
  {
    CalledStep(f, events, front, e);
    if e.Advance? {
      CountedNext(f, s.counters, s.totals, s.blocks[e.block].todo);
      SumByUpdate(s.blocks, e.block, Advanced(s.counters, s.blocks[e.block]), PendingOf(f));
    } else {
      CallBegins(f, s, e, OldSize(front, e));
    }
  }

  /** In every interleaving, each of these figures is that of the calls made so far, less what calls in progress still
      have to count. */
  lemma {:induction false} CallsAreCounted(f: Figure, events: seq<Event>)
    requires Run(events).Some?
    ensures HasSizes(Run(events).value, events) && CountsCalls(f, Run(events).value, events)
  {
    if events != [] {
      var n := |events| - 1;
      CallsAreCounted(f, events[..n]);
      StepHasSizes(Run(events[..n]).value, events);
      StepCountsCalls(f, Run(events[..n]).value, events, events[..n], events[n]);
    }
  }

  lemma NothingPending(f: Figure, s: State, events: seq<Event>)
    requires CountsCalls(f, s, events) && Quiescent(s)
    ensures Counted(f, s.totals) == Called(f, events)
  {
    SumByZero(s.blocks, PendingOf(f));
  }

  /** The sizes of those of the first n blocks that were not deallocated. */
  function LiveBytes(events: seq<Event>, n: nat): nat {
    if n == 0 then 0 else
      LiveBytes(events, n - 1) + if Dealloc(n - 1) in events then 0 else SizeOf(events, n - 1)
  }

  ghost predicate HasReleases(s: State, events: seq<Event>) {
    |s.blocks| == Allocations(events)
    && forall i | 0 <= i < |s.blocks| :: s.blocks[i].released <==> Dealloc(i) in events
  }

  lemma StepHasReleases(s: State, events: seq<Event>, front: seq<Event>, e: Event)
    requires events == front + [e] && HasReleases(s, front) && Enabled(s, e)
    requires forall i: nat | Dealloc(i) in front :: i < Allocations(front)
    ensures HasReleases(Step(s, e), events)
    ensures forall i: nat | Dealloc(i) in events :: i < Allocations(events)
  {
    assert events[..|events| - 1] == front;
    assert forall i: nat :: Dealloc(i) in events <==> Dealloc(i) in front || Dealloc(i) == e;
  }

  lemma {:induction false} ReleasesAreDeallocations(events: seq<Event>)
    requires Run(events).Some?
    ensures HasReleases(Run(events).value, events)
    ensures forall i: nat | Dealloc(i) in events :: i < Allocations(events)
  {
    if events != [] {
      var n := |events| - 1;
      ReleasesAreDeallocations(events[..n]);
      assert events == events[..n] + [events[n]];
      StepHasReleases(Run(events[..n]).value, events, events[..n], events[n]);
    }
  }

  lemma {:induction false} AccountedIsLive(s: State, events: seq<Event>, n: nat)
    requires n <= |s.blocks| && HasSizes(s, events) && HasReleases(s, events)
    requires forall i | 0 <= i < |s.blocks| ::
               s.blocks[i].accounted == if s.blocks[i].released then 0 else s.blocks[i].size
    ensures SumBy(s.blocks[..n], Accounted) == LiveBytes(events, n)
  {
    if n > 0 {
      assert s.blocks[..n][..n - 1] == s.blocks[..n - 1];
      AccountedIsLive(s, events, n - 1);
    }
  }

  lemma IdleTotalIsLive(events: seq<Event>)
    requires Run(events).Some? && Quiescent(Run(events).value)
    ensures AccountedTotal(Run(events).value.blocks) == LiveBytes(events, Allocations(events))
  {
    var s := Run(events).value;
    LiveBytesAreAccounted(events);
    CallsAreCounted(AllocCalls, events);
    ReleasesAreDeallocations(events);
    AccountedIsLive(s, events, |s.blocks|);
    assert s.blocks[..|s.blocks|] == s.blocks;
  }

  /** With no call in progress the live bytes are the sizes of the blocks that were allocated and not deallocated, and
      what was allocated and reallocated is what was deallocated, replaced and is live. */
  lemma LiveBytesAreCalls(events: seq<Event>)
    requires Run(events).Some? && Quiescent(Run(events).value)
    ensures Run(events).value.counters.live == LiveBytes(events, Allocations(events)) % 0x1_0000_0000_0000_0000
    ensures BytesAllocated(events) + BytesReallocated(events)
         == BytesDeallocated(events) + BytesReplaced(events) + LiveBytes(events, Allocations(events))
  {
    IdleTotalIsLive(events);
    LiveBytesAreAccounted(events);
    TotalsBalance(events);
    FigureIs(AllocatedBytes, events);
    FigureIs(ReallocatedBytes, events);
    FigureIs(DeallocatedBytes, events);
    FigureIs(ReplacedBytes, events);
  }

  /** With no call in progress the counters are the numbers of calls and their bytes, up to their width. */
  lemma CountersAreCalls(events: seq<Event>)
    requires Run(events).Some? && Quiescent(Run(events).value)
    ensures var c := Run(events).value.counters;
            && c.allocCalls == Allocations(events) % 0x1_0000_0000_0000_0000
            && c.reallocCalls == Reallocations(events) % 0x1_0000_0000_0000_0000
            && c.deallocCalls == Deallocations(events) % 0x1_0000_0000_0000_0000
            && c.allocatedBytes == BytesAllocated(events) % 0x1_0000_0000_0000_0000
            && c.reallocatedBytes == BytesReallocated(events) % 0x1_0000_0000_0000_0000
            && c.deallocatedBytes == BytesDeallocated(events) % 0x1_0000_0000_0000_0000
  {
    var s := Run(events).value;
    RunKeepsInv(events);
    FigureIs(AllocCalls, events);
    FigureIs(ReallocCalls, events);
    FigureIs(DeallocCalls, events);
    FigureIs(AllocatedBytes, events);
    FigureIs(ReallocatedBytes, events);
    FigureIs(DeallocatedBytes, events);
  }

  lemma FigureIs(f: Figure, events: seq<Event>)
    requires Run(events).Some? && Quiescent(Run(events).value)
    ensures Counted(f, Run(events).value.totals) == Called(f, events)
  {
    CallsAreCounted(f, events);
    NothingPending(f, Run(events).value, events);
  }

  /** As long as totals fit the counter: the live bytes are at most the peak or a total about to be published, the
      peak was once the live total, and with nothing about to be published it is the highest there ever was. */
  lemma PeakIsHighest(events: seq<Event>)
    requires Run(events).Some? && NeverOverflowed(Run(events).value)
    ensures var s := Run(events).value;
            && (s.counters.live <= s.counters.peak || exists i, seen :: Pending(s, i, seen) && s.counters.live <= seen)
            && s.counters.peak in s.lives
            && ((forall i, seen :: !Pending(s, i, seen)) ==> forall l | l in s.lives :: l <= s.counters.peak)
  {
    RunKeepsInv(events);
    RunKeepsPeak(events);
    LiveIsBelowPeak(Run(events).value);
  }

  lemma LiveIsBelowPeak(s: State)
    requires Inv(s) && PeakInv(s) && NeverOverflowed(s)
    ensures s.counters.live <= s.counters.peak || exists i, seen :: Pending(s, i, seen) && s.counters.live <= seen
  {
    assert s.lives[|s.lives| - 1] in s.lives;
  }
}
