/**
 * Admission of request bodies against a shared memory budget.
 *
 * `RequestMemoryBudget` and `RequestMemoryGuard` are the code as one thread runs it by itself.
 * `Step` interleaves the atomic operations of all guards with a sampler that changes the capacity.
 */
module RequestMemory {
  import opened Basics

  const REQUEST_MEMORY_MULTIPLIER: nat := 8

  /** There is room for a body of a guard that holds `held` bytes: eight times the body fits 64 bits, and what that adds to
      the guard, if anything, fits the capacity next to what is reserved. */
  predicate HasRoom(available: nat, reserved: nat, held: nat, body: nat) {
    8 * body <= U64_MAX && reserved <= available && (8 * body > held ==> reserved + 8 * body - held <= available)
  }

  class RequestMemoryBudget {
    var available: nat
    var reserved: nat

    constructor (available: nat)
      ensures this.available == available && reserved == 0
    {
      this.available := available;
      reserved := 0;
    }
  }

  class RequestMemoryGuard {
    const budget: RequestMemoryBudget
    var reserved: nat

    constructor (budget: RequestMemoryBudget)
      ensures this.budget == budget && reserved == 0
    {
      this.budget := budget;
      reserved := 0;
    }

    /** Nobody else interferes: the request is granted exactly when it fits, and refused without a trace. */
    method ReserveBodyBytes(bodyBytes: nat) returns (granted: bool)
      modifies this`reserved, budget`reserved
      ensures budget.available <= U64_MAX ==>
                (granted <==>
                 && 8 * bodyBytes <= U64_MAX && old(budget.reserved) <= budget.available
                 && (8 * bodyBytes > old(reserved) ==>
                       old(budget.reserved) + 8 * bodyBytes - old(reserved) <= budget.available))
      ensures reserved == if granted then Max(old(reserved), 8 * bodyBytes) else old(reserved)
      ensures budget.reserved - old(budget.reserved) == reserved - old(reserved)
      ensures granted ==> budget.reserved <= budget.available
    {
      if bodyBytes * REQUEST_MEMORY_MULTIPLIER > U64_MAX {
        return false;
      }
      var needed := bodyBytes * REQUEST_MEMORY_MULTIPLIER;
      var additional := SaturatingSub(needed, reserved);
      var current := budget.reserved;
      var total := CheckedAdd(current, additional);
      if total.None? || total.value > budget.available {
        return false;
      }
      budget.reserved := total.value;
      reserved := reserved + additional;
      granted := true;
    }

    method Drop()
      requires reserved <= budget.reserved <= U64_MAX
      modifies budget`reserved
      ensures budget.reserved == old(budget.reserved) - reserved
    {
      budget.reserved := WrappingSub(budget.reserved, reserved);
    }
  }

  // ----- All guards, interleaved

  /** How far a reservation has come. `current` is the value of `reserved` it goes by. */
  datatype Phase =
    | Idle
    | Asked(body: nat, additional: nat)
    | Loaded(body: nat, additional: nat, current: nat)
    | Approved(body: nat, additional: nat, current: nat)
    | Granted(body: nat, additional: nat)

  /** `largest` is the largest body granted so far. */
  datatype Guard = Guard(held: nat, largest: nat, dropped: bool, phase: Phase)

  /** `capacity` is the largest capacity there ever was; `shrank` says whether it was ever lowered. */
  datatype State = State(available: nat, reserved: nat, guards: seq<Guard>, capacity: nat, shrank: bool)

  datatype Event =
    | NewGuard
    | Ask(guard: nat, body: nat)
    | LoadReserved(guard: nat)
    | CheckAvailable(guard: nat)
    | CompareExchange(guard: nat, spurious: bool)
    | Settle(guard: nat)
    | Drop(guard: nat)
    | SetAvailable(available: nat)

  predicate Enabled(s: State, e: Event) {
    match e
    case NewGuard => true
    case Ask(i, _) => i < |s.guards| && s.guards[i].phase.Idle? && !s.guards[i].dropped
    case LoadReserved(i) => i < |s.guards| && s.guards[i].phase.Asked?
    case CheckAvailable(i) => i < |s.guards| && s.guards[i].phase.Loaded?
    case CompareExchange(i, _) => i < |s.guards| && s.guards[i].phase.Approved?
    case Settle(i) => i < |s.guards| && s.guards[i].phase.Granted?
    case Drop(i) => i < |s.guards| && s.guards[i].phase.Idle? && !s.guards[i].dropped
    case SetAvailable(v) => v <= U64_MAX
  }

  function InPhase(s: State, i: nat, phase: Phase): State
    requires i < |s.guards|
  {
    s.(guards := s.guards[i := s.guards[i].(phase := phase)])
  }

  function Step(s: State, e: Event): State
    requires Enabled(s, e)
  {
    match e
    case NewGuard => s.(guards := s.guards + [Guard(0, 0, false, Idle)])
    case Ask(i, body) =>
      var needed := body * REQUEST_MEMORY_MULTIPLIER;
      if needed > U64_MAX then s
      else InPhase(s, i, Asked(body, SaturatingSub(needed, s.guards[i].held)))
    case LoadReserved(i) =>
      var p := s.guards[i].phase;
      InPhase(s, i, Loaded(p.body, p.additional, s.reserved))
    case CheckAvailable(i) =>
      var p := s.guards[i].phase;
      var total := CheckedAdd(p.current, p.additional);
      if total.Some? && total.value <= s.available then InPhase(s, i, Approved(p.body, p.additional, p.current))
      else InPhase(s, i, Idle)
    case CompareExchange(i, spurious) =>
      var p := s.guards[i].phase;
      if !spurious && s.reserved == p.current then
        InPhase(s, i, Granted(p.body, p.additional)).(reserved := p.current + p.additional)
      else InPhase(s, i, Loaded(p.body, p.additional, s.reserved))
    case Settle(i) =>
      var g := s.guards[i];
      var settled := g.(held := g.held + g.phase.additional, largest := Max(g.largest, g.phase.body), phase := Idle);
      s.(guards := s.guards[i := settled])
    case Drop(i) =>
      var g := s.guards[i];
      s.(guards := s.guards[i := g.(held := 0, dropped := true)], reserved := WrappingSub(s.reserved, g.held))
    case SetAvailable(v) =>
      s.(available := v, capacity := Max(s.capacity, v), shrank := s.shrank || v < s.available)
  }

  function Start(available: nat): State {
    State(available, 0, [], available, false)
  }

  function Run(available: nat, events: seq<Event>): Option<State> {
    if events == [] then Some(Start(available)) else
      var n := |events| - 1;
      match Run(available, events[..n])
      case None => None
      case Some(s) => if Enabled(s, events[n]) then Some(Step(s, events[n])) else None
  }

  // ----- What every step keeps

  /** What a guard has in the shared counter: what it holds, and a grant it has not added to that yet. */
  function Weight(g: Guard): int {
    g.held + if g.phase.Granted? then g.phase.additional else 0
  }

  ghost predicate GuardInv(g: Guard, capacity: nat) {
    && (if g.dropped then g.held == 0 && g.phase.Idle? else g.held == REQUEST_MEMORY_MULTIPLIER * g.largest)
    && (!g.phase.Idle? ==>
          && g.phase.body * REQUEST_MEMORY_MULTIPLIER <= U64_MAX
          && g.phase.additional == SaturatingSub(g.phase.body * REQUEST_MEMORY_MULTIPLIER, g.held))
    && (g.phase.Approved? ==> g.phase.current + g.phase.additional <= capacity)
  }

  ghost predicate Inv(s: State) {
    && (forall i | 0 <= i < |s.guards| :: GuardInv(s.guards[i], s.capacity))
    && s.reserved == SumBy(s.guards, Weight)
    && s.reserved <= s.capacity <= U64_MAX && s.available <= s.capacity
    && (!s.shrank ==> s.available == s.capacity)
  }

  lemma StepKeepsInv(s: State, e: Event)
    requires Inv(s) && Enabled(s, e)
    ensures Inv(Step(s, e))
  {
    match e {
      case NewGuard =>
        SumByAppend(s.guards, Guard(0, 0, false, Idle), Weight);
      case SetAvailable(_) =>
      case Ask(i, _) =>
        GuardStepKeepsInv(s, e, i);
      case LoadReserved(i) =>
        GuardStepKeepsInv(s, e, i);
      case CheckAvailable(i) =>
        GuardStepKeepsInv(s, e, i);
      case CompareExchange(i, _) =>
        GuardStepKeepsInv(s, e, i);
      case Settle(i) =>
        GuardStepKeepsInv(s, e, i);
      case Drop(i) =>
        GuardStepKeepsInv(s, e, i);
    }
  }

  lemma GuardStepKeepsInv(s: State, e: Event, i: nat)
    requires Inv(s) && Enabled(s, e) && !e.NewGuard? && !e.SetAvailable? && i == e.guard
    ensures Inv(Step(s, e))
  {
    var g := Step(s, e).guards[i];
    WeightChanges(s, i, g);
    GuardStep(s, e, i);
  }

  /** The total follows the weight of one guard, which is part of it. */
  lemma WeightChanges(s: State, i: nat, g: Guard)
    requires i < |s.guards|
    ensures SumBy(s.guards[i := g], Weight) == SumBy(s.guards, Weight) - Weight(s.guards[i]) + Weight(g)
    ensures 0 <= Weight(s.guards[i]) <= SumBy(s.guards, Weight)
  {
    SumByUpdate(s.guards, i, g, Weight);
    SumByMember(s.guards, i, Weight);
  }

  /** A step of one guard keeps what is known of it and changes the counter by its weight. */
  lemma GuardStep(s: State, e: Event, i: nat)
    requires Inv(s) && Enabled(s, e) && !e.NewGuard? && !e.SetAvailable? && i == e.guard
    requires Weight(s.guards[i]) <= s.reserved
    ensures var t := Step(s, e);
            && t == s.(guards := s.guards[i := t.guards[i]], reserved := t.reserved)
            && GuardInv(t.guards[i], s.capacity)
            && t.reserved == s.reserved - Weight(s.guards[i]) + Weight(t.guards[i])
            && t.reserved <= s.capacity
  {
    assert GuardInv(s.guards[i], s.capacity);
  }

  lemma {:induction false} RunKeepsInv(available: nat, events: seq<Event>)
    requires available <= U64_MAX && Run(available, events).Some?
    ensures Inv(Run(available, events).value)
  {
    if events != [] {
      var n := |events| - 1;
      RunKeepsInv(available, events[..n]);
      StepKeepsInv(Run(available, events[..n]).value, events[n]);
    }
  }

  /** In every interleaving the shared counter is what the guards hold plus grants in flight, and it never exceeds the
      largest capacity there was, nor the present one if capacity was never lowered. */
  lemma BudgetIsConserved(available: nat, events: seq<Event>)
    requires available <= U64_MAX && Run(available, events).Some?
    ensures var s := Run(available, events).value;
            && s.reserved == SumBy(s.guards, Weight)
            && s.reserved <= s.capacity
            && (!s.shrank ==> s.reserved <= s.available)
  {
    RunKeepsInv(available, events);
  }

  /** Releasing a guard never takes more than the counter has. */
  lemma DropNeverUnderflows(available: nat, events: seq<Event>, i: nat)
    requires available <= U64_MAX && Run(available, events).Some?
    requires Enabled(Run(available, events).value, Drop(i))
    ensures var s := Run(available, events).value;
            s.guards[i].held <= s.reserved && Step(s, Drop(i)).reserved == s.reserved - s.guards[i].held
  {
    RunKeepsInv(available, events);
    DropTakesWhatIsThere(Run(available, events).value, i);
  }

  lemma DropTakesWhatIsThere(s: State, i: nat)
    requires Inv(s) && Enabled(s, Drop(i))
    ensures s.guards[i].held <= s.reserved && Step(s, Drop(i)).reserved == s.reserved - s.guards[i].held
  {
    WeightChanges(s, i, s.guards[i]);
  }

  /** Once every guard is gone, nothing is reserved. */
  lemma NothingLeaks(available: nat, events: seq<Event>)
    requires available <= U64_MAX && Run(available, events).Some?
    requires forall i | 0 <= i < |Run(available, events).value.guards| :: Run(available, events).value.guards[i].dropped
    ensures Run(available, events).value.reserved == 0
  {
    RunKeepsInv(available, events);
    var s := Run(available, events).value;
    forall k | 0 <= k < |s.guards|
      ensures Weight(s.guards[k]) == 0
    {
      assert GuardInv(s.guards[k], s.capacity);
    }
    SumByZero(s.guards, Weight);
  }

  /** A live guard holds eight times the largest body it was granted. */
  lemma GuardHoldsItsLargestBody(available: nat, events: seq<Event>, i: nat)
    requires available <= U64_MAX && Run(available, events).Some?
    requires i < |Run(available, events).value.guards| && !Run(available, events).value.guards[i].dropped
    ensures var g := Run(available, events).value.guards[i];
            g.held == REQUEST_MEMORY_MULTIPLIER * g.largest
  {
    RunKeepsInv(available, events);
    assert GuardInv(Run(available, events).value.guards[i], Run(available, events).value.capacity);
  }

  // ----- What a refusal leaves behind, and what it means

  /** A run with the states it goes through. */
  ghost predicate IsRun(available: nat, events: seq<Event>, states: seq<State>) {
    && |states| == |events| + 1 && states[0] == Start(available)
    && forall m | 0 <= m < |events| :: Enabled(states[m], events[m]) && states[m + 1] == Step(states[m], events[m])
  }

  /** A run ends in the last of its states. */
  lemma {:induction false} RunEnds(available: nat, events: seq<Event>, states: seq<State>)
    requires IsRun(available, events, states)
    ensures Run(available, events) == Some(states[|events|])
  {
    if events != [] {
      RunEnds(available, events[..|events| - 1], states[..|events|]);
    }
  }

  /** Every run goes through some states. */
  lemma {:induction false} RunHasStates(available: nat, events: seq<Event>) returns (states: seq<State>)
    requires Run(available, events).Some?
    ensures IsRun(available, events, states)
  {
    states := [Start(available)];
    if events != [] {
      var n := |events| - 1;
      var earlier := RunHasStates(available, events[..n]);
      RunEnds(available, events[..n], earlier);
      states := earlier + [Step(earlier[n], events[n])];
    }
  }

  /** Guard i works on the body it asked for in step k, up to and including state n. */
  ghost predicate Busy(events: seq<Event>, states: seq<State>, i: nat, body: nat, k: nat, n: nat) {
    && k <= n < |states| && k < |events| && events[k] == Ask(i, body) && i < |states[k].guards|
    && forall m | k < m <= n :: i < |states[m].guards| && !states[m].guards[i].phase.Idle?
  }

  /** The body that guard i asked for in step k is refused in step n. */
  ghost predicate Refused(events: seq<Event>, states: seq<State>, i: nat, body: nat, k: nat, n: nat) {
    && Busy(events, states, i, body, k, n) && n < |events| && n + 1 < |states| && events[n] != Settle(i)
    && i < |states[n + 1].guards| && states[n + 1].guards[i].phase.Idle?
  }

  /** What the guard does with its request so far. */
  ghost predicate Follows(g: Guard, asked: Guard, body: nat) {
    && !g.phase.Idle? && g.phase.body == body && g.held == asked.held && g.largest == asked.largest
    && g.phase.additional == SaturatingSub(body * REQUEST_MEMORY_MULTIPLIER, asked.held)
  }

  /** A busy guard goes on with the request it asked for, and by a value that the counter had since. */
  lemma {:induction false} BusyFollows(available: nat, events: seq<Event>, states: seq<State>, i: nat, body: nat,
      k: nat, n: nat)
      returns (load: nat)
    requires IsRun(available, events, states) && Busy(events, states, i, body, k, n) && k < n
    ensures body * REQUEST_MEMORY_MULTIPLIER <= U64_MAX
    ensures var g := states[n].guards[i];
            && Follows(g, states[k].guards[i], body)
            && (g.phase.Loaded? || g.phase.Approved? ==> k < load < n && g.phase.current == states[load].reserved)
  {
    load := n - 1;
    assert states[n] == Step(states[n - 1], events[n - 1]);
    if n > k + 1 {
      var earlier := BusyFollows(available, events, states, i, body, k, n - 1);
      if events[n - 1] == CheckAvailable(i) || states[n].guards[i] == states[n - 1].guards[i] {
        load := earlier;
      }
    }
  }

  /** A guard whose request ends in a refusal was not granted anything meanwhile. */
  lemma {:induction false} NotGranted(available: nat, events: seq<Event>, states: seq<State>, i: nat, body: nat,
      k: nat, n: nat, m: nat)
    requires IsRun(available, events, states) && Refused(events, states, i, body, k, n) && k < m <= n
    ensures !states[m].guards[i].phase.Granted?
    decreases n - m
  {
    assert states[m + 1] == Step(states[m], events[m]);
    if m < n {
      NotGranted(available, events, states, i, body, k, n, m + 1);
    }
  }

  /** From the moment it asks until it is refused, a guard holds what it held, its largest body stays what it was, and
      its share of the counter never changes. */
  lemma RefusalLeavesNoTrace(available: nat, events: seq<Event>, states: seq<State>, i: nat, body: nat,
      k: nat, n: nat, m: nat)
    requires IsRun(available, events, states) && Refused(events, states, i, body, k, n) && k <= m <= n + 1
    ensures var before, g := states[k].guards[i], states[m].guards[i];
            g.held == before.held && g.largest == before.largest && Weight(g) == Weight(before)
  {
    if k < m <= n {
      var _ := BusyFollows(available, events, states, i, body, k, m);
      NotGranted(available, events, states, i, body, k, n, m);
    } else if m == n + 1 {
      assert states[m] == Step(states[n], events[n]);
      if k < n {
        var _ := BusyFollows(available, events, states, i, body, k, n);
      }
    }
  }

  /** Whether guard i would be granted a body in this very state. */
  predicate Fits(s: State, i: nat, body: nat)
    requires i < |s.guards|
  {
    HasRoom(s.available, s.reserved, s.guards[i].held, body)
  }

  /** The check compares the counter as it was at one moment of the request with the capacity as it is now. */
  lemma VerdictGoesByTwoMoments(available: nat, events: seq<Event>, states: seq<State>, i: nat, body: nat, k: nat, n: nat)
      returns (load: nat)
    requires IsRun(available, events, states) && Busy(events, states, i, body, k, n) && k < n < |events|
    requires events[n] == CheckAvailable(i) && states[n].available <= U64_MAX
    ensures k < load < n && i < |states[n + 1].guards|
    ensures Refused(events, states, i, body, k, n) <==>
            !HasRoom(states[n].available, states[load].reserved, states[k].guards[i].held, body)
  {
    load := BusyFollows(available, events, states, i, body, k, n);
    assert Enabled(states[n], events[n]) && states[n + 1] == Step(states[n], events[n]);
  }

  /** If the capacity was never lowered, it only grew. */
  lemma {:induction false} CapacityGrows(available: nat, events: seq<Event>, states: seq<State>, m: nat, n: nat)
    requires IsRun(available, events, states) && m <= n < |states| && !states[n].shrank
    ensures states[m].available <= states[n].available
  {
    if m < n {
      assert states[n] == Step(states[n - 1], events[n - 1]);
      CapacityGrows(available, events, states, m, n - 1);
    }
  }

  lemma {:induction false} CapacityIsU64(available: nat, events: seq<Event>, states: seq<State>, n: nat)
    requires IsRun(available, events, states) && n < |states| && available <= U64_MAX
    ensures states[n].available <= U64_MAX
  {
    if n > 0 {
      assert states[n] == Step(states[n - 1], events[n - 1]);
      CapacityIsU64(available, events, states, n - 1);
    }
  }

  /** A refused body did not fit at some moment of its request, unless the capacity was lower at the check than at that
      moment; so with a capacity that is never lowered there is always such a moment. */
  lemma RefusalHasACause(available: nat, events: seq<Event>, states: seq<State>, i: nat, body: nat, k: nat, n: nat)
      returns (moment: nat)
    requires IsRun(available, events, states) && available <= U64_MAX && Refused(events, states, i, body, k, n)
    ensures k <= moment <= n && i < |states[moment].guards|
    ensures !Fits(states[moment], i, body) || states[n].available < states[moment].available
    ensures !states[n].shrank ==> !Fits(states[moment], i, body)
  {
    moment := k;
    assert Enabled(states[n], events[n]) && states[n + 1] == Step(states[n], events[n]);
    if k < n {
      assert events[n] == CheckAvailable(i);
      CapacityIsU64(available, events, states, n);
      moment := VerdictGoesByTwoMoments(available, events, states, i, body, k, n);
      RefusalLeavesNoTrace(available, events, states, i, body, k, n, moment);
      if !states[n].shrank {
        CapacityGrows(available, events, states, moment, n);
      }
    }
  }

  /** Guard 1 asks for 40 bytes next to the 48 of guard 0; then guard 0 goes, and the capacity falls to 60. */
  const FALLING_CAPACITY: seq<Event> := [
    NewGuard, NewGuard, Ask(0, 6), LoadReserved(0), CheckAvailable(0), CompareExchange(0, false), Settle(0),
    Ask(1, 5), LoadReserved(1), Drop(0), SetAvailable(60), CheckAvailable(1)]

  /** A state of guards 0 and 1. */
  function Pair(available: nat, reserved: nat, guard0: Guard, guard1: Guard, shrank: bool): State {
    State(available, reserved, [guard0, guard1], 100, shrank)
  }

  const FRESH := Guard(0, 0, false, Idle)
  const HOLDS := Guard(48, 6, false, Idle)
  const GONE := Guard(0, 6, true, Idle)

  const FALLING_STATES: seq<State> := [
    Start(100), State(100, 0, [FRESH], 100, false), Pair(100, 0, FRESH, FRESH, false),
    Pair(100, 0, FRESH.(phase := Asked(6, 48)), FRESH, false),
    Pair(100, 0, FRESH.(phase := Loaded(6, 48, 0)), FRESH, false),
    Pair(100, 0, FRESH.(phase := Approved(6, 48, 0)), FRESH, false),
    Pair(100, 48, FRESH.(phase := Granted(6, 48)), FRESH, false),
    Pair(100, 48, HOLDS, FRESH, false),
    Pair(100, 48, HOLDS, FRESH.(phase := Asked(5, 40)), false),
    Pair(100, 48, HOLDS, FRESH.(phase := Loaded(5, 40, 48)), false),
    Pair(100, 0, GONE, FRESH.(phase := Loaded(5, 40, 48)), false),
    Pair(60, 0, GONE, FRESH.(phase := Loaded(5, 40, 48)), true),
    Pair(60, 0, GONE, FRESH, true)]

  lemma FirstGrant(m: nat)
    requires m < 7
    ensures Enabled(FALLING_STATES[m], FALLING_CAPACITY[m])
    ensures FALLING_STATES[m + 1] == Step(FALLING_STATES[m], FALLING_CAPACITY[m])
  {
  }

  lemma ThenRefusal(m: nat)
    requires 7 <= m < 12
    ensures Enabled(FALLING_STATES[m], FALLING_CAPACITY[m])
    ensures FALLING_STATES[m + 1] == Step(FALLING_STATES[m], FALLING_CAPACITY[m])
  {
  }

  /** With a falling capacity a body can fit at every moment of its request and still be refused. */
  lemma RefusedThoughItFits()
    ensures IsRun(100, FALLING_CAPACITY, FALLING_STATES) && Refused(FALLING_CAPACITY, FALLING_STATES, 1, 5, 7, 11)
    ensures forall m | 7 <= m <= 12 :: 1 < |FALLING_STATES[m].guards| && Fits(FALLING_STATES[m], 1, 5)
  {
    forall m | 0 <= m < 12
      ensures Enabled(FALLING_STATES[m], FALLING_CAPACITY[m])
      ensures FALLING_STATES[m + 1] == Step(FALLING_STATES[m], FALLING_CAPACITY[m])
    {
      if m < 7 {
        FirstGrant(m);
      } else {
        ThenRefusal(m);
      }
    }
  }

  /** The steps of one reservation that nothing interrupts. */
  function ReserveAlone(s: State, i: nat, body: nat): (t: State)
    requires Enabled(s, Ask(i, body))
    ensures |t.guards| == |s.guards|
  {
    var asked := Step(s, Ask(i, body));
    if asked.guards[i].phase.Idle? then asked else
      var checked := Step(Step(asked, LoadReserved(i)), CheckAvailable(i));
      if checked.guards[i].phase.Idle? then checked
      else Step(Step(checked, CompareExchange(i, false)), Settle(i))
  }

  /** They come to what the guard's method does: with room for the body the guard holds eight times as much as that, or
      what it held if that is more, and the counter grows with it; else nothing changes. */
  lemma UninterruptedReservation(s: State, i: nat, body: nat)
    requires Enabled(s, Ask(i, body)) && s.available <= U64_MAX
    ensures var g, t := s.guards[i], ReserveAlone(s, i, body);
            if 8 * body <= U64_MAX && s.reserved <= s.available
               && (8 * body > g.held ==> s.reserved + 8 * body - g.held <= s.available) then
              && t.reserved == s.reserved + Max(g.held, 8 * body) - g.held
              && Same(t.guards, s.guards[i := Guard(Max(g.held, 8 * body), Max(g.largest, body), false, Idle)])
              && t == s.(reserved := t.reserved, guards := t.guards)
            else t == s
  {
    var g := s.guards[i];
    if 8 * body <= U64_MAX {
      var checked := Step(Step(Step(s, Ask(i, body)), LoadReserved(i)), CheckAvailable(i));
      if checked.guards[i].phase.Idle? {
        assert checked.guards == s.guards;
      } else {
        assert ReserveAlone(s, i, body).guards
            == s.guards[i := Guard(Max(g.held, 8 * body), Max(g.largest, body), false, Idle)];
      }
    }
  }
}
