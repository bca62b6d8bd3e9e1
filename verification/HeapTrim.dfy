/**
 * The gate that spaces heap trims: one shared cell with the time of the last grant, claimed by
 * compare-and-exchange. `Reserve` is the loop by itself; `Step` interleaves any number of callers.
 */
module HeapTrim {
  import opened Basics

  const RUNTIME_PROXY_HEAP_TRIM_MIN_RELEASE_BYTES: nat := 1024 * 1024

  /** Whether the last grant is too recent; an interval of zero and a cell never written hold nobody back. */
  predicate TooSoon(interval: nat, previous: nat, now: nat) {
    interval > 0 && previous > 0 && SaturatingSub(now, previous) < interval
  }

  /** The interval is two seconds, and none in test builds. */
  class HeapTrimGate {
    const interval: nat
    var lastRequestedAt: nat

    constructor (interval: nat)
      ensures this.interval == interval && lastRequestedAt == 0
    {
      this.interval := interval;
      lastRequestedAt := 0;
    }

    /** Nobody else interferes: the exchange succeeds at the first attempt. */
    method Reserve(now: nat) returns (granted: bool)
      modifies this
      ensures granted == !TooSoon(interval, old(lastRequestedAt), now)
      ensures granted <==> interval == 0 || old(lastRequestedAt) == 0 || now >= old(lastRequestedAt) + interval
      ensures lastRequestedAt == if granted then now else old(lastRequestedAt)
    {
      var previous := lastRequestedAt;
      if interval > 0 && previous > 0 && SaturatingSub(now, previous) < interval {
        return false;
      }
      lastRequestedAt := now;
      granted := true;
    }

    /** Small releases never reach the gate. */
    method MaybeTrimProcessHeap(releasedBytes: nat, now: nat) returns (trimmed: bool)
      modifies this
      ensures trimmed <==> releasedBytes >= 1_048_576 && !TooSoon(interval, old(lastRequestedAt), now)
      ensures lastRequestedAt == if trimmed then now else old(lastRequestedAt)
    {
      if releasedBytes < RUNTIME_PROXY_HEAP_TRIM_MIN_RELEASE_BYTES {
        return false;
      }
      trimmed := Reserve(now);
    }
  }

  // ----- Many callers

  /** `seen` is the number of grants when the cell was loaded, `begun` when the call began; `retries` counts failed
      exchanges. */
  datatype Phase =
    | Idle
    | Loading(now: nat, begun: nat, retries: nat)
    | Loaded(now: nat, begun: nat, retries: nat, previous: nat, seen: nat)

  /** `grants` lists the times of successful exchanges in order. */
  datatype State = State(cell: nat, grants: seq<nat>, callers: seq<Phase>)

  datatype Event =
    | Call(caller: nat, now: nat)
    | Load(caller: nat)
    | Exchange(caller: nat)

  predicate Enabled(s: State, e: Event) {
    e.caller < |s.callers| &&
    match e
    case Call(i, _) => s.callers[i].Idle?
    case Load(i) => s.callers[i].Loading?
    case Exchange(i) => s.callers[i].Loaded?
  }

  function InPhase(s: State, i: nat, phase: Phase): State
    requires i < |s.callers|
  {
    s.(callers := s.callers[i := phase])
  }

  /** The refusal needs no access to the cell, so it is part of the step that would exchange. */
  function Step(interval: nat, s: State, e: Event): State
    requires Enabled(s, e)
  {
    match e
    case Call(i, now) => InPhase(s, i, Loading(now, |s.grants|, 0))
    case Load(i) =>
      var p := s.callers[i];
      InPhase(s, i, Loaded(p.now, p.begun, p.retries, s.cell, |s.grants|))
    case Exchange(i) =>
      var p := s.callers[i];
      if TooSoon(interval, p.previous, p.now) then InPhase(s, i, Idle)
      else if s.cell == p.previous then InPhase(s, i, Idle).(cell := p.now, grants := s.grants + [p.now])
      else InPhase(s, i, Loading(p.now, p.begun, p.retries + 1))
  }

  function Run(interval: nat, callers: nat, events: seq<Event>): Option<State> {
    if events == [] then Some(State(0, [], seq(callers, _ => Idle))) else
      var n := |events| - 1;
      match Run(interval, callers, events[..n])
      case None => None
      case Some(s) => if Enabled(s, events[n]) then Some(Step(interval, s, events[n])) else None
  }

  /** The cell after the first n grants. */
  function CellAfter(grants: seq<nat>, n: nat): nat
    requires n <= |grants|
  {
    if n == 0 then 0 else grants[n - 1]
  }

  ghost predicate Spaced(interval: nat, grants: seq<nat>) {
    forall i | 0 <= i < |grants| - 1 :: grants[i] == 0 || grants[i + 1] >= grants[i] + interval
  }

  ghost predicate PhaseInv(p: Phase, grants: seq<nat>) {
    match p
    case Idle => true
    case Loading(_, begun, retries) => begun + retries <= |grants|
    case Loaded(_, begun, retries, previous, seen) =>
      begun + retries <= seen <= |grants| && previous == CellAfter(grants, seen)
  }

  ghost predicate Inv(interval: nat, s: State) {
    && s.cell == CellAfter(s.grants, |s.grants|)
    && (interval > 0 ==> Spaced(interval, s.grants))
    && forall i | 0 <= i < |s.callers| :: PhaseInv(s.callers[i], s.grants)
  }

  lemma StepKeepsInv(interval: nat, s: State, e: Event)
    requires Inv(interval, s) && Enabled(s, e)
    ensures Inv(interval, Step(interval, s, e))
  {
    var t := Step(interval, s, e);
    forall i | 0 <= i < |t.callers|
      ensures PhaseInv(t.callers[i], t.grants)
    {
      assert PhaseInv(s.callers[i], s.grants);
      assert PhaseInv(s.callers[e.caller], s.grants);
    }
  }

  lemma {:induction false} RunKeepsInv(interval: nat, callers: nat, events: seq<Event>)
    requires Run(interval, callers, events).Some?
    ensures Inv(interval, Run(interval, callers, events).value)
  {
    if events != [] {
      var n := |events| - 1;
      RunKeepsInv(interval, callers, events[..n]);
      StepKeepsInv(interval, Run(interval, callers, events[..n]).value, events[n]);
    }
  }

  lemma {:induction false} SpacedAddsUp(interval: nat, grants: seq<nat>, i: nat, j: nat)
    requires Spaced(interval, grants) && i < j < |grants| && grants[i] > 0
    ensures grants[j] >= grants[i] + (j - i) * interval
    decreases j - i
  {
    if i + 1 < j {
      assert grants[i + 1] >= grants[i] + interval;
      SpacedAddsUp(interval, grants, i + 1, j);
      assert (j - (i + 1)) * interval + interval == (j - i) * interval;
    } else {
      assert grants[i + 1] >= grants[i] + interval;
    }
  }

  /** Whatever the clocks of the callers say: n grants after one at a nonzero time take at least n intervals. */
  lemma GrantsAreSpaced(interval: nat, callers: nat, events: seq<Event>, i: nat, j: nat)
    requires interval > 0 && Run(interval, callers, events).Some?
    requires i < j < |Run(interval, callers, events).value.grants| && Run(interval, callers, events).value.grants[i] > 0
    ensures var grants := Run(interval, callers, events).value.grants;
            grants[j] >= grants[i] + (j - i) * interval
  {
    RunKeepsInv(interval, callers, events);
    SpacedAddsUp(interval, Run(interval, callers, events).value.grants, i, j);
  }

  /** An exchange fails only when somebody else was granted since the cell was loaded, so a call retries at most once
      for each grant to others that falls within it. */
  lemma FailureMeansProgress(interval: nat, callers: nat, events: seq<Event>, i: nat)
    requires Run(interval, callers, events).Some? && Enabled(Run(interval, callers, events).value, Exchange(i))
    ensures var s := Run(interval, callers, events).value;
            var p := s.callers[i];
            && (s.cell != p.previous ==> |s.grants| > p.seen)
            && p.retries <= |s.grants| - p.begun
  {
    RunKeepsInv(interval, callers, events);
    var s := Run(interval, callers, events).value;
    assert PhaseInv(s.callers[i], s.grants);
  }

  /** A call that ends without a grant saw a grant less than an interval before its own clock reading. */
  lemma RefusalHasACause(interval: nat, callers: nat, events: seq<Event>, i: nat)
    requires Run(interval, callers, events).Some? && Enabled(Run(interval, callers, events).value, Exchange(i))
    requires var s := Run(interval, callers, events).value;
             var t := Step(interval, s, Exchange(i));
             t.callers[i].Idle? && t.grants == s.grants
    ensures var s := Run(interval, callers, events).value;
            exists k :: 0 <= k < |s.grants| && s.grants[k] > 0 && s.callers[i].now < s.grants[k] + interval
  {
    RunKeepsInv(interval, callers, events);
    var s := Run(interval, callers, events).value;
    assert PhaseInv(s.callers[i], s.grants);
    assert TooSoon(interval, s.callers[i].previous, s.callers[i].now) by {
      assert |s.grants + [s.callers[i].now]| == |s.grants| + 1;
    }
    assert s.grants[s.callers[i].seen - 1] == s.callers[i].previous;
  }

  /** A call that nobody interrupts is granted exactly when the interval has passed since the time in the cell or one of
      them is zero, and then leaves its own time there. */
  lemma UninterruptedCall(interval: nat, s: State, i: nat, now: nat)
    requires i < |s.callers| && s.callers[i].Idle?
    ensures var called := Step(interval, s, Call(i, now));
            && Enabled(called, Load(i)) && Enabled(Step(interval, called, Load(i)), Exchange(i))
            && Step(interval, Step(interval, called, Load(i)), Exchange(i)) ==
               if interval == 0 || s.cell == 0 || now >= s.cell + interval
               then s.(cell := now, grants := s.grants + [now])
               else s
  {
    var loaded := Step(interval, Step(interval, s, Call(i, now)), Load(i));
    assert loaded.callers[i := Idle] == s.callers;
  }
}
