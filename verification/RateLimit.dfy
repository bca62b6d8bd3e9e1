/** The fixed-window limiter of the exposed server, and what it guarantees for sliding windows. */
module RateLimit {

  const MCP_RATE_LIMIT: nat := 120
  /** One second, in the nanoseconds the monotonic clock counts. */
  const MCP_RATE_WINDOW: nat := 1_000_000_000

  /** The clock readings of one call: on entry, and when the window is restarted. */
  datatype Reading = Reading(checked: int, restarted: int)

  datatype Limiter = Limiter(started: int, requests: nat)

  function Restarts(l: Limiter, c: Reading): bool {
    c.checked - l.started >= MCP_RATE_WINDOW
  }

  function Window(l: Limiter, c: Reading): Limiter {
    if Restarts(l, c) then Limiter(c.restarted, 0) else l
  }

  function Admits(l: Limiter, c: Reading): bool {
    Window(l, c).requests < MCP_RATE_LIMIT
  }

  function After(l: Limiter, c: Reading): Limiter {
    var w := Window(l, c);
    if Admits(l, c) then w.(requests := w.requests + 1) else w
  }

  /** The last clock reading the call went by. */
  function DecidedAt(l: Limiter, c: Reading): int {
    if Restarts(l, c) then c.restarted else c.checked
  }

  class McpRateLimit {
    var started: int
    var requests: nat

    constructor (now: int)
      ensures State() == Limiter(now, 0)
    {
      started, requests := now, 0;
    }

    function State(): Limiter
      reads this
    {
      Limiter(started, requests)
    }

    method Admit(c: Reading) returns (admitted: bool)
      modifies this
      ensures admitted == Admits(old(State()), c)
      ensures State() == After(old(State()), c)
      ensures var restarts := c.checked >= old(started) + 1_000_000_000;
              && (admitted <==> restarts || old(requests) < 120)
              && started == (if restarts then c.restarted else old(started))
              && requests == (if restarts then 1 else if admitted then old(requests) + 1 else old(requests))
    {
      if c.checked - started >= MCP_RATE_WINDOW {
        started := c.restarted;
        requests := 0;
      }
      if requests >= MCP_RATE_LIMIT {
        return false;
      }
      requests := requests + 1;
      admitted := true;
    }
  }

  // ----- Runs

  /** No clock reading is earlier than one before it. */
  ghost predicate Monotone(now: int, calls: seq<Reading>)
    decreases |calls|
  {
    calls == [] ||
    (now <= calls[0].checked <= calls[0].restarted && Monotone(calls[0].restarted, calls[1..]))
  }

  /** How many calls are admitted at a time in [from, from + length). */
  function Admissions(l: Limiter, calls: seq<Reading>, from: int, length: nat): nat
    decreases |calls|
  {
    if calls == [] then 0 else
      (if Admits(l, calls[0]) && from <= DecidedAt(l, calls[0]) < from + length then 1 else 0)
      + Admissions(After(l, calls[0]), calls[1..], from, length)
  }

  /** How many windows can start within a stretch of time. */
  function WindowStarts(stretch: int): nat {
    if stretch <= 0 then 0 else (stretch + MCP_RATE_WINDOW - 1) / MCP_RATE_WINDOW
  }

  /** How many more admissions in [from, from + length) the limiter can still give. */
  function Budget(l: Limiter, from: int, length: nat): int {
    if l.started >= from + length then 0
    else if l.started > from - MCP_RATE_WINDOW then
      MCP_RATE_LIMIT - l.requests + MCP_RATE_LIMIT * WindowStarts(from + length - l.started - MCP_RATE_WINDOW)
    else MCP_RATE_LIMIT * (1 + WindowStarts(length - 1))
  }

  lemma WindowStartsGrow(a: int, b: int)
    ensures a <= b ==> WindowStarts(a) <= WindowStarts(b)
    ensures a > 0 ==> WindowStarts(a) == 1 + WindowStarts(a - MCP_RATE_WINDOW)
  {
  }

  lemma BudgetAfter(l: Limiter, c: Reading, from: int, length: nat)
    requires length > 0 && l.requests <= MCP_RATE_LIMIT && l.started <= c.checked <= c.restarted
    ensures var counted := if Admits(l, c) && from <= DecidedAt(l, c) < from + length then 1 else 0;
            counted + Budget(After(l, c), from, length) <= Budget(l, from, length)
  {
    if Restarts(l, c) {
      var left, leftAfter := from + length - l.started - MCP_RATE_WINDOW, from + length - c.restarted - MCP_RATE_WINDOW;
      WindowStartsGrow(left, left);
      WindowStartsGrow(leftAfter, left - MCP_RATE_WINDOW);
      WindowStartsGrow(leftAfter, length - 1);
    }
  }

  lemma {:induction false} AdmissionsWithinBudget(l: Limiter, calls: seq<Reading>, now: int, from: int, length: nat)
    requires length > 0 && l.requests <= MCP_RATE_LIMIT && l.started <= now && Monotone(now, calls)
    ensures Admissions(l, calls, from, length) <= Budget(l, from, length)
    decreases |calls|
  {
    if calls != [] {
      BudgetAfter(l, calls[0], from, length);
      AdmissionsWithinBudget(After(l, calls[0]), calls[1..], calls[0].restarted, from, length);
    } else {
      BudgetIsNotNegative(l, from, length);
    }
  }

  lemma BudgetIsNotNegative(l: Limiter, from: int, length: nat)
    requires l.requests <= MCP_RATE_LIMIT
    ensures Budget(l, from, length) >= 0
  {
  }

  /** Over any run with a monotone clock, an interval of any length sees at most one quota for every window that can
      touch it: two quotas for an interval of one window length, never more than two plus one per full window. */
  lemma SlidingWindowBound(start: int, calls: seq<Reading>, from: int, length: nat)
    requires length > 0 && Monotone(start, calls)
    ensures var n := Admissions(Limiter(start, 0), calls, from, length);
            && n <= MCP_RATE_LIMIT * (1 + WindowStarts(length - 1))
            && (length == MCP_RATE_WINDOW ==> n <= 2 * MCP_RATE_LIMIT)
            && n <= MCP_RATE_LIMIT * (length / MCP_RATE_WINDOW + 2)
  {
    var l := Limiter(start, 0);
    AdmissionsWithinBudget(l, calls, start, from, length);
    WindowStartsGrow(from + length - start - MCP_RATE_WINDOW, length - 1);
    assert WindowStarts(length - 1) <= length / MCP_RATE_WINDOW + 1;
    assert Budget(l, from, length) <= MCP_RATE_LIMIT * (1 + WindowStarts(length - 1));
  }

  // ----- Refusals

  /** The limiter after a run. */
  function End(l: Limiter, calls: seq<Reading>): Limiter
    decreases |calls|
  {
    if calls == [] then l else End(After(l, calls[0]), calls[1..])
  }

  /** What the present window counts was admitted since it started. */
  lemma {:induction false} RequestsWereAdmitted(
    l: Limiter, calls: seq<Reading>, now: int, from: int, length: nat)
    requires l.started <= now && Monotone(now, calls) && from <= End(l, calls).started
    requires forall k | 0 <= k < |calls| :: calls[k].restarted < from + length
    ensures l.started <= End(l, calls).started
    ensures Admissions(l, calls, from, length) >=
            End(l, calls).requests - if End(l, calls).started == l.started then l.requests else 0
    decreases |calls|
  {
    if calls != [] {
      assert forall k | 0 <= k < |calls[1..]| :: calls[1..][k] == calls[k + 1];
      RequestsWereAdmitted(After(l, calls[0]), calls[1..], calls[0].restarted, from, length);
    }
  }

  lemma {:induction false} MonotoneUpTo(now: int, calls: seq<Reading>, c: Reading)
    requires Monotone(now, calls + [c])
    ensures Monotone(now, calls) && now <= c.checked
    ensures forall k | 0 <= k < |calls| :: calls[k].restarted <= c.checked
    decreases |calls|
  {
    if calls != [] {
      assert (calls + [c])[1..] == calls[1..] + [c];
      MonotoneUpTo(calls[0].restarted, calls[1..], c);
      assert forall k | 0 < k < |calls| :: calls[k] == calls[1..][k - 1];
    }
  }

  /** A call is refused only when a whole quota was admitted within the second before it. */
  lemma RefusalHasACause(start: int, calls: seq<Reading>, c: Reading)
    requires Monotone(start, calls + [c]) && !Admits(End(Limiter(start, 0), calls), c)
    ensures Admissions(Limiter(start, 0), calls, c.checked - 999_999_999, 1_000_000_000) >= 120
  {
    MonotoneUpTo(start, calls, c);
    RequestsWereAdmitted(Limiter(start, 0), calls, start, c.checked - 999_999_999, 1_000_000_000);
  }

  // ----- The bound is reached

  function Burst(at: int, n: nat): seq<Reading> {
    seq(n, _ => Reading(at, at))
  }

  lemma {:induction false} BurstThen(l: Limiter, at: int, n: nat, rest: seq<Reading>, from: int, length: nat)
    requires l.requests + n <= MCP_RATE_LIMIT && l.started <= at < l.started + MCP_RATE_WINDOW
    requires from <= at < from + length
    ensures Admissions(l, Burst(at, n) + rest, from, length)
         == n + Admissions(l.(requests := l.requests + n), rest, from, length)
    ensures Monotone(at, rest) ==> Monotone(at, Burst(at, n) + rest)
    decreases n
  {
    if n == 0 {
      assert Burst(at, 0) + rest == rest;
    } else {
      assert (Burst(at, n) + rest)[1..] == Burst(at, n - 1) + rest;
      BurstThen(l.(requests := l.requests + 1), at, n - 1, rest, from, length);
    }
  }

  /** A quota at the end of one window and a quota at the start of the next: two quotas within two clock ticks. */
  lemma BoundIsReached()
    ensures exists calls ::
              Monotone(0, calls) && Admissions(Limiter(0, 0), calls, MCP_RATE_WINDOW - 1, 2) == 2 * MCP_RATE_LIMIT
  {
    var late, next := MCP_RATE_WINDOW - 1, MCP_RATE_WINDOW;
    var second := Burst(next, MCP_RATE_LIMIT - 1);
    var tail := [Reading(next, next)] + second;
    var full := Limiter(0, MCP_RATE_LIMIT);
    BurstThen(Limiter(next, 1), next, MCP_RATE_LIMIT - 1, [], late, 2);
    assert second + [] == second && tail[1..] == second;
    assert After(full, tail[0]) == Limiter(next, 1);
    BurstThen(Limiter(0, 0), late, MCP_RATE_LIMIT, tail, late, 2);
    var calls := Burst(late, MCP_RATE_LIMIT) + tail;
    assert calls[0].checked == late;
    assert Monotone(0, calls);
  }

  // ----- Windows

  /** The starts of the windows a run opens, the present one first. */
  function Starts(l: Limiter, calls: seq<Reading>): (starts: seq<int>)
    ensures |starts| > 0 && starts[0] == l.started
    decreases |calls|
  {
    if calls == [] then [l.started]
    else if Restarts(l, calls[0]) then [l.started] + Starts(After(l, calls[0]), calls[1..])
    else Starts(After(l, calls[0]), calls[1..])
  }

  /** Windows start at least one window length apart. */
  lemma {:induction false} StartsAreSpaced(l: Limiter, calls: seq<Reading>, now: int, i: nat)
    requires l.started <= now && Monotone(now, calls) && i + 1 < |Starts(l, calls)|
    ensures Starts(l, calls)[i + 1] >= Starts(l, calls)[i] + MCP_RATE_WINDOW
    decreases |calls|
  {
    var l' := After(l, calls[0]);
    if Restarts(l, calls[0]) {
      if i > 0 {
        StartsAreSpaced(l', calls[1..], calls[0].restarted, i - 1);
      }
    } else {
      StartsAreSpaced(l', calls[1..], calls[0].restarted, i);
    }
  }
}
