/**
 * Selection of the newest log path in two stages: the winner of each batch, then the winner among
 * those. The compiled ordering kernel is known by its contract only (`Lawful`).
 */
module NewestPath {
  import opened Basics

  type PathBytes = seq<nat>

  const HALF: nat := 0x1_0000_0000_0000_0000
  const MOJO_LOG_SORT_BATCH: nat := 65_536
  const MAX_ROWS: nat := 65_536

  /** A path with its modification time, an unsigned 128-bit number. */
  datatype Candidate = Candidate(modified: nat, path: PathBytes)

  /** What the kernel gets to see of a candidate: the time in two 64-bit halves. */
  datatype Row = Row(high: nat, low: nat, path: PathBytes)

  ghost predicate IsU128(t: nat) {
    t < 0x1_0000_0000_0000_0000_0000_0000_0000_0000
  }

  function RowOf(c: Candidate): Row {
    Row(c.modified / HALF, c.modified % HALF, c.path)
  }

  function RowsOf(cs: seq<Candidate>): (rows: seq<Row>)
    ensures |rows| == |cs| && forall i | 0 <= i < |cs| :: rows[i] == RowOf(cs[i])
  {
    seq(|cs|, i requires 0 <= i < |cs| => RowOf(cs[i]))
  }

  predicate PathLess(a: PathBytes, b: PathBytes) {
    b != [] && (a == [] || a[0] < b[0] || (a[0] == b[0] && PathLess(a[1..], b[1..])))
  }

  lemma {:induction false} PathLessTransitive(a: PathBytes, b: PathBytes, c: PathBytes)
    requires PathLess(a, b) && PathLess(b, c)
    ensures PathLess(a, c)
  {
    if a != [] && a[0] == b[0] == c[0] {
      PathLessTransitive(a[1..], b[1..], c[1..]);
    }
  }

  lemma {:induction false} PathLessTotal(a: PathBytes, b: PathBytes)
    ensures PathLess(a, b) || PathLess(b, a) || a == b
    ensures !(PathLess(a, b) && PathLess(b, a)) && !PathLess(a, a)
  {
    if a != [] && b != [] {
      PathLessTotal(a[1..], b[1..]);
      if a[0] == b[0] && a[1..] == b[1..] {
        assert a == [a[0]] + a[1..];
      }
    }
    if a != [] {
      PathLessTotal(a[1..], a[1..]);
    }
  }

  // ----- The two orders

  /** The kernel puts row i before row j: later time, then larger path, then later input. */
  predicate RowBefore(rows: seq<Row>, i: nat, j: nat)
    requires i < |rows| && j < |rows|
  {
    var a, b := rows[i], rows[j];
    if a.high != b.high then a.high > b.high
    else if a.low != b.low then a.low > b.low
    else if a.path != b.path then PathLess(b.path, a.path)
    else i > j
  }

  /** Candidate i beats candidate j. */
  predicate Newer(cs: seq<Candidate>, i: nat, j: nat)
    requires i < |cs| && j < |cs|
  {
    var a, b := cs[i], cs[j];
    if a.modified != b.modified then a.modified > b.modified
    else if a.path != b.path then PathLess(b.path, a.path)
    else i > j
  }

  ghost predicate IsNewest(cs: seq<Candidate>, i: nat) {
    i < |cs| && forall j | 0 <= j < |cs| && j != i :: Newer(cs, i, j)
  }

  lemma HalvesOrderTimes(s: nat, t: nat)
    requires IsU128(s) && IsU128(t)
    ensures s / HALF < HALF && s % HALF < HALF
    ensures s > t <==> s / HALF > t / HALF || (s / HALF == t / HALF && s % HALF > t % HALF)
    ensures s == t <==> s / HALF == t / HALF && s % HALF == t % HALF
  {
  }

  /** Comparing the halves first high, then low, is comparing the 128-bit times. */
  lemma KernelOrderIsNewer(cs: seq<Candidate>, i: nat, j: nat)
    requires i < |cs| && j < |cs| && IsU128(cs[i].modified) && IsU128(cs[j].modified)
    ensures RowBefore(RowsOf(cs), i, j) <==> Newer(cs, i, j)
  {
    HalvesOrderTimes(cs[i].modified, cs[j].modified);
    HalvesOrderTimes(cs[j].modified, cs[i].modified);
  }

  lemma NewerTransitive(cs: seq<Candidate>, i: nat, j: nat, k: nat)
    requires i < |cs| && j < |cs| && k < |cs| && Newer(cs, i, j) && Newer(cs, j, k)
    ensures Newer(cs, i, k)
  {
    var a, b, c := cs[i].path, cs[j].path, cs[k].path;
    PathLessTotal(a, c);
    if PathLess(c, b) && PathLess(b, a) {
      PathLessTransitive(c, b, a);
    }
  }

  lemma NewerIsTotal(cs: seq<Candidate>, i: nat, j: nat)
    requires i < |cs| && j < |cs|
    ensures i != j ==> (Newer(cs, i, j) <==> !Newer(cs, j, i))
  {
    PathLessTotal(cs[i].path, cs[j].path);
  }

  lemma NewestIsUnique(cs: seq<Candidate>, i: nat, j: nat)
    requires IsNewest(cs, i) && IsNewest(cs, j)
    ensures i == j
  {
    NewerIsTotal(cs, i, j);
  }

  /** The paths agree up to k, where the first one ends or has the smaller byte. */
  ghost predicate SmallerAt(a: PathBytes, b: PathBytes, k: nat) {
    k <= |a| && k < |b| && a[..k] == b[..k] && (k == |a| || a[k] < b[k])
  }

  ghost predicate IsSmaller(a: PathBytes, b: PathBytes) {
    exists k :: SmallerAt(a, b, k)
  }

  lemma {:induction false} PathLessIs(a: PathBytes, b: PathBytes) returns (k: nat)
    requires PathLess(a, b)
    ensures SmallerAt(a, b, k)
  {
    k := 0;
    if a != [] && a[0] == b[0] {
      var rest := PathLessIs(a[1..], b[1..]);
      k := rest + 1;
      assert a[..k] == [a[0]] + a[1..][..rest] && b[..k] == [b[0]] + b[1..][..rest];
    }
  }

  /** The newest candidate has the greatest time of all and, among those, the greatest path byte by byte. */
  lemma NewestIs(cs: seq<Candidate>, i: nat)
    requires IsNewest(cs, i)
    ensures forall j | 0 <= j < |cs| ::
              && cs[j].modified <= cs[i].modified
              && (cs[j].modified == cs[i].modified ==>
                    cs[j].path == cs[i].path || IsSmaller(cs[j].path, cs[i].path))
  {
    forall j | 0 <= j < |cs|
      ensures cs[j].modified <= cs[i].modified
      ensures cs[j].modified == cs[i].modified ==> cs[j].path == cs[i].path || IsSmaller(cs[j].path, cs[i].path)
    {
      if j != i {
        assert Newer(cs, i, j);
        if cs[j].modified == cs[i].modified && cs[j].path != cs[i].path {
          var k := PathLessIs(cs[j].path, cs[i].path);
        }
      }
    }
  }

  // ----- One pass

  /** One pass over the candidates that keeps the best so far and prefers later input on ties. */
  function NewestIndex(cs: seq<Candidate>): (i: nat)
    requires cs != []
    ensures i < |cs|
  {
    var n := |cs| - 1;
    if n == 0 then 0
    else
      var best := NewestIndex(cs[..n]);
      if Newer(cs, n, best) then n else best
  }

  lemma {:induction false} OnePassFindsNewest(cs: seq<Candidate>)
    requires cs != []
    ensures IsNewest(cs, NewestIndex(cs))
  {
    var n := |cs| - 1;
    if n > 0 {
      var best := NewestIndex(cs[..n]);
      OnePassFindsNewest(cs[..n]);
      PathLessTotal(cs[n].path, cs[best].path);
      forall j | 0 <= j < |cs| && j != NewestIndex(cs)
        ensures Newer(cs, NewestIndex(cs), j)
      {
        if j < n && j != best {
          assert Newer(cs[..n], best, j);
          assert Newer(cs, best, j);
          if Newer(cs, n, best) {
            NewerTransitive(cs, n, best, j);
          }
        }
      }
    }
  }

  // ----- Two stages

  ghost predicate Covered(cs: seq<Candidate>, winners: seq<nat>, j: nat)
    requires j < |cs|
  {
    exists k :: 0 <= k < |winners| && winners[k] < |cs| && (winners[k] == j || Newer(cs, winners[k], j))
  }

  /** Every candidate before `end` is a winner or beaten by one; winners are in input order. */
  ghost predicate WinnersCover(cs: seq<Candidate>, winners: seq<nat>, end: nat)
    requires end <= |cs|
  {
    && (forall k | 0 <= k < |winners| :: winners[k] < end)
    && (forall k, l | 0 <= k < l < |winners| :: winners[k] < winners[l])
    && (forall j | 0 <= j < end :: Covered(cs, winners, j))
  }

  function Finalists(cs: seq<Candidate>, winners: seq<nat>): (finalists: seq<Candidate>)
    requires forall k | 0 <= k < |winners| :: winners[k] < |cs|
    ensures |finalists| == |winners| && forall k | 0 <= k < |winners| :: finalists[k] == cs[winners[k]]
  {
    seq(|winners|, k requires 0 <= k < |winners| => cs[winners[k]])
  }

  /** However the input was cut into batches, the newest finalist is the newest candidate. */
  lemma NewestFinalistIsNewest(cs: seq<Candidate>, winners: seq<nat>, f: nat)
    requires WinnersCover(cs, winners, |cs|) && IsNewest(Finalists(cs, winners), f)
    ensures IsNewest(cs, winners[f])
  {
    var finalists := Finalists(cs, winners);
    forall j | 0 <= j < |cs| && j != winners[f]
      ensures Newer(cs, winners[f], j)
    {
      assert Covered(cs, winners, j);
      var k :| 0 <= k < |winners| && (winners[k] == j || Newer(cs, winners[k], j));
      if k != f {
        assert Newer(finalists, f, k);
        assert k < f ==> winners[k] < winners[f];
        assert f < k ==> winners[f] < winners[k];
        assert Newer(cs, winners[f], winners[k]);
        if winners[k] != j {
          NewerTransitive(cs, winners[f], winners[k], j);
        }
      }
    }
  }

  lemma WinnerJoins(cs: seq<Candidate>, winners: seq<nat>, start: nat, end: nat, selected: nat)
    requires start <= end <= |cs| && WinnersCover(cs, winners, start)
    requires IsNewest(cs[start..end], selected)
    ensures WinnersCover(cs, winners + [start + selected], end)
  {
    var grown := winners + [start + selected];
    forall j | 0 <= j < end
      ensures Covered(cs, grown, j)
    {
      if j < start {
        assert Covered(cs, winners, j);
        var k :| 0 <= k < |winners| && (winners[k] == j || Newer(cs, winners[k], j));
        assert grown[k] == winners[k];
      } else {
        assert j - start == selected || Newer(cs[start..end], selected, j - start);
        assert grown[|winners|] == start + selected;
      }
    }
  }

  /** The kernel asked for its first row: it refuses more than MAX_ROWS rows. */
  type Kernel = seq<Row> -> Option<seq<nat>>

  ghost predicate Lawful(kernel: Kernel) {
    forall rows: seq<Row> ::
      if |rows| > MAX_ROWS then kernel(rows) == None
      else kernel(rows).Some? && FirstOf(rows, kernel(rows).value)
  }

  ghost predicate FirstOf(rows: seq<Row>, order: seq<nat>) {
    if rows == [] then order == []
    else |order| == 1 && order[0] < |rows| && forall j | 0 <= j < |rows| && j != order[0] :: RowBefore(rows, order[0], j)
  }

  lemma KernelFindsNewest(kernel: Kernel, cs: seq<Candidate>)
    requires Lawful(kernel) && 0 < |cs| <= MAX_ROWS && forall c | c in cs :: IsU128(c.modified)
    ensures kernel(RowsOf(cs)).Some? && |kernel(RowsOf(cs)).value| == 1 && IsNewest(cs, kernel(RowsOf(cs)).value[0])
  {
    var rows := RowsOf(cs);
    assert FirstOf(rows, kernel(rows).value);
    var i := kernel(rows).value[0];
    forall j | 0 <= j < |cs| && j != i
      ensures Newer(cs, i, j)
    {
      assert RowBefore(rows, i, j);
      KernelOrderIsNewer(cs, i, j);
    }
  }

  datatype Panic = TooManyFinalists

  /** The two-stage reduction selects what one pass selects; it panics only when the winners exceed one batch. */
  method SelectNewestModifiedPath(cs: seq<Candidate>, kernel: Kernel) returns (r: Result<Option<PathBytes>, Panic>)
    requires Lawful(kernel) && forall c | c in cs :: IsU128(c.modified)
    ensures r == if |cs| > 0x1_0000_0000 then Err(TooManyFinalists)
                 else if cs == [] then Ok(None)
                 else Ok(Some(cs[NewestIndex(cs)].path))
  {
    var winners: seq<nat> := [];
    var start := 0;
    while start < |cs|
      invariant start <= |cs| && WinnersCover(cs, winners, start)
      invariant MOJO_LOG_SORT_BATCH * |winners| - MOJO_LOG_SORT_BATCH < start <= MOJO_LOG_SORT_BATCH * |winners|
                || start == |winners| == 0
      invariant start < |cs| ==> start == MOJO_LOG_SORT_BATCH * |winners|
      decreases |cs| - start
    {
      var end := if start + MOJO_LOG_SORT_BATCH < |cs| then start + MOJO_LOG_SORT_BATCH else |cs|;
      var chunk := cs[start..end];
      KernelFindsNewest(kernel, chunk);
      var selected := kernel(RowsOf(chunk)).value[0];
      WinnerJoins(cs, winners, start, end, selected);
      winners := winners + [start + selected];
      start := end;
    }
    var finalists := Finalists(cs, winners);
    var order := kernel(RowsOf(finalists));
    if order.None? {
      return Err(TooManyFinalists);
    }
    if order.value == [] {
      return Ok(None);
    }
    KernelFindsNewest(kernel, finalists);
    NewestFinalistIsNewest(cs, winners, order.value[0]);
    OnePassFindsNewest(cs);
    NewestIsUnique(cs, winners[order.value[0]], NewestIndex(cs));
    r := Ok(Some(cs[winners[order.value[0]]].path));
  }
}
