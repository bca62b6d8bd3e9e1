/**
 * Automatic housekeeping: an exclusive file lock around a due check against a stamp file, a cleanup
 * pass, and the write of the new stamp. Every process samples its clock before it asks for the lock.
 */
module Housekeeping {
  import opened Basics

  newtype i64 = x: int | -0x8000_0000_0000_0000 <= x <= 0x7FFF_FFFF_FFFF_FFFF

  function SaturatingSubI64(a: i64, b: i64): i64 {
    var d := a as int - b as int;
    if d < I64_MIN then I64_MIN as i64 else if d > I64_MAX then I64_MAX as i64 else d as i64
  }

  /** The stamp file: the number in it, if it holds one, and its modification time, if it has one. */
  datatype Stamp = Stamp(parsed: Option<i64>, modified: Option<i64>)

  function LastRun(s: Stamp): Option<i64> {
    if s.parsed.Some? then s.parsed else s.modified
  }

  /** `now` is None for a clock before the epoch. */
  predicate IsDueAt(s: Stamp, now: Option<i64>, interval: i64) {
    if interval <= 0 then true
    else if now.None? then false
    else LastRun(s).None? || SaturatingSubI64(now.value, LastRun(s).value) >= interval
  }

  function RecordedEpoch(now: Option<i64>): i64 {
    if now.Some? then now.value else 0
  }

  /** With an interval, what is due is at least the interval after the number in the stamp file or, without one, after the
      modification time; saturation lets no early run through and holds no late one back. */
  lemma DueMeansElapsed(s: Stamp, now: Option<i64>, interval: i64)
    ensures IsDueAt(s, now, interval) <==>
            || interval <= 0
            || (now.Some? &&
                match (s.parsed, s.modified)
                case (Some(t), _) => now.value as int - t as int >= interval as int
                case (None, Some(t)) => now.value as int - t as int >= interval as int
                case (None, None) => true)
  {
  }

  /** After a pass at time t that left stamp `left`, no clock finds the next run due before the interval has passed:
      the stamp tells that time or a later one, or one so late that nothing is ever due after it. */
  predicate KeepsSpacing(t: i64, left: Stamp, interval: i64) {
    && LastRun(left).Some?
    && (LastRun(left).value >= t || LastRun(left).value as int + interval as int > I64_MAX)
  }

  lemma SpacingIsKept(t: i64, left: Stamp, interval: i64)
    requires interval > 0
    ensures (forall now: Option<i64> | IsDueAt(left, now, interval) ::
               now.Some? && now.value as int >= t as int + interval as int) <==> KeepsSpacing(t, left, interval)
  {
    if !KeepsSpacing(t, left, interval) {
      var now := if LastRun(left).None? then t else (LastRun(left).value as int + interval as int) as i64;
      assert IsDueAt(left, Some(now), interval) && (now as int) < t as int + interval as int;
    }
  }

  /** What the stamp file is like after a write: the new epoch, or anything when the write failed. */
  datatype Write = Written(modified: Option<i64>) | Failed(left: Stamp)

  function StampAfter(w: Write, now: Option<i64>): Stamp {
    match w
    case Written(modified) => Stamp(Some(RecordedEpoch(now)), modified)
    case Failed(left) => left
  }

  datatype RunResult = LockedByOther | NotDue | CleanupFailed | Cleaned

  class HousekeepingRoot {
    var locked: bool
    var stamp: Stamp

    constructor (stamp: Stamp)
      ensures !locked && this.stamp == stamp
    {
      locked := false;
      this.stamp := stamp;
    }

    method TryAcquireLock() returns (acquired: bool)
      modifies this`locked
      ensures acquired == !old(locked) && locked
    {
      acquired := !locked;
      locked := true;
    }

    method RecordRunAt(now: Option<i64>, write: Write)
      modifies this`stamp
      ensures write.Failed? ==> stamp == write.left
      ensures write.Written? ==> stamp == Stamp(Some(if now.Some? then now.value else 0), write.modified)
      ensures write.Written? ==> forall interval: i64 | interval > 0 :: KeepsSpacing(RecordedEpoch(now), stamp, interval)
    {
      stamp := match write case Written(modified) => Stamp(Some(RecordedEpoch(now)), modified) case Failed(left) => left;
    }

    /** One process by itself; `cleanupOk` and `write` are how its cleanup and its stamp write turn out. */
    method RunForPathsAt(now: Option<i64>, interval: i64, cleanupOk: bool, write: Write) returns (r: RunResult)
      modifies this
      ensures locked == old(locked)
      ensures r.LockedByOther? <==> old(locked)
      ensures r.NotDue? <==> !old(locked) && !IsDueAt(old(stamp), now, interval)
      ensures r.Cleaned? <==> !old(locked) && IsDueAt(old(stamp), now, interval) && cleanupOk
      ensures stamp == if r.Cleaned? then StampAfter(write, now) else old(stamp)
    {
      var acquired := TryAcquireLock();
      if !acquired {
        return LockedByOther;
      }
      if !IsDueAt(stamp, now, interval) {
        r := NotDue;
      } else if !cleanupOk {
        r := CleanupFailed;
      } else {
        RecordRunAt(now, write);
        r := Cleaned;
      }
      locked := false;
    }
  }

  // ----- Many processes

  datatype Phase =
    | Sampled(now: Option<i64>)
    | HoldsLock(now: Option<i64>)
    | Cleaning(now: Option<i64>)
    | CleanupDone(now: Option<i64>)
    | Recorded
    | Finished

  datatype Mark = Begin(process: nat) | End(process: nat)

  /** `stamps` lists the recorded epochs of completed passes; `kept` says whether every stamp write left one that keeps
      the spacing; `log` marks where passes begin and end. */
  datatype State = State(
    lock: Option<nat>, stamp: Stamp, processes: seq<Phase>, stamps: seq<i64>, kept: bool, log: seq<Mark>)

  datatype Event =
    | Start(now: Option<i64>)
    | Acquire(process: nat)
    | CheckDue(process: nat)
    | Clean(process: nat, ok: bool)
    | Record(process: nat, write: Write)
    | Release(process: nat)
    | Crash(process: nat)

  predicate Enabled(s: State, e: Event) {
    e.Start? ||
    (e.process < |s.processes| &&
     var p := s.processes[e.process];
     match e
     case Start(_) => true
     case Acquire(_) => p.Sampled?
     case CheckDue(_) => p.HoldsLock?
     case Clean(_, _) => p.Cleaning?
     case Record(_, _) => p.CleanupDone?
     case Release(_) => p.Recorded?
     case Crash(_) => !p.Finished?)
  }

  function Moved(s: State, i: nat, p: Phase): State
    requires i < |s.processes|
  {
    s.(processes := s.processes[i := p])
  }

  function Unlocked(s: State, i: nat): State
    requires i < |s.processes|
  {
    Moved(s, i, Finished).(lock := None)
  }

  /** The operating system drops the lock of a process that ends, however it ends. */
  function Step(interval: i64, s: State, e: Event): State
    requires Enabled(s, e)
  {
    match e
    case Start(now) => s.(processes := s.processes + [Sampled(now)])
    case Acquire(i) =>
      if s.lock.Some? then Moved(s, i, Finished)
      else Moved(s, i, HoldsLock(s.processes[i].now)).(lock := Some(i))
    case CheckDue(i) =>
      var now := s.processes[i].now;
      if IsDueAt(s.stamp, now, interval) then Moved(s, i, Cleaning(now)).(log := s.log + [Begin(i)])
      else Unlocked(s, i)
    case Clean(i, ok) =>
      var ended := s.(log := s.log + [End(i)]);
      if ok then Moved(ended, i, CleanupDone(s.processes[i].now)) else Unlocked(ended, i)
    case Record(i, write) =>
      var now := s.processes[i].now;
      Moved(s, i, Recorded).(
        stamp := StampAfter(write, now),
        stamps := s.stamps + [RecordedEpoch(now)],
        kept := s.kept && KeepsSpacing(RecordedEpoch(now), StampAfter(write, now), interval))
    case Release(i) => Unlocked(s, i)
    case Crash(i) =>
      var log := if s.processes[i].Cleaning? then s.log + [End(i)] else s.log;
      if s.lock == Some(i) then Unlocked(s, i).(log := log) else Moved(s, i, Finished)
  }

  function Run(interval: i64, stamp: Stamp, events: seq<Event>): Option<State> {
    if events == [] then Some(State(None, stamp, [], [], true, [])) else
      var n := |events| - 1;
      match Run(interval, stamp, events[..n])
      case None => None
      case Some(s) => if Enabled(s, events[n]) then Some(Step(interval, s, events[n])) else None
  }

  predicate InCriticalSection(p: Phase) {
    !p.Sampled? && !p.Finished?
  }

  /** Marks come in pairs: a pass ends before the next begins. */
  ghost predicate Bracketed(log: seq<Mark>) {
    forall i | 0 <= i < |log| :: InTurn(log, i)
  }

  predicate InTurn(log: seq<Mark>, i: nat)
    requires i < |log|
  {
    if i % 2 == 0 then log[i].Begin? else log[i] == End(log[i - 1].process)
  }

  ghost predicate SpacedBy(stamps: seq<i64>, interval: int) {
    forall i | 0 <= i < |stamps| - 1 :: stamps[i + 1] as int >= stamps[i] as int + interval
  }

  /** The pass in progress is far enough from the last recorded one. */
  ghost predicate FarEnough(interval: i64, now: Option<i64>, stamps: seq<i64>) {
    interval > 0 ==> now.Some? && (stamps != [] ==> now.value as int >= stamps[|stamps| - 1] as int + interval as int)
  }

  ghost predicate LockInv(s: State) {
    && (forall i | 0 <= i < |s.processes| :: InCriticalSection(s.processes[i]) ==> s.lock == Some(i))
    && (s.lock.Some? ==> s.lock.value < |s.processes| && InCriticalSection(s.processes[s.lock.value]))
  }

  ghost predicate LogInv(s: State) {
    && Bracketed(s.log)
    && (|s.log| % 2 == 1 ==> s.lock.Some? && s.lock == Some(s.log[|s.log| - 1].process)
                             && s.lock.value < |s.processes| && s.processes[s.lock.value].Cleaning?)
    && (forall i | 0 <= i < |s.processes| :: s.processes[i].Cleaning? ==> |s.log| % 2 == 1)
  }

  ghost predicate StampInv(interval: i64, s: State) {
    s.kept && interval > 0 ==>
      && SpacedBy(s.stamps, interval as int)
      && (s.stamps != [] ==> KeepsSpacing(s.stamps[|s.stamps| - 1], s.stamp, interval))
      && (forall i | 0 <= i < |s.processes| :: s.processes[i].Cleaning? || s.processes[i].CleanupDone? ==>
            FarEnough(interval, s.processes[i].now, s.stamps))
  }

  lemma StepKeepsLock(interval: i64, s: State, e: Event)
    requires LockInv(s) && Enabled(s, e)
    ensures LockInv(Step(interval, s, e))
  {
  }

  lemma StepKeepsLog(interval: i64, s: State, e: Event)
    requires LockInv(s) && LogInv(s) && Enabled(s, e)
    ensures LogInv(Step(interval, s, e))
  {
    match e {
      case Start(now) =>
        assert forall i | 0 <= i < |s.processes| :: (s.processes + [Sampled(now)])[i] == s.processes[i];
      case CheckDue(i) =>
        assert s.lock == Some(i) && |s.log| % 2 == 0;
        BracketedGrows(s.log, Begin(i));
      case Clean(i, ok) =>
        CleanKeepsLog(interval, s, i, ok);
      case Crash(i) =>
        CrashKeepsLog(interval, s, i);
      case _ =>
    }
  }

  lemma CleanKeepsLog(interval: i64, s: State, i: nat, ok: bool)
    requires LockInv(s) && LogInv(s) && Enabled(s, Clean(i, ok))
    ensures LogInv(Step(interval, s, Clean(i, ok)))
  {
    assert s.lock == Some(i) && |s.log| % 2 == 1;
    BracketedGrows(s.log, End(i));
  }

  lemma CrashKeepsLog(interval: i64, s: State, i: nat)
    requires LockInv(s) && LogInv(s) && Enabled(s, Crash(i))
    ensures LogInv(Step(interval, s, Crash(i)))
  {
    if s.processes[i].Cleaning? {
      assert s.lock == Some(i) && |s.log| % 2 == 1;
      BracketedGrows(s.log, End(i));
    }
  }

  lemma BracketedGrows(log: seq<Mark>, m: Mark)
    requires Bracketed(log)
    requires if |log| % 2 == 0 then m.Begin? else m == End(log[|log| - 1].process)
    ensures Bracketed(log + [m])
  {
    var grown := log + [m];
    forall i | 0 <= i < |grown|
      ensures InTurn(grown, i)
    {
      if i < |log| {
        assert InTurn(log, i);
      }
    }
  }

  lemma StepKeepsStamps(interval: i64, s: State, e: Event)
    requires LockInv(s) && StampInv(interval, s) && Enabled(s, e)
    ensures StampInv(interval, Step(interval, s, e))
  {
    match e {
      case Start(now) =>
        OnePhase(interval, s, s.processes + [Sampled(now)], |s.processes|);
      case Record(i, write) =>
        RecordKeepsStamps(interval, s, i, write);
      case CheckDue(i) =>
        CheckKeepsStamps(interval, s, i);
      case Acquire(i) =>
        OnePhase(interval, s, Step(interval, s, e).processes, i);
      case Clean(i, _) =>
        OnePhase(interval, s, Step(interval, s, e).processes, i);
      case Release(i) =>
        OnePhase(interval, s, Step(interval, s, e).processes, i);
      case Crash(i) =>
        OnePhase(interval, s, Step(interval, s, e).processes, i);
    }
  }

  ghost predicate FarInPass(interval: i64, p: Phase, stamps: seq<i64>) {
    p.Cleaning? || p.CleanupDone? ==> FarEnough(interval, p.now, stamps)
  }

  /** One process moves on, with a pass in progress only if it was that of a pass before. */
  lemma OnePhase(interval: i64, s: State, processes: seq<Phase>, i: nat)
    requires StampInv(interval, s) && |s.processes| <= |processes| && i < |processes|
    requires forall j | 0 <= j < |processes| && j != i :: j < |s.processes| && processes[j] == s.processes[j]
    requires s.kept && interval > 0 ==> FarInPass(interval, processes[i], s.stamps)
    ensures StampInv(interval, s.(processes := processes))
  {
  }

  lemma RecordKeepsStamps(interval: i64, s: State, i: nat, write: Write)
    requires LockInv(s) && StampInv(interval, s) && Enabled(s, Record(i, write))
    ensures StampInv(interval, Step(interval, s, Record(i, write)))
  {
    var now, t := s.processes[i].now, Step(interval, s, Record(i, write));
    if t.kept && interval > 0 {
      assert FarInPass(interval, s.processes[i], s.stamps);
      SpacedGrows(s.stamps, interval as int, RecordedEpoch(now));
      forall j | 0 <= j < |t.processes|
        ensures !t.processes[j].Cleaning? && !t.processes[j].CleanupDone?
      {
        assert j != i ==> !InCriticalSection(s.processes[j]);
      }
    }
  }

  lemma SpacedGrows(stamps: seq<i64>, interval: int, next: i64)
    requires SpacedBy(stamps, interval) && (stamps != [] ==> next as int >= stamps[|stamps| - 1] as int + interval)
    ensures SpacedBy(stamps + [next], interval)
  {
  }

  lemma CheckKeepsStamps(interval: i64, s: State, i: nat)
    requires LockInv(s) && StampInv(interval, s) && Enabled(s, CheckDue(i))
    ensures StampInv(interval, Step(interval, s, CheckDue(i)))
  {
    var now := s.processes[i].now;
    if s.kept && interval > 0 && IsDueAt(s.stamp, now, interval) {
      DueMeansElapsed(s.stamp, now, interval);
      if s.stamps != [] {
        SpacingIsKept(s.stamps[|s.stamps| - 1], s.stamp, interval);
      }
    }
    OnePhase(interval, s, Step(interval, s, CheckDue(i)).processes, i);
  }

  lemma {:induction false} RunKeepsInv(interval: i64, stamp: Stamp, events: seq<Event>)
    requires Run(interval, stamp, events).Some?
    ensures var s := Run(interval, stamp, events).value;
            LockInv(s) && LogInv(s) && StampInv(interval, s)
  {
    if events != [] {
      var n := |events| - 1;
      RunKeepsInv(interval, stamp, events[..n]);
      var s := Run(interval, stamp, events[..n]).value;
      StepKeepsLock(interval, s, events[n]);
      StepKeepsLog(interval, s, events[n]);
      StepKeepsStamps(interval, s, events[n]);
    }
  }

  /** Over any interleaving, crashes included: no two processes clean at once, and in the record of the whole run every
      pass ends before the next begins. */
  lemma PassesNeverOverlap(interval: i64, stamp: Stamp, events: seq<Event>)
    requires Run(interval, stamp, events).Some?
    ensures var s := Run(interval, stamp, events).value;
            && Bracketed(s.log)
            && forall i, j | 0 <= i < |s.processes| && 0 <= j < |s.processes| ::
                 InCriticalSection(s.processes[i]) && InCriticalSection(s.processes[j]) ==> i == j
  {
    RunKeepsInv(interval, stamp, events);
  }

  /** As long as every stamp write, failed ones included, leaves a stamp that keeps the spacing: the stamps of completed
      passes are an interval apart, though every process read its clock before it had the lock. */
  lemma PassesAreSpaced(interval: i64, stamp: Stamp, events: seq<Event>, i: nat, j: nat)
    requires interval > 0 && Run(interval, stamp, events).Some? && Run(interval, stamp, events).value.kept
    requires i < j < |Run(interval, stamp, events).value.stamps|
    ensures var stamps := Run(interval, stamp, events).value.stamps;
            stamps[j] as int >= stamps[i] as int + (j - i) * interval as int
  {
    RunKeepsInv(interval, stamp, events);
    SpacingAddsUp(Run(interval, stamp, events).value.stamps, interval as int, i, j);
  }

  lemma {:induction false} SpacingAddsUp(stamps: seq<i64>, interval: int, i: nat, j: nat)
    requires SpacedBy(stamps, interval) && i < j < |stamps|
    ensures stamps[j] as int >= stamps[i] as int + (j - i) * interval
    decreases j
  {
    assert stamps[j - 1 + 1] as int >= stamps[j - 1] as int + interval;
    if i < j - 1 {
      SpacingAddsUp(stamps, interval, i, j - 1);
      assert (j - 1 - i) * interval + interval == (j - i) * interval;
    }
  }

  // ----- What a pass leaves decides when the next can follow

  /** Since a moment without a pass in progress, the stamp is what it was until the next pass is recorded, and that pass
      found itself due by that stamp. */
  ghost predicate FollowsFrom(interval: i64, s: State, u: State) {
    && s.stamps <= u.stamps
    && (|u.stamps| == |s.stamps| ==>
          && u.stamp == s.stamp
          && forall i | 0 <= i < |u.processes| :: DueInPass(interval, s.stamp, u.processes[i]))
    && (|u.stamps| > |s.stamps| ==> RecordedWhenDue(interval, s.stamp, u.stamps[|s.stamps|]))
  }

  predicate DueInPass(interval: i64, stamp: Stamp, p: Phase) {
    p.Cleaning? || p.CleanupDone? ==> IsDueAt(stamp, p.now, interval)
  }

  ghost predicate RecordedWhenDue(interval: i64, stamp: Stamp, epoch: i64) {
    exists now :: IsDueAt(stamp, now, interval) && epoch == RecordedEpoch(now)
  }

  lemma StepFollows(interval: i64, s: State, u: State, e: Event)
    requires FollowsFrom(interval, s, u) && Enabled(u, e)
    ensures FollowsFrom(interval, s, Step(interval, u, e))
  {
    match e {
      case Record(i, write) =>
        assert DueInPass(interval, s.stamp, u.processes[i]) || |u.stamps| > |s.stamps|;
      case _ =>
    }
  }

  lemma {:induction false} RunFollows(interval: i64, stamp: Stamp, events: seq<Event>, longer: seq<Event>)
    requires Run(interval, stamp, events).Some? && Run(interval, stamp, events).value.lock == None
    requires events <= longer && Run(interval, stamp, longer).Some?
    ensures FollowsFrom(interval, Run(interval, stamp, events).value, Run(interval, stamp, longer).value)
    decreases |longer|
  {
    if events == longer {
      RunKeepsInv(interval, stamp, events);
    } else {
      var n := |longer| - 1;
      assert events <= longer[..n];
      RunFollows(interval, stamp, events, longer[..n]);
      StepFollows(interval, Run(interval, stamp, events).value, Run(interval, stamp, longer[..n]).value, longer[n]);
    }
  }

  /** A run goes on to a next recorded pass that is too close to the last one. */
  ghost predicate TooCloseNext(interval: i64, stamp: Stamp, events: seq<Event>, longer: seq<Event>) {
    && events <= longer && Run(interval, stamp, events).Some? && Run(interval, stamp, longer).Some?
    && var before, after := Run(interval, stamp, events).value.stamps, Run(interval, stamp, longer).value.stamps;
       && 0 < |before| < |after|
       && (after[|before|] as int) < before[|before| - 1] as int + interval as int
  }

  lemma NeverTooClose(interval: i64, stamp: Stamp, events: seq<Event>, longer: seq<Event>)
    requires interval > 0 && Run(interval, stamp, events).Some?
    requires var s := Run(interval, stamp, events).value;
             s.lock == None && s.stamps != [] && KeepsSpacing(s.stamps[|s.stamps| - 1], s.stamp, interval)
    ensures !TooCloseNext(interval, stamp, events, longer)
  {
    if events <= longer && Run(interval, stamp, longer).Some? {
      var s, u := Run(interval, stamp, events).value, Run(interval, stamp, longer).value;
      RunFollows(interval, stamp, events, longer);
      if |u.stamps| > |s.stamps| {
        DueIsSpaced(interval, s.stamp, s.stamps[|s.stamps| - 1], u.stamps[|s.stamps|]);
      }
    }
  }

  lemma DueIsSpaced(interval: i64, left: Stamp, last: i64, epoch: i64)
    requires interval > 0 && KeepsSpacing(last, left, interval) && RecordedWhenDue(interval, left, epoch)
    ensures epoch as int >= last as int + interval as int
  {
    SpacingIsKept(last, left, interval);
  }

  lemma TooCloseAfter(interval: i64, stamp: Stamp, events: seq<Event>) returns (longer: seq<Event>)
    requires interval > 0 && Run(interval, stamp, events).Some?
    requires var s := Run(interval, stamp, events).value;
             s.lock == None && s.stamps != [] && !KeepsSpacing(s.stamps[|s.stamps| - 1], s.stamp, interval)
    ensures TooCloseNext(interval, stamp, events, longer)
  {
    var s := Run(interval, stamp, events).value;
    var now := DueTooEarly(interval, s.stamp, s.stamps[|s.stamps| - 1]);
    longer := PassAt(interval, stamp, events, Some(now));
  }

  lemma DueTooEarly(interval: i64, left: Stamp, last: i64) returns (now: i64)
    requires interval > 0 && !KeepsSpacing(last, left, interval)
    ensures IsDueAt(left, Some(now), interval) && (now as int) < last as int + interval as int
  {
    now := if LastRun(left).None? then last else (LastRun(left).value as int + interval as int) as i64;
  }

  /** Between passes: the next pass can be recorded too close to the last one exactly when the stamp that the last one
      left does not keep the spacing. */
  lemma NextPassMayBeTooClose(interval: i64, stamp: Stamp, events: seq<Event>)
    requires interval > 0 && Run(interval, stamp, events).Some?
    requires var s := Run(interval, stamp, events).value; s.lock == None && s.stamps != []
    ensures var s := Run(interval, stamp, events).value;
            (exists longer :: TooCloseNext(interval, stamp, events, longer)) <==>
            !KeepsSpacing(s.stamps[|s.stamps| - 1], s.stamp, interval)
  {
    var s := Run(interval, stamp, events).value;
    if KeepsSpacing(s.stamps[|s.stamps| - 1], s.stamp, interval) {
      forall longer
        ensures !TooCloseNext(interval, stamp, events, longer)
      {
        NeverTooClose(interval, stamp, events, longer);
      }
    } else {
      var longer := TooCloseAfter(interval, stamp, events);
    }
  }

  lemma PassAt(interval: i64, stamp: Stamp, events: seq<Event>, now: Option<i64>) returns (longer: seq<Event>)
    requires Run(interval, stamp, events).Some?
    requires var s := Run(interval, stamp, events).value; s.lock == None && IsDueAt(s.stamp, now, interval)
    ensures events <= longer && Run(interval, stamp, longer).Some?
    ensures Run(interval, stamp, longer).value.stamps == Run(interval, stamp, events).value.stamps + [RecordedEpoch(now)]
  {
    var i := |Run(interval, stamp, events).value.processes|;
    longer := RunExtends(interval, stamp, events, Start(now));
    longer := RunExtends(interval, stamp, longer, Acquire(i));
    longer := RunExtends(interval, stamp, longer, CheckDue(i));
    longer := RunExtends(interval, stamp, longer, Clean(i, true));
    longer := RunExtends(interval, stamp, longer, Record(i, Written(None)));
  }

  lemma RunExtends(interval: i64, stamp: Stamp, events: seq<Event>, e: Event) returns (longer: seq<Event>)
    requires Run(interval, stamp, events).Some? && Enabled(Run(interval, stamp, events).value, e)
    ensures Run(interval, stamp, longer) == Some(Step(interval, Run(interval, stamp, events).value, e))
    ensures longer == events + [e]
  {
    longer := events + [e];
    assert longer[..|events|] == events;
  }

  lemma PassWithoutStamp(interval: i64, missing: Stamp, events: seq<Event>) returns (longer: seq<Event>)
    requires missing == Stamp(None, None)
    requires var run := Run(interval, missing, events); run.Some? && run.value.lock == None && run.value.stamp == missing
    ensures var s, run := Run(interval, missing, events).value, Run(interval, missing, longer);
            && run.Some? && run.value.lock == None && run.value.stamp == missing
            && run.value.stamps == s.stamps + [7]
  {
    var i := |Run(interval, missing, events).value.processes|;
    longer := RunExtends(interval, missing, events, Start(Some(7)));
    longer := RunExtends(interval, missing, longer, Acquire(i));
    longer := RunExtends(interval, missing, longer, CheckDue(i));
    longer := RunExtends(interval, missing, longer, Clean(i, true));
    longer := RunExtends(interval, missing, longer, Record(i, Failed(missing)));
    longer := RunExtends(interval, missing, longer, Release(i));
  }

  /** A failed stamp write is not noticed: two passes can then follow each other at once. */
  lemma FailedWriteLosesSpacing(interval: i64)
    ensures exists events ::
              var run := Run(interval, Stamp(None, None), events);
              run.Some? && |run.value.stamps| == 2 && run.value.stamps[0] == run.value.stamps[1]
  {
    var events := PassWithoutStamp(interval, Stamp(None, None), []);
    events := PassWithoutStamp(interval, Stamp(None, None), events);
    assert Run(interval, Stamp(None, None), events).value.stamps == [7, 7];
  }
}
