/** The concurrent half of processing a range: a producer queues the heights, up to eight workers fetch
    them into one slot per height, and a single consumer takes the slots in order. The steps of all of
    them interleave freely; the context can be cancelled at any moment. */
module Prefetch {
  import opened Prelude
  import opened Poller

  const MAX_CONCURRENCY := 8

  datatype Worker = Waiting | Fetching(n: nat) | Exited

  /** One call: the range, what the node and the store answer, and where the consumer starts. */
  datatype Call = Call(next: nat, end: nat, env: nat -> BlockEnv, from: Progress)

  /** The job channel is first-in first-out and receives consecutive heights, so it is the interval
      [taken, pushed). `cancelled` is the shared context, `outside` that its parent was cancelled. */
  datatype State = State(
    pushed: nat, taken: nat, workers: seq<Worker>, slots: map<nat, Option<Block>>,
    number: nat, progress: Progress, done: bool, cancelled: bool, outside: bool)

  datatype Step =
    | Push
    | Take(worker: nat)
    | Leave(worker: nat)
    | Fill(worker: nat, interrupted: bool)
    | Consume
    | SeeCancel
    | Finish
    | CancelOutside

  ghost predicate ValidCall(c: Call)
  {
    && c.next <= c.end && !c.from.failed
    && (forall n: nat :: !c.env(n).cancelled)
  }

  function Initial(c: Call): State
    requires c.next <= c.end
  {
    State(c.next, c.next, seq(Min(c.end - c.next + 1, MAX_CONCURRENCY), _ => Waiting), map[],
      c.next, c.from, false, false, false)
  }

  /** The consumer starts once every job is queued and the channel is closed. */
  predicate Consuming(c: Call, s: State)
  {
    s.pushed > c.end && !s.done
  }

  predicate Enabled(c: Call, s: State, step: Step)
  {
    match step
    case Push => s.pushed <= c.end
    case Take(i) => i < |s.workers| && s.workers[i] == Waiting && s.taken < s.pushed
    case Leave(i) => i < |s.workers| && s.workers[i] == Waiting && s.taken >= s.pushed > c.end
    case Fill(i, interrupted) => i < |s.workers| && s.workers[i].Fetching? && (interrupted ==> s.cancelled)
    case Consume => Consuming(c, s) && s.number <= c.end && s.number in s.slots
    case SeeCancel => Consuming(c, s) && s.number <= c.end && s.cancelled
    case Finish => Consuming(c, s) && s.number > c.end
    case CancelOutside => !s.cancelled
  }

  function Next(c: Call, s: State, step: Step): State
    requires Enabled(c, s, step)
  {
    match step
    case Push => s.(pushed := s.pushed + 1)
    // A worker that meets a cancelled context drops the height it has just taken.
    case Take(i) =>
      s.(taken := s.taken + 1, workers := s.workers[i := if s.cancelled then Exited else Fetching(s.taken)])
    case Leave(i) => s.(workers := s.workers[i := Exited])
    case Fill(i, interrupted) =>
      var n := s.workers[i].n;
      s.(slots := s.slots[n := if interrupted then None else Fetched(c.env(n), n)], workers := s.workers[i := Waiting])
    case Consume =>
      var p := ProcessOne(s.progress, s.number, c.env(s.number).(fetched := s.slots[s.number]));
      if p.failed then s.(progress := p, done := true, cancelled := true)
      else s.(progress := p, number := s.number + 1)
    case SeeCancel => s.(progress := Fail(s.progress, s.progress.db), done := true)
    case Finish => s.(done := true)
    case CancelOutside => s.(cancelled := true, outside := true)
  }

  ghost predicate ValidRun(c: Call, s: State, steps: seq<Step>)
    decreases |steps|
  {
    steps == [] || (Enabled(c, s, steps[0]) && ValidRun(c, Next(c, s, steps[0]), steps[1..]))
  }

  ghost function Run(c: Call, s: State, steps: seq<Step>): State
    requires ValidRun(c, s, steps)
    decreases |steps|
  {
    if steps == [] then s else Run(c, Next(c, s, steps[0]), steps[1..])
  }

  // ----- Where every height is -----

  ghost predicate BeingFetched(s: State, n: nat)
  {
    exists i :: 0 <= i < |s.workers| && s.workers[i] == Fetching(n)
  }

  ghost predicate Accounted(c: Call, s: State)
  {
    && c.next <= s.taken <= s.pushed <= c.end + 1 && |s.workers| >= 1
    && (forall n :: n in s.slots ==> c.next <= n < s.taken)
    && (forall n: nat :: c.next <= n < s.taken ==> n in s.slots || BeingFetched(s, n) || s.cancelled)
    && (forall i :: 0 <= i < |s.workers| && s.workers[i].Fetching? ==>
          c.next <= s.workers[i].n < s.taken && s.workers[i].n !in s.slots)
    && (forall i, j :: 0 <= i < j < |s.workers| && s.workers[i].Fetching? ==> s.workers[i] != s.workers[j])
    && (forall i :: 0 <= i < |s.workers| && s.workers[i].Exited? ==> s.cancelled || s.taken > c.end)
  }

  /** What the slots hold: the block fetched for that very height, or an interruption. */
  ghost predicate SlotsFaithful(c: Call, s: State)
  {
    forall n :: n in s.slots ==> s.slots[n] == Fetched(c.env(n), n) || (s.slots[n] == None && s.cancelled)
  }

  /** The consumer is where the sequential loop would be after the heights below `number`. */
  ghost predicate ConsumerFollows(c: Call, s: State)
  {
    && c.next <= s.number <= c.end + 1
    && (s.cancelled ==> s.outside || s.done)
    && (!s.done ==> !s.progress.failed)
    && (!s.progress.failed ==> s.progress == ProcessRange(c.from, c.next, s.number - 1, c.env))
    && (s.done && !s.outside ==> s.progress == ProcessRange(c.from, c.next, c.end, c.env))
    && (s.progress.failed ==>
          exists k :: c.next - 1 <= k <= c.end && s.progress.db == ProcessRange(c.from, c.next, k, c.env).db)
  }

  lemma StepKeepsAccounted(c: Call, s: State, step: Step)
    requires Accounted(c, s) && Enabled(c, s, step)
    ensures Accounted(c, Next(c, s, step))
  {
    hide ProcessOne;
    match step
    case Take(i) => TakeKeepsAccounted(c, s, i);
    case Leave(i) => LeaveKeepsAccounted(c, s, i);
    case Fill(i, interrupted) => FillKeepsAccounted(c, s, i, interrupted);
    case _ =>
      var s' := Next(c, s, step);
      forall n | BeingFetched(s, n) ensures BeingFetched(s', n) { }
  }

  lemma TakeKeepsAccounted(c: Call, s: State, i: nat)
    requires Accounted(c, s) && Enabled(c, s, Take(i))
    ensures Accounted(c, Next(c, s, Take(i)))
  {
    var s' := Next(c, s, Take(i));
    forall n: nat | c.next <= n < s'.taken && !s'.cancelled ensures n in s'.slots || BeingFetched(s', n) {
      if n == s.taken {
        assert s'.workers[i] == Fetching(n);
      } else if n !in s.slots {
        var j :| 0 <= j < |s.workers| && s.workers[j] == Fetching(n);
        assert s'.workers[j] == Fetching(n);
      }
    }
  }

  lemma LeaveKeepsAccounted(c: Call, s: State, i: nat)
    requires Accounted(c, s) && Enabled(c, s, Leave(i))
    ensures Accounted(c, Next(c, s, Leave(i)))
  {
    var s' := Next(c, s, Leave(i));
    forall n: nat | BeingFetched(s, n) ensures BeingFetched(s', n) {
      var j :| 0 <= j < |s.workers| && s.workers[j] == Fetching(n);
      assert s'.workers[j] == Fetching(n);
    }
  }

  lemma FillKeepsAccounted(c: Call, s: State, i: nat, interrupted: bool)
    requires Accounted(c, s) && Enabled(c, s, Fill(i, interrupted))
    ensures Accounted(c, Next(c, s, Fill(i, interrupted)))
  {
    var s' := Next(c, s, Fill(i, interrupted));
    forall n: nat | BeingFetched(s, n) && n !in s'.slots ensures BeingFetched(s', n) {
      var j :| 0 <= j < |s.workers| && s.workers[j] == Fetching(n);
      assert s'.workers[j] == Fetching(n);
    }
  }

  /** The sequential loop, read from its last height. */
  lemma {:induction false} RangeFromTheEnd(p: Progress, next: nat, n: nat, env: nat -> BlockEnv)
    requires next <= n
    ensures var before := ProcessRange(p, next, n - 1, env);
      ProcessRange(p, next, n, env) == if before.failed then before else ProcessOne(before, n, env(n))
    decreases n - next
  {
    hide ProcessOne;
    if !p.failed && next < n {
      RangeFromTheEnd(ProcessOne(p, next, env(next)), next + 1, n, env);
    } else if !p.failed {
      assert ProcessRange(ProcessOne(p, n, env(n)), n + 1, n, env) == ProcessOne(p, n, env(n));
    }
  }

  lemma {:induction false} FailedRangeStays(p: Progress, next: nat, n: int, end: int, env: nat -> BlockEnv)
    requires next - 1 <= n <= end && ProcessRange(p, next, n, env).failed
    ensures ProcessRange(p, next, end, env) == ProcessRange(p, next, n, env)
    decreases end - n
  {
    hide ProcessOne;
    if n < end {
      FailedRangeStays(p, next, n, end - 1, env);
      RangeFromTheEnd(p, next, end, env);
    }
  }

  lemma SameSlotSameStep(p: Progress, n: nat, e: BlockEnv)
    ensures ProcessOne(p, n, e.(fetched := Fetched(e, n))) == ProcessOne(p, n, e)
  {
  }

  lemma ConsumeFollows(c: Call, s: State)
    requires ValidCall(c) && ConsumerFollows(c, s) && SlotsFaithful(c, s) && Enabled(c, s, Consume)
    ensures ConsumerFollows(c, Next(c, s, Consume))
  {
    hide ProcessOne, Fetched;
    var n, e := s.number, c.env(s.number);
    RangeFromTheEnd(c.from, c.next, n, c.env);
    SameSlotSameStep(s.progress, n, e);
    if s.slots[n] == Fetched(e, n) {
      var p := ProcessOne(s.progress, n, e);
      assert p == ProcessRange(c.from, c.next, n, c.env);
      if p.failed { FailedRangeStays(c.from, c.next, n, c.end, c.env); }
    } else {
      InterruptedSlot(s.progress, n, e);
    }
  }

  lemma InterruptedSlot(p: Progress, n: nat, e: BlockEnv)
    ensures ProcessOne(p, n, e.(fetched := None)).failed && ProcessOne(p, n, e.(fetched := None)).db == p.db
  {
  }

  ghost predicate Invariant(c: Call, s: State)
  {
    Accounted(c, s) && SlotsFaithful(c, s) && ConsumerFollows(c, s)
  }

  lemma StepKeepsInvariant(c: Call, s: State, step: Step)
    requires ValidCall(c) && Invariant(c, s) && Enabled(c, s, step)
    ensures Invariant(c, Next(c, s, step))
  {
    hide ProcessOne, ProcessRange, Accounted;
    StepKeepsAccounted(c, s, step);
    match step
    case Consume => ConsumeFollows(c, s);
    case SeeCancel =>
    case _ =>
  }

  lemma InitialInvariant(c: Call)
    requires ValidCall(c)
    ensures Invariant(c, Initial(c))
  {
  }

  lemma {:induction false} RunKeepsInvariant(c: Call, s: State, steps: seq<Step>)
    requires ValidCall(c) && Invariant(c, s) && ValidRun(c, s, steps)
    ensures Invariant(c, Run(c, s, steps))
    decreases |steps|
  {
    hide Invariant;
    if steps != [] {
      StepKeepsInvariant(c, s, steps[0]);
      RunKeepsInvariant(c, Next(c, s, steps[0]), steps[1..]);
    }
  }

  // ----- Results -----

  /** Under every schedule of the workers: as long as the parent context is not cancelled the call ends
      exactly as the sequential fetch-check-process loop ends, stopped at its first error; and at any
      moment of any schedule, cancelled or not, the database is that of a prefix of that loop. */
  lemma EveryScheduleIsSequential(c: Call, steps: seq<Step>)
    requires ValidCall(c) && ValidRun(c, Initial(c), steps)
    ensures var s := Run(c, Initial(c), steps);
      && (s.done && !s.outside ==> s.progress == ProcessRange(c.from, c.next, c.end, c.env))
      && exists k :: c.next - 1 <= k <= c.end && s.progress.db == ProcessRange(c.from, c.next, k, c.env).db
  {
    hide ProcessRange, Accounted;
    InitialInvariant(c);
    RunKeepsInvariant(c, Initial(c), steps);
    var s := Run(c, Initial(c), steps);
    if !s.progress.failed {
      assert s.progress.db == ProcessRange(c.from, c.next, s.number - 1, c.env).db;
    }
  }

  /** From a sound store on, whatever is committed under any schedule continues the watermark block by block. */
  lemma EveryScheduleCommitsInOrder(c: Call, steps: seq<Step>)
    requires ValidCall(c) && ValidRun(c, Initial(c), steps)
    requires Sound(c.from.db) && InStep(c.from, c.next)
    ensures var db := Run(c, Initial(c), steps).progress.db;
      Sound(db) && Advances(c.from.db, db) && (GapFree(c.from.db) ==> GapFree(db))
  {
    hide ProcessRange, Accounted, Sound, GapFree;
    EveryScheduleIsSequential(c, steps);
    var db := Run(c, Initial(c), steps).progress.db;
    var k :| c.next - 1 <= k <= c.end && db == ProcessRange(c.from, c.next, k, c.env).db;
    ProcessRangeKeeps(c.from, c.next, k, c.env);
  }

  /** From whatever store, under every schedule, cancelled or not, what the call has committed at any moment is
      the first heights of the range, in order and without a gap. */
  lemma EveryScheduleCommitsTheRange(c: Call, steps: seq<Step>)
    requires ValidCall(c) && ValidRun(c, Initial(c), steps)
    ensures CommitsFrom(c.from.db.log, Run(c, Initial(c), steps).progress.db.log, c.next)
  {
    hide ProcessRange, Accounted, CommitsFrom;
    EveryScheduleIsSequential(c, steps);
    var db := Run(c, Initial(c), steps).progress.db;
    var k :| c.next - 1 <= k <= c.end && db == ProcessRange(c.from, c.next, k, c.env).db;
    RangeCommits(c.from, c.next, k, c.env);
  }

  lemma Reachable(c: Call, steps: seq<Step>)
    requires ValidCall(c) && ValidRun(c, Initial(c), steps)
    ensures Invariant(c, Run(c, Initial(c), steps))
    ensures |Run(c, Initial(c), steps).workers| == Min(c.end - c.next + 1, MAX_CONCURRENCY)
  {
    hide Invariant;
    InitialInvariant(c);
    RunKeepsInvariant(c, Initial(c), steps);
    WorkersStay(c, Initial(c), steps);
  }

  lemma {:induction false} WorkersStay(c: Call, s: State, steps: seq<Step>)
    requires ValidRun(c, s, steps)
    ensures |Run(c, s, steps).workers| == |s.workers|
    decreases |steps|
  {
    hide ProcessOne;
    if steps != [] { WorkersStay(c, Next(c, s, steps[0]), steps[1..]); }
  }

  /** Every slot is filled at most once, by its own height, and no height is fetched twice at a time;
      the fetches in flight are never more than min(count, 8). */
  lemma SlotsAreFilledOnce(c: Call, steps: seq<Step>, i: nat, interrupted: bool)
    requires ValidCall(c) && ValidRun(c, Initial(c), steps)
    requires Enabled(c, Run(c, Initial(c), steps), Fill(i, interrupted))
    ensures var s := Run(c, Initial(c), steps);
      && c.next <= s.workers[i].n <= c.end && s.workers[i].n !in s.slots
      && (forall j :: 0 <= j < |s.workers| && s.workers[j] == s.workers[i] ==> j == i)
      && InFlight(s.workers, |s.workers|) <= Min(c.end - c.next + 1, 8)
  {
    Reachable(c, steps);
    var s := Run(c, Initial(c), steps);
    InFlightBounded(s.workers, |s.workers|);
    forall j | 0 <= j < |s.workers| && s.workers[j] == s.workers[i] ensures j == i { }
  }

  /** Once the context is cancelled no fetch is begun any more: whoever is fetching later was fetching then. */
  lemma {:induction false} CancelledStartsNothing(c: Call, s: State, steps: seq<Step>, i: nat)
    requires ValidRun(c, s, steps) && s.cancelled && i < |s.workers|
    ensures var end := Run(c, s, steps);
      && end.cancelled && |end.workers| == |s.workers|
      && (end.workers[i].Fetching? ==> end.workers[i] == s.workers[i])
    decreases |steps|
  {
    hide ProcessOne;
    if steps != [] { CancelledStartsNothing(c, Next(c, s, steps[0]), steps[1..], i); }
  }

  /** A call that has ended with an error has cancelled its context, so that the workers stop. */
  lemma {:induction false} FailureCancels(c: Call, s: State, steps: seq<Step>)
    requires ValidRun(c, s, steps) && (s.progress.failed ==> s.cancelled)
    ensures Run(c, s, steps).progress.failed ==> Run(c, s, steps).cancelled
    decreases |steps|
  {
    hide ProcessOne;
    if steps != [] { FailureCancels(c, Next(c, s, steps[0]), steps[1..]); }
  }

  function InFlight(ws: seq<Worker>, n: nat): nat
    requires n <= |ws|
  {
    if n == 0 then 0 else InFlight(ws, n - 1) + (if ws[n - 1].Fetching? then 1 else 0)
  }

  function Running(ws: seq<Worker>, n: nat): nat
    requires n <= |ws|
  {
    if n == 0 then 0 else Running(ws, n - 1) + (if ws[n - 1].Exited? then 0 else 1)
  }

  lemma {:induction false} InFlightBounded(ws: seq<Worker>, n: nat)
    requires n <= |ws|
    ensures InFlight(ws, n) <= n
  {
    if n > 0 { InFlightBounded(ws, n - 1); }
  }

  ghost predicate Finished(s: State)
  {
    s.done && forall i :: 0 <= i < |s.workers| ==> s.workers[i].Exited?
  }

  /** No reachable state is stuck: until the consumer has returned and every worker has exited, some
      step other than a cancellation from outside is possible. */
  lemma NeverStuck(c: Call, steps: seq<Step>) returns (step: Step)
    requires ValidCall(c) && ValidRun(c, Initial(c), steps)
    requires !Finished(Run(c, Initial(c), steps))
    ensures step != CancelOutside && Enabled(c, Run(c, Initial(c), steps), step)
  {
    hide ProcessOne, ProcessRange;
    Reachable(c, steps);
    var s := Run(c, Initial(c), steps);
    if s.pushed <= c.end {
      step := Push;
    } else if i :| 0 <= i < |s.workers| && !s.workers[i].Exited? {
      step := if s.workers[i].Fetching? then Fill(i, false) else if s.taken < s.pushed then Take(i) else Leave(i);
    } else if s.number > c.end {
      step := Finish;
    } else if s.cancelled {
      step := SeeCancel;
    } else {
      assert s.workers[0].Exited?;
      assert s.number in s.slots || BeingFetched(s, s.number);
      step := Consume;
    }
  }

  /** The work that is left. */
  ghost function Left(c: Call, s: State): int
  {
    (c.end + 1 - s.pushed) + 2 * (c.end + 1 - s.taken) + InFlight(s.workers, |s.workers|)
    + Running(s.workers, |s.workers|) + (c.end + 1 - s.number) + (if s.done then 0 else 1)
  }

  lemma {:induction false} CountsAfterUpdate(ws: seq<Worker>, i: nat, w: Worker, n: nat)
    requires i < |ws| && n <= |ws|
    ensures InFlight(ws[i := w], n) == InFlight(ws, n)
      + (if i < n then (if w.Fetching? then 1 else 0) - (if ws[i].Fetching? then 1 else 0) else 0)
    ensures Running(ws[i := w], n) == Running(ws, n)
      + (if i < n then (if ws[i].Exited? then 1 else 0) - (if w.Exited? then 1 else 0) else 0)
  {
    if n > 0 { CountsAfterUpdate(ws, i, w, n - 1); }
  }

  /** Every step but a cancellation from outside uses up work, so no schedule runs forever. */
  lemma StepUsesWork(c: Call, s: State, step: Step)
    requires Invariant(c, s) && Enabled(c, s, step)
    ensures Left(c, s) >= 0
    ensures Left(c, Next(c, s, step)) <= Left(c, s) - (if step == CancelOutside then 0 else 1)
  {
    hide ProcessOne, ProcessRange;
    match step
    case Take(i) => CountsAfterUpdate(s.workers, i, if s.cancelled then Exited else Fetching(s.taken), |s.workers|);
    case Leave(i) => CountsAfterUpdate(s.workers, i, Exited, |s.workers|);
    case Fill(i, _) => CountsAfterUpdate(s.workers, i, Waiting, |s.workers|);
    case _ =>
  }

  function Cancellations(steps: seq<Step>): nat
    decreases |steps|
  {
    if steps == [] then 0 else (if steps[0] == CancelOutside then 1 else 0) + Cancellations(steps[1..])
  }

  lemma {:induction false} SchedulesAreBounded(c: Call, s: State, steps: seq<Step>)
    requires ValidCall(c) && Invariant(c, s) && ValidRun(c, s, steps)
    ensures |steps| <= Left(c, s) + Cancellations(steps)
    decreases |steps|
  {
    hide Invariant, Left, ProcessOne;
    if steps == [] {
      LeftIsNatural(c, s);
    } else {
      StepUsesWork(c, s, steps[0]);
      StepKeepsInvariant(c, s, steps[0]);
      SchedulesAreBounded(c, Next(c, s, steps[0]), steps[1..]);
    }
  }

  lemma LeftIsNatural(c: Call, s: State)
    requires Invariant(c, s)
    ensures Left(c, s) >= 0
  {
    hide ProcessRange;
  }
}
