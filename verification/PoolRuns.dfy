/** What every run of attempts and penalties on the pool keeps. */
module PoolRuns {
  import opened Prelude
  import opened Sums
  import RR = WeightedRoundRobin
  import TB = TokenBucket
  import opened RpcPool

  /** A run is made of attempts to acquire and of penalties for one member. */
  datatype PoolEvent = Acquire(now: int) | Penalise(member: nat, now: int)

  function Apply(ms: Pool, e: PoolEvent): (r: Pool)
    ensures |r| == |ms|
  {
    match e
    case Acquire(now) => Attempted(ms, now)
    case Penalise(i, now) =>
      if i < |ms| then ms[i := ms[i].(bucket := TB.Penalised(ms[i].bucket, now))] else ms
  }

  function Run(ms: Pool, es: seq<PoolEvent>): (r: Pool)
    ensures |r| == |ms|
    decreases |es|
  {
    if es == [] then ms else Run(Apply(ms, es[0]), es[1..])
  }

  /** Penalties read the clock under the lock, so they are never behind what the member saw. */
  ghost predicate ValidRun(ms: Pool, es: seq<PoolEvent>)
    decreases |es|
  {
    es == [] ||
    (&& es[0].now > 0
     && (es[0].Penalise? && es[0].member < |ms| ==> es[0].now >= ms[es[0].member].bucket.last)
     && ValidRun(Apply(ms, es[0]), es[1..]))
  }

  /** What an event of the pool means for member i. */
  function Seen(ms: Pool, e: PoolEvent, i: nat): seq<TB.Event>
  {
    match e
    case Acquire(now) => if Winner(ms, now) == Some(i) then [TB.Pick(now)] else [TB.Look(now)]
    case Penalise(j, now) => if j == i then [TB.Penalty(now)] else []
  }

  function History(ms: Pool, es: seq<PoolEvent>, i: nat): seq<TB.Event>
    decreases |es|
  {
    if es == [] then [] else Seen(ms, es[0], i) + History(Apply(ms, es[0]), es[1..], i)
  }

  lemma SeenIsEnabled(ms: Pool, e: PoolEvent, i: nat)
    requires Valid(ms) && i < |ms| && e.now > 0
    requires e.Penalise? && e.member == i ==> e.now >= ms[i].bucket.last
    ensures Apply(ms, e)[i].bucket == TB.Run(ms[i].bucket, Seen(ms, e, i))
    ensures TB.ValidRun(ms[i].bucket, Seen(ms, e, i))
    ensures TB.Valid(Apply(ms, e)[i].bucket)
  {
    hide TB.Taken, TB.Looked, TB.Wait, TB.Penalised, ReadyAt, Winner;
    var b, seen := ms[i].bucket, Seen(ms, e, i);
    if seen != [] {
      assert seen[1..] == [];
      assert TB.Enabled(b, seen[0]);
      TB.ApplyKeepsValid(b, seen[0]);
      assert TB.ValidRun(TB.Apply(b, seen[0]), []);
    }
  }

  lemma {:induction false} RunsCompose(b: TB.Bucket, x: seq<TB.Event>, y: seq<TB.Event>)
    requires |x| <= 1
    ensures TB.Run(b, x + y) == TB.Run(TB.Run(b, x), y)
    ensures TB.ValidRun(b, x) && TB.ValidRun(TB.Run(b, x), y) ==> TB.ValidRun(b, x + y)
  {
    if x == [] { assert x + y == y; } else { assert (x + y)[1..] == y && x[1..] == []; }
  }

  /** Each member sees a valid run of its own token bucket, whatever the others do. */
  lemma {:induction false} MembersRunTheirBuckets(ms: Pool, es: seq<PoolEvent>, i: nat)
    requires Valid(ms) && ValidRun(ms, es) && i < |ms|
    ensures TB.ValidRun(ms[i].bucket, History(ms, es, i))
    ensures Run(ms, es)[i].bucket == TB.Run(ms[i].bucket, History(ms, es, i))
    decreases |es|
  {
    if es != [] {
      var ms' := Apply(ms, es[0]);
      forall j | 0 <= j < |ms| ensures TB.Valid(ms'[j].bucket) { SeenIsEnabled(ms, es[0], j); }
      SeenIsEnabled(ms, es[0], i);
      MembersRunTheirBuckets(ms', es[1..], i);
      RunsCompose(ms[i].bucket, Seen(ms, es[0], i), History(ms', es[1..], i));
    }
  }

  /** No reading beyond u comes before one inside the window. */
  ghost predicate NoneBeyond(es: seq<PoolEvent>, s: int, t: int, u: int)
  {
    forall i, j :: 0 <= i < j < |es| && s <= es[j].now <= t ==> es[i].now <= u
  }

  /** A member's history holds only readings of the run. */
  ghost predicate ReadingsFrom(hs: seq<TB.Event>, es: seq<PoolEvent>)
  {
    forall j :: 0 <= j < |hs| ==> exists k :: 0 <= k < |es| && es[k].now == hs[j].now
  }

  lemma {:induction false} HistoryReadings(ms: Pool, es: seq<PoolEvent>, i: nat)
    ensures ReadingsFrom(History(ms, es, i), es)
    decreases |es|
  {
    if es != [] {
      var rest := History(Apply(ms, es[0]), es[1..], i);
      var hs := History(ms, es, i);
      HistoryReadings(Apply(ms, es[0]), es[1..], i);
      forall j | 0 <= j < |hs| ensures exists k :: 0 <= k < |es| && es[k].now == hs[j].now {
        if j < |Seen(ms, es[0], i)| {
          assert es[0].now == hs[j].now;
        } else {
          var k :| 0 <= k < |es[1..]| && es[1..][k].now == rest[j - |Seen(ms, es[0], i)|].now;
          assert es[k + 1].now == hs[j].now;
        }
      }
    }
  }

  lemma {:induction false} HistoryKeepsOrder(ms: Pool, es: seq<PoolEvent>, i: nat, s: int, t: int, u: int)
    requires NoneBeyond(es, s, t, u)
    ensures TB.NoneBeyond(History(ms, es, i), s, t, u)
    decreases |es|
  {
    if es != [] {
      var seen, rest := Seen(ms, es[0], i), History(Apply(ms, es[0]), es[1..], i);
      NoneBeyondTail(es, s, t, u);
      HistoryKeepsOrder(Apply(ms, es[0]), es[1..], i, s, t, u);
      HistoryReadings(Apply(ms, es[0]), es[1..], i);
      OneInFront(seen, rest, es, s, t, u);
    }
  }

  lemma NoneBeyondTail(es: seq<PoolEvent>, s: int, t: int, u: int)
    requires es != [] && NoneBeyond(es, s, t, u)
    ensures NoneBeyond(es[1..], s, t, u)
  {
    forall i, j | 0 <= i < j < |es[1..]| && s <= es[1..][j].now <= t ensures es[1..][i].now <= u {
      assert es[i + 1].now <= u;
    }
  }

  lemma OneInFront(seen: seq<TB.Event>, rest: seq<TB.Event>, es: seq<PoolEvent>, s: int, t: int, u: int)
    requires es != [] && NoneBeyond(es, s, t, u) && TB.NoneBeyond(rest, s, t, u) && ReadingsFrom(rest, es[1..])
    requires |seen| <= 1 && (seen != [] ==> seen[0].now == es[0].now)
    ensures TB.NoneBeyond(seen + rest, s, t, u)
  {
    var all, n := seen + rest, |seen|;
    forall i, j | 0 <= i < j < |all| && TB.InWindow(all[j], s, t) ensures all[i].now <= u {
      assert all[j] == rest[j - n];
      if i < n {
        var k :| 0 <= k < |es[1..]| && es[1..][k].now == rest[j - n].now;
        assert es[k + 1].now == all[j].now;
      } else {
        assert all[i] == rest[i - n];
      }
    }
  }

  /** The picks of member i over a run that pay and whose reading is in the window. */
  function PaidBy(ms: Pool, es: seq<PoolEvent>, i: nat, s: int, t: int): nat
    requires i < |ms|
  {
    TB.PaidIn(ms[i].bucket, History(ms, es, i), s, t)
  }

  /** Over any run of the pool and for any window of clock readings [s, t]: when no reading beyond u comes before
      one inside the window, no member pays more than qps + qps * (u - s) tokens on readings in the window, and its
      bucket stays within [0, qps]. With u == t this is the member's rate. */
  lemma MemberRateBound(ms: Pool, es: seq<PoolEvent>, i: nat, s: int, t: int, u: int)
    requires Valid(ms) && ValidRun(ms, es) && i < |ms| && s <= t <= u && NoneBeyond(es, s, t, u)
    ensures var qps := ms[i].bucket.qps; PaidBy(ms, es, i, s, t) * TB.SECOND <= qps * TB.SECOND + qps * (u - s)
    ensures 0 <= Run(ms, es)[i].bucket.tokens <= ms[i].bucket.qps * TB.SECOND
  {
    MembersRunTheirBuckets(ms, es, i);
    HistoryKeepsOrder(ms, es, i, s, t, u);
    TB.RunKeepsValid(ms[i].bucket, History(ms, es, i));
    TB.RateBound(ms[i].bucket, History(ms, es, i), s, t, u);
  }

  ghost predicate StrictlyLater(es: seq<PoolEvent>, t: int)
    decreases |es|
  {
    es == [] || (es[0].now > t && StrictlyLater(es[1..], es[0].now))
  }

  lemma {:induction false} HistoryStrictlyLater(ms: Pool, es: seq<PoolEvent>, i: nat, t: int, u: int)
    requires StrictlyLater(es, t) && u <= t
    ensures TB.StrictlyLater(History(ms, es, i), u)
    decreases |es|
  {
    if es != [] {
      var seen, rest := Seen(ms, es[0], i), History(Apply(ms, es[0]), es[1..], i);
      if seen == [] {
        HistoryStrictlyLater(Apply(ms, es[0]), es[1..], i, es[0].now, u);
        assert seen + rest == rest;
      } else {
        HistoryStrictlyLater(Apply(ms, es[0]), es[1..], i, es[0].now, es[0].now);
        assert (seen + rest)[1..] == rest;
      }
    }
  }

  /** With a clock that moves between events, all picks of a member over a run of the pool, free ones included,
      number at most twice what its rate allows in the window, plus its penalties, plus one. */
  lemma MemberPicksBound(ms: Pool, es: seq<PoolEvent>, i: nat, s: int, t: int)
    requires Valid(ms) && ValidRun(ms, es) && i < |ms| && s <= t
    requires StrictlyLater(es, ms[i].bucket.last) && forall j :: 0 <= j < |es| ==> s <= es[j].now <= t
    ensures var b, hs := ms[i].bucket, History(ms, es, i);
      TB.PicksIn(hs, s, t) * TB.SECOND <= 2 * (b.qps * TB.SECOND + b.qps * (t - s)) + (TB.Penalties(hs) + 1) * TB.SECOND
  {
    var b, hs := ms[i].bucket, History(ms, es, i);
    MembersRunTheirBuckets(ms, es, i);
    HistoryStrictlyLater(ms, es, i, b.last, b.last);
    HistoryReadings(ms, es, i);
    TB.TotalPicksBound(b, hs, s, t);
    TB.PicksAreFreeOrPaid(b, hs, s, t);
  }

  /** Once penalised, a member wins no attempt on a reading less than a second later. */
  lemma {:induction false} CoolingMemberLoses(ms: Pool, es: seq<PoolEvent>, i: nat, until: int, k: nat)
    requires Valid(ms) && ValidRun(ms, es) && i < |ms| && ms[i].bucket.coolUntil >= until
    requires k < |es| && es[k].Acquire? && Winner(Run(ms, es[..k]), es[k].now) == Some(i)
    ensures es[k].now >= until
    decreases |es|
  {
    hide Winner, ReadyAt, TB.Looked, TB.Taken, TB.Penalised, Attempted;
    if k == 0 {
      assert es[..0] == [];
      TB.ReadyIff(ms[i].bucket, es[0].now);
    } else {
      var ms' := Apply(ms, es[0]);
      forall j | 0 <= j < |ms| ensures TB.Valid(ms'[j].bucket) { SeenIsEnabled(ms, es[0], j); }
      CoolDownStays(ms, es[0], i);
      assert es[..k][0] == es[0] && es[..k][1..] == es[1..][..k - 1];
      CoolingMemberLoses(ms', es[1..], i, until, k - 1);
    }
  }

  lemma CoolDownStays(ms: Pool, e: PoolEvent, i: nat)
    requires Valid(ms) && i < |ms| && e.now > 0
    requires e.Penalise? && e.member == i ==> e.now >= ms[i].bucket.last
    ensures Apply(ms, e)[i].bucket.coolUntil >= ms[i].bucket.coolUntil
  {
    hide Winner, ReadyAt, TB.Looked, TB.Taken, TB.Penalised, Attempted;
    var b, seen := ms[i].bucket, Seen(ms, e, i);
    SeenIsEnabled(ms, e, i);
    if seen != [] {
      assert seen[1..] == [];
      TB.ApplyKeepsValid(b, seen[0]);
    }
  }

  /** Over any run of the pool, after a penalty for a member it is picked by no attempt whose reading is less than
      a second later. */
  lemma PenalisedMemberLoses(ms: Pool, i: nat, penalty: int, es: seq<PoolEvent>, k: nat)
    requires Valid(ms) && i < |ms| && ValidRun(ms, [Penalise(i, penalty)] + es)
    requires k < |es| && es[k].Acquire?
    requires Winner(Run(Apply(ms, Penalise(i, penalty)), es[..k]), es[k].now) == Some(i)
    ensures es[k].now >= penalty + TB.SECOND
  {
    hide Winner, ReadyAt, Attempted;
    var all, ms' := [Penalise(i, penalty)] + es, Apply(ms, Penalise(i, penalty));
    assert all[0] == Penalise(i, penalty) && all[1..] == es;
    forall j | 0 <= j < |ms| ensures TB.Valid(ms'[j].bucket) { SeenIsEnabled(ms, all[0], j); }
    CoolingMemberLoses(ms', es, i, penalty + TB.SECOND, k);
  }

  function CurrentTotal(ms: Pool, n: nat): int
    requires n <= |ms|
  {
    if n == 0 then 0 else CurrentTotal(ms, n - 1) + ms[n - 1].current
  }

  lemma {:induction false} AttemptBalances(ms: Pool, now: int, n: nat)
    requires n <= |ms|
    ensures var all, r := ReadyAt(ms, now, |ms|), ReadyAt(ms, now, n);
      CurrentTotal(Attempted(ms, now), n)
      == CurrentTotal(ms, n) + Sum(WeightsAt(ms, r))
         - (if Winner(ms, now).Some? && Winner(ms, now).value < n then Sum(WeightsAt(ms, all)) else 0)
  {
    hide TB.Taken, TB.Looked, TB.Wait, Ready, Winner, RR.Picked, Attempted, WeightsAt, SumTo;
    if n == 0 {
      NoWeights(ms);
    } else {
      AttemptBalances(ms, now, n - 1);
      if Ready(ms[n - 1], now) { OneMoreWeight(ms, ReadyAt(ms, now, n - 1), n - 1); }
      assert Attempted(ms, now)[n - 1] == AttemptedAt(ms, now, n - 1);
    }
  }

  lemma NoWeights(ms: Pool)
    ensures Sum(WeightsAt(ms, [])) == 0
  {
  }

  lemma OneMoreWeight(ms: Pool, r: seq<nat>, i: nat)
    requires i < |ms| && forall j :: 0 <= j < |r| ==> r[j] < |ms|
    ensures Sum(WeightsAt(ms, r + [i])) == Sum(WeightsAt(ms, r)) + ms[i].bucket.qps
  {
    var longer := r + [i];
    assert longer[..|longer| - 1] == r;
    SumToPrefix(WeightsAt(ms, r), WeightsAt(ms, longer), |r|);
  }

  /** Every round gives out as much as it takes back, whichever members are ready: over any run the
      currents of the whole pool keep their total, which is zero from the start. */
  lemma {:induction false} RunKeepsCurrentTotal(ms: Pool, es: seq<PoolEvent>)
    ensures CurrentTotal(Run(ms, es), |ms|) == CurrentTotal(ms, |ms|)
    decreases |es|
  {
    if es != [] {
      var ms' := Apply(ms, es[0]);
      RunKeepsCurrentTotal(ms', es[1..]);
      match es[0]
      case Acquire(now) =>
        AttemptBalances(ms, now, |ms|);
        assert Winner(ms, now).None? ==> WeightsAt(ms, ReadyAt(ms, now, |ms|)) == [];
      case Penalise(_, _) =>
        SameCurrentTotal(ms, ms', |ms|);
    }
  }

  lemma {:induction false} SameCurrentTotal(a: Pool, b: Pool, n: nat)
    requires n <= |a| == |b|
    requires forall i :: 0 <= i < n ==> a[i].current == b[i].current
    ensures CurrentTotal(a, n) == CurrentTotal(b, n)
  {
    if n > 0 { SameCurrentTotal(a, b, n - 1); }
  }

  function AllCurrents(ms: Pool): (c: seq<int>)
    ensures |c| == |ms|
  {
    CurrentsAt(ms, Upto(|ms|))
  }

  function AllWeights(ms: Pool): (w: seq<int>)
    ensures |w| == |ms|
  {
    WeightsAt(ms, Upto(|ms|))
  }

  function Upto(n: nat): (r: seq<nat>)
    ensures |r| == n && forall i :: 0 <= i < n ==> r[i] == i
  {
    if n == 0 then [] else Upto(n - 1) + [n - 1]
  }

  lemma {:induction false} AllReadyAt(ms: Pool, now: int, n: nat)
    requires n <= |ms| && forall i :: 0 <= i < n ==> Ready(ms[i], now)
    ensures ReadyAt(ms, now, n) == Upto(n)
  {
    if n > 0 { AllReadyAt(ms, now, n - 1); }
  }

  lemma WeightsStay(ms: Pool, now: int)
    ensures AllWeights(Attempted(ms, now)) == AllWeights(ms)
  {
    hide TB.Taken, TB.Looked, Winner, ReadyAt, WeightsAt;
    forall i | 0 <= i < |ms| ensures AllWeights(Attempted(ms, now))[i] == AllWeights(ms)[i] {
      SameQps(ms[i].bucket, now);
    }
  }

  lemma UncontendedCurrent(ms: Pool, now: int, i: nat)
    requires i < |ms| && forall j :: 0 <= j < |ms| ==> Ready(ms[j], now)
    ensures Winner(ms, now) == Some(RR.Picked(AllCurrents(ms), AllWeights(ms), |ms|))
    ensures AllCurrents(Attempted(ms, now))[i] == RR.Step(AllCurrents(ms), AllWeights(ms))[i]
  {
    hide TB.Taken, TB.Looked, TB.Wait, RR.Picked, RR.Step, CurrentsAt, WeightsAt, ReadyAt, Attempted, Sum;
    AllReadyAt(ms, now, |ms|);
    StepAt(AllCurrents(ms), AllWeights(ms), i);
    assert Attempted(ms, now)[i] == AttemptedAt(ms, now, i);
  }

  /** While every member is ready an attempt is one step of the plain round robin. */
  lemma UncontendedAttemptIsRoundRobin(ms: Pool, now: int)
    requires |ms| > 0 && forall i :: 0 <= i < |ms| ==> Ready(ms[i], now)
    ensures Winner(ms, now) == Some(RR.Picked(AllCurrents(ms), AllWeights(ms), |ms|))
    ensures AllCurrents(Attempted(ms, now)) == RR.Step(AllCurrents(ms), AllWeights(ms))
    ensures AllWeights(Attempted(ms, now)) == AllWeights(ms)
  {
    hide RR.Picked, RR.Step, Winner, Attempted, CurrentsAt, WeightsAt;
    WeightsStay(ms, now);
    UncontendedCurrent(ms, now, 0);
    forall i | 0 <= i < |ms|
      ensures AllCurrents(Attempted(ms, now))[i] == RR.Step(AllCurrents(ms), AllWeights(ms))[i]
    {
      UncontendedCurrent(ms, now, i);
    }
  }

  /** The pool after the first k of a list of attempts. */
  function After(ms: Pool, nows: seq<int>, k: nat): (r: Pool)
    requires k <= |nows|
    ensures |r| == |ms|
  {
    if k == 0 then ms else Attempted(After(ms, nows, k - 1), nows[k - 1])
  }

  function Wins(ms: Pool, nows: seq<int>, k: nat, i: nat): nat
    requires k <= |nows|
  {
    if k == 0 then 0
    else Wins(ms, nows, k - 1, i) + (if Winner(After(ms, nows, k - 1), nows[k - 1]) == Some(i) then 1 else 0)
  }

  ghost predicate Uncontended(ms: Pool, nows: seq<int>)
  {
    forall k, i :: 0 <= k < |nows| && 0 <= i < |ms| ==> Ready(After(ms, nows, k)[i], nows[k])
  }

  lemma {:induction false} UncontendedRunIsRoundRobin(ms: Pool, nows: seq<int>, k: nat, i: nat)
    requires |ms| > 0 && k <= |nows| && Uncontended(ms, nows)
    ensures AllWeights(After(ms, nows, k)) == AllWeights(ms)
    ensures AllCurrents(After(ms, nows, k)) == RR.Run(AllCurrents(ms), AllWeights(ms), k)
    ensures Wins(ms, nows, k, i) == RR.Picks(AllCurrents(ms), AllWeights(ms), k, i)
  {
    hide RR.Picked, RR.Step, Winner, Attempted, CurrentsAt, WeightsAt, Ready;
    if k > 0 {
      UncontendedRunIsRoundRobin(ms, nows, k - 1, i);
      var before := After(ms, nows, k - 1);
      assert forall j :: 0 <= j < |before| ==> Ready(before[j], nows[k - 1]);
      UncontendedAttemptIsRoundRobin(before, nows[k - 1]);
    }
  }

  /** From the initial currents, as many uncontended attempts as the pool's total rate pick every
      member exactly as often as its own rate. */
  lemma UncontendedCycle(ms: Pool, nows: seq<int>, i: nat)
    requires Valid(ms) && i < |ms| && Uncontended(ms, nows)
    requires forall j :: 0 <= j < |ms| ==> ms[j].current == 0
    requires |nows| == Sum(AllWeights(ms))
    ensures Wins(ms, nows, |nows|, i) == ms[i].bucket.qps
    ensures After(ms, nows, |nows|)[i].current == 0
  {
    hide RR.Picked, RR.Step, Winner, CurrentsAt, WeightsAt, Ready, Sum;
    UncontendedRunIsRoundRobin(ms, nows, |nows|, i);
    assert AllCurrents(ms) == RR.Zeros(|ms|);
    RR.FullCycle(AllWeights(ms));
    assert AllCurrents(After(ms, nows, |nows|))[i] == 0;
  }

  lemma SameQps(b: TB.Bucket, now: int)
    ensures TB.Looked(b, now).qps == b.qps && TB.Taken(TB.Looked(b, now), now).qps == b.qps
  {
  }

  lemma StepAt(c: seq<int>, w: seq<int>, i: nat)
    requires i < |c| == |w|
    ensures RR.Step(c, w)[i] == c[i] + w[i] - (if i == RR.Picked(c, w, |w|) then Sum(w) else 0)
  {
    RR.ChargedAt(c, w, RR.Picked(c, w, |w|), |w|, i);
  }

  /** A turn that found nobody ready returned a positive wait. It may have carried a reading from before other
      turns; the sleep starts when the pool is left, at a moment not before any reading. The turn after the sleep
      picks, as long as no member's reading came from a cool-down that had already been ended. */
  lemma SleepThenPick(ms: Pool, now: int, left: int, later: int)
    requires Valid(ms) && |ms| > 0 && 0 < now <= left
    requires forall i :: 0 <= i < |ms| ==> 0 < ms[i].bucket.last <= left && TB.SleepSuffices(ms[i].bucket, now)
    requires Winner(ms, now) == None
    requires later >= left + ShortestWait(ms, now, |ms|)
    ensures ShortestWait(ms, now, |ms|) > 0
    ensures forall i :: 0 <= i < |ms| ==> ShortestWait(ms, now, |ms|) <= TB.Wait(ms[i].bucket, now)
    ensures Winner(Attempted(ms, now), later).Some?
  {
    hide TB.Taken, TB.Looked, TB.Wait, RR.Picked, CurrentsAt, WeightsAt, ReadyAt, TB.SleepSuffices;
    ReadyAtComplete(ms, now, |ms|);
    assert forall i :: 0 <= i < |ms| ==> !Ready(ms[i], now);
    var i := ShortestIsSomeones(ms, now, |ms|);
    ShortestIsLeast(ms, now, |ms|);
    var after := Attempted(ms, now);
    TB.SleepSufficesExactly(ms[i].bucket, now);
    assert later >= TB.WakeUp(ms[i].bucket, now);
    assert after[i].bucket == TB.Looked(ms[i].bucket, now);
    TB.ApplyKeepsValid(ms[i].bucket, TB.Look(now));
    assert Ready(after[i], later);
    ReadyAtComplete(after, later, |ms|);
  }

  lemma {:induction false} ShortestIsLeast(ms: Pool, now: int, n: nat)
    requires n <= |ms| && Valid(ms) && forall i :: 0 <= i < n ==> !Ready(ms[i], now)
    ensures forall i :: 0 <= i < n ==> ShortestWait(ms, now, n) <= TB.Wait(ms[i].bucket, now)
    ensures ShortestWait(ms, now, n) >= 0
    ensures n > 0 ==> ShortestWait(ms, now, n) > 0
  {
    hide TB.Wait;
    if n > 0 {
      TB.ReadyIff(ms[n - 1].bucket, now);
      ShortestIsLeast(ms, now, n - 1);
    }
  }

  lemma {:induction false} ShortestIsSomeones(ms: Pool, now: int, n: nat) returns (i: nat)
    requires 0 < n <= |ms| && Valid(ms)
    requires forall i :: 0 <= i < n ==> !Ready(ms[i], now)
    ensures i < n && TB.Wait(ms[i].bucket, now) == ShortestWait(ms, now, n) > 0
  {
    hide TB.Wait;
    TB.ReadyIff(ms[n - 1].bucket, now);
    i := n - 1;
    if n > 1 {
      var j := ShortestIsSomeones(ms, now, n - 1);
      if TB.Wait(ms[n - 1].bucket, now) >= TB.Wait(ms[j].bucket, now) { i := j; }
    }
  }
}
