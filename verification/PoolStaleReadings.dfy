/** What late readings of the clock do to the rate of a member of a whole pool. A pool of one member picks it
    whenever it is ready; with more members a turn can go to another one, and then a nanosecond is too much. */
module PoolStaleReadings {
  import opened Sums
  import opened Prelude
  import RR = WeightedRoundRobin
  import TB = TokenBucket
  import Stale = StaleReadings
  import opened RpcPool
  import opened PoolRuns

  /** No reading is more than d nanoseconds behind an earlier one. */
  ghost predicate LateByAtMost(es: seq<PoolEvent>, d: nat)
  {
    forall i, j :: 0 <= i < j < |es| ==> es[i].now <= es[j].now + d
  }

  lemma LateIsNoneBeyond(es: seq<PoolEvent>, d: nat, s: int, t: int)
    requires LateByAtMost(es, d)
    ensures NoneBeyond(es, s, t, t + d)
  {
  }

  /** The picks of a member on readings in the window pay no more than its rate allows. */
  ghost predicate WithinRate(ms: Pool, es: seq<PoolEvent>, i: nat, s: int, t: int)
    requires i < |ms|
  {
    Stale.WithinRate(ms[i].bucket, History(ms, es, i), s, t)
  }

  /** Over every run of the pool, readings that are late by d exceed a member's rate by no more than the member
      gains in that time. */
  lemma MemberLateRateBound(ms: Pool, es: seq<PoolEvent>, i: nat, d: nat, s: int, t: int)
    requires Valid(ms) && ValidRun(ms, es) && i < |ms| && LateByAtMost(es, d) && s <= t
    ensures var qps := ms[i].bucket.qps;
      PaidBy(ms, es, i, s, t) * TB.SECOND <= qps * TB.SECOND + qps * (t - s) + qps * d
  {
    hide PaidBy, Valid, ValidRun, Run, LateByAtMost, NoneBeyond;
    LateIsNoneBeyond(es, d, s, t);
    MemberRateBound(ms, es, i, s, t, t + d);
    LateShare(ms[i].bucket.qps, d, s, t);
  }

  lemma LateShare(qps: int, d: nat, s: int, t: int)
    ensures qps * (t + d - s) == qps * (t - s) + qps * d
  {
    Distribute(t - s, d, qps);
  }

  ghost predicate MemberRateKept(ms: Pool, i: nat, d: nat)
    requires i < |ms|
  {
    forall es, s, t :: ValidRun(ms, es) && LateByAtMost(es, d) && s <= t ==> WithinRate(ms, es, i, s, t)
  }

  predicate FreshMember(m: Member)
  {
    m.current == 0 && m.bucket.qps >= 1 && m.bucket.last > 0 && m.bucket == TB.New(m.bucket.qps, m.bucket.last)
  }

  /** A pool as it starts. */
  ghost predicate Fresh(ms: Pool)
  {
    |ms| > 0 && forall j :: 0 <= j < |ms| ==> FreshMember(ms[j])
  }

  lemma FreshIsValid(ms: Pool)
    requires Fresh(ms)
    ensures Valid(ms)
  {
  }

  // ----- A pool of one member -----

  lemma {:induction false} SoleMemberIsGreedy(ms: Pool, es: seq<PoolEvent>)
    requires |ms| == 1 && Valid(ms) && ValidRun(ms, es)
    ensures Stale.Greedy(ms[0].bucket, History(ms, es, 0))
    decreases |es|
  {
    hide TB.Taken, TB.Looked, TB.Wait, TB.Penalised, RR.Picked, CurrentsAt, WeightsAt, Attempted;
    if es != [] {
      var b, seen, rest := ms[0].bucket, Seen(ms, es[0], 0), History(Apply(ms, es[0]), es[1..], 0);
      SeenIsEnabled(ms, es[0], 0);
      SoleMemberIsGreedy(Apply(ms, es[0]), es[1..]);
      if seen == [] {
        assert seen + rest == rest;
      } else {
        assert (seen + rest)[1..] == rest && seen[1..] == [];
        ReadyAtComplete(ms, es[0].now, 1);
      }
    }
  }

  function Attempts(hs: seq<TB.Event>): (es: seq<PoolEvent>)
    ensures |es| == |hs| && forall k :: 0 <= k < |hs| ==> es[k].now == hs[k].now
  {
    if hs == [] then [] else [Acquire(hs[0].now)] + Attempts(hs[1..])
  }

  lemma {:induction false} SoleMemberFollows(ms: Pool, hs: seq<TB.Event>)
    requires |ms| == 1 && Valid(ms) && TB.ValidRun(ms[0].bucket, hs)
    requires forall k :: 0 <= k < |hs| ==> hs[k].Pick?
    ensures ValidRun(ms, Attempts(hs)) && History(ms, Attempts(hs), 0) == hs
    decreases |hs|
  {
    hide TB.Taken, TB.Looked, TB.Wait, TB.Penalised, RR.Picked, CurrentsAt, WeightsAt, Attempted;
    if hs != [] {
      var es := Attempts(hs);
      assert es[0] == Acquire(hs[0].now) && es[1..] == Attempts(hs[1..]);
      ReadyAtComplete(ms, hs[0].now, 1);
      assert Winner(ms, hs[0].now) == Some(0);
      assert Seen(ms, es[0], 0) == [hs[0]] && [hs[0]][1..] == [];
      SeenIsEnabled(ms, es[0], 0);
      SoleMemberFollows(Apply(ms, es[0]), hs[1..]);
      assert hs == [hs[0]] + hs[1..];
    }
  }

  lemma SoleMemberRateBound(ms: Pool, es: seq<PoolEvent>, d: nat, s: int, t: int)
    requires |ms| == 1 && Valid(ms) && ValidRun(ms, es) && LateByAtMost(es, d) && s <= t
    requires Stale.OneTokenAtMost(ms[0].bucket.qps, t, t + d)
    ensures WithinRate(ms, es, 0, s, t)
  {
    hide ValidRun, TB.ValidRun, LateByAtMost, Stale.Greedy, History, NoneBeyond, TB.NoneBeyond,
      Stale.WithinRate, Stale.OneTokenAtMost, Run, TB.Run, TB.Valid;
    LateIsNoneBeyond(es, d, s, t);
    HistoryKeepsOrder(ms, es, 0, s, t, t + d);
    MembersRunTheirBuckets(ms, es, 0);
    SoleMemberIsGreedy(ms, es);
    Stale.GreedyRateBound(ms[0].bucket, History(ms, es, 0), s, t, t + d);
  }

  lemma SoleMemberBreaks(ms: Pool, d: nat) returns (es: seq<PoolEvent>, s: int, t: int)
    requires Fresh(ms) && |ms| == 1 && ms[0].bucket.qps > 1 && ms[0].bucket.qps * d > TB.SECOND
    ensures ValidRun(ms, es) && LateByAtMost(es, d) && s <= t && !WithinRate(ms, es, 0, s, t)
  {
    hide TB.ValidRun, Stale.LateByAtMost, Stale.Greedy, Stale.GreedyBreaking, TB.PaidIn, History, ValidRun;
    var b, late := ms[0].bucket, Min(d, TB.SECOND);
    SignOfProduct(d, b.qps);
    FreshIsValid(ms);
    var hs := Stale.GreedyBreaking(b.qps, b.last, late);
    es, s, t := Attempts(hs), b.last, b.last + TB.SECOND - late;
    Stale.GreedyReadingBreaks(b.qps, b.last, late);
    Stale.GreedyBreakingReadings(b.qps, b.last, late);
    SoleMemberFollows(ms, hs);
    AttemptsAreLate(hs, late, d);
  }

  /** In a pool of one member. */
  lemma SoleMemberRateKeptExactly(ms: Pool, d: nat)
    requires Fresh(ms) && |ms| == 1
    ensures var qps := ms[0].bucket.qps; MemberRateKept(ms, 0, d) <==> qps == 1 || qps * d <= TB.SECOND
  {
    hide ValidRun, LateByAtMost, WithinRate;
    FreshIsValid(ms);
    var qps := ms[0].bucket.qps;
    if qps == 1 || qps * d <= TB.SECOND {
      forall es, s, t | ValidRun(ms, es) && LateByAtMost(es, d) && s <= t ensures WithinRate(ms, es, 0, s, t) {
        SoleMemberRateBound(ms, es, d, s, t);
      }
    } else {
      var es, s, t := SoleMemberBreaks(ms, d);
    }
  }

  lemma AttemptsAreLate(hs: seq<TB.Event>, d: nat, e: nat)
    requires Stale.LateByAtMost(hs, d) && d <= e
    ensures LateByAtMost(Attempts(hs), e)
  {
  }

  // ----- A pool of more members -----

  lemma PaidNext(ms: Pool, es: seq<PoolEvent>, i: nat, s: int, t: int)
    requires Valid(ms) && ValidRun(ms, es) && i < |ms| && es != []
    ensures Valid(Apply(ms, es[0]))
    ensures PaidBy(ms, es, i, s, t) ==
      TB.PaidIn(ms[i].bucket, Seen(ms, es[0], i), s, t) + PaidBy(Apply(ms, es[0]), es[1..], i, s, t)
  {
    hide TB.Taken, TB.Looked, TB.Wait, TB.Penalised, Winner, Attempted, TB.Pays;
    var seen, rest := Seen(ms, es[0], i), History(Apply(ms, es[0]), es[1..], i);
    forall j | 0 <= j < |ms| ensures TB.Valid(Apply(ms, es[0])[j].bucket) { SeenIsEnabled(ms, es[0], j); }
    SeenIsEnabled(ms, es[0], i);
    if seen == [] {
      assert seen + rest == rest;
    } else {
      assert (seen + rest)[1..] == rest && seen[1..] == [];
    }
  }

  /** One run after the other. */
  lemma {:induction false} RunsJoin(ms: Pool, x: seq<PoolEvent>, y: seq<PoolEvent>, i: nat, s: int, t: int)
    requires Valid(ms) && ValidRun(ms, x) && i < |ms| && ValidRun(Run(ms, x), y)
    ensures Valid(Run(ms, x)) && ValidRun(ms, x + y) && Run(ms, x + y) == Run(Run(ms, x), y)
    ensures PaidBy(ms, x + y, i, s, t) == PaidBy(ms, x, i, s, t) + PaidBy(Run(ms, x), y, i, s, t)
    decreases |x|
  {
    hide Seen, PaidBy, Apply, TB.PaidIn;
    if x == [] {
      assert x + y == y;
      NothingPaid(ms, i, s, t);
    } else {
      assert (x + y)[0] == x[0] && (x + y)[1..] == x[1..] + y;
      PaidNext(ms, x, i, s, t);
      RunsJoin(Apply(ms, x[0]), x[1..], y, i, s, t);
      PaidNext(ms, x + y, i, s, t);
    }
  }

  lemma NothingPaid(ms: Pool, i: nat, s: int, t: int)
    requires i < |ms|
    ensures PaidBy(ms, [], i, s, t) == 0
  {
  }

  ghost predicate Within(es: seq<PoolEvent>, lo: int, hi: int)
  {
    forall k :: 0 <= k < |es| ==> lo <= es[k].now <= hi
  }

  lemma ReadingsJoin(x: seq<PoolEvent>, y: seq<PoolEvent>, d: nat, lo: int, mid: int, hi: int)
    requires LateByAtMost(x, d) && LateByAtMost(y, d) && Within(x, lo, mid) && Within(y, mid - d, hi)
    ensures LateByAtMost(x + y, d)
    ensures Within(x + y, Min(lo, mid - d), Max(mid, hi))
  {
    var es, n := x + y, |x|;
    forall k | 0 <= k < |es| ensures es[k] == if k < n then x[k] else y[k - n] { }
    forall j, k | 0 <= j < k < |es| ensures es[j].now <= es[k].now + d {
      assert j >= n ==> y[j - n].now <= y[k - n].now + d;
    }
  }

  /** All members but i are cooling down at reading r. */
  ghost predicate OthersCool(ms: Pool, i: nat, r: int)
  {
    forall j :: 0 <= j < |ms| && j != i ==> r < ms[j].bucket.coolUntil
  }

  lemma {:induction false} OnlyReady(ms: Pool, i: nat, r: int, n: nat)
    requires Valid(ms) && i < |ms| && OthersCool(ms, i, r) && Ready(ms[i], r) && n <= |ms|
    ensures ReadyAt(ms, r, n) == if i < n then [i] else []
  {
    if n > 0 { OnlyReady(ms, i, r, n - 1); }
  }

  /** The only ready member is picked and keeps its `current`; nobody else changes. */
  lemma AttemptAlone(ms: Pool, i: nat, r: int)
    requires Valid(ms) && i < |ms| && OthersCool(ms, i, r) && Ready(ms[i], r)
    ensures Winner(ms, r) == Some(i)
    ensures Attempted(ms, r) == ms[i := ms[i].(bucket := TB.Taken(TB.Looked(ms[i].bucket, r), r))]
  {
    hide TB.Taken, TB.Wait, TB.Refill, ReadyAt;
    OnlyReady(ms, i, r, |ms|);
    OnlyWeight(ms, i);
    forall j | 0 <= j < |ms| && j != i ensures Attempted(ms, r)[j] == ms[j] {
      assert !Ready(ms[j], r) by { TB.ReadyIff(ms[j].bucket, r); }
      assert Attempted(ms, r)[j] == AttemptedAt(ms, r, j);
    }
    assert Attempted(ms, r)[i] == AttemptedAt(ms, r, i);
  }

  lemma OnlyWeight(ms: Pool, i: nat)
    requires i < |ms|
    ensures Sum(WeightsAt(ms, [i])) == ms[i].bucket.qps
  {
    assert SumTo(WeightsAt(ms, [i]), 0) == 0;
  }

  function Burst(r: int, n: nat): (es: seq<PoolEvent>)
    ensures |es| == n && forall k :: 0 <= k < n ==> es[k] == Acquire(r)
  {
    if n == 0 then [] else [Acquire(r)] + Burst(r, n - 1)
  }

  /** The bucket holds n whole tokens and has already seen reading r. */
  predicate Holds(b: TB.Bucket, n: nat, r: int)
  {
    b.qps >= 1 && b.last >= r > 0 && b.coolUntil <= r && b.tokens == n * TB.SECOND
  }

  function WithBucket(ms: Pool, i: nat, b: TB.Bucket): Pool
    requires i < |ms|
  {
    ms[i := ms[i].(bucket := b)]
  }

  lemma PickFromHeld(b: TB.Bucket, n: nat, r: int)
    requires Holds(TB.Looked(b, r), n, r) && n >= 1
    ensures var c := TB.Looked(b, r).(tokens := (n - 1) * TB.SECOND);
      TB.Taken(TB.Looked(b, r), r) == c && TB.Looked(c, r) == c && Holds(c, n - 1, r)
    ensures b.qps >= 1 && TB.Wait(b, r) == 0 && TB.Pays(b, TB.Pick(r))
  {
  }

  lemma OneEvent(ms: Pool, e: PoolEvent)
    requires e.now > 0 && (e.Penalise? && e.member < |ms| ==> e.now >= ms[e.member].bucket.last)
    ensures ValidRun(ms, [e]) && Run(ms, [e]) == Apply(ms, e)
  {
    hide Apply;
    assert [e][0] == e && [e][1..] == [];
  }

  lemma AttemptRuns(ms: Pool, now: int)
    requires now > 0
    ensures ValidRun(ms, [Acquire(now)]) && Run(ms, [Acquire(now)]) == Attempted(ms, now)
  {
    hide Attempted;
    OneEvent(ms, Acquire(now));
  }

  lemma EventKeepsValid(ms: Pool, e: PoolEvent)
    requires Valid(ms) && ValidRun(ms, [e])
    ensures Valid(Apply(ms, e))
  {
    hide TB.Valid, Apply;
    assert [e][0] == e;
    forall j | 0 <= j < |ms| ensures TB.Valid(Apply(ms, e)[j].bucket) { SeenIsEnabled(ms, e, j); }
  }

  lemma SeenPays(ms: Pool, i: nat, r: int, s: int, t: int)
    requires i < |ms| && s <= r <= t && Winner(ms, r) == Some(i) && TB.Pays(ms[i].bucket, TB.Pick(r))
    ensures TB.PaidIn(ms[i].bucket, Seen(ms, Acquire(r), i), s, t) == 1
  {
    hide TB.Taken, TB.Looked, TB.Pays, Winner;
    var seen := Seen(ms, Acquire(r), i);
    assert seen == [TB.Pick(r)] && seen[1..] == [];
  }

  lemma DrainsOne(ms: Pool, i: nat, n: nat, r: int, s: int, t: int)
    requires Valid(ms) && i < |ms| && OthersCool(ms, i, r) && s <= r <= t
    requires n >= 1 && Holds(TB.Looked(ms[i].bucket, r), n, r)
    ensures var c := TB.Looked(ms[i].bucket, r).(tokens := (n - 1) * TB.SECOND);
      var ms', es := WithBucket(ms, i, c), [Acquire(r)];
      && ValidRun(ms, es) && Run(ms, es) == ms' && PaidBy(ms, es, i, s, t) == 1
      && Valid(ms') && OthersCool(ms', i, r) && TB.Looked(c, r) == c && Holds(c, n - 1, r)
  {
    hide TB.Taken, TB.Looked, TB.Wait, TB.Pays, Winner, Attempted, ReadyAt, PaidBy, ValidRun, Run;
    PickFromHeld(ms[i].bucket, n, r);
    AttemptAlone(ms, i, r);
    AttemptRuns(ms, r);
    EventKeepsValid(ms, Acquire(r));
    SeenPays(ms, i, r, s, t);
    NothingPaid(Attempted(ms, r), i, s, t);
    PaidNext(ms, [Acquire(r)], i, s, t);
    assert [Acquire(r)][1..] == [];
  }

  /** While the others cool down the pool's attempts take the whole tokens of member i one by one. */
  lemma {:induction false} BurstDrains(ms: Pool, i: nat, n: nat, r: int, s: int, t: int)
    requires Valid(ms) && i < |ms| && OthersCool(ms, i, r) && s <= r <= t
    requires n >= 1 && Holds(TB.Looked(ms[i].bucket, r), n, r)
    ensures ValidRun(ms, Burst(r, n))
    ensures Run(ms, Burst(r, n)) == WithBucket(ms, i, TB.Looked(ms[i].bucket, r).(tokens := 0))
    ensures PaidBy(ms, Burst(r, n), i, s, t) == n
    decreases n
  {
    hide TB.Looked, Valid, ValidRun, Run, PaidBy, OthersCool, Holds;
    DrainsOne(ms, i, n, r, s, t);
    if n == 1 {
      assert Burst(r, 1) == [Acquire(r)];
    } else {
      BurstDrains(WithBucket(ms, i, TB.Looked(ms[i].bucket, r).(tokens := (n - 1) * TB.SECOND)), i, n - 1, r, s, t);
      RunsJoin(ms, [Acquire(r)], Burst(r, n - 1), i, s, t);
    }
  }

  /** Penalties at r for all of the first n members but i. */
  function Hush(n: nat, i: nat, r: int): (es: seq<PoolEvent>)
    ensures forall k :: 0 <= k < |es| ==> es[k].now == r
  {
    if n == 0 then [] else Hush(n - 1, i, r) + (if n - 1 == i then [] else [Penalise(n - 1, r)])
  }

  function Hushed(ms: Pool, n: nat, i: nat, r: int): (h: Pool)
    ensures |h| == |ms|
    ensures forall j :: 0 <= j < |ms| ==>
      h[j] == if j < n && j != i then ms[j].(bucket := TB.Penalised(ms[j].bucket, r)) else ms[j]
  {
    seq(|ms|, j requires 0 <= j < |ms| =>
      if j < n && j != i then ms[j].(bucket := TB.Penalised(ms[j].bucket, r)) else ms[j])
  }

  lemma HushNext(ms: Pool, n: nat, i: nat, r: int)
    requires n < |ms|
    ensures Hushed(ms, n, i, r)[n] == ms[n]
    ensures Hushed(ms, n + 1, i, r) ==
      if n == i then Hushed(ms, n, i, r) else Apply(Hushed(ms, n, i, r), Penalise(n, r))
  {
    hide TB.Penalised;
  }

  lemma {:induction false} HushRun(ms: Pool, n: nat, i: nat, r: int)
    requires Valid(ms) && n <= |ms| && i < |ms| && r > 0
    requires forall j :: 0 <= j < |ms| ==> ms[j].bucket.last <= r
    ensures ValidRun(ms, Hush(n, i, r)) && Run(ms, Hush(n, i, r)) == Hushed(ms, n, i, r)
  {
    hide TB.Penalised, PaidBy, Valid, ValidRun, Run, Apply, Hushed;
    if n == 0 {
      NoEvents(ms);
      NobodyHushed(ms, i, r);
    } else {
      HushRun(ms, n - 1, i, r);
      HushNext(ms, n - 1, i, r);
      if n - 1 == i {
        assert Hush(n, i, r) == Hush(n - 1, i, r);
      } else {
        OneEvent(Hushed(ms, n - 1, i, r), Penalise(n - 1, r));
        RunsJoin(ms, Hush(n - 1, i, r), [Penalise(n - 1, r)], i, 0, 0);
      }
    }
  }

  lemma NobodyHushed(ms: Pool, i: nat, r: int)
    ensures Hushed(ms, 0, i, r) == ms
  {
  }

  /** A second has passed since every member was last seen, and no cool-down is left. */
  ghost predicate Rested(ms: Pool, r: int)
  {
    Valid(ms) && forall j :: 0 <= j < |ms| ==> RestedBucket(ms[j].bucket, r)
  }

  predicate RestedBucket(b: TB.Bucket, r: int)
  {
    0 < b.last <= r - TB.SECOND && b.coolUntil <= r
  }

  lemma FullAfterASecond(b: TB.Bucket, r: int)
    requires TB.Valid(b) && RestedBucket(b, r)
    ensures TB.Looked(b, r) == b.(tokens := b.qps * TB.SECOND, last := r) && TB.Wait(b, r) == 0
  {
    TB.ProductsOrdered(TB.SECOND, r - b.last, b.qps);
  }

  /** Everybody else is penalised at r, member i is emptied at r, all are ready again a second later, and member i is
      emptied on readings from a nanosecond before that, when the others were still cooling down. */
  function Wave(ms: Pool, i: nat, r: int): seq<PoolEvent>
    requires i < |ms| && ms[i].bucket.qps >= 1
  {
    var q := ms[i].bucket.qps;
    Hush(|ms|, i, r) + Burst(r, q) + [Acquire(r + TB.SECOND)] + Burst(r + TB.SECOND - 1, q)
  }

  /** The pool when the others have been penalised at r and member i emptied. */
  function Drained(ms: Pool, i: nat, r: int): (d: Pool)
    requires i < |ms|
    ensures |d| == |ms|
  {
    WithBucket(Hushed(ms, |ms|, i, r), i, ms[i].bucket.(tokens := 0, last := r))
  }

  lemma {:induction false} FirstBurst(ms: Pool, i: nat, r: int, t: int)
    requires Rested(ms, r) && i < |ms| && r > 0 && r <= t
    ensures var es := Hush(|ms|, i, r) + Burst(r, ms[i].bucket.qps);
      && ValidRun(ms, es) && Run(ms, es) == Drained(ms, i, r) && Valid(Drained(ms, i, r))
      && PaidBy(ms, es, i, r, t) >= ms[i].bucket.qps
  {
    hide TB.Looked, TB.Wait, PaidBy, ValidRun, Run, TB.Refill;
    var h, b := Hushed(ms, |ms|, i, r), ms[i].bucket;
    FullAfterASecond(b, r);
    HushRun(ms, |ms|, i, r);
    HushedIsValid(ms, i, r);
    BurstDrains(h, i, b.qps, r, r, t);
    RunsJoin(ms, Hush(|ms|, i, r), Burst(r, b.qps), i, r, t);
    assert TB.Valid(b.(tokens := 0, last := r));
  }

  lemma HushedIsValid(ms: Pool, i: nat, r: int)
    requires Valid(ms) && r > 0
    ensures Valid(Hushed(ms, |ms|, i, r)) && OthersCool(Hushed(ms, |ms|, i, r), i, r + TB.SECOND - 1)
    ensures OthersCool(Hushed(ms, |ms|, i, r), i, r)
  {
  }

  lemma {:induction false} SecondBurst(ms: Pool, i: nat, r: int, s: int)
    requires Rested(ms, r) && i < |ms| && s <= r - 1
    requires OthersCool(ms, i, r - 1) && ms[i].bucket.coolUntil <= r - 1
    requires Winner(ms, r) != Some(i)
    ensures var es := [Acquire(r)] + Burst(r - 1, ms[i].bucket.qps);
      ValidRun(ms, es) && PaidBy(ms, es, i, s, r - 1) >= ms[i].bucket.qps
  {
    hide TB.Taken, TB.Looked, TB.Wait, PaidBy, Winner, TB.Refill, ReadyAt;
    var q, first, ms' := ms[i].bucket.qps, [Acquire(r)], Attempted(ms, r);
    FullAfterASecond(ms[i].bucket, r);
    OneEvent(ms, Acquire(r));
    EventKeepsValid(ms, Acquire(r));
    assert ms'[i] == AttemptedAt(ms, r, i);
    forall j | 0 <= j < |ms| && j != i ensures r - 1 < ms'[j].bucket.coolUntil {
      assert ms'[j] == AttemptedAt(ms, r, j);
      CoolDownStays(ms, Acquire(r), j);
    }
    LookedAgain(ms'[i].bucket, r - 1);
    BurstDrains(ms', i, q, r - 1, s, r - 1);
    RunsJoin(ms, first, Burst(r - 1, q), i, s, r - 1);
  }

  /** A reading behind the last refill changes nothing. */
  lemma LookedAgain(b: TB.Bucket, r: int)
    requires 0 < r <= b.last
    ensures TB.Looked(b, r) == b
  {
  }

  lemma DrainedIsRested(ms: Pool, i: nat, r: int)
    requires Rested(ms, r) && i < |ms| && r > 0
    ensures Rested(Drained(ms, i, r), r + TB.SECOND)
    ensures OthersCool(Drained(ms, i, r), i, r + TB.SECOND - 1)
    ensures AllCurrents(Drained(ms, i, r)) == AllCurrents(ms) && AllWeights(Drained(ms, i, r)) == AllWeights(ms)
  {
    hide CurrentsAt, WeightsAt;
    HushedIsValid(ms, i, r);
  }

  lemma RestedAreReady(ms: Pool, r: int)
    requires Rested(ms, r) && |ms| > 0
    ensures Winner(ms, r) == Some(RR.Picked(AllCurrents(ms), AllWeights(ms), |ms|))
  {
    hide Winner, TB.Wait, TB.Looked, AllCurrents, AllWeights;
    forall j | 0 <= j < |ms| ensures Ready(ms[j], r) { FullAfterASecond(ms[j].bucket, r); }
    UncontendedAttemptIsRoundRobin(ms, r);
  }

  /** Where another member is due next, member i pays for twice its rate in less than a second of readings. */
  lemma {:induction false} WavePays(ms: Pool, i: nat, r: int)
    requires Rested(ms, r) && i < |ms| && r > 0 && Winner(ms, r) != Some(i)
    ensures ValidRun(ms, Wave(ms, i, r))
    ensures PaidBy(ms, Wave(ms, i, r), i, r, r + TB.SECOND - 1) >= 2 * ms[i].bucket.qps
  {
    hide ValidRun, Run, PaidBy, Winner, Burst, Hush, AllCurrents, AllWeights, OthersCool;
    var q, t, d := ms[i].bucket.qps, r + TB.SECOND, Drained(ms, i, r);
    var x, y := Hush(|ms|, i, r) + Burst(r, q), [Acquire(t)] + Burst(t - 1, q);
    FirstBurst(ms, i, r, t - 1);
    DrainedIsRested(ms, i, r);
    RestedAreReady(ms, r);
    RestedAreReady(d, t);
    SecondBurst(d, i, t, r);
    RunsJoin(ms, x, y, i, r, t - 1);
    assert Wave(ms, i, r) == x + y;
  }

  lemma WaveReadings(ms: Pool, i: nat, r: int)
    requires i < |ms| && ms[i].bucket.qps >= 1
    ensures LateByAtMost(Wave(ms, i, r), 1) && Within(Wave(ms, i, r), r, r + TB.SECOND)
  {
    var q, t := ms[i].bucket.qps, r + TB.SECOND;
    var x, y := Hush(|ms|, i, r) + Burst(r, q), [Acquire(t)] + Burst(t - 1, q);
    assert forall k :: 0 <= k < |x| ==> x[k].now == r;
    assert forall k :: 1 <= k < |y| ==> y[k].now == t - 1;
    assert Wave(ms, i, r) == x + y;
    ReadingsJoin(x, y, 1, r, r, t);
  }

  // ----- A turn at which another member is due -----

  /** Readings a second apart. */
  function Moment(base: int, k: nat): int
  {
    if k == 0 then base else Moment(base, k - 1) + TB.SECOND
  }

  lemma {:induction false} MomentsAscend(base: int, j: nat, k: nat)
    requires j <= k
    ensures base <= Moment(base, j) <= Moment(base, k)
    decreases k
  {
    if j < k { MomentsAscend(base, j, k - 1); } else if j > 0 { MomentsAscend(base, j - 1, k - 1); }
  }

  function Clock(base: int, n: nat): (nows: seq<int>)
    ensures |nows| == n && forall k :: 0 <= k < n ==> nows[k] == Moment(base, k)
  {
    seq(n, k requires 0 <= k < n => Moment(base, k))
  }

  function Turns(nows: seq<int>): (es: seq<PoolEvent>)
    ensures |es| == |nows| && forall k :: 0 <= k < |nows| ==> es[k] == Acquire(nows[k])
  {
    seq(|nows|, k requires 0 <= k < |nows| => Acquire(nows[k]))
  }

  lemma NoEvents(ms: Pool)
    ensures ValidRun(ms, []) && Run(ms, []) == ms
  {
  }

  lemma AttemptLeavesRested(ms: Pool, r: int)
    requires Rested(ms, r) && r > 0
    ensures Rested(Attempted(ms, r), r + TB.SECOND)
  {
    hide TB.Wait, TB.Looked, TB.Taken, Winner, ReadyAt, TB.Valid;
    forall j | 0 <= j < |ms|
      ensures TB.Valid(Attempted(ms, r)[j].bucket) && RestedBucket(Attempted(ms, r)[j].bucket, r + TB.SECOND)
    {
      assert Attempted(ms, r)[j] == AttemptedAt(ms, r, j);
      TakenAfterASecond(ms[j].bucket, r);
    }
  }

  lemma TakenAfterASecond(b: TB.Bucket, r: int)
    requires TB.Valid(b) && RestedBucket(b, r)
    ensures var looked, taken := TB.Looked(b, r), TB.Taken(TB.Looked(b, r), r);
      TB.Valid(looked) && TB.Valid(taken) && RestedBucket(looked, r + TB.SECOND) && RestedBucket(taken, r + TB.SECOND)
  {
    FullAfterASecond(b, r);
    TB.ApplyKeepsValid(b, TB.Look(r));
    TB.ApplyKeepsValid(b, TB.Pick(r));
  }

  lemma OneMoreTurn(base: int, n: nat, k: nat)
    requires 0 < k <= n
    ensures Clock(base, n)[k - 1] == Moment(base, k - 1)
    ensures Turns(Clock(base, k)) == Turns(Clock(base, k - 1)) + [Acquire(Moment(base, k - 1))]
  {
  }

  lemma NoTurns(ms: Pool, base: int, n: nat)
    ensures Turns(Clock(base, 0)) == [] && After(ms, Clock(base, n), 0) == ms
  {
  }

  /** Turns a second apart leave the pool rested a second later. */
  lemma {:induction false} RestedAfter(ms: Pool, base: int, n: nat, k: nat)
    requires Rested(ms, base) && base > 0 && k <= n
    ensures Rested(After(ms, Clock(base, n), k), Moment(base, k))
  {
    hide Attempted, RestedBucket, Rested;
    if k > 0 {
      RestedAfter(ms, base, n, k - 1);
      MomentsAscend(base, 0, k - 1);
      AttemptLeavesRested(After(ms, Clock(base, n), k - 1), Moment(base, k - 1));
    }
  }

  lemma {:induction false} TurnsRun(ms: Pool, base: int, n: nat, k: nat)
    requires |ms| > 0 && Valid(ms) && base > 0 && k <= n
    ensures ValidRun(ms, Turns(Clock(base, k)))
    ensures Run(ms, Turns(Clock(base, k))) == After(ms, Clock(base, n), k)
  {
    hide ValidRun, Run, Attempted, PaidBy, Turns, Valid, Apply;
    if k == 0 {
      NoTurns(ms, base, n);
      NoEvents(ms);
    } else {
      TurnsRun(ms, base, n, k - 1);
      MomentsAscend(base, 0, k - 1);
      AttemptRuns(After(ms, Clock(base, n), k - 1), Moment(base, k - 1));
      OneMoreTurn(base, n, k);
      RunsJoin(ms, Turns(Clock(base, k - 1)), [Acquire(Moment(base, k - 1))], 0, 0, 0);
    }
  }

  /** One member never has all the weight. */
  lemma {:induction false} SumAbove(w: seq<int>, n: nat, i: nat)
    requires i < n <= |w| && n >= 2 && forall j :: 0 <= j < n ==> w[j] >= 1
    ensures SumTo(w, n) > w[i]
  {
    SumToNonNegative(w, n - 1);
    if i < n - 1 && n > 2 {
      SumAbove(w, n - 1, i);
    } else if i == n - 1 {
      assert SumTo(w, n - 1) >= w[0];
    }
  }

  predicate GoesTo(ms: Pool, nows: seq<int>, k: nat, i: nat)
    requires k < |nows|
  {
    Winner(After(ms, nows, k), nows[k]) == Some(i)
  }

  lemma {:induction false} WinsThroughout(ms: Pool, nows: seq<int>, k: nat, i: nat)
    requires k <= |nows| && forall j :: 0 <= j < k ==> GoesTo(ms, nows, j, i)
    ensures Wins(ms, nows, k, i) == k
  {
    hide Winner, After;
    if k > 0 {
      WinsThroughout(ms, nows, k - 1, i);
      assert GoesTo(ms, nows, k - 1, i);
    }
  }

  lemma ClockIsUncontended(ms: Pool, base: int, n: nat)
    requires |ms| > 0 && Rested(ms, base) && base > 0
    ensures Uncontended(ms, Clock(base, n))
  {
    hide TB.Wait, Attempted, After, TB.Looked;
    var nows := Clock(base, n);
    forall k, j | 0 <= k < n && 0 <= j < |ms| ensures Ready(After(ms, nows, k)[j], nows[k]) {
      RestedAfter(ms, base, n, k);
      FullAfterASecond(After(ms, nows, k)[j].bucket, nows[k]);
    }
  }

  /** In a pool of more members every cycle of uncontended turns has one that goes to another member. */
  lemma TurnOfAnother(ms: Pool, nows: seq<int>, i: nat) returns (k: nat)
    requires Fresh(ms) && |ms| >= 2 && i < |ms| && Uncontended(ms, nows) && |nows| == Sum(AllWeights(ms))
    ensures k < |nows| && !GoesTo(ms, nows, k, i)
  {
    hide Winner, SumTo, WeightsAt, Uncontended, After, Attempted;
    var w := AllWeights(ms);
    assert w[i] == ms[i].bucket.qps;
    SumAbove(w, |ms|, i);
    UncontendedCycle(ms, nows, i);
    if forall j :: 0 <= j < |nows| ==> GoesTo(ms, nows, j, i) {
      WinsThroughout(ms, nows, |nows|, i);
      assert false;
    }
    k :| 0 <= k < |nows| && !GoesTo(ms, nows, k, i);
  }

  function Latest(ms: Pool, n: nat): (last: int)
    requires n <= |ms|
    ensures forall j :: 0 <= j < n ==> ms[j].bucket.last <= last
  {
    if n == 0 then 0 else Max(Latest(ms, n - 1), ms[n - 1].bucket.last)
  }

  lemma FreshIsRested(ms: Pool)
    requires Fresh(ms)
    ensures Rested(ms, Latest(ms, |ms|) + TB.SECOND) && Latest(ms, |ms|) > 0
  {
    FreshIsValid(ms);
    assert ms[0].bucket.last <= Latest(ms, |ms|);
  }

  lemma QpsStays(ms: Pool, es: seq<PoolEvent>, i: nat)
    requires Valid(ms) && ValidRun(ms, es) && i < |ms|
    ensures Run(ms, es)[i].bucket.qps == ms[i].bucket.qps
  {
    hide TB.ValidRun, TB.Run, Run, ValidRun;
    MembersRunTheirBuckets(ms, es, i);
    TB.RunKeepsValid(ms[i].bucket, History(ms, es, i));
  }

  lemma TotalRate(ms: Pool)
    requires Valid(ms)
    ensures Sum(AllWeights(ms)) >= 0
  {
    hide SumTo;
    SumToNonNegative(AllWeights(ms), |ms|);
  }

  lemma TwiceTheRateIsTooMuch(ms: Pool, es: seq<PoolEvent>, i: nat, s: int)
    requires i < |ms| && ms[i].bucket.qps >= 1
    requires PaidBy(ms, es, i, s, s + TB.SECOND - 1) >= 2 * ms[i].bucket.qps
    ensures !WithinRate(ms, es, i, s, s + TB.SECOND - 1)
  {
    hide History, TB.PaidIn;
  }

  lemma TurnReadings(base: int, k: nat)
    ensures LateByAtMost(Turns(Clock(base, k)), 1) && Within(Turns(Clock(base, k)), base, Moment(base, k))
  {
    var es := Turns(Clock(base, k));
    forall i, j | 0 <= i <= j < k ensures base <= es[i].now <= es[j].now <= Moment(base, k) {
      MomentsAscend(base, i, j);
      MomentsAscend(base, j, k);
    }
  }

  /** A run of a new pool of more members whose last readings are a nanosecond late, and in which member i exceeds
      its rate. */
  lemma OneNanosecondBreaks(ms: Pool, i: nat) returns (es: seq<PoolEvent>, s: int, t: int)
    requires Fresh(ms) && |ms| >= 2 && i < |ms|
    ensures ValidRun(ms, es) && LateByAtMost(es, 1) && s <= t && !WithinRate(ms, es, i, s, t)
  {
    hide ValidRun, Run, PaidBy, Winner, Sum, Wave, AllWeights, Latest, After, WithinRate, LateByAtMost, Within, Turns,
      Uncontended;
    FreshIsRested(ms);
    FreshIsValid(ms);
    var base, n := Latest(ms, |ms|) + TB.SECOND, Sum(AllWeights(ms));
    TotalRate(ms);
    ClockIsUncontended(ms, base, n);
    var k := TurnOfAnother(ms, Clock(base, n), i);
    RestedAfter(ms, base, n, k);
    TurnsRun(ms, base, n, k);
    var x, before := Turns(Clock(base, k)), After(ms, Clock(base, n), k);
    s := Moment(base, k);
    MomentsAscend(base, 0, k);
    t := s + TB.SECOND - 1;
    var y := Wave(before, i, s);
    es := x + y;
    WavePays(before, i, s);
    RunsJoin(ms, x, y, i, s, t);
    QpsStays(ms, x, i);
    TwiceTheRateIsTooMuch(ms, es, i, s);
    TurnReadings(base, k);
    WaveReadings(before, i, s);
    NotBefore(y, s, s + TB.SECOND);
    ReadingsJoin(x, y, 1, base, s, s + TB.SECOND);
  }

  lemma NotBefore(es: seq<PoolEvent>, lo: int, hi: int)
    requires Within(es, lo, hi)
    ensures Within(es, lo - 1, hi)
  {
  }

  lemma MoreMembersRateKeptExactly(ms: Pool, i: nat, d: nat)
    requires Fresh(ms) && |ms| >= 2 && i < |ms|
    ensures MemberRateKept(ms, i, d) <==> d == 0
  {
    hide ValidRun, WithinRate;
    FreshIsValid(ms);
    if d == 0 {
      forall es, s, t | ValidRun(ms, es) && LateByAtMost(es, 0) && s <= t ensures WithinRate(ms, es, i, s, t) {
        MemberRateOnTime(ms, es, i, s, t);
      }
    } else {
      var es, s, t := OneNanosecondBreaks(ms, i);
      assert LateByAtMost(es, d);
    }
  }

  lemma MemberRateOnTime(ms: Pool, es: seq<PoolEvent>, i: nat, s: int, t: int)
    requires Valid(ms) && ValidRun(ms, es) && i < |ms| && LateByAtMost(es, 0) && s <= t
    ensures WithinRate(ms, es, i, s, t)
  {
    hide ValidRun, LateByAtMost, Valid, History, TB.PaidIn;
    MemberLateRateBound(ms, es, i, 0, s, t);
  }

  /** For every new pool, member and d: the member keeps its rate in all runs of the pool whose readings are at most
      d nanoseconds late, and in all windows, exactly when it is alone and gains no more than a token in d
      nanoseconds, or can never hold two, or no reading is late at all. */
  lemma MemberRateKeptExactly(ms: Pool, i: nat, d: nat)
    requires Fresh(ms) && i < |ms|
    ensures var qps := ms[i].bucket.qps;
      MemberRateKept(ms, i, d) <==> d == 0 || (|ms| == 1 && (qps == 1 || qps * d <= TB.SECOND))
  {
    hide MemberRateKept, Fresh;
    if |ms| == 1 {
      SoleMemberRateKeptExactly(ms, d);
    } else {
      MoreMembersRateKeptExactly(ms, i, d);
    }
  }
}
