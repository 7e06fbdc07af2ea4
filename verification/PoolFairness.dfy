/** How fair the schedule is when the set of ready members changes from turn to turn: no member's `current` ever
    drifts further than the greatest rate times the number of the other members. */
module PoolFairness {
  import opened Prelude
  import opened Sums
  import RR = WeightedRoundRobin
  import TB = TokenBucket
  import opened RpcPool
  import opened PoolRuns

  // ----- Sums over a set of members -----

  function SumOver(v: seq<int>, s: set<nat>, n: nat): int
    requires n <= |v|
  {
    if n == 0 then 0 else SumOver(v, s, n - 1) + (if n - 1 in s then v[n - 1] else 0)
  }

  function CountBelow(s: set<nat>, n: nat): (k: nat)
    ensures k <= n
  {
    if n == 0 then 0 else CountBelow(s, n - 1) + (if n - 1 in s then 1 else 0)
  }

  lemma {:induction false} Disjoint(v: seq<int>, s: set<nat>, t: set<nat>, n: nat)
    requires n <= |v| && s !! t
    ensures SumOver(v, s + t, n) == SumOver(v, s, n) + SumOver(v, t, n)
    ensures CountBelow(s + t, n) == CountBelow(s, n) + CountBelow(t, n)
  {
    if n > 0 { Disjoint(v, s, t, n - 1); }
  }

  lemma {:induction false} Singleton(v: seq<int>, i: nat, n: nat)
    requires n <= |v|
    ensures SumOver(v, {i}, n) == if i < n then v[i] else 0
    ensures CountBelow({i}, n) == if i < n then 1 else 0
  {
    if n > 0 { Singleton(v, i, n - 1); }
  }

  /** A set is a member and the others of it. */
  lemma Without(v: seq<int>, s: set<nat>, i: nat)
    requires i < |v| && i in s
    ensures SumOver(v, s, |v|) == SumOver(v, s - {i}, |v|) + v[i]
    ensures CountBelow(s, |v|) == CountBelow(s - {i}, |v|) + 1
  {
    Disjoint(v, s - {i}, {i}, |v|);
    Singleton(v, i, |v|);
    assert s - {i} + {i} == s;
  }

  lemma {:induction false} Bounded(w: seq<int>, s: set<nat>, most: int, n: nat)
    requires n <= |w| && forall i :: 0 <= i < n && i in s ==> 0 <= w[i] <= most
    ensures 0 <= SumOver(w, s, n) <= most * CountBelow(s, n)
  {
    if n > 0 {
      Bounded(w, s, most, n - 1);
      Distribute(CountBelow(s, n - 1), 1, most);
    }
  }

  lemma {:induction false} RaisedBounded(c: seq<int>, w: seq<int>, s: set<nat>, most: int, n: nat)
    requires n <= |c| == |w| && forall i :: 0 <= i < n && i in s ==> c[i] + w[i] <= most
    ensures SumOver(c, s, n) + SumOver(w, s, n) <= most * CountBelow(s, n)
  {
    if n > 0 {
      RaisedBounded(c, w, s, most, n - 1);
      Distribute(CountBelow(s, n - 1), 1, most);
    }
  }

  // ----- One round -----

  /** The members of `r` gain their weights; the one whose raised value is greatest pays for all of them. */
  ghost predicate IsRound(c: seq<int>, w: seq<int>, r: set<nat>, p: nat, after: seq<int>)
  {
    && |c| == |w| == |after| && p < |c| && p in r
    && (forall i :: 0 <= i < |c| && i in r ==> c[i] + w[i] <= c[p] + w[p])
    && (forall i :: 0 <= i < |c| ==>
         after[i] == c[i] + (if i in r then w[i] else 0) - (if i == p then SumOver(w, r, |w|) else 0))
  }

  lemma {:induction false} RoundSum(c: seq<int>, w: seq<int>, r: set<nat>, p: nat, after: seq<int>, s: set<nat>, n: nat)
    requires IsRound(c, w, r, p, after) && n <= |c|
    ensures SumOver(after, s, n) ==
      SumOver(c, s, n) + SumOver(w, s * r, n) - (if p in s && p < n then SumOver(w, r, |w|) else 0)
  {
    if n > 0 { RoundSum(c, w, r, p, after, s, n - 1); }
  }

  /** How far k of n members may be below zero together. */
  function Depth(most: int, k: int, n: int): int { most * (k * (n - k)) }

  ghost predicate FloorAt(c: seq<int>, most: int, s: set<nat>)
  {
    SumOver(c, s, |c|) >= -Depth(most, CountBelow(s, |c|), |c|)
  }

  /** No set of members is further below zero than the greatest weight times its size times that of the rest. */
  ghost predicate Floor(c: seq<int>, most: int)
  {
    forall s: set<nat> :: FloorAt(c, most, s)
  }

  lemma DepthIdentity(most: int, k: int, n: int, a: int)
    ensures Depth(most, k + a, n) + a * Depth(most, k - 1, n) + a * most + a * (a * most) ==
      (1 + a) * Depth(most, k, n)
  {
    var m := n - k;
    calc {
      (k + a) * (m - a) + a * ((k - 1) * (m + 1)) + a + a * a;
      k * m - k * a + a * m - a * a + a * (k * m + k - m - 1) + a + a * a;
      (1 + a) * (k * m);
    }
  }

  /** Two bounds on one sum, one falling and one rising with `top`, meet at the depth of k members. */
  lemma BoundsMeet(most: int, k: int, n: int, a: int, x: int, top: int)
    requires a >= 1
    requires x >= -Depth(most, k + a, n) - a * top
    requires x >= top - most - Depth(most, k - 1, n) - a * most
    ensures x >= -Depth(most, k, n)
  {
    hide Depth;
    var low := top - most - Depth(most, k - 1, n) - a * most;
    TB.ProductsOrdered(low, x, a);
    DepthIdentity(most, k, n, a);
    calc {
      a * low;
      a * top - a * most - a * Depth(most, k - 1, n) - a * (a * most);
    }
    Distribute(x, Depth(most, k, n), 1 + a);
    SignOfProduct(x + Depth(most, k, n), 1 + a);
  }

  /** A set with the winner in it pays for the ready members outside. */
  lemma PaysForOutsiders(c: seq<int>, w: seq<int>, r: set<nat>, p: nat, after: seq<int>, s: set<nat>)
    requires IsRound(c, w, r, p, after) && p in s
    ensures SumOver(after, s, |c|) == SumOver(c, s, |c|) - SumOver(w, r - s, |c|)
  {
    hide SumOver;
    RoundSum(c, w, r, p, after, s, |c|);
    Disjoint(w, s * r, r - s, |c|);
    assert s * r + (r - s) == r;
  }

  /** The ready members outside of it are no higher than the winner, so it is not far below the two together. */
  lemma OutsidersAreLower(c: seq<int>, w: seq<int>, r: set<nat>, p: nat, after: seq<int>, s: set<nat>, most: int)
    requires IsRound(c, w, r, p, after) && p in s && Floor(c, most)
    ensures var k, a := CountBelow(s, |c|), CountBelow(r - s, |c|);
      SumOver(after, s, |c|) >= -Depth(most, k + a, |c|) - a * (c[p] + w[p])
  {
    hide Depth, SumOver, CountBelow;
    PaysForOutsiders(c, w, r, p, after, s);
    Disjoint(c, s, r - s, |c|);
    assert FloorAt(c, most, s + (r - s));
    RaisedBounded(c, w, r - s, c[p] + w[p], |c|);
  }

  /** It is no further below the winner than its other members are below zero, and what it pays. */
  lemma WinnerIsHigh(c: seq<int>, w: seq<int>, r: set<nat>, p: nat, after: seq<int>, s: set<nat>, most: int)
    requires IsRound(c, w, r, p, after) && p in s && Floor(c, most)
    requires forall i :: 0 <= i < |w| && i in r ==> 0 <= w[i] <= most
    ensures var k, a := CountBelow(s, |c|), CountBelow(r - s, |c|);
      SumOver(after, s, |c|) >= c[p] - Depth(most, k - 1, |c|) - a * most
  {
    hide Depth, SumOver, CountBelow;
    PaysForOutsiders(c, w, r, p, after, s);
    Without(c, s, p);
    assert FloorAt(c, most, s - {p});
    Bounded(w, r - s, most, |c|);
  }

  lemma RoundKeepsFloorAt(c: seq<int>, w: seq<int>, r: set<nat>, p: nat, after: seq<int>, s: set<nat>, most: int)
    requires IsRound(c, w, r, p, after) && Floor(c, most)
    requires forall i :: 0 <= i < |w| && i in r ==> 0 <= w[i] <= most
    ensures FloorAt(after, most, s)
  {
    hide Depth;
    var n := |c|;
    assert FloorAt(c, most, s);
    if p in s {
      var k, a := CountBelow(s, n), CountBelow(r - s, n);
      OutsidersAreLower(c, w, r, p, after, s, most);
      WinnerIsHigh(c, w, r, p, after, s, most);
      if a > 0 { BoundsMeet(most, k, n, a, SumOver(after, s, n), c[p] + w[p]); }
    } else {
      RoundSum(c, w, r, p, after, s, n);
      Bounded(w, s * r, most, n);
    }
  }

  /** Whatever set of members is ready, a round keeps the floor under every set of members. */
  lemma RoundKeepsFloor(c: seq<int>, w: seq<int>, r: set<nat>, p: nat, after: seq<int>, most: int)
    requires IsRound(c, w, r, p, after) && Floor(c, most)
    requires forall i :: 0 <= i < |w| && i in r ==> 0 <= w[i] <= most
    ensures Floor(after, most)
  {
    forall s: set<nat> ensures FloorAt(after, most, s) { RoundKeepsFloorAt(c, w, r, p, after, s, most); }
  }

  lemma {:induction false} SumOverAll(v: seq<int>, s: set<nat>, n: nat)
    requires n <= |v| && forall i :: 0 <= i < n ==> i in s
    ensures SumOver(v, s, n) == SumTo(v, n) && CountBelow(s, n) == n
  {
    if n > 0 { SumOverAll(v, s, n - 1); }
  }

  function FirstOnes(n: nat): (s: set<nat>)
    ensures forall i: nat :: i in s <==> i < n
  {
    if n == 0 then {} else FirstOnes(n - 1) + {n - 1}
  }

  /** With a zero total the floor is a ceiling too: a single member stays within the greatest weight times the number
      of the others. */
  lemma FloorBoundsEach(c: seq<int>, most: int, i: nat)
    requires Floor(c, most) && Sum(c) == 0 && i < |c|
    ensures -(most * (|c| - 1)) <= c[i] <= most * (|c| - 1)
  {
    var n := |c|;
    var all := FirstOnes(n);
    SumOverAll(c, all, n);
    Without(c, all, i);
    Singleton(c, i, n);
    assert FloorAt(c, most, {i}) && FloorAt(c, most, all - {i});
  }

  // ----- Turns of the pool -----

  ghost function ReadySet(ms: Pool, now: int): set<nat>
  {
    set i: nat | i < |ms| && Ready(ms[i], now)
  }

  lemma {:induction false} ReadyTotal(ms: Pool, now: int, n: nat)
    requires n <= |ms|
    ensures Sum(WeightsAt(ms, ReadyAt(ms, now, n))) == SumOver(AllWeights(ms), ReadySet(ms, now), n)
  {
    hide Ready, WeightsAt, SumTo;
    if n == 0 {
      NoWeights(ms);
    } else {
      ReadyTotal(ms, now, n - 1);
      if Ready(ms[n - 1], now) { OneMoreWeight(ms, ReadyAt(ms, now, n - 1), n - 1); }
    }
  }

  lemma WinnerIsGreatest(ms: Pool, now: int, i: nat)
    requires Winner(ms, now).Some? && i < |ms| && Ready(ms[i], now)
    ensures var p := Winner(ms, now).value;
      AllCurrents(ms)[i] + AllWeights(ms)[i] <= AllCurrents(ms)[p] + AllWeights(ms)[p]
  {
    hide TB.Wait, RR.Picked, Ready, CurrentsAt, WeightsAt, ReadyAt;
    var at := ReadyAt(ms, now, |ms|);
    RR.PickedIsFirstMax(CurrentsAt(ms, at), WeightsAt(ms, at), |at|);
    ReadyAtComplete(ms, now, |ms|);
    var j :| 0 <= j < |at| && at[j] == i;
  }

  /** A turn that has a winner is a round of the members that are ready. */
  lemma AttemptIsRound(ms: Pool, now: int)
    requires Winner(ms, now).Some?
    ensures IsRound(AllCurrents(ms), AllWeights(ms), ReadySet(ms, now), Winner(ms, now).value,
      AllCurrents(Attempted(ms, now)))
  {
    hide TB.Taken, TB.Looked, TB.Wait, Ready, Sum, CurrentsAt, WeightsAt, ReadyAt, Winner, SumOver, Attempted;
    ReadyTotal(ms, now, |ms|);
    forall i | i in ReadySet(ms, now)
      ensures var p := Winner(ms, now).value;
        AllCurrents(ms)[i] + AllWeights(ms)[i] <= AllCurrents(ms)[p] + AllWeights(ms)[p]
    {
      WinnerIsGreatest(ms, now, i);
    }
    forall i | 0 <= i < |ms| ensures Attempted(ms, now)[i] == AttemptedAt(ms, now, i) { }
  }

  // ----- Runs of the pool -----

  ghost predicate RatesAtMost(ms: Pool, most: int)
  {
    forall i :: 0 <= i < |ms| ==> ms[i].bucket.qps <= most
  }

  lemma EventKeepsRates(ms: Pool, e: PoolEvent)
    ensures AllWeights(Apply(ms, e)) == AllWeights(ms)
  {
    hide WeightsAt, Attempted;
    if e.Acquire? { WeightsStay(ms, e.now); }
  }

  lemma EventKeepsFloor(ms: Pool, e: PoolEvent, most: int)
    requires Floor(AllCurrents(ms), most) && RatesAtMost(ms, most)
    ensures Floor(AllCurrents(Apply(ms, e)), most)
  {
    hide Floor, CurrentsAt, WeightsAt, Winner;
    if e.Acquire? && Winner(ms, e.now).Some? {
      var now, p := e.now, Winner(ms, e.now).value;
      AttemptIsRound(ms, now);
      RoundKeepsFloor(AllCurrents(ms), AllWeights(ms), ReadySet(ms, now), p, AllCurrents(Attempted(ms, now)), most);
    } else {
      CurrentsStay(ms, e);
    }
  }

  lemma CurrentsStay(ms: Pool, e: PoolEvent)
    requires e.Acquire? ==> Winner(ms, e.now) == None
    ensures AllCurrents(Apply(ms, e)) == AllCurrents(ms)
  {
    hide CurrentsAt, TB.Looked, TB.Taken, TB.Wait, RR.Picked;
    if e.Acquire? {
      ReadyAtComplete(ms, e.now, |ms|);
      forall i | 0 <= i < |ms| ensures Apply(ms, e)[i].current == ms[i].current {
        assert Attempted(ms, e.now)[i] == AttemptedAt(ms, e.now, i);
      }
    }
  }

  /** Over any run of the pool, whichever members are ready at each turn: no set of members falls further below zero
      than the greatest rate times its size times the size of the rest. */
  lemma {:induction false} RunKeepsFloor(ms: Pool, es: seq<PoolEvent>, most: int)
    requires Floor(AllCurrents(ms), most) && RatesAtMost(ms, most)
    ensures Floor(AllCurrents(Run(ms, es)), most)
    decreases |es|
  {
    hide Floor, AllCurrents, Apply;
    if es != [] {
      EventKeepsFloor(ms, es[0], most);
      RatesStay(ms, es[0], most);
      RunKeepsFloor(Apply(ms, es[0]), es[1..], most);
    }
  }

  lemma RatesStay(ms: Pool, e: PoolEvent, most: int)
    requires RatesAtMost(ms, most)
    ensures RatesAtMost(Apply(ms, e), most)
  {
    hide Apply;
    EventKeepsRates(ms, e);
    forall i | 0 <= i < |ms| ensures Apply(ms, e)[i].bucket.qps <= most {
      assert AllWeights(Apply(ms, e))[i] == AllWeights(ms)[i];
    }
  }

  ghost predicate AtRest(ms: Pool)
  {
    forall i :: 0 <= i < |ms| ==> ms[i].current == 0
  }

  lemma {:induction false} RestSums(v: seq<int>, s: set<nat>, n: nat)
    requires n <= |v| && forall i :: 0 <= i < n ==> v[i] == 0
    ensures SumOver(v, s, n) == 0 && SumTo(v, n) == 0
  {
    if n > 0 { RestSums(v, s, n - 1); }
  }

  lemma RestHasFloor(ms: Pool, most: int)
    requires AtRest(ms) && most >= 0
    ensures Floor(AllCurrents(ms), most)
  {
    hide CurrentsAt;
    var c := AllCurrents(ms);
    forall s: set<nat> ensures FloorAt(c, most, s) {
      RestSums(c, s, |c|);
      DepthIsNatural(most, CountBelow(s, |c|), |c|);
    }
  }

  lemma DepthIsNatural(most: int, k: nat, n: nat)
    requires most >= 0 && k <= n
    ensures Depth(most, k, n) >= 0
  {
    TB.ProductsOrdered(0, k, n - k);
    TB.ProductsOrdered(0, most, k * (n - k));
  }

  lemma {:induction false} TotalIsSum(ms: Pool, n: nat)
    requires n <= |ms|
    ensures CurrentTotal(ms, n) == SumTo(AllCurrents(ms), n)
  {
    hide CurrentsAt;
    if n > 0 { TotalIsSum(ms, n - 1); }
  }

  // ----- The ledger -----

  /** What member i is entitled to in a run: its rate for every turn at which it was ready. */
  function Entitled(ms: Pool, es: seq<PoolEvent>, i: nat): int
    requires i < |ms|
    decreases |es|
  {
    if es == [] then 0
    else
      (if es[0].Acquire? && Ready(ms[i], es[0].now) then ms[i].bucket.qps else 0)
      + Entitled(Apply(ms, es[0]), es[1..], i)
  }

  /** What it was given: for every turn it won, the rates of all that were ready. */
  function Given(ms: Pool, es: seq<PoolEvent>, i: nat): int
    requires i < |ms|
    decreases |es|
  {
    if es == [] then 0
    else
      (if es[0].Acquire? && Winner(ms, es[0].now) == Some(i)
       then Sum(WeightsAt(ms, ReadyAt(ms, es[0].now, |ms|))) else 0)
      + Given(Apply(ms, es[0]), es[1..], i)
  }

  lemma {:induction false} RunLedger(ms: Pool, es: seq<PoolEvent>, i: nat)
    requires i < |ms|
    ensures Run(ms, es)[i].current == ms[i].current + Entitled(ms, es, i) - Given(ms, es, i)
    decreases |es|
  {
    hide TB.Taken, TB.Looked, TB.Wait, Winner, ReadyAt, WeightsAt, Sum, Ready, TB.Penalised;
    if es != [] {
      RunLedger(Apply(ms, es[0]), es[1..], i);
      if es[0].Acquire? {
        assert Attempted(ms, es[0].now)[i] == AttemptedAt(ms, es[0].now, i);
      }
    }
  }

  /** From rest, over any run of the pool and under any readiness: what a member is given never differs from what it
      is entitled to by more than the greatest rate times the number of the other members. */
  lemma EveryRunIsFair(ms: Pool, es: seq<PoolEvent>, i: nat, most: int)
    requires AtRest(ms) && RatesAtMost(ms, most) && most >= 0 && i < |ms|
    ensures -(most * (|ms| - 1)) <= Entitled(ms, es, i) - Given(ms, es, i) <= most * (|ms| - 1)
    ensures Run(ms, es)[i].current == Entitled(ms, es, i) - Given(ms, es, i)
  {
    hide Floor, CurrentsAt, SumTo;
    RestHasFloor(ms, most);
    RunKeepsFloor(ms, es, most);
    RunLedger(ms, es, i);
    RunKeepsCurrentTotal(ms, es);
    TotalIsSum(ms, |ms|);
    TotalIsSum(Run(ms, es), |ms|);
    RestSums(AllCurrents(ms), {}, |ms|);
    FloorBoundsEach(AllCurrents(Run(ms, es)), most, i);
  }

  lemma {:induction false} SameWeights(w: seq<int>, weight: int, n: nat)
    requires n <= |w| && forall i :: 0 <= i < n ==> w[i] == weight
    ensures SumTo(w, n) == weight * n
  {
    if n > 0 {
      SameWeights(w, weight, n - 1);
      Distribute(n - 1, 1, weight);
    }
  }

  lemma FirstCharge(w: seq<int>, weight: int)
    requires forall i :: 0 <= i < |w| ==> w[i] == weight
    ensures weight - Sum(w) == -(weight * (|w| - 1))
  {
    SameWeights(w, weight, |w|);
    Distribute(|w|, 1, weight);
  }

  /** The bound is reached: where all rates are the same, by the winner of the very first turn. */
  lemma {:induction false} BoundIsReached(ms: Pool, now: int, most: int)
    requires AtRest(ms) && |ms| > 0
    requires forall i :: 0 <= i < |ms| ==> ms[i].bucket.qps == most && Ready(ms[i], now)
    ensures var p := Winner(ms, now); p.Some? && Run(ms, [Acquire(now)])[p.value].current == -(most * (|ms| - 1))
  {
    hide TB.Wait, RR.Picked, RR.Step, CurrentsAt, WeightsAt, Winner, Attempted, Ready, Sum;
    UncontendedAttemptIsRoundRobin(ms, now);
    var p := Winner(ms, now).value;
    StepAt(AllCurrents(ms), AllWeights(ms), p);
    FirstCharge(AllWeights(ms), most);
    FirstTurn(ms, now);
    assert AllCurrents(Attempted(ms, now))[p] == Attempted(ms, now)[p].current;
  }

  lemma FirstTurn(ms: Pool, now: int)
    ensures Run(ms, [Acquire(now)]) == Attempted(ms, now)
  {
    hide Attempted;
    assert [Acquire(now)][1..] == [];
  }
}
