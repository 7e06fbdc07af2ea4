/** What readings of the clock that are behind the latest one do to the rate of a member: how late they may be
    before it can be exceeded. */
module StaleReadings {
  import opened Prelude
  import opened Sums
  import opened TokenBucket

  /** No reading is more than d nanoseconds behind an earlier one. */
  ghost predicate LateByAtMost(es: seq<Event>, d: nat)
  {
    forall i, j :: 0 <= i < j < |es| ==> es[i].now <= es[j].now + d
  }

  /** The picks on readings in the window pay no more than the rate allows. */
  ghost predicate WithinRate(b: Bucket, es: seq<Event>, s: int, t: int)
  {
    PaidIn(b, es, s, t) * SECOND <= b.qps * SECOND + b.qps * (t - s)
  }

  /** Readings that are late by d exceed the rate by no more than the member gains in that time. */
  lemma LateRateBound(b: Bucket, es: seq<Event>, d: nat, s: int, t: int)
    requires Valid(b) && ValidRun(b, es) && LateByAtMost(es, d) && s <= t
    ensures PaidIn(b, es, s, t) * SECOND <= b.qps * SECOND + b.qps * (t - s) + b.qps * d
  {
    LateIsNoneBeyond(es, d, s, t);
    RateBound(b, es, s, t, t + d);
    Distribute(t - s, d, b.qps);
  }

  // ----- Looks may leave a ready member unpicked -----

  ghost predicate RateKept(qps: int, now: int, d: nat)
    requires qps >= 1
  {
    forall es, s, t ::
      ValidRun(New(qps, now), es) && LateByAtMost(es, d) && s <= t ==> WithinRate(New(qps, now), es, s, t)
  }

  /** The least number of nanoseconds in which a member gains a token. */
  function TokenTime(qps: int): (w: nat)
    requires qps >= 1
    ensures w * qps >= SECOND && (w - 1) * qps < SECOND && 1 <= w <= SECOND
  {
    QuotientBounds(SECOND - 1, qps);
    Distribute((SECOND - 1) / qps, 1, qps);
    LeastFits((SECOND - 1) / qps, qps);
    (SECOND - 1) / qps + 1
  }

  lemma LeastFits(q: int, qps: int)
    requires qps >= 1 && q >= 0 && q * qps <= SECOND - 1
    ensures q <= SECOND - 1
  {
    ProductsOrdered(1, qps, q);
  }

  /** A new member is emptied, looked at when a token has just come in, and picked on a reading from a nanosecond
      before. */
  function Breaking(qps: int, now: int): seq<Event>
    requires qps >= 1
  {
    Repeated(qps, now) + LateTail(now + TokenTime(qps))
  }

  function LateTail(full: int): seq<Event> { [Look(full), Pick(full - 1)] }

  lemma LateTailPays(empty: Bucket, s: int)
    requires Valid(empty) && empty.tokens == 0 && empty.coolUntil == 0 && 0 < s <= empty.last
    ensures var full := empty.last + TokenTime(empty.qps);
      ValidRun(empty, LateTail(full)) && PaidIn(empty, LateTail(full), s, full - 1) == 1
  {
    var w := TokenTime(empty.qps);
    var full := empty.last + w;
    var rest := LateTail(full);
    ProductsOrdered(w, SECOND, empty.qps);
    var filled := Apply(empty, rest[0]);
    assert filled.tokens >= SECOND && filled.last == full && filled.coolUntil == 0;
    var end := Apply(filled, rest[1]);
    assert rest[1..] == [rest[1]] && rest[1..][1..] == [];
    assert ValidRun(end, []) && PaidIn(end, [], s, full - 1) == 0;
    assert ValidRun(filled, rest[1..]) && PaidIn(filled, rest[1..], s, full - 1) == 1;
  }

  lemma BreakingIsLateByOne(qps: int, now: int)
    requires qps >= 1
    ensures LateByAtMost(Breaking(qps, now), 1)
  {
    RepeatedReadings(qps, now);
    var es, n := Breaking(qps, now), qps;
    forall i, j | 0 <= i < j < |es| ensures es[i].now <= es[j].now + 1 {
      assert i < n ==> es[i] == Pick(now);
      assert j < n ==> es[j] == Pick(now);
    }
  }

  lemma OneTooMany(b: Bucket, es: seq<Event>, s: int, t: int)
    requires PaidIn(b, es, s, t) == b.qps + 1 && (t - s) * b.qps < SECOND
    ensures !WithinRate(b, es, s, t)
  {
    hide PaidIn;
  }

  /** A token too many for the window that ends with the late reading. */
  lemma LateReadingBreaks(qps: int, now: int)
    requires qps >= 1 && now > 0
    ensures var b, es, t := New(qps, now), Breaking(qps, now), now + TokenTime(qps) - 1;
      && ValidRun(b, es) && LateByAtMost(es, 1)
      && PaidIn(b, es, now, t) == qps + 1 && !WithinRate(b, es, now, t)
  {
    hide ValidRun, PaidIn, Repeated, LateTail, LateByAtMost, WithinRate;
    var w := TokenTime(qps);
    var empty := Bucket(qps, 0, now, 0);
    LateTailPays(empty, now);
    Drained(New(qps, now), qps, now, LateTail(now + w), now, now + w - 1);
    BreakingIsLateByOne(qps, now);
    OneTooMany(New(qps, now), Breaking(qps, now), now, now + w - 1);
  }

  lemma LaterStill(es: seq<Event>, d: nat, e: nat)
    requires LateByAtMost(es, d) && d <= e
    ensures LateByAtMost(es, e)
  {
  }

  /** For every rate: the bound holds of all runs of a new member and all windows exactly when no reading is late
      at all. A single nanosecond breaks it. */
  lemma RateKeptExactly(qps: int, now: int, d: nat)
    requires qps >= 1 && now > 0
    ensures RateKept(qps, now, d) <==> d == 0
  {
    var b := New(qps, now);
    if d == 0 {
      forall es, s, t | ValidRun(b, es) && LateByAtMost(es, 0) && s <= t ensures WithinRate(b, es, s, t) {
        LateRateBound(b, es, 0, s, t);
      }
    } else {
      LateReadingBreaks(qps, now);
      LaterStill(Breaking(qps, now), 1, d);
    }
  }

  // ----- A ready member is always picked -----

  /** Every look that finds the member ready picks it, as in a pool without other members. */
  ghost predicate Greedy(b: Bucket, es: seq<Event>)
    decreases |es|
  {
    es == [] || ((es[0].Look? ==> b.qps >= 1 && Wait(b, es[0].now) != 0) && Greedy(Apply(b, es[0]), es[1..]))
  }

  ghost predicate GreedyRateKept(qps: int, now: int, d: nat)
    requires qps >= 1
  {
    forall es, s, t ::
      ValidRun(New(qps, now), es) && Greedy(New(qps, now), es) && LateByAtMost(es, d) && s <= t ==>
      WithinRate(New(qps, now), es, s, t)
  }

  /** The member has one token at most, or gains one at most between the end of the window and u. */
  predicate OneTokenAtMost(qps: int, t: int, u: int) { qps == 1 || qps * (u - t) <= SECOND }

  /** Once past the window with less than a token, the member pays no more inside it: whatever comes in is taken
      at once. */
  lemma {:induction false} PoorPaysNothing(b: Bucket, es: seq<Event>, s: int, t: int, u: int)
    requires Valid(b) && ValidRun(b, es) && Greedy(b, es) && NoneBeyond(es, s, t, u)
    requires t < b.last && b.tokens < SECOND && OneTokenAtMost(b.qps, t, u)
    ensures PaidIn(b, es, s, t) == 0
    decreases |es|
  {
    if es != [] {
      var b' := Apply(b, es[0]);
      ApplyKeepsValid(b, es[0]);
      NoneBeyondTail(es, s, t, u);
      if es[0].now > u {
        NonePaidIn(b', es[1..], s, t);
      } else {
        StaysPoor(b, es[0], t, u);
        PoorPaysNothing(b', es[1..], s, t, u);
      }
    }
  }

  lemma StaysPoor(b: Bucket, e: Event, t: int, u: int)
    requires Valid(b) && Enabled(b, e) && (e.Look? ==> Wait(b, e.now) != 0)
    requires t < b.last && b.tokens < SECOND && e.now <= u && OneTokenAtMost(b.qps, t, u)
    ensures Apply(b, e).tokens < SECOND && t < Apply(b, e).last
    ensures Pays(b, e) ==> e.now > t
  {
    ReadyIff(b, e.now);
    ProductsOrdered(e.now - b.last, u - t, b.qps);
  }

  /** Past the window after a pick or a look, or cooling down. */
  lemma {:induction false} CoolingPaysNothing(b: Bucket, es: seq<Event>, s: int, t: int)
    requires Valid(b) && ValidRun(b, es) && b.coolUntil > t
    ensures PaidIn(b, es, s, t) == 0
    decreases |es|
  {
    if es != [] {
      ApplyKeepsValid(b, es[0]);
      CoolingPaysNothing(Apply(b, es[0]), es[1..], s, t);
    }
  }

  /** The first reading beyond the window: the pick on it takes the token that the member gained since. */
  lemma CrossingPays(b: Bucket, es: seq<Event>, now: int, s: int, t: int, u: int)
    requires Valid(b) && ValidRun(b, es) && Greedy(b, es) && NoneBeyond(es, s, t, u)
    requires s <= now <= t <= u && OneTokenAtMost(b.qps, t, u)
    requires es != [] && t < es[0].now <= u
    ensures PaidIn(b, es, s, t) * SECOND <= Level(b, now) + (t - now) * b.qps
  {
    hide Wait, Refill, Looked, Taken, Apply, Penalised, NoneBeyond;
    var e, rest, b' := es[0], es[1..], Apply(b, es[0]);
    ApplyKeepsValid(b, e);
    NoneBeyondTail(es, s, t, u);
    SignOfProduct(t - now, b.qps);
    SignOfProduct(Max(0, now - b.last), b.qps);
    if b'.coolUntil > t {
      CoolingPaysNothing(b', rest, s, t);
    } else if b'.tokens < SECOND {
      PastTheWindow(b, e, t);
      PoorPaysNothing(b', rest, s, t, u);
    } else {
      PaysAtCrossing(b, e);
      LevelStep(b, e, now);
      PaidWithinLevel(b', rest, e.now, s, t, u);
      Distribute(u - e.now, e.now - now, b.qps);
      Distribute(u - t, t - now, b.qps);
    }
  }

  lemma PastTheWindow(b: Bucket, e: Event, t: int)
    requires Valid(b) && Enabled(b, e) && e.now > t && Apply(b, e).coolUntil <= t
    ensures Apply(b, e).last > t
  {
  }

  /** A member that still has a whole token after a turn on which it was not left cooling was picked and paid. */
  lemma PaysAtCrossing(b: Bucket, e: Event)
    requires Valid(b) && Enabled(b, e) && (e.Look? ==> Wait(b, e.now) != 0)
    requires Apply(b, e).tokens >= SECOND && e.now >= Apply(b, e).coolUntil
    ensures Pays(b, e) && b.qps > 1
  {
    ReadyIff(b, e.now);
  }

  /** `now` is a moment of the window up to which readings have been seen, or the first of the events is not
      before it. */
  lemma {:induction false} GreedyPaysWithinLevel(b: Bucket, es: seq<Event>, now: int, s: int, t: int, u: int)
    requires Valid(b) && ValidRun(b, es) && Greedy(b, es) && NoneBeyond(es, s, t, u)
    requires s <= now <= t <= u && OneTokenAtMost(b.qps, t, u)
    requires SeenUpTo(b, now) || (es != [] && now <= es[0].now)
    ensures PaidIn(b, es, s, t) * SECOND <= Level(b, now) + (t - now) * b.qps
    decreases |es|
  {
    hide Wait, Refill, Looked, Taken, Apply, Penalised, NoneBeyond, OneTokenAtMost;
    SignOfProduct(t - now, b.qps);
    SignOfProduct(Max(0, now - b.last), b.qps);
    if es != [] {
      NoneBeyondTail(es, s, t, u);
      if es[0].now > u {
        NonePaidIn(Apply(b, es[0]), es[1..], s, t);
      } else if es[0].now > t {
        CrossingPays(b, es, now, s, t, u);
      } else {
        var next := Max(now, es[0].now);
        ApplyKeepsValid(b, es[0]);
        LevelStep(b, es[0], now);
        GreedyPaysWithinLevel(Apply(b, es[0]), es[1..], next, s, t, u);
        Distribute(t - next, next - now, b.qps);
      }
    }
  }

  /** A member that is picked at every ready look keeps the exact rate of the window, although readings beyond it
      come before readings inside it, as long as it gains no more than a token by the latest of them. */
  lemma {:induction false} GreedyRateBound(b: Bucket, es: seq<Event>, s: int, t: int, u: int)
    requires Valid(b) && ValidRun(b, es) && Greedy(b, es) && NoneBeyond(es, s, t, u)
    requires s <= t <= u && OneTokenAtMost(b.qps, t, u)
    ensures WithinRate(b, es, s, t)
    decreases |es|
  {
    SignOfProduct(t - s, b.qps);
    if es != [] {
      NoneBeyondTail(es, s, t, u);
      if InWindow(es[0], s, t) {
        GreedyPaysWithinLevel(b, es, s, s, t, u);
      } else {
        ApplyKeepsValid(b, es[0]);
        GreedyRateBound(Apply(b, es[0]), es[1..], s, t, u);
      }
    }
  }

  /** A new member is emptied, picked when it is full again, and emptied on a reading late by d. */
  function GreedyBreaking(qps: int, now: int, d: nat): seq<Event>
    requires qps >= 1
  {
    Repeated(qps, now) + Refilled(qps - 1, now + SECOND, d)
  }

  function Refilled(n: nat, full: int, d: nat): seq<Event> { [Pick(full)] + Repeated(n, full - d) }

  lemma RefilledPays(empty: Bucket, d: nat)
    requires Valid(empty) && empty.tokens == 0 && empty.coolUntil == 0 && empty.last > 0 && 1 <= d <= SECOND
    ensures var full, es := empty.last + SECOND, Refilled(empty.qps - 1, empty.last + SECOND, d);
      ValidRun(empty, es) && PaidIn(empty, es, empty.last, full - d) == empty.qps - 1
  {
    var full, n := empty.last + SECOND, empty.qps - 1;
    var es := Refilled(n, full, d);
    var b := Apply(empty, es[0]);
    assert b == empty.(tokens := n * SECOND, last := full);
    var left := b.(tokens := 0);
    assert ValidRun(left, []) && PaidIn(left, [], empty.last, full - d) == 0;
    Drained(b, n, full - d, [], empty.last, full - d);
    assert es[1..] == Repeated(n, full - d) && Repeated(n, full - d) + [] == Repeated(n, full - d);
  }

  lemma {:induction false} PicksAreGreedy(b: Bucket, es: seq<Event>)
    requires forall i :: 0 <= i < |es| ==> es[i].Pick?
    ensures Greedy(b, es)
    decreases |es|
  {
    if es != [] { PicksAreGreedy(Apply(b, es[0]), es[1..]); }
  }

  lemma GreedyBreakingReadings(qps: int, now: int, d: nat)
    requires qps >= 1 && d <= SECOND
    ensures LateByAtMost(GreedyBreaking(qps, now, d), d)
    ensures forall i :: 0 <= i < |GreedyBreaking(qps, now, d)| ==> GreedyBreaking(qps, now, d)[i].Pick?
    ensures Greedy(New(qps, now), GreedyBreaking(qps, now, d))
  {
    var es := GreedyBreaking(qps, now, d);
    RepeatedReadings(qps, now);
    RepeatedReadings(qps - 1, now + SECOND - d);
    forall i | 0 <= i < |es|
      ensures es[i] == if i < qps then Pick(now) else if i == qps then Pick(now + SECOND) else Pick(now + SECOND - d)
    {
    }
    PicksAreGreedy(New(qps, now), es);
  }

  /** All but a token of a second full bucket is paid in a window that is shorter by d than it took to fill. */
  lemma GreedyReadingBreaks(qps: int, now: int, d: nat)
    requires qps >= 2 && now > 0 && 1 <= d <= SECOND && qps * d > SECOND
    ensures var b, es, t := New(qps, now), GreedyBreaking(qps, now, d), now + SECOND - d;
      ValidRun(b, es) && Greedy(b, es) && LateByAtMost(es, d) && !WithinRate(b, es, now, t)
  {
    hide ValidRun, PaidIn, Repeated, Refilled, LateByAtMost, Greedy;
    var empty := Bucket(qps, 0, now, 0);
    RefilledPays(empty, d);
    Drained(New(qps, now), qps, now, Refilled(qps - 1, now + SECOND, d), now, now + SECOND - d);
    GreedyBreakingReadings(qps, now, d);
    Distribute(SECOND, d, qps);
  }

  /** A member that is picked at every ready look keeps the bound in all runs and windows exactly when its rate is
      one, or it gains no more than a token while readings are late. */
  lemma GreedyRateKeptExactly(qps: int, now: int, d: nat)
    requires qps >= 1 && now > 0
    ensures GreedyRateKept(qps, now, d) <==> qps == 1 || qps * d <= SECOND
  {
    hide ValidRun, LateByAtMost, Greedy, WithinRate, GreedyBreaking;
    var b := New(qps, now);
    if qps == 1 || qps * d <= SECOND {
      forall es, s, t | ValidRun(b, es) && Greedy(b, es) && LateByAtMost(es, d) && s <= t
        ensures WithinRate(b, es, s, t)
      {
        LateIsNoneBeyond(es, d, s, t);
        GreedyRateBound(b, es, s, t, t + d);
      }
    } else {
      var late := Min(d, SECOND);
      SignOfProduct(d, qps);
      GreedyReadingBreaks(qps, now, late);
      LaterStill(GreedyBreaking(qps, now, late), late, d);
    }
  }

  lemma LateIsNoneBeyond(es: seq<Event>, d: nat, s: int, t: int)
    requires LateByAtMost(es, d)
    ensures NoneBeyond(es, s, t, t + d)
  {
  }
}
