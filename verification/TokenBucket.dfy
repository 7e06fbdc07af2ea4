/** The token bucket and cool-down of one pool member. Times are whole nanoseconds since the zero
    time, tokens are whole nano-tokens, so that refilling is exact. */
module TokenBucket {
  import opened Prelude
  import opened Sums

  /** Nanoseconds in a second, nano-tokens in a token, and the length of a penalty. */
  const SECOND := 1_000_000_000

  datatype Bucket = Bucket(qps: int, tokens: int, last: int, coolUntil: int)

  /** What happens to one member: it is looked at, looked at and picked, or penalised. */
  datatype Event = Look(now: int) | Pick(now: int) | Penalty(now: int)

  /** A new member starts full. */
  function New(qps: int, now: int): Bucket { Bucket(qps, qps * SECOND, now, 0) }

  function Refill(b: Bucket, now: int): Bucket
  {
    if b.last == 0 then b.(last := now)
    else if now - b.last <= 0 then b
    else b.(tokens := Min(b.qps * SECOND, b.tokens + (now - b.last) * b.qps), last := now)
  }

  /** The state a look leaves behind: nothing is refilled while cooling down. */
  function Looked(b: Bucket, now: int): Bucket
  {
    if now < b.coolUntil then b else Refill(b, now)
  }

  /** How long to wait, as the look computes it. The division truncates, so the wait is already 0 when
      less than `qps` nano-tokens are missing. */
  function Wait(b: Bucket, now: int): int
    requires b.qps >= 1
  {
    if now < b.coolUntil then b.coolUntil - now
    else
      var r := Refill(b, now);
      if r.tokens >= SECOND then 0 else (SECOND - r.tokens) / b.qps
  }

  /** Taking a token; a member picked below one whole token keeps what it has. */
  function Taken(b: Bucket, now: int): Bucket
  {
    var r := Refill(b, now);
    if r.tokens >= SECOND then r.(tokens := r.tokens - SECOND) else r
  }

  function Penalised(b: Bucket, now: int): Bucket
  {
    Bucket(b.qps, 0, now, now + SECOND)
  }

  function Apply(b: Bucket, e: Event): Bucket
  {
    match e
    case Look(now) => Looked(b, now)
    case Pick(now) => Taken(Looked(b, now), now)
    case Penalty(now) => Penalised(b, now)
  }

  function Run(b: Bucket, es: seq<Event>): Bucket
    decreases |es|
  {
    if es == [] then b else Run(Apply(b, es[0]), es[1..])
  }

  /** Only a ready member is picked. A penalty reads the clock under the pool's lock, so it is never
      behind what the member already saw; a look may carry an older reading. */
  predicate Enabled(b: Bucket, e: Event)
    requires b.qps >= 1
  {
    e.now > 0 && (e.Pick? ==> Wait(b, e.now) == 0) && (e.Penalty? ==> e.now >= b.last)
  }

  ghost predicate ValidRun(b: Bucket, es: seq<Event>)
    decreases |es|
  {
    es == [] || (b.qps >= 1 && Enabled(b, es[0]) && ValidRun(Apply(b, es[0]), es[1..]))
  }

  /** A pick that pays a whole token. */
  predicate Pays(b: Bucket, e: Event)
  {
    e.Pick? && Looked(b, e.now).tokens >= SECOND
  }

  function PaidPicks(b: Bucket, es: seq<Event>): nat
    decreases |es|
  {
    if es == [] then 0
    else (if Pays(b, es[0]) then 1 else 0) + PaidPicks(Apply(b, es[0]), es[1..])
  }

  function FreePicks(b: Bucket, es: seq<Event>): nat
    decreases |es|
  {
    if es == [] then 0
    else (if es[0].Pick? && !Pays(b, es[0]) then 1 else 0) + FreePicks(Apply(b, es[0]), es[1..])
  }

  function Penalties(es: seq<Event>): nat
  {
    if es == [] then 0 else (if es[0].Penalty? then 1 else 0) + Penalties(es[1..])
  }

  /** Tokens stay within [0, qps]; since a penalty the bucket is either untouched and empty, or the
      cool-down is over. */
  ghost predicate Valid(b: Bucket)
  {
    && b.qps >= 1
    && 0 <= b.tokens <= b.qps * SECOND
    && 0 <= b.last
    && (b.coolUntil <= b.last || (b.tokens == 0 && b.coolUntil == b.last + SECOND))
  }

  lemma ApplyKeepsValid(b: Bucket, e: Event)
    requires Valid(b) && Enabled(b, e)
    ensures Valid(Apply(b, e)) && Apply(b, e).qps == b.qps
    ensures Apply(b, e).last >= b.last
    ensures Apply(b, e).coolUntil >= b.coolUntil
  {
    if !e.Penalty? && b.last != 0 && e.now > b.last {
      SignOfProduct(e.now - b.last, b.qps);
    }
  }

  lemma {:induction false} RunKeepsValid(b: Bucket, es: seq<Event>)
    requires Valid(b) && ValidRun(b, es)
    ensures Valid(Run(b, es)) && Run(b, es).qps == b.qps
    decreases |es|
  {
    if es != [] {
      ApplyKeepsValid(b, es[0]);
      RunKeepsValid(Apply(b, es[0]), es[1..]);
    }
  }

  /** Tokens the bucket would hold at time t if nobody touched it until then. */
  ghost function Level(b: Bucket, t: int): int
  {
    Min(b.qps * SECOND, b.tokens + Max(0, t - b.last) * b.qps)
  }

  /** Every reading up to s either refilled the bucket to s or found it cooling down at s. */
  ghost predicate SeenUpTo(b: Bucket, s: int)
  {
    b.last >= s || s < b.coolUntil
  }

  /** One event costs what it takes and gains no more than the clock moved. */
  lemma LevelStep(b: Bucket, e: Event, s: int)
    requires Valid(b) && Enabled(b, e)
    requires e.now >= s || SeenUpTo(b, s)
    ensures var s' := Max(s, e.now);
      && SeenUpTo(Apply(b, e), s')
      && Level(Apply(b, e), s') + (if Pays(b, e) then SECOND else 0) <= Level(b, s) + (s' - s) * b.qps
  {
    var s', b' := Max(s, e.now), Apply(b, e);
    LevelIsLipschitz(b, s, s');
    if e.Penalty? {
      if e.now < s { ProductsOrdered(s - e.now, s - b.last, b.qps); }
    } else if e.now >= b.coolUntil && e.now > b.last {
      assert s' == e.now;
      assert Looked(b, e.now).tokens <= Level(b, e.now);
    }
  }

  lemma ProductsOrdered(a: int, b: int, c: int)
    requires a <= b && c >= 0
    ensures a * c <= b * c
  {
    Distribute(b, a, c);
  }

  lemma LevelIsLipschitz(b: Bucket, s: int, t: int)
    requires b.qps >= 1 && s <= t
    ensures Level(b, s) <= Level(b, t) <= Level(b, s) + (t - s) * b.qps
  {
    var x, y := Max(0, s - b.last), Max(0, t - b.last);
    ProductsOrdered(x, y, b.qps);
    ProductsOrdered(y - x, t - s, b.qps);
    Distribute(y, x, b.qps);
  }

  predicate InWindow(e: Event, s: int, t: int) { s <= e.now <= t }

  /** Picks on readings in [s, t] that pay. */
  function PaidIn(b: Bucket, es: seq<Event>, s: int, t: int): nat
    decreases |es|
  {
    if es == [] then 0
    else (if Pays(b, es[0]) && InWindow(es[0], s, t) then 1 else 0) + PaidIn(Apply(b, es[0]), es[1..], s, t)
  }

  /** No reading beyond u comes before one inside the window. */
  ghost predicate NoneBeyond(es: seq<Event>, s: int, t: int, u: int)
  {
    forall i, j :: 0 <= i < j < |es| && InWindow(es[j], s, t) ==> es[i].now <= u
  }

  lemma NoneBeyondTail(es: seq<Event>, s: int, t: int, u: int)
    requires es != [] && NoneBeyond(es, s, t, u)
    ensures NoneBeyond(es[1..], s, t, u)
    ensures es[0].now > u ==> forall j :: 0 <= j < |es[1..]| ==> !InWindow(es[1..][j], s, t)
  {
    forall i, j | 0 <= i < j < |es[1..]| && InWindow(es[1..][j], s, t) ensures es[1..][i].now <= u {
      assert es[i + 1].now <= u;
    }
  }

  lemma {:induction false} NonePaidIn(b: Bucket, es: seq<Event>, s: int, t: int)
    requires forall j :: 0 <= j < |es| ==> !InWindow(es[j], s, t)
    ensures PaidIn(b, es, s, t) == 0
    decreases |es|
  {
    if es != [] { NonePaidIn(Apply(b, es[0]), es[1..], s, t); }
  }

  /** `now` is a moment up to which readings have been seen, or the first of the events is not before it. */
  lemma {:induction false} PaidWithinLevel(b: Bucket, es: seq<Event>, now: int, s: int, t: int, u: int)
    requires Valid(b) && ValidRun(b, es) && NoneBeyond(es, s, t, u) && s <= now <= u && t <= u
    requires SeenUpTo(b, now) || (es != [] && now <= es[0].now)
    ensures PaidIn(b, es, s, t) * SECOND <= Level(b, now) + (u - now) * b.qps
    decreases |es|
  {
    SignOfProduct(u - now, b.qps);
    SignOfProduct(Max(0, now - b.last), b.qps);
    if es != [] {
      NoneBeyondTail(es, s, t, u);
      if es[0].now > u {
        NonePaidIn(Apply(b, es[0]), es[1..], s, t);
      } else {
        var next := Max(now, es[0].now);
        ApplyKeepsValid(b, es[0]);
        LevelStep(b, es[0], now);
        PaidWithinLevel(Apply(b, es[0]), es[1..], next, s, t, u);
        Distribute(u - next, next - now, b.qps);
      }
    }
  }

  /** For every window of clock readings [s, t] and every run of a member, in whatever order the readings
      arrive: when no reading beyond u comes before one inside the window, the picks on readings in the window
      pay at most qps + qps * (u - s) tokens, whatever else happens before, between and after them. With u == t
      this is the rate of the member. */
  lemma {:induction false} RateBound(b: Bucket, es: seq<Event>, s: int, t: int, u: int)
    requires Valid(b) && ValidRun(b, es) && s <= t <= u && NoneBeyond(es, s, t, u)
    ensures PaidIn(b, es, s, t) * SECOND <= b.qps * SECOND + b.qps * (u - s)
    decreases |es|
  {
    SignOfProduct(u - s, b.qps);
    if es != [] {
      NoneBeyondTail(es, s, t, u);
      if InWindow(es[0], s, t) {
        PaidWithinLevel(b, es, s, s, t, u);
      } else {
        ApplyKeepsValid(b, es[0]);
        RateBound(Apply(b, es[0]), es[1..], s, t, u);
      }
    }
  }

  /** After a penalty, no pick happens on a reading less than a second later. */
  lemma {:induction false} PenaltyKeepsOut(b: Bucket, es: seq<Event>, until: int, i: nat)
    requires Valid(b) && ValidRun(b, es) && b.coolUntil >= until
    requires i < |es| && es[i].Pick?
    ensures es[i].now >= until
    decreases |es|
  {
    if i > 0 {
      ApplyKeepsValid(b, es[0]);
      PenaltyKeepsOut(Apply(b, es[0]), es[1..], until, i - 1);
    }
  }

  lemma PenalisedForOneSecond(b: Bucket, penalty: int, es: seq<Event>, i: nat)
    requires Valid(b) && ValidRun(b, [Penalty(penalty)] + es)
    requires i < |es| && es[i].Pick?
    ensures es[i].now >= penalty + SECOND
  {
    var run := [Penalty(penalty)] + es;
    assert run[0] == Penalty(penalty) && run[1..] == es;
    ApplyKeepsValid(b, run[0]);
    PenaltyKeepsOut(Penalised(b, penalty), es, penalty + SECOND, i);
  }

  /** Ready exactly when the cool-down is over and less than `qps` nano-tokens are missing. */
  lemma ReadyIff(b: Bucket, now: int)
    requires Valid(b)
    ensures Wait(b, now) == 0 <==> now >= b.coolUntil && SECOND - Refill(b, now).tokens < b.qps
    ensures Wait(b, now) >= 0
  {
    var missing := SECOND - Refill(b, now).tokens;
    if missing > 0 { QuotientBounds(missing, b.qps); }
  }

  lemma QuotientSign(a: int, d: int, q: int, r: int)
    requires a >= 0 && d >= 1 && a == q * d + r && 0 <= r < d
    ensures q >= 0 && (q == 0 <==> a < d)
  {
    SignOfProduct(q, d);
  }

  lemma QuotientBounds(a: int, d: int)
    requires a >= 0 && d >= 1
    ensures 0 <= a / d && (a / d) * d <= a < (a / d) * d + d
    ensures a / d == 0 <==> a < d
  {
    QuotientSign(a, d, a / d, a % d);
  }

  lemma FilledBy(b: Bucket, later: int)
    requires Valid(b) && b.last > 0 && later >= b.last && later >= b.coolUntil
    requires SECOND - b.tokens - (later - b.last) * b.qps < b.qps
    ensures Wait(b, later) == 0
  {
    ReadyIff(b, later);
    if later == b.last { Distribute(0, 0, b.qps); }
  }

  /** The reading comes from a cool-down that a newer reading has already ended. */
  predicate Outdated(b: Bucket, now: int) { now < b.coolUntil <= b.last }

  /** The moment a caller wakes up that read `now`, looked when the latest reading was the bucket's, and slept. */
  function WakeUp(b: Bucket, now: int): int
    requires b.qps >= 1
  {
    Max(now, b.last) + Wait(b, now)
  }

  /** Unless the reading is outdated, sleeping the wait makes the member ready at every later reading. */
  lemma SleepingTheWaitIsEnough(b: Bucket, now: int, later: int)
    requires Valid(b) && now > 0 && b.last > 0
    requires !Outdated(b, now)
    requires later >= WakeUp(b, now)
    ensures Wait(Looked(b, now), later) == 0
  {
    ApplyKeepsValid(b, Look(now));
    var seen := Looked(b, now);
    if now < b.coolUntil {
      ProductsOrdered(SECOND, later - b.last, b.qps);
      FilledBy(seen, later);
    } else {
      var wait := if seen.tokens >= SECOND then 0 else (SECOND - seen.tokens) / b.qps;
      assert wait == Wait(b, now);
      if seen.tokens < SECOND { QuotientBounds(SECOND - seen.tokens, b.qps); }
      ProductsOrdered(wait, later - seen.last, b.qps);
      FilledBy(seen, later);
    }
  }

  /** What it takes for the sleep to suffice: a reading that is not outdated, or a bucket that fills up in time
      anyway. */
  predicate SleepSuffices(b: Bucket, now: int)
    requires b.qps >= 1
  {
    !Outdated(b, now) || SECOND - Refill(b, WakeUp(b, now)).tokens < b.qps
  }

  lemma RefillGrows(b: Bucket, t: int, u: int)
    requires Valid(b) && b.last > 0 && b.last <= t <= u
    ensures Refill(b, t).tokens <= Refill(b, u).tokens
  {
    ProductsOrdered(t - b.last, u - b.last, b.qps);
    SignOfProduct(t - b.last, b.qps);
    SignOfProduct(u - b.last, b.qps);
  }

  /** Sleeping exactly the wait that was returned makes the member ready, then and at every later reading, if
      and only if the reading was not outdated or the bucket fills up in time anyway. */
  lemma SleepSufficesExactly(b: Bucket, now: int)
    requires Valid(b) && now > 0 && b.last > 0
    ensures (forall later :: later >= WakeUp(b, now) ==> Wait(Looked(b, now), later) == 0) <==> SleepSuffices(b, now)
  {
    hide Refill, Wait;
    ApplyKeepsValid(b, Look(now));
    if !Outdated(b, now) {
      forall later | later >= WakeUp(b, now) ensures Wait(Looked(b, now), later) == 0 {
        SleepingTheWaitIsEnough(b, now, later);
      }
    } else {
      var wake := WakeUp(b, now);
      ReadyIff(b, now);
      ReadyIff(b, wake);
      forall later | later >= wake
        ensures SleepSuffices(b, now) ==> Wait(Looked(b, now), later) == 0
      {
        ReadyIff(b, later);
        RefillGrows(b, wake, later);
      }
      assert (forall later :: later >= wake ==> Wait(Looked(b, now), later) == 0) ==> Wait(Looked(b, now), wake) == 0;
    }
  }

  /** The exception occurs: a new member is penalised at 5 and picked as soon as the penalty ends; a reading from
      a nanosecond earlier then returns a wait of 1, and one nanosecond does not fill a bucket. */
  lemma OutdatedCoolDownWitness()
    ensures var es := [Penalty(5), Pick(SECOND + 5)];
      var b := Bucket(1, 0, SECOND + 5, SECOND + 5);
      && ValidRun(New(1, 1), es) && Run(New(1, 1), es) == b
      && Outdated(b, SECOND + 4) && Wait(b, SECOND + 4) == 1
      && Wait(Looked(b, SECOND + 4), WakeUp(b, SECOND + 4)) > 0 && !SleepSuffices(b, SECOND + 4)
  {
    var es := [Penalty(5), Pick(SECOND + 5)];
    var b1 := Apply(New(1, 1), es[0]);
    var b2 := Apply(b1, es[1]);
    assert es[1..] == [Pick(SECOND + 5)] && es[1..][1..] == [];
    assert b1 == Bucket(1, 0, 5, SECOND + 5) && b2 == Bucket(1, 0, SECOND + 5, SECOND + 5);
    assert ValidRun(b2, []) && Run(b2, []) == b2;
    assert ValidRun(b1, es[1..]) && Run(b1, es[1..]) == b2;
  }

  ghost predicate StrictlyLater(es: seq<Event>, t: int)
  {
    es == [] || (es[0].now > t && StrictlyLater(es[1..], es[0].now))
  }

  /** A free pick leaves the member within `qps` nano-tokens of a whole token, and the next one pays. */
  ghost predicate Armed(b: Bucket)
  {
    b.last > 0 && SECOND - b.tokens < b.qps
  }

  lemma {:induction false} FreePicksNeedPayers(b: Bucket, es: seq<Event>)
    requires Valid(b) && ValidRun(b, es) && StrictlyLater(es, b.last)
    ensures FreePicks(b, es) <= PaidPicks(b, es) + Penalties(es) + (if Armed(b) then 0 else 1)
    decreases |es|
  {
    if es != [] {
      var e, b' := es[0], Apply(b, es[0]);
      ApplyKeepsValid(b, e);
      if e.now < b.coolUntil && !e.Penalty? {
        StrictlyLaterWeakens(es[1..], e.now, b.last);
      }
      if e.Pick? { ReadyIff(b, e.now); }
      if !e.Penalty? && e.now >= b.coolUntil && b.last > 0 {
        ProductsOrdered(1, e.now - b.last, b.qps);
      }
      FreePicksNeedPayers(b', es[1..]);
    }
  }

  lemma StrictlyLaterWeakens(es: seq<Event>, t: int, s: int)
    requires StrictlyLater(es, t) && s <= t
    ensures StrictlyLater(es, s)
  {
  }

  /** With a clock that moves between events, at most one free pick falls between paid picks or
      penalties, so all picks of a window number at most twice the paid ones plus the penalties plus one. */
  lemma TotalPicksBound(b: Bucket, es: seq<Event>, s: int, t: int)
    requires Valid(b) && ValidRun(b, es) && StrictlyLater(es, b.last) && s <= t
    requires forall i :: 0 <= i < |es| ==> InWindow(es[i], s, t)
    ensures FreePicks(b, es) <= PaidPicks(b, es) + Penalties(es) + 1
    ensures (PaidPicks(b, es) + FreePicks(b, es)) * SECOND
         <= 2 * (b.qps * SECOND + b.qps * (t - s)) + (Penalties(es) + 1) * SECOND
  {
    FreePicksNeedPayers(b, es);
    AllPaidIn(b, es, s, t);
    RateBound(b, es, s, t, t);
  }

  lemma {:induction false} AllPaidIn(b: Bucket, es: seq<Event>, s: int, t: int)
    requires forall i :: 0 <= i < |es| ==> InWindow(es[i], s, t)
    ensures PaidIn(b, es, s, t) == PaidPicks(b, es)
    decreases |es|
  {
    if es != [] { AllPaidIn(Apply(b, es[0]), es[1..], s, t); }
  }

  function PicksIn(es: seq<Event>, s: int, t: int): nat
    decreases |es|
  {
    if es == [] then 0 else (if es[0].Pick? && InWindow(es[0], s, t) then 1 else 0) + PicksIn(es[1..], s, t)
  }

  lemma {:induction false} PicksAreFreeOrPaid(b: Bucket, es: seq<Event>, s: int, t: int)
    requires forall i :: 0 <= i < |es| ==> InWindow(es[i], s, t)
    ensures PicksIn(es, s, t) == PaidPicks(b, es) + FreePicks(b, es)
    decreases |es|
  {
    if es != [] { PicksAreFreeOrPaid(Apply(b, es[0]), es[1..], s, t); }
  }

  // ----- When free picks occur at all -----

  ghost predicate Multiple(x: int, d: int) { exists k: int :: IsTimes(x, k, d) }

  predicate IsTimes(x: int, k: int, d: int) { x == k * d }

  lemma MultiplesAdd(x: int, y: int, d: int)
    requires Multiple(x, d) && Multiple(y, d)
    ensures Multiple(x + y, d) && Multiple(x - y, d)
  {
    var j :| IsTimes(x, j, d);
    var k :| IsTimes(y, k, d);
    Distribute(j, k, d);
    assert IsTimes(x + y, j + k, d) && IsTimes(x - y, j - k, d);
  }

  /** Multiples are apart by the divisor at least. */
  lemma MultiplesApart(x: int, d: int)
    requires Multiple(x, d) && d > 0 && x > 0
    ensures x >= d
  {
    var k :| IsTimes(x, k, d);
    SignOfProduct(k, d);
    ProductsOrdered(1, k, d);
  }

  /** The tokens of the member are a multiple of what it gains in a nanosecond, and so is a whole token. */
  ghost predicate InStep(b: Bucket) { Multiple(b.tokens, b.qps) && Multiple(SECOND, b.qps) }

  lemma NothingIsMultiple(d: int)
    ensures Multiple(0, d)
  {
    assert IsTimes(0, 0, d);
  }

  lemma TimesIsMultiple(k: int, d: int)
    ensures Multiple(k * d, d)
  {
    assert IsTimes(k * d, k, d);
  }

  lemma RefillKeepsInStep(b: Bucket, now: int)
    requires InStep(b)
    ensures InStep(Refill(b, now))
  {
    hide Multiple;
    TimesIsMultiple(now - b.last, b.qps);
    TimesIsMultiple(SECOND, b.qps);
    MultiplesAdd(b.tokens, (now - b.last) * b.qps, b.qps);
  }

  lemma ApplyKeepsInStep(b: Bucket, e: Event)
    requires Valid(b) && Enabled(b, e) && InStep(b)
    ensures InStep(Apply(b, e)) && !(e.Pick? && !Pays(b, e))
  {
    hide Multiple;
    var d := b.qps;
    assert Multiple(0, d) by { NothingIsMultiple(d); }
    RefillKeepsInStep(b, e.now);
    var seen := Looked(b, e.now);
    if e.Pick? {
      ReadyIff(b, e.now);
      RefillKeepsInStep(seen, e.now);
      MultiplesAdd(SECOND, seen.tokens, d);
      if seen.tokens < SECOND { MultiplesApart(SECOND - seen.tokens, d); }
      MultiplesAdd(seen.tokens, SECOND, d);
    }
  }

  lemma {:induction false} NoFreePicks(b: Bucket, es: seq<Event>)
    requires Valid(b) && ValidRun(b, es) && InStep(b)
    ensures FreePicks(b, es) == 0
    decreases |es|
  {
    if es != [] {
      ApplyKeepsValid(b, es[0]);
      ApplyKeepsInStep(b, es[0]);
      NoFreePicks(Apply(b, es[0]), es[1..]);
    }
  }

  function Repeated(n: nat, now: int): seq<Event>
  {
    if n == 0 then [] else [Pick(now)] + Repeated(n - 1, now)
  }

  /** Whole tokens are used up by paid picks on one and the same reading, which may be older than the last. */
  lemma {:induction false} Drained(b: Bucket, n: nat, now: int, rest: seq<Event>, s: int, t: int)
    requires b.qps >= 1 && 0 < now <= b.last && b.coolUntil <= now && b.tokens == n * SECOND
    ensures ValidRun(b, Repeated(n, now) + rest) <==> ValidRun(b.(tokens := 0), rest)
    ensures FreePicks(b, Repeated(n, now) + rest) == FreePicks(b.(tokens := 0), rest)
    ensures PaidPicks(b, Repeated(n, now) + rest) == n + PaidPicks(b.(tokens := 0), rest)
    ensures PaidIn(b, Repeated(n, now) + rest, s, t) ==
      (if s <= now <= t then n else 0) + PaidIn(b.(tokens := 0), rest, s, t)
    decreases n
  {
    var es := Repeated(n, now) + rest;
    if n == 0 {
      assert es == rest;
    } else {
      var b' := b.(tokens := (n - 1) * SECOND);
      Drained(b', n - 1, now, rest, s, t);
      assert es[0] == Pick(now) && es[1..] == Repeated(n - 1, now) + rest;
      assert Apply(b, es[0]) == b';
    }
  }

  ghost predicate MayPickFree(qps: int, now: int)
    requires qps >= 1
  {
    exists es :: ValidRun(New(qps, now), es) && FreePicks(New(qps, now), es) > 0
  }

  /** Some run of a new member has a pick that pays nothing if and only if its rate does not divide a billion. */
  lemma FreePicksExactly(qps: int, now: int)
    requires qps >= 1 && now > 0
    ensures MayPickFree(qps, now) <==> SECOND % qps != 0
  {
    if SECOND % qps == 0 {
      NewIsInStep(qps, now);
      forall es | ValidRun(New(qps, now), es) ensures FreePicks(New(qps, now), es) == 0 {
        NoFreePicks(New(qps, now), es);
      }
    } else {
      FreePicksOnOneReading(qps, now, 1);
    }
  }

  lemma NewIsInStep(qps: int, now: int)
    requires qps >= 1 && SECOND % qps == 0
    ensures InStep(New(qps, now))
  {
    TimesIsMultiple(SECOND, qps);
    assert IsTimes(SECOND, SECOND / qps, qps);
  }

  /** For such rates every pick pays, so the rate bound is one on all picks of a member. */
  lemma EvenRateBound(qps: int, now: int, es: seq<Event>, s: int, t: int, u: int)
    requires qps >= 1 && now > 0 && SECOND % qps == 0 && ValidRun(New(qps, now), es)
    requires s <= t <= u && NoneBeyond(es, s, t, u)
    ensures PicksIn(es, s, t) * SECOND <= qps * SECOND + qps * (u - s)
  {
    NewIsInStep(qps, now);
    EveryPickPays(New(qps, now), es, s, t);
    RateBound(New(qps, now), es, s, t, u);
  }

  lemma {:induction false} EveryPickPays(b: Bucket, es: seq<Event>, s: int, t: int)
    requires Valid(b) && ValidRun(b, es) && InStep(b)
    ensures PicksIn(es, s, t) == PaidIn(b, es, s, t)
    decreases |es|
  {
    if es != [] {
      ApplyKeepsValid(b, es[0]);
      ApplyKeepsInStep(b, es[0]);
      EveryPickPays(Apply(b, es[0]), es[1..], s, t);
    }
  }

  /** The least rate that does it: a new member at 3 requests per second is emptied, gains a nano-token less
      than a whole one in 333333333 nanoseconds, and is picked without paying. */
  lemma FreePickWitness()
    ensures var es := [Pick(10), Pick(10), Pick(10), Pick(333333343)];
      ValidRun(New(3, 10), es) && FreePicks(New(3, 10), es) == 1 && PaidPicks(New(3, 10), es) == 3
  {
    var es := [Pick(10), Pick(10), Pick(10), Pick(333333343)];
    var last := [Pick(333333343)];
    assert Repeated(1, 10) == [Pick(10)] && Repeated(2, 10) == [Pick(10), Pick(10)];
    assert es == Repeated(3, 10) + last;
    var empty := Bucket(3, 0, 10, 0);
    var after := Apply(empty, last[0]);
    assert last[1..] == [] && ValidRun(after, []) && FreePicks(after, []) == 0 && PaidPicks(after, []) == 0;
    assert Enabled(empty, last[0]) && !Pays(empty, last[0]);
    Drained(New(3, 10), 3, 10, last, 0, 0);
  }

  // ----- When the clock stands still -----

  /** A member picked free on a reading stays as it is and is picked free on that reading any number of times. */
  lemma {:induction false} FreePickRepeats(b: Bucket, n: nat, now: int)
    requires Valid(b) && Enabled(b, Pick(now)) && !Pays(b, Pick(now))
    ensures ValidRun(b, Repeated(n, now)) && FreePicks(b, Repeated(n, now)) == n
    ensures PaidPicks(b, Repeated(n, now)) == 0 && Penalties(Repeated(n, now)) == 0
    decreases n
  {
    if n > 0 {
      var es, b' := Repeated(n, now), Apply(b, Pick(now));
      assert es[0] == Pick(now) && es[1..] == Repeated(n - 1, now);
      FreePickChangesNothing(b, now);
      FreePickRepeats(b', n - 1, now);
    }
  }

  lemma FreePickChangesNothing(b: Bucket, now: int)
    requires Valid(b) && Enabled(b, Pick(now)) && !Pays(b, Pick(now))
    ensures var b' := Apply(b, Pick(now)); Valid(b') && Enabled(b', Pick(now)) && !Pays(b', Pick(now))
  {
    ApplyKeepsValid(b, Pick(now));
    ReadyIff(b, now);
    ReadyIff(Apply(b, Pick(now)), now);
  }

  /** No reading is behind the one before it. */
  ghost predicate NeverBack(es: seq<Event>)
  {
    forall i, j :: 0 <= i < j < |es| ==> es[i].now <= es[j].now
  }

  /** The bound that holds while the clock moves between events, for all runs whose readings never go back. */
  ghost predicate FreePicksBounded(qps: int, now: int)
    requires qps >= 1
  {
    forall es :: ValidRun(New(qps, now), es) && NeverBack(es) ==>
      FreePicks(New(qps, now), es) <= PaidPicks(New(qps, now), es) + Penalties(es) + 1
  }

  lemma {:induction false} RepeatedReadings(n: nat, now: int)
    ensures |Repeated(n, now)| == n && forall i :: 0 <= i < n ==> Repeated(n, now)[i] == Pick(now)
    ensures Penalties(Repeated(n, now)) == 0
  {
    if n > 0 { RepeatedReadings(n - 1, now); }
  }

  lemma {:induction false} PenaltiesAdd(x: seq<Event>, y: seq<Event>)
    ensures Penalties(x + y) == Penalties(x) + Penalties(y)
    decreases |x|
  {
    if x == [] {
      assert x + y == y;
    } else {
      assert (x + y)[0] == x[0] && (x + y)[1..] == x[1..] + y;
      PenaltiesAdd(x[1..], y);
    }
  }

  /** A new member whose rate does not divide a billion, emptied, is picked n times for nothing on the first
      reading at which it is ready again. */
  lemma FreePicksOnOneReading(qps: int, now: int, n: nat)
    requires qps >= 1 && now > 0 && SECOND % qps != 0
    ensures var b, es := New(qps, now), Repeated(qps, now) + Repeated(n, now + SECOND / qps);
      && ValidRun(b, es) && NeverBack(es)
      && FreePicks(b, es) == n && PaidPicks(b, es) == qps && Penalties(es) == 0
  {
    var empty, wait := Bucket(qps, 0, now, 0), SECOND / qps;
    var rest := Repeated(n, now + wait);
    ReadyAgain(qps, now);
    FreePickRepeats(empty, n, now + wait);
    Drained(New(qps, now), qps, now, rest, 0, 0);
    RepeatedReadings(qps, now);
    RepeatedReadings(n, now + wait);
    QuotientBounds(SECOND, qps);
    PenaltiesAdd(Repeated(qps, now), rest);
    var es := Repeated(qps, now) + rest;
    forall k | 0 <= k < |es| ensures es[k].now == if k < qps then now else now + wait { }
  }

  /** An emptied member gains SECOND - SECOND % qps nano-tokens in SECOND / qps nanoseconds, and is ready. */
  lemma ReadyAgain(qps: int, now: int)
    requires qps >= 1 && now > 0 && SECOND % qps != 0
    ensures var empty, e := Bucket(qps, 0, now, 0), Pick(now + SECOND / qps);
      Valid(empty) && Enabled(empty, e) && !Pays(empty, e)
  {
    var empty, wait := Bucket(qps, 0, now, 0), SECOND / qps;
    QuotientBounds(SECOND, qps);
    ProductsOrdered(wait, SECOND, qps);
    ReadyIff(empty, now + wait);
    assert SECOND == wait * qps + SECOND % qps;
  }

  /** For readings that never go back but may stand still, the number of free picks is bounded by the others exactly
      when there are none. */
  lemma FreePicksBoundedExactly(qps: int, now: int)
    requires qps >= 1 && now > 0
    ensures FreePicksBounded(qps, now) <==> SECOND % qps == 0
  {
    hide ValidRun, FreePicks, PaidPicks, Penalties, NeverBack, Repeated;
    if SECOND % qps == 0 {
      NewIsInStep(qps, now);
      forall es | ValidRun(New(qps, now), es)
        ensures FreePicks(New(qps, now), es) <= PaidPicks(New(qps, now), es) + Penalties(es) + 1
      {
        NoFreePicks(New(qps, now), es);
      }
    } else {
      FreePicksOnOneReading(qps, now, qps + 2);
    }
  }
}
