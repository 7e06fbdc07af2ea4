/** The pool of RPC endpoints: members updated in place under the pool's lock, and what every run of
    acquisitions and penalties keeps. */
module RpcPool {
  import opened Prelude
  import opened Sums
  import RR = WeightedRoundRobin
  import TB = TokenBucket

  /** One member as a value. */
  datatype Member = Member(current: int, bucket: TB.Bucket)

  type Pool = seq<Member>

  ghost predicate Valid(ms: Pool)
  {
    forall i :: 0 <= i < |ms| ==> TB.Valid(ms[i].bucket)
  }

  predicate Ready(m: Member, now: int)
  {
    m.bucket.qps >= 1 && TB.Wait(m.bucket, now) == 0
  }

  /** Positions of the ready members among the first n, in order. */
  function ReadyAt(ms: Pool, now: int, n: nat): (r: seq<nat>)
    requires n <= |ms|
    ensures forall j :: 0 <= j < |r| ==> r[j] < n && Ready(ms[r[j]], now)
  {
    if n == 0 then []
    else if Ready(ms[n - 1], now) then ReadyAt(ms, now, n - 1) + [n - 1]
    else ReadyAt(ms, now, n - 1)
  }

  /** The shortest wait among the first n members that are not ready; 0 when all of them are. */
  function ShortestWait(ms: Pool, now: int, n: nat): int
    requires n <= |ms| && forall i :: 0 <= i < n ==> ms[i].bucket.qps >= 1
  {
    if n == 0 then 0
    else
      var best, wait := ShortestWait(ms, now, n - 1), TB.Wait(ms[n - 1].bucket, now);
      if wait != 0 && (best == 0 || wait < best) then wait else best
  }

  function CurrentsAt(ms: Pool, r: seq<nat>): (c: seq<int>)
    requires forall j :: 0 <= j < |r| ==> r[j] < |ms|
    ensures |c| == |r| && forall j :: 0 <= j < |r| ==> c[j] == ms[r[j]].current
  {
    if r == [] then [] else CurrentsAt(ms, r[..|r| - 1]) + [ms[r[|r| - 1]].current]
  }

  function WeightsAt(ms: Pool, r: seq<nat>): (w: seq<int>)
    requires forall j :: 0 <= j < |r| ==> r[j] < |ms|
    ensures |w| == |r| && forall j :: 0 <= j < |r| ==> w[j] == ms[r[j]].bucket.qps
  {
    if r == [] then [] else WeightsAt(ms, r[..|r| - 1]) + [ms[r[|r| - 1]].bucket.qps]
  }

  /** The member one attempt picks: the winner of the weighted round among the ready ones. */
  function Winner(ms: Pool, now: int): (p: Option<nat>)
    ensures p.Some? ==> p.value < |ms| && Ready(ms[p.value], now)
  {
    var r := ReadyAt(ms, now, |ms|);
    if r == [] then None
    else Some(r[RR.Picked(CurrentsAt(ms, r), WeightsAt(ms, r), |r|)])
  }

  /** What one attempt makes of member i. */
  function AttemptedAt(ms: Pool, now: int, i: nat): Member
    requires i < |ms|
  {
    var m, p, total := ms[i], Winner(ms, now), Sum(WeightsAt(ms, ReadyAt(ms, now, |ms|)));
    Member(
      if Ready(m, now) then m.current + m.bucket.qps - (if p == Some(i) then total else 0) else m.current,
      if p == Some(i) then TB.Taken(TB.Looked(m.bucket, now), now) else TB.Looked(m.bucket, now))
  }

  function Attempted(ms: Pool, now: int): (r: Pool)
    ensures |r| == |ms| && forall i :: 0 <= i < |ms| ==> r[i] == AttemptedAt(ms, now, i)
  {
    seq(|ms|, i requires 0 <= i < |ms| => AttemptedAt(ms, now, i))
  }

  class RpcMember {
    const qps: int
    var current: int
    var tokens: int
    var last: int
    var coolUntil: int

    constructor (qps: int, now: int)
      requires qps >= 1 && now > 0
      ensures View() == Member(0, TB.New(qps, now)) && TB.Valid(View().bucket)
    {
      this.qps := qps;
      current, tokens, last, coolUntil := 0, qps * TB.SECOND, now, 0;
      new;
      SignOfProduct(qps, TB.SECOND);
    }

    ghost function View(): Member
      reads this
    {
      Member(current, TB.Bucket(qps, tokens, last, coolUntil))
    }

    method Refill(now: int)
      modifies this`tokens, this`last
      ensures View() == old(View()).(bucket := TB.Refill(old(View()).bucket, now))
    {
      if last == 0 {
        last := now;
        return;
      }
      var elapsed := now - last;
      if elapsed <= 0 {
        return;
      }
      tokens := Min(qps * TB.SECOND, tokens + elapsed * qps);
      last := now;
    }

    method WaitDuration(now: int) returns (wait: int)
      requires qps >= 1
      modifies this`tokens, this`last
      ensures View() == old(View()).(bucket := TB.Looked(old(View()).bucket, now))
      ensures wait == TB.Wait(old(View()).bucket, now)
    {
      if now < coolUntil {
        return coolUntil - now;
      }
      Refill(now);
      if tokens >= TB.SECOND {
        return 0;
      }
      wait := (TB.SECOND - tokens) / qps;
    }

    method Take(now: int)
      modifies this`tokens, this`last
      ensures View() == old(View()).(bucket := TB.Taken(old(View()).bucket, now))
    {
      Refill(now);
      if tokens >= TB.SECOND {
        tokens := tokens - TB.SECOND;
      }
    }

    method Penalise(now: int)
      modifies this`tokens, this`last, this`coolUntil
      ensures View() == old(View()).(bucket := TB.Penalised(old(View()).bucket, now))
    {
      tokens := 0;
      last := now;
      coolUntil := now + TB.SECOND;
    }
  }

  ghost predicate Distinct(ms: seq<RpcMember>)
  {
    forall i, j :: 0 <= i < |ms| && 0 <= j < |ms| && ms[i] == ms[j] ==> i == j
  }

  ghost function Currents(ms: seq<RpcMember>): (c: seq<int>)
    reads ms
    ensures |c| == |ms| && forall i :: 0 <= i < |ms| ==> c[i] == ms[i].current
  {
    if ms == [] then [] else Currents(ms[..|ms| - 1]) + [ms[|ms| - 1].current]
  }

  ghost function Weights(ms: seq<RpcMember>): (w: seq<int>)
    ensures |w| == |ms| && forall i :: 0 <= i < |ms| ==> w[i] == ms[i].qps
  {
    if ms == [] then [] else Weights(ms[..|ms| - 1]) + [ms[|ms| - 1].qps]
  }

  lemma SumToNext(w: seq<int>)
    ensures SumTo(w, 0) == 0
    ensures forall i :: 0 <= i < |w| ==> SumTo(w, i + 1) == SumTo(w, i) + w[i]
  {
  }

  lemma StepPointwise(c: seq<int>, w: seq<int>, r: seq<int>)
    requires |r| == |c| == |w| > 0
    requires forall j :: 0 <= j < |w| ==>
      r[j] == c[j] + w[j] - (if j == RR.Picked(c, w, |w|) then Sum(w) else 0)
    ensures r == RR.Step(c, w)
  {
    forall j | 0 <= j < |w| ensures r[j] == RR.Step(c, w)[j] {
      RR.ChargedAt(c, w, RR.Picked(c, w, |w|), |w|, j);
    }
  }

  /** One round of the smooth weighted schedule over the ready members, in place. */
  method WeightedPick(ready: seq<RpcMember>) returns (picked: RpcMember)
    requires |ready| > 0 && Distinct(ready)
    modifies ready`current
    ensures picked == ready[RR.Picked(old(Currents(ready)), Weights(ready), |ready|)]
    ensures Currents(ready) == RR.Step(old(Currents(ready)), Weights(ready))
  {
    hide SumTo, RR.Picked, RR.Step, Currents, Weights;
    ghost var c, w := Currents(ready), Weights(ready);
    ghost var k := 0;
    var total := 0;
    var best: RpcMember? := null;
    var i := 0;
    SumToNext(w);
    while i < |ready|
      invariant 0 <= i <= |ready| && total == SumTo(w, i)
      invariant if i == 0 then best == null else 0 <= k < i && best == ready[k]
      invariant forall j :: 0 <= j < i ==> ready[j].current == c[j] + w[j]
      invariant forall j :: 0 <= j < i ==> c[j] + w[j] <= c[k] + w[k]
      invariant forall j :: 0 <= j < i && j < k ==> c[j] + w[j] < c[k] + w[k]
      invariant forall j :: i <= j < |ready| ==> ready[j].current == c[j]
    {
      var member := ready[i];
      assert member.qps == w[i];
      total := total + member.qps;
      member.current := member.current + member.qps;
      if best == null || member.current > best.current {
        best := member;
        k := i;
      }
      i := i + 1;
    }
    RR.PickedIsUnique(c, w, k);
    best.current := best.current - total;
    picked := best;
    StepPointwise(c, w, Currents(ready));
  }

  lemma {:induction false} ReadyAtComplete(ms: Pool, now: int, n: nat)
    requires n <= |ms|
    ensures forall i :: 0 <= i < n && Ready(ms[i], now) ==> i in ReadyAt(ms, now, n)
    ensures forall j, k :: 0 <= j < k < |ReadyAt(ms, now, n)| ==> ReadyAt(ms, now, n)[j] < ReadyAt(ms, now, n)[k]
  {
    if n > 0 { ReadyAtComplete(ms, now, n - 1); }
  }

  /** Putting the pieces of an attempt together: the charged currents of the ready members, the
      looked-at buckets, and the token of the one picked. */
  lemma Assembled(ms: Pool, now: int, after: Pool)
    requires |after| == |ms|
    requires var r := ReadyAt(ms, now, |ms|);
      r != [] ==> forall j :: 0 <= j < |r| ==>
        after[r[j]].current == RR.Step(CurrentsAt(ms, r), WeightsAt(ms, r))[j]
    requires forall i :: 0 <= i < |ms| && !Ready(ms[i], now) ==> after[i].current == ms[i].current
    requires forall i :: 0 <= i < |ms| ==> after[i].bucket == AttemptedAt(ms, now, i).bucket
    ensures after == Attempted(ms, now)
  {
    hide TB.Taken, TB.Looked, TB.Wait, RR.Picked, CurrentsAt, WeightsAt, ReadyAt;
    var r := ReadyAt(ms, now, |ms|);
    var c, w := CurrentsAt(ms, r), WeightsAt(ms, r);
    ReadyAtComplete(ms, now, |ms|);
    forall i | 0 <= i < |ms| ensures after[i].current == AttemptedAt(ms, now, i).current {
      if Ready(ms[i], now) {
        var j :| 0 <= j < |r| && r[j] == i;
        RR.ChargedAt(c, w, RR.Picked(c, w, |r|), |r|, j);
      }
    }
    assert forall i :: 0 <= i < |ms| ==> after[i] == AttemptedAt(ms, now, i);
  }

  lemma ScanStart(ms: Pool, now: int)
    ensures ReadyAt(ms, now, 0) == [] && ShortestWait(ms, now, 0) == 0
  {
  }

  /** What one more member adds to the scan. */
  lemma ScanNext(ms: Pool, now: int, i: nat)
    requires i < |ms| && forall j :: 0 <= j < |ms| ==> ms[j].bucket.qps >= 1
    ensures var wait, best := TB.Wait(ms[i].bucket, now), ShortestWait(ms, now, i);
      && ReadyAt(ms, now, i + 1) == (if wait == 0 then ReadyAt(ms, now, i) + [i] else ReadyAt(ms, now, i))
      && ShortestWait(ms, now, i + 1) == (if wait != 0 && (best == 0 || wait < best) then wait else best)
  {
    hide TB.Wait;
  }

  class RpcPool {
    const members: seq<RpcMember>

    constructor (members: seq<RpcMember>)
      ensures this.members == members
    {
      this.members := members;
    }

    ghost predicate WellFormed()
    {
      |members| > 0 && Distinct(members) && forall i :: 0 <= i < |members| ==> members[i].qps >= 1
    }

    ghost function View(): (v: Pool)
      reads members
      ensures |v| == |members| && forall i :: 0 <= i < |members| ==> v[i] == members[i].View()
    {
      seq(|members|, i requires 0 <= i < |members| reads members => members[i].View())
    }

    /** Look at every member: collect the ready ones in order and the shortest wait of the others. */
    method LookAtAll(now: int) returns (ready: seq<RpcMember>, sleep: int)
      requires WellFormed()
      modifies members`tokens, members`last
      ensures var ms, at := old(View()), ReadyAt(old(View()), now, |members|);
        && |ready| == |at|
        && (forall j :: 0 <= j < |at| ==> ready[j] == members[at[j]])
        && sleep == ShortestWait(ms, now, |members|)
        && (forall j :: 0 <= j < |members| ==> View()[j] == ms[j].(bucket := TB.Looked(ms[j].bucket, now)))
    {
      hide TB.Looked, TB.Wait, ReadyAt, ShortestWait;
      ghost var ms := View();
      ready := [];
      ghost var at: seq<nat> := [];
      sleep := 0;
      ScanStart(ms, now);
      var i := 0;
      while i < |members|
        invariant 0 <= i <= |members|
        invariant at == ReadyAt(ms, now, i) && |ready| == |at|
        invariant forall j :: 0 <= j < |at| ==> ready[j] == members[at[j]]
        invariant sleep == ShortestWait(ms, now, i)
        invariant forall j :: 0 <= j < |members| ==>
          members[j].View() == if j < i then ms[j].(bucket := TB.Looked(ms[j].bucket, now)) else ms[j]
      {
        var member := members[i];
        var wait := member.WaitDuration(now);
        ScanNext(ms, now, i);
        if wait == 0 {
          ready := ready + [member];
          at := at + [i];
        } else if sleep == 0 || wait < sleep {
          sleep := wait;
        }
        i := i + 1;
      }
    }

    /** Run the weighted round on the ready members, which stand at positions `at`, and let the
        winner take its token. */
    method PickAndTake(ready: seq<RpcMember>, ghost at: seq<nat>, now: int) returns (picked: RpcMember)
      requires WellFormed() && Distinct(ready) && |ready| == |at| > 0
      requires forall j :: 0 <= j < |at| ==> at[j] < |members| && ready[j] == members[at[j]]
      modifies ready
      ensures var ms := old(View());
        var c, w := CurrentsAt(ms, at), WeightsAt(ms, at);
        var p := at[RR.Picked(c, w, |at|)];
        && picked == members[p]
        && (forall i :: 0 <= i < |members| ==>
             members[i].View().bucket == (if i == p then TB.Taken(ms[i].bucket, now) else ms[i].bucket))
        && (forall j :: 0 <= j < |at| ==> ready[j].current == RR.Step(c, w)[j])
        && (forall i :: 0 <= i < |members| && i !in at ==> members[i].current == ms[i].current)
    {
      hide RR.Step, RR.Picked, TB.Taken, ReadyAt, CurrentsAt, WeightsAt;
      assert Currents(ready) == CurrentsAt(View(), at) && Weights(ready) == WeightsAt(View(), at);
      picked := WeightedPick(ready);
      assert forall j :: 0 <= j < |at| ==> ready[j].current == Currents(ready)[j];
      picked.Take(now);
    }

    /** One turn of the acquiring loop: look at every member, pick among the ready ones, or say how
        long to sleep. */
    method Attempt(now: int) returns (picked: RpcMember?, sleep: int)
      requires WellFormed()
      modifies members
      ensures View() == Attempted(old(View()), now)
      ensures picked == match Winner(old(View()), now) case None => null case Some(i) => members[i]
      ensures sleep == ShortestWait(old(View()), now, |members|)
    {
      hide TB.Taken, TB.Looked, TB.Wait, RR.Picked, RR.Step, CurrentsAt, WeightsAt, ReadyAt, Attempted;
      ghost var ms := View();
      var ready: seq<RpcMember>;
      ready, sleep := LookAtAll(now);
      picked := null;
      ghost var at := ReadyAt(ms, now, |ms|);
      ReadyAtComplete(ms, now, |ms|);
      if |ready| > 0 {
        assert CurrentsAt(View(), at) == CurrentsAt(ms, at) && WeightsAt(View(), at) == WeightsAt(ms, at);
        picked := PickAndTake(ready, at, now);
      }
      Assembled(ms, now, View());
    }
  }
}
