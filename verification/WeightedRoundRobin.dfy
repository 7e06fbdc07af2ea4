/** Smooth weighted round robin over a fixed list of ready members: the state is one running
    `current` per member, the weights are their requests per second. */
module WeightedRoundRobin {
  import opened Sums

  ghost predicate IsWeights(w: seq<int>)
  {
    |w| > 0 && forall i :: 0 <= i < |w| ==> w[i] >= 1
  }

  /** The first member whose raised value c + w is greatest among the first n: ties go to the earlier one. */
  function Picked(c: seq<int>, w: seq<int>, n: nat): (k: nat)
    requires 0 < n <= |c| == |w|
    ensures k < n
  {
    if n == 1 then 0
    else
      var k := Picked(c, w, n - 1);
      if c[n - 1] + w[n - 1] > c[k] + w[k] then n - 1 else k
  }

  /** Every member gains its weight; member k pays the total back. */
  function Charged(c: seq<int>, w: seq<int>, k: nat, n: nat): (r: seq<int>)
    requires n <= |c| == |w|
    ensures |r| == n
  {
    if n == 0 then []
    else Charged(c, w, k, n - 1) + [c[n - 1] + w[n - 1] - (if n - 1 == k then Sum(w) else 0)]
  }

  function Step(c: seq<int>, w: seq<int>): (r: seq<int>)
    requires |c| == |w| > 0
    ensures |r| == |w|
  {
    Charged(c, w, Picked(c, w, |w|), |w|)
  }

  /** The state after t picks. */
  function Run(c: seq<int>, w: seq<int>, t: nat): (r: seq<int>)
    requires |c| == |w| > 0
    ensures |r| == |w|
  {
    if t == 0 then c else Step(Run(c, w, t - 1), w)
  }

  /** How often member i is picked among the first t picks. */
  function Picks(c: seq<int>, w: seq<int>, t: nat, i: nat): nat
    requires |c| == |w| > 0
  {
    if t == 0 then 0
    else Picks(c, w, t - 1, i) + (if Picked(Run(c, w, t - 1), w, |w|) == i then 1 else 0)
  }

  function Zeros(n: nat): (z: seq<int>)
    ensures |z| == n
  {
    seq(n, _ => 0)
  }

  lemma {:induction false} PickedIsFirstMax(c: seq<int>, w: seq<int>, n: nat)
    requires 0 < n <= |c| == |w|
    ensures forall j :: 0 <= j < n ==> c[j] + w[j] <= c[Picked(c, w, n)] + w[Picked(c, w, n)]
    ensures forall j :: 0 <= j < Picked(c, w, n) ==> c[j] + w[j] < c[Picked(c, w, n)] + w[Picked(c, w, n)]
  {
    if n > 1 { PickedIsFirstMax(c, w, n - 1); }
  }

  lemma PickedIsUnique(c: seq<int>, w: seq<int>, k: nat)
    requires k < |c| == |w|
    requires forall j :: 0 <= j < |w| ==> c[j] + w[j] <= c[k] + w[k]
    requires forall j :: 0 <= j < k ==> c[j] + w[j] < c[k] + w[k]
    ensures Picked(c, w, |w|) == k
  {
    PickedIsFirstMax(c, w, |w|);
  }

  lemma {:induction false} ChargedAt(c: seq<int>, w: seq<int>, k: nat, n: nat, i: nat)
    requires i < n <= |c| == |w|
    ensures Charged(c, w, k, n)[i] == c[i] + w[i] - (if i == k then Sum(w) else 0)
  {
    if i < n - 1 { ChargedAt(c, w, k, n - 1, i); }
  }

  lemma {:induction false} ChargedSum(c: seq<int>, w: seq<int>, k: nat, n: nat)
    requires n <= |c| == |w|
    ensures Sum(Charged(c, w, k, n)) == SumTo(c, n) + SumTo(w, n) - (if k < n then Sum(w) else 0)
  {
    if n > 0 {
      ChargedSum(c, w, k, n - 1);
      SumToPrefix(Charged(c, w, k, n - 1), Charged(c, w, k, n), n - 1);
    }
  }

  lemma StepKeepsSum(c: seq<int>, w: seq<int>)
    requires |c| == |w| > 0
    ensures Sum(Step(c, w)) == Sum(c)
  {
    ChargedSum(c, w, Picked(c, w, |w|), |w|);
  }

  /** No member falls to minus the total weight: the one picked was above zero after the raise. */
  lemma StepKeepsFloor(c: seq<int>, w: seq<int>, i: nat)
    requires |c| == |w| && IsWeights(w) && i < |w|
    requires Sum(c) == 0 && c[i] > -Sum(w)
    ensures Step(c, w)[i] > -Sum(w)
  {
    ChargedAt(c, w, Picked(c, w, |w|), |w|, i);
    if i == Picked(c, w, |w|) && c[i] + w[i] <= 0 {
      SumToNonNegative(w, |w|);
      PickedIsFirstMax(c, w, |w|);
      SumToAtMost(c, w, |w|);
    }
  }

  lemma {:induction false} RunKeepsFloor(c: seq<int>, w: seq<int>, t: nat, i: nat)
    requires |c| == |w| && IsWeights(w) && i < |w|
    requires Sum(c) == 0 && c[i] > -Sum(w)
    ensures Sum(Run(c, w, t)) == 0 && Run(c, w, t)[i] > -Sum(w)
  {
    if t > 0 {
      RunKeepsFloor(c, w, t - 1, i);
      StepKeepsSum(Run(c, w, t - 1), w);
      StepKeepsFloor(Run(c, w, t - 1), w, i);
    }
  }

  /** The ledger: a member's `current` is what it gained minus the total for every time it was picked. */
  lemma {:induction false} Ledger(c: seq<int>, w: seq<int>, t: nat, i: nat)
    requires |c| == |w| && i < |w|
    ensures Run(c, w, t)[i] == c[i] + t * w[i] - Picks(c, w, t, i) * Sum(w)
  {
    if t > 0 {
      Ledger(c, w, t - 1, i);
      var before := Run(c, w, t - 1);
      ChargedAt(before, w, Picked(before, w, |w|), |w|, i);
      Distribute(Picks(c, w, t - 1, i), 1, Sum(w));
      Distribute(t - 1, 1, w[i]);
    }
  }

  lemma {:induction false} RunSplits(c: seq<int>, w: seq<int>, s: nat, t: nat)
    requires |c| == |w| > 0
    ensures Run(c, w, s + t) == Run(Run(c, w, s), w, t)
  {
    if t > 0 {
      RunSplits(c, w, s, t - 1);
      assert s + (t - 1) == s + t - 1;
    }
  }

  lemma {:induction false} ZerosSum(n: nat, m: nat)
    requires m <= n
    ensures SumTo(Zeros(n), m) == 0
  {
    if m > 0 { ZerosSum(n, m - 1); }
  }

  lemma CycleShare(w: seq<int>, i: nat)
    requires IsWeights(w) && i < |w|
    ensures Sum(w) >= 1
    ensures var end := Run(Zeros(|w|), w, Sum(w));
      Sum(end) == 0 && end[i] >= 0 && end[i] == (w[i] - Picks(Zeros(|w|), w, Sum(w), i)) * Sum(w)
  {
    SumToNonNegative(w, |w|);
    var total, zero := Sum(w), Zeros(|w|);
    ZerosSum(|w|, |w|);
    RunKeepsFloor(zero, w, total, i);
    Ledger(zero, w, total, i);
    var n := Picks(zero, w, total, i);
    Distribute(w[i], n, total);
    SignOfProduct(w[i] - n, total);
  }

  /** Every final value is non-negative and they sum to zero, so each vanishes. */
  lemma CycleEnd(w: seq<int>, i: nat)
    requires IsWeights(w) && i < |w|
    ensures Sum(w) >= 1
    ensures Run(Zeros(|w|), w, Sum(w))[i] == 0
    ensures Picks(Zeros(|w|), w, Sum(w), i) == w[i]
  {
    CycleShare(w, i);
    var end := Run(Zeros(|w|), w, Sum(w));
    forall j | 0 <= j < |w| ensures end[j] >= 0 { CycleShare(w, j); }
    SumToNonNegative(end, |w|);
    SignOfProduct(w[i] - Picks(Zeros(|w|), w, Sum(w), i), Sum(w));
  }

  /** From rest, one full cycle picks every member exactly as often as its weight and ends at rest. */
  lemma FullCycle(w: seq<int>)
    requires IsWeights(w)
    ensures Sum(w) >= 1
    ensures Run(Zeros(|w|), w, Sum(w)) == Zeros(|w|)
    ensures forall i :: 0 <= i < |w| ==> Picks(Zeros(|w|), w, Sum(w), i) == w[i]
  {
    CycleEnd(w, 0);
    var total := Sum(w);
    var end := Run(Zeros(|w|), w, total);
    forall i | 0 <= i < |w| ensures end[i] == Zeros(|w|)[i] { CycleEnd(w, i); }
    forall i | 0 <= i < |w| ensures Picks(Zeros(|w|), w, total, i) == w[i] { CycleEnd(w, i); }
  }

  /** Equal ledgers one cycle apart differ by exactly the weight. */
  lemma SameLedger(s: nat, total: int, weight: int, n: nat, m: nat)
    requires total > 0
    requires s * weight - n * total == (s + total) * weight - m * total
    ensures m == n + weight
  {
    Distribute(s, total, weight);
    Distribute(n, weight, total);
    Distribute(m, n + weight, total);
    SignOfProduct(m - (n + weight), total);
  }

  /** The schedule has period Sum(w), and every window of that length serves each member exactly by weight. */
  lemma EveryWindowIsExact(w: seq<int>, s: nat, i: nat)
    requires IsWeights(w) && i < |w|
    ensures Sum(w) >= 1
    ensures Run(Zeros(|w|), w, s + Sum(w)) == Run(Zeros(|w|), w, s)
    ensures Picks(Zeros(|w|), w, s + Sum(w), i) == Picks(Zeros(|w|), w, s, i) + w[i]
  {
    var zero, total := Zeros(|w|), Sum(w);
    FullCycle(w);
    RunSplits(zero, w, total, s);
    Ledger(zero, w, s, i);
    Ledger(zero, w, s + total, i);
    SameLedger(s, total, w[i], Picks(zero, w, s, i), Picks(zero, w, s + total, i));
  }

  /** At no moment is a member ahead of its fair share by a whole pick. */
  lemma NeverAheadByOne(w: seq<int>, t: nat, i: nat)
    requires IsWeights(w) && i < |w|
    ensures Picks(Zeros(|w|), w, t, i) * Sum(w) < t * w[i] + Sum(w)
  {
    SumToNonNegative(w, |w|);
    ZerosSum(|w|, |w|);
    RunKeepsFloor(Zeros(|w|), w, t, i);
    Ledger(Zeros(|w|), w, t, i);
  }
}
