/** Attributing a swap to a user from the net token flows of one transaction. */
module Attribution {
  import opened Prelude

  type Address = string

  const ZERO: Address := "0x0000000000000000000000000000000000000000"

  datatype Transfer = Transfer(from: Address, to: Address, amount: int)

  datatype Side = Buy | Sell

  datatype Attributed = Attributed(user: Address, side: Side, amount: int)

  datatype Failure = BadAmount | NotUnique

  function Abs(x: int): int { if x < 0 then -x else x }

  /** What one transfer does to the balance of an address; the zero address has none. */
  function Delta(t: Transfer, a: Address): int
  {
    if a == ZERO then 0 else (if t.to == a then t.amount else 0) - (if t.from == a then t.amount else 0)
  }

  /** Net inflow of an address over the first n transfers. */
  function Net(ts: seq<Transfer>, n: nat, a: Address): int
    requires n <= |ts|
  {
    if n == 0 then 0 else Net(ts, n - 1, a) + Delta(ts[n - 1], a)
  }

  function NetOf(ts: seq<Transfer>, a: Address): int { Net(ts, |ts|, a) }

  ghost predicate Candidate(ts: seq<Transfer>, excluded: set<Address>, a: Address)
  {
    a !in excluded && NetOf(ts, a) != 0
  }

  /** The one candidate whose absolute net flow exceeds that of every other. */
  ghost predicate Stands(ts: seq<Transfer>, excluded: set<Address>, a: Address)
  {
    && Candidate(ts, excluded, a)
    && forall b :: b != a && Candidate(ts, excluded, b) ==> Abs(NetOf(ts, b)) < Abs(NetOf(ts, a))
  }

  ghost predicate Describes(ts: seq<Transfer>, r: Attributed)
  {
    r.amount == Abs(NetOf(ts, r.user)) && (r.side == Buy <==> NetOf(ts, r.user) > 0)
  }

  ghost predicate Negative(ts: seq<Transfer>) { exists i :: 0 <= i < |ts| && ts[i].amount < 0 }

  /** What the answer must be, with no mention of the order in which nets are looked at. */
  ghost predicate Answers(ts: seq<Transfer>, excluded: set<Address>, r: Result<Attributed, Failure>)
  {
    if Negative(ts) then r == Err(BadAmount)
    else match r
      case Ok(v) => Stands(ts, excluded, v.user) && Describes(ts, v)
      case Err(e) => e == NotUnique && forall a :: !Stands(ts, excluded, a)
  }

  /** Net flows of every address touched, in one pass; negative amounts are refused. */
  method NetFlows(transfers: seq<Transfer>) returns (ok: bool, net: map<Address, int>)
    ensures ok <==> forall i :: 0 <= i < |transfers| ==> transfers[i].amount >= 0
    ensures ok ==> forall a :: a in net ==> net[a] == NetOf(transfers, a)
    ensures ok ==> forall a :: a !in net ==> NetOf(transfers, a) == 0
  {
    net := map[];
    var i := 0;
    while i < |transfers|
      invariant 0 <= i <= |transfers|
      invariant forall j :: 0 <= j < i ==> transfers[j].amount >= 0
      invariant forall a :: a in net ==> net[a] == Net(transfers, i, a)
      invariant forall a :: a !in net ==> Net(transfers, i, a) == 0
    {
      var t := transfers[i];
      if t.amount < 0 {
        return false, map[];
      }
      if t.from != ZERO {
        net := net[t.from := (if t.from in net then net[t.from] else 0) - t.amount];
      }
      if t.to != ZERO {
        net := net[t.to := (if t.to in net then net[t.to] else 0) + t.amount];
      }
      i := i + 1;
    }
    ok := true;
  }

  /** Another address seen so far that could be the user. */
  predicate Contends(net: map<Address, int>, excluded: set<Address>, left: set<Address>, user: Address, a: Address)
  {
    a in net && a !in left && a != user && a !in excluded && net[a] != 0
  }

  /** The map of nets is walked in arbitrary order; the answer does not depend on it, because it is
      the standing candidate, or an error exactly when there is none. */
  method AttributeUser(transfers: seq<Transfer>, protocol: seq<Address>) returns (r: Result<Attributed, Failure>)
    ensures Answers(transfers, {ZERO} + (set a | a in protocol), r)
  {
    hide Net;
    var excluded := {ZERO};
    for i := 0 to |protocol|
      invariant excluded == {ZERO} + set a | a in protocol[..i]
    {
      excluded := excluded + {protocol[i]};
      assert protocol[..i + 1] == protocol[..i] + [protocol[i]];
    }
    assert protocol[..|protocol|] == protocol;
    var ok, net := NetFlows(transfers);
    if !ok {
      return Err(BadAmount);
    }
    var user, bestAbs, bestNet, tied := None, 0, 0, false;
    var left := net.Keys;
    while left != {}
      invariant left <= net.Keys && bestAbs >= 0
      invariant forall a :: a in net.Keys - left && Candidate(transfers, excluded, a) ==> Abs(net[a]) <= bestAbs
      invariant user == None ==> bestAbs == 0 && !tied
      invariant user.Some? ==> user.value in net.Keys - left && Candidate(transfers, excluded, user.value)
      invariant user.Some? ==> bestNet == net[user.value] && bestAbs == Abs(bestNet)
      invariant tied ==>
        user.Some? && (exists a :: Contends(net, excluded, left, user.value, a) && Abs(net[a]) == bestAbs)
      invariant !tied && user.Some? ==>
        forall a :: Contends(net, excluded, left, user.value, a) ==> Abs(net[a]) < bestAbs
      decreases left
    {
      var a :| a in left;
      left := left - {a};
      if a in excluded || net[a] == 0 {
        continue;
      }
      var absolute := Abs(net[a]);
      if absolute > bestAbs {
        user, bestAbs, bestNet, tied := Some(a), absolute, net[a], false;
      } else if absolute == bestAbs {
        tied := true;
      }
    }
    if user == None || tied {
      return Err(NotUnique);
    }
    r := Ok(Attributed(user.value, if bestNet > 0 then Buy else Sell, bestAbs));
  }

  /** Whatever the iteration order, there is one answer. */
  lemma AnswerIsDetermined(ts: seq<Transfer>, excluded: set<Address>,
      r: Result<Attributed, Failure>, q: Result<Attributed, Failure>)
    requires Answers(ts, excluded, r) && Answers(ts, excluded, q)
    ensures r == q
  {
  }

  /** The net amount as the second helper computes it. For the zero address, which has no net flow of its
      own, it is what was burned against what was minted. */
  method NetAmountFor(address: Address, transfers: seq<Transfer>) returns (amount: int)
    ensures address != ZERO ==> amount == Abs(NetOf(transfers, address))
    ensures address == ZERO ==> amount == Abs(Minted(transfers, |transfers|) - Burned(transfers, |transfers|))
  {
    var out := 0;
    for i := 0 to |transfers|
      invariant address != ZERO ==> out == Net(transfers, i, address)
      invariant address == ZERO ==> out == Burned(transfers, i) - Minted(transfers, i)
    {
      if transfers[i].to == address {
        out := out + transfers[i].amount;
      }
      if transfers[i].from == address {
        out := out - transfers[i].amount;
      }
    }
    amount := Abs(out);
  }

  lemma {:induction false} NetJoins(a: seq<Transfer>, b: seq<Transfer>, x: Address)
    ensures NetOf(a + b, x) == NetOf(a, x) + NetOf(b, x)
    decreases |b|
  {
    if b == [] {
      assert a + b == a;
    } else {
      var front, last := b[..|b| - 1], b[|b| - 1];
      NetJoins(a, front, x);
      NetPrefix(a + front, a + b, |a + front|, x);
      NetPrefix(front, b, |front|, x);
    }
  }

  lemma {:induction false} NetPrefix(a: seq<Transfer>, b: seq<Transfer>, n: nat, x: Address)
    requires n <= |a| && n <= |b| && forall i :: 0 <= i < n ==> a[i] == b[i]
    ensures Net(a, n, x) == Net(b, n, x)
  {
    if n > 0 { NetPrefix(a, b, n - 1, x); }
  }

  /** Passing a transfer through a router in two hops changes no net flow, not even the router's. */
  lemma TwoHopsAreOne(before: seq<Transfer>, t: Transfer, router: Address, after: seq<Transfer>, x: Address)
    ensures NetOf(before + [t.(to := router), t.(from := router)] + after, x) == NetOf(before + [t] + after, x)
  {
    var hops := [t.(to := router), t.(from := router)];
    NetJoins(before + hops, after, x);
    NetJoins(before, hops, x);
    NetJoins(before + [t], after, x);
    NetJoins(before, [t], x);
    assert Net([t], 1, x) == Net([t], 0, x) + Delta(t, x);
    assert Net(hops, 2, x) == Net(hops, 1, x) + Delta(hops[1], x);
    assert Net(hops, 1, x) == Net(hops, 0, x) + Delta(hops[0], x);
  }

  /** Hence the answer stays the same, whatever it is. */
  lemma RoutingDoesNotMatter(before: seq<Transfer>, t: Transfer, router: Address, after: seq<Transfer>,
      excluded: set<Address>, r: Result<Attributed, Failure>)
    ensures Answers(before + [t.(to := router), t.(from := router)] + after, excluded, r)
       <==> Answers(before + [t] + after, excluded, r)
  {
    var hopped, direct := before + [t.(to := router), t.(from := router)] + after, before + [t] + after;
    forall x ensures NetOf(hopped, x) == NetOf(direct, x) {
      TwoHopsAreOne(before, t, router, after, x);
    }
    NegativeParts(before, [t.(to := router), t.(from := router)], after);
    NegativeParts(before, [t], after);
    assert Negative([t]) <==> t.amount < 0 by {
      assert [t][0].amount == t.amount;
    }
    assert Negative([t.(to := router), t.(from := router)]) <==> t.amount < 0 by {
      assert [t.(to := router), t.(from := router)][0].amount == t.amount;
    }
    forall a ensures Stands(hopped, excluded, a) <==> Stands(direct, excluded, a) {
      hide NetOf;
    }
    hide NetOf, Stands, Negative;
  }

  lemma NegativeParts(a: seq<Transfer>, b: seq<Transfer>, c: seq<Transfer>)
    ensures Negative(a + b + c) <==> Negative(a) || Negative(b) || Negative(c)
  {
    var all := a + b + c;
    if Negative(a) { var i :| 0 <= i < |a| && a[i].amount < 0; assert all[i].amount < 0; }
    if Negative(b) { var i :| 0 <= i < |b| && b[i].amount < 0; assert all[|a| + i].amount < 0; }
    if Negative(c) { var i :| 0 <= i < |c| && c[i].amount < 0; assert all[|a| + |b| + i].amount < 0; }
    if Negative(all) {
      var i :| 0 <= i < |all| && all[i].amount < 0;
      if i < |a| { assert a[i].amount < 0; }
      else if i < |a| + |b| { assert b[i - |a|].amount < 0; }
      else { assert c[i - |a| - |b|].amount < 0; }
    }
  }

  /** In the plainest swap the user is who trades with a protocol address: a buyer receives, a seller sends. */
  lemma PlainSwap(pool: Address, user: Address, amount: int, excluded: set<Address>)
    requires amount > 0 && pool in excluded && user !in excluded && user != ZERO && ZERO in excluded
    ensures Answers([Transfer(pool, user, amount)], excluded, Ok(Attributed(user, Buy, amount)))
    ensures Answers([Transfer(user, pool, amount)], excluded, Ok(Attributed(user, Sell, amount)))
  {
    hide NetOf;
    OneTransfer(Transfer(pool, user, amount), user);
    OneTransfer(Transfer(user, pool, amount), user);
    forall b | b != user && b !in excluded
      ensures NetOf([Transfer(pool, user, amount)], b) == 0 && NetOf([Transfer(user, pool, amount)], b) == 0
    {
      OneTransfer(Transfer(pool, user, amount), b);
      OneTransfer(Transfer(user, pool, amount), b);
    }
  }

  lemma OneTransfer(t: Transfer, a: Address)
    requires a != ZERO
    ensures NetOf([t], a) == (if t.to == a then t.amount else 0) - (if t.from == a then t.amount else 0)
  {
    assert Net([t], 0, a) == 0;
  }

  // ----- Conservation -----

  function NetSum(ts: seq<Transfer>, n: nat, addresses: seq<Address>, m: nat): int
    requires n <= |ts| && m <= |addresses|
  {
    if m == 0 then 0 else NetSum(ts, n, addresses, m - 1) + Net(ts, n, addresses[m - 1])
  }

  function DeltaSum(t: Transfer, addresses: seq<Address>, m: nat): int
    requires m <= |addresses|
  {
    if m == 0 then 0 else DeltaSum(t, addresses, m - 1) + Delta(t, addresses[m - 1])
  }

  function Minted(ts: seq<Transfer>, n: nat): int
    requires n <= |ts|
  {
    if n == 0 then 0 else Minted(ts, n - 1) + (if ts[n - 1].from == ZERO then ts[n - 1].amount else 0)
  }

  function Burned(ts: seq<Transfer>, n: nat): int
    requires n <= |ts|
  {
    if n == 0 then 0 else Burned(ts, n - 1) + (if ts[n - 1].to == ZERO then ts[n - 1].amount else 0)
  }

  /** A list that names every touched address except the zero address, each once. */
  ghost predicate Ledgers(ts: seq<Transfer>, addresses: seq<Address>)
  {
    && (forall i, j :: 0 <= i < j < |addresses| ==> addresses[i] != addresses[j])
    && ZERO !in addresses
    && (forall i :: 0 <= i < |ts| ==>
          (ts[i].from != ZERO ==> ts[i].from in addresses) && (ts[i].to != ZERO ==> ts[i].to in addresses))
  }

  lemma {:induction false} OneTransferSums(t: Transfer, addresses: seq<Address>, m: nat)
    requires m <= |addresses| && ZERO !in addresses
    requires forall i, j :: 0 <= i < j < |addresses| ==> addresses[i] != addresses[j]
    ensures DeltaSum(t, addresses, m) ==
      (if t.to in addresses[..m] then t.amount else 0) - (if t.from in addresses[..m] then t.amount else 0)
  {
    if m > 0 {
      OneTransferSums(t, addresses, m - 1);
      assert addresses[..m] == addresses[..m - 1] + [addresses[m - 1]];
      assert addresses[m - 1] !in addresses[..m - 1];
    }
  }

  lemma {:induction false} SumSplits(ts: seq<Transfer>, n: nat, addresses: seq<Address>, m: nat)
    requires 0 < n <= |ts| && m <= |addresses|
    ensures NetSum(ts, n, addresses, m) == NetSum(ts, n - 1, addresses, m) + DeltaSum(ts[n - 1], addresses, m)
  {
    if m > 0 { SumSplits(ts, n, addresses, m - 1); }
  }

  lemma {:induction false} NoTokensNoSum(ts: seq<Transfer>, addresses: seq<Address>, m: nat)
    requires m <= |addresses|
    ensures NetSum(ts, 0, addresses, m) == 0
  {
    if m > 0 { NoTokensNoSum(ts, addresses, m - 1); }
  }

  /** All net flows together are what was minted minus what was burned. */
  lemma {:induction false} FlowsBalance(ts: seq<Transfer>, n: nat, addresses: seq<Address>)
    requires n <= |ts| && Ledgers(ts, addresses)
    ensures NetSum(ts, n, addresses, |addresses|) == Minted(ts, n) - Burned(ts, n)
  {
    if n == 0 {
      NoTokensNoSum(ts, addresses, |addresses|);
    } else {
      FlowsBalance(ts, n - 1, addresses);
      SumSplits(ts, n, addresses, |addresses|);
      OneTransferSums(ts[n - 1], addresses, |addresses|);
      assert addresses[..|addresses|] == addresses;
    }
  }
}
