/** The native value a user gained or spent in a transaction, from its tree of calls. */
module CallTrace {
  import opened Prelude

  type Address = string

  const MAX_DEPTH := 128
  const MAX_NODES := 10000

  datatype Kind = Call | StaticCall | DelegateCall | CallCode | Create | Create2 | SelfDestruct | Unknown

  datatype Frame = Frame(kind: Kind, from: Field<Address>, to: Field<Address>, value: Field<nat>, error: bool,
      calls: seq<Frame>)

  datatype Failure = TooManyNodes | TooDeep | BadKind | BadFrom | BadTo | BadValue | WrongDirection

  predicate Creates(f: Frame) { f.kind == Create || f.kind == Create2 }

  /** Only a failed creation may lack its target; a missing value is zero. */
  function Check(f: Frame): Option<Failure>
  {
    if f.kind == Unknown then Some(BadKind)
    else if !f.from.Given? then Some(BadFrom)
    else if f.to == Malformed || (f.to == Absent && !(f.error && Creates(f))) then Some(BadTo)
    else if f.value == Malformed then Some(BadValue)
    else None
  }

  function ValueOf(f: Frame): nat { if f.value.Given? then f.value.value else 0 }

  predicate MovesValue(f: Frame) { f.kind == Call || f.kind == Create || f.kind == Create2 }

  /** What a live frame adds to the net of an address. */
  function Flow(f: Frame, a: Address): int
  {
    if MovesValue(f) then
      (if f.to == Given(a) then ValueOf(f) else 0) - (if f.from == Given(a) then ValueOf(f) else 0)
    else 0
  }

  datatype Count = Count(nodes: nat, net: int)

  /** The walk, with the counters it carries along. */
  function Walk(f: Frame, depth: nat, target: Address, reverted: bool, c: Count): Result<Count, Failure>
    decreases f, 1
  {
    var nodes := c.nodes + 1;
    if nodes > MAX_NODES then Err(TooManyNodes)
    else if depth > MAX_DEPTH then Err(TooDeep)
    else match Check(f)
      case Some(e) => Err(e)
      case None =>
        var dead := reverted || f.error;
        WalkAll(f.calls, depth + 1, target, dead, Count(nodes, if dead then c.net else c.net + Flow(f, target)))
  }

  function WalkAll(fs: seq<Frame>, depth: nat, target: Address, reverted: bool, c: Count): Result<Count, Failure>
    decreases fs, 0
  {
    if fs == [] then Ok(c)
    else match Walk(fs[0], depth, target, reverted, c)
      case Err(e) => Err(e)
      case Ok(next) => WalkAll(fs[1..], depth, target, reverted, next)
  }

  class Tally {
    var nodes: nat
    var net: int

    constructor ()
      ensures nodes == 0 && net == 0
    {
      nodes, net := 0, 0;
    }
  }

  /** The recursion of the program: one shared tally, updated frame by frame. */
  method AccumulateNativeNet(f: Frame, depth: nat, target: Address, reverted: bool, tally: Tally)
    returns (err: Option<Failure>)
    modifies tally
    ensures match Walk(f, depth, target, reverted, Count(old(tally.nodes), old(tally.net)))
      case Err(e) => err == Some(e)
      case Ok(c) => err == None && tally.nodes == c.nodes && tally.net == c.net
    decreases f
  {
    tally.nodes := tally.nodes + 1;
    if tally.nodes > MAX_NODES {
      return Some(TooManyNodes);
    }
    if depth > MAX_DEPTH {
      return Some(TooDeep);
    }
    var bad := Check(f);
    if bad.Some? {
      return bad;
    }
    var dead := reverted || f.error;
    if !dead && ValueOf(f) > 0 && MovesValue(f) {
      if f.from == Given(target) {
        tally.net := tally.net - ValueOf(f);
      }
      if f.to == Given(target) {
        tally.net := tally.net + ValueOf(f);
      }
    }
    ghost var whole := Walk(f, depth, target, reverted, Count(old(tally.nodes), old(tally.net)));
    var i := 0;
    while i < |f.calls|
      invariant 0 <= i <= |f.calls|
      invariant WalkAll(f.calls[i..], depth + 1, target, dead, Count(tally.nodes, tally.net)) == whole
    {
      assert f.calls[i..][0] == f.calls[i] && f.calls[i..][1..] == f.calls[i + 1..];
      err := AccumulateNativeNet(f.calls[i], depth + 1, target, dead, tally);
      if err.Some? {
        return;
      }
      i := i + 1;
    }
    err := None;
  }

  // ----- The reference: frames by their paths -----

  /** A frame is named by the positions of the calls that lead to it. */
  type Path = seq<nat>

  predicate HasPath(f: Frame, p: Path)
    decreases |p|
  {
    p == [] || (p[0] < |f.calls| && HasPath(f.calls[p[0]], p[1..]))
  }

  function At(f: Frame, p: Path): Frame
    requires HasPath(f, p)
    decreases |p|
  {
    if p == [] then f else At(f.calls[p[0]], p[1..])
  }

  /** Neither the frame nor any frame above it failed. */
  ghost predicate Live(f: Frame, p: Path)
  {
    forall k :: 0 <= k <= |p| ==> Succeeded(f, p[..k])
  }

  predicate Succeeded(f: Frame, p: Path)
  {
    HasPath(f, p) && !At(f, p).error
  }

  /** All paths of a tree, in preorder. */
  function Paths(f: Frame): seq<Path>
    decreases f, 1
  {
    [[]] + PathsFrom(f.calls, 0)
  }

  /** The paths through the siblings from position i on. */
  function PathsFrom(fs: seq<Frame>, i: nat): seq<Path>
    requires i <= |fs|
    decreases fs, 0, |fs| - i
  {
    if i == |fs| then [] else Under(i, Paths(fs[i])) + PathsFrom(fs, i + 1)
  }

  function Under(i: nat, ps: seq<Path>): seq<Path>
  {
    if ps == [] then [] else [[i] + ps[0]] + Under(i, ps[1..])
  }

  /** Inflow minus outflow of an address over the live frames among the given paths. */
  ghost function NetOver(f: Frame, ps: seq<Path>, a: Address): int
  {
    if ps == [] then 0
    else (if HasPath(f, ps[0]) && Live(f, ps[0]) then Flow(At(f, ps[0]), a) else 0) + NetOver(f, ps[1..], a)
  }

  /** The reference net: all frames of the tree that have no failed frame above them or themselves. */
  ghost function NetOf(f: Frame, a: Address): int
  {
    NetOver(f, Paths(f), a)
  }

  lemma {:induction false} UnderMember(i: nat, ps: seq<Path>, p: Path)
    ensures p in Under(i, ps) <==> p != [] && p[0] == i && p[1..] in ps
  {
    if ps != [] {
      UnderMember(i, ps[1..], p);
      assert p == [i] + ps[0] <==> p != [] && p[0] == i && p[1..] == ps[0] by {
        if p != [] && p[0] == i && p[1..] == ps[0] { assert p == [p[0]] + p[1..]; }
      }
    }
  }

  /** The enumeration is complete: exactly the paths of the tree. */
  lemma {:induction false} PathsAreAll(f: Frame, p: Path)
    ensures p in Paths(f) <==> HasPath(f, p)
    decreases f, 1
  {
    PathsFromAreAll(f.calls, 0, p);
    if p != [] && p[0] < |f.calls| { PathsAreAll(f.calls[p[0]], p[1..]); }
  }

  lemma {:induction false} PathsFromAreAll(fs: seq<Frame>, i: nat, p: Path)
    requires i <= |fs|
    ensures p in PathsFrom(fs, i) <==> p != [] && i <= p[0] < |fs| && p[1..] in Paths(fs[p[0]])
    decreases |fs| - i
  {
    if i < |fs| {
      UnderMember(i, Paths(fs[i]), p);
      PathsFromAreAll(fs, i + 1, p);
    }
  }

  /** A call below a frame that succeeded is as live as it is in its own tree; below a failed one it is dead. */
  lemma LiveBelow(f: Frame, i: nat, p: Path)
    requires i < |f.calls|
    ensures Live(f, [i] + p) <==> !f.error && Live(f.calls[i], p)
    ensures HasPath(f, [i] + p) <==> HasPath(f.calls[i], p)
    ensures HasPath(f.calls[i], p) ==> At(f, [i] + p) == At(f.calls[i], p)
  {
    var q := [i] + p;
    assert q[1..] == p;
    forall k | 0 <= k <= |p| ensures Succeeded(f, q[..k + 1]) <==> Succeeded(f.calls[i], p[..k]) {
      assert q[..k + 1][1..] == p[..k] && q[..k + 1][0] == i;
    }
    assert q[..0] == [];
    if Live(f, q) {
      assert Succeeded(f, q[..0]);
      forall k | 0 <= k <= |p| ensures Succeeded(f.calls[i], p[..k]) { assert Succeeded(f, q[..k + 1]); }
    }
    if !f.error && Live(f.calls[i], p) {
      forall k | 0 <= k <= |q| ensures Succeeded(f, q[..k]) {
        if k > 0 { assert Succeeded(f.calls[i], p[..k - 1]); }
      }
    }
  }

  lemma {:induction false} NetUnder(f: Frame, i: nat, ps: seq<Path>, a: Address)
    requires i < |f.calls|
    ensures NetOver(f, Under(i, ps), a) == if f.error then 0 else NetOver(f.calls[i], ps, a)
    decreases |ps|
  {
    hide Live, Flow;
    if ps != [] {
      LiveBelow(f, i, ps[0]);
      LiveHasPath(f.calls[i], ps[0]);
      NetUnder(f, i, ps[1..], a);
      assert Under(i, ps)[1..] == Under(i, ps[1..]);
    }
  }

  lemma LiveHasPath(f: Frame, p: Path)
    ensures Live(f, p) ==> HasPath(f, p)
  {
    if Live(f, p) { assert Succeeded(f, p[..|p|]); assert p[..|p|] == p; }
  }

  lemma {:induction false} NetJoins(f: Frame, ps: seq<Path>, qs: seq<Path>, a: Address)
    ensures NetOver(f, ps + qs, a) == NetOver(f, ps, a) + NetOver(f, qs, a)
    decreases |ps|
  {
    hide Live, Flow;
    if ps == [] {
      assert ps + qs == qs;
    } else {
      assert (ps + qs)[1..] == ps[1..] + qs;
      NetJoins(f, ps[1..], qs, a);
    }
  }

  /** The reference, by structure: a failed frame counts nothing, a live one itself and its calls. */
  function TreeNet(f: Frame, a: Address): int
    decreases f, 1
  {
    if f.error then 0 else Flow(f, a) + TreeNetFrom(f.calls, 0, a)
  }

  function TreeNetFrom(fs: seq<Frame>, i: nat, a: Address): int
    requires i <= |fs|
    decreases fs, 0, |fs| - i
  {
    if i == |fs| then 0 else TreeNet(fs[i], a) + TreeNetFrom(fs, i + 1, a)
  }

  lemma {:induction false} NetByStructure(f: Frame, a: Address)
    ensures NetOf(f, a) == TreeNet(f, a)
    decreases f, 1
  {
    hide Flow;
    NetJoins(f, [[]], PathsFrom(f.calls, 0), a);
    RootNet(f, a);
    NetFromByStructure(f, 0, a);
  }

  lemma RootNet(f: Frame, a: Address)
    ensures NetOver(f, [[]], a) == if f.error then 0 else Flow(f, a)
  {
    var root: Path := [];
    assert Live(f, root) <==> Succeeded(f, root[..0]);
    assert root[..0] == root && [root][1..] == [];
    assert NetOver(f, [root][1..], a) == 0;
  }

  lemma {:induction false} NetFromByStructure(f: Frame, i: nat, a: Address)
    requires i <= |f.calls|
    ensures NetOver(f, PathsFrom(f.calls, i), a) == if f.error then 0 else TreeNetFrom(f.calls, i, a)
    decreases f, 0, |f.calls| - i
  {
    hide Flow, Live;
    if i < |f.calls| {
      NetJoins(f, Under(i, Paths(f.calls[i])), PathsFrom(f.calls, i + 1), a);
      NetUnder(f, i, Paths(f.calls[i]), a);
      NetByStructure(f.calls[i], a);
      NetFromByStructure(f, i + 1, a);
    }
  }

  // ----- The walk computes the reference -----

  function Size(f: Frame): nat
    decreases f, 1
  {
    1 + SizeFrom(f.calls, 0)
  }

  function SizeFrom(fs: seq<Frame>, i: nat): nat
    requires i <= |fs|
    decreases fs, 0, |fs| - i
  {
    if i == |fs| then 0 else Size(fs[i]) + SizeFrom(fs, i + 1)
  }

  function Height(f: Frame): nat
    decreases f, 1
  {
    1 + HeightFrom(f.calls, 0)
  }

  function HeightFrom(fs: seq<Frame>, i: nat): nat
    requires i <= |fs|
    decreases fs, 0, |fs| - i
  {
    if i == |fs| then 0 else Max(Height(fs[i]), HeightFrom(fs, i + 1))
  }

  predicate WellFormed(f: Frame)
    decreases f, 1
  {
    Check(f) == None && WellFormedFrom(f.calls, 0)
  }

  predicate WellFormedFrom(fs: seq<Frame>, i: nat)
    requires i <= |fs|
    decreases fs, 0, |fs| - i
  {
    i == |fs| || (WellFormed(fs[i]) && WellFormedFrom(fs, i + 1))
  }

  lemma {:induction false} WalkMeans(f: Frame, depth: nat, target: Address, reverted: bool, c: Count)
    ensures Walk(f, depth, target, reverted, c).Ok? <==>
      WellFormed(f) && c.nodes + Size(f) <= MAX_NODES && depth + Height(f) - 1 <= MAX_DEPTH
    ensures Walk(f, depth, target, reverted, c).Ok? ==>
      Walk(f, depth, target, reverted, c).value ==
      Count(c.nodes + Size(f), c.net + (if reverted then 0 else TreeNet(f, target)))
    decreases f, 1
  {
    hide Check, Flow;
    var dead := reverted || f.error;
    var c' := Count(c.nodes + 1, if dead then c.net else c.net + Flow(f, target));
    assert f.calls[0..] == f.calls;
    WalkAllMeans(f, 0, depth + 1, target, dead, c');
  }

  lemma {:induction false} WalkAllMeans(f: Frame, i: nat, depth: nat, target: Address, reverted: bool, c: Count)
    requires i <= |f.calls| && depth >= 1
    ensures WalkAll(f.calls[i..], depth, target, reverted, c).Ok? <==>
      WellFormedFrom(f.calls, i) && (i < |f.calls| ==>
        c.nodes + SizeFrom(f.calls, i) <= MAX_NODES && depth + HeightFrom(f.calls, i) - 1 <= MAX_DEPTH)
    ensures WalkAll(f.calls[i..], depth, target, reverted, c).Ok? ==>
      WalkAll(f.calls[i..], depth, target, reverted, c).value ==
      Count(c.nodes + SizeFrom(f.calls, i), c.net + (if reverted then 0 else TreeNetFrom(f.calls, i, target)))
    decreases f, 0, |f.calls| - i
  {
    if i < |f.calls| {
      WalkMeans(f.calls[i], depth, target, reverted, c);
      assert f.calls[i..][0] == f.calls[i] && f.calls[i..][1..] == f.calls[i + 1..];
      var r := Walk(f.calls[i], depth, target, reverted, c);
      if r.Ok? { WalkAllMeans(f, i + 1, depth, target, reverted, r.value); }
      else { }
    }
  }

  /** Within the limits and well-formed throughout, failed subtrees included. */
  predicate Traceable(root: Frame)
  {
    WellFormed(root) && Size(root) <= 10000 && Height(root) <= 128
  }

  /** The walk succeeds exactly on well-formed trees within the limits, and then its net is inflow minus
      outflow over the value-moving frames without a failed frame above them or themselves. */
  lemma WalkIsReference(root: Frame, target: Address)
    ensures Walk(root, 1, target, false, Count(0, 0)).Ok? <==> Traceable(root)
    ensures Traceable(root) ==> Walk(root, 1, target, false, Count(0, 0)) == Ok(Count(Size(root), NetOf(root, target)))
  {
    WalkMeans(root, 1, target, false, Count(0, 0));
    NetByStructure(root, target);
  }

  /** The amount of a fill: the absolute net, if its sign fits the side. */
  method TraceNativeAmount(root: Frame, target: Address, buys: bool) returns (amount: Result<int, Failure>)
    ensures amount.Ok? <==> Traceable(root) && (if buys then NetOf(root, target) < 0 else NetOf(root, target) > 0)
    ensures amount.Ok? ==> amount.value == (if buys then -NetOf(root, target) else NetOf(root, target))
    ensures amount == Err(WrongDirection) <==> Traceable(root) && !amount.Ok?
    ensures !Traceable(root) ==> Walk(root, 1, target, false, Count(0, 0)) == Err(amount.error)
  {
    hide Walk, NetOf, Traceable;
    var tally := new Tally();
    WalkIsReference(root, target);
    WalkErrors(root, 1, target, false, Count(0, 0));
    var err := AccumulateNativeNet(root, 1, target, false, tally);
    if err.Some? {
      return Err(err.value);
    }
    if (buys && tally.net >= 0) || (!buys && tally.net <= 0) {
      return Err(WrongDirection);
    }
    amount := Ok(if tally.net < 0 then -tally.net else tally.net);
  }

  /** A wrong direction is not an outcome of the walk itself. */
  lemma {:induction false} WalkErrors(f: Frame, depth: nat, target: Address, reverted: bool, c: Count)
    ensures Walk(f, depth, target, reverted, c) != Err(WrongDirection)
    decreases f, 1
  {
    var dead := reverted || f.error;
    WalkAllErrors(f.calls, depth + 1, target, dead,
      Count(c.nodes + 1, if dead then c.net else c.net + Flow(f, target)));
  }

  lemma {:induction false} WalkAllErrors(fs: seq<Frame>, depth: nat, target: Address, reverted: bool, c: Count)
    ensures WalkAll(fs, depth, target, reverted, c) != Err(WrongDirection)
    decreases fs, 0
  {
    if fs != [] {
      WalkErrors(fs[0], depth, target, reverted, c);
      var r := Walk(fs[0], depth, target, reverted, c);
      if r.Ok? { WalkAllErrors(fs[1..], depth, target, reverted, r.value); }
    }
  }

  // ----- Frame by frame -----

  /** A successful frame without calls moves its value, from the one address to the other, exactly when it is a call, or
      one of the two kinds of creation. */
  lemma LoneFrame(f: Frame, a: Address)
    requires f.calls == []
    ensures var value := match f.value case Given(v) => v case _ => 0;
      NetOf(f, a) ==
      if f.error || (f.kind != Call && f.kind != Create && f.kind != Create2) then 0
      else (if f.to == Given(a) then value else 0) - (if f.from == Given(a) then value else 0)
  {
    NetByStructure(f, a);
  }

  lemma {:induction false} TreeNetPrefix(fs: seq<Frame>, g: Frame, i: nat, a: Address)
    requires i <= |fs|
    ensures TreeNetFrom(fs + [g], i, a) == TreeNetFrom(fs, i, a) + TreeNet(g, a)
    decreases |fs| - i
  {
    var longer := fs + [g];
    if i == |fs| {
      assert longer[i] == g && TreeNetFrom(longer, |longer|, a) == 0;
    } else {
      assert longer[i] == fs[i];
      TreeNetPrefix(fs, g, i + 1, a);
    }
  }

  /** One more call adds what its own tree nets, unless the frame failed. */
  lemma OneMoreCall(f: Frame, g: Frame, a: Address)
    ensures NetOf(f.(calls := f.calls + [g]), a) == NetOf(f, a) + if f.error then 0 else NetOf(g, a)
  {
    hide NetOf;
    var longer := f.(calls := f.calls + [g]);
    NetByStructure(f, a);
    NetByStructure(g, a);
    NetByStructure(longer, a);
    TreeNetPrefix(f.calls, g, 0, a);
    assert Flow(longer, a) == Flow(f, a);
  }

  /** A frame without calls is accepted exactly when its kind is a known one, its sender is given, its target is given
      or it is a creation that failed without one, and its value is not malformed. */
  lemma LoneFrameAccepted(f: Frame)
    requires f.calls == []
    ensures Traceable(f) <==>
      && f.kind != Unknown && f.from.Given? && f.value != Malformed
      && (f.to.Given? || (f.to == Absent && f.error && (f.kind == Create || f.kind == Create2)))
  {
    assert SizeFrom(f.calls, 0) == 0 && HeightFrom(f.calls, 0) == 0 && WellFormedFrom(f.calls, 0);
  }

  // ----- Failed subtrees -----

  /** Two trees that differ, if at all, inside failed subtrees. */
  predicate AgreeWhereLive(f: Frame, g: Frame)
    decreases f, 1
  {
    && f.error == g.error
    && (!f.error ==> f.(calls := []) == g.(calls := []) && |f.calls| == |g.calls| && AgreeFrom(f.calls, g.calls, 0))
  }

  predicate AgreeFrom(fs: seq<Frame>, gs: seq<Frame>, i: nat)
    requires i <= |fs| == |gs|
    decreases fs, 0, |fs| - i
  {
    i == |fs| || (AgreeWhereLive(fs[i], gs[i]) && AgreeFrom(fs, gs, i + 1))
  }

  lemma {:induction false} AgreeingNets(f: Frame, g: Frame, a: Address)
    requires AgreeWhereLive(f, g)
    ensures TreeNet(f, a) == TreeNet(g, a)
    decreases f, 1
  {
    if !f.error {
      assert Flow(f, a) == Flow(f.(calls := []), a) == Flow(g.(calls := []), a) == Flow(g, a);
      AgreeingNetsFrom(f.calls, g.calls, 0, a);
    }
  }

  lemma {:induction false} AgreeingNetsFrom(fs: seq<Frame>, gs: seq<Frame>, i: nat, a: Address)
    requires i <= |fs| == |gs| && AgreeFrom(fs, gs, i)
    ensures TreeNetFrom(fs, i, a) == TreeNetFrom(gs, i, a)
    decreases fs, 0, |fs| - i
  {
    if i < |fs| {
      AgreeingNets(fs[i], gs[i], a);
      AgreeingNetsFrom(fs, gs, i + 1, a);
    }
  }

  /** What happens inside a failed subtree, values or whole calls, cannot change the outcome's net. */
  lemma FailedSubtreesDoNotMatter(f: Frame, g: Frame, target: Address)
    requires AgreeWhereLive(f, g)
    requires Walk(f, 1, target, false, Count(0, 0)).Ok? && Walk(g, 1, target, false, Count(0, 0)).Ok?
    ensures Walk(f, 1, target, false, Count(0, 0)).value.net == Walk(g, 1, target, false, Count(0, 0)).value.net
  {
    hide AgreeWhereLive, TreeNet;
    WalkMeans(f, 1, target, false, Count(0, 0));
    WalkMeans(g, 1, target, false, Count(0, 0));
    AgreeingNets(f, g, target);
  }

  // ----- Conservation -----

  /** Every address a frame of the tree names. */
  function Named(f: Frame): set<Address>
    decreases f, 1
  {
    (if f.from.Given? then {f.from.value} else {}) + (if f.to.Given? then {f.to.value} else {}) + NamedFrom(f.calls, 0)
  }

  function NamedFrom(fs: seq<Frame>, i: nat): set<Address>
    requires i <= |fs|
    decreases fs, 0, |fs| - i
  {
    if i == |fs| then {} else Named(fs[i]) + NamedFrom(fs, i + 1)
  }

  predicate Distinct(addresses: seq<Address>)
  {
    forall i, j :: 0 <= i < j < |addresses| ==> addresses[i] != addresses[j]
  }

  ghost function NetSum(f: Frame, addresses: seq<Address>, m: nat): int
    requires m <= |addresses|
  {
    if m == 0 then 0 else NetSum(f, addresses, m - 1) + NetOf(f, addresses[m - 1])
  }

  function FlowSum(f: Frame, addresses: seq<Address>, m: nat): int
    requires m <= |addresses|
  {
    if m == 0 then 0 else FlowSum(f, addresses, m - 1) + Flow(f, addresses[m - 1])
  }

  function SumFrom(fs: seq<Frame>, i: nat, addresses: seq<Address>, m: nat): int
    requires i <= |fs| && m <= |addresses|
  {
    if m == 0 then 0 else SumFrom(fs, i, addresses, m - 1) + TreeNetFrom(fs, i, addresses[m - 1])
  }

  lemma {:induction false} SumSplits(f: Frame, addresses: seq<Address>, m: nat)
    requires m <= |addresses|
    ensures NetSum(f, addresses, m) ==
      if f.error then 0 else FlowSum(f, addresses, m) + SumFrom(f.calls, 0, addresses, m)
  {
    hide Flow, NetOf;
    if m > 0 {
      SumSplits(f, addresses, m - 1);
      NetByStructure(f, addresses[m - 1]);
    }
  }

  lemma {:induction false} SumFromSplits(fs: seq<Frame>, i: nat, addresses: seq<Address>, m: nat)
    requires i < |fs| && m <= |addresses|
    ensures SumFrom(fs, i, addresses, m) == NetSum(fs[i], addresses, m) + SumFrom(fs, i + 1, addresses, m)
  {
    hide NetOf, TreeNet;
    if m > 0 {
      SumFromSplits(fs, i, addresses, m - 1);
      NetByStructure(fs[i], addresses[m - 1]);
    }
  }

  lemma {:induction false} SumPastTheEnd(fs: seq<Frame>, addresses: seq<Address>, m: nat)
    requires m <= |addresses|
    ensures SumFrom(fs, |fs|, addresses, m) == 0
  {
    if m > 0 { SumPastTheEnd(fs, addresses, m - 1); }
  }

  lemma {:induction false} FlowSums(f: Frame, addresses: seq<Address>, m: nat)
    requires m <= |addresses| && Distinct(addresses) && MovesValue(f) && f.from.Given? && f.to.Given?
    ensures FlowSum(f, addresses, m) ==
      (if f.to.value in addresses[..m] then ValueOf(f) else 0)
      - (if f.from.value in addresses[..m] then ValueOf(f) else 0)
  {
    if m > 0 {
      FlowSums(f, addresses, m - 1);
      assert addresses[..m] == addresses[..m - 1] + [addresses[m - 1]];
      assert addresses[m - 1] !in addresses[..m - 1];
    }
  }

  lemma {:induction false} NoFlowSums(f: Frame, addresses: seq<Address>, m: nat)
    requires m <= |addresses| && !MovesValue(f)
    ensures FlowSum(f, addresses, m) == 0
  {
    if m > 0 { NoFlowSums(f, addresses, m - 1); }
  }

  /** Value is moved, not made: over all addresses of the tree the nets cancel. */
  lemma {:induction false} NetsCancel(f: Frame, addresses: seq<Address>)
    requires WellFormed(f) && Distinct(addresses) && forall a :: a in Named(f) ==> a in addresses
    ensures NetSum(f, addresses, |addresses|) == 0
    decreases f, 1
  {
    SumSplits(f, addresses, |addresses|);
    if !f.error {
      NetsCancelFrom(f.calls, 0, addresses);
      if MovesValue(f) {
        FlowSums(f, addresses, |addresses|);
        assert addresses[..|addresses|] == addresses;
      } else {
        NoFlowSums(f, addresses, |addresses|);
      }
    }
  }

  lemma {:induction false} NetsCancelFrom(fs: seq<Frame>, i: nat, addresses: seq<Address>)
    requires i <= |fs| && WellFormedFrom(fs, i)
    requires Distinct(addresses) && forall a :: a in NamedFrom(fs, i) ==> a in addresses
    ensures SumFrom(fs, i, addresses, |addresses|) == 0
    decreases fs, 0, |fs| - i
  {
    if i == |fs| {
      SumPastTheEnd(fs, addresses, |addresses|);
    } else {
      SumFromSplits(fs, i, addresses, |addresses|);
      NetsCancel(fs[i], addresses);
      NetsCancelFrom(fs, i + 1, addresses);
    }
  }
}
