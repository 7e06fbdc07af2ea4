/** Exactly when a block leaves the catalog as a rebuild from the tables would make it. */
module RebuildLaws {
  import opened Prelude
  import opened Tables
  import opened TableLaws
  import opened CommitLaws
  import opened Registrations
  import opened RegistrationLaws

  // ----- Which log last registered a key -----

  /** The log is a creation that decoding takes up. */
  predicate TakenUp(db: Db, d: Draft, log: Log)
  {
    && log.Created? && !log.checkFails && !log.metadataFails
    && Accepts(db, d.pending, log.launch.token, log.launch.Category())
  }

  predicate RegistersCurve(db: Db, d: Draft, log: Log, curve: Address)
  {
    TakenUp(db, d, log) && log.launch.PonsLaunch? && log.launch.pons.curve == curve
  }

  /** The creation that last registered the curve while the logs were decoded. */
  function LastCurve(db: Db, d: Draft, logs: seq<Log>, curve: Address): Option<Launched>
    decreases |logs|
  {
    if logs == [] || d.failed then None
    else match LastCurve(db, Decode(db, d, logs[0]), logs[1..], curve)
      case Some(l) => Some(l)
      case None => if RegistersCurve(db, d, logs[0], curve) then Some(logs[0].launch) else None
  }

  /** Where a pool's registration comes from: an o1 creation, or a graduation and the Pons row it was given. */
  datatype Source = FromCreation(launch: Launched) | FromGraduation(graduation: Graduation, row: PonsRow)

  function RegisteredPool(db: Db, d: Draft, log: Log, pool: Hash): Option<Source>
  {
    if TakenUp(db, d, log) && log.launch.O1Launch? && log.launch.o1.pool == pool then Some(FromCreation(log.launch))
    else if log.GraduatedOn? && !log.lookupFails && log.graduation.pool == pool then
      match LaunchOf(db, d.changes.pons, log.graduation.token)
      case None => None
      case Some(row) => Some(FromGraduation(log.graduation, row))
    else None
  }

  /** The creation or graduation that last registered the pool while the logs were decoded. */
  function LastPool(db: Db, d: Draft, logs: seq<Log>, pool: Hash): Option<Source>
    decreases |logs|
  {
    if logs == [] || d.failed then None
    else match LastPool(db, Decode(db, d, logs[0]), logs[1..], pool)
      case Some(s) => Some(s)
      case None => RegisteredPool(db, d, logs[0], pool)
  }

  // ----- The condition -----

  function FirstOf(ls: seq<Launched>, token: Address): Option<Launched>
    decreases |ls|
  {
    if ls == [] then None else if ls[0].token == token then Some(ls[0]) else FirstOf(ls[1..], token)
  }

  /** The row that stays for a Pons token: the stored one, else the first of the block, unless the directory knows
      the token already. */
  function KeptPons(db: Db, ls: seq<Launched>, token: Address): Option<PonsRow>
  {
    if token in db.pons then Some(db.pons[token])
    else if token in db.index then None
    else match FirstOf(ls, token)
      case Some(PonsLaunch(_, row)) => Some(row)
      case _ => None
  }

  function KeptO1(db: Db, ls: seq<Launched>, token: Address): Option<O1Row>
  {
    if token in db.o1 then Some(db.o1[token])
    else if token in db.index then None
    else match FirstOf(ls, token)
      case Some(O1Launch(_, row)) => Some(row)
      case _ => None
  }

  predicate SamePair(a: PonsRow, b: PonsRow) { a.pair == b.pair && a.pairDecimals == b.pairDecimals }

  /** The creation names the curve of its token's kept row and carries its pair. */
  predicate CurveFits(db: Db, c: Changes, l: Launched)
  {
    l.PonsLaunch? && match KeptPons(db, c.pons, l.token)
      case None => false
      case Some(row) => row.curve == l.pons.curve && SamePair(row, l.pons)
  }

  /** An o1 creation carries the data of its token's kept row. A graduation is to the pool of its token's last
      one, and was given a row with the pair of the kept one. */
  predicate PoolFits(db: Db, c: Changes, s: Source)
  {
    match s
    case FromCreation(l) =>
      l.O1Launch? && (match KeptO1(db, c.o1, l.token)
        case None => false
        case Some(row) => row.pool == l.o1.pool && row.quote == l.o1.quote && row.quoteDecimals == l.o1.quoteDecimals)
    case FromGraduation(g, row) =>
      match (KeptPons(db, c.pons, g.token), LastFor(c.graduations, g.token))
      case (Some(kept), Some(last)) => last.pool == g.pool && SamePair(kept, row)
      case _ => false
  }

  /** The last log to register a key is about the row that stays, and no token that had graduated before leaves
      the pool it is registered with. */
  ghost predicate Faithful(db: Db, c: Catalog, logs: seq<Log>)
  {
    var changes := DecodeAll(db, Start(c), logs).changes;
    && (forall k :: FitsCurve(db, c, logs, changes, k))
    && (forall k :: FitsPool(db, c, logs, changes, k))
    && (forall k :: k in c.pools && LastPool(db, Start(c), logs, k) == None ==> Stays(changes, k, c.pools[k]))
  }

  predicate FitsCurve(db: Db, c: Catalog, logs: seq<Log>, changes: Changes, k: Address)
  {
    match LastCurve(db, Start(c), logs, k) case None => true case Some(l) => CurveFits(db, changes, l)
  }

  predicate FitsPool(db: Db, c: Catalog, logs: seq<Log>, changes: Changes, k: Hash)
  {
    match LastPool(db, Start(c), logs, k) case None => true case Some(s) => PoolFits(db, changes, s)
  }

  predicate Stays(changes: Changes, k: Hash, reg: PoolReg)
  {
    reg.category == Pons ==>
      match LastFor(changes.graduations, reg.token) case None => true case Some(g) => g.pool == k
  }

  // ----- What the catalog holds after decoding -----

  ghost predicate PlanGrows(a: Changes, b: Changes)
  {
    && (forall l :: l in a.pons ==> l in b.pons) && (forall l :: l in a.o1 ==> l in b.o1)
    && (forall g :: g in a.graduations ==> g in b.graduations)
  }

  lemma OneLogGrows(db: Db, d: Draft, log: Log)
    ensures PlanGrows(d.changes, Decode(db, d, log).changes)
  {
    hide LaunchOf, Accepts;
  }

  lemma {:induction false} LogsGrow(db: Db, d: Draft, logs: seq<Log>)
    ensures PlanGrows(d.changes, DecodeAll(db, d, logs).changes)
    decreases |logs|
  {
    hide Decode;
    if logs != [] && !d.failed {
      OneLogGrows(db, d, logs[0]);
      LogsGrow(db, Decode(db, d, logs[0]), logs[1..]);
    }
  }

  ghost predicate SameAt<K, V>(a: map<K, V>, b: map<K, V>, k: K)
  {
    (k in a <==> k in b) && (k in a ==> a[k] == b[k])
  }

  lemma OneLogCurve(db: Db, d: Draft, log: Log, k: Address)
    requires !d.failed
    ensures var e := Decode(db, d, log);
      if RegistersCurve(db, d, log, k) then
        && log.launch in e.changes.pons
        && k in e.catalog.curves && e.catalog.curves[k] == CurveOf(log.launch.token, log.launch.pons)
      else SameAt(d.catalog.curves, e.catalog.curves, k)
  {
    hide LaunchOf;
  }

  lemma {:induction false} CurvesAfter(db: Db, d: Draft, logs: seq<Log>, k: Address)
    requires !DecodeAll(db, d, logs).failed
    ensures var e := DecodeAll(db, d, logs);
      match LastCurve(db, d, logs, k)
      case None => SameAt(d.catalog.curves, e.catalog.curves, k)
      case Some(l) =>
        && l.PonsLaunch? && l.pons.curve == k && l in e.changes.pons
        && k in e.catalog.curves && e.catalog.curves[k] == CurveOf(l.token, l.pons)
    decreases |logs|
  {
    hide Decode, RegistersCurve;
    if logs != [] && !d.failed {
      OneLogCurve(db, d, logs[0], k);
      CurvesAfter(db, Decode(db, d, logs[0]), logs[1..], k);
      LogsGrow(db, Decode(db, d, logs[0]), logs[1..]);
      RegistersIts(db, d, logs[0], k);
    }
  }

  lemma RegistersIts(db: Db, d: Draft, log: Log, k: Address)
    ensures RegistersCurve(db, d, log, k) ==> log.Created? && log.launch.PonsLaunch? && log.launch.pons.curve == k
  {
  }

  function RegOf(s: Source): PoolReg
    requires s.FromCreation? ==> s.launch.O1Launch?
  {
    match s
    case FromCreation(l) => O1PoolOf(l.token, l.o1)
    case FromGraduation(g, row) => PonsPoolOf(g.token, row)
  }

  /** The source is part of the plan and names the pool. */
  ghost predicate IsSource(db: Db, c: Changes, s: Source, pool: Hash)
  {
    match s
    case FromCreation(l) => l.O1Launch? && l.o1.pool == pool && l in c.o1
    case FromGraduation(g, row) =>
      g.pool == pool && g in c.graduations
      && (PonsLaunch(g.token, row) in c.pons || (g.token in db.pons && db.pons[g.token] == row))
  }

  lemma StillSource(db: Db, a: Changes, b: Changes, s: Source, pool: Hash)
    requires IsSource(db, a, s, pool) && PlanGrows(a, b)
    ensures IsSource(db, b, s, pool)
  {
  }

  lemma {:induction false} LaunchOfIsRow(db: Db, pending: seq<Launched>, token: Address)
    ensures LaunchOf(db, pending, token).Some? ==>
      var row := LaunchOf(db, pending, token).value;
      PonsLaunch(token, row) in pending || (token in db.pons && row == db.pons[token])
    decreases |pending|
  {
    if pending != [] { LaunchOfIsRow(db, pending[1..], token); }
  }

  lemma OneLogPool(db: Db, d: Draft, log: Log, k: Hash)
    requires !d.failed
    ensures var e := Decode(db, d, log);
      match RegisteredPool(db, d, log, k)
      case None => SameAt(d.catalog.pools, e.catalog.pools, k)
      case Some(s) => IsSource(db, e.changes, s, k) && k in e.catalog.pools && e.catalog.pools[k] == RegOf(s)
  {
    hide LaunchOf;
    if log.GraduatedOn? { LaunchOfIsRow(db, d.changes.pons, log.graduation.token); }
  }

  lemma {:induction false} PoolsAfter(db: Db, d: Draft, logs: seq<Log>, k: Hash)
    requires !DecodeAll(db, d, logs).failed
    ensures var e := DecodeAll(db, d, logs);
      match LastPool(db, d, logs, k)
      case None => SameAt(d.catalog.pools, e.catalog.pools, k)
      case Some(s) => IsSource(db, e.changes, s, k) && k in e.catalog.pools && e.catalog.pools[k] == RegOf(s)
    decreases |logs|
  {
    hide Decode, RegisteredPool, IsSource, RegOf, PlanGrows;
    if logs != [] && !d.failed {
      var next := Decode(db, d, logs[0]);
      OneLogPool(db, d, logs[0], k);
      PoolsAfter(db, next, logs[1..], k);
      LogsGrow(db, next, logs[1..]);
      var s := RegisteredPool(db, d, logs[0], k);
      if s.Some? { StillSource(db, next.changes, DecodeAll(db, next, logs[1..]).changes, s.value, k); }
    }
  }

  // ----- What the tables hold after the commit -----

  ghost predicate Names(ls: seq<Launched>, token: Address) { exists l :: l in ls && l.token == token }

  lemma {:induction false} FirstOfAt(ls: seq<Launched>, token: Address) returns (i: nat)
    requires Names(ls, token)
    ensures i < |ls| && FirstOf(ls, token) == Some(ls[i]) && ls[i].token == token && FirstForToken(ls, i, ls[i])
    decreases |ls|
  {
    if ls[0].token == token {
      i := 0;
    } else {
      var l :| l in ls && l.token == token;
      assert l in ls[1..];
      i := FirstOfAt(ls[1..], token);
      i := i + 1;
    }
  }

  /** The first launch of a new token gets the rows. */
  lemma FirstLands(before: Db, after: Db, ls: seq<Launched>, reported: seq<Launched>, at: seq<nat>, i: nat)
    requires LaunchesLanded(before, after, ls, reported, at)
    requires i < |ls| && FirstForToken(ls, i, ls[i]) && ls[i].token !in before.index
    ensures Landed(after, ls[i])
  {
    hide Landed;
    assert NamesToken(reported, ls[i].token);
    var k :| 0 <= k < |reported| && reported[k].token == ls[i].token;
    assert FirstForToken(ls, at[k], reported[k]);
  }

  lemma FirstInBoth(xs: seq<Launched>, ys: seq<Launched>, i: nat)
    ensures FirstForToken(xs, i, (xs + ys)[i]) ==> FirstForToken(xs + ys, i, (xs + ys)[i])
    requires i < |xs|
  {
  }

  lemma FirstInSecond(xs: seq<Launched>, ys: seq<Launched>, i: nat)
    requires i < |ys| && FirstForToken(ys, i, ys[i]) && !Names(xs, ys[i].token)
    ensures FirstForToken(xs + ys, |xs| + i, ys[i])
  {
    forall j | 0 <= j < |xs| + i ensures (xs + ys)[j].token != ys[i].token {
      if j < |xs| { assert xs[j] in xs; }
    }
  }

  ghost predicate Committed(db: Db, d: Draft, events: seq<Event>, name: string, w: SyncState, after: Db)
  {
    var r := Apply(db, d.changes.(events := events), name, w);
    Planned(db, d) && r.Ok? && after == r.value.db
  }

  /** A token is planned under one category. */
  lemma OneCategory(db: Db, d: Draft, l: Launched)
    requires Planned(db, d)
    ensures l in d.changes.pons ==> l.PonsLaunch?
    ensures l in d.changes.o1 ==> l.O1Launch? && !Names(d.changes.pons, l.token)
  {
    if l in d.changes.o1 {
      assert Pending(d, l.token, O1Crypto);
      forall m | m in d.changes.pons ensures m.token != l.token {
        assert Pending(d, m.token, Pons);
      }
    }
  }

  /** A token the directory knows gets no new detail row. */
  lemma KnownGetsNothing(before: Db, after: Db, ls: seq<Launched>, reported: seq<Launched>, at: seq<nat>,
      token: Address)
    requires LaunchesLanded(before, after, ls, reported, at) && token in before.index
    ensures token in after.pons ==> token in before.pons
    ensures token in after.o1 ==> token in before.o1
  {
    hide Landed, RowsKept, FirstForToken;
    forall k | 0 <= k < |reported| ensures reported[k].token != token { }
  }

  /** The tables between the launches and the graduations of the block. */
  ghost predicate Between(db: Db, d: Draft, mid: Db, after: Db)
  {
    && (exists reported, at :: LaunchesLanded(db, mid, d.changes.pons + d.changes.o1, reported, at))
    && after.o1 == mid.o1 && after.pons.Keys == mid.pons.Keys
    && forall t :: t in mid.pons ==> after.pons[t] == GraduatedRow(mid.pons[t], LastFor(d.changes.graduations, t))
  }

  lemma HasBetween(db: Db, d: Draft, events: seq<Event>, name: string, w: SyncState, after: Db) returns (mid: Db)
    requires Committed(db, d, events, name, w, after)
    ensures Between(db, d, mid, after)
  {
    hide Apply, Planned, LastFor, GraduatedRow, EventsLanded, WalletsSeen, AddAllLaunches, LaunchesLanded, Launches;
    var c := d.changes.(events := events);
    var at, _ := CommitMeans(db, c, name, w);
    mid := Launches(db, c);
    assert LaunchesLanded(db, mid, d.changes.pons + d.changes.o1, Apply(db, c, name, w).value.inserted, at);
  }

  lemma Stored(db: Db, d: Draft, mid: Db, after: Db, token: Address)
    requires Between(db, d, mid, after)
    ensures token in db.pons ==> token in mid.pons && mid.pons[token] == db.pons[token]
    ensures token in db.o1 ==> token in mid.o1 && mid.o1[token] == db.o1[token]
    ensures token in db.index && token !in db.pons ==> token !in mid.pons
    ensures token in db.index && token !in db.o1 ==> token !in mid.o1
  {
    hide FirstForToken, LastFor, GraduatedRow;
    var reported, at :| LaunchesLanded(db, mid, d.changes.pons + d.changes.o1, reported, at);
    if token in db.index { KnownGetsNothing(db, mid, d.changes.pons + d.changes.o1, reported, at, token); }
  }

  /** The first launch of a token that is new to the directory lands. */
  lemma NewLands(db: Db, d: Draft, mid: Db, after: Db, ls: seq<Launched>, token: Address) returns (i: nat)
    requires Planned(db, d) && Between(db, d, mid, after) && token !in db.index
    requires (ls == d.changes.pons || ls == d.changes.o1) && Names(ls, token)
    ensures i < |ls| && FirstOf(ls, token) == Some(ls[i]) && ls[i].token == token && Landed(mid, ls[i])
  {
    hide Planned, Landed, LastFor, GraduatedRow, LaunchesLanded;
    var xs, ys := d.changes.pons, d.changes.o1;
    var reported, at :| LaunchesLanded(db, mid, xs + ys, reported, at);
    i := FirstOfAt(ls, token);
    if ls == xs {
      FirstInBoth(xs, ys, i);
      FirstLands(db, mid, xs + ys, reported, at, i);
    } else {
      OneCategory(db, d, ys[i]);
      FirstInSecond(xs, ys, i);
      FirstLands(db, mid, xs + ys, reported, at, |xs| + i);
    }
  }

  /** The Pons row of a stored or planned token is the kept one, graduated as the block says. */
  lemma PonsRowAfter(db: Db, d: Draft, events: seq<Event>, name: string, w: SyncState, after: Db, token: Address)
    requires Committed(db, d, events, name, w, after) && (token in db.pons || Names(d.changes.pons, token))
    ensures match KeptPons(db, d.changes.pons, token)
      case None => token !in after.pons
      case Some(row) =>
        && token in after.pons
        && after.pons[token] == GraduatedRow(row, LastFor(d.changes.graduations, token))
  {
    hide Apply, Planned, LastFor, GraduatedRow, LaunchesLanded;
    var mid := HasBetween(db, d, events, name, w, after);
    Stored(db, d, mid, after, token);
    if token !in db.index && token !in db.pons {
      var i := NewLands(db, d, mid, after, d.changes.pons, token);
      OneCategory(db, d, d.changes.pons[i]);
    }
  }

  lemma O1RowAfter(db: Db, d: Draft, events: seq<Event>, name: string, w: SyncState, after: Db, token: Address)
    requires Committed(db, d, events, name, w, after) && (token in db.o1 || Names(d.changes.o1, token))
    ensures match KeptO1(db, d.changes.o1, token)
      case None => token !in after.o1
      case Some(row) => token in after.o1 && after.o1[token] == row
  {
    hide Apply, Planned, LastFor, GraduatedRow, LaunchesLanded;
    var mid := HasBetween(db, d, events, name, w, after);
    Stored(db, d, mid, after, token);
    if token !in db.index && token !in db.o1 {
      var i := NewLands(db, d, mid, after, d.changes.o1, token);
      OneCategory(db, d, d.changes.o1[i]);
    }
  }

  // ----- Key by key -----

  lemma CurveExactly(db: Db, c: Catalog, logs: seq<Log>, events: seq<Event>, name: string, w: SyncState, after: Db,
      k: Address)
    requires var d := DecodeAll(db, Start(c), logs); !d.failed && Committed(db, d, events, name, w, after)
    requires Rebuilds(c, db)
    ensures var d := DecodeAll(db, Start(c), logs);
      (k in d.catalog.curves ==> CurveRow(after, k, d.catalog.curves[k])) <==> FitsCurve(db, c, logs, d.changes, k)
  {
    hide DecodeAll, Committed, LastFor, Covers;
    var d := DecodeAll(db, Start(c), logs);
    CurvesAfter(db, Start(c), logs, k);
    match LastCurve(db, Start(c), logs, k)
    case None =>
      if k in c.curves {
        assert CurveRow(db, k, c.curves[k]);
        PonsRowAfter(db, d, events, name, w, after, c.curves[k].token);
      }
    case Some(l) =>
      assert Names(d.changes.pons, l.token);
      PonsRowAfter(db, d, events, name, w, after, l.token);
  }

  lemma PoolExactly(db: Db, c: Catalog, logs: seq<Log>, events: seq<Event>, name: string, w: SyncState, after: Db,
      k: Hash)
    requires var d := DecodeAll(db, Start(c), logs); !d.failed && Committed(db, d, events, name, w, after)
    requires Rebuilds(c, db)
    ensures var d := DecodeAll(db, Start(c), logs);
      (k in d.catalog.pools ==> PoolRow(after, k, d.catalog.pools[k])) <==>
      FitsPool(db, c, logs, d.changes, k)
      && (k in c.pools && LastPool(db, Start(c), logs, k) == None ==> Stays(d.changes, k, c.pools[k]))
  {
    hide DecodeAll, Committed, LastFor, Covers, KeptPons, KeptO1;
    var d := DecodeAll(db, Start(c), logs);
    PoolsAfter(db, Start(c), logs, k);
    match LastPool(db, Start(c), logs, k)
    case None =>
      if k in c.pools { OldPoolExactly(db, d, events, name, w, after, k, c.pools[k]); }
    case Some(FromCreation(l)) =>
      assert Names(d.changes.o1, l.token);
      O1RowAfter(db, d, events, name, w, after, l.token);
    case Some(FromGraduation(g, row)) =>
      if PonsLaunch(g.token, row) in d.changes.pons {
        assert PonsLaunch(g.token, row).token == g.token && Names(d.changes.pons, g.token);
      }
      PonsRowAfter(db, d, events, name, w, after, g.token);
      LastForIsThere(d.changes.graduations, g.token);
  }

  /** A registration no log touches stays right unless its token graduates elsewhere. */
  lemma OldPoolExactly(db: Db, d: Draft, events: seq<Event>, name: string, w: SyncState, after: Db, k: Hash,
      reg: PoolReg)
    requires Committed(db, d, events, name, w, after) && PoolRow(db, k, reg)
    ensures PoolRow(after, k, reg) <==> Stays(d.changes, k, reg)
  {
    hide Committed, LastFor;
    if reg.category == Pons {
      PonsRowAfter(db, d, events, name, w, after, reg.token);
    } else {
      O1RowAfter(db, d, events, name, w, after, reg.token);
    }
  }

  // ----- The block -----

  lemma RebuildsCovers(a: Catalog, b: Catalog, db: Db)
    requires Rebuilds(a, db) && Grows(a, b)
    ensures Covers(b, db)
  {
  }

  lemma CoversAfter(db: Db, c: Catalog, logs: seq<Log>, events: seq<Event>, name: string, w: SyncState, after: Db)
    requires var d := DecodeAll(db, Start(c), logs); !d.failed && Committed(db, d, events, name, w, after)
    requires Rebuilds(c, db) && FreshLogs(logs)
    ensures Covers(DecodeAll(db, Start(c), logs).catalog, after)
  {
    hide DecodeAll, Covers, Planned, Apply, CurveRow, PoolRow;
    StartIsPlanned(db, c);
    DecodeAllKeepsPlanned(db, Start(c), logs);
    RebuildsCovers(c, DecodeAll(db, Start(c), logs).catalog, db);
    CommitKeepsCovers(db, DecodeAll(db, Start(c), logs), events, name, w);
  }

  /** After a block that was decoded and committed, the catalog is what a rebuild would give if and only if the
      block is faithful to the rows that stay. */
  lemma CommittedRebuildsExactly(db: Db, c: Catalog, logs: seq<Log>, events: seq<Event>, name: string,
      w: SyncState, after: Db)
    requires var d := DecodeAll(db, Start(c), logs); !d.failed && Committed(db, d, events, name, w, after)
    requires Rebuilds(c, db) && FreshLogs(logs)
    ensures Rebuilds(DecodeAll(db, Start(c), logs).catalog, after) <==> Faithful(db, c, logs)
  {
    hide DecodeAll, Committed, Covers, CurveRow, PoolRow, FitsCurve, FitsPool, Stays, LastPool;
    var d := DecodeAll(db, Start(c), logs);
    forall k
      ensures (k in d.catalog.curves ==>
        CurveRow(after, k, d.catalog.curves[k])) <==> FitsCurve(db, c, logs, d.changes, k)
    {
      CurveExactly(db, c, logs, events, name, w, after, k);
    }
    forall k
      ensures (k in d.catalog.pools ==> PoolRow(after, k, d.catalog.pools[k])) <==>
        FitsPool(db, c, logs, d.changes, k)
        && (k in c.pools && LastPool(db, Start(c), logs, k) == None ==> Stays(d.changes, k, c.pools[k]))
    {
      PoolExactly(db, c, logs, events, name, w, after, k);
    }
    CoversAfter(db, c, logs, events, name, w, after);
  }

  /** For every block, whatever it contains: if it succeeds, the catalog is afterwards what a rebuild would give,
      keys and data, exactly when its logs are faithful; if it fails and is restored, it always is. */
  lemma BlockRebuildsExactly(db: Db, c: Catalog, b: Block, db': Db, c': Catalog, ok: bool)
    requires Rebuilds(c, db) && FreshLogs(b.logs)
    requires BlockStep(db, c, b, db', c', ok) && (ok || !b.restoreFails)
    ensures Rebuilds(c', db') <==> !ok || Faithful(db, c, b.logs)
  {
    hide DecodeAll, Apply, Planned, Rebuilds, Faithful;
    if ok {
      var d := DecodeAll(db, Start(c), b.logs);
      StartIsPlanned(db, c);
      DecodeAllKeepsPlanned(db, Start(c), b.logs);
      AcceptedNeverConflicts(db, c, b);
      CommittedRebuildsExactly(db, c, b.logs, b.events, b.name, b.state, db');
    }
  }

  // ----- Runs -----

  ghost predicate RebuiltAt(m: Moment) { Rebuilds(m.catalog, m.db) }

  ghost predicate FaithfulAt(moments: seq<Moment>, blocks: seq<Block>, oks: seq<bool>, i: nat)
    requires i < |blocks| == |oks| && i < |moments|
  {
    oks[i] ==> Faithful(moments[i].db, moments[i].catalog, blocks[i].logs)
  }

  lemma {:induction false} RunRebuildsWhileFaithful(moments: seq<Moment>, blocks: seq<Block>, oks: seq<bool>, n: nat)
    requires History(moments, blocks, oks) && n <= |blocks| && RebuiltAt(moments[0])
    requires forall i :: 0 <= i < |blocks| ==> oks[i] || !blocks[i].restoreFails
    requires forall i :: 0 <= i < n ==> FaithfulAt(moments, blocks, oks, i)
    ensures RebuiltAt(moments[n])
  {
    hide BlockStep, FreshLogs, Rebuilds, Faithful;
    if n > 0 {
      RunRebuildsWhileFaithful(moments, blocks, oks, n - 1);
      assert FaithfulAt(moments, blocks, oks, n - 1);
      var before, after := moments[n - 1], moments[n];
      BlockRebuildsExactly(before.db, before.catalog, blocks[n - 1], after.db, after.catalog, oks[n - 1]);
    }
  }

  /** Over every run whose restores work, from a catalog rebuilt from the tables: the catalog is what a rebuild
      would give at every moment if and only if every block that succeeds is faithful. */
  lemma EveryRunRebuildsExactly(moments: seq<Moment>, blocks: seq<Block>, oks: seq<bool>)
    requires History(moments, blocks, oks) && RebuiltAt(moments[0])
    requires forall i :: 0 <= i < |blocks| ==> oks[i] || !blocks[i].restoreFails
    ensures (forall n :: 0 <= n < |moments| ==> RebuiltAt(moments[n]))
       <==> (forall i :: 0 <= i < |blocks| ==> FaithfulAt(moments, blocks, oks, i))
  {
    hide BlockStep, FreshLogs, Rebuilds, Faithful;
    if forall i :: 0 <= i < |blocks| ==> FaithfulAt(moments, blocks, oks, i) {
      forall n | 0 <= n < |moments| ensures RebuiltAt(moments[n]) {
        RunRebuildsWhileFaithful(moments, blocks, oks, n);
      }
    }
    if forall n :: 0 <= n < |moments| ==> RebuiltAt(moments[n]) {
      forall i | 0 <= i < |blocks| ensures FaithfulAt(moments, blocks, oks, i) {
        assert RebuiltAt(moments[i]) && RebuiltAt(moments[i + 1]);
        var before, after := moments[i], moments[i + 1];
        BlockRebuildsExactly(before.db, before.catalog, blocks[i], after.db, after.catalog, oks[i]);
      }
    }
  }

  // ----- A plain condition that suffices -----

  /** Each token is created once, and graduates to one pool. */
  ghost predicate OncePerToken(db: Db, logs: seq<Log>)
  {
    && (forall i :: 0 <= i < |logs| && logs[i].Created? ==>
          var l := logs[i].launch; l.token in db.index ==> db.index[l.token].category != l.Category())
    && (forall i, j :: 0 <= i < j < |logs| && logs[i].Created? && logs[j].Created? ==>
          logs[i].launch.token != logs[j].launch.token)
    && (forall i, j :: 0 <= i < j < |logs| && logs[i].GraduatedOn? && logs[j].GraduatedOn? ==>
          SamePool(logs[i].graduation, logs[j].graduation))
    && (forall i :: 0 <= i < |logs| && logs[i].GraduatedOn? ==> PoolStays(db, logs[i].graduation))
  }

  predicate SamePool(g: Graduation, h: Graduation)
  {
    g.token == h.token ==> g.pool == h.pool
  }

  predicate PoolStays(db: Db, g: Graduation)
  {
    g.token in db.pons && db.pons[g.token].pool.Some? ==> db.pons[g.token].pool.value == g.pool
  }

  predicate IsPlanned(d: Draft, l: Launched)
  {
    l in d.changes.pons || l in d.changes.o1
  }

  /** The logs still to come do not repeat what is planned. */
  ghost predicate Apart(d: Draft, logs: seq<Log>)
  {
    && (forall i, l :: 0 <= i < |logs| && logs[i].Created? && IsPlanned(d, l) ==> logs[i].launch.token != l.token)
    && (forall i, g :: 0 <= i < |logs| && logs[i].GraduatedOn? && g in d.changes.graduations ==>
          SamePool(logs[i].graduation, g))
  }

  /** The plan creates each token once, all of them new, and graduates each to one pool. */
  ghost predicate PlansOnce(db: Db, d: Draft)
  {
    && (forall l :: IsPlanned(d, l) ==> l.token !in db.index)
    && (forall l, m :: IsPlanned(d, l) && IsPlanned(d, m) && l.token == m.token ==> l == m)
    && (forall g, h :: g in d.changes.graduations && h in d.changes.graduations ==> SamePool(g, h))
    && (forall g :: g in d.changes.graduations ==> PoolStays(db, g))
  }

  lemma DecodeKeepsPlansOnce(db: Db, d: Draft, logs: seq<Log>)
    requires logs != [] && !d.failed && PlansOnce(db, d) && OncePerToken(db, logs) && Apart(d, logs)
    ensures var e := Decode(db, d, logs[0]);
      PlansOnce(db, e) && OncePerToken(db, logs[1..]) && Apart(e, logs[1..])
  {
    hide LaunchOf;
    var e, log, rest := Decode(db, d, logs[0]), logs[0], logs[1..];
    assert forall i :: 0 <= i < |rest| ==> rest[i] == logs[i + 1];
    forall l ensures IsPlanned(e, l) <==>
      IsPlanned(d, l) || (log.Created? && e.changes != d.changes && l == log.launch) { }
    forall g ensures g in e.changes.graduations <==>
      g in d.changes.graduations || (log.GraduatedOn? && e.changes != d.changes && g == log.graduation) { }
    hide Decode, IsPlanned;
  }

  lemma {:induction false} DecodeAllPlansOnce(db: Db, d: Draft, logs: seq<Log>)
    requires PlansOnce(db, d) && OncePerToken(db, logs) && Apart(d, logs)
    ensures PlansOnce(db, DecodeAll(db, d, logs))
    decreases |logs|
  {
    hide Decode, PlansOnce, OncePerToken, Apart;
    if logs != [] && !d.failed {
      DecodeKeepsPlansOnce(db, d, logs);
      DecodeAllPlansOnce(db, Decode(db, d, logs[0]), logs[1..]);
    }
  }

  /** A planned launch is the row that stays. */
  lemma OnceKept(db: Db, d: Draft, events: seq<Event>, name: string, w: SyncState, after: Db, l: Launched)
    requires Committed(db, d, events, name, w, after) && PlansOnce(db, d)
    ensures l in d.changes.pons ==> l.PonsLaunch? && KeptPons(db, d.changes.pons, l.token) == Some(l.pons)
    ensures l in d.changes.o1 ==> l.O1Launch? && KeptO1(db, d.changes.o1, l.token) == Some(l.o1)
  {
    hide Apply, Planned, Between;
    var mid := HasBetween(db, d, events, name, w, after);
    OneCategory(db, d, l);
    Stored(db, d, mid, after, l.token);
    if l in d.changes.pons {
      assert Names(d.changes.pons, l.token) && IsPlanned(d, l);
      var i := NewLands(db, d, mid, after, d.changes.pons, l.token);
      assert IsPlanned(d, d.changes.pons[i]);
    }
    if l in d.changes.o1 {
      assert Names(d.changes.o1, l.token) && IsPlanned(d, l);
      var i := NewLands(db, d, mid, after, d.changes.o1, l.token);
      assert IsPlanned(d, d.changes.o1[i]);
    }
  }

  lemma OncePoolFits(db: Db, d: Draft, events: seq<Event>, name: string, w: SyncState, after: Db, s: Source, k: Hash)
    requires Committed(db, d, events, name, w, after) && PlansOnce(db, d) && IsSource(db, d.changes, s, k)
    ensures PoolFits(db, d.changes, s)
  {
    hide Committed, KeptPons, KeptO1, LastFor, IsPlanned;
    match s
    case FromCreation(l) => OnceKept(db, d, events, name, w, after, l);
    case FromGraduation(g, row) =>
      LastForIsThere(d.changes.graduations, g.token);
      OnceKept(db, d, events, name, w, after, PonsLaunch(g.token, row));
      StoredIsKept(db, d.changes.pons, g.token);
  }

  lemma StoredIsKept(db: Db, ls: seq<Launched>, token: Address)
    ensures token in db.pons ==> KeptPons(db, ls, token) == Some(db.pons[token])
  {
  }

  lemma OnceStays(db: Db, d: Draft, k: Hash, reg: PoolReg)
    requires PlansOnce(db, d) && PoolRow(db, k, reg)
    ensures Stays(d.changes, k, reg)
  {
    hide LastFor, IsPlanned;
    LastForIsThere(d.changes.graduations, reg.token);
    var last := LastFor(d.changes.graduations, reg.token);
    if last.Some? { assert PoolStays(db, last.value); }
  }

  lemma OnceIsFaithful(db: Db, c: Catalog, logs: seq<Log>, events: seq<Event>, name: string, w: SyncState, after: Db)
    requires var d := DecodeAll(db, Start(c), logs); !d.failed && Committed(db, d, events, name, w, after)
    requires Rebuilds(c, db) && PlansOnce(db, DecodeAll(db, Start(c), logs))
    ensures Faithful(db, c, logs)
  {
    hide DecodeAll, Committed, PlansOnce, Covers, KeptPons, PoolFits, Stays, PoolRow, IsSource, LastCurve, LastPool;
    var d := DecodeAll(db, Start(c), logs);
    forall k ensures FitsCurve(db, c, logs, d.changes, k) {
      CurvesAfter(db, Start(c), logs, k);
      var last := LastCurve(db, Start(c), logs, k);
      if last.Some? { OnceKept(db, d, events, name, w, after, last.value); }
    }
    forall k ensures FitsPool(db, c, logs, d.changes, k) {
      PoolsAfter(db, Start(c), logs, k);
      var last := LastPool(db, Start(c), logs, k);
      if last.Some? { OncePoolFits(db, d, events, name, w, after, last.value, k); }
    }
    forall k | k in c.pools ensures Stays(d.changes, k, c.pools[k]) {
      OnceStays(db, d, k, c.pools[k]);
    }
  }

  lemma StartPlansOnce(db: Db, c: Catalog, logs: seq<Log>)
    ensures PlansOnce(db, Start(c)) && Apart(Start(c), logs)
  {
  }

  /** Where every token is created once and graduates to one pool, a block that succeeds, or fails and
      is restored, leaves the catalog exactly as a rebuild from the tables would make it. */
  lemma BlockKeepsRebuilds(db: Db, c: Catalog, b: Block, db': Db, c': Catalog, ok: bool)
    requires Rebuilds(c, db) && FreshLogs(b.logs) && OncePerToken(db, b.logs)
    requires BlockStep(db, c, b, db', c', ok) && (ok || !b.restoreFails)
    ensures Rebuilds(c', db')
  {
    hide DecodeAll, Apply, Planned, Rebuilds, Faithful, PlansOnce, OncePerToken, Apart;
    BlockRebuildsExactly(db, c, b, db', c', ok);
    if ok {
      StartIsPlanned(db, c);
      DecodeAllKeepsPlanned(db, Start(c), b.logs);
      StartPlansOnce(db, c, b.logs);
      DecodeAllPlansOnce(db, Start(c), b.logs);
      OnceIsFaithful(db, c, b.logs, b.events, b.name, b.state, db');
    }
  }

  /** Over every run in which tokens are created once and graduate to one pool and no restore fails,
      the catalog is at every moment what a rebuild would give. */
  lemma {:induction false} EveryRunRebuilds(moments: seq<Moment>, blocks: seq<Block>, oks: seq<bool>, n: nat)
    requires History(moments, blocks, oks) && n <= |blocks|
    requires forall i :: 0 <= i < |blocks| ==>
      OncePerToken(moments[i].db, blocks[i].logs) && (oks[i] || !blocks[i].restoreFails)
    requires Rebuilds(moments[0].catalog, moments[0].db)
    ensures Rebuilds(moments[n].catalog, moments[n].db)
  {
    hide BlockStep, Rebuilds, FreshLogs, OncePerToken;
    if n > 0 {
      EveryRunRebuilds(moments, blocks, oks, n - 1);
      var before, after := moments[n - 1], moments[n];
      BlockKeepsRebuilds(before.db, before.catalog, blocks[n - 1], after.db, after.catalog, oks[n - 1]);
    }
  }

  // ----- Two ways to fail -----

  /** A token created twice in one block registers both curves, while the tables keep the first launch only. */
  lemma CreatedTwiceWitness(w: SyncState)
    ensures var row := PonsRow("curve1", "pair", 18, OnCurve, None, None, "tx", 0);
      var l1, l2 := PonsLaunch("token", row), PonsLaunch("token", row.(curve := "curve2", log := 1));
      var db, c := Db(map[], map[], map[], map[], map[], map[]), Catalog(map[], map[]);
      var d := DecodeAll(db, Start(c), [Created(l1, false, false), Created(l2, false, false)]);
      && Rebuilds(c, db) && !d.failed && Apply(db, d.changes, "sync", w).Ok?
      && "curve2" in d.catalog.curves && !Rebuilds(d.catalog, Apply(db, d.changes, "sync", w).value.db)
  {
    var row := PonsRow("curve1", "pair", 18, OnCurve, None, None, "tx", 0);
    var l1, l2 := PonsLaunch("token", row), PonsLaunch("token", row.(curve := "curve2", log := 1));
    var db, c := Db(map[], map[], map[], map[], map[], map[]), Catalog(map[], map[]);
    var logs := [Created(l1, false, false), Created(l2, false, false)];
    var d1 := Decode(db, Start(c), logs[0]);
    var d := Decode(db, d1, logs[1]);
    assert logs[1..] == [logs[1]] && logs[1..][1..] == [];
    assert DecodeAll(db, d, []) == d && DecodeAll(db, d1, logs[1..]) == d;
    assert d.changes.pons == [l1, l2] && d.changes.pons[1..] == [l2] && [l2][1..] == [];
    var t1 := AddLaunch(Begin(db), l1).value;
    assert AddAllLaunches(t1, [l2]) == Ok(t1) by { assert AddAllLaunches(t1, []) == Ok(t1); }
    assert AddAllLaunches(Begin(db), [l1, l2]) == Ok(t1);
    var after := Apply(db, d.changes, "sync", w).value.db;
    assert after.pons == t1.db.pons && d.catalog.curves["curve2"] == CurveReg("token", "pair", 18);
    assert !CurveRow(after, "curve2", d.catalog.curves["curve2"]);
  }

  const STORED_ROW := PonsRow("curve", "pair1", 18, OnCurve, None, None, "tx", 0)

  const CREATED_AGAIN := PonsLaunch("token", STORED_ROW.(pair := "pair2", log := 1))

  const GRADUATED := Graduation("token", "pool", 5)

  function StoredOnce(): Db
  {
    Db(map["token" := IndexRow(Pons, Active)], map["token" := STORED_ROW], map[], map[], map[], map[])
  }

  function RegisteredOnce(): Catalog { Catalog(map[], map["curve" := CurveReg("token", "pair1", 18)]) }

  lemma WitnessDecodes()
    ensures
      var logs := [Created(CREATED_AGAIN, false, false), GraduatedOn(GRADUATED, false)];
      var catalog :=
        Catalog(map["pool" := PoolReg("token", Pons, "pair2", 18)], map["curve" := CurveReg("token", "pair2", 18)]);
      DecodeAll(StoredOnce(), Start(RegisteredOnce()), logs) ==
      Draft(catalog, Changes([CREATED_AGAIN], [], [GRADUATED], []), map["token" := Pons], false)
  {
    var db, d0 := StoredOnce(), Start(RegisteredOnce());
    var logs := [Created(CREATED_AGAIN, false, false), GraduatedOn(GRADUATED, false)];
    var d1 := Decode(db, d0, logs[0]);
    var d2 := Decode(db, d1, logs[1]);
    assert logs[1..] == [logs[1]] && logs[1..][1..] == [];
    assert d1.changes.pons == [CREATED_AGAIN];
    assert DecodeAll(db, d2, []) == d2 && DecodeAll(db, d1, logs[1..]) == d2;
  }

  lemma WitnessCommits(w: SyncState)
    ensures var r := Apply(StoredOnce(), Changes([CREATED_AGAIN], [], [GRADUATED], []), "sync", w);
      && r.Ok? && "token" in r.value.db.pons
      && r.value.db.pons["token"] == STORED_ROW.(phase := Done, graduatedAt := Some(5), pool := Some("pool"))
  {
    hide AddEvent;
    var db := StoredOnce();
    assert [CREATED_AGAIN][1..] == [] && [GRADUATED][1..] == [];
    assert AddLaunch(Begin(db), CREATED_AGAIN) == Ok(Begin(db));
    assert AddAllLaunches(Begin(db), []) == Ok(Begin(db));
    assert AddAllLaunches(Begin(db), [CREATED_AGAIN]) == Ok(Begin(db));
    assert GraduateAll(Graduate(db, GRADUATED), []) == Graduate(db, GRADUATED);
    assert GraduateAll(db, [GRADUATED]) == Graduate(db, GRADUATED);
  }

  /** A stored token is created again with another pair and then graduates: the graduation is given the row of the
      block, so that the pool is registered with a pair that does not stay. */
  lemma RecreatedThenGraduatedWitness(w: SyncState)
    ensures Rebuilds(RegisteredOnce(), StoredOnce()) && Consistent(StoredOnce())
    ensures var d := DecodeAll(StoredOnce(), Start(RegisteredOnce()),
        [Created(CREATED_AGAIN, false, false), GraduatedOn(GRADUATED, false)]);
      var r := Apply(StoredOnce(), d.changes, "sync", w);
      && !d.failed && r.Ok? && "pool" in d.catalog.pools && "token" in r.value.db.pons
      && r.value.db.pons["token"].pool == Some("pool")
      && d.catalog.pools["pool"].quote == "pair2" && r.value.db.pons["token"].pair == "pair1"
      && !Rebuilds(d.catalog, r.value.db)
  {
    hide DecodeAll, Apply;
    WitnessDecodes();
    WitnessCommits(w);
    var d := DecodeAll(StoredOnce(), Start(RegisteredOnce()),
      [Created(CREATED_AGAIN, false, false), GraduatedOn(GRADUATED, false)]);
    var after := Apply(StoredOnce(), d.changes, "sync", w).value.db;
    assert !PoolRow(after, "pool", d.catalog.pools["pool"]);
  }
}
