/** What decoding a block plans and registers, read off its logs and the tables it found. */
module DecodeLaws {
  import opened Prelude
  import opened Tables
  import opened Registrations

  // ----- Which logs count -----

  /** The first creation of the block that names its token. */
  predicate FirstCreation(logs: seq<Log>, j: nat)
  {
    j < |logs| && logs[j].Created? && forall k :: 0 <= k < j ==> !Creates(logs[k], logs[j].launch.token)
  }

  predicate Creates(log: Log, token: Address) { log.Created? && log.launch.token == token }

  /** The first creation of a token, up to log i, has this category. */
  ghost predicate StartedAs(logs: seq<Log>, i: nat, token: Address, k: Category)
  {
    exists j: nat :: j <= i && FirstCreation(logs, j) && logs[j].launch.token == token && logs[j].launch.Category() == k
  }

  /** Log i is a creation under the category that its token has in the directory or, if it is new, at its first
      creation in the block. */
  ghost predicate TakenAt(db: Db, logs: seq<Log>, i: nat)
  {
    && i < |logs| && logs[i].Created?
    && var l := logs[i].launch;
       if l.token in db.index then db.index[l.token].category == l.Category()
       else StartedAs(logs, i, l.token, l.Category())
  }

  /** Log i takes up a Pons creation of the token. */
  ghost predicate PonsAt(db: Db, logs: seq<Log>, i: nat, token: Address)
  {
    TakenAt(db, logs, i) && logs[i].launch.PonsLaunch? && logs[i].launch.token == token
  }

  /** Before log n the token was taken up, under another category than k. */
  ghost predicate TakenElsewhere(db: Db, logs: seq<Log>, n: nat, token: Address, k: Category)
  {
    exists j: nat :: j < n && TakenAt(db, logs, j) && logs[j].launch.token == token && logs[j].launch.Category() != k
  }

  /** Log i makes the block fail: its category check, where that is asked, its metadata call or its look-up does. */
  ghost predicate Breaks(db: Db, logs: seq<Log>, i: nat)
  {
    i < |logs| && match logs[i]
      case Unrelated => false
      case Created(l, checkFails, metadataFails) =>
        || (checkFails && !TakenElsewhere(db, logs, i, l.token, l.Category()))
        || (metadataFails && TakenAt(db, logs, i))
      case GraduatedOn(_, lookupFails) => lookupFails
  }

  ghost predicate SomeBreaks(db: Db, logs: seq<Log>, n: nat)
  {
    exists i: nat :: i < n && Breaks(db, logs, i)
  }

  /** The Pons row that goes with a token at log n: that of its first creation before it in the block, else the stored
      one. */
  ghost predicate RowAt(db: Db, logs: seq<Log>, n: nat, token: Address, row: PonsRow)
  {
    if HasPons(db, logs, n, token) then
      exists j: nat :: j < n && FirstPonsAt(db, logs, j, token) && logs[j].launch.pons == row
    else token in db.pons && row == db.pons[token]
  }

  ghost predicate HasPons(db: Db, logs: seq<Log>, n: nat, token: Address)
  {
    exists j: nat :: j < n && PonsAt(db, logs, j, token)
  }

  ghost predicate FirstPonsAt(db: Db, logs: seq<Log>, j: nat, token: Address)
  {
    PonsAt(db, logs, j, token) && forall k: nat :: k < j ==> !PonsAt(db, logs, k, token)
  }

  /** Log i is a graduation of a token that has a stored Pons row or was created before it in the block. */
  ghost predicate GraduatesAt(db: Db, logs: seq<Log>, i: nat)
  {
    && i < |logs| && logs[i].GraduatedOn?
    && (logs[i].graduation.token in db.pons || HasPons(db, logs, i, logs[i].graduation.token))
  }

  // ----- The plan -----

  ghost function PlannedPons(db: Db, logs: seq<Log>, n: nat): seq<Launched>
    requires n <= |logs|
  {
    if n == 0 then []
    else
      PlannedPons(db, logs, n - 1) +
      if TakenAt(db, logs, n - 1) && logs[n - 1].launch.PonsLaunch? then [logs[n - 1].launch] else []
  }

  ghost function PlannedO1(db: Db, logs: seq<Log>, n: nat): seq<Launched>
    requires n <= |logs|
  {
    if n == 0 then []
    else
      PlannedO1(db, logs, n - 1) +
      if TakenAt(db, logs, n - 1) && logs[n - 1].launch.O1Launch? then [logs[n - 1].launch] else []
  }

  ghost function PlannedGraduations(db: Db, logs: seq<Log>, n: nat): seq<Graduation>
    requires n <= |logs|
  {
    if n == 0 then []
    else
      PlannedGraduations(db, logs, n - 1) + if GraduatesAt(db, logs, n - 1) then [logs[n - 1].graduation] else []
  }

  ghost function PlanOf(db: Db, logs: seq<Log>, n: nat): Changes
    requires n <= |logs|
  {
    Changes(PlannedPons(db, logs, n), PlannedO1(db, logs, n), PlannedGraduations(db, logs, n), [])
  }

  // ----- What gets registered -----

  /** Log i registers the curve with the pair of its creation. */
  ghost predicate CurveAt(db: Db, logs: seq<Log>, i: nat, curve: Address, reg: CurveReg)
  {
    && TakenAt(db, logs, i) && logs[i].launch.PonsLaunch? && logs[i].launch.pons.curve == curve
    && reg == CurveReg(logs[i].launch.token, logs[i].launch.pons.pair, logs[i].launch.pons.pairDecimals)
  }

  /** Log i registers the pool: an o1 creation with its quote, a graduation with the pair of the row of its token. */
  ghost predicate PoolAt(db: Db, logs: seq<Log>, i: nat, pool: Hash, reg: PoolReg)
  {
    || (&& TakenAt(db, logs, i) && logs[i].launch.O1Launch? && logs[i].launch.o1.pool == pool
        && reg == PoolReg(logs[i].launch.token, O1Crypto, logs[i].launch.o1.quote, logs[i].launch.o1.quoteDecimals))
    || (&& GraduatesAt(db, logs, i) && logs[i].graduation.pool == pool
        && GraduationReg(db, logs, i, logs[i].graduation.token, reg))
  }

  ghost predicate GraduationReg(db: Db, logs: seq<Log>, i: nat, token: Address, reg: PoolReg)
  {
    exists row :: RowAt(db, logs, i, token, row) && reg == PoolReg(token, Pons, row.pair, row.pairDecimals)
  }

  ghost predicate RegistersCurveAt(db: Db, logs: seq<Log>, i: nat, curve: Address)
  {
    exists reg :: CurveAt(db, logs, i, curve, reg)
  }

  ghost predicate RegistersPoolAt(db: Db, logs: seq<Log>, i: nat, pool: Hash)
  {
    exists reg :: PoolAt(db, logs, i, pool, reg)
  }

  /** Among the first n logs, i is the last to register the curve. */
  ghost predicate LastCurveAt(db: Db, logs: seq<Log>, n: nat, i: nat, curve: Address, reg: CurveReg)
  {
    i < n && CurveAt(db, logs, i, curve, reg) && forall j: nat :: i < j < n ==> !RegistersCurveAt(db, logs, j, curve)
  }

  ghost predicate LastPoolAt(db: Db, logs: seq<Log>, n: nat, i: nat, pool: Hash, reg: PoolReg)
  {
    i < n && PoolAt(db, logs, i, pool, reg) && forall j: nat :: i < j < n ==> !RegistersPoolAt(db, logs, j, pool)
  }

  ghost predicate SameAt<K, V>(a: map<K, V>, b: map<K, V>, k: K)
  {
    (k in a <==> k in b) && (k in a ==> a[k] == b[k])
  }

  /** The curve is as the last of the first n logs to register it says, or as it was. */
  ghost predicate CurveIs(db: Db, c: Catalog, logs: seq<Log>, n: nat, after: Catalog, k: Address)
  {
    || (k in after.curves && exists i: nat :: LastCurveAt(db, logs, n, i, k, after.curves[k]))
    || (SameAt(c.curves, after.curves, k) && forall i: nat :: i < n ==> !RegistersCurveAt(db, logs, i, k))
  }

  ghost predicate PoolIs(db: Db, c: Catalog, logs: seq<Log>, n: nat, after: Catalog, k: Hash)
  {
    || (k in after.pools && exists i: nat :: LastPoolAt(db, logs, n, i, k, after.pools[k]))
    || (SameAt(c.pools, after.pools, k) && forall i: nat :: i < n ==> !RegistersPoolAt(db, logs, i, k))
  }

  ghost predicate CatalogIs(db: Db, c: Catalog, logs: seq<Log>, n: nat, after: Catalog)
  {
    (forall k :: CurveIs(db, c, logs, n, after, k)) && (forall k :: PoolIs(db, c, logs, n, after, k))
  }

  // ----- Log by log -----

  /** The categories taken up by the first n logs. */
  ghost predicate PendingIs(db: Db, logs: seq<Log>, n: nat, pending: map<Address, Category>)
  {
    && (forall j: nat :: j < n && TakenAt(db, logs, j) ==>
         logs[j].launch.token in pending && pending[logs[j].launch.token] == logs[j].launch.Category())
    && (forall t :: t in pending ==> TakenUpBy(db, logs, n, t))
  }

  ghost predicate TakenUpBy(db: Db, logs: seq<Log>, n: nat, token: Address)
  {
    exists j: nat :: j < n && TakenAt(db, logs, j) && logs[j].launch.token == token
  }

  /** The draft after the first n logs. */
  ghost predicate Drafted(db: Db, c: Catalog, logs: seq<Log>, n: nat, d: Draft)
  {
    && n <= |logs| && !d.failed && PendingIs(db, logs, n, d.pending)
    && d.changes == PlanOf(db, logs, n)
    && CatalogIs(db, c, logs, n, d.catalog)
  }

  /** All creations of a token that are taken up have one category. */
  lemma OneCategory(db: Db, logs: seq<Log>, i: nat, j: nat)
    requires TakenAt(db, logs, i) && TakenAt(db, logs, j) && logs[i].launch.token == logs[j].launch.token
    ensures logs[i].launch.Category() == logs[j].launch.Category()
  {
    var token := logs[i].launch.token;
    if token !in db.index {
      var a: nat :| a <= i && FirstCreation(logs, a) && logs[a].launch.token == token
        && logs[a].launch.Category() == logs[i].launch.Category();
      var b: nat :| b <= j && FirstCreation(logs, b) && logs[b].launch.token == token
        && logs[b].launch.Category() == logs[j].launch.Category();
      assert Creates(logs[a], token) && Creates(logs[b], token);
      assert a == b;
    }
  }

  lemma {:induction false} HasFirst(logs: seq<Log>, n: nat, token: Address) returns (j: nat)
    requires n <= |logs| && exists i :: 0 <= i < n && Creates(logs[i], token)
    ensures j < n && FirstCreation(logs, j) && logs[j].launch.token == token
  {
    if i :| 0 <= i < n - 1 && Creates(logs[i], token) {
      j := HasFirst(logs, n - 1, token);
    } else {
      j := n - 1;
    }
  }

  /** A creation is taken up exactly where decoding accepts it. */
  lemma AcceptedIsTaken(db: Db, logs: seq<Log>, n: nat, pending: map<Address, Category>)
    requires n < |logs| && logs[n].Created? && PendingIs(db, logs, n, pending)
    ensures TakenAt(db, logs, n) <==> Accepts(db, pending, logs[n].launch.token, logs[n].launch.Category())
    ensures var l := logs[n].launch;
      TakenElsewhere(db, logs, n, l.token, l.Category()) <==> l.token in pending && pending[l.token] != l.Category()
  {
    var l := logs[n].launch;
    if l.token in pending {
      var j := Taker(db, logs, n, l.token);
      hide TakenAt;
      TakenAgain(db, logs, j, n);
    } else {
      if l.token in db.index { InDirectory(db, logs, n); } else { NotTakenIsFirst(db, logs, n); }
    }
  }

  lemma Taker(db: Db, logs: seq<Log>, n: nat, token: Address) returns (j: nat)
    requires TakenUpBy(db, logs, n, token)
    ensures j < n && j < |logs| && TakenAt(db, logs, j) && logs[j].Created? && logs[j].launch.token == token
  {
    j :| j < n && TakenAt(db, logs, j) && logs[j].launch.token == token;
  }

  lemma InDirectory(db: Db, logs: seq<Log>, n: nat)
    requires n < |logs| && logs[n].Created? && logs[n].launch.token in db.index
    ensures TakenAt(db, logs, n) <==> db.index[logs[n].launch.token].category == logs[n].launch.Category()
  {
  }

  lemma TakenAgain(db: Db, logs: seq<Log>, j: nat, n: nat)
    requires j < n < |logs| && TakenAt(db, logs, j) && Creates(logs[n], logs[j].launch.token)
    ensures TakenAt(db, logs, n) <==> logs[n].launch.Category() == logs[j].launch.Category()
    ensures logs[n].launch.token in db.index ==>
      db.index[logs[n].launch.token].category == logs[j].launch.Category()
  {
    if TakenAt(db, logs, n) { OneCategory(db, logs, j, n); }
  }

  lemma NotTakenIsFirst(db: Db, logs: seq<Log>, n: nat)
    requires n < |logs| && logs[n].Created? && logs[n].launch.token !in db.index
    requires !TakenUpBy(db, logs, n, logs[n].launch.token)
    ensures TakenAt(db, logs, n)
  {
    var token := logs[n].launch.token;
    if i :| 0 <= i < n && Creates(logs[i], token) {
      var j := HasFirst(logs, n, token);
      assert StartedAs(logs, j, token, logs[j].launch.Category());
      assert TakenAt(db, logs, j);
    }
    assert StartedAs(logs, n, token, logs[n].launch.Category());
  }

  predicate Holds(ls: seq<Launched>, token: Address)
  {
    exists k :: 0 <= k < |ls| && ls[k].PonsLaunch? && ls[k].token == token
  }

  lemma {:induction false} LookUpIn(db: Db, ls: seq<Launched>, l: Launched, token: Address)
    ensures LaunchOf(db, ls + [l], token) ==
      if !Holds(ls, token) && l.PonsLaunch? && l.token == token then Some(l.pons) else LaunchOf(db, ls, token)
    decreases |ls|
  {
    if ls == [] {
      assert [] + [l] == [l] && [l][1..] == [];
      assert LaunchOf(db, [l][1..], token) == LaunchOf(db, [], token);
    } else {
      assert (ls + [l])[0] == ls[0] && (ls + [l])[1..] == ls[1..] + [l];
      LookUpIn(db, ls[1..], l, token);
      HoldsTail(ls, token);
    }
  }

  lemma HoldsTail(ls: seq<Launched>, token: Address)
    requires ls != []
    ensures Holds(ls, token) <==> (ls[0].PonsLaunch? && ls[0].token == token) || Holds(ls[1..], token)
  {
    if k :| 0 <= k < |ls[1..]| && ls[1..][k].PonsLaunch? && ls[1..][k].token == token {
      assert ls[k + 1].PonsLaunch? && ls[k + 1].token == token;
    }
    if k :| 0 <= k < |ls| && ls[k].PonsLaunch? && ls[k].token == token {
      assert k > 0 ==> ls[1..][k - 1] == ls[k];
    }
  }

  lemma HoldsAppend(ls: seq<Launched>, l: Launched, token: Address)
    ensures Holds(ls + [l], token) <==> Holds(ls, token) || (l.PonsLaunch? && l.token == token)
  {
    if k :| 0 <= k < |ls| && ls[k].PonsLaunch? && ls[k].token == token {
      assert (ls + [l])[k] == ls[k];
    }
    assert (ls + [l])[|ls|] == l;
  }

  /** The look-up of a graduation finds a row exactly when its token has one, and then the right one. */
  lemma {:induction false} LookUpIsRow(db: Db, logs: seq<Log>, n: nat, token: Address)
    requires n <= |logs|
    ensures Holds(PlannedPons(db, logs, n), token) <==> HasPons(db, logs, n, token)
    ensures var r := LaunchOf(db, PlannedPons(db, logs, n), token);
      && (r.Some? <==> token in db.pons || HasPons(db, logs, n, token))
      && (r.Some? ==> RowAt(db, logs, n, token, r.value))
  {
    hide TakenAt, RowAt;
    if n == 0 {
      NoRowYet(db, logs, token);
    } else {
      LookUpIsRow(db, logs, n - 1, token);
      var before, l := PlannedPons(db, logs, n - 1), logs[n - 1];
      HasOneMore(db, logs, n, token);
      var r := LaunchOf(db, before, token);
      if r.Some? { RowOneMore(db, logs, n, token, r.value); }
      TakenIsCreated(db, logs, n - 1);
      if TakenAt(db, logs, n - 1) && l.launch.PonsLaunch? {
        LookUpIn(db, before, l.launch, token);
        HoldsAppend(before, l.launch, token);
        if PonsAt(db, logs, n - 1, token) { RowOneMore(db, logs, n, token, l.launch.pons); }
      } else {
        assert before + [] == before;
      }
    }
  }

  lemma TakenIsCreated(db: Db, logs: seq<Log>, i: nat)
    ensures TakenAt(db, logs, i) ==> i < |logs| && logs[i].Created?
  {
  }

  lemma NoRowYet(db: Db, logs: seq<Log>, token: Address)
    ensures !HasPons(db, logs, 0, token) && !Holds([], token)
    ensures token in db.pons ==> RowAt(db, logs, 0, token, db.pons[token])
  {
  }

  lemma HasOneMore(db: Db, logs: seq<Log>, n: nat, token: Address)
    requires 0 < n <= |logs|
    ensures HasPons(db, logs, n, token) <==> HasPons(db, logs, n - 1, token) || PonsAt(db, logs, n - 1, token)
  {
    hide PonsAt;
    if j: nat :| j < n && PonsAt(db, logs, j, token) {
      assert j < n - 1 || j == n - 1;
    }
  }

  lemma RowOneMore(db: Db, logs: seq<Log>, n: nat, token: Address, row: PonsRow)
    requires 0 < n <= |logs|
    ensures var has, adds := HasPons(db, logs, n - 1, token), PonsAt(db, logs, n - 1, token);
      && (RowAt(db, logs, n - 1, token, row) && (has || !adds) ==> RowAt(db, logs, n, token, row))
      && (adds && !has && row == logs[n - 1].launch.pons ==> RowAt(db, logs, n, token, row))
  {
    hide TakenAt;
    HasOneMore(db, logs, n, token);
    if PonsAt(db, logs, n - 1, token) && !HasPons(db, logs, n - 1, token) {
      assert FirstPonsAt(db, logs, n - 1, token);
    }
  }

  // ----- One log -----

  lemma CurveOneMore(db: Db, c: Catalog, logs: seq<Log>, n: nat, before: Catalog, after: Catalog, k: Address)
    requires CurveIs(db, c, logs, n, before, k)
    requires NewCurve(db, logs, n, before, after, k)
    ensures CurveIs(db, c, logs, n + 1, after, k)
  {
    hide CurveAt, RegistersCurveAt;
    if RegistersCurveAt(db, logs, n, k) {
      assert LastCurveAt(db, logs, n + 1, n, k, after.curves[k]);
    } else if k in before.curves && exists i: nat :: LastCurveAt(db, logs, n, i, k, before.curves[k]) {
      var i: nat :| LastCurveAt(db, logs, n, i, k, before.curves[k]);
      assert LastCurveAt(db, logs, n + 1, i, k, after.curves[k]);
    }
  }

  lemma PoolOneMore(db: Db, c: Catalog, logs: seq<Log>, n: nat, before: Catalog, after: Catalog, k: Hash)
    requires PoolIs(db, c, logs, n, before, k)
    requires NewPool(db, logs, n, before, after, k)
    ensures PoolIs(db, c, logs, n + 1, after, k)
  {
    hide PoolAt, RegistersPoolAt;
    if RegistersPoolAt(db, logs, n, k) {
      assert LastPoolAt(db, logs, n + 1, n, k, after.pools[k]);
    } else if k in before.pools && exists i: nat :: LastPoolAt(db, logs, n, i, k, before.pools[k]) {
      var i: nat :| LastPoolAt(db, logs, n, i, k, before.pools[k]);
      assert LastPoolAt(db, logs, n + 1, i, k, after.pools[k]);
    }
  }

  ghost predicate NewCurve(db: Db, logs: seq<Log>, n: nat, before: Catalog, after: Catalog, k: Address)
  {
    if RegistersCurveAt(db, logs, n, k) then k in after.curves && CurveAt(db, logs, n, k, after.curves[k])
    else SameAt(before.curves, after.curves, k)
  }

  ghost predicate NewPool(db: Db, logs: seq<Log>, n: nat, before: Catalog, after: Catalog, k: Hash)
  {
    if RegistersPoolAt(db, logs, n, k) then k in after.pools && PoolAt(db, logs, n, k, after.pools[k])
    else SameAt(before.pools, after.pools, k)
  }

  /** What one log does to the catalog. */
  ghost predicate Registers(db: Db, logs: seq<Log>, n: nat, before: Catalog, after: Catalog)
  {
    && (forall k :: NewCurve(db, logs, n, before, after, k))
    && (forall k :: NewPool(db, logs, n, before, after, k))
  }

  lemma CatalogOneMore(db: Db, c: Catalog, logs: seq<Log>, n: nat, before: Catalog, after: Catalog)
    requires CatalogIs(db, c, logs, n, before) && Registers(db, logs, n, before, after)
    ensures CatalogIs(db, c, logs, n + 1, after)
  {
    hide CurveIs, PoolIs, NewCurve, NewPool;
    var m := n + 1;
    forall k ensures CurveIs(db, c, logs, m, after, k) { CurveOneMore(db, c, logs, n, before, after, k); }
    forall k ensures PoolIs(db, c, logs, m, after, k) { PoolOneMore(db, c, logs, n, before, after, k); }
  }

  lemma TakenPonsRegisters(db: Db, logs: seq<Log>, n: nat, before: Catalog)
    requires n < |logs| && logs[n].Created? && TakenAt(db, logs, n) && logs[n].launch.PonsLaunch?
    ensures var l := logs[n].launch;
      Registers(db, logs, n, before, WithCurve(before, l.pons.curve, CurveOf(l.token, l.pons)))
  {
    hide TakenAt;
    var l := logs[n].launch;
    assert CurveAt(db, logs, n, l.pons.curve, CurveOf(l.token, l.pons));
  }

  lemma TakenO1Registers(db: Db, logs: seq<Log>, n: nat, before: Catalog)
    requires n < |logs| && logs[n].Created? && TakenAt(db, logs, n) && logs[n].launch.O1Launch?
    ensures var l := logs[n].launch;
      Registers(db, logs, n, before, WithPool(before, l.o1.pool, O1PoolOf(l.token, l.o1)))
  {
    hide TakenAt;
    var l := logs[n].launch;
    assert PoolAt(db, logs, n, l.o1.pool, O1PoolOf(l.token, l.o1));
  }

  lemma GraduationRegisters(db: Db, logs: seq<Log>, n: nat, before: Catalog, row: PonsRow)
    requires GraduatesAt(db, logs, n) && RowAt(db, logs, n, logs[n].graduation.token, row)
    ensures var g := logs[n].graduation;
      Registers(db, logs, n, before, WithPool(before, g.pool, PonsPoolOf(g.token, row)))
  {
    hide TakenAt, RowAt;
    TakenIsCreated(db, logs, n);
    var g := logs[n].graduation;
    assert GraduationReg(db, logs, n, g.token, PonsPoolOf(g.token, row));
    assert PoolAt(db, logs, n, g.pool, PonsPoolOf(g.token, row));
  }

  lemma OtherwiseNothing(db: Db, logs: seq<Log>, n: nat, before: Catalog)
    requires !TakenAt(db, logs, n) && !GraduatesAt(db, logs, n)
    ensures Registers(db, logs, n, before, before)
  {
  }

  lemma TakenUpStill(db: Db, logs: seq<Log>, n: nat, token: Address)
    requires TakenUpBy(db, logs, n, token)
    ensures TakenUpBy(db, logs, n + 1, token)
  {
    var j := Taker(db, logs, n, token);
  }

  lemma TakenUpNow(db: Db, logs: seq<Log>, n: nat)
    requires n < |logs| && logs[n].Created? && TakenAt(db, logs, n)
    ensures TakenUpBy(db, logs, n + 1, logs[n].launch.token)
  {
    hide TakenAt;
  }

  lemma TakenAreCreated(db: Db, logs: seq<Log>)
    ensures forall i: nat :: TakenAt(db, logs, i) ==> i < |logs| && logs[i].Created?
  {
  }

  lemma PendingOneMore(db: Db, logs: seq<Log>, n: nat, pending: map<Address, Category>)
    requires n < |logs| && PendingIs(db, logs, n, pending)
    ensures TakenAt(db, logs, n) ==>
      PendingIs(db, logs, n + 1, pending[logs[n].launch.token := logs[n].launch.Category()])
    ensures !TakenAt(db, logs, n) ==> PendingIs(db, logs, n + 1, pending)
  {
    hide TakenAt, TakenUpBy;
    TakenIsCreated(db, logs, n);
    TakenAreCreated(db, logs);
    var m, taken := n + 1, TakenAt(db, logs, n);
    var after := if taken then pending[logs[n].launch.token := logs[n].launch.Category()] else pending;
    forall j: nat | j < m && TakenAt(db, logs, j)
      ensures logs[j].launch.token in after && after[logs[j].launch.token] == logs[j].launch.Category()
    {
      if taken && logs[j].launch.token == logs[n].launch.token { OneCategory(db, logs, j, n); }
    }
    forall t | t in after ensures TakenUpBy(db, logs, m, t) {
      if t in pending { TakenUpStill(db, logs, n, t); } else { TakenUpNow(db, logs, n); }
    }
  }

  /** The plan after one more log. */
  lemma PlanOneMore(db: Db, logs: seq<Log>, n: nat)
    requires n < |logs|
    ensures var p, q := PlanOf(db, logs, n), PlanOf(db, logs, n + 1);
      if TakenAt(db, logs, n) then
        var l := logs[n].launch;
        q == if l.PonsLaunch? then p.(pons := p.pons + [l]) else p.(o1 := p.o1 + [l])
      else if GraduatesAt(db, logs, n) then q == p.(graduations := p.graduations + [logs[n].graduation])
      else q == p
  {
    hide TakenAt;
    TakenIsCreated(db, logs, n);
    assert forall x: seq<Launched> :: x + [] == x;
    assert forall x: seq<Graduation> :: x + [] == x;
  }

  lemma NothingHappens(db: Db, c: Catalog, logs: seq<Log>, n: nat, d: Draft)
    requires Drafted(db, c, logs, n, d) && n < |logs| && !TakenAt(db, logs, n) && !GraduatesAt(db, logs, n)
    ensures Drafted(db, c, logs, n + 1, d)
  {
    hide PendingIs, PlanOf, CatalogIs, Registers, TakenAt, GraduatesAt;
    PlanOneMore(db, logs, n);
    PendingOneMore(db, logs, n, d.pending);
    OtherwiseNothing(db, logs, n, d.catalog);
    CatalogOneMore(db, c, logs, n, d.catalog, d.catalog);
  }

  lemma CreationHappens(db: Db, c: Catalog, logs: seq<Log>, n: nat, d: Draft)
    requires Drafted(db, c, logs, n, d) && n < |logs| && logs[n].Created? && TakenAt(db, logs, n)
    ensures var l := logs[n].launch;
      Drafted(db, c, logs, n + 1, TakeCreation(d.(pending := d.pending[l.token := l.Category()]), l))
  {
    hide PendingIs, CatalogIs, Registers, TakenAt, PlanOf;
    var l := logs[n].launch;
    PlanOneMore(db, logs, n);
    PendingOneMore(db, logs, n, d.pending);
    var after := TakeCreation(d.(pending := d.pending[l.token := l.Category()]), l);
    if l.PonsLaunch? { TakenPonsRegisters(db, logs, n, d.catalog); } else { TakenO1Registers(db, logs, n, d.catalog); }
    CatalogOneMore(db, c, logs, n, d.catalog, after.catalog);
  }

  lemma GraduationHappens(db: Db, c: Catalog, logs: seq<Log>, n: nat, d: Draft, row: PonsRow)
    requires Drafted(db, c, logs, n, d) && n < |logs| && GraduatesAt(db, logs, n)
    requires RowAt(db, logs, n, logs[n].graduation.token, row)
    ensures var g := logs[n].graduation;
      Drafted(db, c, logs, n + 1, d.(changes := d.changes.(graduations := d.changes.graduations + [g]),
        catalog := WithPool(d.catalog, g.pool, PonsPoolOf(g.token, row))))
  {
    hide PendingIs, CatalogIs, Registers, TakenAt, RowAt, PlanOf;
    TakenIsCreated(db, logs, n);
    var g := logs[n].graduation;
    PlanOneMore(db, logs, n);
    PendingOneMore(db, logs, n, d.pending);
    GraduationRegisters(db, logs, n, d.catalog, row);
    CatalogOneMore(db, c, logs, n, d.catalog, WithPool(d.catalog, g.pool, PonsPoolOf(g.token, row)));
  }

  ghost predicate LogDecoded(db: Db, c: Catalog, logs: seq<Log>, n: nat, e: Draft)
  {
    (e.failed <==> Breaks(db, logs, n)) && (!e.failed ==> Drafted(db, c, logs, n + 1, e))
  }

  lemma OneCreation(db: Db, c: Catalog, logs: seq<Log>, n: nat, d: Draft)
    requires Drafted(db, c, logs, n, d) && n < |logs| && logs[n].Created?
    ensures LogDecoded(db, c, logs, n, Decode(db, d, logs[n]))
  {
    hide TakenAt, CatalogIs, PlanOf, Accepts, TakenElsewhere, GraduatesAt, TakeCreation, PendingIs;
    AcceptedIsTaken(db, logs, n, d.pending);
    AcceptsMeans(db, d.pending, logs[n].launch);
    if TakenAt(db, logs, n) {
      CreationHappens(db, c, logs, n, d);
      CreationSucceeds(d, logs[n].launch);
    } else {
      GraduatesIsGraduation(db, logs, n);
      NothingHappens(db, c, logs, n, d);
    }
  }

  lemma AcceptsMeans(db: Db, pending: map<Address, Category>, l: Launched)
    ensures Accepts(db, pending, l.token, l.Category()) ==> l.token in pending ==> pending[l.token] == l.Category()
  {
  }

  lemma CreationSucceeds(d: Draft, l: Launched)
    ensures TakeCreation(d.(pending := d.pending[l.token := l.Category()]), l).failed == d.failed
  {
  }

  lemma GraduatesIsGraduation(db: Db, logs: seq<Log>, n: nat)
    ensures GraduatesAt(db, logs, n) ==> n < |logs| && logs[n].GraduatedOn?
  {
  }

  lemma OneGraduation(db: Db, c: Catalog, logs: seq<Log>, n: nat, d: Draft)
    requires Drafted(db, c, logs, n, d) && n < |logs| && logs[n].GraduatedOn?
    ensures LogDecoded(db, c, logs, n, Decode(db, d, logs[n]))
  {
    hide TakenAt, CatalogIs, PendingIs, LaunchOf, RowAt, HasPons;
    TakenIsCreated(db, logs, n);
    var g := logs[n].graduation;
    LookUpIsRow(db, logs, n, g.token);
    var r := LaunchOf(db, d.changes.pons, g.token);
    if r.Some? { GraduationHappens(db, c, logs, n, d, r.value); } else { NothingHappens(db, c, logs, n, d); }
  }

  /** Decoding one more log fails exactly where the log breaks the block, and otherwise keeps the draft what the logs so
      far say. */
  lemma OneLog(db: Db, c: Catalog, logs: seq<Log>, n: nat, d: Draft)
    requires Drafted(db, c, logs, n, d) && n < |logs|
    ensures LogDecoded(db, c, logs, n, Decode(db, d, logs[n]))
  {
    hide Drafted;
    match logs[n]
    case Unrelated =>
      UnrelatedIsNothing(db, logs, n);
      assert !d.failed by { IsNotFailed(db, c, logs, n, d); }
      NothingHappens(db, c, logs, n, d);
    case Created(_, _, _) => OneCreation(db, c, logs, n, d);
    case GraduatedOn(_, _) => OneGraduation(db, c, logs, n, d);
  }

  lemma IsNotFailed(db: Db, c: Catalog, logs: seq<Log>, n: nat, d: Draft)
    requires Drafted(db, c, logs, n, d)
    ensures !d.failed
  {
  }

  lemma UnrelatedIsNothing(db: Db, logs: seq<Log>, n: nat)
    requires n < |logs| && logs[n].Unrelated?
    ensures !TakenAt(db, logs, n) && !GraduatesAt(db, logs, n) && !Breaks(db, logs, n)
  {
  }

  lemma StartIsDrafted(db: Db, c: Catalog, logs: seq<Log>)
    ensures Drafted(db, c, logs, 0, Start(c))
  {
  }

  lemma {:induction false} DecodeOneMore(db: Db, d: Draft, logs: seq<Log>, log: Log)
    ensures DecodeAll(db, d, logs + [log]) ==
      var e := DecodeAll(db, d, logs); if e.failed then e else Decode(db, e, log)
    decreases |logs|
  {
    hide Decode;
    if logs == [] {
      assert logs + [log] == [log] && [log][1..] == [];
    } else if !d.failed {
      assert (logs + [log])[0] == logs[0] && (logs + [log])[1..] == logs[1..] + [log];
      DecodeOneMore(db, Decode(db, d, logs[0]), logs[1..], log);
    }
  }

  lemma {:induction false} PrefixDecodes(db: Db, c: Catalog, logs: seq<Log>, n: nat)
    requires n <= |logs|
    ensures var d := DecodeAll(db, Start(c), logs[..n]);
      (d.failed <==> SomeBreaks(db, logs, n)) && (!d.failed ==> Drafted(db, c, logs, n, d))
  {
    hide Drafted, Decode, Breaks;
    if n == 0 {
      StartIsDrafted(db, c, logs);
      assert logs[..0] == [];
    } else {
      PrefixDecodes(db, c, logs, n - 1);
      assert logs[..n] == logs[..n - 1] + [logs[n - 1]];
      DecodeOneMore(db, Start(c), logs[..n - 1], logs[n - 1]);
      var d := DecodeAll(db, Start(c), logs[..n - 1]);
      if !d.failed { OneLog(db, c, logs, n - 1, d); }
    }
  }

  /** Decoding, read off the logs and the tables: the block fails exactly when some log breaks it. Otherwise the plan
      has the creations taken up, which are those under the category of their token, and the graduations of tokens that
      have a stored Pons row or were created before in the block, in the order of the logs; and each curve and pool is
      registered as the last of these logs that names it says, a graduation with the pair of the first creation of its
      token in the block, else that of the stored row, or is left as it was. */
  lemma DecodingMeans(db: Db, c: Catalog, logs: seq<Log>)
    ensures var d := DecodeAll(db, Start(c), logs);
      && (d.failed <==> SomeBreaks(db, logs, |logs|))
      && (!d.failed ==> d.changes == PlanOf(db, logs, |logs|))
      && (!d.failed ==> CatalogIs(db, c, logs, |logs|, d.catalog))
  {
    hide CatalogIs, PlanOf, Decode;
    PrefixDecodes(db, c, logs, |logs|);
    assert logs[..|logs|] == logs;
  }
}
