/** Runtime registrations: the in-memory index of pools and curves is changed while a block is decoded,
    must be what the committed tables would rebuild, and is restored when the block fails. */
module Registrations {
  import opened Prelude
  import opened Tables

  datatype PoolReg = PoolReg(token: Address, category: Category, quote: Address, quoteDecimals: nat)

  datatype CurveReg = CurveReg(token: Address, quote: Address, quoteDecimals: nat)

  datatype Catalog = Catalog(pools: map<Hash, PoolReg>, curves: map<Address, CurveReg>)

  /** A routed log as decoded; creations carry whether the category check or the metadata call fails,
      graduations whether looking up the launch fails. */
  datatype Log =
    | Created(launch: Launched, checkFails: bool, metadataFails: bool)
    | GraduatedOn(graduation: Graduation, lookupFails: bool)
    | Unrelated

  /** A block being decoded. */
  datatype Draft = Draft(catalog: Catalog, changes: Changes, pending: map<Address, Category>, failed: bool)

  function Start(c: Catalog): Draft
  {
    Draft(c, Changes([], [], [], []), map[], false)
  }

  /** A creation is taken up unless the block or the directory already has the token under another category. */
  predicate Accepts(db: Db, pending: map<Address, Category>, token: Address, incoming: Category)
  {
    && !(token in pending && pending[token] != incoming)
    && !(token in db.index && db.index[token].category != incoming)
  }

  function WithCurve(c: Catalog, curve: Address, reg: CurveReg): Catalog
  {
    c.(curves := c.curves[curve := reg])
  }

  function WithPool(c: Catalog, pool: Hash, reg: PoolReg): Catalog
  {
    c.(pools := c.pools[pool := reg])
  }

  function CurveOf(token: Address, row: PonsRow): CurveReg { CurveReg(token, row.pair, row.pairDecimals) }

  function PonsPoolOf(token: Address, row: PonsRow): PoolReg { PoolReg(token, Pons, row.pair, row.pairDecimals) }

  function O1PoolOf(token: Address, row: O1Row): PoolReg { PoolReg(token, O1Crypto, row.quote, row.quoteDecimals) }

  /** The launch a graduation belongs to: the first of this block, else the stored one. */
  function LaunchOf(db: Db, pending: seq<Launched>, token: Address): (r: Option<PonsRow>)
    decreases |pending|
  {
    if pending != [] then
      if pending[0].PonsLaunch? && pending[0].token == token then Some(pending[0].pons)
      else LaunchOf(db, pending[1..], token)
    else if token in db.pons then Some(db.pons[token])
    else None
  }

  function TakeCreation(d: Draft, l: Launched): Draft
  {
    match l
    case PonsLaunch(token, row) =>
      d.(changes := d.changes.(pons := d.changes.pons + [l]),
         catalog := WithCurve(d.catalog, row.curve, CurveOf(token, row)))
    case O1Launch(token, row) =>
      d.(changes := d.changes.(o1 := d.changes.o1 + [l]),
         catalog := WithPool(d.catalog, row.pool, O1PoolOf(token, row)))
  }

  function Decode(db: Db, d: Draft, log: Log): Draft
  {
    match log
    case Unrelated => d
    case Created(l, checkFails, metadataFails) =>
      if l.token in d.pending && d.pending[l.token] != l.Category() then d
      else if checkFails then d.(failed := true)
      else if !Accepts(db, d.pending, l.token, l.Category()) then d
      else
        var d' := d.(pending := d.pending[l.token := l.Category()]);
        if metadataFails then d'.(failed := true) else TakeCreation(d', l)
    case GraduatedOn(g, lookupFails) =>
      if lookupFails then d.(failed := true)
      else match LaunchOf(db, d.changes.pons, g.token)
        case None => d
        case Some(row) =>
          d.(changes := d.changes.(graduations := d.changes.graduations + [g]),
             catalog := WithPool(d.catalog, g.pool, PonsPoolOf(g.token, row)))
  }

  function DecodeAll(db: Db, d: Draft, logs: seq<Log>): Draft
    decreases |logs|
  {
    if logs == [] || d.failed then d else DecodeAll(db, Decode(db, d, logs[0]), logs[1..])
  }

  // ----- What the tables would rebuild -----

  ghost predicate CurveRow(db: Db, curve: Address, reg: CurveReg)
  {
    reg.token in db.pons && db.pons[reg.token].curve == curve && reg == CurveOf(reg.token, db.pons[reg.token])
  }

  ghost predicate PoolRow(db: Db, pool: Hash, reg: PoolReg)
  {
    || (&& reg.token in db.pons && db.pons[reg.token].pool == Some(pool)
        && reg == PonsPoolOf(reg.token, db.pons[reg.token]))
    || (reg.token in db.o1 && db.o1[reg.token].pool == pool && reg == O1PoolOf(reg.token, db.o1[reg.token]))
  }

  /** Every key of the tables is registered. */
  ghost predicate Covers(c: Catalog, db: Db)
  {
    && (forall t :: t in db.pons ==> db.pons[t].curve in c.curves)
    && (forall t :: t in db.pons && db.pons[t].pool.Some? ==> db.pons[t].pool.value in c.pools)
    && (forall t :: t in db.o1 ==> db.o1[t].pool in c.pools)
  }

  /** The catalog is what a rebuild gives: the keys of the tables, each with the data of one of its rows. */
  ghost predicate Rebuilds(c: Catalog, db: Db)
  {
    && Covers(c, db)
    && (forall k :: k in c.curves ==> CurveRow(db, k, c.curves[k]))
    && (forall k :: k in c.pools ==> PoolRow(db, k, c.pools[k]))
  }

  /** A failing or conflicting block restores the catalog, unless reading the tables or the decimals fails. */
  ghost predicate Restored(before: Catalog, db: Db, after: Catalog, fails: bool)
  {
    if fails then after == before else Rebuilds(after, db)
  }

  /** One block: its logs and events, how the commit ends, after how many items it fails if it does, and whether
      a restore would fail. */
  datatype Block = Block(
    logs: seq<Log>, events: seq<Event>, name: string, state: SyncState,
    outcome: Outcome, failsAt: nat, restoreFails: bool)

  ghost predicate BlockStep(db: Db, c: Catalog, b: Block, db': Db, c': Catalog, ok: bool)
  {
    var d := DecodeAll(db, Start(c), b.logs);
    if d.failed then db' == db && !ok && Restored(d.catalog, db, c', b.restoreFails)
    else match Apply(db, d.changes.(events := b.events), b.name, b.state)
      case Err(_) => db' == db && !ok && Restored(d.catalog, db, c', b.restoreFails)
      case Ok(t) =>
        match b.outcome
        case Succeeds =>
          && db' == t.db && ok
          && if t.conflicts != [] then Restored(d.catalog, t.db, c', b.restoreFails) else c' == d.catalog
        case Fails => db' == db && !ok && Restored(d.catalog, db, c', b.restoreFails)
        case LostAnswer => db' == t.db && !ok && Restored(d.catalog, t.db, c', b.restoreFails)
  }

  // ----- The program -----

  class RuntimeCatalog {
    var pools: map<Hash, PoolReg>
    var curves: map<Address, CurveReg>

    constructor ()
      ensures View() == Catalog(map[], map[])
    {
      pools, curves := map[], map[];
    }

    ghost function View(): Catalog
      reads this
    {
      Catalog(pools, curves)
    }

    method RegisterPool(pool: Hash, reg: PoolReg)
      modifies this`pools
      ensures View() == WithPool(old(View()), pool, reg)
    {
      pools := pools[pool := reg];
    }

    method RegisterCurve(curve: Address, reg: CurveReg)
      modifies this`curves
      ensures View() == WithCurve(old(View()), curve, reg)
    {
      curves := curves[curve := reg];
    }

    /** Replace everything by the rows read from the store; of rows with one key the last one stays. */
    method RebuildRegistrations(poolRows: seq<(Hash, PoolReg)>, curveRows: seq<(Address, CurveReg)>)
      modifies this
      ensures forall k :: k in pools <==> exists i :: 0 <= i < |poolRows| && poolRows[i].0 == k
      ensures forall k :: k in pools ==> (k, pools[k]) in poolRows
      ensures forall k :: k in curves <==> exists i :: 0 <= i < |curveRows| && curveRows[i].0 == k
      ensures forall k :: k in curves ==> (k, curves[k]) in curveRows
    {
      var nextPools: map<Hash, PoolReg> := map[];
      var nextCurves: map<Address, CurveReg> := map[];
      for i := 0 to |poolRows|
        invariant forall k :: k in nextPools <==> exists j :: 0 <= j < i && poolRows[j].0 == k
        invariant forall k :: k in nextPools ==> (k, nextPools[k]) in poolRows
      {
        nextPools := nextPools[poolRows[i].0 := poolRows[i].1];
        assert (poolRows[i].0, poolRows[i].1) == poolRows[i];
      }
      for i := 0 to |curveRows|
        invariant forall k :: k in nextCurves <==> exists j :: 0 <= j < i && curveRows[j].0 == k
        invariant forall k :: k in nextCurves ==> (k, nextCurves[k]) in curveRows
      {
        nextCurves := nextCurves[curveRows[i].0 := curveRows[i].1];
        assert (curveRows[i].0, curveRows[i].1) == curveRows[i];
      }
      pools, curves := nextPools, nextCurves;
    }
  }

  /** The rows a rebuild reads, in whatever order the tables return them. */
  method LoadRegistrations(db: Db) returns (pools: seq<(Hash, PoolReg)>, curves: seq<(Address, CurveReg)>)
    ensures forall i :: 0 <= i < |pools| ==> PoolRow(db, pools[i].0, pools[i].1)
    ensures forall i :: 0 <= i < |curves| ==> CurveRow(db, curves[i].0, curves[i].1)
    ensures forall t :: t in db.pons ==> (db.pons[t].curve, CurveOf(t, db.pons[t])) in curves
    ensures forall t :: t in db.pons && db.pons[t].pool.Some? ==>
      (db.pons[t].pool.value, PonsPoolOf(t, db.pons[t])) in pools
    ensures forall t :: t in db.o1 ==> (db.o1[t].pool, O1PoolOf(t, db.o1[t])) in pools
  {
    pools, curves := [], [];
    var left := db.pons.Keys;
    while left != {}
      invariant left <= db.pons.Keys
      invariant forall i :: 0 <= i < |pools| ==> PoolRow(db, pools[i].0, pools[i].1)
      invariant forall i :: 0 <= i < |curves| ==> CurveRow(db, curves[i].0, curves[i].1)
      invariant forall t :: t in db.pons.Keys - left ==> (db.pons[t].curve, CurveOf(t, db.pons[t])) in curves
      invariant forall t :: t in db.pons.Keys - left && db.pons[t].pool.Some? ==>
        (db.pons[t].pool.value, PonsPoolOf(t, db.pons[t])) in pools
      decreases left
    {
      var t :| t in left;
      var row := db.pons[t];
      curves := curves + [(row.curve, CurveOf(t, row))];
      if row.pool.Some? {
        pools := pools + [(row.pool.value, PonsPoolOf(t, row))];
      }
      left := left - {t};
    }
    left := db.o1.Keys;
    while left != {}
      invariant left <= db.o1.Keys
      invariant forall i :: 0 <= i < |pools| ==> PoolRow(db, pools[i].0, pools[i].1)
      invariant forall t :: t in db.pons && db.pons[t].pool.Some? ==>
        (db.pons[t].pool.value, PonsPoolOf(t, db.pons[t])) in pools
      invariant forall t :: t in db.o1.Keys - left ==> (db.o1[t].pool, O1PoolOf(t, db.o1[t])) in pools
      decreases left
    {
      var t :| t in left;
      pools := pools + [(db.o1[t].pool, O1PoolOf(t, db.o1[t]))];
      left := left - {t};
    }
  }

  class App {
    const store: Store
    const catalog: RuntimeCatalog

    constructor (store: Store, catalog: RuntimeCatalog)
      ensures this.store == store && this.catalog == catalog
    {
      this.store, this.catalog := store, catalog;
    }

    method RestoreRegistrations(fails: bool)
      modifies catalog
      ensures Restored(old(catalog.View()), store.tables, catalog.View(), fails)
    {
      if !fails {
        var pools, curves := LoadRegistrations(store.tables);
        catalog.RebuildRegistrations(pools, curves);
        RowsRebuild(catalog.View(), store.tables, pools, curves);
      }
    }

    /** Decode the logs in order, registering as it goes; stop at the first failure. */
    method DecodeLogs(logs: seq<Log>) returns (changes: Changes, failed: bool)
      modifies catalog
      ensures var d := DecodeAll(store.tables, Start(old(catalog.View())), logs);
        catalog.View() == d.catalog && changes == d.changes && failed == d.failed
    {
      hide Accepts, LaunchOf;
      changes, failed := Changes([], [], [], []), false;
      var pending: map<Address, Category> := map[];
      var i := 0;
      ghost var db, all := store.tables, DecodeAll(store.tables, Start(catalog.View()), logs);
      while i < |logs|
        invariant 0 <= i <= |logs| && !failed
        invariant DecodeAll(db, Draft(catalog.View(), changes, pending, false), logs[i..]) == all
      {
        ghost var before := Draft(catalog.View(), changes, pending, false);
        assert logs[i..][0] == logs[i] && logs[i..][1..] == logs[i + 1..];
        match logs[i] {
          case Unrelated =>
          case Created(l, checkFails, metadataFails) =>
            if l.token in pending && pending[l.token] != l.Category() {
            } else if checkFails {
              failed := true;
            } else if Accepts(store.tables, pending, l.token, l.Category()) {
              pending := pending[l.token := l.Category()];
              if metadataFails {
                failed := true;
              } else {
                match l {
                  case PonsLaunch(token, row) =>
                    changes := changes.(pons := changes.pons + [l]);
                    catalog.RegisterCurve(row.curve, CurveOf(token, row));
                  case O1Launch(token, row) =>
                    changes := changes.(o1 := changes.o1 + [l]);
                    catalog.RegisterPool(row.pool, O1PoolOf(token, row));
                }
              }
            }
          case GraduatedOn(g, lookupFails) =>
            if lookupFails {
              failed := true;
            } else {
              var row := LaunchOf(store.tables, changes.pons, g.token);
              if row.Some? {
                changes := changes.(graduations := changes.graduations + [g]);
                catalog.RegisterPool(g.pool, PonsPoolOf(g.token, row.value));
              }
            }
        }
        assert Draft(catalog.View(), changes, pending, failed) == Decode(db, before, logs[i]);
        if failed {
          return;
        }
        i := i + 1;
      }
      assert logs[i..] == [];
    }

    /** The whole block, with the deferred restore on every way out that is not a success. */
    method ProcessBlock(b: Block) returns (ok: bool)
      modifies store, catalog
      ensures BlockStep(old(store.tables), old(catalog.View()), b, store.tables, catalog.View(), ok)
    {
      hide DecodeAll, Apply, Restored;
      var changes, failed := DecodeLogs(b.logs);
      if failed {
        RestoreRegistrations(b.restoreFails);
        return false;
      }
      var failsAt := if b.outcome == Fails then Some(b.failsAt) else None;
      var result := store.CommitBlock(changes.(events := b.events), b.name, b.state, failsAt);
      if result.Err? || b.outcome == LostAnswer {
        RestoreRegistrations(b.restoreFails);
        return false;
      }
      if |result.value.conflicts| > 0 {
        RestoreRegistrations(b.restoreFails);
      }
      ok := true;
    }
  }

  lemma RowsRebuild(c: Catalog, db: Db, pools: seq<(Hash, PoolReg)>, curves: seq<(Address, CurveReg)>)
    requires forall i :: 0 <= i < |pools| ==> PoolRow(db, pools[i].0, pools[i].1)
    requires forall i :: 0 <= i < |curves| ==> CurveRow(db, curves[i].0, curves[i].1)
    requires forall t :: t in db.pons ==> (db.pons[t].curve, CurveOf(t, db.pons[t])) in curves
    requires forall t :: t in db.pons && db.pons[t].pool.Some? ==>
      (db.pons[t].pool.value, PonsPoolOf(t, db.pons[t])) in pools
    requires forall t :: t in db.o1 ==> (db.o1[t].pool, O1PoolOf(t, db.o1[t])) in pools
    requires forall k :: k in c.pools <==> exists i :: 0 <= i < |pools| && pools[i].0 == k
    requires forall k :: k in c.pools ==> (k, c.pools[k]) in pools
    requires forall k :: k in c.curves <==> exists i :: 0 <= i < |curves| && curves[i].0 == k
    requires forall k :: k in c.curves ==> (k, c.curves[k]) in curves
    ensures Rebuilds(c, db)
  {
    forall k | k in c.curves ensures CurveRow(db, k, c.curves[k]) {
      var i :| 0 <= i < |curves| && curves[i] == (k, c.curves[k]);
    }
    forall k | k in c.pools ensures PoolRow(db, k, c.pools[k]) {
      var i :| 0 <= i < |pools| && pools[i] == (k, c.pools[k]);
    }
    forall t | t in db.pons ensures db.pons[t].curve in c.curves {
      var i :| 0 <= i < |curves| && curves[i] == (db.pons[t].curve, CurveOf(t, db.pons[t]));
    }
    forall t | t in db.pons && db.pons[t].pool.Some? ensures db.pons[t].pool.value in c.pools {
      var i :| 0 <= i < |pools| && pools[i] == (db.pons[t].pool.value, PonsPoolOf(t, db.pons[t]));
    }
    forall t | t in db.o1 ensures db.o1[t].pool in c.pools {
      var i :| 0 <= i < |pools| && pools[i] == (db.o1[t].pool, O1PoolOf(t, db.o1[t]));
    }
  }
}
