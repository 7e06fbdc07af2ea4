/** The catalog against the tables, over every run of blocks. */
module RegistrationLaws {
  import opened Prelude
  import opened Tables
  import opened TableLaws
  import opened Registrations

  /** What decoding has planned so far is registered, fresh, and agrees with the directory. */
  ghost predicate Planned(db: Db, d: Draft)
  {
    && (forall l :: l in d.changes.pons ==>
          l.PonsLaunch? && Fresh(l) && l.pons.curve in d.catalog.curves && Pending(d, l.token, Pons))
    && (forall l :: l in d.changes.o1 ==> l.O1Launch? && l.o1.pool in d.catalog.pools && Pending(d, l.token, O1Crypto))
    && (forall g :: g in d.changes.graduations ==> g.pool in d.catalog.pools)
    && (forall t :: t in d.pending && t in db.index ==> db.index[t].category == d.pending[t])
  }

  predicate Pending(d: Draft, token: Address, c: Category)
  {
    token in d.pending && d.pending[token] == c
  }

  predicate Grows(a: Catalog, b: Catalog)
  {
    a.pools.Keys <= b.pools.Keys && a.curves.Keys <= b.curves.Keys
  }

  /** Decoded creations are on the curve and carry no pool yet. */
  ghost predicate FreshLogs(logs: seq<Log>)
  {
    forall i :: 0 <= i < |logs| && logs[i].Created? ==> Fresh(logs[i].launch)
  }

  lemma DecodeKeepsPlanned(db: Db, d: Draft, log: Log)
    requires Planned(db, d) && !d.failed && (log.Created? ==> Fresh(log.launch))
    ensures Planned(db, Decode(db, d, log)) && Grows(d.catalog, Decode(db, d, log).catalog)
  {
    hide LaunchOf;
    match log
    case Unrelated =>
    case Created(l, _, _) => if Accepts(db, d.pending, l.token, l.Category()) { CreationKeepsPlanned(db, d, l); }
    case GraduatedOn(_, _) =>
  }

  lemma CreationKeepsPlanned(db: Db, d: Draft, l: Launched)
    requires Planned(db, d) && Fresh(l) && Accepts(db, d.pending, l.token, l.Category())
    ensures var d' := d.(pending := d.pending[l.token := l.Category()]);
      && Planned(db, d') && Planned(db, d'.(failed := true))
      && Planned(db, TakeCreation(d', l)) && Grows(d.catalog, TakeCreation(d', l).catalog)
  {
    var d' := d.(pending := d.pending[l.token := l.Category()]);
    assert forall t, c :: Pending(d, t, c) ==> Pending(d', t, c);
    assert Pending(d', l.token, l.Category());
  }

  lemma {:induction false} DecodeAllKeepsPlanned(db: Db, d: Draft, logs: seq<Log>)
    requires Planned(db, d) && FreshLogs(logs)
    ensures Planned(db, DecodeAll(db, d, logs)) && Grows(d.catalog, DecodeAll(db, d, logs).catalog)
    decreases |logs|
  {
    hide Decode, Planned;
    if logs != [] && !d.failed {
      DecodeKeepsPlanned(db, d, logs[0]);
      DecodeAllKeepsPlanned(db, Decode(db, d, logs[0]), logs[1..]);
    }
  }

  /** Where the detail rows after the launches come from. */
  lemma {:induction false} RowsAfterLaunches(t: Tx, ls: seq<Launched>)
    requires AddAllLaunches(t, ls).Ok?
    ensures var end := AddAllLaunches(t, ls).value.db;
      && (forall k :: k in t.db.pons ==> k in end.pons && end.pons[k] == t.db.pons[k])
      && (forall k :: k in t.db.o1 ==> k in end.o1 && end.o1[k] == t.db.o1[k])
      && (forall k :: k in end.pons ==>
        (k in t.db.pons && end.pons[k] == t.db.pons[k]) || PonsLaunch(k, end.pons[k]) in ls)
      && (forall k :: k in end.o1 ==> (k in t.db.o1 && end.o1[k] == t.db.o1[k]) || O1Launch(k, end.o1[k]) in ls)
    decreases |ls|
  {
    if ls != [] {
      RowsAfterLaunches(AddLaunch(t, ls[0]).value, ls[1..]);
    }
  }

  lemma {:induction false} LastForIsThere(gs: seq<Graduation>, token: Address)
    ensures LastFor(gs, token).Some? ==> LastFor(gs, token).value in gs && LastFor(gs, token).value.token == token
    ensures LastFor(gs, token) == None ==> forall g :: g in gs ==> g.token != token
  {
    if gs != [] {
      LastForIsThere(gs[..|gs| - 1], token);
      assert gs == gs[..|gs| - 1] + [gs[|gs| - 1]];
    }
  }

  /** The tables after the launches and graduations of a block, which the events leave alone. */
  lemma CommittedRows(db: Db, c: Changes, name: string, w: SyncState)
    requires Apply(db, c, name, w).Ok?
    ensures var t1 := AddAllLaunches(Begin(db), c.pons);
      t1.Ok? && var t2 := AddAllLaunches(t1.value, c.o1);
      t2.Ok? && var db' := Apply(db, c, name, w).value.db;
      db'.o1 == t2.value.db.o1 && GraduatedBy(t2.value.db, GraduateAll(t2.value.db, c.graduations), c.graduations)
      && db'.pons == GraduateAll(t2.value.db, c.graduations).pons
      && db'.index == GraduateAll(t2.value.db, c.graduations).index
      && Apply(db, c, name, w).value.conflicts == t2.value.conflicts
  {
    hide AddAllLaunches, AddAllEvents, GraduateAll, GraduatedBy;
    var t2 := AddAllLaunches(AddAllLaunches(Begin(db), c.pons).value, c.o1).value;
    GraduateAllMeans(t2.db, c.graduations);
    GraduateKeepsO1(t2.db, c.graduations);
    AddAllEventsLaws(t2.(db := GraduateAll(t2.db, c.graduations)), c.events);
  }

  lemma GraduateKeepsO1(db: Db, gs: seq<Graduation>)
    ensures GraduateAll(db, gs).o1 == db.o1
  {
    hide GraduateAll;
    GraduateAllMeans(db, gs);
  }

  lemma CommitKeepsCovers(db: Db, d: Draft, events: seq<Event>, name: string, w: SyncState)
    requires Planned(db, d) && Covers(d.catalog, db)
    requires Apply(db, d.changes.(events := events), name, w).Ok?
    ensures Covers(d.catalog, Apply(db, d.changes.(events := events), name, w).value.db)
  {
    hide AddAllLaunches, Apply, GraduateAll, LastFor;
    var c := d.changes.(events := events);
    CommittedRows(db, c, name, w);
    var t1 := AddAllLaunches(Begin(db), c.pons).value;
    var t2 := AddAllLaunches(t1, c.o1).value;
    var db' := Apply(db, c, name, w).value.db;
    RowsAfterLaunches(Begin(db), c.pons);
    RowsAfterLaunches(t1, c.o1);
    forall t | t in db'.pons
      ensures db'.pons[t].curve in d.catalog.curves
      ensures db'.pons[t].pool.Some? ==> db'.pons[t].pool.value in d.catalog.pools
    {
      LastForIsThere(c.graduations, t);
      assert t in t2.db.pons && db'.pons[t] == GraduatedRow(t2.db.pons[t], LastFor(c.graduations, t));
      assert t in db.pons || PonsLaunch(t, t2.db.pons[t]) in c.pons;
    }
    forall t | t in db'.o1 ensures db'.o1[t].pool in d.catalog.pools {
      assert t in db.o1 || O1Launch(t, t2.db.o1[t]) in c.o1;
    }
  }

  lemma StartIsPlanned(db: Db, c: Catalog)
    ensures Planned(db, Start(c))
  {
  }

  lemma CoversMonotone(a: Catalog, b: Catalog, db: Db)
    requires Grows(a, b) && Covers(a, db)
    ensures Covers(b, db)
  {
  }

  /** However a block ends, with or without a restore that works, every key of the tables stays registered. */
  lemma BlockKeepsCovers(db: Db, c: Catalog, b: Block, db': Db, c': Catalog, ok: bool)
    requires Covers(c, db) && FreshLogs(b.logs) && BlockStep(db, c, b, db', c', ok)
    ensures Covers(c', db')
  {
    hide DecodeAll, Apply, Planned, Covers;
    var d := DecodeAll(db, Start(c), b.logs);
    StartIsPlanned(db, c);
    DecodeAllKeepsPlanned(db, Start(c), b.logs);
    CoversMonotone(c, d.catalog, db);
    if !d.failed && Apply(db, d.changes.(events := b.events), b.name, b.state).Ok? {
      CommitKeepsCovers(db, d, b.events, b.name, b.state);
    }
  }

  // ----- The two category checks agree -----

  /** The directory has the planned categories wherever both know a token. */
  ghost predicate SameCategories(db: Db, pending: map<Address, Category>)
  {
    forall t :: t in pending && t in db.index ==> db.index[t].category == pending[t]
  }

  lemma {:induction false} PlannedLaunchesDoNotConflict(t: Tx, ls: seq<Launched>, pending: map<Address, Category>)
    requires AddAllLaunches(t, ls).Ok? && SameCategories(t.db, pending)
    requires forall i :: 0 <= i < |ls| ==> ls[i].token in pending && pending[ls[i].token] == ls[i].Category()
    ensures AddAllLaunches(t, ls).value.conflicts == t.conflicts
    ensures SameCategories(AddAllLaunches(t, ls).value.db, pending)
    decreases |ls|
  {
    if ls != [] { PlannedLaunchesDoNotConflict(AddLaunch(t, ls[0]).value, ls[1..], pending); }
  }

  /** What passed the category check while decoding never conflicts inside the transaction, as long as
      nobody else writes the directory in between. */
  lemma AcceptedNeverConflicts(db: Db, c: Catalog, b: Block)
    requires FreshLogs(b.logs)
    requires var d := DecodeAll(db, Start(c), b.logs); Apply(db, d.changes.(events := b.events), b.name, b.state).Ok?
    ensures var d := DecodeAll(db, Start(c), b.logs);
      Apply(db, d.changes.(events := b.events), b.name, b.state).value.conflicts == []
  {
    hide DecodeAll, Apply, AddAllLaunches, GraduateAll;
    var d := DecodeAll(db, Start(c), b.logs);
    DecodeAllKeepsPlanned(db, Start(c), b.logs);
    CommittedRows(db, d.changes.(events := b.events), b.name, b.state);
    PlannedLaunchesDoNotConflict(Begin(db), d.changes.pons, d.pending);
    PlannedLaunchesDoNotConflict(AddAllLaunches(Begin(db), d.changes.pons).value, d.changes.o1, d.pending);
  }

  // ----- Runs -----

  /** A run of blocks: the tables and the catalog before and after each, and how each ended. */
  datatype Moment = Moment(db: Db, catalog: Catalog)

  ghost predicate History(moments: seq<Moment>, blocks: seq<Block>, oks: seq<bool>)
  {
    && |moments| == |blocks| + 1 && |oks| == |blocks|
    && (forall i :: 0 <= i < |blocks| ==> FreshLogs(blocks[i].logs))
    && forall i :: 0 <= i < |blocks| ==>
         BlockStep(moments[i].db, moments[i].catalog, blocks[i], moments[i + 1].db, moments[i + 1].catalog, oks[i])
  }

  /** Over every run, whatever fails: no pool or curve of the tables is ever missing from the catalog. */
  lemma {:induction false} EveryRunCovers(moments: seq<Moment>, blocks: seq<Block>, oks: seq<bool>, n: nat)
    requires History(moments, blocks, oks) && n <= |blocks|
    requires Covers(moments[0].catalog, moments[0].db)
    ensures Covers(moments[n].catalog, moments[n].db)
  {
    hide BlockStep, Covers, FreshLogs;
    if n > 0 {
      EveryRunCovers(moments, blocks, oks, n - 1);
      var before, after := moments[n - 1], moments[n];
      BlockKeepsCovers(before.db, before.catalog, blocks[n - 1], after.db, after.catalog, oks[n - 1]);
    }
  }
}
