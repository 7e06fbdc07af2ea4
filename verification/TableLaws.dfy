/** What every committed block keeps, and that replaying one changes nothing. */
module TableLaws {
  import opened Prelude
  import opened Tables
  import WriteQueue

  /** The directory and the detail tables agree, and a Pons launch is graduated in all three places
      or in none. */
  ghost predicate Consistent(db: Db)
  {
    && db.pons.Keys + db.o1.Keys <= db.index.Keys
    && forall t :: t in db.index ==>
         && (db.index[t].category == Pons <==> t in db.pons)
         && (db.index[t].category == O1Crypto <==> t in db.o1)
         && (db.index[t].status == Graduated <==> t in db.pons && db.pons[t].phase == Done)
         && (t in db.pons ==> (db.pons[t].phase == Done <==> db.pons[t].pool.Some?))
  }

  /** A decoded creation is still on the curve and has no pool. */
  predicate Fresh(l: Launched)
  {
    l.PonsLaunch? ==> l.pons.phase == OnCurve && l.pons.pool == None
  }

  ghost predicate AllFresh(ls: seq<Launched>)
  {
    forall i :: 0 <= i < |ls| ==> Fresh(ls[i])
  }

  /** No directory row disappears or changes its category. */
  ghost predicate KeepsCategories(a: Db, b: Db)
  {
    forall t :: t in a.index ==> t in b.index && b.index[t].category == a.index[t].category
  }

  lemma KeepsCategoriesTwice(a: Db, b: Db, c: Db)
    requires KeepsCategories(a, b) && KeepsCategories(b, c)
    ensures KeepsCategories(a, c)
  {
  }

  /** Some launch of the list names the token in the category. */
  predicate Named(ls: seq<Launched>, token: Address, c: Category)
    decreases |ls|
  {
    ls != [] && ((ls[0].token == token && ls[0].Category() == c) || Named(ls[1..], token, c))
  }

  /** The directory holds the token under another category. */
  predicate Rejected(db: Db, token: Address, c: Category)
  {
    token in db.index && db.index[token].category != c
  }

  lemma AddLaunchLaws(t: Tx, l: Launched)
    requires AddLaunch(t, l).Ok?
    ensures var t' := AddLaunch(t, l).value;
      && KeepsCategories(t.db, t'.db) && l.token in t'.db.index
      && (Consistent(t.db) && Fresh(l) ==> Consistent(t'.db))
      && (forall x :: x in t'.skipped <==>
        x in t.skipped || (x == (l.token, l.Category()) && Rejected(t'.db, x.0, x.1)))
  {
  }

  lemma {:induction false} AddAllLaunchesLaws(t: Tx, ls: seq<Launched>)
    requires AddAllLaunches(t, ls).Ok?
    ensures var end := AddAllLaunches(t, ls).value;
      && KeepsCategories(t.db, end.db)
      && (Consistent(t.db) && AllFresh(ls) ==> Consistent(end.db))
      && (forall i :: 0 <= i < |ls| ==> ls[i].token in end.db.index)
    decreases |ls|
  {
    hide AddLaunch, Consistent;
    if ls != [] {
      AddLaunchLaws(t, ls[0]);
      AddAllLaunchesLaws(AddLaunch(t, ls[0]).value, ls[1..]);
      assert forall i :: 0 < i < |ls| ==> ls[i] == ls[1..][i - 1];
    }
  }

  /** Which launch events are skipped is decided by the final directory alone. */
  lemma {:induction false} SkippedIsFinal(t: Tx, ls: seq<Launched>, token: Address, c: Category)
    requires AddAllLaunches(t, ls).Ok?
    ensures var end := AddAllLaunches(t, ls).value;
      (token, c) in end.skipped <==> (token, c) in t.skipped || (Named(ls, token, c) && Rejected(end.db, token, c))
    decreases |ls|
  {
    hide AddLaunch;
    if ls != [] {
      AddLaunchLaws(t, ls[0]);
      AddAllLaunchesLaws(AddLaunch(t, ls[0]).value, ls[1..]);
      SkippedIsFinal(AddLaunch(t, ls[0]).value, ls[1..], token, c);
    }
  }

  /** Launches whose tokens the directory already holds change no table. */
  lemma {:induction false} KnownLaunchesChangeNothing(t: Tx, ls: seq<Launched>)
    requires forall i :: 0 <= i < |ls| ==> ls[i].token in t.db.index
    ensures AddAllLaunches(t, ls).Ok? && AddAllLaunches(t, ls).value.db == t.db
    decreases |ls|
  {
    if ls != [] { KnownLaunchesChangeNothing(AddLaunch(t, ls[0]).value, ls[1..]); }
  }

  /** The graduation that counts for a token: the last one of the list. */
  function LastFor(gs: seq<Graduation>, token: Address): Option<Graduation>
  {
    if gs == [] then None
    else if gs[|gs| - 1].token == token then Some(gs[|gs| - 1])
    else LastFor(gs[..|gs| - 1], token)
  }

  lemma {:induction false} LastForSplits(g: Graduation, gs: seq<Graduation>, token: Address)
    ensures LastFor([g] + gs, token) ==
      if LastFor(gs, token).Some? then LastFor(gs, token) else if g.token == token then Some(g) else None
  {
    if gs != [] {
      var all := [g] + gs;
      assert all[..|all| - 1] == [g] + gs[..|gs| - 1];
      LastForSplits(g, gs[..|gs| - 1], token);
    } else {
      assert ([g] + gs)[..0] == [];
    }
  }

  function GraduatedRow(row: PonsRow, g: Option<Graduation>): PonsRow
  {
    if g == None then row
    else row.(phase := Done, graduatedAt := Some(g.value.at), pool := Some(g.value.pool))
  }

  function GraduatedIndex(row: IndexRow, g: Option<Graduation>): IndexRow
  {
    if g.Some? && row.category == Pons then row.(status := Graduated) else row
  }

  /** All graduations together: each present Pons row takes its last one, and its directory row is
      marked; nothing else moves. */
  ghost predicate GraduatedBy(a: Db, b: Db, gs: seq<Graduation>)
  {
    && b == a.(pons := b.pons, index := b.index)
    && b.pons.Keys == a.pons.Keys && b.index.Keys == a.index.Keys
    && (forall t :: t in a.pons ==> b.pons[t] == GraduatedRow(a.pons[t], LastFor(gs, t)))
    && (forall t :: t in a.index ==> b.index[t] == GraduatedIndex(a.index[t], LastFor(gs, t)))
  }

  lemma OneGraduation(db: Db, g: Graduation)
    ensures GraduatedBy(db, Graduate(db, g), [g])
  {
    assert [g][..0] == [] && LastFor([g][..0], g.token) == None;
  }

  lemma GraduationsCompose(a: Db, b: Db, c: Db, g: Graduation, rest: seq<Graduation>)
    requires GraduatedBy(a, b, [g]) && GraduatedBy(b, c, rest)
    ensures GraduatedBy(a, c, [g] + rest)
  {
    forall t ensures LastFor([g] + rest, t) == if LastFor(rest, t).Some? then LastFor(rest, t) else LastFor([g], t) {
      LastForSplits(g, rest, t);
      LastForSplits(g, [], t);
      assert [g] + [] == [g];
    }
    hide LastFor;
  }

  lemma {:induction false} GraduateAllMeans(db: Db, gs: seq<Graduation>)
    ensures GraduatedBy(db, GraduateAll(db, gs), gs)
    decreases |gs|
  {
    if gs != [] {
      hide GraduatedBy, Graduate;
      assert gs == [gs[0]] + gs[1..];
      OneGraduation(db, gs[0]);
      GraduateAllMeans(Graduate(db, gs[0]), gs[1..]);
      GraduationsCompose(db, Graduate(db, gs[0]), GraduateAll(db, gs), gs[0], gs[1..]);
    }
  }

  lemma GraduationsKeep(db: Db, gs: seq<Graduation>)
    ensures KeepsCategories(db, GraduateAll(db, gs))
    ensures Consistent(db) ==> Consistent(GraduateAll(db, gs))
  {
    hide LastFor, GraduateAll;
    GraduateAllMeans(db, gs);
    var after := GraduateAll(db, gs);
    if Consistent(db) {
      forall t | t in after.index
        ensures after.index[t].category == db.index[t].category
        ensures after.index[t].status == Graduated <==> t in after.pons && after.pons[t].phase == Done
        ensures t in after.pons ==> (after.pons[t].phase == Done <==> after.pons[t].pool.Some?)
      {
        assert t in db.index;
      }
    }
  }

  /** Graduating twice is graduating once. */
  lemma GraduatingAgainChangesNothing(db: Db, later: Db, gs: seq<Graduation>)
    requires var once := GraduateAll(db, gs); later.pons == once.pons && later.index == once.index
    ensures GraduateAll(later, gs) == later
  {
    hide LastFor;
    GraduateAllMeans(db, gs);
    GraduateAllMeans(later, gs);
    var once, again := GraduateAll(db, gs), GraduateAll(later, gs);
    assert again.pons == later.pons by {
      forall t | t in later.pons ensures again.pons[t] == later.pons[t] { }
    }
    assert again.index == later.index by {
      forall t | t in later.index ensures again.index[t] == later.index[t] { }
    }
  }

  /** Events leave the launch tables alone; every event that is not skipped has its key stored. */
  lemma {:induction false} AddAllEventsLaws(t: Tx, es: seq<Event>)
    requires AddAllEvents(t, es).Ok?
    ensures var end := AddAllEvents(t, es).value;
      && end.db == t.db.(events := end.db.events, wallets := end.db.wallets)
      && end.skipped == t.skipped && end.inserted == t.inserted && end.conflicts == t.conflicts
      && (forall k :: k in t.db.events ==> k in end.db.events && end.db.events[k] == t.db.events[k])
      && (forall i :: 0 <= i < |es| ==> Settled(t.skipped, end.db, es[i]))
    decreases |es|
  {
    hide KeyOf;
    if es != [] {
      AddAllEventsLaws(AddEvent(t, es[0]).value, es[1..]);
      assert forall i :: 0 < i < |es| ==> es[i] == es[1..][i - 1];
    }
  }

  /** The event is well formed and either skipped or stored. */
  ghost predicate Settled(skipped: set<(Address, Category)>, db: Db, e: Event)
  {
    if e.kind == Launch && (e.token, e.category) in skipped then e.tokenOk
    else e.tokenOk && e.walletOk && e.quoteOk && KeyOf(e) in db.events
  }

  lemma {:induction false} SettledEventsChangeNothing(t: Tx, es: seq<Event>)
    requires forall i :: 0 <= i < |es| ==> Settled(t.skipped, t.db, es[i])
    ensures AddAllEvents(t, es).Ok? && AddAllEvents(t, es).value.db == t.db
    decreases |es|
  {
    hide KeyOf;
    if es != [] {
      assert Settled(t.skipped, t.db, es[0]);
      var t' := AddEvent(t, es[0]).value;
      assert forall i :: 0 <= i < |es[1..]| ==> es[1..][i] == es[i + 1];
      SettledEventsChangeNothing(t', es[1..]);
    }
  }

  /** Every committed block keeps the tables consistent and never moves a token to another category,
      whatever graduations and conflicts it contains. */
  lemma CommitKeepsTables(db: Db, c: Changes, name: string, w: SyncState)
    requires Apply(db, c, name, w).Ok?
    ensures var db' := Apply(db, c, name, w).value.db;
      && KeepsCategories(db, db')
      && (Consistent(db) && AllFresh(c.pons) && AllFresh(c.o1) ==> Consistent(db'))
      && db'.sync == db.sync[name := w]
  {
    hide AddAllLaunches, AddAllEvents, GraduateAll, Consistent, KeepsCategories;
    var t1 := AddAllLaunches(Begin(db), c.pons).value;
    var t2 := AddAllLaunches(t1, c.o1).value;
    var t3 := t2.(db := GraduateAll(t2.db, c.graduations));
    var t4 := AddAllEvents(t3, c.events).value;
    AddAllLaunchesLaws(Begin(db), c.pons);
    AddAllLaunchesLaws(t1, c.o1);
    GraduationsKeep(t2.db, c.graduations);
    AddAllEventsLaws(t3, c.events);
    SameLaunchTables(t3.db, t4.db, t4.db.(sync := t4.db.sync[name := w]));
    KeepsCategoriesTwice(db, t1.db, t2.db);
    KeepsCategoriesTwice(db, t2.db, t3.db);
    KeepsCategoriesTwice(db, t3.db, t4.db.(sync := t4.db.sync[name := w]));
    LaunchesKeepTheRest(Begin(db), c.pons);
    LaunchesKeepTheRest(t1, c.o1);
    GraduateAllMeans(t2.db, c.graduations);
  }

  lemma SameLaunchTables(a: Db, b: Db, c: Db)
    requires b == a.(events := b.events, wallets := b.wallets) && c == b.(sync := c.sync)
    ensures KeepsCategories(a, c) && (Consistent(a) ==> Consistent(c))
  {
  }

  lemma {:induction false} LaunchListsJoin(t: Tx, a: seq<Launched>, b: seq<Launched>)
    requires AddAllLaunches(t, a).Ok?
    ensures AddAllLaunches(t, a + b) == AddAllLaunches(AddAllLaunches(t, a).value, b)
    decreases |a|
  {
    hide AddLaunch;
    if a == [] {
      assert a + b == b;
    } else {
      assert (a + b)[0] == a[0] && (a + b)[1..] == a[1..] + b;
      LaunchListsJoin(AddLaunch(t, a[0]).value, a[1..], b);
    }
  }

  lemma {:induction false} LaunchesKeepTheRest(t: Tx, ls: seq<Launched>)
    requires AddAllLaunches(t, ls).Ok?
    ensures var end := AddAllLaunches(t, ls).value;
      && end.db == t.db.(index := end.db.index, pons := end.db.pons, o1 := end.db.o1)
      && end.eventsInserted == t.eventsInserted
    decreases |ls|
  {
    if ls != [] { LaunchesKeepTheRest(AddLaunch(t, ls[0]).value, ls[1..]); }
  }

  /** Replaying a block right after it was committed changes nothing at all: not with repeated tokens,
      conflicts, repeated graduations or duplicate event keys inside it. */
  lemma ReplayChangesNothing(db: Db, c: Changes, name: string, w: SyncState)
    requires Apply(db, c, name, w).Ok?
    ensures var db' := Apply(db, c, name, w).value.db;
      Apply(db', c, name, w).Ok? && Apply(db', c, name, w).value.db == db'
  {
    hide AddAllLaunches, AddAllEvents, GraduateAll, Named, Settled;
    var t1 := AddAllLaunches(Begin(db), c.pons).value;
    var t2 := AddAllLaunches(t1, c.o1).value;
    var t3 := t2.(db := GraduateAll(t2.db, c.graduations));
    var t4 := AddAllEvents(t3, c.events).value;
    var db' := Apply(db, c, name, w).value.db;
    AddAllLaunchesLaws(Begin(db), c.pons);
    AddAllLaunchesLaws(t1, c.o1);
    GraduationsKeep(t2.db, c.graduations);
    AddAllEventsLaws(t3, c.events);

    KnownLaunchesChangeNothing(Begin(db'), c.pons);
    var r1 := AddAllLaunches(Begin(db'), c.pons).value;
    KnownLaunchesChangeNothing(r1, c.o1);
    var r2 := AddAllLaunches(r1, c.o1).value;
    GraduatingAgainChangesNothing(t2.db, db', c.graduations);
    SameSkips(db, c, t1, t2, db', r1, r2);
    assert forall i :: 0 <= i < |c.events| ==>
      Settled(r2.skipped, db', c.events[i]) by { SettledAgain(t4.db, db', r2.skipped, c.events); }
    SettledEventsChangeNothing(r2, c.events);
  }

  lemma SettledAgain(a: Db, b: Db, skipped: set<(Address, Category)>, es: seq<Event>)
    requires a.events == b.events
    requires forall i :: 0 <= i < |es| ==> Settled(skipped, a, es[i])
    ensures forall i :: 0 <= i < |es| ==> Settled(skipped, b, es[i])
  {
  }

  /** The replay skips the same launch events, because the categories are final. */
  lemma SameSkips(db: Db, c: Changes, t1: Tx, t2: Tx, db': Db, r1: Tx, r2: Tx)
    requires AddAllLaunches(Begin(db), c.pons) == Ok(t1) && AddAllLaunches(t1, c.o1) == Ok(t2)
    requires AddAllLaunches(Begin(db'), c.pons) == Ok(r1) && AddAllLaunches(r1, c.o1) == Ok(r2)
    requires KeepsCategories(t2.db, db') && r2.db == r1.db == db'
    ensures r2.skipped == t2.skipped
  {
    forall x: (Address, Category) ensures x in r2.skipped <==> x in t2.skipped {
      SameSkip(db, c, t1, t2, db', r1, r2, x.0, x.1);
    }
  }

  lemma SameSkip(db: Db, c: Changes, t1: Tx, t2: Tx, db': Db, r1: Tx, r2: Tx, token: Address, k: Category)
    requires AddAllLaunches(Begin(db), c.pons) == Ok(t1) && AddAllLaunches(t1, c.o1) == Ok(t2)
    requires AddAllLaunches(Begin(db'), c.pons) == Ok(r1) && AddAllLaunches(r1, c.o1) == Ok(r2)
    requires KeepsCategories(t2.db, db') && r2.db == r1.db == db'
    ensures (token, k) in r2.skipped <==> (token, k) in t2.skipped
  {
    hide AddAllLaunches, Named;
    AddAllLaunchesLaws(Begin(db), c.pons);
    AddAllLaunchesLaws(t1, c.o1);
    SkippedIsFinal(Begin(db), c.pons, token, k);
    SkippedIsFinal(t1, c.o1, token, k);
    SkippedIsFinal(Begin(db'), c.pons, token, k);
    SkippedIsFinal(r1, c.o1, token, k);
    NamedIsKnown(c.pons, t1.db, token, k);
    NamedIsKnown(c.o1, t2.db, token, k);
  }

  lemma {:induction false} NamedIsKnown(ls: seq<Launched>, db: Db, token: Address, c: Category)
    requires forall i :: 0 <= i < |ls| ==> ls[i].token in db.index
    ensures Named(ls, token, c) ==> token in db.index
    decreases |ls|
  {
    if ls != [] && !(ls[0].token == token && ls[0].Category() == c) { NamedIsKnown(ls[1..], db, token, c); }
  }

  /** What one queued block request does to the tables when it commits. */
  datatype Request = Request(changes: Changes, name: string, state: SyncState)

  function Perform(r: Request, db: Db): Db
  {
    match Apply(db, r.changes, r.name, r.state)
    case Err(_) => db
    case Ok(t) => t.db
  }

  /** Through the writer: whatever order requests are queued, executed, expire or fail in, the stored
      tables stay consistent. */
  lemma EveryWriterRunKeepsTables(db0: Db, steps: seq<WriteQueue.Step>, requests: nat -> Request)
    requires Consistent(db0)
    requires forall id: nat {:trigger requests(id)} ::
      AllFresh(requests(id).changes.pons) && AllFresh(requests(id).changes.o1)
    requires var fn := (id: nat, db: Db) => Perform(requests(id), db);
      WriteQueue.ValidRun(WriteQueue.Initial(db0), steps, fn)
    ensures var fn := (id: nat, db: Db) => Perform(requests(id), db);
      Consistent(WriteQueue.Run(WriteQueue.Initial(db0), steps, fn).db)
  {
    hide Apply, Consistent;
    var fn := (id: nat, db: Db) => Perform(requests(id), db);
    var s := WriteQueue.Run(WriteQueue.Initial(db0), steps, fn);
    WriteQueue.EveryRun(db0, steps, fn);
    var kept := (db: Db) => Consistent(db);
    forall i | 0 <= i < |s.answered| ensures WriteQueue.KeepsIt(s.answered[i].id, fn, kept) {
      var r := requests(s.answered[i].id);
      forall db: Db | kept(db) ensures kept(fn(s.answered[i].id, db)) {
        if Apply(db, r.changes, r.name, r.state).Ok? { CommitKeepsTables(db, r.changes, r.name, r.state); }
      }
    }
    WriteQueue.FoldKeeps(db0, s.answered, fn, kept);
  }
}
