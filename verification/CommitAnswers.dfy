/** When a block commits, under which keys its events are stored, and which conflicts it reports, read off the block
    and the tables it found. */
module CommitAnswers {
  import opened Prelude
  import opened Tables
  import opened TableLaws
  import opened CommitLaws
  import EventId
  import WriteQueue

  // ----- Keys of stored events -----

  /** The id an event is stored under: the one it came with, or else the key of its place on the chain. */
  predicate GoesUnder(e: Event, id: string)
  {
    if e.id != "" then id == e.id else id == EventId.CalcEventId(e.block, e.tx, e.log).0
  }

  /** The row is the event as it came but for its id. */
  predicate RowFor(e: Event, row: Event)
  {
    row == e.(id := row.id) && GoesUnder(e, row.id)
  }

  predicate FitsKey(e: Event) { e.block <= 99999999 && e.tx <= 9999 && e.log <= 9999 }

  predicate EarlierOnChain(e: Event, f: Event)
  {
    EventId.Earlier(e.block, e.tx, e.log, f.block, f.tx, f.log)
  }

  /** The row of the first event that was not skipped and goes under its id. */
  ghost predicate FirstUnder(es: seq<Event>, skipped: set<(Address, Category)>, i: nat, row: Event)
  {
    && i < |es| && !Skips(skipped, es[i]) && RowFor(es[i], row)
    && forall j :: 0 <= j < i ==> Skips(skipped, es[j]) || !GoesUnder(es[j], row.id)
  }

  ghost predicate IsStored(events: map<string, Event>, e: Event)
  {
    exists id :: id in events && GoesUnder(e, id)
  }

  /** The rows a committed block reports and stores are those of its events, each the first under an id that was not
      taken; every event that is not skipped finds its id stored. */
  lemma StoredKeys(db: Db, c: Changes, name: string, w: SyncState) returns (stored: seq<nat>)
    requires Apply(db, c, name, w).Ok?
    ensures var end := Apply(db, c, name, w).value;
      var rows := end.eventsInserted;
      && |stored| == |rows| && Increasing(stored)
      && (forall k :: 0 <= k < |rows| ==> FirstUnder(c.events, end.skipped, stored[k], rows[k]))
      && (forall k :: 0 <= k < |rows| ==> rows[k].id !in db.events && StoredRow(end.db.events, rows[k]))
      && (forall i :: 0 <= i < |c.events| ==>
           Skips(end.skipped, c.events[i]) || IsStored(end.db.events, c.events[i]))
      && (forall id :: id in end.db.events ==>
           || (id in db.events && end.db.events[id] == db.events[id])
           || (end.db.events[id] in rows && end.db.events[id].id == id))
  {
    hide Apply, EventId.CalcEventId, LaunchesLanded, WalletsSeen, GraduatedRow, LastFor;
    var _, at := CommitMeans(db, c, name, w);
    stored := at;
    var end := Apply(db, c, name, w).value;
    var rows := end.eventsInserted;
    forall k | 0 <= k < |rows| ensures FirstUnder(c.events, end.skipped, stored[k], rows[k]) {
      assert FirstForKey(c.events, end.skipped, at[k], rows[k]);
    }
    forall id | id in end.db.events && id !in db.events
      ensures end.db.events[id] in rows && end.db.events[id].id == id
    {
      var k :| 0 <= k < |rows| && rows[k].id == id;
      assert StoredRow(end.db.events, rows[k]);
    }
    EventsAreStored(db, c, name, w);
  }

  lemma EventsAreStored(db: Db, c: Changes, name: string, w: SyncState)
    requires Apply(db, c, name, w).Ok?
    ensures var end := Apply(db, c, name, w).value;
      forall i :: 0 <= i < |c.events| ==> Skips(end.skipped, c.events[i]) || IsStored(end.db.events, c.events[i])
  {
    hide AddAllEvents, AddAllLaunches, GraduateAll, EventId.CalcEventId;
    var t2 := AddAllLaunches(AddAllLaunches(Begin(db), c.pons).value, c.o1).value;
    var t3 := t2.(db := GraduateAll(t2.db, c.graduations));
    AddAllEventsLaws(t3, c.events);
    var end := Apply(db, c, name, w).value;
    forall i | 0 <= i < |c.events| && !Skips(end.skipped, c.events[i])
      ensures IsStored(end.db.events, c.events[i])
    {
      var t4 := AddAllEvents(t3, c.events).value;
      assert Settled(t3.skipped, t4.db, c.events[i]);
      assert GoesUnder(c.events[i], KeyOf(c.events[i]));
    }
  }

  /** Of two stored rows whose events came without an id and whose numbers fit, the one with the smaller id is the one
      that is earlier on the chain; their ids have 16 characters. */
  lemma IdsFollowTheChain(e: Event, f: Event, row: Event, other: Event)
    requires RowFor(e, row) && RowFor(f, other) && e.id == "" && f.id == "" && FitsKey(e) && FitsKey(f)
    ensures |row.id| == 16 && |other.id| == 16
    ensures EventId.Before(row.id, other.id) <==> EarlierOnChain(row, other)
    ensures row.id == other.id <==> !EarlierOnChain(row, other) && !EarlierOnChain(other, row)
  {
    hide EventId.Before, EventId.CalcEventId;
    EventId.KeyOrderIsChainOrder(e.block, e.tx, e.log, f.block, f.tx, f.log);
  }

  /** Every stored row is under the key of its place on the chain. */
  ghost predicate KeyedByChain(events: map<string, Event>)
  {
    forall id :: id in events ==> RowFor(events[id].(id := ""), events[id]) && events[id].id == id
  }

  predicate Unnumbered(es: seq<Event>) { forall i :: 0 <= i < |es| ==> es[i].id == "" }

  lemma CommitKeepsKeys(db: Db, c: Changes, name: string, w: SyncState)
    requires Apply(db, c, name, w).Ok? && KeyedByChain(db.events) && Unnumbered(c.events)
    ensures KeyedByChain(Apply(db, c, name, w).value.db.events)
  {
    hide Apply, EventId.CalcEventId, Skips;
    var end := Apply(db, c, name, w).value;
    var stored := StoredKeys(db, c, name, w);
    forall id | id in end.db.events
      ensures RowFor(end.db.events[id].(id := ""), end.db.events[id]) && end.db.events[id].id == id
    {
      if !(id in db.events && end.db.events[id] == db.events[id]) {
        var k :| 0 <= k < |end.eventsInserted| && end.eventsInserted[k] == end.db.events[id];
        assert FirstUnder(c.events, end.skipped, stored[k], end.eventsInserted[k]);
      }
    }
  }

  /** Through the writer, whatever requests are queued, expire, fail or commit: as long as events come without ids,
      every stored row is under its chain key. */
  lemma EveryWriterRunKeepsKeys(db0: Db, steps: seq<WriteQueue.Step>, requests: nat -> Request)
    requires KeyedByChain(db0.events)
    requires forall id: nat {:trigger requests(id)} :: Unnumbered(requests(id).changes.events)
    requires var fn := (id: nat, db: Db) => Perform(requests(id), db);
      WriteQueue.ValidRun(WriteQueue.Initial(db0), steps, fn)
    ensures var fn := (id: nat, db: Db) => Perform(requests(id), db);
      KeyedByChain(WriteQueue.Run(WriteQueue.Initial(db0), steps, fn).db.events)
  {
    hide Apply, KeyedByChain;
    var fn := (id: nat, db: Db) => Perform(requests(id), db);
    var s := WriteQueue.Run(WriteQueue.Initial(db0), steps, fn);
    WriteQueue.EveryRun(db0, steps, fn);
    var kept := (db: Db) => KeyedByChain(db.events);
    forall i | 0 <= i < |s.answered| ensures WriteQueue.KeepsIt(s.answered[i].id, fn, kept) {
      var r := requests(s.answered[i].id);
      forall db: Db | kept(db) ensures kept(fn(s.answered[i].id, db)) {
        if Apply(db, r.changes, r.name, r.state).Ok? { CommitKeepsKeys(db, r.changes, r.name, r.state); }
      }
    }
    WriteQueue.FoldKeeps(db0, s.answered, fn, kept);
  }

  /** Then reading rows by id is reading them along the chain, as long as their numbers fit. */
  lemma ReadingByIdFollowsTheChain(events: map<string, Event>, a: string, b: string)
    requires KeyedByChain(events) && a in events && b in events && FitsKey(events[a]) && FitsKey(events[b])
    ensures |a| == 16 && |b| == 16
    ensures EventId.Before(a, b) <==> EarlierOnChain(events[a], events[b])
  {
    hide EventId.Before, EventId.CalcEventId;
    IdsFollowTheChain(events[a].(id := ""), events[b].(id := ""), events[a], events[b]);
  }

  // ----- When a commit succeeds -----

  /** The launch is the first of the list for its token. */
  predicate First(ls: seq<Launched>, i: nat)
  {
    i < |ls| && forall j :: 0 <= j < i ==> ls[j].token != ls[i].token
  }

  /** Both are detail rows of one table with the same transaction and log number. */
  predicate SamePlace(a: Launched, b: Launched)
  {
    match (a, b)
    case (PonsLaunch(_, x), PonsLaunch(_, y)) => x.tx == y.tx && x.log == y.log
    case (O1Launch(_, x), O1Launch(_, y)) => x.tx == y.tx && x.log == y.log
    case _ => false
  }

  /** A stored detail row stands in the way: one of the same token or of the same place. */
  predicate MeetsStored(db: Db, l: Launched)
  {
    match l
    case PonsLaunch(token, _) =>
      token in db.pons || exists t :: t in db.pons && SamePlace(l, PonsLaunch(t, db.pons[t]))
    case O1Launch(token, _) =>
      token in db.o1 || exists t :: t in db.o1 && SamePlace(l, O1Launch(t, db.o1[t]))
  }

  /** The launch gets a row in the directory. */
  predicate Enters(db: Db, ls: seq<Launched>, i: nat) { First(ls, i) && ls[i].token !in db.index }

  /** A launch that gets a directory row meets a detail row that was stored or comes before it. */
  ghost predicate Clashes(db: Db, ls: seq<Launched>, i: nat)
  {
    Enters(db, ls, i) && (MeetsStored(db, ls[i]) || MeetsEarlier(db, ls, i))
  }

  ghost predicate MeetsEarlier(db: Db, ls: seq<Launched>, i: nat)
    requires i < |ls|
  {
    exists j :: 0 <= j < i && Enters(db, ls, j) && SamePlace(ls[j], ls[i])
  }

  ghost predicate SomeClash(db: Db, ls: seq<Launched>) { exists i: nat :: Clashes(db, ls, i) }

  lemma FirstShifts(l: Launched, rest: seq<Launched>, i: nat)
    requires i < |rest|
    ensures First([l] + rest, i + 1) <==> First(rest, i) && rest[i].token != l.token
    ensures First([l] + rest, 0)
  {
    var ls := [l] + rest;
    if First(ls, i + 1) {
      assert forall j :: 0 <= j < i ==> rest[j] == ls[j + 1];
      assert ls[0].token != ls[i + 1].token;
    }
    if First(rest, i) && rest[i].token != l.token {
      assert forall j :: 0 < j < i + 1 ==> ls[j] == rest[j - 1];
    }
  }

  /** What one launch changes about the ones after it. */
  lemma ClashShifts(t: Tx, l: Launched, rest: seq<Launched>, i: nat)
    requires AddLaunch(t, l).Ok? && i < |rest|
    ensures Clashes(t.db, [l] + rest, i + 1) <==> Clashes(AddLaunch(t, l).value.db, rest, i)
  {
    hide First, SamePlace, MeetsStored;
    var t', ls := AddLaunch(t, l).value, [l] + rest;
    forall j | 0 <= j < |rest| ensures Enters(t.db, ls, j + 1) <==> Enters(t'.db, rest, j) { FirstShifts(l, rest, j); }
    FirstShifts(l, rest, i);
    if Enters(t'.db, rest, i) {
      StoredGrows(t, l, rest[i]);
      if MeetsEarlier(t'.db, rest, i) {
        var j :| 0 <= j < i && Enters(t'.db, rest, j) && SamePlace(rest[j], rest[i]);
        assert Enters(t.db, ls, j + 1) && SamePlace(ls[j + 1], ls[i + 1]);
      }
      if MeetsEarlier(t.db, ls, i + 1) {
        var j :| 0 <= j < i + 1 && Enters(t.db, ls, j) && SamePlace(ls[j], ls[i + 1]);
        if j > 0 { assert Enters(t'.db, rest, j - 1) && SamePlace(rest[j - 1], rest[i]); }
      }
      if l.token !in t.db.index && SamePlace(l, rest[i]) { assert Enters(t.db, ls, 0) && SamePlace(ls[0], ls[i + 1]); }
    }
  }

  lemma StoredGrows(t: Tx, l: Launched, m: Launched)
    requires AddLaunch(t, l).Ok? && m.token != l.token
    ensures MeetsStored(AddLaunch(t, l).value.db, m) <==>
      MeetsStored(t.db, m) || (l.token !in t.db.index && SamePlace(l, m))
  {
    var db, db' := t.db, AddLaunch(t, l).value.db;
    if l.token !in db.index {
      match (l, m)
      case (PonsLaunch(_, x), PonsLaunch(_, _)) =>
        assert l.token !in db.pons && db'.pons[l.token] == x;
        assert forall k :: k in db.pons ==> k in db'.pons && db'.pons[k] == db.pons[k];
        assert SamePlace(m, PonsLaunch(l.token, x)) == SamePlace(l, m);
      case (O1Launch(_, x), O1Launch(_, _)) =>
        assert l.token !in db.o1 && db'.o1[l.token] == x;
        assert forall k :: k in db.o1 ==> k in db'.o1 && db'.o1[k] == db.o1[k];
        assert SamePlace(m, O1Launch(l.token, x)) == SamePlace(l, m);
      case _ =>
    }
  }

  lemma FirstClash(t: Tx, l: Launched, rest: seq<Launched>)
    ensures AddLaunch(t, l).Ok? <==> !Clashes(t.db, [l] + rest, 0)
    ensures AddLaunch(t, l).Err? ==> AddLaunch(t, l) == Err(Unique)
  {
    hide Taken, MeetsStored, First;
    FirstAtFront(l, rest);
    TakenIs(t.db, l);
  }

  lemma FirstAtFront(l: Launched, rest: seq<Launched>)
    ensures First([l] + rest, 0)
  {
  }

  lemma TakenIs(db: Db, l: Launched)
    ensures Taken(db, l) <==> MeetsStored(db, l)
  {
  }

  /** The launches go in exactly when none of them clashes; otherwise the error is the broken uniqueness. */
  lemma {:induction false} LaunchesEnterExactly(t: Tx, ls: seq<Launched>)
    ensures AddAllLaunches(t, ls).Ok? <==> !SomeClash(t.db, ls)
    ensures AddAllLaunches(t, ls).Err? ==> AddAllLaunches(t, ls) == Err(Unique)
    decreases |ls|
  {
    hide AddLaunch, Clashes;
    if ls == [] {
      NoneToClash(t.db);
    } else {
      var l, rest := ls[0], ls[1..];
      assert ls == [l] + rest;
      FirstClash(t, l, rest);
      if AddLaunch(t, l).Ok? {
        var t' := AddLaunch(t, l).value;
        LaunchesEnterExactly(t', rest);
        if i: nat :| Clashes(t'.db, rest, i) {
          ClashIsThere(t'.db, rest, i);
          ClashShifts(t, l, rest, i);
        }
        if i: nat :| Clashes(t.db, ls, i) {
          ClashIsThere(t.db, ls, i);
          ClashShifts(t, l, rest, i - 1);
        }
      }
    }
  }

  lemma NoneToClash(db: Db)
    ensures !SomeClash(db, [])
  {
  }

  lemma ClashIsThere(db: Db, ls: seq<Launched>, i: nat)
    requires Clashes(db, ls, i)
    ensures i < |ls|
  {
  }

  /** The addresses of an event are well formed, as far as they are looked at: of a skipped launch only the token. */
  predicate Proper(skipped: bool, e: Event)
  {
    e.tokenOk && (skipped || (e.walletOk && e.quoteOk))
  }

  lemma {:induction false} EventsEnterExactly(t: Tx, es: seq<Event>)
    ensures AddAllEvents(t, es).Ok? <==> forall i :: 0 <= i < |es| ==> Proper(Skips(t.skipped, es[i]), es[i])
    ensures AddAllEvents(t, es).Err? ==> AddAllEvents(t, es) == Err(BadAddress)
    decreases |es|
  {
    hide AddEvent, Skips, Proper;
    if es != [] {
      var e, rest := es[0], es[1..];
      OneEventEnters(t, e);
      assert forall i :: 0 <= i < |rest| ==> rest[i] == es[i + 1];
      if AddEvent(t, e).Ok? {
        EventsEnterExactly(AddEvent(t, e).value, rest);
        assert forall i :: 0 < i < |es| ==> es[i] == rest[i - 1];
      }
    }
  }

  lemma OneEventEnters(t: Tx, e: Event)
    ensures AddEvent(t, e).Ok? <==> Proper(Skips(t.skipped, e), e)
    ensures AddEvent(t, e).Ok? ==> AddEvent(t, e).value.skipped == t.skipped
    ensures AddEvent(t, e).Err? ==> AddEvent(t, e) == Err(BadAddress)
  {
    hide KeyOf;
  }

  /** The token ends up under another category: the directory has it so, or the first launch of the list does. */
  ghost predicate GoesElsewhere(db: Db, ls: seq<Launched>, token: Address, k: Category)
  {
    if token in db.index then db.index[token].category != k else StartsElsewhere(ls, token, k)
  }

  ghost predicate StartsElsewhere(ls: seq<Launched>, token: Address, k: Category)
  {
    exists i: nat :: First(ls, i) && ls[i].token == token && ls[i].Category() != k
  }

  ghost predicate NamesIt(ls: seq<Launched>, token: Address, k: Category)
  {
    exists i :: 0 <= i < |ls| && ls[i].token == token && ls[i].Category() == k
  }

  /** The launch event is passed over: a launch of the block has its token and category, but the token goes
      elsewhere. */
  ghost predicate PassedOver(db: Db, ls: seq<Launched>, e: Event)
  {
    e.kind == Launch && NamesIt(ls, e.token, e.category) && GoesElsewhere(db, ls, e.token, e.category)
  }

  lemma {:induction false} NamedIs(ls: seq<Launched>, token: Address, k: Category)
    ensures Named(ls, token, k) <==> NamesIt(ls, token, k)
    decreases |ls|
  {
    if ls != [] {
      NamedIs(ls[1..], token, k);
      if i :| 0 <= i < |ls[1..]| && ls[1..][i].token == token && ls[1..][i].Category() == k {
        assert ls[i + 1].token == token && ls[i + 1].Category() == k;
      }
      if i :| 0 <= i < |ls| && ls[i].token == token && ls[i].Category() == k {
        if i > 0 { assert ls[1..][i - 1] == ls[i]; }
      }
    }
  }

  /** In the directory after the launches, a named token is under the category it had, or that of its first launch. */
  lemma {:induction false} FinalCategory(t: Tx, ls: seq<Launched>, token: Address, k: Category)
    requires AddAllLaunches(t, ls).Ok? && (token in t.db.index || exists i :: 0 <= i < |ls| && ls[i].token == token)
    ensures var index := AddAllLaunches(t, ls).value.db.index;
      token in index && (index[token].category != k <==> GoesElsewhere(t.db, ls, token, k))
    decreases |ls|
  {
    hide AddLaunch;
    if ls != [] {
      var l, rest := ls[0], ls[1..];
      var t' := AddLaunch(t, l).value;
      assert ls == [l] + rest;
      AddLaunchLaws(t, l);
      AddAllLaunchesLaws(t', rest);
      AddedCategory(t, l);
      if token in t'.db.index {
        FinalCategory(t', rest, token, k);
        if token !in t.db.index { StartsWith(l, rest, token, k); }
      } else {
        FinalCategory(t', rest, token, k);
        StartsLater(l, rest, token, k);
      }
    }
  }

  lemma AddedCategory(t: Tx, l: Launched)
    requires AddLaunch(t, l).Ok?
    ensures var index := AddLaunch(t, l).value.db.index;
      && index.Keys == t.db.index.Keys + {l.token}
      && (l.token !in t.db.index ==> index[l.token].category == l.Category())
  {
  }

  lemma StartsWith(l: Launched, rest: seq<Launched>, token: Address, k: Category)
    requires l.token == token
    ensures StartsElsewhere([l] + rest, token, k) <==> l.Category() != k
  {
    var ls := [l] + rest;
    assert ls[0] == l && First(ls, 0);
    if i: nat :| First(ls, i) && ls[i].token == token && ls[i].Category() != k {
      assert i == 0;
    }
  }

  lemma StartsLater(l: Launched, rest: seq<Launched>, token: Address, k: Category)
    requires l.token != token
    ensures StartsElsewhere([l] + rest, token, k) <==> StartsElsewhere(rest, token, k)
  {
    var ls := [l] + rest;
    if i: nat :| First(ls, i) && ls[i].token == token && ls[i].Category() != k {
      FirstShifts(l, rest, i - 1);
      assert First(rest, i - 1) && rest[i - 1] == ls[i];
    }
    if i: nat :| First(rest, i) && rest[i].token == token && rest[i].Category() != k {
      FirstShifts(l, rest, i);
      assert First(ls, i + 1) && ls[i + 1] == rest[i];
    }
  }

  /** Which events the transaction skips, read off the tables it found and the launches of the block. */
  lemma SkipsMean(db: Db, ls: seq<Launched>, e: Event)
    requires AddAllLaunches(Begin(db), ls).Ok?
    ensures Skips(AddAllLaunches(Begin(db), ls).value.skipped, e) <==> PassedOver(db, ls, e)
  {
    hide AddAllLaunches, GoesElsewhere;
    SkippedIsFinal(Begin(db), ls, e.token, e.category);
    NamedIs(ls, e.token, e.category);
    if NamesIt(ls, e.token, e.category) { FinalCategory(Begin(db), ls, e.token, e.category); }
  }

  ghost predicate AllProper(db: Db, c: Changes)
  {
    forall i :: 0 <= i < |c.events| ==> Proper(PassedOver(db, c.pons + c.o1, c.events[i]), c.events[i])
  }

  /** A block commits if and only if none of its launches clashes and all its events are proper; otherwise the error
      says which of the two failed, the launches first. */
  lemma CommitsExactly(db: Db, c: Changes, name: string, w: SyncState)
    ensures Apply(db, c, name, w).Ok? <==> !SomeClash(db, c.pons + c.o1) && AllProper(db, c)
    ensures Apply(db, c, name, w) == Err(Unique) <==> SomeClash(db, c.pons + c.o1)
    ensures Apply(db, c, name, w) == Err(BadAddress) <==> !SomeClash(db, c.pons + c.o1) && !AllProper(db, c)
  {
    hide AddAllLaunches, AddAllEvents, GraduateAll, SomeClash, PassedOver, Skips, Proper;
    var ls := c.pons + c.o1;
    LaunchesEnterExactly(Begin(db), ls);
    LaunchesEnterExactly(Begin(db), c.pons);
    if AddAllLaunches(Begin(db), c.pons).Ok? {
      LaunchListsJoin(Begin(db), c.pons, c.o1);
      if AddAllLaunches(Begin(db), ls).Ok? {
        var t2 := AddAllLaunches(Begin(db), ls).value;
        EventsEnterExactly(t2.(db := GraduateAll(t2.db, c.graduations)), c.events);
        forall i | 0 <= i < |c.events| ensures Skips(t2.skipped, c.events[i]) <==> PassedOver(db, ls, c.events[i]) {
          SkipsMean(db, ls, c.events[i]);
        }
      }
    } else {
      ClashStays(db, c.pons, c.o1);
    }
  }

  lemma ClashStays(db: Db, xs: seq<Launched>, ys: seq<Launched>)
    requires SomeClash(db, xs)
    ensures SomeClash(db, xs + ys)
  {
    hide MeetsStored, SamePlace;
    var i: nat :| Clashes(db, xs, i);
    assert forall j :: 0 <= j <= i ==> (xs + ys)[j] == xs[j];
    assert forall j :: 0 <= j <= i ==> (Enters(db, xs + ys, j) <==> Enters(db, xs, j));
    assert Clashes(db, xs + ys, i);
  }

  // ----- What is reported besides -----

  /** The conflicts of a list of launches with a directory, in the order of the list. */
  function ConflictsWith(index: map<Address, IndexRow>, ls: seq<Launched>): seq<Conflict>
    decreases |ls|
  {
    if ls == [] then []
    else
      var l, rest := ls[0], ConflictsWith(index, ls[1..]);
      if l.token in index && index[l.token].category != l.Category()
      then [Conflict(l.token, index[l.token].category, l.Category())] + rest
      else rest
  }

  lemma {:induction false} ConflictsAre(t: Tx, ls: seq<Launched>)
    requires AddAllLaunches(t, ls).Ok?
    ensures var end := AddAllLaunches(t, ls).value;
      end.conflicts == t.conflicts + ConflictsWith(end.db.index, ls)
    decreases |ls|
  {
    hide AddLaunch;
    if ls != [] {
      var t' := AddLaunch(t, ls[0]).value;
      ConflictsAre(t', ls[1..]);
      AddLaunchLaws(t, ls[0]);
      AddAllLaunchesLaws(t', ls[1..]);
      OneConflict(t, ls[0], AddAllLaunches(t', ls[1..]).value.db.index);
    }
  }

  lemma OneConflict(t: Tx, l: Launched, index: map<Address, IndexRow>)
    requires AddLaunch(t, l).Ok? && l.token in index
    requires forall x :: x in AddLaunch(t, l).value.db.index ==>
      x in index && index[x].category == AddLaunch(t, l).value.db.index[x].category
    ensures AddLaunch(t, l).value.conflicts ==
      t.conflicts + if index[l.token].category != l.Category()
        then [Conflict(l.token, index[l.token].category, l.Category())] else []
  {
    AddedCategory(t, l);
  }

  /** The events that are not skipped, come without an id and do not fit. */
  function CountWide(skipped: set<(Address, Category)>, es: seq<Event>): nat
    decreases |es|
  {
    if es == [] then 0
    else
      (if !Skips(skipped, es[0]) && es[0].id == "" && !FitsKey(es[0]) then 1 else 0) + CountWide(skipped, es[1..])
  }

  lemma {:induction false} WideAreCounted(t: Tx, es: seq<Event>)
    requires AddAllEvents(t, es).Ok?
    ensures AddAllEvents(t, es).value.overWidth == t.overWidth + CountWide(t.skipped, es)
    decreases |es|
  {
    hide KeyOf;
    if es != [] {
      OneEventEnters(t, es[0]);
      WideAreCounted(AddEvent(t, es[0]).value, es[1..]);
    }
  }

  /** A committed block reports a conflict for each launch whose token the directory ends up holding under another
      category, with both categories, in the order of the block; and one warning for each event that was given a key
      it does not fit in. */
  lemma ReportsMean(db: Db, c: Changes, name: string, w: SyncState)
    requires Apply(db, c, name, w).Ok?
    ensures var end := Apply(db, c, name, w).value;
      && end.conflicts == ConflictsWith(end.db.index, c.pons + c.o1)
      && end.overWidth == CountWide(end.skipped, c.events)
  {
    hide AddAllLaunches, AddAllEvents, GraduateAll, CountWide, ConflictsWith, GraduatedIndex;
    LaunchListsJoin(Begin(db), c.pons, c.o1);
    var t2 := AddAllLaunches(Begin(db), c.pons + c.o1).value;
    var t3 := t2.(db := GraduateAll(t2.db, c.graduations));
    ConflictsAre(Begin(db), c.pons + c.o1);
    NoneWideYet(Begin(db), c.pons + c.o1);
    GraduateAllMeans(t2.db, c.graduations);
    GraduationsKeep(t2.db, c.graduations);
    AddAllEventsLaws(t3, c.events);
    WideAreCounted(t3, c.events);
    SameConflicts(t2.db.index, t3.db.index, c.pons + c.o1);
  }

  lemma {:induction false} NoneWideYet(t: Tx, ls: seq<Launched>)
    requires AddAllLaunches(t, ls).Ok?
    ensures AddAllLaunches(t, ls).value.overWidth == t.overWidth
    decreases |ls|
  {
    if ls != [] { NoneWideYet(AddLaunch(t, ls[0]).value, ls[1..]); }
  }

  lemma {:induction false} SameConflicts(a: map<Address, IndexRow>, b: map<Address, IndexRow>, ls: seq<Launched>)
    requires a.Keys == b.Keys && forall t :: t in a ==> a[t].category == b[t].category
    ensures ConflictsWith(a, ls) == ConflictsWith(b, ls)
    decreases |ls|
  {
    if ls != [] { SameConflicts(a, b, ls[1..]); }
  }
}
