/** What a block does as a whole, read off its logs, its events and the tables it found. */
module BlockLaws {
  import opened Prelude
  import opened Tables
  import opened TableLaws
  import opened CommitLaws
  import opened CommitAnswers
  import Registrations
  import opened RegistrationLaws
  import opened DecodeLaws

  /** The changes of a block that decodes without failing. */
  ghost function ChangesOf(db: Db, b: Registrations.Block): Changes
  {
    PlanOf(db, b.logs, |b.logs|).(events := b.events)
  }

  /** A block succeeds if and only if no log breaks it, no launch it takes up clashes with a row, all its events are
      proper and the write succeeds. One that does not leaves the tables alone, unless only the answer was lost. */
  lemma BlockSucceedsExactly(db: Db, c: Registrations.Catalog, b: Registrations.Block, db': Db,
      c': Registrations.Catalog, ok: bool)
    requires Registrations.BlockStep(db, c, b, db', c', ok)
    ensures var changes := ChangesOf(db, b);
      var decodes := !SomeBreaks(db, b.logs, |b.logs|);
      var goes := decodes && !SomeClash(db, changes.pons + changes.o1) && AllProper(db, changes);
      && (ok <==> goes && b.outcome == Succeeds)
      && (!(goes && b.outcome != Fails) ==> db' == db)
      && (goes && b.outcome != Fails ==>
           Apply(db, changes, b.name, b.state).Ok? && db' == Apply(db, changes, b.name, b.state).value.db)
  {
    hide Registrations.DecodeAll, Apply, Registrations.Restored, SomeBreaks, SomeClash, AllProper, CatalogIs;
    DecodingMeans(db, c, b.logs);
    CommitsExactly(db, ChangesOf(db, b), b.name, b.state);
  }

  // ----- Graduations take effect -----

  ghost predicate GraduatesFor(db: Db, logs: seq<Registrations.Log>, i: nat, token: Address)
  {
    GraduatesAt(db, logs, i) && logs[i].graduation.token == token
  }

  /** Among the first n logs, i is the last graduation of the token that counts. */
  ghost predicate LastGraduation(db: Db, logs: seq<Registrations.Log>, n: nat, i: nat, token: Address)
  {
    i < n && GraduatesFor(db, logs, i, token) && forall j: nat :: i < j < n ==> !GraduatesFor(db, logs, j, token)
  }

  /** The row of a token after the block: graduated to the pool and at the time of the last graduation that counts,
      or as it was. */
  ghost predicate RowAfter(db: Db, logs: seq<Registrations.Log>, token: Address, row: PonsRow, after: PonsRow)
  {
    || (exists i: nat :: LastGraduation(db, logs, |logs|, i, token) && after == Moved(row, logs[i]))
    || ((forall i: nat :: !GraduatesFor(db, logs, i, token)) && after == row)
  }

  function Moved(row: PonsRow, log: Registrations.Log): PonsRow
    requires log.GraduatedOn?
  {
    row.(phase := Done, graduatedAt := Some(log.graduation.at), pool := Some(log.graduation.pool))
  }

  /** This is the last of the first n logs' graduations of the token that count. */
  ghost predicate GraduationIs(db: Db, logs: seq<Registrations.Log>, n: nat, token: Address, g: Graduation)
  {
    exists i: nat :: LastGraduation(db, logs, n, i, token) && g == logs[i].graduation
  }

  lemma LastForAppend(gs: seq<Graduation>, g: Graduation, token: Address)
    ensures LastFor(gs + [g], token) == if g.token == token then Some(g) else LastFor(gs, token)
  {
    assert (gs + [g])[..|gs|] == gs;
  }

  lemma {:induction false} LastPlanned(db: Db, logs: seq<Registrations.Log>, n: nat, token: Address)
    requires n <= |logs|
    ensures match LastFor(PlannedGraduations(db, logs, n), token)
      case None => forall i: nat :: i < n ==> !GraduatesFor(db, logs, i, token)
      case Some(g) => GraduationIs(db, logs, n, token, g)
  {
    hide GraduatesAt;
    if n > 0 {
      LastPlanned(db, logs, n - 1, token);
      var before := PlannedGraduations(db, logs, n - 1);
      CountsAreGraduations(db, logs, n - 1);
      if GraduatesAt(db, logs, n - 1) {
        LastForAppend(before, logs[n - 1].graduation, token);
      } else {
        assert before + [] == before;
      }
      if GraduatesFor(db, logs, n - 1, token) {
        assert LastGraduation(db, logs, n, n - 1, token);
      } else if LastFor(before, token).Some? {
        StillLast(db, logs, n, token, LastFor(before, token).value);
      }
    }
  }

  lemma StillLast(db: Db, logs: seq<Registrations.Log>, n: nat, token: Address, g: Graduation)
    requires n > 0 && GraduationIs(db, logs, n - 1, token, g) && !GraduatesFor(db, logs, n - 1, token)
    ensures GraduationIs(db, logs, n, token, g)
  {
    var m := n - 1;
    var i: nat :| LastGraduation(db, logs, m, i, token) && g == logs[i].graduation;
    assert LastGraduation(db, logs, n, i, token);
  }

  lemma CountsAreGraduations(db: Db, logs: seq<Registrations.Log>, i: nat)
    ensures GraduatesAt(db, logs, i) ==> i < |logs| && logs[i].GraduatedOn?
  {
  }

  lemma LastIndex(db: Db, logs: seq<Registrations.Log>, n: nat, token: Address, g: Graduation) returns (i: nat)
    requires GraduationIs(db, logs, n, token, g)
    ensures LastGraduation(db, logs, n, i, token) && i < |logs| && logs[i].GraduatedOn? && g == logs[i].graduation
  {
    i :| LastGraduation(db, logs, n, i, token) && g == logs[i].graduation;
  }

  lemma RowIsAfter(db: Db, logs: seq<Registrations.Log>, token: Address, row: PonsRow)
    ensures RowAfter(db, logs, token, row, GraduatedRow(row, LastFor(PlannedGraduations(db, logs, |logs|), token)))
  {
    hide GraduatesAt, LastFor;
    LastPlanned(db, logs, |logs|, token);
    forall i: nat ensures GraduatesFor(db, logs, i, token) ==> i < |logs| { CountsAreGraduations(db, logs, i); }
    var g := LastFor(PlannedGraduations(db, logs, |logs|), token);
    if g.Some? {
      var i := LastIndex(db, logs, |logs|, token, g.value);
      assert GraduatedRow(row, g) == Moved(row, logs[i]);
    }
  }

  lemma FirstStays(ls: seq<Launched>, more: seq<Launched>, i: nat, l: Launched)
    requires FirstForToken(ls, i, l)
    ensures FirstForToken(ls + more, i, l)
  {
  }

  /** The first Pons creation of a token that is taken up is the first planned launch of that token. */
  lemma {:induction false} FirstPlanned(db: Db, logs: seq<Registrations.Log>, n: nat, j: nat, token: Address)
      returns (i: nat)
    requires j < n <= |logs| && FirstPonsAt(db, logs, j, token)
    ensures logs[j].launch.token == token && FirstForToken(PlannedPons(db, logs, n), i, logs[j].launch)
  {
    var before, l := PlannedPons(db, logs, n - 1), logs[j].launch;
    if j < n - 1 {
      i := FirstPlanned(db, logs, n - 1, j, token);
      assert PlannedPons(db, logs, n) == before + PlannedPons(db, logs, n)[|before|..];
      FirstStays(before, PlannedPons(db, logs, n)[|before|..], i, l);
    } else {
      i := |before|;
      NoneBefore(db, logs, j, j, token);
    }
  }

  lemma {:induction false} NoneBefore(db: Db, logs: seq<Registrations.Log>, n: nat, j: nat, token: Address)
    requires n <= j < |logs| && FirstPonsAt(db, logs, j, token)
    ensures forall k :: 0 <= k < |PlannedPons(db, logs, n)| ==> PlannedPons(db, logs, n)[k].token != token
  {
    if n > 0 {
      NoneBefore(db, logs, n - 1, j, token);
      assert !PonsAt(db, logs, n - 1, token);
    }
  }

  /** The first launch of a token that is new to the directory gets the rows. */
  lemma FirstGetsRows(before: Db, after: Db, ls: seq<Launched>, reported: seq<Launched>, at: seq<nat>, i: nat,
      l: Launched)
    requires LaunchesLanded(before, after, ls, reported, at)
    requires FirstForToken(ls, i, l) && l.token !in before.index
    ensures Landed(after, l)
  {
    hide Landed;
    assert ls[i].token in after.index && NamesToken(reported, l.token);
    var k :| 0 <= k < |reported| && reported[k].token == l.token;
    assert FirstForToken(ls, at[k], reported[k]);
  }

  ghost predicate NewRow(db: Db, logs: seq<Registrations.Log>, j: nat, token: Address)
  {
    && j < |logs| && logs[j].Created? && logs[j].launch.PonsLaunch?
    && token !in db.index && FirstPonsAt(db, logs, j, token)
  }

  /** After a block that was applied: a token that had a Pons row, and one that is new to the directory and was created
      in the block, has its stored or first row, moved to the pool of the last of its graduations that count. */
  lemma GraduationsTakeEffect(db: Db, b: Registrations.Block, token: Address)
    requires Apply(db, ChangesOf(db, b), b.name, b.state).Ok?
    ensures var after := Apply(db, ChangesOf(db, b), b.name, b.state).value.db;
      && (token in db.pons ==> token in after.pons && RowAfter(db, b.logs, token, db.pons[token], after.pons[token]))
      && (forall j: nat :: NewRow(db, b.logs, j, token) ==>
           token in after.pons && RowAfter(db, b.logs, token, b.logs[j].launch.pons, after.pons[token]))
  {
    hide Apply, AddAllLaunches, LastFor, EventsLanded, WalletsSeen, GraduatedIndex, RowAfter, FirstPonsAt,
      LaunchesLanded, PlannedGraduations, PlannedPons, PlannedO1;
    var c, logs := ChangesOf(db, b), b.logs;
    var at, _ := CommitMeans(db, c, b.name, b.state);
    var end, mid := Apply(db, c, b.name, b.state).value, Launches(db, c);
    if token in db.pons {
      OldRow(db, mid, c.pons + c.o1, end.inserted, at, token);
      RowIsAfter(db, logs, token, db.pons[token]);
    }
    forall j: nat | NewRow(db, logs, j, token)
      ensures token in end.db.pons && RowAfter(db, logs, token, logs[j].launch.pons, end.db.pons[token])
    {
      NewRowLands(db, mid, c, end.inserted, at, logs, j, token);
      RowIsAfter(db, logs, token, logs[j].launch.pons);
    }
  }

  lemma OldRow(before: Db, after: Db, ls: seq<Launched>, reported: seq<Launched>, at: seq<nat>, token: Address)
    requires LaunchesLanded(before, after, ls, reported, at) && token in before.pons
    ensures token in after.pons && after.pons[token] == before.pons[token]
  {
    hide FirstForToken, Landed, OnlyNew;
  }

  lemma NewRowLands(db: Db, mid: Db, c: Changes, reported: seq<Launched>, at: seq<nat>, logs: seq<Registrations.Log>,
      j: nat, token: Address)
    requires LaunchesLanded(db, mid, c.pons + c.o1, reported, at) && NewRow(db, logs, j, token)
    requires c.pons == PlannedPons(db, logs, |logs|)
    ensures logs[j].Created? && logs[j].launch.PonsLaunch?
    ensures token in mid.pons && mid.pons[token] == logs[j].launch.pons
  {
    hide LaunchesLanded, PlannedPons;
    var i := FirstPlanned(db, logs, |logs|, j, token);
    FirstStays(c.pons, c.o1, i, logs[j].launch);
    FirstGetsRows(db, mid, c.pons + c.o1, reported, at, i, logs[j].launch);
  }

  /** After a block that succeeds the same holds of the stored tables. */
  lemma BlockGraduates(db: Db, c: Registrations.Catalog, b: Registrations.Block, db': Db, c': Registrations.Catalog,
      token: Address)
    requires Registrations.BlockStep(db, c, b, db', c', true)
    ensures token in db.pons ==> token in db'.pons && RowAfter(db, b.logs, token, db.pons[token], db'.pons[token])
    ensures forall j: nat :: NewRow(db, b.logs, j, token) ==>
      token in db'.pons && RowAfter(db, b.logs, token, b.logs[j].launch.pons, db'.pons[token])
  {
    hide Apply, RowAfter, Registrations.BlockStep, SomeBreaks, SomeClash, AllProper, FirstPonsAt;
    BlockSucceedsExactly(db, c, b, db', c', true);
    GraduationsTakeEffect(db, b, token);
  }

  /** And the catalog then has each curve and pool as the last of the logs that register it says, or as it was. */
  lemma BlockRegisters(db: Db, c: Registrations.Catalog, b: Registrations.Block, db': Db, c': Registrations.Catalog)
    requires Registrations.BlockStep(db, c, b, db', c', true) && FreshLogs(b.logs)
    ensures CatalogIs(db, c, b.logs, |b.logs|, c')
  {
    hide Registrations.DecodeAll, Apply, Registrations.Restored, CatalogIs, PlanOf;
    DecodingMeans(db, c, b.logs);
    AcceptedNeverConflicts(db, c, b);
  }
}
