/** Which rows a committed block leaves behind, and what it reports as inserted. */
module CommitLaws {
  import opened Prelude
  import opened Tables
  import opened TableLaws

  /** Positions in a list, in order. */
  predicate Increasing(at: seq<nat>)
  {
    forall i, j :: 0 <= i < j < |at| ==> at[i] < at[j]
  }

  /** The same positions once the list has one more element in front. */
  function Shifted(at: seq<nat>): (r: seq<nat>)
    ensures |r| == |at| && forall k :: 0 <= k < |at| ==> r[k] == at[k] + 1
  {
    seq(|at|, k requires 0 <= k < |at| => at[k] + 1)
  }

  // ----- Launches -----

  /** The launch stands at this position and is the first of the list for its token. */
  ghost predicate FirstForToken(ls: seq<Launched>, i: nat, l: Launched)
  {
    i < |ls| && ls[i] == l && forall j :: 0 <= j < i ==> ls[j].token != l.token
  }

  /** The directory row as inserted and the detail row of its category. */
  predicate Landed(db: Db, l: Launched)
  {
    && l.token in db.index && db.index[l.token] == IndexRow(l.Category(), Active)
    && match l
       case PonsLaunch(token, row) => token in db.pons && db.pons[token] == row
       case O1Launch(token, row) => token in db.o1 && db.o1[token] == row
  }

  ghost predicate NamesToken(ls: seq<Launched>, token: Address) { exists i :: 0 <= i < |ls| && ls[i].token == token }

  predicate RowsKept(before: Db, after: Db)
  {
    && (forall t :: t in before.index ==> t in after.index && after.index[t] == before.index[t])
    && (forall t :: t in before.pons ==> t in after.pons && after.pons[t] == before.pons[t])
    && (forall t :: t in before.o1 ==> t in after.o1 && after.o1[t] == before.o1[t])
  }

  /** No rows but those of the launches are new. */
  ghost predicate OnlyNew(before: Db, after: Db, reported: seq<Launched>)
  {
    && (forall t :: t in after.index <==> t in before.index || NamesToken(reported, t))
    && (forall t :: t in after.pons ==> t in before.pons || NamesToken(reported, t))
    && (forall t :: t in after.o1 ==> t in before.o1 || NamesToken(reported, t))
  }

  /** Reported launches stand at the positions `at`: in the order of the list, each the first of a token the
      directory did not know; exactly they got rows. */
  ghost predicate LaunchesLanded(before: Db, after: Db, ls: seq<Launched>, reported: seq<Launched>, at: seq<nat>)
  {
    && |at| == |reported| && Increasing(at)
    && (forall k :: 0 <= k < |reported| ==> FirstForToken(ls, at[k], reported[k]))
    && (forall k :: 0 <= k < |reported| ==> reported[k].token !in before.index && Landed(after, reported[k]))
    && RowsKept(before, after) && OnlyNew(before, after, reported)
    && (forall i :: 0 <= i < |ls| ==> ls[i].token in after.index)
  }

  /** Hence no token is reported twice. */
  lemma ReportedTokensDiffer(before: Db, after: Db, ls: seq<Launched>, reported: seq<Launched>, at: seq<nat>,
      i: nat, j: nat)
    requires LaunchesLanded(before, after, ls, reported, at) && i < j < |reported|
    ensures reported[i].token != reported[j].token
  {
    assert FirstForToken(ls, at[i], reported[i]) && FirstForToken(ls, at[j], reported[j]);
  }

  lemma {:induction false} LaunchesMean(t: Tx, ls: seq<Launched>) returns (at: seq<nat>)
    requires AddAllLaunches(t, ls).Ok?
    ensures var end := AddAllLaunches(t, ls).value;
      && t.inserted <= end.inserted
      && LaunchesLanded(t.db, end.db, ls, end.inserted[|t.inserted|..], at)
    decreases |ls|
  {
    hide LaunchesLanded, AddLaunch;
    if ls == [] {
      at := [];
      assert t.inserted[|t.inserted|..] == [];
      NoLaunches(t.db);
    } else {
      var mid, rest := AddLaunch(t, ls[0]).value, ls[1..];
      at := LaunchesMean(mid, rest);
      var end := AddAllLaunches(mid, rest).value;
      var later := end.inserted[|mid.inserted|..];
      OneLaunch(t, ls[0]);
      assert ls == [ls[0]] + rest;
      if mid.inserted == t.inserted {
        KnownFirst(t.db, end.db, ls[0], rest, later, at);
        at := Shifted(at);
      } else {
        assert end.inserted[|t.inserted|..] == [ls[0]] + later;
        NewFirst(t.db, mid.db, end.db, ls[0], rest, later, at);
        at := [0] + Shifted(at);
      }
    }
  }

  predicate Added(before: Db, after: Db, l: Launched)
  {
    && Landed(after, l) && RowsKept(before, after)
    && after.index.Keys == before.index.Keys + {l.token}
    && after.pons.Keys <= before.pons.Keys + {l.token} && after.o1.Keys <= before.o1.Keys + {l.token}
  }

  lemma OneLaunch(t: Tx, l: Launched)
    requires AddLaunch(t, l).Ok?
    ensures var mid := AddLaunch(t, l).value;
      if l.token in t.db.index then mid.inserted == t.inserted && mid.db == t.db
      else mid.inserted == t.inserted + [l] && Added(t.db, mid.db, l)
  {
  }

  lemma NoLaunches(db: Db)
    ensures LaunchesLanded(db, db, [], [], [])
  {
  }

  lemma InLongerList(l: Launched, rest: seq<Launched>, i: nat, m: Launched)
    requires FirstForToken(rest, i, m) && m.token != l.token
    ensures FirstForToken([l] + rest, i + 1, m)
  {
    assert forall j :: 0 < j < i + 1 ==> ([l] + rest)[j] == rest[j - 1];
  }

  lemma KnownFirst(before: Db, after: Db, l: Launched, rest: seq<Launched>, reported: seq<Launched>, at: seq<nat>)
    requires LaunchesLanded(before, after, rest, reported, at) && l.token in before.index
    ensures LaunchesLanded(before, after, [l] + rest, reported, Shifted(at))
  {
    hide FirstForToken, Landed, OnlyNew, Shifted;
    forall k | 0 <= k < |reported| ensures FirstForToken([l] + rest, Shifted(at)[k], reported[k]) {
      InLongerList(l, rest, at[k], reported[k]);
    }
  }

  lemma NewFirst(before: Db, mid: Db, after: Db, l: Launched, rest: seq<Launched>, later: seq<Launched>, at: seq<nat>)
    requires LaunchesLanded(mid, after, rest, later, at) && l.token !in before.index
    requires Added(before, mid, l)
    ensures LaunchesLanded(before, after, [l] + rest, [l] + later, [0] + Shifted(at))
  {
    hide FirstForToken, Landed, RowsKept, OnlyNew, Shifted;
    StillLanded(mid, after, l);
    KeptTwice(before, mid, after);
    NewTwice(before, mid, after, l, later);
    FirstInList(l, rest);
    forall k | 0 <= k < |later| ensures FirstForToken([l] + rest, at[k] + 1, later[k]) {
      InLongerList(l, rest, at[k], later[k]);
    }
  }

  lemma StillLanded(a: Db, b: Db, l: Launched)
    requires Landed(a, l) && RowsKept(a, b)
    ensures Landed(b, l) && l.token in b.index
  {
  }

  lemma NewTwice(a: Db, b: Db, c: Db, l: Launched, later: seq<Launched>)
    requires Added(a, b, l) && OnlyNew(b, c, later)
    ensures OnlyNew(a, c, [l] + later)
  {
    hide NamesToken;
    forall t ensures NamesToken([l] + later, t) <==> t == l.token || NamesToken(later, t) {
      NamesOneMore(l, later, t);
    }
  }

  lemma FirstInList(l: Launched, rest: seq<Launched>)
    ensures FirstForToken([l] + rest, 0, l)
  {
  }

  lemma NamesOneMore(l: Launched, later: seq<Launched>, t: Address)
    ensures NamesToken([l] + later, t) <==> t == l.token || NamesToken(later, t)
  {
    assert ([l] + later)[0] == l;
    if NamesToken(later, t) {
      var i :| 0 <= i < |later| && later[i].token == t;
      assert ([l] + later)[i + 1].token == t;
    }
  }

  lemma KeptTwice(a: Db, b: Db, c: Db)
    requires RowsKept(a, b) && RowsKept(b, c)
    ensures RowsKept(a, c)
  {
  }

  // ----- Events -----

  predicate Skips(skipped: set<(Address, Category)>, e: Event)
  {
    e.kind == Launch && (e.token, e.category) in skipped
  }

  /** The row is the event at this position, the first of the list with its key, skipped launches not counted. */
  ghost predicate FirstForKey(es: seq<Event>, skipped: set<(Address, Category)>, i: nat, row: Event)
  {
    && i < |es| && !Skips(skipped, es[i]) && row == es[i].(id := KeyOf(es[i]))
    && forall j :: 0 <= j < i ==> Skips(skipped, es[j]) || KeyOf(es[j]) != row.id
  }

  ghost predicate HasKey(rows: seq<Event>, k: string) { exists i :: 0 <= i < |rows| && rows[i].id == k }

  /** Reported events stand at the positions `at`: in the order of the list, each the first with a key that was
      not stored; exactly they got rows. */
  ghost predicate EventsLanded(before: map<string, Event>, after: map<string, Event>,
      skipped: set<(Address, Category)>, es: seq<Event>, reported: seq<Event>, at: seq<nat>)
  {
    && |at| == |reported| && Increasing(at)
    && (forall k :: 0 <= k < |reported| ==> FirstForKey(es, skipped, at[k], reported[k]))
    && (forall k :: 0 <= k < |reported| ==> reported[k].id !in before && StoredRow(after, reported[k]))
    && (forall k :: k in after <==> k in before || HasKey(reported, k))
    && (forall k :: k in before ==> k in after && after[k] == before[k])
  }

  predicate StoredRow(events: map<string, Event>, row: Event) { row.id in events && events[row.id] == row }

  /** Hence no key is reported twice. */
  lemma ReportedKeysDiffer(before: map<string, Event>, after: map<string, Event>,
      skipped: set<(Address, Category)>, es: seq<Event>, reported: seq<Event>, at: seq<nat>, i: nat, j: nat)
    requires EventsLanded(before, after, skipped, es, reported, at) && i < j < |reported|
    ensures reported[i].id != reported[j].id
  {
    assert FirstForKey(es, skipped, at[i], reported[i]) && FirstForKey(es, skipped, at[j], reported[j]);
  }

  /** The last of the rows that concerns a wallet. */
  function LastOf(rows: seq<Event>, wallet: Address): Option<Event>
    decreases |rows|
  {
    if rows == [] then None
    else match LastOf(rows[1..], wallet)
      case Some(e) => Some(e)
      case None => if rows[0].wallet == wallet then Some(rows[0]) else None
  }

  function Seen(w: Wallet, e: Option<Event>): Wallet
  {
    if w.active && e.Some? then w.(lastSeen := Some(e.value.at)) else w
  }

  /** Active wallets carry the time of their last reported event; nothing else about wallets changes. */
  ghost predicate WalletsSeen(before: map<Address, Wallet>, after: map<Address, Wallet>, reported: seq<Event>)
  {
    after.Keys == before.Keys && forall w :: w in before ==> after[w] == Seen(before[w], LastOf(reported, w))
  }

  lemma {:induction false} EventsMean(t: Tx, es: seq<Event>) returns (at: seq<nat>)
    requires AddAllEvents(t, es).Ok?
    ensures var end := AddAllEvents(t, es).value;
      && t.eventsInserted <= end.eventsInserted
      && EventsLanded(t.db.events, end.db.events, t.skipped, es, end.eventsInserted[|t.eventsInserted|..], at)
      && WalletsSeen(t.db.wallets, end.db.wallets, end.eventsInserted[|t.eventsInserted|..])
    decreases |es|
  {
    hide EventsLanded, WalletsSeen, AddEvent;
    if es == [] {
      at := [];
      assert t.eventsInserted[|t.eventsInserted|..] == [];
      NoEvents(t.db.events, t.skipped, t.db.wallets);
    } else {
      var e, rest, mid := es[0], es[1..], AddEvent(t, es[0]).value;
      at := EventsMean(mid, rest);
      var end := AddAllEvents(mid, rest).value;
      var later := end.eventsInserted[|mid.eventsInserted|..];
      OneEvent(t, e);
      assert es == [e] + rest;
      if mid.eventsInserted == t.eventsInserted {
        OldKey(t.db.events, end.db.events, t.skipped, e, rest, later, at);
        at := Shifted(at);
      } else {
        var row := e.(id := KeyOf(e));
        assert end.eventsInserted[|t.eventsInserted|..] == [row] + later;
        NewKey(t.db.events, mid.db.events, end.db.events, t.skipped, e, rest, later, at);
        SeenLater(t.db.wallets, mid.db.wallets, end.db.wallets, row, later);
        at := [0] + Shifted(at);
      }
    }
  }

  lemma OneEvent(t: Tx, e: Event)
    requires AddEvent(t, e).Ok?
    ensures var mid := AddEvent(t, e).value;
      mid.skipped == t.skipped &&
      if Skips(t.skipped, e) || KeyOf(e) in t.db.events then
        mid.eventsInserted == t.eventsInserted && mid.db == t.db
      else
        var row := e.(id := KeyOf(e));
        && mid.eventsInserted == t.eventsInserted + [row] && mid.db.events == t.db.events[row.id := row]
        && WalletsSeen(t.db.wallets, mid.db.wallets, [row])
  {
    var row := e.(id := KeyOf(e));
    assert [row][1..] == [];
    assert forall w :: LastOf([row], w) == if row.wallet == w then Some(row) else None;
  }

  lemma NoEvents(events: map<string, Event>, skipped: set<(Address, Category)>, wallets: map<Address, Wallet>)
    ensures EventsLanded(events, events, skipped, [], [], []) && WalletsSeen(wallets, wallets, [])
  {
  }

  lemma InLongerEvents(e: Event, rest: seq<Event>, skipped: set<(Address, Category)>, i: nat, row: Event)
    requires FirstForKey(rest, skipped, i, row) && (Skips(skipped, e) || KeyOf(e) != row.id)
    ensures FirstForKey([e] + rest, skipped, i + 1, row)
  {
    assert forall j :: 0 < j < i + 1 ==> ([e] + rest)[j] == rest[j - 1];
  }

  lemma OldKey(before: map<string, Event>, after: map<string, Event>, skipped: set<(Address, Category)>,
      e: Event, rest: seq<Event>, reported: seq<Event>, at: seq<nat>)
    requires EventsLanded(before, after, skipped, rest, reported, at) && (Skips(skipped, e) || KeyOf(e) in before)
    ensures EventsLanded(before, after, skipped, [e] + rest, reported, Shifted(at))
  {
    hide FirstForKey, HasKey, StoredRow, KeyOf, Shifted;
    forall k | 0 <= k < |reported| ensures FirstForKey([e] + rest, skipped, Shifted(at)[k], reported[k]) {
      InLongerEvents(e, rest, skipped, at[k], reported[k]);
    }
  }

  lemma NewKey(before: map<string, Event>, mid: map<string, Event>, after: map<string, Event>,
      skipped: set<(Address, Category)>, e: Event, rest: seq<Event>, later: seq<Event>, at: seq<nat>)
    requires EventsLanded(mid, after, skipped, rest, later, at) && !Skips(skipped, e) && KeyOf(e) !in before
    requires mid == before[KeyOf(e) := e.(id := KeyOf(e))]
    ensures EventsLanded(before, after, skipped, [e] + rest, [e.(id := KeyOf(e))] + later, [0] + Shifted(at))
  {
    hide FirstForKey, HasKey, KeyOf, Shifted;
    var row := e.(id := KeyOf(e));
    FirstEventInList(e, rest, skipped);
    forall k | 0 <= k < |later| ensures FirstForKey([e] + rest, skipped, at[k] + 1, later[k]) {
      InLongerEvents(e, rest, skipped, at[k], later[k]);
    }
    forall k ensures HasKey([row] + later, k) <==> k == row.id || HasKey(later, k) {
      HasOneMore(row, later, k);
    }
  }

  lemma FirstEventInList(e: Event, rest: seq<Event>, skipped: set<(Address, Category)>)
    requires !Skips(skipped, e)
    ensures FirstForKey([e] + rest, skipped, 0, e.(id := KeyOf(e)))
  {
  }

  lemma HasOneMore(row: Event, later: seq<Event>, k: string)
    ensures HasKey([row] + later, k) <==> k == row.id || HasKey(later, k)
  {
    assert ([row] + later)[0] == row;
    if HasKey(later, k) {
      var i :| 0 <= i < |later| && later[i].id == k;
      assert ([row] + later)[i + 1].id == k;
    }
  }

  lemma SeenLater(a: map<Address, Wallet>, b: map<Address, Wallet>, c: map<Address, Wallet>, row: Event,
      later: seq<Event>)
    requires WalletsSeen(a, b, [row]) && WalletsSeen(b, c, later)
    ensures WalletsSeen(a, c, [row] + later)
  {
    assert ([row] + later)[1..] == later && [row][1..] == [];
    forall w | w in a ensures c[w] == Seen(a[w], LastOf([row] + later, w)) {
      assert LastOf([row], w) == if row.wallet == w then Some(row) else None;
    }
  }

  // ----- The whole block -----

  /** The tables once the launches of a block are in. */
  function Launches(db: Db, c: Changes): Db
    requires AddAllLaunches(Begin(db), c.pons + c.o1).Ok?
  {
    AddAllLaunches(Begin(db), c.pons + c.o1).value.db
  }

  /** What a committed block stores and reports: the launches of tokens that were new, each the first for its
      token, with their directory and detail rows, which then take the last graduation of their token; the events
      with keys that were new, each the first for its key, save those of launches skipped for their category; the
      time of the last one on every active wallet. Both lists are in the order of the block. */
  lemma CommitMeans(db: Db, c: Changes, name: string, w: SyncState) returns (launched: seq<nat>, stored: seq<nat>)
    requires Apply(db, c, name, w).Ok?
    ensures AddAllLaunches(Begin(db), c.pons + c.o1).Ok?
    ensures var end, mid := Apply(db, c, name, w).value, Launches(db, c);
      && LaunchesLanded(db, mid, c.pons + c.o1, end.inserted, launched)
      && end.db.o1 == mid.o1 && end.db.pons.Keys == mid.pons.Keys && end.db.index.Keys == mid.index.Keys
      && (forall t :: t in mid.pons ==> end.db.pons[t] == GraduatedRow(mid.pons[t], LastFor(c.graduations, t)))
      && (forall t :: t in mid.index ==> end.db.index[t] == GraduatedIndex(mid.index[t], LastFor(c.graduations, t)))
      && EventsLanded(db.events, end.db.events, end.skipped, c.events, end.eventsInserted, stored)
      && WalletsSeen(db.wallets, end.db.wallets, end.eventsInserted)
  {
    hide AddAllLaunches, AddAllEvents, GraduateAll, EventsLanded, WalletsSeen, LaunchesLanded, LastFor;
    LaunchListsJoin(Begin(db), c.pons, c.o1);
    var t2 := AddAllLaunches(Begin(db), c.pons + c.o1).value;
    var t2' := t2.(db := GraduateAll(t2.db, c.graduations));
    launched := LaunchesMean(Begin(db), c.pons + c.o1);
    LaunchesKeepTheRest(Begin(db), c.pons + c.o1);
    GraduateAllMeans(t2.db, c.graduations);
    stored := EventsMean(t2', c.events);
    AddAllEventsLaws(t2', c.events);
    assert t2.inserted[|Begin(db).inserted|..] == t2.inserted;
    var end := Apply(db, c, name, w).value;
    assert end.eventsInserted[|t2'.eventsInserted|..] == end.eventsInserted;
  }
}
