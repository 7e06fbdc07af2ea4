/** The tables a block touches, as maps from their primary keys, and the whole-block transaction. */
module Tables {
  import opened Prelude
  import EventId

  type Address = string
  type Hash = string

  datatype Category = Pons | O1Crypto | O1Stock | Long

  datatype Status = Active | Graduated | Ignored

  datatype Phase = OnCurve | Done | Failed

  datatype IndexRow = IndexRow(category: Category, status: Status)

  datatype PonsRow = PonsRow(
    curve: Address, pair: Address, pairDecimals: nat, phase: Phase, graduatedAt: Option<int>, pool: Option<Hash>,
    tx: Hash, log: nat)

  datatype O1Row = O1Row(pool: Hash, quote: Address, quoteDecimals: nat, tx: Hash, log: nat)

  datatype Wallet = Wallet(active: bool, lastSeen: Option<int>)

  datatype SyncState = SyncState(last: nat, hash: Hash, at: int)

  datatype Kind = Launch | Buy | Sell

  /** A decoded creation event with the detail row it wants to insert. */
  datatype Launched = PonsLaunch(token: Address, pons: PonsRow) | O1Launch(token: Address, o1: O1Row)
  {
    function Category(): Category { if PonsLaunch? then Pons else O1Crypto }
  }

  datatype Graduation = Graduation(token: Address, pool: Hash, at: int)

  /** `id` is empty when it is to be computed; the flags say whether the addresses are well formed, an absent
      quote address being so. */
  datatype Event = Event(
    id: string, block: nat, tx: nat, log: nat, at: int, wallet: Address, kind: Kind, category: Category,
    token: Address, tokenOk: bool, walletOk: bool, quoteOk: bool)

  datatype Changes = Changes(
    pons: seq<Launched>, o1: seq<Launched>, graduations: seq<Graduation>, events: seq<Event>)

  datatype Db = Db(
    index: map<Address, IndexRow>, pons: map<Address, PonsRow>, o1: map<Address, O1Row>,
    events: map<string, Event>, wallets: map<Address, Wallet>, sync: map<string, SyncState>)

  datatype Conflict = Conflict(token: Address, existing: Category, incoming: Category)

  datatype TxError = Unique | BadAddress | Storage

  /** The transaction under way: the tables so far and what is reported to the caller. */
  datatype Tx = Tx(
    db: Db, inserted: seq<Launched>, eventsInserted: seq<Event>,
    conflicts: seq<Conflict>, skipped: set<(Address, Category)>, overWidth: nat)

  function Begin(db: Db): Tx
  {
    Tx(db, [], [], [], {}, 0)
  }

  function Conflicting(t: Tx, token: Address, incoming: Category): Tx
    requires token in t.db.index
  {
    t.(conflicts := t.conflicts + [Conflict(token, t.db.index[token].category, incoming)],
       skipped := t.skipped + {(token, incoming)})
  }

  /** A detail row with the same transaction and log number, or the same token, is already there. */
  predicate Taken(db: Db, l: Launched)
  {
    match l
    case PonsLaunch(token, row) =>
      token in db.pons || exists k :: k in db.pons && db.pons[k].tx == row.tx && db.pons[k].log == row.log
    case O1Launch(token, row) =>
      token in db.o1 || exists k :: k in db.o1 && db.o1[k].tx == row.tx && db.o1[k].log == row.log
  }

  function Inserted(db: Db, l: Launched): Db
  {
    var index := db.index[l.token := IndexRow(l.Category(), Active)];
    match l
    case PonsLaunch(token, row) => db.(index := index, pons := db.pons[token := row])
    case O1Launch(token, row) => db.(index := index, o1 := db.o1[token := row])
  }

  /** One launch: a known token is skipped, and reported when its category differs. */
  function AddLaunch(t: Tx, l: Launched): Result<Tx, TxError>
  {
    if l.token in t.db.index then
      Ok(if t.db.index[l.token].category != l.Category() then Conflicting(t, l.token, l.Category()) else t)
    else if Taken(t.db, l) then Err(Unique)
    else Ok(t.(db := Inserted(t.db, l), inserted := t.inserted + [l]))
  }

  /** Two updates that touch only rows that are there. */
  function Graduate(db: Db, g: Graduation): Db
  {
    var pons := if g.token in db.pons
      then db.pons[g.token := db.pons[g.token].(phase := Done, graduatedAt := Some(g.at), pool := Some(g.pool))]
      else db.pons;
    var index := if g.token in db.index && db.index[g.token].category == Pons
      then db.index[g.token := db.index[g.token].(status := Graduated)]
      else db.index;
    db.(pons := pons, index := index)
  }

  function KeyOf(e: Event): string
  {
    if e.id == "" then EventId.CalcEventId(e.block, e.tx, e.log).0 else e.id
  }

  function AddEvent(t: Tx, e: Event): Result<Tx, TxError>
  {
    if e.kind == Launch && !e.tokenOk then Err(BadAddress)
    else if e.kind == Launch && (e.token, e.category) in t.skipped then Ok(t)
    else
      var wide := if e.id == "" && !EventId.Fits(e.block, e.tx, e.log) then 1 else 0;
      var t1, key := t.(overWidth := t.overWidth + wide), KeyOf(e);
      if !e.walletOk || !e.tokenOk || !e.quoteOk then Err(BadAddress)
      else if key in t.db.events then Ok(t1)
      else
        var wallets := if e.wallet in t.db.wallets && t.db.wallets[e.wallet].active
          then t.db.wallets[e.wallet := t.db.wallets[e.wallet].(lastSeen := Some(e.at))]
          else t.db.wallets;
        var row := e.(id := key);
        Ok(t1.(db := t.db.(events := t.db.events[key := row], wallets := wallets),
               eventsInserted := t.eventsInserted + [row]))
  }

  function AddAllLaunches(t: Tx, ls: seq<Launched>): Result<Tx, TxError>
    decreases |ls|
  {
    if ls == [] then Ok(t)
    else match AddLaunch(t, ls[0]) case Err(e) => Err(e) case Ok(t') => AddAllLaunches(t', ls[1..])
  }

  function GraduateAll(db: Db, gs: seq<Graduation>): Db
    decreases |gs|
  {
    if gs == [] then db else GraduateAll(Graduate(db, gs[0]), gs[1..])
  }

  function AddAllEvents(t: Tx, es: seq<Event>): Result<Tx, TxError>
    decreases |es|
  {
    if es == [] then Ok(t)
    else match AddEvent(t, es[0]) case Err(e) => Err(e) case Ok(t') => AddAllEvents(t', es[1..])
  }

  /** The whole block: launches, graduations, events, then the watermark. */
  function Apply(db: Db, c: Changes, name: string, w: SyncState): Result<Tx, TxError>
  {
    match AddAllLaunches(Begin(db), c.pons)
    case Err(e) => Err(e)
    case Ok(t1) =>
      match AddAllLaunches(t1, c.o1)
      case Err(e) => Err(e)
      case Ok(t2) =>
        match AddAllEvents(t2.(db := GraduateAll(t2.db, c.graduations)), c.events)
        case Err(e) => Err(e)
        case Ok(t3) => Ok(t3.(db := t3.db.(sync := t3.db.sync[name := w])))
  }

  /** The first n launches, graduations and events of a block, in the order of the transaction. */
  function FirstItems(c: Changes, n: nat): Changes
  {
    var p := Min(n, |c.pons|);
    var o := Min(n - p, |c.o1|);
    var g := Min(n - p - o, |c.graduations|);
    var e := Min(n - p - o - g, |c.events|);
    Changes(c.pons[..p], c.o1[..o], c.graduations[..g], c.events[..e])
  }

  /** The transaction with a database error after n items, or at the end when there are no more: whichever error
      comes first is the one that is reported. */
  function Attempted(db: Db, c: Changes, name: string, w: SyncState, failsAt: Option<nat>): Result<Tx, TxError>
  {
    match failsAt
    case None => Apply(db, c, name, w)
    case Some(n) =>
      match Apply(db, FirstItems(c, n), name, w)
      case Err(e) => Err(e)
      case Ok(_) => Err(Storage)
  }

  /** A database error strikes within the next n items. */
  predicate Strikes(failsAt: Option<nat>, n: nat) { failsAt.Some? && failsAt.value < n }

  function Past(failsAt: Option<nat>, n: nat): Option<nat>
    requires !Strikes(failsAt, n)
  {
    match failsAt case None => None case Some(k) => Some(k - n)
  }

  function Stopped<T>(r: Result<T, TxError>): Result<T, TxError>
  {
    match r case Err(e) => Err(e) case Ok(_) => Err(Storage)
  }

  /** The launches of one category, one by one. */
  method InsertLaunches(t: Tx, ls: seq<Launched>, failsAt: Option<nat>) returns (r: Result<Tx, TxError>)
    ensures r ==
      if Strikes(failsAt, |ls|) then Stopped(AddAllLaunches(t, ls[..failsAt.value])) else AddAllLaunches(t, ls)
  {
    hide AddLaunch;
    ghost var cut := if Strikes(failsAt, |ls|) then ls[..failsAt.value] else ls;
    var tx, i := t, 0;
    while i < |ls|
      invariant 0 <= i <= |cut|
      invariant AddAllLaunches(tx, cut[i..]) == AddAllLaunches(t, cut)
    {
      if failsAt == Some(i) {
        assert cut[i..] == [];
        return Err(Storage);
      }
      assert cut[i..][0] == ls[i] && cut[i..][1..] == cut[i + 1..];
      var step := AddLaunch(tx, ls[i]);
      if step.Err? {
        return Err(step.error);
      }
      tx := step.value;
      i := i + 1;
    }
    assert cut[i..] == [];
    r := Ok(tx);
  }

  method UpdateGraduations(t: Tx, gs: seq<Graduation>, failsAt: Option<nat>) returns (r: Result<Tx, TxError>)
    ensures r == if Strikes(failsAt, |gs|) then Err(Storage) else Ok(t.(db := GraduateAll(t.db, gs)))
  {
    hide Graduate;
    var tx, i := t, 0;
    while i < |gs|
      invariant 0 <= i <= |gs| && tx == t.(db := tx.db) && !Strikes(failsAt, i)
      invariant GraduateAll(tx.db, gs[i..]) == GraduateAll(t.db, gs)
    {
      if failsAt == Some(i) {
        return Err(Storage);
      }
      assert gs[i..][0] == gs[i] && gs[i..][1..] == gs[i + 1..];
      tx := tx.(db := Graduate(tx.db, gs[i]));
      i := i + 1;
    }
    assert gs[i..] == [];
    r := Ok(tx);
  }

  method InsertEvents(t: Tx, es: seq<Event>, failsAt: Option<nat>) returns (r: Result<Tx, TxError>)
    ensures r ==
      if Strikes(failsAt, |es|) then Stopped(AddAllEvents(t, es[..failsAt.value])) else AddAllEvents(t, es)
  {
    hide AddEvent;
    ghost var cut := if Strikes(failsAt, |es|) then es[..failsAt.value] else es;
    var tx, i := t, 0;
    while i < |es|
      invariant 0 <= i <= |cut|
      invariant AddAllEvents(tx, cut[i..]) == AddAllEvents(t, cut)
    {
      if failsAt == Some(i) {
        assert cut[i..] == [];
        return Err(Storage);
      }
      assert cut[i..][0] == es[i] && cut[i..][1..] == cut[i + 1..];
      var step := AddEvent(tx, es[i]);
      if step.Err? {
        return Err(step.error);
      }
      tx := step.value;
      i := i + 1;
    }
    assert cut[i..] == [];
    r := Ok(tx);
  }

  lemma NothingToAdd()
    ensures forall t :: AddAllLaunches(t, []) == Ok(t)
    ensures forall db :: GraduateAll(db, []) == db
    ensures forall t :: AddAllEvents(t, []) == Ok(t)
  {
  }

  /** The stages of the transaction up to a database error in one of them, or at the end. */
  lemma StopsIn(c: Changes, n: nat)
    ensures var p, o, g, e := |c.pons|, |c.pons| + |c.o1|, |c.pons| + |c.o1| + |c.graduations|, Items(c);
      && (n < p ==> FirstItems(c, n) == Changes(c.pons[..n], [], [], []))
      && (p <= n < o ==> FirstItems(c, n) == Changes(c.pons, c.o1[..n - p], [], []))
      && (o <= n < g ==> FirstItems(c, n) == Changes(c.pons, c.o1, c.graduations[..n - o], []))
      && (g <= n < e ==> FirstItems(c, n) == Changes(c.pons, c.o1, c.graduations, c.events[..n - g]))
      && (e <= n ==> FirstItems(c, n) == c)
  {
  }

  function Items(c: Changes): nat { |c.pons| + |c.o1| + |c.graduations| + |c.events| }

  /** The store: its tables change only when a transaction commits. */
  class Store {
    var tables: Db

    constructor ()
      ensures tables == Db(map[], map[], map[], map[], map[], map[])
    {
      tables := Db(map[], map[], map[], map[], map[], map[]);
    }

    /** `failsAt` is a database error: before the item of that number, or at the watermark or the commit. */
    method CommitBlock(c: Changes, name: string, w: SyncState, failsAt: Option<nat>) returns (r: Result<Tx, TxError>)
      modifies this
      ensures r == Attempted(old(tables), c, name, w, failsAt)
      ensures r.Ok? <==> failsAt == None && Apply(old(tables), c, name, w).Ok?
      ensures tables == if r.Ok? then r.value.db else old(tables)
    {
      hide AddAllLaunches, GraduateAll, AddAllEvents, FirstItems;
      if failsAt.Some? { StopsIn(c, failsAt.value); }
      NothingToAdd();
      r := InsertLaunches(Begin(tables), c.pons, failsAt);
      if r.Err? {
        return;
      }
      var left := Past(failsAt, |c.pons|);
      r := InsertLaunches(r.value, c.o1, left);
      if r.Err? {
        return;
      }
      left := Past(left, |c.o1|);
      r := UpdateGraduations(r.value, c.graduations, left);
      if r.Err? {
        return;
      }
      left := Past(left, |c.graduations|);
      r := InsertEvents(r.value, c.events, left);
      if r.Err? {
        return;
      }
      if failsAt.Some? {
        return Err(Storage);
      }
      var tx := r.value.(db := r.value.db.(sync := r.value.db.sync[name := w]));
      tables := tx.db;
      r := Ok(tx);
    }
  }
}
