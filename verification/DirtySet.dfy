/** The bounded set of last prices waiting to be written: a map and a recency list updated in place. */
module DirtySet {
  import opened Prelude

  type Token = string

  /** The last priced trade of a token; `version` is stamped by the set. */
  datatype Point = Point(token: Token, tx: string, price: real, block: nat, version: nat)

  /** The price columns of a directory row. */
  datatype Shown = Shown(price: real, block: nat, tx: string)

  function ShownBy(p: Point): Shown { Shown(p.price, p.block, p.tx) }

  datatype Dirty = Dirty(cap: nat, items: map<Token, Point>, order: seq<Token>, nextId: nat)

  /** The list holds exactly the map's tokens, each once, in strictly ascending order of version. */
  ghost predicate Listed(order: seq<Token>, items: map<Token, Point>)
    decreases |order|
  {
    if order == [] then items == map[]
    else
      var last := order[|order| - 1];
      && last in items && items[last].token == last
      && (forall t :: t in items && t != last ==> items[t].version < items[last].version)
      && Listed(order[..|order| - 1], items - {last})
  }

  ghost predicate Valid(d: Dirty)
  {
    && d.cap >= 1 && |d.order| <= d.cap
    && Listed(d.order, d.items)
    && forall t :: t in d.items ==> d.items[t].version <= d.nextId
  }

  /** The list without t. */
  function Without(s: seq<Token>, t: Token): seq<Token>
    decreases |s|
  {
    if s == [] then []
    else if s[|s| - 1] == t then s[..|s| - 1]
    else Without(s[..|s| - 1], t) + [s[|s| - 1]]
  }

  /** What the recursive form says in the usual words: a bijection, and an ascending list. */
  lemma {:induction false} ListedMeans(order: seq<Token>, items: map<Token, Point>)
    requires Listed(order, items)
    ensures |items| == |order|
    ensures forall t :: t in items <==> t in order
    ensures forall t :: t in items ==> items[t].token == t
    decreases |order|
  {
    if order != [] {
      var front, last := order[..|order| - 1], order[|order| - 1];
      ListedMeans(front, items - {last});
      assert items.Keys == (items - {last}).Keys + {last};
      assert order == front + [last];
    }
  }

  lemma TokensAreKeys(d: Dirty)
    requires Valid(d)
    ensures forall t :: t in d.items ==> d.items[t].token == t
  {
    ListedMeans(d.order, d.items);
  }

  lemma {:induction false} ListedAscends(order: seq<Token>, items: map<Token, Point>, i: nat, j: nat)
    requires Listed(order, items) && i < j < |order|
    ensures order[i] in items && order[j] in items && items[order[i]].version < items[order[j]].version
    decreases |order|
  {
    var front, last := order[..|order| - 1], order[|order| - 1];
    if j < |order| - 1 {
      ListedAscends(front, items - {last}, i, j);
    } else {
      ListedMeans(front, items - {last});
      assert front[i] in items - {last};
    }
  }

  lemma {:induction false} WithoutIsListed(order: seq<Token>, items: map<Token, Point>, t: Token)
    requires Listed(order, items) && t in items
    ensures Listed(Without(order, t), items - {t})
    ensures |Without(order, t)| == |order| - 1
    decreases |order|
  {
    var front, last := order[..|order| - 1], order[|order| - 1];
    if last != t {
      WithoutIsListed(front, items - {last}, t);
      var rest := Without(order, t);
      assert rest[..|rest| - 1] == Without(front, t);
      assert items - {t} - {last} == items - {last} - {t};
    }
  }

  lemma AppendedIsListed(order: seq<Token>, items: map<Token, Point>, q: Point)
    requires Listed(order, items) && q.token !in items
    requires forall t :: t in items ==> items[t].version < q.version
    ensures Listed(order + [q.token], items[q.token := q])
  {
    var longer := order + [q.token];
    assert longer[..|longer| - 1] == order;
    assert items[q.token := q] - {q.token} == items;
  }

  /** Taking a token out of the map and of the list. */
  function Removed(d: Dirty, t: Token): Dirty
  {
    d.(items := d.items - {t}, order := Without(d.order, t))
  }

  /** The oldest token gives way when a new one meets a full set. */
  function Evicted(d: Dirty, t: Token): Option<Token>
  {
    if t !in d.items && |d.items| >= d.cap && d.order != [] then Some(d.order[0]) else None
  }

  /** Marking p stamps it with the next version and makes its token the most recent one. */
  function Marked(d: Dirty, p: Point): Dirty
  {
    var room :=
      if p.token in d.items then Removed(d, p.token)
      else match Evicted(d, p.token) case Some(oldest) => Removed(d, oldest) case None => d;
    Dirty(d.cap, room.items[p.token := p.(version := d.nextId + 1)], room.order + [p.token], d.nextId + 1)
  }

  /** Dropping p, unless its token was marked again since. */
  function Dropped(d: Dirty, p: Point): Dirty
  {
    if p.token in d.items && d.items[p.token].version == p.version then Removed(d, p.token) else d
  }

  lemma MarkedIsValid(d: Dirty, p: Point)
    requires Valid(d)
    ensures Valid(Marked(d, p))
  {
    hide Listed, Without;
    ListedMeans(d.order, d.items);
    var victim := if p.token in d.items then Some(p.token) else Evicted(d, p.token);
    var room := if victim.Some? then Removed(d, victim.value) else d;
    if victim.Some? { WithoutIsListed(d.order, d.items, victim.value); }
    AppendedIsListed(room.order, room.items, p.(version := d.nextId + 1));
  }

  lemma DroppedIsValid(d: Dirty, p: Point)
    requires Valid(d)
    ensures Valid(Dropped(d, p))
  {
    if p.token in d.items { WithoutIsListed(d.order, d.items, p.token); }
  }

  /** An overflow evicts the token whose last mark is the oldest of all, and only that one. */
  lemma EvictionTakesLeastRecent(d: Dirty, p: Point, t: Token)
    requires Valid(d) && Evicted(d, p.token).Some? && t in d.items
    ensures var victim := Evicted(d, p.token).value;
      && victim in d.items && victim !in Marked(d, p).items
      && d.items[victim].version <= d.items[t].version
      && (t != victim ==> t in Marked(d, p).items && Marked(d, p).items[t] == d.items[t])
  {
    ListedMeans(d.order, d.items);
    var i :| 0 <= i < |d.order| && d.order[i] == t;
    if i > 0 { ListedAscends(d.order, d.items, 0, i); }
  }

  /** The points are the map's values, one per token, in whatever order the map was walked. */
  ghost predicate Enumerates(points: seq<Point>, items: map<Token, Point>)
  {
    && (forall i :: 0 <= i < |points| ==> points[i].token in items && items[points[i].token] == points[i])
    && (forall i, j :: 0 <= i < j < |points| ==> points[i].token != points[j].token)
    && (forall t :: t in items ==> items[t] in points)
  }

  lemma EnumeratesMeans(points: seq<Point>, items: map<Token, Point>)
    requires Enumerates(points, items)
    requires forall t :: t in items ==> items[t].token == t
    ensures forall i :: 0 <= i < |points| ==> points[i].token in items && items[points[i].token] == points[i]
    ensures forall i, j :: 0 <= i < |points| && 0 <= j < |points| && points[i].token == points[j].token ==> i == j
    ensures forall t :: t in items ==> exists i :: 0 <= i < |points| && points[i].token == t
  {
    forall t | t in items ensures exists i :: 0 <= i < |points| && points[i].token == t {
      var i :| 0 <= i < |points| && points[i] == items[t];
    }
  }

  /** The price columns of the launch directory; only the flusher writes them. */
  class PriceColumns {
    var shown: map<Token, Shown>

    constructor ()
      ensures shown == map[]
    {
      shown := map[];
    }
  }

  class PriceBuffer {
    const cap: nat
    var items: map<Token, Point>
    var order: seq<Token>
    var nextId: nat

    constructor (capacity: nat)
      requires capacity >= 1
      ensures View() == Dirty(capacity, map[], [], 0) && Valid(View())
    {
      cap, items, order, nextId := capacity, map[], [], 0;
    }

    ghost function View(): Dirty
      reads this
    {
      Dirty(cap, items, order, nextId)
    }

    /** `resolved` is the token of the directory row, or None when reading it failed. */
    method Mark(point: Point, at: int, resolved: Option<Token>) returns (ok: bool)
      requires Valid(View())
      modifies this
      ensures Valid(View())
      ensures ok <==> point.price > 0.0 && point.token != "" && point.tx != "" && at != 0 && resolved.Some?
      ensures View() == if ok then Marked(old(View()), point.(token := resolved.value)) else old(View())
    {
      hide Listed, Without;
      if point.price <= 0.0 || point.token == "" || point.tx == "" || at == 0 {
        return false;
      }
      if resolved == None {
        return false;
      }
      var token := resolved.value;
      MarkedIsValid(View(), point.(token := token));
      ListedMeans(order, items);
      nextId := nextId + 1;
      var stamped := point.(token := token, version := nextId);
      if token in items {
        assert items[token := stamped] == (items - {token})[token := stamped];
        items := items[token := stamped];
        order := Without(order, token) + [token];
        return true;
      }
      if |items| >= cap {
        var oldest := order[0];
        FrontWithout(order, items);
        items := items - {oldest};
        order := order[1..];
      }
      order := order + [token];
      items := items[token := stamped];
      ok := true;
    }

    method Snapshot() returns (points: seq<Point>)
      requires forall t :: t in items ==> items[t].token == t
      ensures Enumerates(points, items)
    {
      points := [];
      var left := items.Keys;
      while left != {}
        invariant left <= items.Keys
        invariant forall i :: 0 <= i < |points| ==>
          points[i].token in items && points[i].token !in left && items[points[i].token] == points[i]
        invariant forall i, j :: 0 <= i < j < |points| ==> points[i].token != points[j].token
        invariant forall t :: t in items && t !in left ==> items[t] in points
        decreases left
      {
        var t :| t in left;
        points := points + [items[t]];
        left := left - {t};
      }
    }

    method RemoveVersion(point: Point)
      requires Valid(View())
      modifies this`items, this`order
      ensures Valid(View()) && View() == Dropped(old(View()), point)
    {
      DroppedIsValid(View(), point);
      if point.token in items && items[point.token].version == point.version {
        order := Without(order, point.token);
        items := items - {point.token};
      }
    }

    /** One turn of the flushing loop: read the row, write it unless it already shows the point, and
        drop the point if either worked. */
    method FlushPoint(point: Point, store: PriceColumns, readFails: set<Token>, writeFails: set<Token>)
      returns (written: bool)
      requires Valid(View()) && point.token in items && items[point.token] == point
      modifies this`items, this`order, store
      ensures Valid(View())
      ensures written <==> point.token in Flushable(old(items), old(store.shown), readFails, writeFails)
      ensures items == if written then old(items) - {point.token} else old(items)
      ensures store.shown == if written then old(store.shown)[point.token := ShownBy(point)] else old(store.shown)
    {
      hide Listed, Without;
      if point.token in readFails {
        return false;
      }
      if point.token in store.shown && store.shown[point.token] == ShownBy(point) {
        RemoveVersion(point);
        return true;
      }
      if point.token in writeFails {
        return false;
      }
      store.shown := store.shown[point.token := ShownBy(point)];
      RemoveVersion(point);
      written := true;
    }

    /** A flush nobody interrupts. A token stays exactly when its row could not be read, or could not
        be written although it does not show the price yet; every other row shows the last mark. */
    method Flush(store: PriceColumns, readFails: set<Token>, writeFails: set<Token>) returns (ok: bool)
      requires Valid(View())
      modifies this`items, this`order, store
      ensures Valid(View())
      ensures var gone := Flushable(old(items), old(store.shown), readFails, writeFails);
        && items == old(items) - gone
        && store.shown == old(store.shown) + Written(old(items), gone)
        && (ok <==> gone == old(items).Keys)
    {
      hide Listed, Without, Enumerates, Flushable, Written, Valid;
      ghost var items0, shown0 := items, store.shown;
      ghost var gone := Flushable(items, store.shown, readFails, writeFails);
      TokensAreKeys(View());
      var points := Snapshot();
      EnumeratesMeans(points, items);
      ok := true;
      var i := 0;
      ghost var seen: set<Token> := {};
      FlushableKeys(items, store.shown, readFails, writeFails);
      NothingWritten(items, store.shown);
      assert gone * {} == {} && items - {} == items;
      while i < |points|
        invariant 0 <= i <= |points|
        invariant Valid(View())
        invariant seen <= items0.Keys
        invariant forall j :: 0 <= j < |points| ==> (points[j].token in seen <==> j < i)
        invariant items == items0 - gone * seen
        invariant store.shown == shown0 + Written(items0, gone * seen)
        invariant ok <==> seen <= gone
      {
        FlushedOne(items0, shown0, readFails, writeFails, seen, points[i].token);
        var written := FlushPoint(points[i], store, readFails, writeFails);
        ok := ok && written;
        seen := seen + {points[i].token};
        i := i + 1;
      }
      assert seen == items0.Keys;
      assert gone * seen == gone;
    }
  }

  /** The tokens a flush gets rid of: their row is read, and it already shows the price or is written. */
  function Flushable(
      items: map<Token, Point>, shown: map<Token, Shown>, readFails: set<Token>, writeFails: set<Token>): set<Token>
  {
    set t | t in items && t !in readFails &&
      (t !in writeFails || (t in shown && shown[t] == ShownBy(items[t])))
  }

  function Written(items: map<Token, Point>, tokens: set<Token>): map<Token, Shown>
    requires tokens <= items.Keys
  {
    map t | t in tokens :: ShownBy(items[t])
  }

  /** The row shows price, block and transaction of the point. */
  predicate ShowsPrice(shown: map<Token, Shown>, t: Token, p: Point)
  {
    t in shown && shown[t].price == p.price && shown[t].block == p.block && shown[t].tx == p.tx
  }

  /** What a flush leaves: a token stays exactly when its row could not be read, or could not be written although it
      does not show the price; every other row shows the price, block and transaction of the last mark; and the rows
      of tokens that stay are as they were. */
  lemma FlushMeans(items: map<Token, Point>, shown: map<Token, Shown>, readFails: set<Token>, writeFails: set<Token>,
      t: Token)
    ensures var gone := Flushable(items, shown, readFails, writeFails);
      var left, after := items - gone, shown + Written(items, gone);
      && (t in left <==>
           t in items && (t in readFails || (t in writeFails && !ShowsPrice(shown, t, items[t]))))
      && (t in items && t !in left ==> ShowsPrice(after, t, items[t]))
      && (t !in items || t in left ==> (t in after <==> t in shown) && (t in after ==> after[t] == shown[t]))
  {
  }

  lemma FlushableKeys(items: map<Token, Point>, shown: map<Token, Shown>, readFails: set<Token>, writeFails: set<Token>)
    ensures Flushable(items, shown, readFails, writeFails) <= items.Keys
  {
  }

  lemma NothingWritten(items: map<Token, Point>, shown: map<Token, Shown>)
    ensures shown + Written(items, {}) == shown
  {
  }

  /** One more token: what it does to the map and to the columns when it can be flushed, and that the
      decision does not depend on the tokens seen before. */
  lemma FlushedOne(items: map<Token, Point>, shown: map<Token, Shown>,
      readFails: set<Token>, writeFails: set<Token>, seen: set<Token>, t: Token)
    requires t in items && t !in seen
    ensures var gone := Flushable(items, shown, readFails, writeFails);
      var items', shown' := items - gone * seen, shown + Written(items, gone * seen);
      && gone <= items.Keys
      && t in items' && items'[t] == items[t]
      && (t in Flushable(items', shown', readFails, writeFails) <==> t in gone)
      && (if t in gone then
           && items - gone * (seen + {t}) == items' - {t}
           && shown + Written(items, gone * (seen + {t})) == shown'[t := ShownBy(items[t])]
         else gone * (seen + {t}) == gone * seen)
  {
    var gone := Flushable(items, shown, readFails, writeFails);
    if t in gone {
      assert gone * (seen + {t}) == gone * seen + {t};
    } else {
      assert gone * (seen + {t}) == gone * seen;
    }
  }

  lemma {:induction false} FrontWithout(order: seq<Token>, items: map<Token, Point>)
    requires Listed(order, items) && order != []
    ensures Without(order, order[0]) == order[1..]
    decreases |order|
  {
    var front, last := order[..|order| - 1], order[|order| - 1];
    if |order| > 1 {
      ListedAscends(order, items, 0, |order| - 1);
      FrontWithout(front, items - {last});
    }
  }
}
