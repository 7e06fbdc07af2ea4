/** FIFO profit and loss: replaying buys and sells against a queue of lots, and the closed form it
    computes, where every sell covers an interval of the cumulative bought quantity. */
module Fifo {
  import opened Prelude

  datatype Direction = Buy | Sell | Other

  /** One trade. `raw` is the parsed decimal quantity (None when the text is no integer), `price` is
      None for a row without a dollar price. */
  datatype Trade = Trade(id: nat, direction: Direction, raw: Option<int>, decimals: nat, price: Option<real>)

  datatype Lot = Lot(qty: real, price: real, decimals: nat)

  datatype SellResult = SellResult(id: nat, pnl: real, matched: real, overflow: real)

  datatype Failure = BadQuantity(id: nat) | DecimalsDiffer(id: nat)

  function Pow10(n: nat): (p: real)
    ensures p >= 1.0
  {
    if n == 0 then 1.0 else 10.0 * Pow10(n - 1)
  }

  /** The quantity in whole tokens; None when the text is no integer. */
  function HumanQuantity(raw: Option<int>, decimals: nat): Option<real>
  {
    match raw
    case None => None
    case Some(n) => Some(n as real / Pow10(decimals))
  }

  function MinReal(a: real, b: real): real { if a < b then a else b }

  function MaxReal(a: real, b: real): real { if a < b then b else a }

  predicate Relevant(e: Trade) { e.direction != Other && e.price.Some? }

  /** A usable quantity: an integer above zero. */
  predicate Usable(e: Trade) { e.raw.Some? && e.raw.value > 0 }

  function Quantity(e: Trade): (q: real)
    requires Usable(e)
    ensures q > 0.0
  {
    e.raw.value as real / Pow10(e.decimals)
  }

  ghost predicate Positive(lots: seq<Lot>)
  {
    forall i :: 0 <= i < |lots| ==> lots[i].qty > 0.0
  }

  // ----- The queue, step by step -----

  /** A sell in progress: what is still to match, what was matched, its profit, and the lots left. */
  datatype Matching = Matching(remaining: real, matched: real, pnl: real, lots: seq<Lot>)

  /** Consume lots from the front until the sell is covered or nothing is left; None when it reaches
      a lot of other decimals. */
  function Consume(m: Matching, price: real, decimals: nat): Option<Matching>
    decreases |m.lots|
  {
    if m.lots == [] || m.remaining <= 0.0 then Some(m)
    else if m.lots[0].decimals != decimals then None
    else
      var next := Taken(m, price);
      if |next.lots| < |m.lots| then Consume(next, price, decimals) else Some(next)
  }

  /** One turn of the matching loop: take what the front lot offers, drop it once it is empty. */
  function Taken(m: Matching, price: real): (next: Matching)
    requires m.lots != []
    ensures |next.lots| == |m.lots| ==> next.remaining == 0.0
  {
    var lot := m.lots[0];
    var take := MinReal(m.remaining, lot.qty);
    Matching(m.remaining - take, m.matched + take, m.pnl + take * (price - lot.price),
      if lot.qty - take == 0.0 then m.lots[1..] else m.lots[0 := lot.(qty := lot.qty - take)])
  }

  datatype Book = Book(lots: seq<Lot>, results: seq<SellResult>)

  function Play(book: Book, e: Trade): Result<Book, Failure>
  {
    if !Relevant(e) then Ok(book)
    else if !Usable(e) then Err(BadQuantity(e.id))
    else if e.direction == Buy then
      Ok(book.(lots := book.lots + [Lot(Quantity(e), e.price.value, e.decimals)]))
    else
      match Consume(Matching(Quantity(e), 0.0, 0.0, book.lots), e.price.value, e.decimals)
      case None => Err(DecimalsDiffer(e.id))
      case Some(m) => Ok(Book(m.lots, book.results + [SellResult(e.id, m.pnl, m.matched, m.remaining)]))
  }

  function Replay(book: Book, es: seq<Trade>): Result<Book, Failure>
    decreases |es|
  {
    if es == [] then Ok(book)
    else
      match Play(book, es[0])
      case Err(f) => Err(f)
      case Ok(next) => Replay(next, es[1..])
  }

  /** The inner loop: match one sell against the front of the queue. */
  method MatchSell(lots0: seq<Lot>, qty: real, price: real, decimals: nat)
    returns (lots: seq<Lot>, remaining: real, matched: real, pnl: real, ok: bool)
    ensures var done := Consume(Matching(qty, 0.0, 0.0, lots0), price, decimals);
      if ok then done == Some(Matching(remaining, matched, pnl, lots)) else done == None
  {
    ghost var start := Matching(qty, 0.0, 0.0, lots0);
    lots, remaining, matched, pnl, ok := lots0, qty, 0.0, 0.0, true;
    while |lots| > 0 && remaining > 0.0
      invariant Consume(Matching(remaining, matched, pnl, lots), price, decimals) == Consume(start, price, decimals)
      decreases |lots|, if remaining > 0.0 then 1 else 0
    {
      if lots[0].decimals != decimals {
        ok := false;
        return;
      }
      ghost var next := Taken(Matching(remaining, matched, pnl, lots), price);
      var take := MinReal(remaining, lots[0].qty);
      pnl := pnl + take * (price - lots[0].price);
      matched := matched + take;
      remaining := remaining - take;
      lots := lots[0 := lots[0].(qty := lots[0].qty - take)];
      if lots[0].qty == 0.0 {
        lots := lots[1..];
      }
      assert Matching(remaining, matched, pnl, lots) == next;
    }
  }

  /** The replay as the program runs it: one queue of lots, consumed from the front in place. */
  method ReplayFifo(events: seq<Trade>) returns (r: Result<seq<SellResult>, Failure>)
    ensures r == ClosedForm(events)
  {
    hide Consume, Pow10, ClosedForm;
    var lots: seq<Lot> := [];
    var results: seq<SellResult> := [];
    var i := 0;
    ReplayIsClosedForm(events);
    while i < |events|
      invariant 0 <= i <= |events|
      invariant Replay(Book(lots, results), events[i..]) == Replay(Book([], []), events)
    {
      var e := events[i];
      assert events[i..][0] == e && events[i..][1..] == events[i + 1..];
      i := i + 1;
      if (e.direction != Buy && e.direction != Sell) || e.price == None {
        continue;
      }
      var qty := HumanQuantity(e.raw, e.decimals);
      if qty == None {
        return Err(BadQuantity(e.id));
      }
      QuantitySign(e);
      if qty.value <= 0.0 {
        return Err(BadQuantity(e.id));
      }
      if e.direction == Buy {
        lots := lots + [Lot(qty.value, e.price.value, e.decimals)];
        continue;
      }
      var remaining, matched, pnl, ok;
      lots, remaining, matched, pnl, ok := MatchSell(lots, qty.value, e.price.value, e.decimals);
      if !ok {
        return Err(DecimalsDiffer(e.id));
      }
      results := results + [SellResult(e.id, pnl, matched, remaining)];
    }
    assert events[i..] == [];
    r := Ok(results);
  }

  lemma QuantitySign(e: Trade)
    ensures e.raw.Some? ==> (e.raw.value > 0 <==> e.raw.value as real / Pow10(e.decimals) > 0.0)
  {
  }

  // ----- The closed form -----

  /** Cumulative quantity of the first n buys. */
  function Bought(buys: seq<Lot>, n: nat): real
    requires n <= |buys|
  {
    if n == 0 then 0.0 else Bought(buys, n - 1) + buys[n - 1].qty
  }

  /** Length of the intersection of [a, b) and [lo, hi). */
  function Overlap(a: real, b: real, lo: real, hi: real): real
  {
    MaxReal(0.0, MinReal(b, hi) - MaxReal(a, lo))
  }

  /** Profit of selling the interval [lo, hi) of the cumulative quantity: every buy contributes the
      part of its own interval that lies inside. */
  function Profit(buys: seq<Lot>, n: nat, lo: real, hi: real, price: real): real
    requires n <= |buys|
  {
    if n == 0 then 0.0
    else
      var share := Overlap(Bought(buys, n - 1), Bought(buys, n), lo, hi);
      Profit(buys, n - 1, lo, hi, price) + share * (price - buys[n - 1].price)
  }

  /** The interval [lo, hi) meets a buy of other decimals. */
  predicate Clash(buys: seq<Lot>, lo: real, hi: real, decimals: nat)
  {
    exists i :: 0 <= i < |buys| && buys[i].decimals != decimals
      && Overlap(Bought(buys, i), Bought(buys, i + 1), lo, hi) > 0.0
  }

  /** All buys so far, the total matched so far, and the results. */
  datatype Ledger = Ledger(buys: seq<Lot>, matched: real, results: seq<SellResult>)

  function Post(l: Ledger, e: Trade): Result<Ledger, Failure>
  {
    if !Relevant(e) then Ok(l)
    else if !Usable(e) then Err(BadQuantity(e.id))
    else if e.direction == Buy then
      Ok(l.(buys := l.buys + [Lot(Quantity(e), e.price.value, e.decimals)]))
    else
      var lo, n := l.matched, |l.buys|;
      var hi := MinReal(lo + Quantity(e), Bought(l.buys, n));
      if Clash(l.buys, lo, hi, e.decimals) then Err(DecimalsDiffer(e.id))
      else Ok(Ledger(l.buys, hi, l.results +
        [SellResult(e.id, Profit(l.buys, n, lo, hi, e.price.value), hi - lo, Quantity(e) - (hi - lo))]))
  }

  function PostAll(l: Ledger, es: seq<Trade>): Result<Ledger, Failure>
    decreases |es|
  {
    if es == [] then Ok(l)
    else
      match Post(l, es[0])
      case Err(f) => Err(f)
      case Ok(next) => PostAll(next, es[1..])
  }

  function ClosedForm(es: seq<Trade>): Result<seq<SellResult>, Failure>
  {
    match PostAll(Ledger([], 0.0, []), es)
    case Err(f) => Err(f)
    case Ok(l) => Ok(l.results)
  }

  // ----- The queue refines the closed form -----

  /** The queue when `matched` of the cumulative quantity is gone and lot k is the front one. */
  function LotsAt(buys: seq<Lot>, k: nat, matched: real): seq<Lot>
    requires k <= |buys|
  {
    if k == |buys| then [] else [buys[k].(qty := Bought(buys, k + 1) - matched)] + buys[k + 1..]
  }

  ghost predicate FrontIs(buys: seq<Lot>, k: nat, matched: real)
  {
    && k <= |buys|
    && Bought(buys, k) <= matched
    && (if k < |buys| then matched < Bought(buys, k + 1) else matched == Bought(buys, k))
  }

  lemma {:induction false} BoughtGrows(buys: seq<Lot>, i: nat, j: nat)
    requires Positive(buys) && i <= j <= |buys|
    ensures Bought(buys, i) <= Bought(buys, j)
    ensures i < j ==> Bought(buys, i) < Bought(buys, j)
  {
    if i < j { BoughtGrows(buys, i, j - 1); }
  }

  lemma OverlapSplits(a: real, b: real, lo: real, mid: real, hi: real)
    requires lo <= mid <= hi
    ensures Overlap(a, b, lo, hi) == Overlap(a, b, lo, mid) + Overlap(a, b, mid, hi)
  {
  }

  lemma {:induction false} ProfitSplits(buys: seq<Lot>, n: nat, lo: real, mid: real, hi: real, price: real)
    requires n <= |buys| && lo <= mid <= hi
    ensures Profit(buys, n, lo, hi, price) == Profit(buys, n, lo, mid, price) + Profit(buys, n, mid, hi, price)
  {
    hide Overlap;
    if n > 0 {
      ProfitSplits(buys, n - 1, lo, mid, hi, price);
      OverlapSplits(Bought(buys, n - 1), Bought(buys, n), lo, mid, hi);
      var a, b := Bought(buys, n - 1), Bought(buys, n);
      RealDistribute(Overlap(a, b, lo, mid), Overlap(a, b, mid, hi), price - buys[n - 1].price);
    }
  }

  lemma RealDistribute(x: real, y: real, z: real)
    ensures (x + y) * z == x * z + y * z
    ensures z * (x + y) == z * x + z * y
    ensures z * (x - y) == z * x - z * y
  {
  }

  /** Of an interval inside [c, d), another interval [a, b) gets all or nothing. */
  lemma OverlapInside(a: real, b: real, c: real, d: real, lo: real, hi: real)
    requires c <= lo <= hi <= d && a <= b && ((a == c && b == d) || b <= c || d <= a)
    ensures Overlap(a, b, lo, hi) == if a == c && b == d then hi - lo else 0.0
  {
  }

  /** An interval inside buy k earns the price difference of that buy. */
  lemma {:induction false} ProfitInsideOneLot(buys: seq<Lot>, n: nat, k: nat, lo: real, hi: real, price: real)
    requires Positive(buys) && k < |buys| && n <= |buys|
    requires Bought(buys, k) <= lo <= hi <= Bought(buys, k + 1)
    ensures Profit(buys, n, lo, hi, price) == if k < n then (hi - lo) * (price - buys[k].price) else 0.0
  {
    hide Overlap, Bought;
    if n > 0 {
      ProfitInsideOneLot(buys, n - 1, k, lo, hi, price);
      BoughtGrows(buys, n - 1, n);
      BoughtGrows(buys, k, k + 1);
      if n - 1 < k { BoughtGrows(buys, n, k); }
      if n - 1 > k { BoughtGrows(buys, k + 1, n - 1); }
      OverlapInside(Bought(buys, n - 1), Bought(buys, n), Bought(buys, k), Bought(buys, k + 1), lo, hi);
      if n - 1 != k { assert Overlap(Bought(buys, n - 1), Bought(buys, n), lo, hi) == 0.0; }
    }
  }

  /** Consuming the queue covers exactly the next interval of the cumulative quantity. */
  lemma {:induction false} ConsumeCoversInterval(
      buys: seq<Lot>, k: nat, m: Matching, done: real, price: real, decimals: nat) returns (k': nat)
    requires Positive(buys) && FrontIs(buys, k, done)
    requires m.remaining >= 0.0 && m.lots == LotsAt(buys, k, done)
    ensures var hi := MinReal(done + m.remaining, Bought(buys, |buys|));
      && done <= hi && FrontIs(buys, k', hi)
      && Consume(m, price, decimals) ==
         if Clash(buys, done, hi, decimals) then None
         else Some(Matching(m.remaining - (hi - done), m.matched + (hi - done),
                m.pnl + Profit(buys, |buys|, done, hi, price), LotsAt(buys, k', hi)))
    decreases |buys| - k
  {
    hide Profit, Overlap, Clash, Taken;
    var hi := MinReal(done + m.remaining, Bought(buys, |buys|));
    BoughtGrows(buys, k, |buys|);
    if k < |buys| { BoughtGrows(buys, k + 1, |buys|); }
    if k == |buys| || m.remaining == 0.0 {
      k' := k;
      EmptyInterval(buys, |buys|, done, price, decimals);
    } else {
      var mid := MinReal(done + m.remaining, Bought(buys, k + 1));
      var next := TakeFromFront(buys, k, m, done, price);
      ClashAtFront(buys, k, done, mid, hi, decimals);
      ProfitSplits(buys, |buys|, done, mid, hi, price);
      if mid == Bought(buys, k + 1) {
        k' := ConsumeCoversInterval(buys, k + 1, next, mid, price, decimals);
      } else {
        k' := k;
        EmptyInterval(buys, |buys|, mid, price, decimals);
      }
    }
  }

  /** One turn of the loop covers the next interval up to the end of the sell or of the front lot. */
  lemma TakeFromFront(buys: seq<Lot>, k: nat, m: Matching, done: real, price: real) returns (next: Matching)
    requires Positive(buys) && FrontIs(buys, k, done) && k < |buys|
    requires m.remaining > 0.0 && m.lots == LotsAt(buys, k, done)
    ensures m.lots != [] && m.lots[0].decimals == buys[k].decimals && next == Taken(m, price)
    ensures |next.lots| < |m.lots| <==> done + m.remaining >= Bought(buys, k + 1)
    ensures var mid := MinReal(done + m.remaining, Bought(buys, k + 1));
      next == Matching(m.remaining - (mid - done), m.matched + (mid - done),
        m.pnl + Profit(buys, |buys|, done, mid, price),
        LotsAt(buys, if mid == Bought(buys, k + 1) then k + 1 else k, mid))
  {
    hide Profit, Overlap;
    var mid := MinReal(done + m.remaining, Bought(buys, k + 1));
    next := Taken(m, price);
    ProfitInsideOneLot(buys, |buys|, k, done, mid, price);
    if mid == Bought(buys, k + 1) {
      if k + 1 < |buys| { BoughtGrows(buys, k + 1, k + 2); }
      assert next.lots == m.lots[1..] == buys[k + 1..] == LotsAt(buys, k + 1, mid);
    } else {
      assert next.lots == LotsAt(buys, k, mid);
    }
  }

  lemma {:induction false} EmptyInterval(buys: seq<Lot>, n: nat, at: real, price: real, decimals: nat)
    requires n <= |buys|
    ensures Profit(buys, n, at, at, price) == 0.0
    ensures !Clash(buys, at, at, decimals)
  {
    if n > 0 { EmptyInterval(buys, n - 1, at, price, decimals); }
  }

  /** A clash on [done, hi) is one at the front lot or one beyond it. */
  lemma ClashAtFront(buys: seq<Lot>, k: nat, done: real, mid: real, hi: real, decimals: nat)
    requires Positive(buys) && k < |buys| && Bought(buys, k) <= done < mid <= hi && mid <= Bought(buys, k + 1)
    requires mid == hi || mid == Bought(buys, k + 1)
    ensures Clash(buys, done, hi, decimals) <==> buys[k].decimals != decimals || Clash(buys, mid, hi, decimals)
  {
    if buys[k].decimals != decimals {
      assert Overlap(Bought(buys, k), Bought(buys, k + 1), done, hi) > 0.0;
    }
    forall i | 0 <= i < |buys| && i != k
      ensures Overlap(Bought(buys, i), Bought(buys, i + 1), done, hi)
           == Overlap(Bought(buys, i), Bought(buys, i + 1), mid, hi)
    {
      if i < k { BoughtGrows(buys, i + 1, k); } else { BoughtGrows(buys, k + 1, i); }
    }
  }

  ghost predicate Represents(book: Book, l: Ledger, k: nat)
  {
    Positive(l.buys) && FrontIs(l.buys, k, l.matched)
    && book.lots == LotsAt(l.buys, k, l.matched) && book.results == l.results
  }

  ghost predicate Agree(a: Result<Book, Failure>, b: Result<Ledger, Failure>)
  {
    match a
    case Err(f) => b == Err(f)
    case Ok(_) => b.Ok?
  }

  lemma PlayRefinesPost(book: Book, l: Ledger, k: nat, e: Trade) returns (k': nat)
    requires Represents(book, l, k)
    ensures Agree(Play(book, e), Post(l, e))
    ensures Play(book, e).Ok? ==> Represents(Play(book, e).value, Post(l, e).value, k')
  {
    hide Profit, Clash, Overlap, Consume, Pow10, Bought;
    k' := k;
    if Relevant(e) && Usable(e) {
      if e.direction == Buy {
        BuyJoinsQueue(l, k, Lot(Quantity(e), e.price.value, e.decimals));
      } else {
        k' := ConsumeCoversInterval(
          l.buys, k, Matching(Quantity(e), 0.0, 0.0, book.lots), l.matched, e.price.value, e.decimals);
      }
    }
  }

  /** A new buy joins the end of the queue and disturbs nothing before it. */
  lemma BuyJoinsQueue(l: Ledger, k: nat, lot: Lot)
    requires Positive(l.buys) && FrontIs(l.buys, k, l.matched) && lot.qty > 0.0
    ensures Positive(l.buys + [lot]) && FrontIs(l.buys + [lot], k, l.matched)
    ensures LotsAt(l.buys + [lot], k, l.matched) == LotsAt(l.buys, k, l.matched) + [lot]
  {
    var longer := l.buys + [lot];
    BoughtPrefix(l.buys, longer, k);
    if k < |l.buys| { BoughtPrefix(l.buys, longer, k + 1); }
  }

  lemma {:induction false} BoughtPrefix(a: seq<Lot>, b: seq<Lot>, n: nat)
    requires n <= |a| <= |b| && a == b[..|a|]
    ensures Bought(a, n) == Bought(b, n)
  {
    if n > 0 { BoughtPrefix(a, b, n - 1); }
  }

  lemma {:induction false} ReplayRefinesPostAll(book: Book, l: Ledger, k: nat, es: seq<Trade>) returns (k': nat)
    requires Represents(book, l, k)
    ensures Agree(Replay(book, es), PostAll(l, es))
    ensures Replay(book, es).Ok? ==> Represents(Replay(book, es).value, PostAll(l, es).value, k')
    decreases |es|
  {
    k' := k;
    if es != [] {
      k' := PlayRefinesPost(book, l, k, es[0]);
      if Play(book, es[0]).Ok? {
        k' := ReplayRefinesPostAll(Play(book, es[0]).value, Post(l, es[0]).value, k', es[1..]);
      }
    }
  }

  /** The queue replay and the interval form agree on every input, results and errors alike. */
  lemma ReplayIsClosedForm(es: seq<Trade>)
    ensures ClosedForm(es) == match Replay(Book([], []), es) case Err(f) => Err(f) case Ok(b) => Ok(b.results)
  {
    var k := ReplayRefinesPostAll(Book([], []), Ledger([], 0.0, []), 0, es);
  }

  // ----- Conservation -----

  function Held(lots: seq<Lot>): real
  {
    if lots == [] then 0.0 else lots[0].qty + Held(lots[1..])
  }

  function Cost(lots: seq<Lot>): real
  {
    if lots == [] then 0.0 else lots[0].qty * lots[0].price + Cost(lots[1..])
  }

  /** One turn of the matching loop. */
  lemma TakenConserves(m: Matching, price: real)
    requires m.lots != []
    ensures var next := Taken(m, price);
      var take := next.matched - m.matched;
      && next.remaining == m.remaining - take && Held(next.lots) == Held(m.lots) - take
      && next.pnl - m.pnl == take * price - (Cost(m.lots) - Cost(next.lots))
  {
    var lot, next := m.lots[0], Taken(m, price);
    var take := MinReal(m.remaining, lot.qty);
    RealDistribute(price, lot.price, take);
    assert (lot.qty - take) * lot.price == lot.qty * lot.price - take * lot.price by {
      RealDistribute(lot.qty, take, lot.price);
    }
    if |next.lots| == |m.lots| { assert next.lots[1..] == m.lots[1..]; }
  }

  /** One sell: what it matched left the queue, its profit is the proceeds minus the cost that left
      the queue, and an overflow means the queue ran dry. */
  lemma {:induction false} ConsumeConserves(m: Matching, price: real, decimals: nat)
    requires m.remaining >= 0.0 && Consume(m, price, decimals).Some?
    ensures var end := Consume(m, price, decimals).value;
      && end.matched - m.matched == m.remaining - end.remaining == Held(m.lots) - Held(end.lots)
      && end.pnl - m.pnl == (end.matched - m.matched) * price - (Cost(m.lots) - Cost(end.lots))
      && (end.remaining > 0.0 ==> end.lots == [])
    decreases |m.lots|
  {
    hide Held, Cost;
    if m.lots != [] && m.remaining > 0.0 {
      var next := Taken(m, price);
      TakenConserves(m, price);
      if |next.lots| < |m.lots| {
        LeftOver(m, price);
        hide Taken;
        ConsumeConserves(next, price, decimals);
        var end := Consume(next, price, decimals).value;
        RealDistribute(end.matched - next.matched, next.matched - m.matched, price);
      }
    }
  }

  lemma LeftOver(m: Matching, price: real)
    requires m.lots != []
    ensures Taken(m, price).remaining >= 0.0
  {
  }

  function BoughtBy(es: seq<Trade>): real
    decreases |es|
  {
    if es == [] then 0.0
    else
      var e := es[0];
      (if Relevant(e) && Usable(e) && e.direction == Buy then Quantity(e) else 0.0) + BoughtBy(es[1..])
  }

  function BuyCost(es: seq<Trade>): real
    decreases |es|
  {
    if es == [] then 0.0
    else
      var e := es[0];
      (if Relevant(e) && Usable(e) && e.direction == Buy then Quantity(e) * e.price.value else 0.0) + BuyCost(es[1..])
  }

  /** What the matched parts of all sells brought in. */
  function Proceeds(book: Book, es: seq<Trade>): real
    decreases |es|
  {
    if es == [] || Play(book, es[0]).Err? then 0.0
    else
      var next := Play(book, es[0]).value;
      (if |next.results| > |book.results| then next.results[|next.results| - 1].matched * es[0].price.value else 0.0)
      + Proceeds(next, es[1..])
  }

  function MatchedIn(rs: seq<SellResult>, n: nat): real
    requires n <= |rs|
  {
    if n == 0 then 0.0 else MatchedIn(rs, n - 1) + rs[n - 1].matched
  }

  function PnlIn(rs: seq<SellResult>, n: nat): real
    requires n <= |rs|
  {
    if n == 0 then 0.0 else PnlIn(rs, n - 1) + rs[n - 1].pnl
  }

  lemma {:induction false} TotalsPrefix(a: seq<SellResult>, b: seq<SellResult>, n: nat)
    requires n <= |a| <= |b| && a == b[..|a|]
    ensures MatchedIn(a, n) == MatchedIn(b, n) && PnlIn(a, n) == PnlIn(b, n)
  {
    if n > 0 { TotalsPrefix(a, b, n - 1); }
  }

  lemma {:induction false} HeldAppend(lots: seq<Lot>, lot: Lot)
    ensures Held(lots + [lot]) == Held(lots) + lot.qty
    ensures Cost(lots + [lot]) == Cost(lots) + lot.qty * lot.price
  {
    if lots != [] {
      assert (lots + [lot])[1..] == lots[1..] + [lot];
      HeldAppend(lots[1..], lot);
    } else {
      assert Held([lot][1..]) == 0.0 && Cost([lot][1..]) == 0.0;
    }
  }

  lemma TotalsAppend(rs: seq<SellResult>, r: SellResult)
    ensures MatchedIn(rs + [r], |rs + [r]|) == MatchedIn(rs, |rs|) + r.matched
    ensures PnlIn(rs + [r], |rs + [r]|) == PnlIn(rs, |rs|) + r.pnl
  {
    TotalsPrefix(rs, rs + [r], |rs|);
  }

  lemma OneTrade(e: Trade)
    ensures BoughtBy([e]) == if Relevant(e) && Usable(e) && e.direction == Buy then Quantity(e) else 0.0
    ensures BuyCost([e]) == if Relevant(e) && Usable(e) && e.direction == Buy then Quantity(e) * e.price.value else 0.0
  {
    assert [e][1..] == [];
    assert BoughtBy([e][1..]) == 0.0 && BuyCost([e][1..]) == 0.0;
  }

  lemma PlayConserves(book: Book, e: Trade)
    requires Play(book, e).Ok?
    ensures var next := Play(book, e).value;
      var r0, r1 := book.results, next.results;
      && Held(next.lots) - Held(book.lots)
         == BoughtBy([e]) - (MatchedIn(r1, |r1|) - MatchedIn(r0, |r0|))
      && PnlIn(r1, |r1|) - PnlIn(r0, |r0|)
         == (if |r1| > |r0| then r1[|r1| - 1].matched * e.price.value else 0.0)
            + Cost(next.lots) - Cost(book.lots) - BuyCost([e])
  {
    hide Consume, Held, Cost, MatchedIn, PnlIn, BoughtBy, BuyCost;
    OneTrade(e);
    if Relevant(e) {
      if e.direction == Buy {
        HeldAppend(book.lots, Lot(Quantity(e), e.price.value, e.decimals));
      } else {
        var start := Matching(Quantity(e), 0.0, 0.0, book.lots);
        var end := Consume(start, e.price.value, e.decimals).value;
        ConsumeConserves(start, e.price.value, e.decimals);
        TotalsAppend(book.results, SellResult(e.id, end.pnl, end.matched, end.remaining));
        assert end.matched - 0.0 == end.matched;
      }
    }
  }

  /** Over a whole replay: everything bought is either matched or still held, and the total profit is
      the proceeds minus the cost of what is no longer held. */
  lemma {:induction false} ReplayConserves(book: Book, es: seq<Trade>)
    requires Replay(book, es).Ok?
    ensures var end := Replay(book, es).value;
      var r0, r1 := book.results, end.results;
      && Held(book.lots) + BoughtBy(es)
         == MatchedIn(r1, |r1|) - MatchedIn(r0, |r0|) + Held(end.lots)
      && PnlIn(r1, |r1|) - PnlIn(r0, |r0|)
         == Proceeds(book, es) - (Cost(book.lots) + BuyCost(es) - Cost(end.lots))
    decreases |es|
  {
    hide Consume, Play, Held, Cost, MatchedIn, PnlIn;
    if es != [] {
      PlayConserves(book, es[0]);
      ReplayConserves(Play(book, es[0]).value, es[1..]);
      OneTrade(es[0]);
    }
  }

  // ----- Composition -----

  function Prepend(rs: seq<SellResult>, r: Result<Book, Failure>): Result<Book, Failure>
  {
    match r
    case Err(f) => Err(f)
    case Ok(b) => Ok(b.(results := rs + b.results))
  }

  lemma {:induction false} EarlierResultsAreKept(lots: seq<Lot>, rs: seq<SellResult>, ss: seq<SellResult>,
      es: seq<Trade>)
    ensures Replay(Book(lots, rs + ss), es) == Prepend(rs, Replay(Book(lots, ss), es))
    decreases |es|
  {
    hide Consume;
    if es != [] {
      match Play(Book(lots, ss), es[0])
      case Err(_) =>
      case Ok(b) =>
        assert Play(Book(lots, rs + ss), es[0]) == Ok(Book(b.lots, rs + b.results)) by {
          if b.results != ss { assert rs + b.results == (rs + ss) + b.results[|ss|..]; }
        }
        EarlierResultsAreKept(b.lots, rs, b.results, es[1..]);
    }
  }

  /** Replaying a and then b is replaying b from the lots that a left, with a's results first; an error in a
      stays the error of the whole. */
  lemma {:induction false} ReplayComposes(book: Book, a: seq<Trade>, b: seq<Trade>)
    ensures Replay(book, a + b) ==
      match Replay(book, a)
      case Err(f) => Err(f)
      case Ok(mid) => Prepend(mid.results, Replay(Book(mid.lots, []), b))
    decreases |a|
  {
    hide Play;
    if a == [] {
      assert a + b == b && book.results + [] == book.results;
      EarlierResultsAreKept(book.lots, book.results, [], b);
    } else {
      assert (a + b)[0] == a[0] && (a + b)[1..] == a[1..] + b;
      if Play(book, a[0]).Ok? { ReplayComposes(Play(book, a[0]).value, a[1..], b); }
    }
  }

  function RelevantOnly(es: seq<Trade>): seq<Trade>
    decreases |es|
  {
    if es == [] then []
    else if Relevant(es[0]) then [es[0]] + RelevantOnly(es[1..])
    else RelevantOnly(es[1..])
  }

  /** Rows without a price or with another direction leave no trace, not even in the errors. */
  lemma {:induction false} UnpricedTradesDoNotMatter(book: Book, es: seq<Trade>)
    ensures Replay(book, es) == Replay(book, RelevantOnly(es))
    decreases |es|
  {
    hide Consume;
    if es != [] {
      if Relevant(es[0]) {
        var kept := RelevantOnly(es);
        assert kept[0] == es[0] && kept[1..] == RelevantOnly(es[1..]);
        if Play(book, es[0]).Ok? { UnpricedTradesDoNotMatter(Play(book, es[0]).value, es[1..]); }
      } else {
        UnpricedTradesDoNotMatter(book, es[1..]);
      }
    }
  }
}
