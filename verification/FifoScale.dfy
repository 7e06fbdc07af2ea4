/** What decimals mean for a replay: results are in whole tokens, whatever unit the raw numbers are in. */
module FifoScale {
  import opened Prelude
  import opened Fifo

  // ----- Single trades -----

  lemma WholeTokens(e: Trade)
    requires Usable(e) && e.decimals == 0
    ensures Quantity(e) == e.raw.value as real
  {
  }

  lemma OnlyPost(l: Ledger, e: Trade)
    ensures PostAll(l, [e]) == Post(l, e)
  {
    hide Post;
    assert [e][1..] == [];
    if Post(l, e).Ok? { assert PostAll(Post(l, e).value, []) == Post(l, e); }
  }

  lemma TwoPosts(l: Ledger, e: Trade, f: Trade)
    requires Post(l, e).Ok?
    ensures PostAll(l, [e, f]) == Post(Post(l, e).value, f)
  {
    hide Post;
    assert [e, f][1..] == [f];
    OnlyPost(Post(l, e).value, f);
  }

  lemma Nothing(decimals: nat, price: real)
    ensures Bought([], 0) == 0.0 && Profit([], 0, 0.0, 0.0, price) == 0.0 && !Clash([], 0.0, 0.0, decimals)
  {
  }

  /** Without decimals a raw number is a quantity: a lone sell overflows by exactly that. */
  lemma LoneSell(id: nat, raw: int, price: real)
    requires raw > 0
    ensures ClosedForm([Trade(id, Sell, Some(raw), 0, Some(price))]) == Ok([SellResult(id, 0.0, 0.0, raw as real)])
  {
    hide Quantity, Clash, Profit, Bought;
    var e, l := Trade(id, Sell, Some(raw), 0, Some(price)), Ledger([], 0.0, []);
    WholeTokens(e);
    OnlyPost(l, e);
    Nothing(0, price);
    var result := SellResult(id, 0.0, 0.0, raw as real);
    assert l.results + [result] == [result];
  }

  lemma OneLot(qty: real, low: real, part: real, high: real)
    requires qty > 0.0 && 0.0 < part <= qty
    ensures var buys := [Lot(qty, low, 0)];
      && Bought(buys, 1) == qty && Profit(buys, 1, 0.0, part, high) == part * (high - low)
      && !Clash(buys, 0.0, part, 0)
  {
    var buys := [Lot(qty, low, 0)];
    assert Bought(buys, 0) == 0.0 && Profit(buys, 0, 0.0, part, high) == 0.0;
    assert Overlap(0.0, qty, 0.0, part) == part;
  }

  /** A buy and a sell of whole tokens: what both have is matched at the difference of their prices, the rest of the
      sell overflows. */
  lemma SellAfterBuy(buy: nat, bought: int, low: real, sell: nat, sold: int, high: real, both: int)
    requires bought > 0 && sold > 0 && both == if bought < sold then bought else sold
    ensures ClosedForm([Trade(buy, Buy, Some(bought), 0, Some(low)), Trade(sell, Sell, Some(sold), 0, Some(high))]) ==
      Ok([SellResult(sell, both as real * (high - low), both as real, sold as real - both as real)])
  {
    hide Quantity, Clash, Profit, Bought;
    var e, f := Trade(buy, Buy, Some(bought), 0, Some(low)), Trade(sell, Sell, Some(sold), 0, Some(high));
    var l, part := Ledger([], 0.0, []), both as real;
    WholeTokens(e);
    WholeTokens(f);
    OneLot(bought as real, low, part, high);
    var lot, result := Lot(bought as real, low, 0), SellResult(sell, part * (high - low), part, sold as real - part);
    assert l.buys + [lot] == [lot] && l.results + [result] == [result];
    TwoPosts(l, e, f);
    var next := l.(buys := [lot]);
    assert Post(l, e) == Ok(next) && Quantity(f) == sold as real;
    assert MinReal(0.0 + sold as real, Bought([lot], 1)) == part;
    assert Post(next, f) == Ok(Ledger([lot], part, [result]));
    assert ClosedForm([e, f]) == Ok([result]);
    assert result.pnl == both as real * (high - low);
    assert result == SellResult(sell, both as real * (high - low), both as real, sold as real - both as real);
  }

  // ----- Another unit -----

  /** The same trade in a unit ten times smaller. */
  function Finer(e: Trade): Trade
  {
    e.(raw := match e.raw case None => None case Some(n) => Some(10 * n), decimals := e.decimals + 1)
  }

  lemma TenCancels(n: real, p: real)
    requires p > 0.0
    ensures (10.0 * n) / (10.0 * p) == n / p
  {
    var q := n / p;
    assert q * p == n;
    assert q * (10.0 * p) == 10.0 * n;
  }

  /** It has the same quantity. */
  lemma SameQuantity(e: Trade)
    ensures Usable(Finer(e)) <==> Usable(e)
    ensures Usable(e) ==> Quantity(Finer(e)) == Quantity(e)
  {
    if Usable(e) {
      assert (10 * e.raw.value) as real == 10.0 * e.raw.value as real;
      TenCancels(e.raw.value as real, Pow10(e.decimals));
    }
  }

  /** Trades of the same money: the same but for the unit. */
  predicate SameTrade(e: Trade, f: Trade)
  {
    f == e || f == Finer(e) || e == Finer(f)
  }

  ghost predicate SameTrades(es: seq<Trade>, fs: seq<Trade>)
  {
    |es| == |fs| && forall i :: 0 <= i < |es| ==> SameTrade(es[i], fs[i])
  }

  /** Lots that differ in their decimals at most. */
  predicate SameLot(a: Lot, b: Lot) { a.qty == b.qty && a.price == b.price }

  ghost predicate SameLots(a: seq<Lot>, b: seq<Lot>)
  {
    |a| == |b| && forall i :: 0 <= i < |a| ==> SameLot(a[i], b[i])
  }

  lemma {:induction false} SameBought(a: seq<Lot>, b: seq<Lot>, n: nat)
    requires SameLots(a, b) && n <= |a|
    ensures Bought(a, n) == Bought(b, n)
  {
    if n > 0 {
      SameBought(a, b, n - 1);
      assert SameLot(a[n - 1], b[n - 1]);
    }
  }

  lemma {:induction false} SameProfit(a: seq<Lot>, b: seq<Lot>, n: nat, lo: real, hi: real, price: real)
    requires SameLots(a, b) && n <= |a|
    ensures Profit(a, n, lo, hi, price) == Profit(b, n, lo, hi, price)
  {
    hide Overlap, Bought;
    if n > 0 {
      SameProfit(a, b, n - 1, lo, hi, price);
      SameBought(a, b, n - 1);
      SameBought(a, b, n);
      assert SameLot(a[n - 1], b[n - 1]);
    }
  }

  ghost predicate SameLedgers(l: Ledger, m: Ledger)
  {
    SameLots(l.buys, m.buys) && l.matched == m.matched && l.results == m.results
  }

  predicate DecimalsClash(r: Result<Ledger, Failure>) { r.Err? && r.error.DecimalsDiffer? }

  ghost predicate SameOutcome(r: Result<Ledger, Failure>, s: Result<Ledger, Failure>)
  {
    match (r, s)
    case (Ok(l), Ok(m)) => SameLedgers(l, m)
    case (Err(f), Err(g)) => f == g
    case _ => false
  }

  lemma SameTradeMeans(e: Trade, f: Trade)
    requires SameTrade(e, f)
    ensures e.id == f.id && e.direction == f.direction && e.price == f.price
    ensures Relevant(e) <==> Relevant(f)
    ensures Usable(e) <==> Usable(f)
    ensures Usable(e) ==> Quantity(e) == Quantity(f)
  {
    SameQuantity(e);
    SameQuantity(f);
  }

  lemma SamePost(l: Ledger, m: Ledger, e: Trade, f: Trade)
    requires SameLedgers(l, m) && SameTrade(e, f)
    ensures !DecimalsClash(Post(l, e)) && !DecimalsClash(Post(m, f)) ==> SameOutcome(Post(l, e), Post(m, f))
    ensures Relevant(e) && Usable(e) && e.direction != Buy ==>
      var hi := MinReal(l.matched + Quantity(e), Bought(l.buys, |l.buys|));
      && (DecimalsClash(Post(l, e)) <==> Clash(l.buys, l.matched, hi, e.decimals))
      && (DecimalsClash(Post(m, f)) <==> Clash(m.buys, l.matched, hi, f.decimals))
  {
    hide Quantity, Usable, Clash, Bought, Profit, SameTrade, MinReal;
    SameTradeMeans(e, f);
    if Relevant(e) && Usable(e) && e.direction != Buy {
      var n := |l.buys|;
      SameBought(l.buys, m.buys, n);
      SameProfit(l.buys, m.buys, n, l.matched, MinReal(l.matched + Quantity(e), Bought(l.buys, n)), e.price.value);
    }
  }

  lemma {:induction false} SamePosts(l: Ledger, m: Ledger, es: seq<Trade>, fs: seq<Trade>)
    requires SameLedgers(l, m) && SameTrades(es, fs)
    ensures !DecimalsClash(PostAll(l, es)) && !DecimalsClash(PostAll(m, fs)) ==>
      SameOutcome(PostAll(l, es), PostAll(m, fs))
    decreases |es|
  {
    hide Post, SameLedgers, SameTrade;
    if es != [] {
      SamePost(l, m, es[0], fs[0]);
      assert SameTrades(es[1..], fs[1..]);
      if Post(l, es[0]).Ok? && Post(m, fs[0]).Ok? {
        SamePosts(Post(l, es[0]).value, Post(m, fs[0]).value, es[1..], fs[1..]);
      }
    }
  }

  predicate Clashed(r: Result<seq<SellResult>, Failure>) { r.Err? && r.error.DecimalsDiffer? }

  /** Whichever trades of a list are given in a unit ten times smaller: as long as neither list has a sell that meets a
      buy of other decimals, results and errors are the same. */
  lemma UnitsDoNotMatter(es: seq<Trade>, fs: seq<Trade>)
    requires SameTrades(es, fs) && !Clashed(ClosedForm(es)) && !Clashed(ClosedForm(fs))
    ensures ClosedForm(es) == ClosedForm(fs)
  {
    hide Post, SameTrade;
    SamePosts(Ledger([], 0.0, []), Ledger([], 0.0, []), es, fs);
  }

  // ----- Another unit for all -----

  function AllFiner(es: seq<Trade>): (fs: seq<Trade>)
    ensures |fs| == |es| && forall i :: 0 <= i < |es| ==> fs[i] == Finer(es[i])
  {
    seq(|es|, i requires 0 <= i < |es| => Finer(es[i]))
  }

  ghost predicate FinerLots(a: seq<Lot>, b: seq<Lot>)
  {
    SameLots(a, b) && forall i :: 0 <= i < |a| ==> b[i].decimals == a[i].decimals + 1
  }

  lemma FinerClash(a: seq<Lot>, b: seq<Lot>, lo: real, hi: real, decimals: nat)
    requires FinerLots(a, b)
    ensures Clash(a, lo, hi, decimals) <==> Clash(b, lo, hi, decimals + 1)
  {
    hide Overlap;
    forall i | 0 <= i <= |a| ensures Bought(a, i) == Bought(b, i) { SameBought(a, b, i); }
  }

  lemma FinerPost(l: Ledger, m: Ledger, e: Trade)
    requires SameLedgers(l, m) && FinerLots(l.buys, m.buys)
    ensures SameOutcome(Post(l, e), Post(m, Finer(e)))
    ensures Post(l, e).Ok? && Post(m, Finer(e)).Ok? ==> FinerLots(Post(l, e).value.buys, Post(m, Finer(e)).value.buys)
  {
    hide Quantity, Usable, Clash, Bought, Profit;
    SamePost(l, m, e, Finer(e));
    SameTradeMeans(e, Finer(e));
    if Relevant(e) && Usable(e) && e.direction != Buy {
      FinerClash(l.buys, m.buys, l.matched, MinReal(l.matched + Quantity(e), Bought(l.buys, |l.buys|)), e.decimals);
    }
  }

  lemma {:induction false} FinerPosts(l: Ledger, m: Ledger, es: seq<Trade>)
    requires SameLedgers(l, m) && FinerLots(l.buys, m.buys)
    ensures SameOutcome(PostAll(l, es), PostAll(m, AllFiner(es)))
    decreases |es|
  {
    hide Post, SameLedgers, FinerLots, Finer;
    if es != [] {
      FinerPost(l, m, es[0]);
      assert AllFiner(es)[1..] == AllFiner(es[1..]);
      if Post(l, es[0]).Ok? && Post(m, Finer(es[0])).Ok? {
        FinerPosts(Post(l, es[0]).value, Post(m, Finer(es[0])).value, es[1..]);
      }
    }
  }

  /** Given in a unit ten times smaller throughout, any list has the same results and the same errors, clashes of
      decimals included. */
  lemma TheUnitDoesNotMatter(es: seq<Trade>)
    ensures ClosedForm(AllFiner(es)) == ClosedForm(es)
  {
    hide Post;
    FinerPosts(Ledger([], 0.0, []), Ledger([], 0.0, []), es);
  }

  // ----- Which trades count -----

  /** A trade in another direction or without a price leaves no trace. */
  lemma OthersLeaveNoTrace(a: seq<Trade>, e: Trade, b: seq<Trade>)
    requires (e.direction != Buy && e.direction != Sell) || e.price == None
    ensures ClosedForm(a + [e] + b) == ClosedForm(a + b)
  {
    hide Play, Replay;
    var start := Book([], []);
    ReplayIsClosedForm(a + [e] + b);
    ReplayIsClosedForm(a + b);
    assert a + [e] + b == a + ([e] + b);
    ReplayComposes(start, a, [e] + b);
    ReplayComposes(start, a, b);
    if Replay(start, a).Ok? {
      var lots := Replay(start, a).value.lots;
      OneSkipped(Book(lots, []), e, b);
    }
  }

  lemma OneSkipped(book: Book, e: Trade, b: seq<Trade>)
    requires (e.direction != Buy && e.direction != Sell) || e.price == None
    ensures Replay(book, [e] + b) == Replay(book, b)
  {
    assert ([e] + b)[0] == e && ([e] + b)[1..] == b;
  }

  /** One that counts but has no quantity above zero ends the replay with its id. */
  lemma BadQuantityStops(a: seq<Trade>, e: Trade, b: seq<Trade>)
    requires ClosedForm(a).Ok? && (e.direction == Buy || e.direction == Sell) && e.price.Some?
    requires e.raw == None || e.raw.value <= 0
    ensures ClosedForm(a + [e] + b) == Err(BadQuantity(e.id))
  {
    hide Replay;
    var start := Book([], []);
    ReplayIsClosedForm(a + [e] + b);
    ReplayIsClosedForm(a);
    assert a + [e] + b == a + ([e] + b);
    ReplayComposes(start, a, [e] + b);
    OneBad(Book(Replay(start, a).value.lots, []), e, b);
  }

  lemma OneBad(book: Book, e: Trade, b: seq<Trade>)
    requires (e.direction == Buy || e.direction == Sell) && e.price.Some?
    requires e.raw == None || e.raw.value <= 0
    ensures Replay(book, [e] + b) == Err(BadQuantity(e.id))
  {
    assert ([e] + b)[0] == e;
  }
}
