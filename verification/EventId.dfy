/** The text key of a wallet event: block, transaction and log number, zero-padded and joined. */
module EventId {
  const BLOCK_WIDTH := 8
  const INDEX_WIDTH := 4

  function Digit(d: nat): (c: char)
    requires d < 10
  {
    "0123456789"[d]
  }

  /** The decimal digits of n without leading zeros. */
  function Decimal(n: nat): (s: string)
    ensures |s| >= 1
  {
    if n < 10 then [Digit(n)] else Decimal(n / 10) + [Digit(n % 10)]
  }

  function Zeros(n: nat): (s: string)
    ensures |s| == n
  {
    if n == 0 then "" else Zeros(n - 1) + "0"
  }

  /** The number with at least `width` digits, as %0<width>d prints it. */
  function Padded(n: nat, width: nat): string
  {
    var s := Decimal(n);
    if |s| < width then Zeros(width - |s|) + s else s
  }

  predicate Fits(block: nat, tx: nat, log: nat)
  {
    block <= 99999999 && tx <= 9999 && log <= 9999
  }

  /** The key, and whether all three numbers had room. */
  function CalcEventId(block: nat, tx: nat, log: nat): (string, bool)
  {
    (Padded(block, BLOCK_WIDTH) + Padded(tx, INDEX_WIDTH) + Padded(log, INDEX_WIDTH), Fits(block, tx, log))
  }

  function Pow10(n: nat): nat
  {
    if n == 0 then 1 else 10 * Pow10(n - 1)
  }

  /** Exactly `width` digits of n, from the right. */
  function Fixed(n: nat, width: nat): (s: string)
    ensures |s| == width
  {
    if width == 0 then "" else Fixed(n / 10, width - 1) + [Digit(n % 10)]
  }

  lemma {:induction false} FixedZero(width: nat)
    ensures Fixed(0, width) == Zeros(width)
  {
    if width > 0 { FixedZero(width - 1); }
  }

  /** Within the width, padding is the fixed-width form. */
  lemma {:induction false} PaddedIsFixed(n: nat, width: nat)
    requires n < Pow10(width) && width >= 1
    ensures |Decimal(n)| <= width
    ensures Padded(n, width) == Fixed(n, width)
  {
    if n < 10 {
      FixedZero(width - 1);
      assert Fixed(n / 10, width - 1) == Zeros(width - 1);
    } else {
      assert width > 1;
      PaddedIsFixed(n / 10, width - 1);
      var s, t := Decimal(n), Decimal(n / 10);
      assert Padded(n, width) == Padded(n / 10, width - 1) + [Digit(n % 10)];
    }
  }

  /** Byte order of texts. */
  predicate Before(a: string, b: string)
  {
    if b == "" then false
    else if a == "" then true
    else a[0] < b[0] || (a[0] == b[0] && Before(a[1..], b[1..]))
  }

  /** Texts of equal length compare by their fronts first. */
  lemma {:induction false} BeforeConcat(a: string, b: string, x: string, y: string)
    requires |a| == |b|
    ensures Before(a + x, b + y) <==> Before(a, b) || (a == b && Before(x, y))
  {
    if a == "" {
      assert a + x == x && b + y == y;
    } else {
      assert (a + x)[0] == a[0] && (a + x)[1..] == a[1..] + x;
      assert (b + y)[0] == b[0] && (b + y)[1..] == b[1..] + y;
      BeforeConcat(a[1..], b[1..], x, y);
      assert a == b <==> a[0] == b[0] && a[1..] == b[1..] by {
        assert a == [a[0]] + a[1..] && b == [b[0]] + b[1..];
      }
    }
  }

  lemma DigitOrder(d: nat, e: nat)
    requires d < 10 && e < 10
    ensures Before([Digit(d)], [Digit(e)]) <==> d < e
    ensures [Digit(d)] == [Digit(e)] <==> d == e
  {
    assert [Digit(d)][1..] == "" && [Digit(e)][1..] == "";
    assert Digit(d) < Digit(e) <==> d < e;
    assert [Digit(d)][0] == Digit(d) && [Digit(e)][0] == Digit(e);
  }

  /** Fixed-width numbers compare as texts the way they compare as numbers. */
  lemma {:induction false} FixedOrder(m: nat, n: nat, width: nat)
    requires m < Pow10(width) && n < Pow10(width)
    ensures Before(Fixed(m, width), Fixed(n, width)) <==> m < n
    ensures Fixed(m, width) == Fixed(n, width) <==> m == n
  {
    if width > 0 {
      FixedOrder(m / 10, n / 10, width - 1);
      DigitOrder(m % 10, n % 10);
      var a, b := Fixed(m / 10, width - 1), Fixed(n / 10, width - 1);
      BeforeConcat(a, b, [Digit(m % 10)], [Digit(n % 10)]);
      SplitEqual(a, b, [Digit(m % 10)], [Digit(n % 10)]);
    }
  }

  lemma SplitEqual(a: string, b: string, x: string, y: string)
    requires |a| == |b|
    ensures a + x == b + y <==> a == b && x == y
  {
    if a + x == b + y {
      assert a == (a + x)[..|a|] && b == (b + y)[..|b|];
      assert x == (a + x)[|a|..] && y == (b + y)[|b|..];
    }
  }

  /** Chain order of events. */
  predicate Earlier(b1: nat, t1: nat, l1: nat, b2: nat, t2: nat, l2: nat)
  {
    b1 < b2 || (b1 == b2 && (t1 < t2 || (t1 == t2 && l1 < l2)))
  }

  lemma Widths()
    ensures Pow10(4) == 10000 && Pow10(8) == 100000000
  {
    assert Pow10(1) == 10 && Pow10(2) == 100 && Pow10(3) == 1000;
    assert Pow10(5) == 100000 && Pow10(6) == 1000000 && Pow10(7) == 10000000;
  }

  /** While all numbers fit, ordering by key is ordering along the chain, and keys are unique. */
  lemma KeyOrderIsChainOrder(b1: nat, t1: nat, l1: nat, b2: nat, t2: nat, l2: nat)
    requires Fits(b1, t1, l1) && Fits(b2, t2, l2)
    ensures var k1, k2 := CalcEventId(b1, t1, l1).0, CalcEventId(b2, t2, l2).0;
      && |k1| == |k2| == BLOCK_WIDTH + 2 * INDEX_WIDTH
      && (Before(k1, k2) <==> Earlier(b1, t1, l1, b2, t2, l2))
      && (k1 == k2 <==> b1 == b2 && t1 == t2 && l1 == l2)
  {
    hide Padded, Fixed, Before, Pow10;
    Widths();
    PaddedIsFixed(b1, 8); PaddedIsFixed(t1, 4); PaddedIsFixed(l1, 4);
    PaddedIsFixed(b2, 8); PaddedIsFixed(t2, 4); PaddedIsFixed(l2, 4);
    FixedOrder(b1, b2, 8); FixedOrder(t1, t2, 4); FixedOrder(l1, l2, 4);
    var bt1, bt2 := Fixed(b1, 8) + Fixed(t1, 4), Fixed(b2, 8) + Fixed(t2, 4);
    BeforeConcat(Fixed(b1, 8), Fixed(b2, 8), Fixed(t1, 4), Fixed(t2, 4));
    SplitEqual(Fixed(b1, 8), Fixed(b2, 8), Fixed(t1, 4), Fixed(t2, 4));
    BeforeConcat(bt1, bt2, Fixed(l1, 4), Fixed(l2, 4));
    SplitEqual(bt1, bt2, Fixed(l1, 4), Fixed(l2, 4));
  }

  lemma {:induction false} DecimalWidth(n: nat, width: nat)
    requires width >= 1
    ensures |Decimal(n)| <= width <==> n < Pow10(width)
  {
    if width == 1 || n < 10 {
      PowAtLeastTen(width);
    } else {
      DecimalWidth(n / 10, width - 1);
    }
  }

  lemma {:induction false} PowAtLeastTen(width: nat)
    requires width >= 1
    ensures Pow10(width) >= 10
    ensures width == 1 ==> Pow10(width) == 10
  {
    if width > 1 { PowAtLeastTen(width - 1); }
  }

  /** The over-width report is exact: a key has 16 characters just when all three numbers fit, so an
      over-width key never takes the place of a fitting one. */
  lemma OverWidthShows(block: nat, tx: nat, log: nat)
    ensures var (key, fits) := CalcEventId(block, tx, log);
      |key| >= BLOCK_WIDTH + 2 * INDEX_WIDTH && (fits <==> |key| == BLOCK_WIDTH + 2 * INDEX_WIDTH)
  {
    hide Pow10;
    Widths();
    DecimalWidth(block, BLOCK_WIDTH);
    DecimalWidth(tx, INDEX_WIDTH);
    DecimalWidth(log, INDEX_WIDTH);
  }

  lemma {:induction false} PowerDecimal(k: nat)
    ensures Decimal(Pow10(k)) == "1" + Zeros(k)
  {
    if k > 0 {
      PowerDecimal(k - 1);
      assert Pow10(k) / 10 == Pow10(k - 1) && Pow10(k) % 10 == 0;
    }
  }

  lemma SmallDecimals()
    ensures Decimal(12345) == "12345" && Decimal(2345) == "2345"
  {
    assert Decimal(123) == "123" && Decimal(1234) == "1234";
    assert Decimal(23) == "23" && Decimal(234) == "234";
  }

  lemma BlockDecimals()
    ensures Decimal(10000000) == "1" + Zeros(7)
    ensures Decimal(100000001) == "1" + Zeros(7) + "1"
    ensures Decimal(100000000) == "1" + Zeros(8)
  {
    Widths();
    PowerDecimal(7);
    PowerDecimal(8);
  }

  /** Beyond the widths keys are not unique: two events of different blocks share one. */
  lemma OverWidthCollision()
    ensures CalcEventId(10000000, 12345, 1).0 == CalcEventId(100000001, 2345, 1).0
  {
    SmallDecimals();
    BlockDecimals();
    hide Decimal, Zeros;
    assert "12345" == "1" + "2345";
  }

  /** Nor are they ordered: a nine-digit block sorts before an eight-digit one. */
  lemma OverWidthDisorder()
    ensures Before(CalcEventId(100000000, 0, 0).0, CalcEventId(99999999, 0, 0).0)
  {
    BlockDecimals();
    LeadingNine();
    hide Decimal;
    var a, b := CalcEventId(100000000, 0, 0).0, CalcEventId(99999999, 0, 0).0;
    assert a[0] == '1' && b[0] == '9';
  }

  lemma LeadingNine()
    ensures |Decimal(99999999)| == 8 && Decimal(99999999)[0] == '9'
  {
    assert Decimal(999) == "999" by { assert Decimal(99) == "99"; }
    assert Decimal(99999) == "99999" by { assert Decimal(9999) == "9999"; }
    assert Decimal(9999999) == "9999999" by { assert Decimal(999999) == "999999"; }
  }

  // ----- Exactly when keys are unique, and when they are in order -----

  /** The place of an event along the chain. */
  datatype Place = Place(block: nat, tx: nat, log: nat)

  function Key(e: Place): string { CalcEventId(e.block, e.tx, e.log).0 }

  predicate Within(e: Place, blocks: nat, txs: nat, logs: nat)
  {
    e.block <= blocks && e.tx <= txs && e.log <= logs
  }

  /** No two events within the bounds share a key. */
  ghost predicate UniqueWithin(blocks: nat, txs: nat, logs: nat)
  {
    forall e, f :: Within(e, blocks, txs, logs) && Within(f, blocks, txs, logs) && Key(e) == Key(f) ==> e == f
  }

  /** Within the bounds keys compare as texts the way events follow each other. */
  ghost predicate OrderedWithin(blocks: nat, txs: nat, logs: nat)
  {
    forall e, f :: Within(e, blocks, txs, logs) && Within(f, blocks, txs, logs) ==>
      (Before(Key(e), Key(f)) <==> Earlier(e.block, e.tx, e.log, f.block, f.tx, f.log))
  }

  const MAX_BLOCK := 99999999
  const MAX_INDEX := 9999

  /** Two numbers must outgrow their widths together, and by enough for the digits of one to stand for
      digits of the other: the first digit of an over-wide number is not zero. */
  predicate Ambiguous(blocks: nat, txs: nat, logs: nat)
  {
    || (blocks > MAX_BLOCK + 1 && txs > MAX_INDEX)
    || (txs > MAX_INDEX + 1 && logs > MAX_INDEX)
    || (blocks > MAX_BLOCK && txs > 0 && logs > MAX_INDEX)
    || (blocks > 1_000_000_000_000 && logs > 99999999)
  }

  lemma {:induction false} FirstDigit(n: nat)
    ensures n > 0 ==> Decimal(n)[0] != '0'
  {
    if n >= 10 { FirstDigit(n / 10); }
  }

  lemma {:induction false} DecimalIsInjective(m: nat, n: nat)
    ensures Decimal(m) == Decimal(n) <==> m == n
  {
    if m >= 10 && n >= 10 {
      DecimalIsInjective(m / 10, n / 10);
      SameLast(Decimal(m / 10), Digit(m % 10), Decimal(n / 10), Digit(n % 10));
      DigitOrder(m % 10, n % 10);
    } else if m < 10 && n < 10 {
      DigitOrder(m, n);
    }
  }

  lemma SameLast(a: string, c: char, b: string, d: char)
    ensures a + [c] == b + [d] <==> a == b && c == d
  {
    if a + [c] == b + [d] { SplitEqual(a, b, [c], [d]); assert [c][0] == [d][0]; }
  }

  lemma {:induction false} ZerosAreZero(n: nat, i: nat)
    requires i < n
    ensures Zeros(n)[i] == '0'
  {
    if i < n - 1 { ZerosAreZero(n - 1, i); }
  }

  /** Numbers too wide for their field are printed as they are, from a nonzero digit on. */
  lemma PaddedShape(n: nat, width: nat)
    requires width >= 1
    ensures |Padded(n, width)| >= width
    ensures |Padded(n, width)| > width <==> n >= Pow10(width)
    ensures n >= Pow10(width) ==> Padded(n, width) == Decimal(n) && Padded(n, width)[0] != '0'
  {
    DecimalWidth(n, width);
    PowAtLeastTen(width);
    FirstDigit(n);
  }

  lemma {:induction false} FixedIsInjective(m: nat, n: nat, width: nat)
    requires width >= 1 && |Padded(m, width)| == |Padded(n, width)|
    ensures Padded(m, width) == Padded(n, width) <==> m == n
  {
    hide Padded;
    PaddedShape(m, width);
    PaddedShape(n, width);
    if m < Pow10(width) {
      PaddedIsFixed(m, width);
      PaddedIsFixed(n, width);
      FixedOrder(m, n, width);
    } else {
      DecimalIsInjective(m, n);
    }
  }

  /** After its first digit a power of ten has zeros only. */
  lemma AfterTheFirst(n: nat, k: nat, i: nat)
    requires n >= Pow10(k) && 0 < i < |Decimal(n)| && Decimal(n)[i] != '0'
    ensures n > Pow10(k)
  {
    if n == Pow10(k) {
      PowerDecimal(k);
      ZerosAreZero(k, i - 1);
    }
  }

  /** Two texts joined: where the fronts end, the longer front holds a character of the other back. */
  lemma Overhang(a: string, x: string, b: string, y: string, i: nat)
    requires a + x == b + y && |a| > |b| && i < |y| && |b| + i < |a|
    ensures a[|b| + i] == y[i]
  {
    assert (a + x)[|b| + i] == (b + y)[|b| + i];
  }

  lemma TailsEqual(a: string, x: string, b: string, y: string)
    requires a + x == b + y && |a| == |b|
    ensures a == b && x == y
  {
    SplitEqual(a, b, x, y);
  }

  /** Equal texts of transaction and log numbers are of equal numbers, unless both outgrow their width. */
  lemma SameIndices(t1: nat, l1: nat, t2: nat, l2: nat)
    requires Padded(t1, INDEX_WIDTH) + Padded(l1, INDEX_WIDTH) == Padded(t2, INDEX_WIDTH) + Padded(l2, INDEX_WIDTH)
    requires |Padded(t1, INDEX_WIDTH)| >= |Padded(t2, INDEX_WIDTH)|
    ensures (t1 == t2 && l1 == l2) || (t1 > MAX_INDEX + 1 && l2 > MAX_INDEX)
  {
    hide Padded, Decimal, Pow10;
    Widths();
    var p1, r1 := Padded(t1, INDEX_WIDTH), Padded(l1, INDEX_WIDTH);
    var p2, r2 := Padded(t2, INDEX_WIDTH), Padded(l2, INDEX_WIDTH);
    PaddedShape(t1, INDEX_WIDTH); PaddedShape(l1, INDEX_WIDTH);
    PaddedShape(t2, INDEX_WIDTH); PaddedShape(l2, INDEX_WIDTH);
    assert |p1| + |r1| == |p1 + r1| == |p2 + r2| == |p2| + |r2|;
    if |p1| == |p2| {
      TailsEqual(p1, r1, p2, r2);
      FixedIsInjective(t1, t2, INDEX_WIDTH);
      FixedIsInjective(l1, l2, INDEX_WIDTH);
    } else {
      Overhang(p1, r1, p2, r2, 0);
      AfterTheFirst(t1, INDEX_WIDTH, |p2|);
    }
  }

  /** When two keys are equal, the events are, or their numbers are beyond what `Ambiguous` asks for. */
  lemma SameKeys(e: Place, f: Place)
    requires Key(e) == Key(f) && |Padded(e.block, BLOCK_WIDTH)| >= |Padded(f.block, BLOCK_WIDTH)|
    ensures e == f || Ambiguous(e.block, Larger(e.tx, f.tx), Larger(e.log, f.log))
  {
    hide Padded, Decimal, Pow10;
    var b1, b2 := Padded(e.block, BLOCK_WIDTH), Padded(f.block, BLOCK_WIDTH);
    var p1, p2 := Padded(e.tx, INDEX_WIDTH), Padded(f.tx, INDEX_WIDTH);
    var r1, r2 := Padded(e.log, INDEX_WIDTH), Padded(f.log, INDEX_WIDTH);
    assert b1 + p1 + r1 == b1 + (p1 + r1) && b2 + p2 + r2 == b2 + (p2 + r2);
    if |b1| == |b2| {
      TailsEqual(b1, p1 + r1, b2, p2 + r2);
      FixedIsInjective(e.block, f.block, BLOCK_WIDTH);
      if |p1| >= |p2| { SameIndices(e.tx, e.log, f.tx, f.log); } else { SameIndices(f.tx, f.log, e.tx, e.log); }
    } else {
      WiderBlock(e, f);
    }
  }

  function Larger(a: nat, b: nat): nat { if a < b then b else a }

  lemma WiderBlock(e: Place, f: Place)
    requires Key(e) == Key(f) && |Padded(e.block, BLOCK_WIDTH)| > |Padded(f.block, BLOCK_WIDTH)|
    ensures Ambiguous(e.block, Larger(e.tx, f.tx), Larger(e.log, f.log))
  {
    hide Padded, Decimal, Pow10;
    Widths();
    var b1, b2 := Padded(e.block, BLOCK_WIDTH), Padded(f.block, BLOCK_WIDTH);
    var p1, p2 := Padded(e.tx, INDEX_WIDTH), Padded(f.tx, INDEX_WIDTH);
    var r1, r2 := Padded(e.log, INDEX_WIDTH), Padded(f.log, INDEX_WIDTH);
    assert b1 + p1 + r1 == b1 + (p1 + r1) && b2 + p2 + r2 == b2 + (p2 + r2);
    PaddedShape(e.block, BLOCK_WIDTH); PaddedShape(f.block, BLOCK_WIDTH);
    PaddedShape(e.tx, INDEX_WIDTH); PaddedShape(f.tx, INDEX_WIDTH);
    PaddedShape(e.log, INDEX_WIDTH); PaddedShape(f.log, INDEX_WIDTH);
    assert |b1| + |p1| + |r1| == |b2| + |p2| + |r2|;
    if f.tx > MAX_INDEX {
      Overhang(b1, p1 + r1, b2, p2 + r2, 0);
      AfterTheFirst(e.block, BLOCK_WIDTH, |b2|);
    } else {
      assert f.log > MAX_INDEX;
      if e.tx == 0 && f.tx == 0 { WiderBlockAtStart(e, f); }
    }
  }

  /** With transaction number 0 four zeros stand between block and log, so they overlap only from afar. */
  lemma WiderBlockAtStart(e: Place, f: Place)
    requires e.tx == f.tx == 0 && Key(e) == Key(f) && f.log > MAX_INDEX
    requires |Padded(e.block, BLOCK_WIDTH)| > |Padded(f.block, BLOCK_WIDTH)|
    ensures e.block > 1_000_000_000_000 && f.log > 99999999
  {
    hide Padded, Decimal, Pow10;
    Widths();
    LongPower();
    ZeroIndex();
    var b1, b2 := Padded(e.block, BLOCK_WIDTH), Padded(f.block, BLOCK_WIDTH);
    var r1, r2 := Padded(e.log, INDEX_WIDTH), Padded(f.log, INDEX_WIDTH);
    PaddedShape(e.block, BLOCK_WIDTH); PaddedShape(f.block, BLOCK_WIDTH);
    PaddedShape(e.log, INDEX_WIDTH); PaddedShape(f.log, INDEX_WIDTH);
    var k1, k2 := b1 + "0000" + r1, b2 + "0000" + r2;
    assert k1 == k2 && |b1| + 4 + |r1| == |k1| == |k2| == |b2| + 4 + |r2|;
    assert k2[|b2| + 4] == r2[0] != '0';
    if |b1| <= |b2| + 4 {
      MiddleZero(b1, r1, |b2| + 4);
      assert false;
    } else {
      assert b1[|b2| + 4] == k1[|b2| + 4];
      DecimalWidth(e.block, 12);
      AfterTheFirst(e.block, 12, |b2| + 4);
      DecimalWidth(f.log, 8);
    }
  }

  lemma MiddleZero(a: string, b: string, i: nat)
    requires |a| <= i < |a| + 4
    ensures (a + "0000" + b)[i] == '0'
  {
    assert (a + "0000" + b)[i] == "0000"[i - |a|];
  }

  lemma ZeroIndex()
    ensures Padded(0, INDEX_WIDTH) == "0000"
  {
    assert Decimal(0) == "0" && Zeros(1) == "0" && Zeros(2) == "00" && Zeros(3) == "000";
  }

  lemma LongPower()
    ensures Pow10(12) == 1_000_000_000_000
  {
    Widths();
    assert Pow10(9) == 1_000_000_000 && Pow10(10) == 10_000_000_000 && Pow10(11) == 100_000_000_000;
  }

  lemma {:induction false} ZerosJoin(a: nat, b: nat)
    ensures Zeros(a) + Zeros(b) == Zeros(a + b)
  {
    if b > 0 {
      ZerosJoin(a, b - 1);
      assert Zeros(a) + Zeros(b) == Zeros(a) + Zeros(b - 1) + "0";
    } else {
      assert Zeros(a) + "" == Zeros(a);
    }
  }

  lemma PowerPlusOne(k: nat)
    requires k > 0
    ensures Decimal(Pow10(k) + 1) == "1" + Zeros(k - 1) + "1"
  {
    PowAtLeastTen(k);
    PowerDecimal(k - 1);
    assert (Pow10(k) + 1) / 10 == Pow10(k - 1) && (Pow10(k) + 1) % 10 == 1;
  }

  lemma SmallIndices()
    ensures Padded(0, INDEX_WIDTH) == Zeros(4) && Padded(1, INDEX_WIDTH) == Zeros(3) + "1"
    ensures Padded(1000, INDEX_WIDTH) == "1" + Zeros(3) && Padded(10000, INDEX_WIDTH) == "1" + Zeros(4)
  {
    Widths();
    assert Decimal(0) == "0" && Decimal(1) == "1";
    PowerDecimal(3);
    PowerDecimal(4);
    assert Pow10(3) == 1000;
  }

  lemma WideIndices()
    ensures Padded(10001, INDEX_WIDTH) == "1" + Zeros(3) + "1" && Padded(100000000, INDEX_WIDTH) == "1" + Zeros(8)
  {
    Widths();
    PowerDecimal(8);
    PowerPlusOne(4);
  }

  lemma LargeBlocks()
    ensures Padded(10000000, BLOCK_WIDTH) == "1" + Zeros(7) && Padded(100000000, BLOCK_WIDTH) == "1" + Zeros(8)
    ensures Padded(100000001, BLOCK_WIDTH) == "1" + Zeros(7) + "1"
    ensures Padded(1_000_000_000_001, BLOCK_WIDTH) == "1" + Zeros(11) + "1"
  {
    BlockDecimals();
    LongPower();
    PowerPlusOne(12);
  }

  /** Wide block with wide transaction, wide transaction with wide log, and wide block with wide log, from
      nearby or, in transaction 0, from afar. */
  lemma Collisions()
    ensures Key(Place(10000000, 10000, 0)) == Key(Place(100000001, 0, 0))
    ensures Key(Place(0, 10001, 0)) == Key(Place(0, 1000, 10000))
    ensures Key(Place(100000000, 1, 0)) == Key(Place(10000000, 0, 10000))
    ensures Key(Place(1_000_000_000_001, 0, 0)) == Key(Place(10000000, 0, 100000000))
  {
    hide Padded, Zeros, Decimal;
    SmallIndices();
    WideIndices();
    LargeBlocks();
    ZerosJoin(8, 3);
    ZerosJoin(7, 4);
    ZerosJoin(4, 4);
    BlockIntoTx("1" + Zeros(7), "1", Zeros(4), Zeros(4));
    TxIntoLog(Padded(0, BLOCK_WIDTH), "1" + Zeros(3), "1", Zeros(4));
    BlockIntoLog("1", Zeros(8), Zeros(3), Zeros(7), Zeros(4), "1", Zeros(4));
    BlockFarIntoLog("1", Zeros(11), Zeros(7), Zeros(4), "1", Zeros(4), Zeros(4), Zeros(8));
  }

  lemma BlockIntoTx(a: string, b: string, c: string, d: string)
    ensures a + (b + c) + d == (a + b) + c + d
  {
  }

  lemma TxIntoLog(x: string, a: string, b: string, c: string)
    ensures x + (a + b) + c == x + a + (b + c)
  {
  }

  lemma BlockIntoLog(u: string, a: string, b: string, c: string, d: string, o: string, r: string)
    requires a + b == c + d
    ensures (u + a) + (b + o) + r == (u + c) + d + (o + r)
  {
    assert (u + a) + (b + o) + r == u + (a + b) + o + r;
    assert (u + c) + d + (o + r) == u + (c + d) + o + r;
  }

  lemma BlockFarIntoLog(u: string, a: string, b: string, c: string, o: string, d: string, e: string, f: string)
    requires b + c == a && d + e == f
    ensures (u + a + o) + d + e == (u + b) + c + (o + f)
  {
    assert (u + a + o) + d + e == u + a + o + (d + e);
    assert (u + b) + c + (o + f) == u + (b + c) + o + f;
  }

  /** For any bounds: keys are unique on all events within them exactly when the bounds are not ambiguous.
      In particular a single number may be of any size. */
  lemma UniqueExactly(blocks: nat, txs: nat, logs: nat)
    ensures UniqueWithin(blocks, txs, logs) <==> !Ambiguous(blocks, txs, logs)
  {
    hide Key;
    if !Ambiguous(blocks, txs, logs) {
      forall e, f | Within(e, blocks, txs, logs) && Within(f, blocks, txs, logs) && Key(e) == Key(f) ensures e == f {
        if |Padded(e.block, BLOCK_WIDTH)| >= |Padded(f.block, BLOCK_WIDTH)| {
          SameKeys(e, f);
        } else {
          SameKeys(f, e);
        }
      }
    } else {
      Collisions();
      if blocks > MAX_BLOCK + 1 && txs > MAX_INDEX {
        assert Within(Place(10000000, 10000, 0), blocks, txs, logs);
        assert Within(Place(100000001, 0, 0), blocks, txs, logs);
      } else if txs > MAX_INDEX + 1 && logs > MAX_INDEX {
        assert Within(Place(0, 10001, 0), blocks, txs, logs) && Within(Place(0, 1000, 10000), blocks, txs, logs);
      } else if blocks > MAX_BLOCK && txs > 0 && logs > MAX_INDEX {
        assert Within(Place(100000000, 1, 0), blocks, txs, logs);
        assert Within(Place(10000000, 0, 10000), blocks, txs, logs);
      } else {
        assert Within(Place(1_000_000_000_001, 0, 0), blocks, txs, logs);
        assert Within(Place(10000000, 0, 100000000), blocks, txs, logs);
      }
    }
  }

  /** While at most one of the three numbers may outgrow its width, keys stay unique. */
  lemma OneWideNumberIsHarmless(blocks: nat, txs: nat, logs: nat)
    requires (blocks > MAX_BLOCK ==> txs <= MAX_INDEX && logs <= MAX_INDEX) && (txs > MAX_INDEX ==> logs <= MAX_INDEX)
    ensures UniqueWithin(blocks, txs, logs)
  {
    UniqueExactly(blocks, txs, logs);
  }

  /** Two numbers just beyond their widths can be harmless as well: a block of 100000000 with any transaction. */
  lemma TwoWideNumbersCanBeHarmless(txs: nat)
    ensures UniqueWithin(MAX_BLOCK + 1, txs, MAX_INDEX)
  {
    UniqueExactly(MAX_BLOCK + 1, txs, MAX_INDEX);
  }

  lemma LeadingNines()
    ensures Padded(99999999, BLOCK_WIDTH)[0] == '9' && Padded(9999, INDEX_WIDTH)[0] == '9'
  {
    LeadingNine();
    assert Decimal(99) == "99" && Decimal(999) == "999" && Decimal(9999) == "9999";
  }

  lemma SmallerStart(a: string, b: string)
    requires a != "" && b != "" && a[0] < b[0]
    ensures Before(a, b)
  {
  }

  /** The first number beyond each width sorts before the last one within it. */
  lemma Disorders()
    ensures Before(Key(Place(100000000, 0, 0)), Key(Place(99999999, 0, 0)))
    ensures Before(Key(Place(0, 10000, 0)), Key(Place(0, 9999, 0)))
    ensures Before(Key(Place(0, 0, 10000)), Key(Place(0, 0, 9999)))
  {
    hide Decimal;
    OverWidthDisorder();
    LeadingNines();
    SmallIndices();
    var b, t := Padded(0, BLOCK_WIDTH), Padded(0, INDEX_WIDTH);
    var wide, narrow := Padded(10000, INDEX_WIDTH), Padded(9999, INDEX_WIDTH);
    hide Padded, Before;
    SmallerStart(wide + t, narrow + t);
    BeforeConcat(b, b, wide + t, narrow + t);
    assert b + wide + t == b + (wide + t) && b + narrow + t == b + (narrow + t);
    SmallerStart(wide, narrow);
    BeforeConcat(b + t, b + t, wide, narrow);
  }

  lemma OrderedWhileFitting(blocks: nat, txs: nat, logs: nat)
    requires Fits(blocks, txs, logs)
    ensures OrderedWithin(blocks, txs, logs)
  {
    hide Before, Padded, Earlier;
    forall e, f | Within(e, blocks, txs, logs) && Within(f, blocks, txs, logs)
      ensures Before(Key(e), Key(f)) <==> Earlier(e.block, e.tx, e.log, f.block, f.tx, f.log)
    {
      KeyOrderIsChainOrder(e.block, e.tx, e.log, f.block, f.tx, f.log);
    }
  }

  /** For any bounds: key order is chain order on all events within them exactly when all three fit. */
  lemma OrderedExactly(blocks: nat, txs: nat, logs: nat)
    ensures OrderedWithin(blocks, txs, logs) <==> Fits(blocks, txs, logs)
  {
    hide Key, Before;
    if Fits(blocks, txs, logs) {
      OrderedWhileFitting(blocks, txs, logs);
    } else {
      Disorders();
      if blocks > MAX_BLOCK {
        assert Within(Place(100000000, 0, 0), blocks, txs, logs) && Within(Place(99999999, 0, 0), blocks, txs, logs);
      } else if txs > MAX_INDEX {
        assert Within(Place(0, 10000, 0), blocks, txs, logs) && Within(Place(0, 9999, 0), blocks, txs, logs);
      } else {
        assert Within(Place(0, 0, 10000), blocks, txs, logs) && Within(Place(0, 0, 9999), blocks, txs, logs);
      }
    }
  }
}
