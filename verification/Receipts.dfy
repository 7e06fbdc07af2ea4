/** Matching the receipts of a block, in whatever order they come, to its transactions. */
module Receipts {
  import opened Prelude

  type Hash = string
  type Body = string

  datatype RawReceipt = RawReceipt(txHash: Hash, blockHash: Hash, status: Field<nat>, index: Field<nat>,
      logs: seq<Option<Body>>)

  datatype Log = Log(body: Body, position: nat)

  datatype Receipt = Receipt(txHash: Hash, blockHash: Hash, txIndex: nat, status: nat, logs: seq<Log>)

  datatype Block = Block(number: nat, hash: Hash, parent: Hash, transactions: seq<Hash>)

  datatype Failure = WrongHeight | CountMismatch | Missing | WrongBlock | BadStatus | WrongIndex | BadLog

  function FirstProblem(raw: RawReceipt, i: nat, blockHash: Hash): Option<Failure>
  {
    if raw.blockHash != blockHash then Some(WrongBlock)
    else if !raw.status.Given? || raw.status.value > 1 then Some(BadStatus)
    else if raw.index != Absent && raw.index != Given(i) then Some(WrongIndex)
    else if None in raw.logs then Some(BadLog)
    else None
  }

  function Decoded(raw: RawReceipt, i: nat, blockHash: Hash): Receipt
    requires FirstProblem(raw, i, blockHash) == None
  {
    var logs := seq(|raw.logs|,
      k requires 0 <= k < |raw.logs| => assert raw.logs[k] != None; Log(raw.logs[k].value, k));
    Receipt(raw.txHash, raw.blockHash, i, raw.status.value, logs)
  }

  method DecodeReceipt(raw: RawReceipt, i: nat, blockHash: Hash) returns (r: Result<Receipt, Failure>)
    ensures r == match FirstProblem(raw, i, blockHash)
      case Some(e) => Err(e)
      case None => Ok(Decoded(raw, i, blockHash))
  {
    if raw.blockHash != blockHash {
      return Err(WrongBlock);
    }
    if !raw.status.Given? || raw.status.value > 1 {
      return Err(BadStatus);
    }
    if raw.index != Absent && raw.index != Given(i) {
      return Err(WrongIndex);
    }
    var logs := [];
    for k := 0 to |raw.logs|
      invariant |logs| == k
      invariant forall j :: 0 <= j < k ==> raw.logs[j] != None && logs[j] == Log(raw.logs[j].value, j)
    {
      if raw.logs[k] == None {
        return Err(BadLog);
      }
      logs := logs + [Log(raw.logs[k].value, k)];
    }
    r := Ok(Receipt(raw.txHash, raw.blockHash, i, raw.status.value, logs));
    assert logs == Decoded(raw, i, blockHash).logs;
  }

  /** The position of the last of the first n rows with a hash: the one a map keyed by hash keeps. */
  function LastRow(rows: seq<RawReceipt>, n: nat, hash: Hash): (j: Option<nat>)
    requires n <= |rows|
    ensures j.Some? ==> j.value < n && rows[j.value].txHash == hash
    ensures j == None ==> forall k :: 0 <= k < n ==> rows[k].txHash != hash
  {
    if n == 0 then None
    else if rows[n - 1].txHash == hash then Some(n - 1)
    else LastRow(rows, n - 1, hash)
  }

  function RowFor(rows: seq<RawReceipt>, hash: Hash): Option<nat> { LastRow(rows, |rows|, hash) }

  /** What goes wrong with transaction i, if anything does. */
  function Problem(rows: seq<RawReceipt>, txs: seq<Hash>, i: nat, blockHash: Hash): Option<Failure>
    requires i < |txs|
  {
    match RowFor(rows, txs[i])
    case None => Some(Missing)
    case Some(j) => FirstProblem(rows[j], i, blockHash)
  }

  /** The error is that of the first transaction that has one. */
  ghost predicate IsFirstProblem(rows: seq<RawReceipt>, txs: seq<Hash>, blockHash: Hash, i: nat, e: Failure)
  {
    && i < |txs| && Problem(rows, txs, i, blockHash) == Some(e)
    && forall k :: 0 <= k < i ==> Problem(rows, txs, k, blockHash) == None
  }

  /** Receipt i is the decoded row of transaction i. */
  ghost predicate Matches(rows: seq<RawReceipt>, txs: seq<Hash>, blockHash: Hash, out: seq<Receipt>, n: nat)
  {
    n <= |out| && n <= |txs| && forall i :: 0 <= i < n ==> Matched(rows, txs, blockHash, i, out[i])
  }

  ghost predicate Matched(rows: seq<RawReceipt>, txs: seq<Hash>, blockHash: Hash, i: nat, receipt: Receipt)
    requires i < |txs|
  {
    && Problem(rows, txs, i, blockHash) == None
    && receipt == Decoded(rows[RowFor(rows, txs[i]).value], i, blockHash)
  }

  ghost predicate Aligned(rows: seq<RawReceipt>, txs: seq<Hash>, blockHash: Hash, r: Result<seq<Receipt>, Failure>)
  {
    match r
    case Ok(out) => |rows| == |txs| == |out| && Matches(rows, txs, blockHash, out, |txs|)
    case Err(e) =>
      if |rows| != |txs| then e == CountMismatch else exists i :: IsFirstProblem(rows, txs, blockHash, i, e)
  }

  method AlignReceipts(rows: seq<RawReceipt>, txs: seq<Hash>, blockHash: Hash)
    returns (r: Result<seq<Receipt>, Failure>)
    ensures Aligned(rows, txs, blockHash, r)
  {
    hide Decoded, FirstProblem;
    if |rows| != |txs| {
      return Err(CountMismatch);
    }
    var byHash: map<Hash, nat> := map[];
    for n := 0 to |rows|
      invariant forall h :: h in byHash ==> LastRow(rows, n, h) == Some(byHash[h])
      invariant forall h :: h !in byHash ==> LastRow(rows, n, h) == None
    {
      byHash := byHash[rows[n].txHash := n];
    }
    var out := [];
    for i := 0 to |txs|
      invariant |out| == i && Matches(rows, txs, blockHash, out, i)
      invariant forall k :: 0 <= k < i ==> Problem(rows, txs, k, blockHash) == None
    {
      if txs[i] !in byHash {
        assert IsFirstProblem(rows, txs, blockHash, i, Missing);
        return Err(Missing);
      }
      assert RowFor(rows, txs[i]) == Some(byHash[txs[i]]);
      var receipt := DecodeReceipt(rows[byHash[txs[i]]], i, blockHash);
      if receipt.Err? {
        assert IsFirstProblem(rows, txs, blockHash, i, receipt.error);
        return Err(receipt.error);
      }
      out := out + [receipt.value];
    }
    r := Ok(out);
  }

  method AssembleBlock(number: nat, block: Block, rows: seq<RawReceipt>) returns (r: Result<seq<Receipt>, Failure>)
    ensures block.number != number ==> r == Err(WrongHeight)
    ensures block.number == number ==> Aligned(rows, block.transactions, block.hash, r)
  {
    if block.number != number {
      return Err(WrongHeight);
    }
    r := AlignReceipts(rows, block.transactions, block.hash);
  }

  // ----- What a success means -----

  predicate Distinct(s: seq<Hash>)
  {
    forall i, j :: 0 <= i < j < |s| ==> s[i] != s[j]
  }

  function Hashes(rows: seq<RawReceipt>): (hs: seq<Hash>)
    ensures |hs| == |rows| && forall i :: 0 <= i < |rows| ==> hs[i] == rows[i].txHash
  {
    seq(|rows|, i requires 0 <= i < |rows| => rows[i].txHash)
  }

  /** Row j is the row of transaction i and of no other. */
  ghost predicate OnlyFor(rows: seq<RawReceipt>, txs: seq<Hash>, j: nat, i: nat)
  {
    && i < |txs| && RowFor(rows, txs[i]) == Some(j)
    && forall k :: 0 <= k < |txs| && RowFor(rows, txs[k]) == Some(j) ==> k == i
  }

  ghost predicate UsedOnce(rows: seq<RawReceipt>, txs: seq<Hash>, j: nat) { exists i :: OnlyFor(rows, txs, j, i) }

  /** No row is used for two transactions, and none is left over. */
  ghost predicate EachRowOnce(rows: seq<RawReceipt>, txs: seq<Hash>)
  {
    forall j :: 0 <= j < |rows| ==> UsedOnce(rows, txs, j)
  }

  lemma {:induction false} CountOfDistinct(s: seq<Hash>, h: Hash)
    requires Distinct(s)
    ensures multiset(s)[h] == if h in s then 1 else 0
  {
    if s != [] {
      var front, last := s[..|s| - 1], s[|s| - 1];
      assert s == front + [last];
      CountOfDistinct(front, h);
      assert last !in front;
    }
  }

  lemma TwiceCounted(s: seq<Hash>, i: nat, k: nat)
    requires i < k < |s| && s[i] == s[k]
    ensures multiset(s)[s[i]] >= 2
  {
    assert s == s[..i] + [s[i]] + s[i + 1..k] + [s[k]] + s[k + 1..];
  }

  /** Pigeonhole: as many rows as transactions, and a row for each of the distinct hashes, leaves no room for others. */
  lemma SameHashes(rows: seq<RawReceipt>, txs: seq<Hash>)
    requires |rows| == |txs| && Distinct(txs) && forall i :: 0 <= i < |txs| ==> RowFor(rows, txs[i]).Some?
    ensures multiset(Hashes(rows)) == multiset(txs) && Distinct(Hashes(rows))
  {
    var hs := Hashes(rows);
    forall h ensures multiset(txs)[h] <= multiset(hs)[h] {
      CountOfDistinct(txs, h);
      if h in txs {
        var i :| 0 <= i < |txs| && txs[i] == h;
        var j := RowFor(rows, txs[i]).value;
        assert hs[j] == h;
      }
    }
    assert multiset(txs) <= multiset(hs);
    assert |multiset(hs) - multiset(txs)| == 0;
    assert multiset(hs) == multiset(txs) + (multiset(hs) - multiset(txs));
    forall i, k | 0 <= i < k < |hs| ensures hs[i] != hs[k] {
      if hs[i] == hs[k] {
        TwiceCounted(hs, i, k);
        CountOfDistinct(txs, hs[i]);
      }
    }
  }

  /** An accepted answer uses every row exactly once if, and only if, the transactions have distinct hashes. */
  lemma AcceptedRowsArePermutation(rows: seq<RawReceipt>, txs: seq<Hash>, blockHash: Hash, out: seq<Receipt>)
    requires Aligned(rows, txs, blockHash, Ok(out))
    ensures EachRowOnce(rows, txs) <==> Distinct(txs)
    ensures Distinct(txs) ==> multiset(Hashes(rows)) == multiset(txs)
  {
    forall i | 0 <= i < |txs| ensures RowFor(rows, txs[i]).Some? {
      assert Matched(rows, txs, blockHash, i, out[i]);
    }
    hide Matched, Matches;
    if Distinct(txs) {
      SameHashes(rows, txs);
      forall j | 0 <= j < |rows| ensures UsedOnce(rows, txs, j) {
        var h := Hashes(rows)[j];
        assert h in multiset(txs);
        var i :| 0 <= i < |txs| && txs[i] == h;
        assert Hashes(rows)[RowFor(rows, h).value] == h;
        assert OnlyFor(rows, txs, j, i);
      }
    }
    if EachRowOnce(rows, txs) {
      forall i, k | 0 <= i < k < |txs| ensures txs[i] != txs[k] {
        var j := RowFor(rows, txs[i]).value;
        assert UsedOnce(rows, txs, j);
        var only :| OnlyFor(rows, txs, j, only);
      }
    }
  }

  /** The row at j is the one a map by hash keeps for this hash. */
  predicate IsLastRow(rows: seq<RawReceipt>, hash: Hash, j: nat)
  {
    j < |rows| && rows[j].txHash == hash && forall k :: j < k < |rows| ==> rows[k].txHash != hash
  }

  predicate SameLogs(raw: seq<Option<Body>>, logs: seq<Log>)
  {
    |raw| == |logs| && forall k :: 0 <= k < |raw| ==> raw[k] == Some(logs[k].body) && logs[k].position == k
  }

  /** The row is one of this block, with a status of 0 or 1, no index but the right one, and readable logs; the
      receipt carries its hash, its status and its logs in the order they came. */
  predicate Carries(row: RawReceipt, i: nat, blockHash: Hash, receipt: Receipt)
  {
    && row.blockHash == blockHash && receipt.blockHash == blockHash
    && row.txHash == receipt.txHash && receipt.txIndex == i
    && row.status == Given(receipt.status) && receipt.status <= 1
    && (row.index == Absent || row.index == Given(i))
    && SameLogs(row.logs, receipt.logs)
  }

  /** Row j is the last one for transaction i, and the receipt carries it. */
  predicate FromRow(rows: seq<RawReceipt>, txs: seq<Hash>, blockHash: Hash, i: nat, receipt: Receipt, j: nat)
    requires i < |txs|
  {
    IsLastRow(rows, txs[i], j) && Carries(rows[j], i, blockHash, receipt)
  }

  ghost predicate Accepted(rows: seq<RawReceipt>, txs: seq<Hash>, blockHash: Hash, i: nat, receipt: Receipt)
    requires i < |txs|
  {
    exists j: nat :: FromRow(rows, txs, blockHash, i, receipt, j)
  }

  /** An answer is accepted, and then is this list of receipts, if and only if there are as many rows as
      transactions and each transaction's last row is acceptable and is what its receipt carries. */
  lemma AcceptedExactly(rows: seq<RawReceipt>, txs: seq<Hash>, blockHash: Hash, out: seq<Receipt>)
    ensures Aligned(rows, txs, blockHash, Ok(out)) <==>
      && |rows| == |txs| == |out|
      && forall i :: 0 <= i < |txs| ==> Accepted(rows, txs, blockHash, i, out[i])
  {
    hide Matched, Accepted;
    forall i | 0 <= i < |txs| && |out| == |txs|
      ensures Matched(rows, txs, blockHash, i, out[i]) <==> Accepted(rows, txs, blockHash, i, out[i])
    {
      OneReceipt(rows, txs, blockHash, i, out[i]);
    }
  }

  lemma {:induction false} LastRowIs(rows: seq<RawReceipt>, n: nat, hash: Hash, j: nat)
    requires j < n <= |rows| && rows[j].txHash == hash && forall k :: j < k < n ==> rows[k].txHash != hash
    ensures LastRow(rows, n, hash) == Some(j)
  {
    if n > j + 1 { LastRowIs(rows, n - 1, hash, j); }
  }

  lemma {:induction false} LastRowMeans(rows: seq<RawReceipt>, n: nat, hash: Hash)
    requires n <= |rows|
    ensures match LastRow(rows, n, hash)
      case None => true
      case Some(j) => forall k :: j < k < n ==> rows[k].txHash != hash
  {
    if n > 0 && rows[n - 1].txHash != hash { LastRowMeans(rows, n - 1, hash); }
  }

  lemma OneReceipt(rows: seq<RawReceipt>, txs: seq<Hash>, blockHash: Hash, i: nat, receipt: Receipt)
    requires i < |txs|
    ensures Matched(rows, txs, blockHash, i, receipt) <==> Accepted(rows, txs, blockHash, i, receipt)
  {
    LastRowMeans(rows, |rows|, txs[i]);
    if Matched(rows, txs, blockHash, i, receipt) {
      var j := RowFor(rows, txs[i]).value;
      assert forall k :: 0 <= k < |rows[j].logs| ==> rows[j].logs[k] in rows[j].logs;
      assert FromRow(rows, txs, blockHash, i, receipt, j);
    }
    if j: nat :| FromRow(rows, txs, blockHash, i, receipt, j) {
      LastRowIs(rows, |rows|, txs[i], j);
      assert Decoded(rows[j], i, blockHash).logs == receipt.logs;
    }
  }

  /** Receipt i is about transaction i of this block: hash, status and logs, in the order they came, are those of one
      and the same row. */
  lemma AcceptedReceiptsFit(rows: seq<RawReceipt>, txs: seq<Hash>, blockHash: Hash, out: seq<Receipt>, i: nat)
    requires Aligned(rows, txs, blockHash, Ok(out)) && i < |txs|
    ensures out[i].txHash == txs[i] && out[i].blockHash == blockHash && out[i].txIndex == i && out[i].status <= 1
    ensures exists j ::
      0 <= j < |rows| && rows[j].txHash == txs[i] && rows[j].status == Given(out[i].status) &&
      SameLogs(rows[j].logs, out[i].logs)
  {
    AcceptedExactly(rows, txs, blockHash, out);
    var j: nat :| FromRow(rows, txs, blockHash, i, out[i], j);
  }

  /** Why transaction i is refused, read off its last row. */
  predicate Refuses(rows: seq<RawReceipt>, hash: Hash, i: nat, blockHash: Hash, j: nat, e: Failure)
  {
    if e == Missing then forall k :: 0 <= k < |rows| ==> rows[k].txHash != hash
    else
      && IsLastRow(rows, hash, j)
      && var row := rows[j];
         var statusOk := row.status == Given(0) || row.status == Given(1);
         var indexOk := row.index == Absent || row.index == Given(i);
         match e
         case WrongBlock => row.blockHash != blockHash
         case BadStatus => row.blockHash == blockHash && !statusOk
         case WrongIndex => row.blockHash == blockHash && statusOk && !indexOk
         case BadLog => row.blockHash == blockHash && statusOk && indexOk && None in row.logs
         case _ => false
  }

  /** Transaction i is the first that no receipt can be made for, and this is why. */
  ghost predicate RefusedAt(rows: seq<RawReceipt>, txs: seq<Hash>, blockHash: Hash, i: nat, e: Failure)
  {
    && i < |txs| && (exists j: nat :: Refuses(rows, txs[i], i, blockHash, j, e))
    && forall k :: 0 <= k < i ==> Acceptable(rows, txs, blockHash, k)
  }

  ghost predicate Acceptable(rows: seq<RawReceipt>, txs: seq<Hash>, blockHash: Hash, i: nat)
    requires i < |txs|
  {
    exists receipt :: Accepted(rows, txs, blockHash, i, receipt)
  }

  /** An answer is refused with the error of the first transaction that no receipt can be made for. */
  lemma RefusedExactly(rows: seq<RawReceipt>, txs: seq<Hash>, blockHash: Hash, e: Failure)
    requires Aligned(rows, txs, blockHash, Err(e))
    ensures if |rows| != |txs| then e == CountMismatch else exists i: nat :: RefusedAt(rows, txs, blockHash, i, e)
  {
    if |rows| == |txs| {
      var i: nat :| IsFirstProblem(rows, txs, blockHash, i, e);
      WhyRefused(rows, txs, blockHash, i, e);
      forall k | 0 <= k < i ensures Acceptable(rows, txs, blockHash, k) {
        assert Problem(rows, txs, k, blockHash) == None;
        var receipt := Decoded(rows[RowFor(rows, txs[k]).value], k, blockHash);
        OneReceipt(rows, txs, blockHash, k, receipt);
      }
      assert RefusedAt(rows, txs, blockHash, i, e);
    }
  }

  lemma WhyRefused(rows: seq<RawReceipt>, txs: seq<Hash>, blockHash: Hash, i: nat, e: Failure)
    requires i < |txs| && Problem(rows, txs, i, blockHash) == Some(e)
    ensures exists j: nat :: Refuses(rows, txs[i], i, blockHash, j, e)
  {
    LastRowMeans(rows, |rows|, txs[i]);
    var found := RowFor(rows, txs[i]);
    var j := if found.Some? then found.value else 0;
    assert Refuses(rows, txs[i], i, blockHash, j, e);
  }

  // ----- The order of the rows -----

  lemma {:induction false} FoundWhere(rows: seq<RawReceipt>, n: nat, j: nat)
    requires j < n <= |rows| && Distinct(Hashes(rows))
    ensures LastRow(rows, n, rows[j].txHash) == Some(j)
  {
    assert Hashes(rows)[j] == rows[j].txHash;
    if j < n - 1 {
      assert Hashes(rows)[n - 1] != Hashes(rows)[j];
      FoundWhere(rows, n - 1, j);
    }
  }

  /** The same rows in another order give the same receipts. */
  lemma RowOrderDoesNotMatter(rows: seq<RawReceipt>, other: seq<RawReceipt>, txs: seq<Hash>, blockHash: Hash,
      out: seq<Receipt>)
    requires multiset(rows) == multiset(other) && Distinct(txs)
    ensures Aligned(rows, txs, blockHash, Ok(out)) <==> Aligned(other, txs, blockHash, Ok(out))
  {
    if Aligned(rows, txs, blockHash, Ok(out)) { SameInOtherOrder(rows, other, txs, blockHash, out); }
    if Aligned(other, txs, blockHash, Ok(out)) { SameInOtherOrder(other, rows, txs, blockHash, out); }
  }

  lemma SameInOtherOrder(rows: seq<RawReceipt>, other: seq<RawReceipt>, txs: seq<Hash>, blockHash: Hash,
      out: seq<Receipt>)
    requires multiset(rows) == multiset(other) && Distinct(txs) && Aligned(rows, txs, blockHash, Ok(out))
    ensures Aligned(other, txs, blockHash, Ok(out))
  {
    hide Decoded, FirstProblem;
    assert |multiset(rows)| == |multiset(other)|;
    forall i | 0 <= i < |txs| ensures RowFor(other, txs[i]).Some? && RowFor(rows, txs[i]).Some? {
      assert Matched(rows, txs, blockHash, i, out[i]);
      assert rows[RowFor(rows, txs[i]).value] in multiset(other);
    }
    SameHashes(other, txs);
    forall i | 0 <= i < |txs| ensures Matched(other, txs, blockHash, i, out[i]) {
      assert Matched(rows, txs, blockHash, i, out[i]);
      var row := rows[RowFor(rows, txs[i]).value];
      assert row in multiset(other);
      var j :| 0 <= j < |other| && other[j] == row;
      FoundWhere(other, |other|, j);
    }
  }

  /** With a repeated transaction hash a row can be accepted and yet used twice, while another is lost. */
  lemma RepeatedHashLosesARow(blockHash: Hash)
    ensures var one := RawReceipt("a", blockHash, Given(1), Absent, []);
      var stray := one.(txHash := "b");
      exists out :: Aligned([stray, one], ["a", "a"], blockHash, Ok(out)) && !EachRowOnce([stray, one], ["a", "a"])
  {
    var one := RawReceipt("a", blockHash, Given(1), Absent, []);
    var stray := one.(txHash := "b");
    var rows, txs := [stray, one], ["a", "a"];
    assert RowFor(rows, "a") == Some(1);
    var out := [Decoded(one, 0, blockHash), Decoded(one, 1, blockHash)];
    assert Matched(rows, txs, blockHash, 0, out[0]) && Matched(rows, txs, blockHash, 1, out[1]);
    assert Aligned(rows, txs, blockHash, Ok(out));
    AcceptedRowsArePermutation(rows, txs, blockHash, out);
    assert txs[0] == txs[1];
  }
}
