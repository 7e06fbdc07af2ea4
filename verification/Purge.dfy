/** Removing expired trades in bounded batches, each its own transaction, with other writers in between. */
module Purge {
  import opened Prelude

  /** Chain time in seconds, by event id; an id stands for its place in the order of the text keys. */
  type Rows = map<int, int>

  const SECONDS_PER_DAY := 86400
  const MAX_BATCH := 5000

  function Expired(rows: Rows, cutoff: int): set<int>
  {
    set id | id in rows && rows[id] < cutoff
  }

  predicate Older(rows: Rows, a: int, b: int)
    requires a in rows && b in rows
  {
    rows[a] < rows[b] || (rows[a] == rows[b] && a < b)
  }

  /** Some n expired rows, or all when there are fewer, each older than every expired row that is not among them. */
  ghost predicate OldestOf(rows: Rows, cutoff: int, n: nat, gone: set<int>)
  {
    && gone <= Expired(rows, cutoff)
    && |gone| == Min(n, |Expired(rows, cutoff)|)
    && forall a, b :: a in gone && b in Expired(rows, cutoff) && b !in gone ==> Older(rows, a, b)
  }

  lemma OldestOfIsUnique(rows: Rows, cutoff: int, n: nat, g: set<int>, h: set<int>)
    requires OldestOf(rows, cutoff, n, g) && OldestOf(rows, cutoff, n, h)
    ensures g == h
  {
    if g != h {
      var a, b := Exchange(g, h);
      OlderOneWay(rows, a, b);
      assert false;
    }
  }

  lemma OlderOneWay(rows: Rows, a: int, b: int)
    requires a in rows && b in rows && Older(rows, a, b)
    ensures !Older(rows, b, a)
  {
  }

  lemma Exchange(g: set<int>, h: set<int>) returns (a: int, b: int)
    requires |g| == |h| && g != h
    ensures a in g && a !in h && b in h && b !in g
  {
    assert g == (g - h) + g * h && h == (h - g) + g * h;
    assert |g| == |g - h| + |g * h| && |h| == |h - g| + |g * h|;
    assert g - h != {} && h - g != {};
    a := Pick(g - h);
    b := Pick(h - g);
  }

  predicate IsOldest(rows: Rows, cutoff: int, id: int)
  {
    id in Expired(rows, cutoff) && forall other :: other in Expired(rows, cutoff) && other != id ==>
      Older(rows, id, other)
  }

  lemma {:induction false} OldestExists(rows: Rows, among: set<int>) returns (id: int)
    requires among != {}
    requires among <= rows.Keys
    ensures id in among
    ensures forall other :: other in among && other != id ==> Older(rows, id, other)
    decreases |among|
  {
    var one := Pick(among);
    var less := among - {one};
    if less == {} {
      id := one;
      assert forall other :: other in among && other != one ==> other in less;
    } else {
      var rest := OldestExists(rows, less);
      id := if Older(rows, one, rest) then one else rest;
      forall other | other in among && other != id ensures Older(rows, id, other) {
        assert other == one || other in less;
      }
    }
  }

  lemma SomeIsOldest(rows: Rows, cutoff: int)
    requires Expired(rows, cutoff) != {}
    ensures exists id :: IsOldest(rows, cutoff, id)
  {
    var id := OldestExists(rows, Expired(rows, cutoff));
    assert IsOldest(rows, cutoff, id);
  }

  function Oldest(rows: Rows, cutoff: int): (id: int)
    requires Expired(rows, cutoff) != {}
    ensures IsOldest(rows, cutoff, id)
  {
    SomeIsOldest(rows, cutoff);
    var id :| IsOldest(rows, cutoff, id);
    id
  }

  /** The table after one deletion of the n oldest expired rows. */
  function Purged(rows: Rows, cutoff: int, n: nat): Rows
  {
    if n == 0 || Expired(rows, cutoff) == {} then rows
    else Purged(rows - {Oldest(rows, cutoff)}, cutoff, n - 1)
  }

  function Gone(before: Rows, after: Rows): set<int> { before.Keys - after.Keys }

  lemma OneMoreGoes(rows: Rows, cutoff: int, n: nat, id: int, gone: set<int>)
    requires n > 0 && IsOldest(rows, cutoff, id) && OldestOf(rows - {id}, cutoff, n - 1, gone)
    ensures id !in gone && OldestOf(rows, cutoff, n, gone + {id})
  {
    var less := rows - {id};
    assert Expired(less, cutoff) == Expired(rows, cutoff) - {id};
    forall a, b | a in gone + {id} && b in Expired(rows, cutoff) && b !in gone + {id} ensures Older(rows, a, b) {
      if a != id { assert b in Expired(less, cutoff) && Older(less, a, b); }
    }
  }

  lemma {:induction false} PurgedBy(rows: Rows, cutoff: int, n: nat) returns (gone: set<int>)
    ensures OldestOf(rows, cutoff, n, gone) && Purged(rows, cutoff, n) == rows - gone
  {
    hide IsOldest, OldestOf, Expired;
    if n == 0 || Expired(rows, cutoff) == {} {
      gone := {};
      NoneGo(rows, cutoff, n);
      assert rows - {} == rows;
    } else {
      var id := Oldest(rows, cutoff);
      gone := PurgedBy(rows - {id}, cutoff, n - 1);
      OneMoreGoes(rows, cutoff, n, id, gone);
      assert rows - {id} - gone == rows - (gone + {id});
      gone := gone + {id};
    }
  }

  lemma NoneGo(rows: Rows, cutoff: int, n: nat)
    requires n == 0 || Expired(rows, cutoff) == {}
    ensures OldestOf(rows, cutoff, n, {})
  {
  }

  /** Exactly the oldest expired rows go, as many as asked for if there are that many: each is before every row that
      stays, by time and then by id. */
  lemma PurgedMeans(rows: Rows, cutoff: int, n: nat)
    ensures OldestOf(rows, cutoff, n, Gone(rows, Purged(rows, cutoff, n)))
    ensures Purged(rows, cutoff, n) == rows - Gone(rows, Purged(rows, cutoff, n))
    ensures forall a, b :: a in Gone(rows, Purged(rows, cutoff, n)) && b in Purged(rows, cutoff, n) ==>
      rows[a] < rows[b] || (rows[a] == rows[b] && a < b)
  {
    hide Purged;
    var gone := PurgedBy(rows, cutoff, n);
    assert Gone(rows, rows - gone) == gone;
  }

  /** Two deletions, one after the other, are one of the joint size. */
  lemma {:induction false} BatchesCompose(rows: Rows, cutoff: int, a: nat, b: nat)
    ensures Purged(Purged(rows, cutoff, a), cutoff, b) == Purged(rows, cutoff, a + b)
  {
    if a > 0 && Expired(rows, cutoff) != {} {
      BatchesCompose(rows - {Oldest(rows, cutoff)}, cutoff, a - 1, b);
    }
  }

  lemma ExpiredAfter(rows: Rows, cutoff: int, n: nat)
    ensures |Expired(Purged(rows, cutoff, n), cutoff)| == |Expired(rows, cutoff)| - Min(n, |Expired(rows, cutoff)|)
    ensures Expired(Purged(rows, cutoff, n), cutoff) <= Expired(rows, cutoff)
  {
    hide Purged;
    PurgedMeans(rows, cutoff, n);
    var gone := Gone(rows, Purged(rows, cutoff, n));
    assert Expired(Purged(rows, cutoff, n), cutoff) == Expired(rows, cutoff) - gone;
    assert |Expired(rows, cutoff) - gone| == |Expired(rows, cutoff)| - |gone|;
  }

  // ----- The loop -----

  /** What the surroundings do around one batch: rows written before it, its answer, and whether the pause
      after it is interrupted. */
  datatype Round = Round(arrivals: Rows, answer: Outcome, interrupted: bool)

  datatype Failure = BadParameters | WriteFailed | Interrupted

  datatype Report = Report(deleted: nat, limited: bool, failure: Option<Failure>)

  /** One round as it happened: the table it found, the rows that arrived first, and the rows that went. */
  datatype Turn = Turn(found: Rows, arrivals: Rows, gone: set<int>)

  datatype Ending = Ending(rows: Rows, report: Report, turns: seq<Turn>)

  function Now(rounds: seq<Round>): Round { if rounds == [] then Round(map[], Succeeds, false) else rounds[0] }

  function Later(rounds: seq<Round>): seq<Round> { if rounds == [] then [] else rounds[1..] }

  /** An event that is already stored is not written again. */
  function Insert(rows: Rows, more: Rows): Rows { more + rows }

  /** A run from `deleted` rows on; the turns are its history. */
  function Run(rows: Rows, cutoff: int, batch: nat, limit: nat, deleted: nat, rounds: seq<Round>): Ending
    requires batch > 0 && deleted <= limit
    decreases limit - deleted
  {
    if deleted == limit then Ending(rows, Report(deleted, false, None), []) else
    var arrivals := Now(rounds).arrivals;
    var before := Insert(rows, arrivals);
    var size := Min(batch, limit - deleted);
    var count := Min(size, |Expired(before, cutoff)|);
    var after := Purged(before, cutoff, size);
    var turn := Turn(rows, arrivals, Gone(before, after));
    match Now(rounds).answer
    case Fails => Ending(before, Report(deleted, false, Some(WriteFailed)), [turn.(gone := {})])
    case LostAnswer => Ending(after, Report(deleted, false, Some(WriteFailed)), [turn])
    case Succeeds =>
      if count < size then Ending(after, Report(deleted + count, false, None), [turn])
      else if deleted + count == limit then
        Ending(after, Report(limit, Expired(after, cutoff) != {}, None), [turn])
      else if Now(rounds).interrupted then Ending(after, Report(deleted + count, false, Some(Interrupted)), [turn])
      else
        var rest := Run(after, cutoff, batch, limit, deleted + count, Later(rounds));
        rest.(turns := [turn] + rest.turns)
  }

  predicate Sensible(days: int, batch: int, limit: int)
  {
    days >= 1 && 1 <= batch <= MAX_BATCH && limit >= 1
  }

  class WalletEvents {
    var rows: Rows

    constructor ()
      ensures rows == map[]
    {
      rows := map[];
    }

    method Write(more: Rows)
      modifies this
      ensures rows == Insert(old(rows), more)
    {
      rows := Insert(rows, more);
    }

    /** One transaction. The flag is looked up only when the run's limit is reached. */
    method DeleteBatch(cutoff: int, size: nat, already: nat, limit: nat) returns (deleted: nat, more: bool)
      modifies this
      ensures OldestOf(old(rows), cutoff, size, Gone(old(rows), rows)) && rows == old(rows) - Gone(old(rows), rows)
      ensures rows == Purged(old(rows), cutoff, size)
      ensures forall a, b :: a in Gone(old(rows), rows) && b in rows ==>
        old(rows)[a] < rows[b] || (old(rows)[a] == rows[b] && a < b)
      ensures deleted == |Gone(old(rows), rows)| == Min(size, |Expired(old(rows), cutoff)|)
      ensures more <==> already + deleted >= limit && Expired(rows, cutoff) != {}
    {
      PurgedMeans(rows, cutoff, size);
      var after := Purged(rows, cutoff, size);
      deleted := |rows.Keys - after.Keys|;
      rows := after;
      more := already + deleted >= limit && Expired(rows, cutoff) != {};
    }

    method PurgeExpired(now: int, days: int, batch: int, limit: int, rounds: seq<Round>) returns (r: Report)
      modifies this
      ensures !Sensible(days, batch, limit) ==> r == Report(0, false, Some(BadParameters)) && rows == old(rows)
      ensures Sensible(days, batch, limit) ==>
        var run := Run(old(rows), now - days * SECONDS_PER_DAY, batch, limit, 0, rounds);
        rows == run.rows && r == run.report
      ensures r.failure == Some(BadParameters) <==> days < 1 || batch < 1 || batch > 5000 || limit < 1
      ensures forall id :: id in old(rows) && id !in OlderThan(old(rows), now, days) ==>
        id in rows && rows[id] == old(rows)[id]
    {
      hide Purged, OldestOf, Expired, Insert, Gone;
      if days < 1 || batch < 1 || batch > MAX_BATCH || limit < 1 {
        return Report(0, false, Some(BadParameters));
      }
      var cutoff := now - days * SECONDS_PER_DAY;
      ghost var whole := Run(rows, cutoff, batch, limit, 0, rounds);
      RetentionMeans(rows, now, days, batch, limit, rounds);
      var total, left := 0, rounds;
      while total < limit
        invariant 0 <= total <= limit
        invariant Run(rows, cutoff, batch, limit, total, left).rows == whole.rows
        invariant Run(rows, cutoff, batch, limit, total, left).report == whole.report
      {
        var size := if batch > limit - total then limit - total else batch;
        Write(Now(left).arrivals);
        if Now(left).answer == Fails {
          return Report(total, false, Some(WriteFailed));
        }
        var deleted, more := DeleteBatch(cutoff, size, total, limit);
        if Now(left).answer == LostAnswer {
          return Report(total, false, Some(WriteFailed));
        }
        total := total + deleted;
        if deleted < size {
          return Report(total, false, None);
        }
        if total >= limit {
          return Report(total, more, None);
        }
        if Now(left).interrupted {
          return Report(total, false, Some(Interrupted));
        }
        left := Later(left);
      }
      r := Report(total, false, None);
    }
  }

  // ----- What every run does -----

  /** A run nobody disturbs is a single deletion of the oldest expired rows, as many as the limit allows. */
  lemma {:induction false} QuietRunIsOneDelete(rows: Rows, cutoff: int, batch: nat, limit: nat, deleted: nat)
    requires batch > 0 && deleted < limit
    ensures var run := Run(rows, cutoff, batch, limit, deleted, []);
      && run.rows == Purged(rows, cutoff, limit - deleted)
      && run.report == Report(deleted + Min(limit - deleted, |Expired(rows, cutoff)|),
                              |Expired(rows, cutoff)| > limit - deleted, None)
    decreases limit - deleted
  {
    hide Run, Purged, Expired;
    var size := Min(batch, limit - deleted);
    var after := Purged(rows, cutoff, size);
    QuietRound(rows, cutoff, batch, limit, deleted);
    ExpiredAfter(rows, cutoff, size);
    BatchesCompose(rows, cutoff, size, limit - deleted - size);
    if |Expired(rows, cutoff)| < size {
      NothingLeft(after, cutoff, limit - deleted - size);
    } else if deleted + size == limit {
      NothingToDelete(after, cutoff);
    } else {
      QuietRunIsOneDelete(after, cutoff, batch, limit, deleted + size);
    }
  }

  lemma QuietRound(rows: Rows, cutoff: int, batch: nat, limit: nat, deleted: nat)
    requires batch > 0 && deleted < limit
    ensures var run, size := Run(rows, cutoff, batch, limit, deleted, []), Min(batch, limit - deleted);
      var after, count := Purged(rows, cutoff, size), |Expired(rows, cutoff)|;
      if count < size then run.rows == after && run.report == Report(deleted + count, false, None)
      else if deleted + size == limit then
        run.rows == after && run.report == Report(limit, |Expired(after, cutoff)| > 0, None)
      else
        var rest := Run(after, cutoff, batch, limit, deleted + size, []);
        run.rows == rest.rows && run.report == rest.report
  {
    hide Purged, Gone, Expired;
    assert Insert(rows, map[]) == rows;
    var after := Purged(rows, cutoff, Min(batch, limit - deleted));
    assert Expired(after, cutoff) == {} <==> |Expired(after, cutoff)| == 0;
  }

  lemma NothingLeft(rows: Rows, cutoff: int, n: nat)
    requires |Expired(rows, cutoff)| == 0
    ensures Purged(rows, cutoff, n) == rows
  {
  }

  lemma NothingToDelete(rows: Rows, cutoff: int)
    ensures Purged(rows, cutoff, 0) == rows
  {
  }

  /** The table of a round once the new rows are in, and what is left of it. */
  function Filled(t: Turn): Rows { Insert(t.found, t.arrivals) }

  function Left(t: Turn): Rows { Filled(t) - t.gone }

  /** Each round finds what the one before left, and nothing else happens to the table. */
  ghost predicate Linked(turns: seq<Turn>, rows: Rows, end: Rows)
    decreases |turns|
  {
    if turns == [] then end == rows
    else turns[0].found == rows && Linked(turns[1..], Left(turns[0]), end)
  }

  /** All rows that went, over all rounds. */
  function GoneIn(turns: seq<Turn>): nat
    decreases |turns|
  {
    if turns == [] then 0 else |turns[0].gone| + GoneIn(turns[1..])
  }

  /** A round lets go of the oldest rows that have expired in the table it works on, at most n of them. */
  ghost predicate Takes(t: Turn, cutoff: int, n: nat)
  {
    exists size: nat :: size <= n && OldestOf(Filled(t), cutoff, size, t.gone)
  }

  ghost predicate AllTake(turns: seq<Turn>, cutoff: int, n: nat)
  {
    forall i :: 0 <= i < |turns| ==> Takes(turns[i], cutoff, n)
  }

  /** The turns are those of the rounds, in order. */
  ghost predicate Follows(turns: seq<Turn>, rounds: seq<Round>)
    decreases |turns|
  {
    turns == [] || (turns[0].arrivals == Now(rounds).arrivals && Follows(turns[1..], Later(rounds)))
  }

  lemma OneTurn(rows: Rows, arrivals: Rows, cutoff: int, size: nat, n: nat)
    requires size <= n
    ensures var before := Insert(rows, arrivals);
      var turn := Turn(rows, arrivals, Gone(before, Purged(before, cutoff, size)));
      && Left(turn) == Purged(before, cutoff, size) && Takes(turn, cutoff, n)
      && |turn.gone| == Min(size, |Expired(before, cutoff)|)
  {
    hide Purged, Expired;
    PurgedMeans(Insert(rows, arrivals), cutoff, size);
  }

  lemma IdleTurn(rows: Rows, arrivals: Rows, cutoff: int, n: nat)
    ensures Left(Turn(rows, arrivals, {})) == Insert(rows, arrivals)
    ensures Takes(Turn(rows, arrivals, {}), cutoff, n)
  {
    NoneGo(Insert(rows, arrivals), cutoff, 0);
    assert Insert(rows, arrivals) - {} == Insert(rows, arrivals);
  }

  /** What a run may do to the table with an allowance of `left` rows, `deleted` counted before it. */
  ghost predicate Orderly(run: Ending, rows: Rows, cutoff: int, batch: nat, left: int, deleted: nat, rounds: seq<Round>)
  {
    && Linked(run.turns, rows, run.rows) && Follows(run.turns, rounds)
    && AllTake(run.turns, cutoff, batch)
    && GoneIn(run.turns) <= left
    && deleted <= run.report.deleted <= deleted + GoneIn(run.turns)
    && (run.report.failure != Some(WriteFailed) ==> run.report.deleted == deleted + GoneIn(run.turns))
    && (run.report.failure == None ==> (run.report.limited <==> Expired(run.rows, cutoff) != {}))
  }

  lemma OrderlyAfterTurn(turn: Turn, rest: Ending, cutoff: int, batch: nat, left: int, deleted: nat, rounds: seq<Round>)
    requires Takes(turn, cutoff, batch) && turn.arrivals == Now(rounds).arrivals
    requires Orderly(rest, Left(turn), cutoff, batch, left - |turn.gone|, deleted + |turn.gone|, Later(rounds))
    ensures Orderly(rest.(turns := [turn] + rest.turns), turn.found, cutoff, batch, left, deleted, rounds)
  {
    hide Takes, Expired, Left;
    assert ([turn] + rest.turns)[1..] == rest.turns;
  }

  /** The run goes on after this round. */
  predicate GoesOn(rows: Rows, cutoff: int, batch: nat, limit: nat, deleted: nat, rounds: seq<Round>)
  {
    var size := Min(batch, limit - deleted);
    && Now(rounds).answer == Succeeds && !Now(rounds).interrupted && deleted + size < limit
    && size <= |Expired(Insert(rows, Now(rounds).arrivals), cutoff)|
  }

  lemma LastRound(rows: Rows, cutoff: int, batch: nat, limit: nat, deleted: nat, rounds: seq<Round>)
    requires batch > 0 && deleted < limit && !GoesOn(rows, cutoff, batch, limit, deleted, rounds)
    ensures var run := Run(rows, cutoff, batch, limit, deleted, rounds);
      Orderly(run, rows, cutoff, batch, limit - deleted, deleted, rounds)
  {
    hide Purged, Expired, Gone, Insert, Left, Takes;
    var arrivals := Now(rounds).arrivals;
    var before := Insert(rows, arrivals);
    var size := Min(batch, limit - deleted);
    var after := Purged(before, cutoff, size);
    var turn := Turn(rows, arrivals, Gone(before, after));
    OneTurn(rows, arrivals, cutoff, size, batch);
    IdleTurn(rows, arrivals, cutoff, batch);
    ExpiredAfter(before, cutoff, size);
    SingleTurn(turn);
    SingleTurn(turn.(gone := {}));
    assert |Expired(before, cutoff)| < size ==> |Expired(after, cutoff)| == 0;
  }

  lemma NextRound(rows: Rows, cutoff: int, batch: nat, limit: nat, deleted: nat, rounds: seq<Round>)
      returns (turn: Turn, rest: Ending)
    requires batch > 0 && deleted < limit && GoesOn(rows, cutoff, batch, limit, deleted, rounds)
    ensures turn.found == rows && turn.arrivals == Now(rounds).arrivals && Takes(turn, cutoff, batch)
    ensures 0 < |turn.gone| && deleted + |turn.gone| < limit
    ensures rest == Run(Left(turn), cutoff, batch, limit, deleted + |turn.gone|, Later(rounds))
    ensures Run(rows, cutoff, batch, limit, deleted, rounds) == rest.(turns := [turn] + rest.turns)
  {
    hide Purged, Expired, Gone, Insert, Left, Takes;
    var arrivals, size := Now(rounds).arrivals, Min(batch, limit - deleted);
    var before := Insert(rows, arrivals);
    turn := Turn(rows, arrivals, Gone(before, Purged(before, cutoff, size)));
    OneTurn(rows, arrivals, cutoff, size, batch);
    rest := Run(Left(turn), cutoff, batch, limit, deleted + |turn.gone|, Later(rounds));
  }

  /** Whatever else happens: each round finds what the one before left plus the new rows; the rows it deletes
      are the oldest that have expired in its table, new ones included; all rounds together delete no more than
      the limit, a batch whose answer was lost counted too; without a lost answer the report counts them
      exactly; and a run without an error says exactly whether expired rows remain. */
  lemma {:induction false} EveryRun(rows: Rows, cutoff: int, batch: nat, limit: nat, deleted: nat, rounds: seq<Round>)
    requires batch > 0 && deleted < limit
    ensures var run := Run(rows, cutoff, batch, limit, deleted, rounds);
      Orderly(run, rows, cutoff, batch, limit - deleted, deleted, rounds)
    decreases limit - deleted
  {
    hide Run, Orderly, GoesOn, Left, Takes;
    if GoesOn(rows, cutoff, batch, limit, deleted, rounds) {
      var turn, rest := NextRound(rows, cutoff, batch, limit, deleted, rounds);
      EveryRun(Left(turn), cutoff, batch, limit, deleted + |turn.gone|, Later(rounds));
      OrderlyAfterTurn(turn, rest, cutoff, batch, limit - deleted, deleted, rounds);
    } else {
      LastRound(rows, cutoff, batch, limit, deleted, rounds);
    }
  }

  lemma SingleTurn(t: Turn)
    ensures Linked([t], t.found, Left(t)) && GoneIn([t]) == |t.gone|
    ensures forall rounds :: Follows([t], rounds) <==> t.arrivals == Now(rounds).arrivals
  {
    assert [t][1..] == [];
    assert GoneIn([t][1..]) == 0 && Linked([t][1..], Left(t), Left(t));
  }

  // ----- No fresh row is lost -----

  /** No row is missing afterwards or different unless it had expired. */
  ghost predicate KeepsFresh(before: Rows, after: Rows, cutoff: int)
  {
    forall id :: id in before && before[id] >= cutoff ==> id in after && after[id] == before[id]
  }

  lemma TurnKeepsFresh(t: Turn, cutoff: int, n: nat)
    requires Takes(t, cutoff, n)
    ensures KeepsFresh(t.found, Filled(t), cutoff) && KeepsFresh(Filled(t), Left(t), cutoff)
  {
    var size: nat :| size <= n && OldestOf(Filled(t), cutoff, size, t.gone);
  }

  lemma KeepsFreshTwice(a: Rows, b: Rows, c: Rows, cutoff: int)
    requires KeepsFresh(a, b, cutoff) && KeepsFresh(b, c, cutoff)
    ensures KeepsFresh(a, c, cutoff)
  {
  }

  lemma {:induction false} LinkedKeepsFresh(turns: seq<Turn>, rows: Rows, end: Rows, cutoff: int, n: nat)
    requires Linked(turns, rows, end) && AllTake(turns, cutoff, n)
    ensures KeepsFresh(rows, end, cutoff)
    decreases |turns|
  {
    hide KeepsFresh, Takes;
    if turns == [] {
      KeepsItself(rows, cutoff);
    } else {
      LinkedKeepsFresh(turns[1..], Left(turns[0]), end, cutoff, n);
      TurnKeepsFresh(turns[0], cutoff, n);
      KeepsFreshTwice(rows, Filled(turns[0]), Left(turns[0]), cutoff);
      KeepsFreshTwice(rows, Left(turns[0]), end, cutoff);
    }
  }

  lemma KeepsItself(rows: Rows, cutoff: int)
    ensures KeepsFresh(rows, rows, cutoff)
  {
  }

  lemma {:induction false} FilledKeepsFresh(turns: seq<Turn>, rows: Rows, end: Rows, cutoff: int, n: nat, i: nat)
    requires Linked(turns, rows, end) && AllTake(turns, cutoff, n) && i < |turns|
    ensures KeepsFresh(Filled(turns[i]), end, cutoff)
    decreases |turns|
  {
    hide KeepsFresh, Takes;
    if i == 0 {
      LinkedKeepsFresh(turns[1..], Left(turns[0]), end, cutoff, n);
      TurnKeepsFresh(turns[0], cutoff, n);
      KeepsFreshTwice(Filled(turns[0]), Left(turns[0]), end, cutoff);
    } else {
      FilledKeepsFresh(turns[1..], Left(turns[0]), end, cutoff, n, i - 1);
    }
  }

  /** The row arrives in this round, finds its id free and has not expired. */
  predicate NewAndFresh(t: Turn, id: int, cutoff: int)
  {
    id in t.arrivals && id !in t.found && t.arrivals[id] >= cutoff
  }

  /** Over every run: a row that was there and had not expired is there at the end, unchanged; and so is every
      row that arrives in a round, has not expired, and finds its id free. */
  lemma FreshRowsSurvive(rows: Rows, cutoff: int, batch: nat, limit: nat, deleted: nat, rounds: seq<Round>)
    requires batch > 0 && deleted < limit
    ensures var run := Run(rows, cutoff, batch, limit, deleted, rounds);
      && KeepsFresh(rows, run.rows, cutoff)
      && forall i, id :: 0 <= i < |run.turns| && NewAndFresh(run.turns[i], id, cutoff) ==>
           id in run.rows && run.rows[id] == run.turns[i].arrivals[id]
  {
    hide Run, AllTake, KeepsFresh;
    EveryRun(rows, cutoff, batch, limit, deleted, rounds);
    var run := Run(rows, cutoff, batch, limit, deleted, rounds);
    LinkedKeepsFresh(run.turns, rows, run.rows, cutoff, batch);
    forall i, id | 0 <= i < |run.turns| && NewAndFresh(run.turns[i], id, cutoff)
      ensures id in run.rows && run.rows[id] == run.turns[i].arrivals[id]
    {
      FilledKeepsFresh(run.turns, rows, run.rows, cutoff, batch, i);
      NewRowKept(run.turns[i], id, run.rows, cutoff);
    }
  }

  lemma NewRowKept(t: Turn, id: int, end: Rows, cutoff: int)
    requires KeepsFresh(Filled(t), end, cutoff) && NewAndFresh(t, id, cutoff)
    ensures id in end && end[id] == t.arrivals[id]
  {
    assert id in Filled(t) && Filled(t)[id] == t.arrivals[id];
  }

  // ----- In days -----

  lemma {:induction false} ParametersWereFine(rows: Rows, cutoff: int, batch: nat, limit: nat, deleted: nat,
      rounds: seq<Round>)
    requires batch > 0 && deleted <= limit
    ensures Run(rows, cutoff, batch, limit, deleted, rounds).report.failure != Some(BadParameters)
    decreases limit - deleted
  {
    hide Purged, Insert, Expired;
    if deleted < limit && GoesOn(rows, cutoff, batch, limit, deleted, rounds) {
      var size := Min(batch, limit - deleted);
      var after := Purged(Insert(rows, Now(rounds).arrivals), cutoff, size);
      ParametersWereFine(after, cutoff, batch, limit, deleted + size, Later(rounds));
    }
  }

  /** The rows whose age is more than that many days of 24 hours. */
  function OlderThan(rows: Rows, now: int, days: int): set<int>
  {
    set id | id in rows && now - rows[id] > days * 24 * 60 * 60
  }

  lemma DaysAreSeconds(rows: Rows, now: int, days: int)
    ensures Expired(rows, now - days * SECONDS_PER_DAY) == OlderThan(rows, now, days)
    ensures days * SECONDS_PER_DAY == days * 24 * 60 * 60
  {
    assert SECONDS_PER_DAY == 24 * 60 * 60;
  }

  /** A run goes ahead with at least a day, a batch of 1 to 5000 rows and a limit of at least one. Then no row up to
      that many days old goes or changes; and if nobody disturbs it, as many older rows go as the limit allows, the
      report counts them, and it says whether there were more. */
  lemma RetentionMeans(rows: Rows, now: int, days: int, batch: int, limit: int, rounds: seq<Round>)
    ensures Sensible(days, batch, limit) <==> days >= 1 && 1 <= batch <= 5000 && limit >= 1
    ensures Sensible(days, batch, limit) ==>
      var run, aged := Run(rows, now - days * SECONDS_PER_DAY, batch, limit, 0, rounds), OlderThan(rows, now, days);
      && run.report.failure != Some(BadParameters)
      && (forall id :: id in rows && id !in aged ==> id in run.rows && run.rows[id] == rows[id])
      && (rounds == [] ==> run.report == Report(Min(limit, |aged|), |aged| > limit, None))
      && (rounds == [] ==> |run.rows| == |rows| - Min(limit, |aged|))
  {
    hide Run, Expired, Purged;
    if Sensible(days, batch, limit) {
      var cutoff := now - days * SECONDS_PER_DAY;
      DaysAreSeconds(rows, now, days);
      ParametersWereFine(rows, cutoff, batch, limit, 0, rounds);
      FreshRowsSurvive(rows, cutoff, batch, limit, 0, rounds);
      QuietRunIsOneDelete(rows, cutoff, batch, limit, 0);
      RowsLeft(rows, cutoff, limit);
    }
  }

  lemma RowsLeft(rows: Rows, cutoff: int, n: nat)
    ensures |Purged(rows, cutoff, n)| == |rows| - Min(n, |Expired(rows, cutoff)|)
  {
    hide Purged;
    PurgedMeans(rows, cutoff, n);
    var gone := Gone(rows, Purged(rows, cutoff, n));
    assert (rows - gone).Keys == rows.Keys - gone;
    assert |rows.Keys - gone| == |rows.Keys| - |gone|;
    assert |rows.Keys| == |rows| && |(rows - gone).Keys| == |rows - gone|;
  }
}
