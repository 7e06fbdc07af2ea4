/** The block poller: one poll reads the stored watermark and the chain head, settles where to start,
    and processes blocks strictly in order. Everything outside is a parameter: what the node answers,
    and how each write ends, including a write that took effect although its caller saw an error. */
module Poller {
  import opened Prelude

  type Hash = string

  /** The last processed block; a start point chosen without processing its block has no hash. */
  datatype Watermark = Watermark(last: nat, hash: Option<Hash>)

  datatype Block = Block(number: nat, hash: Hash, parent: Hash)

  /** What happens at one height: cancellation before its result is used, the fetched block (None for
      an error), the canonical hash of its predecessor, and the outcomes of the two writes. */
  datatype BlockEnv = BlockEnv(
    cancelled: bool, fetched: Option<Block>, canonical: Option<Hash>, save: Outcome, commit: Outcome)

  datatype PollEnv = PollEnv(loads: bool, head: Option<nat>, save: Outcome, blocks: nat -> BlockEnv)

  datatype Config = Config(fromBlock: nat, maxBlocks: nat, skipLag: nat)

  const RECENT_BLOCK_OFFSET := 10

  /** A committed block, with the watermark that was stored when it was committed. */
  datatype Commit = Commit(height: nat, parent: Hash, hash: Hash, from: Option<Watermark>)

  datatype Db = Db(stored: Option<Watermark>, log: seq<Commit>)

  datatype Progress = Progress(db: Db, state: Watermark, processed: nat, failed: bool)

  function ResolveStartBlock(head: nat, configured: nat): nat
  {
    if configured != 0 then configured
    else if head <= RECENT_BLOCK_OFFSET then 0
    else head - RECENT_BLOCK_OFFSET
  }

  function SkipHistoryStart(head: nat, last: nat, threshold: nat): Option<nat>
  {
    if threshold == 0 || head <= last then None
    else if head - last <= threshold then None
    else
      var start := ResolveStartBlock(head, 0);
      if start <= last then None else Some(start)
  }

  /** The height the next block must have. */
  function NextHeight(w: Watermark): nat
  {
    if w.hash == None then w.last else w.last + 1
  }

  /** A fetch is only accepted at the height that was asked for. */
  function Fetched(e: BlockEnv, n: nat): (b: Option<Block>)
    ensures b.Some? ==> b.value.number == n
  {
    match e.fetched
    case None => None
    case Some(b) => if b.number == n then Some(b) else None
  }

  /** The fork check: the block's parent must be the canonical block below it. */
  function ResolveCanonicalParent(b: Block, canonical: Option<Hash>): Option<Watermark>
  {
    if b.number == 0 then Some(Watermark(0, Some(b.parent)))
    else match canonical
      case None => None
      case Some(h) => if h != b.parent then None else Some(Watermark(b.number - 1, Some(h)))
  }

  function Saved(db: Db, w: Watermark, o: Outcome): Db
  {
    if o == Fails then db else db.(stored := Some(w))
  }

  /** Business rows and watermark are one transaction, so a commit is one step of the database. */
  function Committed(db: Db, b: Block, o: Outcome): Db
  {
    if o == Fails then db
    else Db(Some(Watermark(b.number, Some(b.hash))), db.log + [Commit(b.number, b.parent, b.hash, db.stored)])
  }

  predicate Forked(w: Watermark, b: Block)
  {
    w.hash.Some? && b.number == w.last + 1 && b.parent != w.hash.value
  }

  function Fail(p: Progress, db: Db): Progress { p.(db := db, failed := true) }

  function CommitStep(p: Progress, b: Block, o: Outcome): Progress
  {
    var db := Committed(p.db, b, o);
    if o != Succeeds then Fail(p, db)
    else Progress(db, Watermark(b.number, Some(b.hash)), p.processed + 1, false)
  }

  /** One height of the range. */
  function ProcessOne(p: Progress, n: nat, e: BlockEnv): Progress
  {
    if e.cancelled then Fail(p, p.db)
    else match Fetched(e, n)
      case None => Fail(p, p.db)
      case Some(b) =>
        if !Forked(p.state, b) then CommitStep(p, b, e.commit)
        else match ResolveCanonicalParent(b, e.canonical)
          case None => Fail(p, p.db)
          case Some(w) =>
            var db := Saved(p.db, w, e.save);
            if e.save != Succeeds then Fail(p, db) else CommitStep(p.(db := db, state := w), b, e.commit)
  }

  /** Heights next..end in order, stopping at the first failure. */
  function ProcessRange(p: Progress, next: nat, end: int, env: nat -> BlockEnv): Progress
    decreases end - next
  {
    if p.failed || next > end then p else ProcessRange(ProcessOne(p, next, env(next)), next + 1, end, env)
  }

  /** The watermark a poll starts from, and the database once it is stored; None when storing failed. */
  function StartFrom(db: Db, head: nat, save: Outcome, config: Config): (Db, Option<Watermark>)
  {
    var restart :=
      match db.stored
      case None => Some(ResolveStartBlock(head, config.fromBlock))
      case Some(w) => SkipHistoryStart(head, w.last, config.skipLag);
    match restart
    case Some(start) =>
      var w := Watermark(start, None);
      (Saved(db, w, save), if save == Succeeds then Some(w) else None)
    case None => (db, db.stored)
  }

  function PollOnce(db: Db, env: PollEnv, config: Config): (Db, nat, bool)
    requires config.maxBlocks >= 1
  {
    if !env.loads || env.head == None then (db, 0, false)
    else
      var head := env.head.value;
      var (db', from) := StartFrom(db, head, env.save, config);
      match from
      case None => (db', 0, false)
      case Some(w) =>
        var next := NextHeight(w);
        if next > head then (db', 0, true)
        else
          var p := ProcessRange(Progress(db', w, 0, false), next, Min(head, next + config.maxBlocks - 1), env.blocks);
          (p.db, p.processed, !p.failed)
  }

  class BlockPoller {
    const config: Config
    var stored: Option<Watermark>
    ghost var log: seq<Commit>

    constructor (config: Config)
      ensures this.config == config && View() == Db(None, [])
    {
      this.config, stored, log := config, None, [];
    }

    ghost function View(): Db
      reads this
    {
      Db(stored, log)
    }

    method SaveWatermark(w: Watermark, o: Outcome) returns (ok: bool)
      modifies this`stored
      ensures View() == Saved(old(View()), w, o) && (ok <==> o == Succeeds)
    {
      if o != Fails {
        stored := Some(w);
      }
      ok := o == Succeeds;
    }

    method CommitBlock(b: Block, o: Outcome) returns (ok: bool)
      modifies this`stored, this`log
      ensures View() == Committed(old(View()), b, o) && (ok <==> o == Succeeds)
    {
      if o != Fails {
        log := log + [Commit(b.number, b.parent, b.hash, stored)];
        stored := Some(Watermark(b.number, Some(b.hash)));
      }
      ok := o == Succeeds;
    }

    /** The in-order consumer of the prefetched range. */
    method ProcessBlocks(from: Watermark, next: nat, end: nat, env: nat -> BlockEnv) returns (processed: nat, ok: bool)
      modifies this`stored, this`log
      ensures var p := ProcessRange(Progress(old(View()), from, 0, false), next, end, env);
        View() == p.db && processed == p.processed && ok == !p.failed
    {
      var state := from;
      processed := 0;
      var number := next;
      while number <= end
        invariant ProcessRange(Progress(View(), state, processed, false), number, end, env)
               == ProcessRange(Progress(old(View()), from, 0, false), next, end, env)
        decreases end + 1 - number
      {
        var e := env(number);
        if e.cancelled {
          return processed, false;
        }
        var result := Fetched(e, number);
        if result == None {
          return processed, false;
        }
        var block := result.value;
        if state.hash.Some? && number == state.last + 1 && block.parent != state.hash.value {
          var reorg := ResolveCanonicalParent(block, e.canonical);
          if reorg == None {
            return processed, false;
          }
          var saved := SaveWatermark(reorg.value, e.save);
          if !saved {
            return processed, false;
          }
          state := reorg.value;
        }
        var committed := CommitBlock(block, e.commit);
        if !committed {
          return processed, false;
        }
        state := Watermark(block.number, Some(block.hash));
        processed := processed + 1;
        number := number + 1;
      }
      ok := true;
    }

    method Poll(env: PollEnv) returns (processed: nat, ok: bool)
      requires config.maxBlocks >= 1
      modifies this`stored, this`log
      ensures (View(), processed, ok) == PollOnce(old(View()), env, config)
    {
      if !env.loads || env.head == None {
        return 0, false;
      }
      var head := env.head.value;
      var state := Watermark(0, None);
      if stored == None {
        state := Watermark(ResolveStartBlock(head, config.fromBlock), None);
        var saved := SaveWatermark(state, env.save);
        if !saved {
          return 0, false;
        }
      } else {
        state := stored.value;
        var start := SkipHistoryStart(head, state.last, config.skipLag);
        if start.Some? {
          state := Watermark(start.value, None);
          var saved := SaveWatermark(state, env.save);
          if !saved {
            return 0, false;
          }
        }
      }
      var next := state.last + 1;
      if state.hash == None {
        next := state.last;
      }
      if next > head {
        return 0, true;
      }
      processed, ok := ProcessBlocks(state, next, Min(head, next + config.maxBlocks - 1), env.blocks);
    }
  }

  // ----- What every run keeps -----

  /** A commit directly continues the watermark it found: its parent is the stored hash one below, or
      the watermark was a hash-less start at this very height. */
  ghost predicate Continues(c: Commit)
  {
    && c.from.Some?
    && (c.from.value == Watermark(c.height, None)
        || (c.height > 0 && c.from.value == Watermark(c.height - 1, Some(c.parent))))
  }

  /** The first commit stands on the start point that was chosen, and until then no hash is stored. */
  ghost predicate Rooted(db: Db)
  {
    if db.log == [] then db.stored.Some? ==> db.stored.value.hash == None
    else db.log[0].from == Some(Watermark(db.log[0].height, None))
  }

  ghost predicate AllContinue(log: seq<Commit>)
  {
    forall i :: 0 <= i < |log| ==> Continues(log[i])
  }

  /** Heights ascend strictly and stay below the bound. */
  ghost predicate Ascending(log: seq<Commit>, bound: int)
  {
    && (forall i, j :: 0 <= i < j < |log| ==> log[i].height < log[j].height)
    && (forall i :: 0 <= i < |log| ==> log[i].height < bound)
  }

  ghost predicate Sound(db: Db)
  {
    && Rooted(db) && AllContinue(db.log)
    && Ascending(db.log, if db.stored.Some? then NextHeight(db.stored.value) else 0)
  }

  /** The committed heights are one gap-free range that ends right below the next height. */
  ghost predicate GapFree(db: Db)
  {
    && (forall i :: 0 <= i < |db.log| ==> db.log[i].height == db.log[0].height + i)
    && (db.log != [] ==>
         db.stored.Some? && db.stored.value.hash.Some? && db.stored.value.last == db.log[0].height + |db.log| - 1)
  }

  /** The later database extends the log of the earlier one and never asks for a lower height. */
  ghost predicate Advances(a: Db, b: Db)
  {
    && |a.log| <= |b.log| && b.log[..|a.log|] == a.log
    && (a.stored.Some? ==> b.stored.Some? && NextHeight(a.stored.value) <= NextHeight(b.stored.value))
  }

  /** The poller's copy of the watermark is the stored one, and n is the height due next. */
  ghost predicate InStep(p: Progress, n: nat)
  {
    !p.failed ==> p.db.stored == Some(p.state) && n == NextHeight(p.state)
  }

  lemma AscendingGrows(log: seq<Commit>, bound: int, c: Commit, bound': int)
    requires Ascending(log, bound) && bound <= c.height < bound'
    ensures Ascending(log + [c], bound')
  {
  }

  /** A commit at the next height whose parent is the stored hash keeps everything. */
  lemma CommittedKeeps(db: Db, w: Watermark, b: Block, o: Outcome)
    requires Sound(db) && db.stored == Some(w) && b.number == NextHeight(w)
    requires w.hash.Some? ==> w.hash.value == b.parent
    ensures Sound(Committed(db, b, o)) && Advances(db, Committed(db, b, o))
    ensures GapFree(db) ==> GapFree(Committed(db, b, o))
  {
    hide Ascending, GapFree, AllContinue;
    if o != Fails {
      var c := Commit(b.number, b.parent, b.hash, db.stored);
      assert Continues(c);
      AscendingGrows(db.log, NextHeight(w), c, b.number + 1);
      AllContinueGrows(db.log, c);
      GapFreeGrows(db, w, b, o);
    }
  }

  lemma AllContinueGrows(log: seq<Commit>, c: Commit)
    requires AllContinue(log) && Continues(c)
    ensures AllContinue(log + [c])
  {
    hide Continues;
  }

  lemma GapFreeGrows(db: Db, w: Watermark, b: Block, o: Outcome)
    requires db.stored == Some(w) && b.number == NextHeight(w) && o != Fails
    ensures GapFree(db) ==> GapFree(Committed(db, b, o))
  {
  }

  lemma CommitStepKeeps(p: Progress, b: Block, o: Outcome)
    requires Sound(p.db) && InStep(p, b.number) && !p.failed
    requires p.state.hash.Some? ==> p.state.hash.value == b.parent
    ensures var q := CommitStep(p, b, o);
      && Sound(q.db) && InStep(q, b.number + 1) && Advances(p.db, q.db)
      && (GapFree(p.db) ==> GapFree(q.db))
      && q.processed <= p.processed + 1 && (!q.failed ==> q.processed == p.processed + 1)
  {
    hide Sound, Advances, GapFree;
    CommittedKeeps(p.db, p.state, b, o);
  }

  lemma ProcessOneKeeps(p: Progress, n: nat, e: BlockEnv)
    requires Sound(p.db) && InStep(p, n) && !p.failed
    ensures var q := ProcessOne(p, n, e);
      && Sound(q.db) && InStep(q, n + 1) && Advances(p.db, q.db)
      && (GapFree(p.db) ==> GapFree(q.db))
      && q.processed <= p.processed + 1 && (!q.failed ==> q.processed == p.processed + 1)
  {
    hide CommitStep;
    if !e.cancelled && Fetched(e, n).Some? {
      var b := Fetched(e, n).value;
      if !Forked(p.state, b) {
        CommitStepKeeps(p, b, e.commit);
      } else if ResolveCanonicalParent(b, e.canonical).Some? {
        var w := ResolveCanonicalParent(b, e.canonical).value;
        var db := Saved(p.db, w, e.save);
        hide AllContinue, Ascending;
        assert Sound(db) && Advances(p.db, db) && (GapFree(p.db) ==> GapFree(db));
        if e.save == Succeeds { CommitStepKeeps(p.(db := db, state := w), b, e.commit); }
      }
    }
  }

  lemma {:induction false} ProcessRangeKeeps(p: Progress, next: nat, end: int, env: nat -> BlockEnv)
    requires Sound(p.db) && InStep(p, next)
    ensures var q := ProcessRange(p, next, end, env);
      && Sound(q.db) && Advances(p.db, q.db) && (GapFree(p.db) ==> GapFree(q.db))
      && q.processed <= p.processed + Max(0, end - next + 1)
    decreases end - next
  {
    hide ProcessOne, Sound, GapFree;
    if !p.failed && next <= end {
      ProcessOneKeeps(p, next, env(next));
      ProcessRangeKeeps(ProcessOne(p, next, env(next)), next + 1, end, env);
    }
  }

  lemma PollKeeps(db: Db, env: PollEnv, config: Config)
    requires Sound(db) && config.maxBlocks >= 1
    ensures var (db', processed, _) := PollOnce(db, env, config);
      && Sound(db') && Advances(db, db') && processed <= config.maxBlocks
      && (config.skipLag == 0 && GapFree(db) ==> GapFree(db'))
  {
    hide Sound, Advances, GapFree, StartFrom;
    if env.loads && env.head.Some? {
      var head := env.head.value;
      var (db', from) := StartFrom(db, head, env.save, config);
      StartKeeps(db, head, env.save, config);
      if from.Some? && NextHeight(from.value) <= head {
        var next := NextHeight(from.value);
        var end := Min(head, next + config.maxBlocks - 1);
        ProcessRangeKeeps(Progress(db', from.value, 0, false), next, end, env.blocks);
        AdvancesTwice(db, db', ProcessRange(Progress(db', from.value, 0, false), next, end, env.blocks).db);
      }
    } else {
      AdvancesSelf(db);
    }
  }

  lemma AdvancesSelf(a: Db)
    ensures Advances(a, a)
  {
  }

  lemma AdvancesTwice(a: Db, b: Db, c: Db)
    requires Advances(a, b) && Advances(b, c)
    ensures Advances(a, c)
  {
  }

  /** Choosing where to start, with or without a skip, keeps everything a failed or late write allows. */
  lemma StartKeeps(db: Db, head: nat, save: Outcome, config: Config)
    requires Sound(db)
    ensures var (db', from) := StartFrom(db, head, save, config);
      && Sound(db') && Advances(db, db') && (from.Some? ==> db'.stored == from)
      && (config.skipLag == 0 && GapFree(db) ==> GapFree(db'))
  {
  }

  function Run(db: Db, envs: seq<PollEnv>, config: Config): Db
    requires config.maxBlocks >= 1
    decreases |envs|
  {
    if envs == [] then db else Run(PollOnce(db, envs[0], config).0, envs[1..], config)
  }

  lemma {:induction false} RunKeeps(db: Db, envs: seq<PollEnv>, config: Config)
    requires Sound(db) && config.maxBlocks >= 1
    ensures Sound(Run(db, envs, config)) && Advances(db, Run(db, envs, config))
    ensures config.skipLag == 0 && GapFree(db) ==> GapFree(Run(db, envs, config))
    decreases |envs|
  {
    hide PollOnce, GapFree;
    if envs != [] {
      PollKeeps(db, envs[0], config);
      RunKeeps(PollOnce(db, envs[0], config).0, envs[1..], config);
    }
  }

  /** Over every run of polls from an empty store, whatever fails, is retried, forks or is skipped:
      each commit continues the watermark before it, no height is committed twice or out of order, and
      without history skipping the committed heights are exactly the range from the start point to the
      watermark. */
  lemma EveryRun(envs: seq<PollEnv>, config: Config)
    requires config.maxBlocks >= 1
    ensures var db := Run(Db(None, []), envs, config);
      && (forall i :: 0 <= i < |db.log| ==> Continues(db.log[i]))
      && (forall i, j :: 0 <= i < j < |db.log| ==> db.log[i].height < db.log[j].height)
      && (db.log != [] ==> db.log[0].from == Some(Watermark(db.log[0].height, None)))
      && (config.skipLag == 0 ==> GapFree(db))
  {
    RunKeeps(Db(None, []), envs, config);
  }

  /** No later poll undoes anything: from any reachable store on, the log only grows and the next
      height never decreases. */
  lemma RunsOnlyAdvance(before: seq<PollEnv>, after: seq<PollEnv>, config: Config)
    requires config.maxBlocks >= 1
    ensures var db := Run(Db(None, []), before, config);
      Advances(db, Run(db, after, config))
  {
    RunKeeps(Db(None, []), before, config);
    var db := Run(Db(None, []), before, config);
    RunKeeps(db, after, config);
  }

  /** The later log is the earlier one followed by commits at next, next + 1, and so on. */
  ghost predicate CommitsFrom(earlier: seq<Commit>, later: seq<Commit>, next: nat)
  {
    && |earlier| <= |later| && later[..|earlier|] == earlier
    && forall i :: |earlier| <= i < |later| ==> later[i].height == next + (i - |earlier|)
  }

  lemma OneCommits(p: Progress, n: nat, e: BlockEnv)
    requires !p.failed
    ensures var q := ProcessOne(p, n, e);
      CommitsFrom(p.db.log, q.db.log, n) && |q.db.log| <= |p.db.log| + 1
      && (!q.failed ==> |q.db.log| == |p.db.log| + 1)
  {
  }

  /** Whatever is committed of a range, from whatever store, is its first heights without a gap. */
  lemma {:induction false} RangeCommits(p: Progress, next: nat, end: int, env: nat -> BlockEnv)
    ensures CommitsFrom(p.db.log, ProcessRange(p, next, end, env).db.log, next)
    decreases end - next
  {
    hide ProcessOne;
    if !p.failed && next <= end {
      OneCommits(p, next, env(next));
      RangeCommits(ProcessOne(p, next, env(next)), next + 1, end, env);
    }
  }

  /** The node answers and every write succeeds. */
  ghost predicate AllGood(next: nat, end: int, env: nat -> BlockEnv)
  {
    forall n: nat :: next <= n <= end ==>
      && !env(n).cancelled && Fetched(env(n), n).Some?
      && env(n).canonical == Some(Fetched(env(n), n).value.parent)
      && env(n).save == Succeeds && env(n).commit == Succeeds
  }

  /** Then the whole range is processed, even across a fork at every height. */
  lemma {:induction false} GoodRangeCompletes(p: Progress, next: nat, end: int, env: nat -> BlockEnv)
    requires AllGood(next, end, env) && !p.failed && InStep(p, next) && next <= end
    ensures var q := ProcessRange(p, next, end, env);
      && !q.failed && q.processed == p.processed + (end - next + 1)
      && |q.db.log| == |p.db.log| + (end - next + 1)
      && q.db.stored == Some(Watermark(end, Some(Fetched(env(end), end).value.hash)))
    decreases end - next
  {
    var b := Fetched(env(next), next).value;
    var q := ProcessOne(p, next, env(next));
    assert !q.failed && q.processed == p.processed + 1 && |q.db.log| == |p.db.log| + 1;
    assert q.state == Watermark(next, Some(b.hash)) && q.db.stored == Some(q.state);
    if next < end { GoodRangeCompletes(q, next + 1, end, env); }
  }
}
