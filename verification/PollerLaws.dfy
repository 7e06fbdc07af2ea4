/** What polls commit, read off the answers of the node and of the store alone. */
module PollerLaws {
  import opened Prelude
  import opened Poller

  // ----- One height -----

  /** The hash the parent of block n is compared with: the stored one, if it is that of the height right below. */
  function HeldBelow(w: Watermark, n: nat): Option<Hash>
  {
    if n == w.last + 1 then w.hash else None
  }

  /** The node gave this block for the height that was asked for. */
  predicate Gave(e: BlockEnv, n: nat, b: Block)
  {
    !e.cancelled && e.fetched == Some(b) && b.number == n
  }

  /** The parent is not the hash held below. */
  predicate Departs(held: Option<Hash>, b: Block) { held.Some? && held.value != b.parent }

  /** Where the parent is not the hash held below, the node says that it is the canonical block there. */
  predicate Admits(held: Option<Hash>, e: BlockEnv, b: Block)
  {
    Departs(held, b) ==> e.canonical == Some(b.parent)
  }

  function CommitOf(b: Block, from: Option<Watermark>): Commit { Commit(b.number, b.parent, b.hash, from) }

  /** The watermark a block is committed on: the stored one, or the parent the node confirmed. */
  function Ground(stored: Option<Watermark>, held: Option<Hash>, b: Block): Option<Watermark>
    requires b.number > 0 || held == None
  {
    if Departs(held, b) then Some(Watermark(b.number - 1, Some(b.parent))) else stored
  }

  /** What is left of a height at which the node gave block b. */
  ghost predicate Given(p: Progress, e: BlockEnv, b: Block, q: Progress)
    requires b.number > 0 || HeldBelow(p.state, b.number) == None
  {
    var held := HeldBelow(p.state, b.number);
    var ground := Ground(p.db.stored, held, b);
    if !Admits(held, e, b) then q == p.(failed := true)
    else if Departs(held, b) && e.save != Succeeds then
      q == p.(failed := true, db := p.db.(stored := if e.save == Fails then p.db.stored else ground))
    else
      && q.db.log == p.db.log + (if e.commit == Fails then [] else [CommitOf(b, ground)])
      && q.db.stored == (if e.commit == Fails then ground else Some(Watermark(b.number, Some(b.hash))))
      && q.failed == (e.commit != Succeeds)
      && q.processed == p.processed + (if e.commit == Succeeds then 1 else 0)
      && (e.commit == Succeeds ==> q.state == Watermark(b.number, Some(b.hash)))
  }

  /** A height at which the node does not give its block fails and changes nothing. Where it does: a block whose
      parent is not the hash held below is committed only if the node names that parent as the canonical block
      below; if it does not, the height fails with store and log unchanged. */
  lemma HeightMeans(p: Progress, n: nat, e: BlockEnv)
    requires !p.failed
    ensures (forall b :: !Gave(e, n, b)) ==> ProcessOne(p, n, e) == p.(failed := true)
    ensures forall b :: Gave(e, n, b) ==> Given(p, e, b, ProcessOne(p, n, e))
  {
    if e.fetched.Some? && e.fetched.value.number == n && !e.cancelled {
      assert Gave(e, n, e.fetched.value);
    }
  }

  // ----- A range -----

  /** The watermark before height n, when the heights from `next` on have gone well. */
  function Before(from: Watermark, next: nat, n: nat, env: nat -> BlockEnv): Watermark
  {
    if n <= next then from
    else Watermark(n - 1, match env(n - 1).fetched case Some(b) => Some(b.hash) case None => None)
  }

  /** The node gave the block of height n and confirmed its parent where it had to, and the writes succeeded. */
  ghost predicate Passes(from: Watermark, next: nat, n: nat, env: nat -> BlockEnv)
  {
    exists b :: Gave(env(n), n, b) && PassesWith(HeldBelow(Before(from, next, n, env), n), env(n), b)
  }

  predicate PassesWith(held: Option<Hash>, e: BlockEnv, b: Block)
  {
    Admits(held, e, b) && (Departs(held, b) ==> e.save == Succeeds) && e.commit == Succeeds
  }

  /** A commit of the block that the node gave for its height, on a parent that was held or confirmed. */
  ghost predicate Rightful(from: Watermark, next: nat, env: nat -> BlockEnv, c: Commit)
  {
    && c.height >= next
    && Gave(env(c.height), c.height, Block(c.height, c.hash, c.parent))
    && Admits(HeldBelow(Before(from, next, c.height, env), c.height), env(c.height),
         Block(c.height, c.hash, c.parent))
  }

  /** The call went through `k` heights and then, unless it reached the end, stopped at one that did not pass. */
  ghost predicate RangeResult(p: Progress, next: nat, end: int, env: nat -> BlockEnv, k: nat, q: Progress)
  {
    && k <= Max(0, end - next + 1) && q.processed == p.processed + k
    && (forall n: nat :: next <= n < next + k ==> Passes(p.state, next, n, env))
    && (q.failed <==> k < end - next + 1)
    && (q.failed ==> !Passes(p.state, next, next + k, env))
    && CommitsFrom(p.db.log, q.db.log, next)
    && |p.db.log| + k <= |q.db.log| <= |p.db.log| + k + (if q.failed then 1 else 0)
    && (forall i :: |p.db.log| <= i < |q.db.log| ==> Rightful(p.state, next, env, q.db.log[i]))
    && (!q.failed ==> q.db.stored == if k == 0 then p.db.stored else Some(Before(p.state, next, next + k, env)))
  }

  /** One height as the first of a range. */
  lemma HeightPasses(p: Progress, n: nat, env: nat -> BlockEnv)
    requires !p.failed
    ensures var q := ProcessOne(p, n, env(n));
      && (!q.failed <==> Passes(p.state, n, n, env))
      && q.processed == p.processed + (if q.failed then 0 else 1)
      && (!q.failed ==> q.state == Before(p.state, n, n + 1, env) && q.db.stored == Some(q.state))
      && p.db.log <= q.db.log && |q.db.log| <= |p.db.log| + 1 && (!q.failed ==> |q.db.log| == |p.db.log| + 1)
      && (|q.db.log| > |p.db.log| ==>
           q.db.log[|p.db.log|].height == n && Rightful(p.state, n, env, q.db.log[|p.db.log|]))
  {
    hide Admits, PassesWith, Departs, ProcessOne;
    var e, q := env(n), ProcessOne(p, n, env(n));
    HeightMeans(p, n, e);
    if b :| Gave(e, n, b) {
      GivenPasses(p, e, b, q);
      assert b == Block(n, b.hash, b.parent);
      if PassesWith(HeldBelow(p.state, n), e, b) { assert Passes(p.state, n, n, env); }
    }
  }

  lemma GivenPasses(p: Progress, e: BlockEnv, b: Block, q: Progress)
    requires !p.failed && (b.number > 0 || HeldBelow(p.state, b.number) == None) && Given(p, e, b, q)
    ensures var held := HeldBelow(p.state, b.number);
      && (!q.failed <==> PassesWith(held, e, b))
      && q.processed == p.processed + (if q.failed then 0 else 1)
      && (!q.failed ==> q.state == Watermark(b.number, Some(b.hash)) && q.db.stored == Some(q.state))
      && p.db.log <= q.db.log && |q.db.log| <= |p.db.log| + 1 && (!q.failed ==> |q.db.log| == |p.db.log| + 1)
      && (|q.db.log| > |p.db.log| ==>
           q.db.log[|p.db.log|] == CommitOf(b, Ground(p.db.stored, held, b)) && Admits(held, e, b))
  {
  }

  lemma BeforeShifts(from: Watermark, next: nat, n: nat, env: nat -> BlockEnv)
    requires n > next
    ensures Before(Before(from, next, next + 1, env), next + 1, n, env) == Before(from, next, n, env)
    ensures Passes(Before(from, next, next + 1, env), next + 1, n, env) <==> Passes(from, next, n, env)
  {
  }

  /** Whatever the node and the store answer, a range is processed up to the first height that does not pass; what it
      commits are the blocks the node gave for its heights, each on a parent that was held or confirmed. */
  lemma {:induction false} RangeMeans(p: Progress, next: nat, end: int, env: nat -> BlockEnv) returns (k: nat)
    requires !p.failed
    ensures RangeResult(p, next, end, env, k, ProcessRange(p, next, end, env))
    decreases end - next
  {
    hide ProcessOne, Passes, Rightful, Before;
    k := 0;
    if next <= end {
      var q := ProcessOne(p, next, env(next));
      HeightPasses(p, next, env);
      if !q.failed {
        k := RangeMeans(q, next + 1, end, env);
        OneMoreHeight(p, next, end, env, q, k, ProcessRange(p, next, end, env));
        k := k + 1;
      }
    }
  }

  lemma RightfulShifts(from: Watermark, next: nat, env: nat -> BlockEnv, c: Commit)
    requires Rightful(Before(from, next, next + 1, env), next + 1, env, c)
    ensures Rightful(from, next, env, c)
  {
    BeforeShifts(from, next, c.height, env);
  }

  lemma OneMoreHeight(p: Progress, next: nat, end: int, env: nat -> BlockEnv, q: Progress, k: nat, end': Progress)
    requires next <= end && !q.failed && Passes(p.state, next, next, env) && q.processed == p.processed + 1
    requires q.state == Before(p.state, next, next + 1, env) && q.db.stored == Some(q.state)
    requires p.db.log <= q.db.log && |q.db.log| == |p.db.log| + 1
    requires q.db.log[|p.db.log|].height == next && Rightful(p.state, next, env, q.db.log[|p.db.log|])
    requires RangeResult(q, next + 1, end, env, k, end')
    ensures RangeResult(p, next, end, env, k + 1, end')
  {
    hide Passes, Rightful, Before;
    forall n: nat | next < n <= next + k + 1
      ensures Passes(q.state, next + 1, n, env) <==> Passes(p.state, next, n, env)
      ensures Before(q.state, next + 1, n, env) == Before(p.state, next, n, env)
    {
      BeforeShifts(p.state, next, n, env);
    }
    forall i | |p.db.log| <= i < |end'.db.log| ensures Rightful(p.state, next, env, end'.db.log[i]) {
      if i == |p.db.log| {
        assert end'.db.log[..|q.db.log|] == q.db.log;
        assert end'.db.log[i] == end'.db.log[..|q.db.log|][i];
      } else {
        RightfulShifts(p.state, next, env, end'.db.log[i]);
      }
    }
    CommitsTwice(p.db.log, q.db.log, end'.db.log, next);
  }

  lemma CommitsTwice(a: seq<Commit>, b: seq<Commit>, c: seq<Commit>, next: nat)
    requires a <= b && |b| == |a| + 1 && b[|a|].height == next && CommitsFrom(b, c, next + 1)
    ensures CommitsFrom(a, c, next)
  {
    assert c[..|b|] == b;
    assert c[..|a|] == c[..|b|][..|a|] == a;
    assert c[|a|] == b[|a|];
  }

  // ----- A poll -----

  /** Where a poll starts: at the stored watermark, unless there is none, or skipping is on and the head is more than
      the threshold, and ten blocks, beyond it; then at the configured block, or ten below the head. */
  function FromWhere(stored: Option<Watermark>, head: nat, config: Config): Watermark
  {
    match stored
    case None => Watermark(if config.fromBlock > 0 then config.fromBlock else Max(0, head - 10), None)
    case Some(w) =>
      if 0 < config.skipLag < head - w.last && w.last < head - 10 then Watermark(head - 10, None) else w
  }

  /** The heights a poll from w goes through. */
  function FirstHeight(w: Watermark): nat { if w.hash.Some? then w.last + 1 else w.last }

  function LastHeight(w: Watermark, head: nat, config: Config): int
  {
    Min(head, FirstHeight(w) + config.maxBlocks - 1)
  }

  ghost predicate Processed(p: Progress, head: nat, config: Config, env: nat -> BlockEnv, db: Db, k: nat, ok: bool)
  {
    exists q :: RangeResult(p, FirstHeight(p.state), LastHeight(p.state, head, config), env, k, q)
      && q.db == db && ok == !q.failed
  }

  /** Every poll, whatever the surroundings answer: without a watermark read or a head it changes nothing; a new
      start is stored first; then the heights from there on are processed, up to the head and the block limit. */
  lemma PollMeans(db: Db, env: PollEnv, config: Config)
    requires config.maxBlocks >= 1
    ensures var (db', k, ok) := PollOnce(db, env, config);
      if !env.loads || env.head == None then (db', k, ok) == (db, 0, false)
      else
        var w := FromWhere(db.stored, env.head.value, config);
        if db.stored != Some(w) && env.save != Succeeds then
          && (k, ok) == (0, false)
          && db' == (if env.save == Fails then db else db.(stored := Some(w)))
        else
          Processed(Progress(db.(stored := Some(w)), w, 0, false), env.head.value, config, env.blocks, db', k, ok)
  {
    hide ProcessRange, RangeResult;
    if env.loads && env.head.Some? {
      var head := env.head.value;
      StartIs(db, head, env.save, config);
      var w := FromWhere(db.stored, head, config);
      if db.stored == Some(w) || env.save == Succeeds {
        var p := Progress(db.(stored := Some(w)), w, 0, false);
        var next, end := FirstHeight(w), LastHeight(w, head, config);
        var k := RangeMeans(p, next, end, env.blocks);
        NothingToDo(p, next, end, env.blocks);
        CountIs(p, next, end, env.blocks, k, ProcessRange(p, next, end, env.blocks));
      }
    }
  }

  lemma CountIs(p: Progress, next: nat, end: int, env: nat -> BlockEnv, k: nat, q: Progress)
    requires RangeResult(p, next, end, env, k, q)
    ensures q.processed == p.processed + k
  {
  }

  lemma NothingToDo(p: Progress, next: nat, end: int, env: nat -> BlockEnv)
    ensures next > end ==> ProcessRange(p, next, end, env) == p
  {
  }

  lemma StartIs(db: Db, head: nat, save: Outcome, config: Config)
    ensures var w := FromWhere(db.stored, head, config);
      StartFrom(db, head, save, config) ==
        if db.stored == Some(w) then (db, Some(w))
        else if save == Succeeds then (db.(stored := Some(w)), Some(w))
        else (if save == Fails then db else db.(stored := Some(w)), None)
  {
  }

  /** The node gives the block of every height and confirms its parent, and every write succeeds. */
  ghost predicate Answered(env: nat -> BlockEnv, next: nat, end: int)
  {
    forall n: nat :: next <= n <= end ==> AnsweredAt(env(n), n)
  }

  predicate AnsweredAt(e: BlockEnv, n: nat)
  {
    && e.fetched.Some? && Gave(e, n, e.fetched.value) && e.canonical == Some(e.fetched.value.parent)
    && e.save == Succeeds && e.commit == Succeeds
  }

  /** A poll whose surroundings answer well commits every height from its start on, up to the head or its block
      limit, whichever comes first, across forks and from any store. */
  lemma GoodPollCompletes(db: Db, env: PollEnv, config: Config)
    requires config.maxBlocks >= 1 && env.loads && env.head.Some? && env.save == Succeeds
    requires var w := FromWhere(db.stored, env.head.value, config);
      Answered(env.blocks, FirstHeight(w), LastHeight(w, env.head.value, config))
    ensures var w, (db', k, ok) := FromWhere(db.stored, env.head.value, config), PollOnce(db, env, config);
      var next, end := FirstHeight(w), Min(env.head.value, FirstHeight(w) + config.maxBlocks - 1);
      && ok && k == Max(0, end - next + 1) && |db'.log| == |db.log| + k && CommitsFrom(db.log, db'.log, next)
      && (k > 0 ==> db'.stored == Some(Watermark(end, Some(env.blocks(end).fetched.value.hash))))
  {
    hide PollOnce, RangeResult, Passes;
    PollMeans(db, env, config);
    var head, w := env.head.value, FromWhere(db.stored, env.head.value, config);
    var (db', k, ok) := PollOnce(db, env, config);
    var p := Progress(db.(stored := Some(w)), w, 0, false);
    assert Processed(p, head, config, env.blocks, db', k, ok);
    var q :| RangeResult(p, FirstHeight(w), LastHeight(w, head, config), env.blocks, k, q)
      && q.db == db' && ok == !q.failed;
    GoodRange(p, FirstHeight(w), LastHeight(w, head, config), env.blocks, k, q);
  }

  lemma AnsweredPasses(from: Watermark, next: nat, n: nat, env: nat -> BlockEnv)
    requires AnsweredAt(env(n), n)
    ensures Passes(from, next, n, env)
  {
    assert Gave(env(n), n, env(n).fetched.value);
  }

  lemma GoodRange(p: Progress, next: nat, end: int, env: nat -> BlockEnv, k: nat, q: Progress)
    requires RangeResult(p, next, end, env, k, q) && Answered(env, next, end)
    ensures !q.failed && k == Max(0, end - next + 1) && |q.db.log| == |p.db.log| + k
    ensures CommitsFrom(p.db.log, q.db.log, next)
    ensures k > 0 ==> q.db.stored == Some(Watermark(end, Some(env(end).fetched.value.hash)))
  {
    if q.failed {
      AnsweredPasses(p.state, next, next + k, env);
      assert false;
    }
    if k > 0 { assert AnsweredAt(env(end), end); }
  }

  /** A poll that meets a fork the node does not confirm ends with an error and changes nothing. */
  lemma UnconfirmedForkIsRefused(db: Db, env: PollEnv, config: Config, w: Watermark, b: Block)
    requires config.maxBlocks >= 1 && env.loads && env.head.Some? && w.last < env.head.value
    requires db.stored == Some(w) && FromWhere(db.stored, env.head.value, config) == w
    requires w.hash.Some? && w.hash.value != b.parent
    requires Gave(env.blocks(w.last + 1), w.last + 1, b) && env.blocks(w.last + 1).canonical != Some(b.parent)
    ensures PollOnce(db, env, config) == (db, 0, false)
  {
    hide ProcessRange;
    var head := env.head.value;
    StartIs(db, head, env.save, config);
    var p := Progress(db, w, 0, false);
    HeightMeans(p, w.last + 1, env.blocks(w.last + 1));
    assert Given(p, env.blocks(w.last + 1), b, ProcessOne(p, w.last + 1, env.blocks(w.last + 1)));
    FirstFails(p, w.last + 1, LastHeight(w, head, config), env.blocks);
  }

  lemma FirstFails(p: Progress, next: nat, end: int, env: nat -> BlockEnv)
    requires !p.failed && next <= end && ProcessOne(p, next, env(next)).failed
    ensures ProcessRange(p, next, end, env) == ProcessOne(p, next, env(next))
  {
    hide ProcessOne;
  }

  // ----- Runs -----

  /** In poll k the node gave the committed block for its height. */
  predicate GivenIn(envs: seq<PollEnv>, k: nat, c: Commit)
  {
    k < |envs| && Gave(envs[k].blocks(c.height), c.height, Block(c.height, c.hash, c.parent))
  }

  /** One of the first n polls was told that this is the canonical block right below the height. */
  ghost predicate Confirmed(envs: seq<PollEnv>, n: nat, height: nat, hash: Hash)
  {
    exists k :: 0 <= k < n && k < |envs| && envs[k].blocks(height).canonical == Some(hash)
  }

  predicate Follows(c: Commit, earlier: Commit) { c.height == earlier.height + 1 && c.parent == earlier.hash }

  /** The i-th commit is a block the node gave for its height, on the block committed right below it, on one that the
      node had confirmed as canonical by then, or at a start point nothing is known below of. */
  ghost predicate Vouched(log: seq<Commit>, i: nat, envs: seq<PollEnv>, n: nat)
    requires i < |log|
  {
    exists k :: 0 <= k < n && GivenIn(envs, k, log[i])
      && (|| (i > 0 && Follows(log[i], log[i - 1]))
          || Confirmed(envs, k + 1, log[i].height, log[i].parent)
          || log[i].from == Some(Watermark(log[i].height, None)))
  }

  /** The same of the stored hash, which the next block's parent is compared with. */
  ghost predicate StoredVouched(db: Db, envs: seq<PollEnv>, n: nat)
  {
    db.stored.Some? && db.stored.value.hash.Some? ==>
      var w := db.stored.value;
      || (db.log != [] && var c := db.log[|db.log| - 1]; w == Watermark(c.height, Some(c.hash)))
      || Confirmed(envs, n, w.last + 1, w.hash.value)
  }

  ghost predicate AllVouched(db: Db, envs: seq<PollEnv>, n: nat)
  {
    StoredVouched(db, envs, n) && forall i :: 0 <= i < |db.log| ==> Vouched(db.log, i, envs, n)
  }

  lemma VouchedStill(log: seq<Commit>, longer: seq<Commit>, i: nat, envs: seq<PollEnv>, n: nat, m: nat)
    requires i < |log| && log <= longer && Vouched(log, i, envs, n) && n <= m
    ensures Vouched(longer, i, envs, m)
  {
    hide Confirmed, GivenIn;
    assert longer[i] == log[i] && (i > 0 ==> longer[i - 1] == log[i - 1]);
  }

  /** One height of poll n. */
  lemma HeightVouched(p: Progress, h: nat, envs: seq<PollEnv>, n: nat)
    requires n < |envs| && !p.failed && InStep(p, h) && AllVouched(p.db, envs, n + 1)
    ensures AllVouched(ProcessOne(p, h, envs[n].blocks(h)).db, envs, n + 1)
  {
    hide ProcessOne, Vouched, AllVouched;
    var e, q := envs[n].blocks(h), ProcessOne(p, h, envs[n].blocks(h));
    HeightMeans(p, h, e);
    if b :| Gave(e, h, b) { GivenVouched(p, h, b, envs, n, q); }
  }

  lemma GivenVouched(p: Progress, h: nat, b: Block, envs: seq<PollEnv>, n: nat, q: Progress)
    requires n < |envs| && !p.failed && InStep(p, h) && AllVouched(p.db, envs, n + 1)
    requires Gave(envs[n].blocks(h), h, b) && Given(p, envs[n].blocks(h), b, q)
    ensures AllVouched(q.db, envs, n + 1)
  {
    hide Vouched;
    var e, held := envs[n].blocks(h), HeldBelow(p.state, h);
    if Departs(held, b) && Admits(held, e, b) { assert Confirmed(envs, n + 1, h, b.parent); }
    var m := n + 1;
    forall i | 0 <= i < |p.db.log| ensures Vouched(q.db.log, i, envs, m) {
      VouchedStill(p.db.log, q.db.log, i, envs, m, m);
    }
    if |q.db.log| > |p.db.log| { NewIsVouched(p, h, b, envs, n, q); }
  }

  lemma NewIsVouched(p: Progress, h: nat, b: Block, envs: seq<PollEnv>, n: nat, q: Progress)
    requires n < |envs| && !p.failed && InStep(p, h) && StoredVouched(p.db, envs, n + 1)
    requires Gave(envs[n].blocks(h), h, b) && Given(p, envs[n].blocks(h), b, q) && |q.db.log| > |p.db.log|
    ensures Vouched(q.db.log, |p.db.log|, envs, n + 1)
  {
    var e, held, c := envs[n].blocks(h), HeldBelow(p.state, h), q.db.log[|p.db.log|];
    assert c == CommitOf(b, Ground(p.db.stored, held, b)) && b == Block(h, c.hash, c.parent);
    assert GivenIn(envs, n, c);
    if Departs(held, b) { assert Confirmed(envs, n + 1, h, b.parent); }
  }

  lemma {:induction false} RangeVouched(p: Progress, next: nat, end: int, envs: seq<PollEnv>, n: nat)
    requires n < |envs| && Sound(p.db) && InStep(p, next) && AllVouched(p.db, envs, n + 1)
    ensures AllVouched(ProcessRange(p, next, end, envs[n].blocks).db, envs, n + 1)
    decreases end - next
  {
    hide ProcessOne, AllVouched, Sound;
    if !p.failed && next <= end {
      HeightVouched(p, next, envs, n);
      ProcessOneKeeps(p, next, envs[n].blocks(next));
      RangeVouched(ProcessOne(p, next, envs[n].blocks(next)), next + 1, end, envs, n);
    }
  }

  lemma MorePolls(db: Db, envs: seq<PollEnv>, n: nat)
    requires AllVouched(db, envs, n)
    ensures AllVouched(db, envs, n + 1)
  {
    hide Vouched;
    var m := n + 1;
    forall i | 0 <= i < |db.log| ensures Vouched(db.log, i, envs, m) {
      VouchedStill(db.log, db.log, i, envs, n, m);
    }
  }

  /** A start point has no hash to vouch for. */
  lemma StartVouched(db: Db, head: nat, save: Outcome, config: Config, envs: seq<PollEnv>, n: nat)
    requires AllVouched(db, envs, n)
    ensures AllVouched(StartFrom(db, head, save, config).0, envs, n)
  {
    hide Vouched, Confirmed;
  }

  lemma PollVouched(db: Db, envs: seq<PollEnv>, n: nat, config: Config)
    requires n < |envs| && config.maxBlocks >= 1 && Sound(db) && AllVouched(db, envs, n)
    ensures AllVouched(PollOnce(db, envs[n], config).0, envs, n + 1)
  {
    hide AllVouched, StartFrom, Sound;
    var env := envs[n];
    MorePolls(db, envs, n);
    if env.loads && env.head.Some? {
      var head := env.head.value;
      var (start, from) := StartFrom(db, head, env.save, config);
      StartVouched(db, head, env.save, config, envs, n + 1);
      StartKeeps(db, head, env.save, config);
      if from.Some? {
        var next := NextHeight(from.value);
        RangeVouched(Progress(start, from.value, 0, false), next, Min(head, next + config.maxBlocks - 1), envs, n);
      }
    }
  }

  lemma {:induction false} RunVouched(db: Db, envs: seq<PollEnv>, n: nat, config: Config)
    requires n <= |envs| && config.maxBlocks >= 1 && Sound(db) && AllVouched(db, envs, n)
    ensures AllVouched(Run(db, envs[n..], config), envs, |envs|)
    decreases |envs| - n
  {
    hide AllVouched, PollOnce, Sound;
    if n == |envs| {
      assert envs[n..] == [];
    } else {
      assert envs[n..][0] == envs[n] && envs[n..][1..] == envs[n + 1..];
      PollVouched(db, envs, n, config);
      PollKeeps(db, envs[n], config);
      RunVouched(PollOnce(db, envs[n], config).0, envs, n + 1, config);
    }
  }

  /** Over every run of polls from an empty store: every commit is a block that the node gave for its height in some
      poll, and its parent is the hash of the commit right below it, or a hash that the node had named as the canonical
      block below by then, or nothing was known below a start point. No commit stands on anything else. */
  lemma EveryCommitIsVouched(envs: seq<PollEnv>, config: Config, i: nat)
    requires config.maxBlocks >= 1 && i < |Run(Db(None, []), envs, config).log|
    ensures Vouched(Run(Db(None, []), envs, config).log, i, envs, |envs|)
  {
    hide Run, Vouched;
    assert envs[0..] == envs;
    RunVouched(Db(None, []), envs, 0, config);
  }
}
