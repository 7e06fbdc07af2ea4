/** Which heights a poller may leave out: only those it jumped over because it was too far behind. */
module SkippedHistory {
  import opened Prelude
  import opened Poller

  /** The heights from `last` to `start` were given up at a poll that saw `head`. */
  predicate Jumped(head: nat, lag: nat, last: nat, start: nat)
  {
    0 < lag < head - last && start == head - RECENT_BLOCK_OFFSET && last < start
  }

  /** Poll k found a store with `count` commits and saw a head that explains the jump. */
  ghost predicate JumpAt(envs: seq<PollEnv>, config: Config, k: nat, count: nat, last: nat, start: nat)
    requires config.maxBlocks >= 1
  {
    && k < |envs| && envs[k].head.Some? && Jumped(envs[k].head.value, config.skipLag, last, start)
    && |Run(Db(None, []), envs[..k], config).log| == count
  }

  /** One of the first n polls made the jump, when exactly the first `count` commits were there. */
  ghost predicate SomeJump(envs: seq<PollEnv>, config: Config, n: nat, count: nat, last: nat, start: nat)
    requires config.maxBlocks >= 1
  {
    exists k :: 0 <= k < n && JumpAt(envs, config, k, count, last, start)
  }

  /** Every commit is next to the one before it or starts where some poll in between jumped to; and so will the
      next one. */
  ghost predicate Explained(db: Db, envs: seq<PollEnv>, n: nat, config: Config)
    requires config.maxBlocks >= 1
  {
    && (forall i, j :: 0 <= i < |db.log| && j == i + 1 < |db.log| ==>
          db.log[j].height == db.log[i].height + 1
          || SomeJump(envs, config, n, j, db.log[i].height, db.log[j].height))
    && (db.log != [] ==> db.stored.Some? && ExplainedNext(db.log, db.stored.value, envs, n, config))
  }

  ghost predicate ExplainedNext(log: seq<Commit>, w: Watermark, envs: seq<PollEnv>, n: nat, config: Config)
    requires log != [] && config.maxBlocks >= 1
  {
    var height := log[|log| - 1].height;
    if w.hash.Some? then w.last == height else SomeJump(envs, config, n, |log|, height, w.last)
  }

  lemma CommitExplained(db: Db, w: Watermark, b: Block, o: Outcome, envs: seq<PollEnv>, n: nat, config: Config)
    requires config.maxBlocks >= 1
    requires Explained(db, envs, n, config) && db.stored == Some(w) && b.number == NextHeight(w)
    ensures Explained(Committed(db, b, o), envs, n, config)
  {
    hide SomeJump;
  }

  lemma OneExplained(p: Progress, h: nat, e: BlockEnv, envs: seq<PollEnv>, n: nat, config: Config)
    requires config.maxBlocks >= 1
    requires Explained(p.db, envs, n, config) && InStep(p, h) && !p.failed
    ensures Explained(ProcessOne(p, h, e).db, envs, n, config)
  {
    hide SomeJump, Explained;
    if !e.cancelled && Fetched(e, h).Some? {
      var b := Fetched(e, h).value;
      if !Forked(p.state, b) {
        CommitExplained(p.db, p.state, b, e.commit, envs, n, config);
      } else if w :| ResolveCanonicalParent(b, e.canonical) == Some(w) {
        ForkExplained(p.db, p.state, w, e.save, envs, n, config);
        if e.save == Succeeds { CommitExplained(Saved(p.db, w, e.save), w, b, e.commit, envs, n, config); }
      }
    }
  }

  lemma ForkExplained(db: Db, w: Watermark, fork: Watermark, o: Outcome, envs: seq<PollEnv>, n: nat, config: Config)
    requires config.maxBlocks >= 1
    requires Explained(db, envs, n, config) && db.stored == Some(w) && w.hash.Some?
    requires fork.hash.Some? && fork.last == w.last
    ensures Explained(Saved(db, fork, o), envs, n, config)
  {
    hide SomeJump;
  }

  lemma {:induction false} RangeExplained(p: Progress, next: nat, end: int, env: nat -> BlockEnv,
      envs: seq<PollEnv>, n: nat, config: Config)
    requires config.maxBlocks >= 1
    requires Sound(p.db) && InStep(p, next) && Explained(p.db, envs, n, config)
    ensures Explained(ProcessRange(p, next, end, env).db, envs, n, config)
    decreases end - next
  {
    hide Explained, ProcessOne, Sound;
    if !p.failed && next <= end {
      OneExplained(p, next, env(next), envs, n, config);
      ProcessOneKeeps(p, next, env(next));
      RangeExplained(ProcessOne(p, next, env(next)), next + 1, end, env, envs, n, config);
    }
  }

  /** The poll's own head explains the jump it makes, also from a start point nothing was committed at. */
  lemma StartExplained(db: Db, envs: seq<PollEnv>, n: nat, config: Config)
    requires config.maxBlocks >= 1
    requires n < |envs| && envs[n].head.Some? && db == Run(Db(None, []), envs[..n], config)
    requires Sound(db) && Explained(db, envs, n, config)
    ensures Explained(StartFrom(db, envs[n].head.value, envs[n].save, config).0, envs, n + 1, config)
  {
    hide Explained, Sound, Run;
    MorePolls(db, envs, n, config);
    var head, save := envs[n].head.value, envs[n].save;
    if db.stored.Some? {
      var w := db.stored.value;
      var restart := SkipHistoryStart(head, w.last, config.skipLag);
      if restart.Some? { JumpExplained(db, w, head, save, restart.value, envs, n, config); }
    } else {
      NothingStored(db, Watermark(ResolveStartBlock(head, config.fromBlock), None), save, envs, n, config);
    }
  }

  lemma NothingStored(db: Db, w: Watermark, o: Outcome, envs: seq<PollEnv>, n: nat, config: Config)
    requires config.maxBlocks >= 1
    requires db.stored == None && Explained(db, envs, n, config)
    ensures Explained(Saved(db, w, o), envs, n + 1, config)
  {
  }

  lemma JumpExplained(db: Db, w: Watermark, head: nat, o: Outcome, start: nat, envs: seq<PollEnv>, n: nat,
      config: Config)
    requires config.maxBlocks >= 1
    requires n < |envs| && envs[n].head == Some(head) && db == Run(Db(None, []), envs[..n], config)
    requires Sound(db) && db.stored == Some(w)
    requires Explained(db, envs, n + 1, config) && SkipHistoryStart(head, w.last, config.skipLag) == Some(start)
    ensures Explained(Saved(db, Watermark(start, None), o), envs, n + 1, config)
  {
    if db.log != [] {
      var height := db.log[|db.log| - 1].height;
      assert height <= w.last;
      assert JumpAt(envs, config, n, |db.log|, height, start);
      assert SomeJump(envs, config, n + 1, |db.log|, height, start);
    }
    hide SomeJump, Jumped, Run;
  }

  lemma MorePolls(db: Db, envs: seq<PollEnv>, n: nat, config: Config)
    requires config.maxBlocks >= 1 && Explained(db, envs, n, config)
    ensures Explained(db, envs, n + 1, config)
  {
    hide JumpAt;
  }

  lemma PollExplained(db: Db, envs: seq<PollEnv>, n: nat, config: Config)
    requires n < |envs| && config.maxBlocks >= 1 && db == Run(Db(None, []), envs[..n], config)
    requires Sound(db) && Explained(db, envs, n, config)
    ensures Explained(PollOnce(db, envs[n], config).0, envs, n + 1, config)
  {
    hide Sound, Explained, Run;
    var env := envs[n];
    MorePolls(db, envs, n, config);
    if env.loads && env.head.Some? {
      var head := env.head.value;
      var (start, from) := StartFrom(db, head, env.save, config);
      StartExplained(db, envs, n, config);
      StartKeeps(db, head, env.save, config);
      if from.Some? {
        var next := NextHeight(from.value);
        RangeExplained(Progress(start, from.value, 0, false), next, Min(head, next + config.maxBlocks - 1),
          env.blocks, envs, n + 1, config);
      }
    }
  }

  lemma {:induction false} RunOneMore(db: Db, envs: seq<PollEnv>, e: PollEnv, config: Config)
    requires config.maxBlocks >= 1
    ensures Run(db, envs + [e], config) == PollOnce(Run(db, envs, config), e, config).0
    decreases |envs|
  {
    hide PollOnce;
    if envs == [] {
      assert [e][1..] == [] && envs + [e] == [e];
    } else {
      assert (envs + [e])[1..] == envs[1..] + [e];
      RunOneMore(PollOnce(db, envs[0], config).0, envs[1..], e, config);
    }
  }

  lemma {:induction false} RunExplained(envs: seq<PollEnv>, n: nat, config: Config)
    requires n <= |envs| && config.maxBlocks >= 1
    ensures var db := Run(Db(None, []), envs[..n], config); Sound(db) && Explained(db, envs, n, config)
  {
    hide Sound, Explained, PollOnce;
    if n == 0 {
      EmptyExplained(envs, config);
      assert Run(Db(None, []), envs[..0], config) == Db(None, []);
    } else {
      var db := Run(Db(None, []), envs[..n - 1], config);
      RunExplained(envs, n - 1, config);
      PollExplained(db, envs, n - 1, config);
      PollKeeps(db, envs[n - 1], config);
      assert envs[..n] == envs[..n - 1] + [envs[n - 1]];
      RunOneMore(Db(None, []), envs[..n - 1], envs[n - 1], config);
    }
  }

  lemma EmptyExplained(envs: seq<PollEnv>, config: Config)
    requires config.maxBlocks >= 1
    ensures Sound(Db(None, [])) && Explained(Db(None, []), envs, 0, config)
  {
  }

  /** No height is left out in silence. Over every run of polls, of two successive commits the second is at the
      next height, or skipping is on and a poll between the two, when the first was the last commit so far, saw a
      head more than the threshold beyond it; then the second is exactly ten below that head. */
  lemma GapsAreJumps(envs: seq<PollEnv>, config: Config, i: nat)
    requires config.maxBlocks >= 1
    requires i + 1 < |Run(Db(None, []), envs, config).log|
    ensures var log := Run(Db(None, []), envs, config).log;
      log[i + 1].height == log[i].height + 1
      || SomeJump(envs, config, |envs|, i + 1, log[i].height, log[i + 1].height)
  {
    hide SomeJump, Sound, Run;
    assert envs[..|envs|] == envs;
    RunExplained(envs, |envs|, config);
  }
}
