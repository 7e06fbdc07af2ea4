/** The single writer: callers put requests into a bounded queue under a read lock, one goroutine
    executes them in order, and closing takes the write lock, closes the queue and lets it drain.
    A request is a function from the database to its result, so the database is a type parameter. */
module WriteQueue {
  import opened Prelude

  const CAPACITY := 256

  type Id = nat

  /** How a request ends. `Expired`: the caller's context was over when its turn came; `Aborts`: the function or
      the commit failed and everything was rolled back. */
  datatype Ending = Commits | Expired | Aborts

  datatype Answer = Answer(id: Id, ending: Ending)

  /** `sending` are the callers that hold the read lock and have seen the queue open; `over` are the requests
      whose context is over, because the caller gave up or its time ran out; `started` says that the current
      request's transaction has begun; `accepted` and `answered` are histories, in order. */
  datatype State<Db> = State(
    db: Db, closed: bool, stopped: bool, sending: set<Id>, over: set<Id>, queue: seq<Id>,
    current: Option<Id>, started: bool, accepted: seq<Id>, answered: seq<Answer>, rejected: set<Id>)

  datatype Step =
    | Begin(id: Id)
    | Send(id: Id)
    | ContextEnds(id: Id)
    | GiveUp(id: Id)
    | Close
    | Dequeue
    | Skip
    | Start
    | Execute(commits: bool)
    | Stop

  function Initial<Db>(db: Db): State<Db>
  {
    State(db, false, false, {}, {}, [], None, false, [], [], {})
  }

  predicate Enabled<Db>(s: State<Db>, step: Step)
  {
    match step
    case Begin(id) => id !in s.sending && id !in s.accepted && id !in s.rejected
    case Send(id) => id in s.sending && |s.queue| < CAPACITY
    case ContextEnds(id) => id !in s.over
    // A caller whose context is over may still send: both ways out of the select are open to it.
    case GiveUp(id) => id in s.sending && id in s.over
    // The write lock is only granted once no caller holds the read lock; closing happens once.
    case Close => s.sending == {} && !s.closed
    case Dequeue => s.current == None && s.queue != []
    // The context is looked at again before the transaction begins.
    case Skip => s.current.Some? && !s.started && s.current.value in s.over
    case Start => s.current.Some? && !s.started && s.current.value !in s.over
    case Execute(_) => s.current.Some? && s.started
    case Stop => s.closed && s.queue == [] && s.current == None && !s.stopped
  }

  function Answered<Db>(s: State<Db>, ending: Ending): State<Db>
    requires s.current.Some?
  {
    s.(current := None, started := false, answered := s.answered + [Answer(s.current.value, ending)])
  }

  /** `fn` says what each request does to the database when it commits. */
  function Next<Db>(s: State<Db>, step: Step, fn: (Id, Db) -> Db): State<Db>
    requires Enabled(s, step)
  {
    match step
    case Begin(id) => if s.closed then s.(rejected := s.rejected + {id}) else s.(sending := s.sending + {id})
    case Send(id) => s.(sending := s.sending - {id}, queue := s.queue + [id], accepted := s.accepted + [id])
    case GiveUp(id) => s.(sending := s.sending - {id}, rejected := s.rejected + {id})
    case ContextEnds(id) => s.(over := s.over + {id})
    case Close => s.(closed := true)
    case Dequeue => s.(current := Some(s.queue[0]), queue := s.queue[1..])
    case Skip => Answered(s, Expired)
    case Start => s.(started := true)
    case Execute(commits) =>
      if commits then Answered(s.(db := fn(s.current.value, s.db)), Commits) else Answered(s, Aborts)
    case Stop => s.(stopped := true)
  }

  ghost predicate ValidRun<Db>(s: State<Db>, steps: seq<Step>, fn: (Id, Db) -> Db)
    decreases |steps|
  {
    steps == [] || (Enabled(s, steps[0]) && ValidRun(Next(s, steps[0], fn), steps[1..], fn))
  }

  ghost function Run<Db>(s: State<Db>, steps: seq<Step>, fn: (Id, Db) -> Db): State<Db>
    requires ValidRun(s, steps, fn)
    decreases |steps|
  {
    if steps == [] then s else Run(Next(s, steps[0], fn), steps[1..], fn)
  }

  function Ids(answers: seq<Answer>): (ids: seq<Id>)
    ensures |ids| == |answers|
  {
    if answers == [] then [] else Ids(answers[..|answers| - 1]) + [answers[|answers| - 1].id]
  }

  /** The database after the answered requests, one after the other. */
  function Folded<Db>(db: Db, answers: seq<Answer>, fn: (Id, Db) -> Db): Db
  {
    if answers == [] then db
    else
      var a, before := answers[|answers| - 1], Folded(db, answers[..|answers| - 1], fn);
      if a.ending == Commits then fn(a.id, before) else before
  }

  function Pending<Db>(s: State<Db>): seq<Id>
  {
    (if s.current.Some? then [s.current.value] else []) + s.queue
  }

  ghost predicate NoDuplicates(ids: seq<Id>)
  {
    forall i, j :: 0 <= i < |ids| && 0 <= j < |ids| && ids[i] == ids[j] ==> i == j
  }

  ghost predicate Invariant<Db>(s: State<Db>, db0: Db, fn: (Id, Db) -> Db)
  {
    && s.accepted == Ids(s.answered) + Pending(s)
    && s.db == Folded(db0, s.answered, fn)
    && NoDuplicates(s.accepted) && (forall i :: 0 <= i < |s.accepted| ==> s.accepted[i] !in s.sending + s.rejected)
    && s.sending !! s.rejected
    && (s.closed ==> s.sending == {})
    && (s.stopped ==> s.closed && Pending(s) == [])
    && |s.queue| <= CAPACITY
    && (!s.closed ==> s.rejected <= s.over)
    && (forall a :: a in s.answered && a.ending == Expired ==> a.id in s.over)
  }

  lemma AnsweredOneMore(answers: seq<Answer>, a: Answer)
    ensures Ids(answers + [a]) == Ids(answers) + [a.id]
  {
    assert (answers + [a])[..|answers|] == answers;
  }

  lemma FoldedOneMore<Db>(db: Db, answers: seq<Answer>, a: Answer, fn: (Id, Db) -> Db)
    ensures Folded(db, answers + [a], fn) ==
      if a.ending == Commits then fn(a.id, Folded(db, answers, fn)) else Folded(db, answers, fn)
  {
    assert (answers + [a])[..|answers|] == answers;
  }

  lemma AnswerKeeps<Db>(s: State<Db>, db0: Db, ending: Ending, fn: (Id, Db) -> Db)
    requires Invariant(s, db0, fn) && s.current.Some?
    requires ending == Expired ==> s.current.value in s.over
    ensures var db := if ending == Commits then fn(s.current.value, s.db) else s.db;
      Invariant(Answered(s.(db := db), ending), db0, fn)
  {
    hide Ids, Folded;
    var a := Answer(s.current.value, ending);
    AnsweredOneMore(s.answered, a);
    FoldedOneMore(db0, s.answered, a, fn);
    assert Ids(s.answered + [a]) + s.queue == Ids(s.answered) + Pending(s);
  }

  lemma SendKeeps<Db>(s: State<Db>, db0: Db, id: Id, fn: (Id, Db) -> Db)
    requires Invariant(s, db0, fn) && Enabled(s, Send(id))
    ensures Invariant(Next(s, Send(id), fn), db0, fn)
  {
    hide Ids, Folded;
    var s' := Next(s, Send(id), fn);
    assert s'.accepted == Ids(s'.answered) + Pending(s');
    assert NoDuplicates(s'.accepted);
  }

  lemma DequeueKeeps<Db>(s: State<Db>, db0: Db, fn: (Id, Db) -> Db)
    requires Invariant(s, db0, fn) && Enabled(s, Dequeue)
    ensures Invariant(Next(s, Dequeue, fn), db0, fn)
  {
    hide Ids, Folded, NoDuplicates;
    assert Pending(Next(s, Dequeue, fn)) == Pending(s);
  }

  lemma StepKeepsInvariant<Db>(s: State<Db>, db0: Db, step: Step, fn: (Id, Db) -> Db)
    requires Invariant(s, db0, fn) && Enabled(s, step)
    ensures Invariant(Next(s, step, fn), db0, fn)
  {
    hide Ids, Folded, NoDuplicates;
    match step
    case Send(id) => SendKeeps(s, db0, id, fn);
    case Dequeue => DequeueKeeps(s, db0, fn);
    case Skip => AnswerKeeps(s, db0, Expired, fn);
    case Execute(commits) => AnswerKeeps(s, db0, if commits then Commits else Aborts, fn);
    case _ =>
  }

  lemma {:induction false} RunKeepsInvariant<Db>(s: State<Db>, db0: Db, steps: seq<Step>, fn: (Id, Db) -> Db)
    requires Invariant(s, db0, fn) && ValidRun(s, steps, fn)
    ensures Invariant(Run(s, steps, fn), db0, fn)
    decreases |steps|
  {
    hide Invariant;
    if steps != [] {
      StepKeepsInvariant(s, db0, steps[0], fn);
      RunKeepsInvariant(Next(s, steps[0], fn), db0, steps[1..], fn);
    }
  }

  /** Over every run: requests are answered in the order they were accepted, each at most once; the
      database is the sequential fold of those that committed; nobody is about to send on a closed
      queue; once the writer has stopped, which is when closing returns, every accepted request has its answer; and
      before closing nobody is turned away whose context is not over. */
  lemma EveryRun<Db>(db0: Db, steps: seq<Step>, fn: (Id, Db) -> Db)
    requires ValidRun(Initial(db0), steps, fn)
    ensures var s := Run(Initial(db0), steps, fn);
      && Ids(s.answered) <= s.accepted && NoDuplicates(Ids(s.answered))
      && s.db == Folded(db0, s.answered, fn)
      && (s.closed ==> s.sending == {})
      && (s.stopped ==> Ids(s.answered) == s.accepted)
      && |s.queue| <= 256 && (!s.closed ==> s.rejected <= s.over)
  {
    RunKeepsInvariant(Initial(db0), db0, steps, fn);
    var s := Run(Initial(db0), steps, fn);
    assert forall i :: 0 <= i < |s.answered| ==> Ids(s.answered)[i] == s.accepted[i];
  }

  /** How the requests whose turn came ended, read off the steps of the writer. */
  function Endings(steps: seq<Step>): seq<Ending>
    decreases |steps|
  {
    if steps == [] then []
    else
      (match steps[0]
       case Skip => [Expired]
       case Execute(commits) => if commits then [Commits] else [Aborts]
       case _ => []) + Endings(steps[1..])
  }

  /** The database after the first n requests have ended so, one after the other. */
  function Effect<Db>(db: Db, ids: seq<Id>, endings: seq<Ending>, n: nat, fn: (Id, Db) -> Db): Db
    requires n <= |ids| && n <= |endings|
  {
    if n == 0 then db
    else
      var before := Effect(db, ids, endings, n - 1, fn);
      if endings[n - 1] == Commits then fn(ids[n - 1], before) else before
  }

  function EndingsOf(answers: seq<Answer>): (r: seq<Ending>)
    ensures |r| == |answers| && forall i :: 0 <= i < |r| ==> r[i] == answers[i].ending
  {
    seq(|answers|, i requires 0 <= i < |answers| => answers[i].ending)
  }

  lemma {:induction false} AnswersAreEndings<Db>(s: State<Db>, steps: seq<Step>, fn: (Id, Db) -> Db)
    requires ValidRun(s, steps, fn)
    ensures EndingsOf(Run(s, steps, fn).answered) == EndingsOf(s.answered) + Endings(steps)
    decreases |steps|
  {
    if steps != [] {
      AnswersAreEndings(Next(s, steps[0], fn), steps[1..], fn);
    }
  }

  lemma {:induction false} FoldIsEffect<Db>(db: Db, answers: seq<Answer>, n: nat, fn: (Id, Db) -> Db)
    requires n <= |answers|
    ensures Folded(db, answers[..n], fn) == Effect(db, Ids(answers), EndingsOf(answers), n, fn)
  {
    if n > 0 {
      FoldIsEffect(db, answers, n - 1, fn);
      assert answers[..n][..n - 1] == answers[..n - 1];
      IdAt(answers, n - 1);
    } else {
      assert answers[..0] == [];
    }
  }

  lemma {:induction false} IdAt(answers: seq<Answer>, i: nat)
    requires i < |answers|
    ensures Ids(answers)[i] == answers[i].id
  {
    if i < |answers| - 1 { IdAt(answers[..|answers| - 1], i); }
  }

  lemma {:induction false} SameEffect<Db>(db: Db, a: seq<Id>, b: seq<Id>, endings: seq<Ending>, n: nat,
      fn: (Id, Db) -> Db)
    requires n <= |a| <= |b| && n <= |endings| && a <= b
    ensures Effect(db, a, endings, n, fn) == Effect(db, b, endings, n, fn)
  {
    if n > 0 { SameEffect(db, a, b, endings, n - 1, fn); }
  }

  /** Over every run, the i-th request whose turn came is the i-th that was accepted, it has the answer that the
      writer's i-th ending gives it, and the database is what exactly those that committed have made of it, in that
      order. */
  lemma RunFollowsTheWriter<Db>(db0: Db, steps: seq<Step>, fn: (Id, Db) -> Db)
    requires ValidRun(Initial(db0), steps, fn)
    ensures var s, endings := Run(Initial(db0), steps, fn), Endings(steps);
      && |s.answered| == |endings| <= |s.accepted|
      && (forall i :: 0 <= i < |endings| ==> s.answered[i] == Answer(s.accepted[i], endings[i]))
      && s.db == Effect(db0, s.accepted, endings, |endings|, fn)
  {
    hide ValidRun, Run, Endings, Effect, Folded, Ids;
    EveryRun(db0, steps, fn);
    AnswersAreEndings(Initial(db0), steps, fn);
    var s, endings := Run(Initial(db0), steps, fn), Endings(steps);
    assert EndingsOf(s.answered) == endings;
    assert s.answered[..|s.answered|] == s.answered;
    FoldIsEffect(db0, s.answered, |s.answered|, fn);
    SameEffect(db0, Ids(s.answered), s.accepted, endings, |endings|, fn);
    forall i | 0 <= i < |endings| ensures s.answered[i] == Answer(s.accepted[i], endings[i]) {
      IdAt(s.answered, i);
      assert EndingsOf(s.answered)[i] == endings[i];
    }
  }

  /** What the empty database and every single request keep holds after any run. */
  lemma {:induction false} FoldKeeps<Db(!new)>(db0: Db, answers: seq<Answer>, fn: (Id, Db) -> Db, kept: Db -> bool)
    requires kept(db0)
    requires forall i :: 0 <= i < |answers| ==> KeepsIt(answers[i].id, fn, kept)
    ensures kept(Folded(db0, answers, fn))
  {
    if answers != [] {
      var front, a := answers[..|answers| - 1], answers[|answers| - 1];
      FoldKeeps(db0, front, fn, kept);
      assert KeepsIt(a.id, fn, kept);
    }
  }

  ghost predicate KeepsIt<Db(!new)>(id: Id, fn: (Id, Db) -> Db, kept: Db -> bool)
  {
    forall db: Db {:trigger fn(id, db)} :: kept(db) ==> kept(fn(id, db))
  }

  /** A refused or given-up request never reaches the database, now or later. */
  lemma {:induction false} RejectedStaysOut<Db>(s: State<Db>, db0: Db, steps: seq<Step>, fn: (Id, Db) -> Db, id: Id)
    requires Invariant(s, db0, fn) && ValidRun(s, steps, fn) && id in s.rejected
    ensures id !in Run(s, steps, fn).accepted && id in Run(s, steps, fn).rejected
    decreases |steps|
  {
    if steps != [] {
      StepKeepsInvariant(s, db0, steps[0], fn);
      RejectedStaysOut(Next(s, steps[0], fn), db0, steps[1..], fn, id);
    }
  }

  /** The context is over, the transaction under way is not the request's, and if it was answered it was without
      effect. */
  ghost predicate KeptOut<Db>(s: State<Db>, id: Id)
  {
    && id in s.over
    && (s.started ==> s.current.Some? && s.current.value != id)
    && (forall a :: a in s.answered && a.id == id ==> a.ending == Expired)
  }

  /** A request whose context is over before its transaction begins never changes the database, wherever it was
      then: about to be sent, queued, or just taken from the queue. Its only possible answer is the expiry. */
  lemma {:induction false} GivenUpStaysOut<Db>(s: State<Db>, steps: seq<Step>, fn: (Id, Db) -> Db, id: Id)
    requires KeptOut(s, id) && ValidRun(s, steps, fn)
    ensures KeptOut(Run(s, steps, fn), id)
    decreases |steps|
  {
    if steps != [] { GivenUpStaysOut(Next(s, steps[0], fn), steps[1..], fn, id); }
  }

  /** The answers to all requests but one, in order. */
  function Others(answers: seq<Answer>, id: Id): seq<Answer>
  {
    if answers == [] then []
    else
      var front, a := Others(answers[..|answers| - 1], id), answers[|answers| - 1];
      if a.id == id then front else front + [a]
  }

  lemma {:induction false} FoldSkips<Db>(db: Db, answers: seq<Answer>, id: Id, fn: (Id, Db) -> Db)
    requires forall a :: a in answers && a.id == id ==> a.ending != Commits
    ensures Folded(db, answers, fn) == Folded(db, Others(answers, id), fn)
  {
    if answers != [] {
      var front, a := answers[..|answers| - 1], answers[|answers| - 1];
      FoldSkips(db, front, id, fn);
      if a.id != id { FoldedOneMore(db, Others(front, id), a, fn); }
    }
  }

  /** So the database is at every moment what the other requests alone have made of it. */
  lemma GivenUpHasNoEffect<Db>(s: State<Db>, db0: Db, steps: seq<Step>, fn: (Id, Db) -> Db, id: Id)
    requires Invariant(s, db0, fn) && KeptOut(s, id) && ValidRun(s, steps, fn)
    ensures var end := Run(s, steps, fn); end.db == Folded(db0, Others(end.answered, id), fn)
  {
    hide ValidRun, Run, Folded, Others;
    RunKeepsInvariant(s, db0, steps, fn);
    GivenUpStaysOut(s, steps, fn, id);
    FoldSkips(db0, Run(s, steps, fn).answered, id, fn);
  }

  /** Closing is not held up for ever: while a request waits or a caller is sending, the writer can
      move or the caller can, and a drained closed queue lets the writer stop. */
  lemma NeverStuck<Db>(db0: Db, steps: seq<Step>, fn: (Id, Db) -> Db) returns (step: Step)
    requires ValidRun(Initial(db0), steps, fn)
    requires var s := Run(Initial(db0), steps, fn);
      s.sending != {} || Pending(s) != [] || (s.closed && !s.stopped)
    ensures var s := Run(Initial(db0), steps, fn);
      Enabled(s, step) && !step.Begin? && !step.ContextEnds? && !step.GiveUp? && !step.Close?
  {
    RunKeepsInvariant(Initial(db0), db0, steps, fn);
    hide Ids, Folded;
    var s := Run(Initial(db0), steps, fn);
    if s.current.Some? {
      step := if s.started then Execute(true) else if s.current.value in s.over then Skip else Start;
    } else if s.queue != [] {
      step := Dequeue;
    } else if s.sending != {} {
      var id :| id in s.sending;
      step := Send(id);
    } else {
      step := Stop;
    }
  }
}
