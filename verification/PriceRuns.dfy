/** Every interleaving of marks with the one flusher. Marks, the snapshot and each removal are atomic
    under the set's lock; reading and writing a row happen in between, unlocked. */
module PriceRuns {
  import opened Prelude
  import opened DirtySet

  /** The flusher: resting, or working through its snapshot. `settled` says that the first point's row
      has been dealt with and only its removal from the set is outstanding. */
  datatype Flusher = Resting | Flushing(todo: seq<Point>, settled: bool)

  /** The set, the price columns and the flusher, with the history needed to state the properties:
      the last mark of every token, the tokens whose last mark was evicted, and for every row the
      version of the mark it shows. */
  datatype State = State(
    d: Dirty, shown: map<Token, Shown>, flusher: Flusher,
    last: map<Token, Point>, evicted: set<Token>, rows: map<Token, nat>)

  datatype Step =
    | Mark(point: Point)
    | StartFlush(snapshot: seq<Point>)
    | RowFails(applied: bool)
    | RowAgrees
    | RowWritten
    | Drop
    | EndFlush

  function Initial(cap: nat): State
  {
    State(Dirty(cap, map[], [], 0), map[], Resting, map[], {}, map[])
  }

  ghost predicate Busy(s: State, settled: bool)
  {
    s.flusher.Flushing? && s.flusher.todo != [] && s.flusher.settled == settled
  }

  ghost predicate Shows(s: State, p: Point)
  {
    ShowsPrice(s.shown, p.token, p)
  }

  ghost predicate Enabled(s: State, step: Step)
  {
    match step
    case Mark(_) => true
    case StartFlush(points) => s.flusher.Resting? && Enumerates(points, s.d.items)
    case RowFails(applied) => Busy(s, false) && (applied ==> !Shows(s, s.flusher.todo[0]))
    case RowAgrees => Busy(s, false) && Shows(s, s.flusher.todo[0])
    case RowWritten => Busy(s, false) && !Shows(s, s.flusher.todo[0])
    case Drop => Busy(s, true)
    case EndFlush => s.flusher == Flushing([], false)
  }

  /** Row of p now shows p. */
  function Write(s: State, p: Point): State
  {
    s.(shown := s.shown[p.token := ShownBy(p)], rows := s.rows[p.token := p.version])
  }

  ghost function Next(s: State, step: Step): State
    requires Enabled(s, step)
  {
    match step
    case Mark(p) =>
      var q := p.(version := s.d.nextId + 1);
      s.(d := Marked(s.d, p), last := s.last[p.token := q],
         evicted := s.evicted - {p.token}
           + (match Evicted(s.d, p.token) case Some(victim) => {victim} case None => {}))
    case StartFlush(points) => s.(flusher := Flushing(points, false))
    // An error, whether or not the write took effect: the point stays for the next flush.
    case RowFails(applied) =>
      (if applied then Write(s, s.flusher.todo[0]) else s).(flusher := Flushing(s.flusher.todo[1..], false))
    case RowAgrees => Write(s, s.flusher.todo[0]).(flusher := s.flusher.(settled := true))
    case RowWritten => Write(s, s.flusher.todo[0]).(flusher := s.flusher.(settled := true))
    case Drop => s.(d := Dropped(s.d, s.flusher.todo[0]), flusher := Flushing(s.flusher.todo[1..], false))
    case EndFlush => s.(flusher := Resting)
  }

  ghost predicate ValidRun(s: State, steps: seq<Step>)
    decreases |steps|
  {
    steps == [] || (Enabled(s, steps[0]) && ValidRun(Next(s, steps[0]), steps[1..]))
  }

  ghost function Run(s: State, steps: seq<Step>): State
    requires ValidRun(s, steps)
    decreases |steps|
  {
    if steps == [] then s else Run(Next(s, steps[0]), steps[1..])
  }

  /** What the set holds is the token's last mark, never older than what its row shows. */
  ghost predicate HoldsLastMarks(s: State)
  {
    && (forall t :: t in s.d.items ==> t in s.last && s.d.items[t] == s.last[t])
    && (forall t :: t in s.last ==> s.last[t].token == t && s.last[t].version <= s.d.nextId)
    && (forall t :: t in s.rows ==> t in s.last && s.rows[t] <= s.last[t].version)
  }

  /** No mark is lost: it is held, was evicted, or is what the row shows. */
  ghost predicate NothingLost(s: State)
  {
    forall t :: t in s.last ==> t in s.d.items || t in s.evicted || Settled(s, s.last[t])
  }

  /** The row shows p, and it was p that was written last. */
  ghost predicate Settled(s: State, p: Point)
  {
    Shows(s, p) && p.token in s.rows && s.rows[p.token] == p.version
  }

  /** The flusher's points are marks of distinct tokens, none older than its row. */
  ghost predicate FlusherFresh(s: State)
  {
    s.flusher.Flushing? ==>
      var todo := s.flusher.todo;
      && (forall i :: 0 <= i < |todo| ==> FreshPoint(s, todo[i]))
      && (forall i, j :: 0 <= i < j < |todo| ==> todo[i].token != todo[j].token)
      && (s.flusher.settled ==> todo != [] && Settled(s, todo[0]))
  }

  ghost predicate FreshPoint(s: State, p: Point)
  {
    && p.token in s.last && p.version <= s.last[p.token].version
    && (p.version == s.last[p.token].version ==> p == s.last[p.token])
    && (p.token in s.rows ==> s.rows[p.token] <= p.version)
  }

  ghost predicate Invariant(s: State)
  {
    Valid(s.d) && HoldsLastMarks(s) && NothingLost(s) && FlusherFresh(s)
  }

  lemma MarkHoldsLastMarks(s: State, p: Point)
    requires Valid(s.d) && HoldsLastMarks(s)
    ensures HoldsLastMarks(Next(s, Mark(p)))
  {
    hide Valid, Marked, Evicted;
    MarkedItems(s.d, p);
  }

  lemma MarkLosesNothing(s: State, p: Point)
    requires Valid(s.d) && NothingLost(s)
    ensures NothingLost(Next(s, Mark(p)))
  {
    hide Valid, Marked, Evicted;
    MarkedItems(s.d, p);
    var s' := Next(s, Mark(p));
    forall t | t in s'.last ensures t in s'.d.items || t in s'.evicted || Settled(s', s'.last[t]) {
      if t != p.token && t !in s.d.items && t !in s.evicted { assert Settled(s, s.last[t]); }
    }
  }

  lemma MarkKeepsFlusherFresh(s: State, p: Point)
    requires HoldsLastMarks(s) && FlusherFresh(s)
    ensures FlusherFresh(Next(s, Mark(p)))
  {
    hide Marked;
    var s' := Next(s, Mark(p));
    if s.flusher.Flushing? {
      var todo := s.flusher.todo;
      forall i | 0 <= i < |todo| ensures FreshPoint(s', todo[i]) {
        assert FreshPoint(s, todo[i]);
      }
    }
  }

  /** Marking changes the entry of the marked token and of the evicted one, if any. */
  lemma MarkedItems(d: Dirty, p: Point)
    requires Valid(d)
    ensures Marked(d, p).nextId == d.nextId + 1
    ensures forall t :: t in Marked(d, p).items <==> t == p.token || (t in d.items && Evicted(d, p.token) != Some(t))
    ensures forall t :: t in Marked(d, p).items ==>
      Marked(d, p).items[t] == if t == p.token then p.(version := d.nextId + 1) else d.items[t]
  {
  }

  lemma StepKeepsInvariant(s: State, step: Step)
    requires Invariant(s) && Enabled(s, step)
    ensures Invariant(Next(s, step))
  {
    hide Listed, Marked, Without;
    var s' := Next(s, step);
    match step
    case Mark(p) =>
      MarkedIsValid(s.d, p);
      MarkHoldsLastMarks(s, p);
      MarkLosesNothing(s, p);
      MarkKeepsFlusherFresh(s, p);
    case StartFlush(points) =>
      forall i | 0 <= i < |points| ensures FreshPoint(s', points[i]) { }
    case RowFails(applied) => if applied { WriteKeepsInvariant(s); } else { TodoTail(s); }
    case RowAgrees => WriteKeepsInvariant(s);
    case RowWritten => WriteKeepsInvariant(s);
    case Drop =>
      DroppedIsValid(s.d, s.flusher.todo[0]);
      assert FreshPoint(s, s.flusher.todo[0]);
      TodoTail(s);
    case EndFlush =>
  }

  lemma TodoTail(s: State)
    requires FlusherFresh(s) && s.flusher.Flushing? && s.flusher.todo != []
    ensures FlusherFresh(s.(flusher := Flushing(s.flusher.todo[1..], false)))
  {
    var todo, s' := s.flusher.todo, s.(flusher := Flushing(s.flusher.todo[1..], false));
    forall i | 0 <= i < |todo[1..]| ensures FreshPoint(s', todo[1..][i]) {
      assert FreshPoint(s, todo[i + 1]);
    }
  }

  /** Writing the row of the point at hand, whether the flusher then drops the point or skips it. */
  lemma WriteKeepsInvariant(s: State)
    requires Invariant(s) && Busy(s, false)
    ensures Invariant(Write(s, s.flusher.todo[0]).(flusher := s.flusher.(settled := true)))
    ensures Invariant(Write(s, s.flusher.todo[0]).(flusher := Flushing(s.flusher.todo[1..], false)))
  {
    hide Listed;
    var todo, s' := s.flusher.todo, Write(s, s.flusher.todo[0]).(flusher := s.flusher.(settled := true));
    forall i | 0 <= i < |todo| ensures FreshPoint(s', todo[i]) {
      assert FreshPoint(s, todo[i]) && FreshPoint(s, todo[0]);
    }
    TodoTail(s');
  }

  lemma {:induction false} RunKeepsInvariant(s: State, steps: seq<Step>)
    requires Invariant(s) && ValidRun(s, steps)
    ensures Invariant(Run(s, steps))
    decreases |steps|
  {
    if steps != [] {
      StepKeepsInvariant(s, steps[0]);
      RunKeepsInvariant(Next(s, steps[0]), steps[1..]);
    }
  }

  /** Under every interleaving: the set stays bounded, in bijection with its list and in order of
      recency; and the last mark of each token is held, was evicted by an overflow, or is what the
      directory shows. */
  lemma EveryInterleaving(cap: nat, steps: seq<Step>)
    requires cap >= 1 && ValidRun(Initial(cap), steps)
    ensures var s := Run(Initial(cap), steps);
      && Valid(s.d) && |s.d.items| == |s.d.order| <= s.d.cap
      && (forall t :: t in s.d.items ==> t in s.last && s.d.items[t] == s.last[t])
      && (forall t :: t in s.last ==> t in s.d.items || t in s.evicted || Shows(s, s.last[t]))
  {
    RunKeepsInvariant(Initial(cap), steps);
    var s := Run(Initial(cap), steps);
    ListedMeans(s.d.order, s.d.items);
  }

  /** The version a row shows never goes back, from any reachable state on. */
  lemma {:induction false} RowsNeverGoBack(s: State, steps: seq<Step>, t: Token)
    requires Invariant(s) && ValidRun(s, steps) && t in s.rows
    ensures t in Run(s, steps).rows && Run(s, steps).rows[t] >= s.rows[t]
    decreases |steps|
  {
    if steps != [] {
      var s' := Next(s, steps[0]);
      if s.flusher.Flushing? && s.flusher.todo != [] { assert FreshPoint(s, s.flusher.todo[0]); }
      StepKeepsInvariant(s, steps[0]);
      RowsNeverGoBack(s', steps[1..], t);
    }
  }

  /** Only an overflow loses a mark: with room for every marked token nothing is ever evicted. */
  lemma {:induction false} NoOverflowNoLoss(s: State, steps: seq<Step>, tokens: set<Token>)
    requires Invariant(s) && ValidRun(s, steps) && s.evicted == {}
    requires |tokens| <= s.d.cap && s.d.items.Keys <= tokens
    requires forall i :: 0 <= i < |steps| && steps[i].Mark? ==> steps[i].point.token in tokens
    ensures Run(s, steps).evicted == {}
    decreases |steps|
  {
    if steps != [] {
      var s' := Next(s, steps[0]);
      StepKeepsInvariant(s, steps[0]);
      if steps[0].Mark? {
        var p := steps[0].point;
        MarkedItems(s.d, p);
        if p.token !in s.d.items { RoomForOneMore(s.d.items.Keys, tokens, p.token); }
      }
      NoOverflowNoLoss(s', steps[1..], tokens);
    }
  }

  lemma RoomForOneMore(part: set<Token>, whole: set<Token>, t: Token)
    requires part <= whole && t in whole && t !in part
    ensures |part| < |whole|
  {
    var rest := whole - part;
    assert whole == part + rest && t in rest;
    if |rest| == 0 { assert false; }
  }
}
