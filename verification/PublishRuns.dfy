/** What holds over whole runs of the publishing protocol. */
module PublishRuns {
  import opened Options
  import opened ChunkStore
  import opened Publishing
  import opened PublishWorkflow
  import opened PublishProtocol

  lemma {:induction false} AlwaysSound(cfg: Settings, ws: seq<World>, steps: seq<Step>, i: nat)
    requires Behaviour(cfg, ws, steps) && i < |ws|
    ensures Sound(ws[i])
  {
    if i > 0 {
      AlwaysSound(cfg, ws, steps, i - 1);
      assert Taken(cfg, ws[i - 1], steps[i - 1], ws[i]);
      StepKeepsSound(cfg, ws[i - 1], steps[i - 1]);
    }
  }

  lemma StepTo(cfg: Settings, ws: seq<World>, steps: seq<Step>, j: nat)
    requires Behaviour(cfg, ws, steps) && 0 < j < |ws|
    ensures Sound(ws[j - 1]) && Taken(cfg, ws[j - 1], steps[j - 1], ws[j])
  {
    AlwaysSound(cfg, ws, steps, j - 1);
    assert Taken(cfg, ws[j - 1], steps[j - 1], ws[j - 1 + 1]);
  }

  // ------------------------------------------------------ status and runs

  /** The run's `begin_publish` answered "first", or has not been recorded yet. */
  predicate MayBeFirst(local: Local) {
    match local
    case AwaitBegin => true
    case AwaitList(isFirst) => isFirst
    case AwaitChunk(isFirst, _, _) => isFirst
    case AwaitReady(_) => true
    case AwaitFailed => true
    case _ => false
  }

  /** NEVER STRANDED. In every reachable state a course on `publishing` has its one live run, and
      that run took it for a first publish; the publication date is set exactly when the course is
      ready; and a run that ends leaves the course ready or failed, as the kind of run demands. */
  lemma NeverStranded(cfg: Settings, ws: seq<World>, steps: seq<Step>, i: nat)
    requires Behaviour(cfg, ws, steps) && i < |ws|
    ensures ws[i].status == PublishingNow ==> ws[i].run.Some? && MayBeFirst(LocalOf(ws[i]))
    ensures ws[i].publishedAt.Some? <==> ws[i].status == Ready
    ensures i < |steps| && steps[i].Close? ==>
      && ws[i].run.Some? && ws[i + 1].run.None? && ws[i + 1].status == ws[i].status
      && ws[i].status == match LocalOf(ws[i]) case Raised(true) => Failed case _ => Ready
  {
    AlwaysSound(cfg, ws, steps, i);
    assert i < |steps| ==> Taken(cfg, ws[i], steps[i], ws[i + 1]);
  }

  /** Nothing of this run can stamp the date any more. */
  predicate DateSettled(w: World) {
    w.status == Ready && (w.run.Some? ==> !LocalOf(w).AwaitReady?)
  }

  /** Found ready, an activity leaves it ready, and only `mark_ready` stamps the date. */
  lemma ReadyWork(cfg: Settings, w: World, local: Local, now: Time)
    requires w.status == Ready && StatusFits(Ready, local)
    ensures var work := WorkOf(cfg, w, local, now);
      work.Work? ==>
        && work.world.status == Ready
        && (!local.AwaitReady? ==> work.world.publishedAt == w.publishedAt && !Advance(local, work.result).AwaitReady?)
  {
  }

  lemma ReadyMiss(w: World, local: Local)
    requires w.run.Some? && local == LocalOf(w) && StatusFits(Ready, local) && w.status == Ready
    ensures Missed(w, local).status == Ready && Missed(w, local).publishedAt == w.publishedAt
    ensures DateSettled(w) ==> DateSettled(Missed(w, local))
  {
    MissedLocal(w, local);
  }

  lemma ReadyAttempt(cfg: Settings, w: World, outcome: Outcome, now: Time)
    requires w.run.Some? && w.status == Ready && StatusFits(Ready, LocalOf(w))
    ensures var next := Attempted(cfg, w, outcome, now);
      next.status == Ready && (DateSettled(w) ==> DateSettled(next) && next.publishedAt == w.publishedAt)
  {
    var local := LocalOf(w);
    var work := WorkOf(cfg, w, local, now);
    ReadyWork(cfg, w, local, now);
    if work.Raises? || outcome == NotDone {
      ReadyMiss(w, local);
    } else if outcome == Lost {
      ReadyMiss(work.world, local);
    } else {
      RecordAdvances(work.world, work.result);
    }
  }

  lemma ReadyStep(cfg: Settings, w: World, step: Step)
    requires Sound(w) && Enabled(w, step) && w.status == Ready
    ensures After(cfg, w, step).status == Ready
    ensures DateSettled(w) ==> DateSettled(After(cfg, w, step)) && After(cfg, w, step).publishedAt == w.publishedAt
  {
    match step
    case Attempt(outcome, now) => ReadyAttempt(cfg, w, outcome, now);
    case StartRequest => assert Replay([]) == AwaitBegin;
    case _ =>
  }

  lemma ReadyNext(cfg: Settings, ws: seq<World>, steps: seq<Step>, j: nat)
    requires Behaviour(cfg, ws, steps) && 0 < j < |ws| && ws[j - 1].status == Ready
    ensures ws[j].status == Ready
    ensures DateSettled(ws[j - 1]) ==> DateSettled(ws[j]) && ws[j].publishedAt == ws[j - 1].publishedAt
  {
    StepTo(cfg, ws, steps, j);
    ReadyStep(cfg, ws[j - 1], steps[j - 1]);
  }

  /** READY IS ABSORBING. Once ready, no later edit, request, attempt, crash or republish moves the
      status; and once the run that published is past `mark_ready`, none alters the date. */
  lemma {:induction false} ReadyIsAbsorbing(cfg: Settings, ws: seq<World>, steps: seq<Step>, i: nat, j: nat)
    requires Behaviour(cfg, ws, steps) && i <= j < |ws| && ws[i].status == Ready
    ensures ws[j].status == Ready
    ensures DateSettled(ws[i]) ==> DateSettled(ws[j]) && ws[j].publishedAt == ws[i].publishedAt
    decreases j
  {
    if i < j {
      ReadyIsAbsorbing(cfg, ws, steps, i, j - 1);
      ReadyNext(cfg, ws, steps, j);
    }
  }

  /** A worker that stays up: it runs the pending activity and reports, up to `n` times. */
  ghost function Driven(cfg: Settings, w: World, now: Time, n: nat): World
    decreases n
  {
    if n == 0 || !Enabled(w, Attempt(Recorded, now)) then w
    else Driven(cfg, After(cfg, w, Attempt(Recorded, now)), now, n - 1)
  }

  predicate Ended(w: World) {
    w.run.Some? && (LocalOf(w).Returned? || LocalOf(w).Raised?)
  }

  /** How much of the run is left: the stage, the lessons still to chunk, the attempts allowed. */
  function StagesLeft(local: Local): nat {
    match local
    case AwaitBegin => 4
    case AwaitList(_) => 3
    case AwaitChunk(_, _, _) => 2
    case AwaitReady(_) => 1
    case AwaitFailed => 1
    case _ => 0
  }

  function LessonsLeft(local: Local): nat {
    if local.AwaitChunk? then |local.todo| else 0
  }

  function AttemptsLeft(w: World): nat {
    if w.run.Some? && w.run.value.attempts < MAX_ATTEMPTS then MAX_ATTEMPTS - w.run.value.attempts else 0
  }

  /** An activity that gets through leaves a later stage, or fewer lessons. */
  lemma WorkUsesUp(cfg: Settings, w: World, local: Local, now: Time)
    requires WorkOf(cfg, w, local, now).Work?
    ensures var next := Advance(local, WorkOf(cfg, w, local, now).result);
      || StagesLeft(next) < StagesLeft(local)
      || (StagesLeft(next) == StagesLeft(local) && LessonsLeft(next) < LessonsLeft(local))
  {
  }

  /** Every attempt of a worker that reports uses some of it up. */
  lemma AttemptAdvances(cfg: Settings, w: World, now: Time)
    requires w.run.Some? && !Ended(w) && StatusFits(w.status, LocalOf(w))
    ensures var next := Attempted(cfg, w, Recorded, now);
      && next.run.Some?
      && (|| StagesLeft(LocalOf(next)) < StagesLeft(LocalOf(w))
          || (&& StagesLeft(LocalOf(next)) == StagesLeft(LocalOf(w))
              && (|| LessonsLeft(LocalOf(next)) < LessonsLeft(LocalOf(w))
                  || (LessonsLeft(LocalOf(next)) == LessonsLeft(LocalOf(w)) && AttemptsLeft(next) < AttemptsLeft(w)))))
  {
    var local := LocalOf(w);
    var work := WorkOf(cfg, w, local, now);
    if work.Work? {
      RecordAdvances(work.world, work.result);
      WorkUsesUp(cfg, w, local, now);
    } else {
      RecordAdvances(w, ChunkingFailed);
    }
  }

  /** ALWAYS RESOLVED. From every sound state with a live run, whatever crashes and refusals came
      before, a worker that stays up brings the run to its end in finitely many attempts, and the
      course is then ready or failed. */
  lemma {:induction false} RunsFinish(cfg: Settings, w: World, now: Time) returns (n: nat)
    requires Sound(w) && w.run.Some?
    ensures Ended(Driven(cfg, w, now, n))
    ensures Driven(cfg, w, now, n).status == Ready || Driven(cfg, w, now, n).status == Failed
    decreases StagesLeft(LocalOf(w)), LessonsLeft(LocalOf(w)), AttemptsLeft(w)
  {
    if Ended(w) {
      n := 0;
    } else {
      AttemptAdvances(cfg, w, now);
      StepKeepsSound(cfg, w, Attempt(Recorded, now));
      n := RunsFinish(cfg, After(cfg, w, Attempt(Recorded, now)), now);
      n := n + 1;
    }
  }

  // ------------------------------------------------- one publish, end to end

  predicate Untouched(start: World, w: World, l: LessonId) {
    RowsFor(w.rows, l) == RowsFor(start.rows, l)
  }

  /** The lesson's rows are what one committed reconciliation made of those at `start`. */
  ghost predicate Done(cfg: Settings, start: World, w: World, l: LessonId) {
    exists base: nat :: Reconciled(RowsFor(start.rows, l), l, PiecesOf(cfg, start.texts, l), base, RowsFor(w.rows, l))
  }

  ghost predicate Reconciled(stored: Rows, l: LessonId, pieces: seq<string>, base: nat, out: Rows) {
    ValidStored(stored, l, base) && out == Rebuilt(stored, l, pieces, base) && UniquePositions(out)
  }

  /** The pieces of these lessons, all told. */
  function Total(cfg: Settings, texts: map<LessonId, Option<string>>, ids: seq<LessonId>): nat {
    if ids == [] then 0 else |PiecesOf(cfg, texts, ids[0])| + Total(cfg, texts, ids[1..])
  }

  /** Every lesson is done, or waits its turn untouched. The lesson at the head of `todo` may be
      done already: committed, and not yet reported. */
  ghost predicate Reached(cfg: Settings, start: World, w: World, todo: seq<LessonId>) {
    forall l :: l in start.order ==> DoneOrWaiting(cfg, start, w, todo, l)
  }

  ghost predicate DoneOrWaiting(cfg: Settings, start: World, w: World, todo: seq<LessonId>, l: LessonId) {
    Done(cfg, start, w, l) || (l in todo && Untouched(start, w, l))
  }

  /** What has been written and what is still to write make up the whole course. */
  ghost predicate OnTrack(cfg: Settings, start: World, w: World, todo: seq<LessonId>, written: nat) {
    && written + Total(cfg, start.texts, todo) == Total(cfg, start.texts, start.order)
    && Reached(cfg, start, w, todo)
  }

  ghost predicate ReachedBy(cfg: Settings, start: World, w: World, local: Local) {
    match local
    case AwaitBegin => OnTrack(cfg, start, w, start.order, 0)
    case AwaitList(_) => OnTrack(cfg, start, w, start.order, 0)
    case AwaitChunk(_, todo, written) => OnTrack(cfg, start, w, todo, written)
    case AwaitReady(written) => OnTrack(cfg, start, w, [], written)
    case Returned(_, written) => OnTrack(cfg, start, w, [], written)
    case _ => Reached(cfg, start, w, start.order)
  }

  /** A run under way that found the course as `start`, no lesson having changed since. */
  ghost predicate UnderWay(cfg: Settings, start: World, w: World) {
    && w.run.Some?
    && w.order == start.order && w.texts == start.texts
    && ReachedBy(cfg, start, w, LocalOf(w))
  }

  lemma SameRowsOne(cfg: Settings, start: World, w: World, next: World, todo: seq<LessonId>, l: LessonId)
    requires DoneOrWaiting(cfg, start, w, todo, l) && RowsFor(next.rows, l) == RowsFor(w.rows, l)
    ensures DoneOrWaiting(cfg, start, next, todo, l)
  {
  }

  lemma SameRows(cfg: Settings, start: World, w: World, next: World, local: Local)
    requires ReachedBy(cfg, start, w, local)
    requires forall l :: l in start.order ==> RowsFor(next.rows, l) == RowsFor(w.rows, l)
    ensures ReachedBy(cfg, start, next, local)
  {
  }

  lemma DoneIsSettled(cfg: Settings, start: World, w: World, l: LessonId)
    requires TableFits(w) && Done(cfg, start, w, l)
    ensures Settled(RowsFor(w.rows, l), l, PiecesOf(cfg, start.texts, l), w.nextKey)
  {
    var stored, pieces := RowsFor(start.rows, l), PiecesOf(cfg, start.texts, l);
    var base: nat :| Reconciled(stored, l, pieces, base, RowsFor(w.rows, l));
    CommittedIsSettled(stored, l, pieces, base);
    RowsForValid(w.rows, l, w.nextKey);
  }

  /** A commit for one lesson: a first one reconciles it, a repeated one changes nothing. */
  lemma CommitDoes(cfg: Settings, start: World, w: World, l: LessonId)
    requires TableFits(w) && w.texts == start.texts && l in w.texts
    requires Untouched(start, w, l) || Done(cfg, start, w, l)
    requires ChunkWork(cfg, w, l).Work?
    ensures Done(cfg, start, ChunkWork(cfg, w, l).world, l)
  {
    var stored, pieces := RowsFor(w.rows, l), PiecesOf(cfg, w.texts, l);
    var next := ChunkWork(cfg, w, l).world;
    RowsForValid(w.rows, l, w.nextKey);
    AfterChunkingFrame(w.rows, l, pieces, w.nextKey);
    assert Reconciled(stored, l, pieces, w.nextKey, RowsFor(next.rows, l));
    if Done(cfg, start, w, l) {
      DoneIsSettled(cfg, start, w, l);
      RerunLaw(stored, l, pieces, w.nextKey);
      SameRowsOne(cfg, start, w, next, [], l);
    }
  }

  /** Committing the first lesson of `todo` leaves it done whether or not the result arrives. */
  lemma CommitReaches(cfg: Settings, start: World, w: World, todo: seq<LessonId>)
    requires TableFits(w) && w.texts == start.texts && w.order == start.order
    requires todo != [] && Reached(cfg, start, w, todo) && ChunkWork(cfg, w, todo[0]).Work?
    ensures Reached(cfg, start, ChunkWork(cfg, w, todo[0]).world, todo[1..])
    ensures Reached(cfg, start, ChunkWork(cfg, w, todo[0]).world, todo)
  {
    var next := ChunkWork(cfg, w, todo[0]).world;
    forall l | l in start.order
      ensures DoneOrWaiting(cfg, start, next, todo[1..], l) && DoneOrWaiting(cfg, start, next, todo, l)
    {
      assert DoneOrWaiting(cfg, start, w, todo, l);
      CommitSeenBy(cfg, start, w, todo, l);
    }
  }

  lemma CommitSeenBy(cfg: Settings, start: World, w: World, todo: seq<LessonId>, l: LessonId)
    requires TableFits(w) && w.texts == start.texts && w.order == start.order && l in w.texts
    requires todo != [] && DoneOrWaiting(cfg, start, w, todo, l) && ChunkWork(cfg, w, todo[0]).Work?
    ensures DoneOrWaiting(cfg, start, ChunkWork(cfg, w, todo[0]).world, todo[1..], l)
  {
    var next := ChunkWork(cfg, w, todo[0]).world;
    if l == todo[0] {
      CommitDoes(cfg, start, w, l);
    } else {
      ChunkFrame(cfg, w, todo[0], l);
      assert l in todo ==> l in todo[1..];
      SameRowsOne(cfg, start, w, next, todo[1..], l);
    }
  }

  lemma ChunkFrame(cfg: Settings, w: World, l: LessonId, other: LessonId)
    requires TableFits(w) && ChunkWork(cfg, w, l).Work? && other != l
    ensures RowsFor(ChunkWork(cfg, w, l).world.rows, other) == RowsFor(w.rows, other)
  {
    AfterChunkingFrame(w.rows, l, PiecesOf(cfg, w.texts, l), w.nextKey);
  }

  lemma ChunkKeepsTrack(cfg: Settings, start: World, w: World, todo: seq<LessonId>, written: nat)
    requires TableFits(w) && w.texts == start.texts && w.order == start.order && todo != []
    requires OnTrack(cfg, start, w, todo, written) && ChunkWork(cfg, w, todo[0]).Work?
    ensures var work := ChunkWork(cfg, w, todo[0]);
      && OnTrack(cfg, start, work.world, todo, written)
      && OnTrack(cfg, start, work.world, todo[1..], written + work.result.count)
  {
    CommitReaches(cfg, start, w, todo);
  }

  lemma AtLoopReached(cfg: Settings, start: World, w: World, isFirst: bool, todo: seq<LessonId>, written: nat)
    requires OnTrack(cfg, start, w, todo, written)
    ensures ReachedBy(cfg, start, w, AtLoop(isFirst, todo, written))
  {
  }

  /** The pending activity, run to its commit, keeps the publish on track both when the commit is
      reported and when it is not. */
  lemma WorkKeepsTrack(cfg: Settings, start: World, w: World, local: Local, now: Time)
    requires TableFits(w)
    requires w.texts == start.texts && w.order == start.order && ReachedBy(cfg, start, w, local)
    requires WorkOf(cfg, w, local, now).Work?
    ensures var work := WorkOf(cfg, w, local, now);
      && ReachedBy(cfg, start, work.world, local)
      && ReachedBy(cfg, start, work.world, Advance(local, work.result))
  {
    match local
    case AwaitBegin => SameRows(cfg, start, w, WorkOf(cfg, w, local, now).world, local);
    case AwaitList(isFirst) => AtLoopReached(cfg, start, w, isFirst, w.order, 0);
    case AwaitChunk(isFirst, todo, written) =>
      var work := ChunkWork(cfg, w, todo[0]);
      ChunkKeepsTrack(cfg, start, w, todo, written);
      AtLoopReached(cfg, start, work.world, isFirst, todo[1..], written + work.result.count);
    case AwaitReady(_) => SameRows(cfg, start, w, WorkOf(cfg, w, local, now).world, local);
    case _ =>
  }

  /** Whatever stage a run has reached, every lesson is done or untouched. */
  lemma TrackIsReached(cfg: Settings, start: World, w: World, local: Local)
    requires ReachedBy(cfg, start, w, local)
    ensures Reached(cfg, start, w, start.order)
  {
    forall l, todo | l in start.order && DoneOrWaiting(cfg, start, w, todo, l)
      ensures DoneOrWaiting(cfg, start, w, start.order, l)
    {
    }
  }

  /** Missing a report leaves the publish where it was, or in the handler. */
  lemma MissKeepsTrack(cfg: Settings, start: World, w: World, local: Local)
    requires w.run.Some? && local == LocalOf(w) && ReachedBy(cfg, start, w, local)
    requires w.order == start.order && w.texts == start.texts
    ensures UnderWay(cfg, start, Missed(w, local))
  {
    MissedLocal(w, local);
    var next := Missed(w, local);
    TrackIsReached(cfg, start, w, local);
    SameRows(cfg, start, w, next, local);
    TrackIsReached(cfg, start, next, local);
  }

  lemma RecordKeepsTrack(cfg: Settings, start: World, w: World, result: PublishWorkflow.Result)
    requires w.run.Some? && w.order == start.order && w.texts == start.texts
    requires ReachedBy(cfg, start, w, Advance(LocalOf(w), result))
    ensures UnderWay(cfg, start, Record(w, result))
  {
    RecordAdvances(w, result);
    SameRows(cfg, start, w, Record(w, result), Advance(LocalOf(w), result));
  }

  lemma AttemptKeepsTrack(cfg: Settings, start: World, w: World, outcome: Outcome, now: Time)
    requires Sound(w) && UnderWay(cfg, start, w)
    ensures UnderWay(cfg, start, Attempted(cfg, w, outcome, now))
  {
    var local := LocalOf(w);
    var work := WorkOf(cfg, w, local, now);
    if work.Raises? || outcome == NotDone {
      MissKeepsTrack(cfg, start, w, local);
    } else {
      WorkKeepsTrack(cfg, start, w, local, now);
      WorkKeepsTable(cfg, w, local, now);
      if outcome == Lost {
        MissKeepsTrack(cfg, start, work.world, local);
      } else {
        RecordKeepsTrack(cfg, start, work.world, work.result);
      }
    }
  }

  // ---------------------------------------- what no step but an edit undoes

  /** The lesson is as it was at `start`, or as a commit for the text it had there left it. */
  ghost predicate DoneOrUntouched(cfg: Settings, start: World, w: World, l: LessonId) {
    Done(cfg, start, w, l) || Untouched(start, w, l)
  }

  lemma SameRowsDone(cfg: Settings, start: World, w: World, next: World, l: LessonId)
    requires Done(cfg, start, w, l) && RowsFor(next.rows, l) == RowsFor(w.rows, l)
    ensures Done(cfg, start, next, l)
  {
    SameRowsOne(cfg, start, w, next, [], l);
  }

  lemma WorkKeepsDone(cfg: Settings, start: World, w: World, local: Local, now: Time, l: LessonId)
    requires TableFits(w) && w.texts == start.texts && l in w.texts && DoneOrUntouched(cfg, start, w, l)
    requires WorkOf(cfg, w, local, now).Work?
    ensures DoneOrUntouched(cfg, start, WorkOf(cfg, w, local, now).world, l)
    ensures Done(cfg, start, w, l) ==> Done(cfg, start, WorkOf(cfg, w, local, now).world, l)
  {
    var next := WorkOf(cfg, w, local, now).world;
    if local.AwaitChunk? && local.todo[0] == l {
      CommitDoes(cfg, start, w, l);
    } else {
      if local.AwaitChunk? {
        ChunkFrame(cfg, w, local.todo[0], l);
      }
      assert RowsFor(next.rows, l) == RowsFor(w.rows, l);
      if Done(cfg, start, w, l) {
        SameRowsDone(cfg, start, w, next, l);
      }
    }
  }

  lemma SameTableDone(cfg: Settings, start: World, w: World, next: World, l: LessonId)
    requires DoneOrUntouched(cfg, start, w, l) && RowsFor(next.rows, l) == RowsFor(w.rows, l)
    ensures DoneOrUntouched(cfg, start, next, l)
    ensures Done(cfg, start, w, l) ==> Done(cfg, start, next, l)
  {
    if Done(cfg, start, w, l) {
      SameRowsDone(cfg, start, w, next, l);
    }
  }

  lemma AttemptedTable(cfg: Settings, w: World, outcome: Outcome, now: Time)
    requires w.run.Some?
    ensures var work, next := WorkOf(cfg, w, LocalOf(w), now), Attempted(cfg, w, outcome, now);
      && (work.Raises? || outcome == NotDone ==> next == w.(run := next.run))
      && (work.Work? && outcome != NotDone ==> next == work.world.(run := next.run))
  {
  }

  /** A lesson once done stays done, and one untouched is at most committed: through every step but an
      edit, whether a run is live, failing, ended or none. */
  lemma StepKeepsDone(cfg: Settings, start: World, w: World, step: Step, l: LessonId)
    requires Sound(w) && Enabled(w, step) && !step.Edit?
    requires w.order == start.order && w.texts == start.texts && l in start.order
    requires DoneOrUntouched(cfg, start, w, l)
    ensures var next := After(cfg, w, step);
      && next.order == start.order && next.texts == start.texts && DoneOrUntouched(cfg, start, next, l)
      && (Done(cfg, start, w, l) ==> Done(cfg, start, next, l))
  {
    var next := After(cfg, w, step);
    if step.Attempt? {
      var work := WorkOf(cfg, w, LocalOf(w), step.now);
      AttemptedTable(cfg, w, step.outcome, step.now);
      if work.Work? && step.outcome != NotDone {
        WorkKeepsTable(cfg, w, LocalOf(w), step.now);
        WorkKeepsDone(cfg, start, w, LocalOf(w), step.now, l);
        SameTableDone(cfg, start, work.world, next, l);
      } else {
        SameTableDone(cfg, start, w, next, l);
      }
    } else {
      assert RowsFor(next.rows, l) == RowsFor(w.rows, l);
      SameTableDone(cfg, start, w, next, l);
    }
  }

  lemma {:induction false} NoNewLessons(cfg: Settings, ws: seq<World>, steps: seq<Step>, b: nat, j: nat)
    requires Behaviour(cfg, ws, steps) && b <= j < |ws| && forall k :: b <= k < j ==> !steps[k].Edit?
    ensures ws[j].order == ws[b].order && ws[j].texts == ws[b].texts
    decreases j
  {
    if b < j {
      NoNewLessons(cfg, ws, steps, b, j - 1);
      StepTo(cfg, ws, steps, j);
      assert !steps[j - 1].Edit?;
      SameLessons(cfg, ws[j - 1], steps[j - 1]);
    }
  }

  lemma {:induction false} LessonsStay(cfg: Settings, ws: seq<World>, steps: seq<Step>, b: nat, j: nat)
    requires Behaviour(cfg, ws, steps) && b <= j < |ws| && forall k :: b <= k < j ==> !steps[k].Edit?
    ensures ws[j].order == ws[b].order && ws[j].texts == ws[b].texts
    ensures forall l :: l in ws[b].order ==> DoneOrUntouched(cfg, ws[b], ws[j], l)
    decreases j
  {
    if b < j {
      LessonsStay(cfg, ws, steps, b, j - 1);
      NoNewLessons(cfg, ws, steps, b, j);
      StepTo(cfg, ws, steps, j);
      assert !steps[j - 1].Edit?;
      forall l | l in ws[b].order ensures DoneOrUntouched(cfg, ws[b], ws[j], l) {
        StepKeepsDone(cfg, ws[b], ws[j - 1], steps[j - 1], l);
      }
    }
  }

  lemma SameLessons(cfg: Settings, w: World, step: Step)
    requires Sound(w) && Enabled(w, step) && !step.Edit?
    ensures After(cfg, w, step).order == w.order && After(cfg, w, step).texts == w.texts
  {
    if step.Attempt? {
      AttemptedTable(cfg, w, step.outcome, step.now);
      WorkKeepsTable(cfg, w, LocalOf(w), step.now);
    }
  }

  lemma NextKeepsDone(cfg: Settings, ws: seq<World>, steps: seq<Step>, start: World, j: nat, l: LessonId)
    requires Behaviour(cfg, ws, steps) && 0 < j < |ws| && !steps[j - 1].Edit?
    requires ws[j - 1].order == start.order && ws[j - 1].texts == start.texts && l in start.order
    requires Done(cfg, start, ws[j - 1], l)
    ensures Done(cfg, start, ws[j], l)
  {
    StepTo(cfg, ws, steps, j);
    StepKeepsDone(cfg, start, ws[j - 1], steps[j - 1], l);
  }

  lemma {:induction false} DoneStays(cfg: Settings, ws: seq<World>, steps: seq<Step>, b: nat, i: nat, j: nat,
                                     l: LessonId)
    requires Behaviour(cfg, ws, steps) && b <= i <= j < |ws| && forall k :: b <= k < j ==> !steps[k].Edit?
    requires l in ws[b].order && Done(cfg, ws[b], ws[i], l)
    ensures Done(cfg, ws[b], ws[j], l)
    decreases j - i
  {
    if i < j {
      NoNewLessons(cfg, ws, steps, b, i);
      NextKeepsDone(cfg, ws, steps, ws[b], i + 1, l);
      DoneStays(cfg, ws, steps, b, i + 1, j, l);
    }
  }

  /** NOTHING IS UNDONE. From any state on, until somebody edits, the lessons stay as they are, every
      one has the rows it had or those of one commit for its text, and a commit is never undone:
      across crashes, failures, ends of runs and any number of further runs. */
  lemma NothingIsUndone(cfg: Settings, ws: seq<World>, steps: seq<Step>, b: nat, i: nat, j: nat, l: LessonId)
    requires Behaviour(cfg, ws, steps) && b <= i <= j < |ws| && forall k :: b <= k < j ==> !steps[k].Edit?
    requires l in ws[b].order
    ensures ws[j].order == ws[b].order && ws[j].texts == ws[b].texts
    ensures Done(cfg, ws[b], ws[j], l) || Untouched(ws[b], ws[j], l)
    ensures Done(cfg, ws[b], ws[i], l) ==> Done(cfg, ws[b], ws[j], l)
  {
    LessonsStay(cfg, ws, steps, b, j);
    if Done(cfg, ws[b], ws[i], l) {
      DoneStays(cfg, ws, steps, b, i, j, l);
    }
  }

  /** Whether a commit left the lesson's rows as it found them can be told from what it found. */
  lemma CommitLeavesIff(cfg: Settings, start: World, w: World, l: LessonId)
    requires Done(cfg, start, w, l)
    ensures var stored, pieces := RowsFor(start.rows, l), PiecesOf(cfg, start.texts, l);
      Untouched(start, w, l) <==> Exact(stored, pieces) && Distinct(pieces)
  {
    var stored, pieces := RowsFor(start.rows, l), PiecesOf(cfg, start.texts, l);
    var base: nat :| Reconciled(stored, l, pieces, base, RowsFor(w.rows, l));
    RebuiltLeavesIff(stored, l, pieces, base);
  }

  /** Nothing but an edit changes the lessons or undoes one that is chunked. */
  lemma StepKeepsTrack(cfg: Settings, start: World, w: World, step: Step)
    requires Sound(w) && UnderWay(cfg, start, w) && Enabled(w, step) && !step.Edit? && !step.Close?
    ensures UnderWay(cfg, start, After(cfg, w, step))
    ensures forall l :: l in start.order && Done(cfg, start, w, l) ==> Done(cfg, start, After(cfg, w, step), l)
  {
    forall l | l in start.order && Done(cfg, start, w, l) ensures Done(cfg, start, After(cfg, w, step), l) {
      StepKeepsDone(cfg, start, w, step, l);
    }
    match step
    case Attempt(outcome, now) => AttemptKeepsTrack(cfg, start, w, outcome, now);
    case Elsewhere(_, _) => SameRows(cfg, start, w, After(cfg, w, step), LocalOf(w));
    case StartRequest => SameRows(cfg, start, w, After(cfg, w, step), LocalOf(w));
    case CheckRequest => SameRows(cfg, start, w, After(cfg, w, step), LocalOf(w));
    case DropRequest => SameRows(cfg, start, w, After(cfg, w, step), LocalOf(w));
    case Close =>
    case Edit(_, _) =>
  }

  /** While the course is on `publishing` nobody can edit it. */
  lemma PublishingKeepsTrack(cfg: Settings, start: World, w: World, step: Step)
    requires Sound(w) && UnderWay(cfg, start, w) && Enabled(w, step) && w.status == PublishingNow
    ensures UnderWay(cfg, start, After(cfg, w, step))
    ensures forall l :: l in start.order && Done(cfg, start, w, l) ==> Done(cfg, start, After(cfg, w, step), l)
  {
    StepKeepsTrack(cfg, start, w, step);
  }

  /** Only `begin_publish` puts a course on `publishing`. */
  lemma BeginsHere(cfg: Settings, w: World, step: Step)
    requires Sound(w) && Enabled(w, step) && w.status != PublishingNow
    requires After(cfg, w, step).status == PublishingNow
    ensures UnderWay(cfg, w, After(cfg, w, step))
  {
    var next := After(cfg, w, step);
    assert step.Attempt?;
    var local := LocalOf(w);
    var work := WorkOf(cfg, w, local, step.now);
    MissedLocal(w, local);
    assert work.Work?;
    assert local.AwaitBegin?;
    MissedLocal(work.world, local);
    RecordAdvances(work.world, work.result);
    assert next.rows == w.rows && next.order == w.order && next.texts == w.texts;
    assert forall l :: l in w.order ==> DoneOrWaiting(cfg, w, next, w.order, l);
  }

  /** Only `mark_ready` makes it ready, and the rows it finds are all done. */
  lemma FinishesHere(cfg: Settings, start: World, w: World, step: Step)
    requires Sound(w) && UnderWay(cfg, start, w) && Enabled(w, step)
    requires w.status == PublishingNow && After(cfg, w, step).status == Ready
    ensures LocalOf(w) == AwaitReady(Total(cfg, start.texts, start.order))
    ensures var next := After(cfg, w, step);
            next.rows == w.rows && next.order == start.order && next.texts == start.texts
    ensures Reached(cfg, start, w, [])
  {
    var local := LocalOf(w);
    assert step.Attempt?;
    MissedLocal(w, local);
    var work := WorkOf(cfg, w, local, step.now);
    assert work.Work?;
    assert local.AwaitReady?;
    MissedLocal(work.world, local);
  }

  // ---------------------------------------------------------- the guarantee

  /** `done` has exactly the lessons `start` had, and every one of them has a row for every piece
      of its current text, in place; nothing else is left exactly when the rows at `start` held no
      two of one digest that the text still wants. */
  ghost predicate Published(cfg: Settings, start: World, done: World) {
    && done.order == start.order && done.texts == start.texts
    && forall l :: l in done.order ==> LessonPublished(cfg, start, done, l)
  }

  ghost predicate LessonPublished(cfg: Settings, start: World, done: World, l: LessonId) {
    var stored, rows, pieces := RowsFor(start.rows, l), RowsFor(done.rows, l), PiecesOf(cfg, done.texts, l);
    Covers(rows, pieces) && (Exact(rows, pieces) <==> Reconcilable(stored, pieces))
  }

  ghost predicate LessonExact(cfg: Settings, w: World, l: LessonId) {
    Exact(RowsFor(w.rows, l), PiecesOf(cfg, w.texts, l))
  }

  lemma DonePublishes(cfg: Settings, start: World, w: World, l: LessonId)
    requires TableFits(w) && w.texts == start.texts && Done(cfg, start, w, l)
    ensures LessonPublished(cfg, start, w, l)
  {
    var stored, pieces := RowsFor(start.rows, l), PiecesOf(cfg, start.texts, l);
    DoneIsSettled(cfg, start, w, l);
    var base: nat :| Reconciled(stored, l, pieces, base, RowsFor(w.rows, l));
    ReconcileIsExactIff(stored, l, pieces, base);
  }

  /** Where the publish now under way began. */
  lemma {:induction false} BeganAt(cfg: Settings, ws: seq<World>, steps: seq<Step>, i: nat) returns (b: nat)
    requires Behaviour(cfg, ws, steps) && i < |ws| && ws[i].status == PublishingNow
    ensures b < i && ws[b].status != PublishingNow
    ensures forall k :: b < k <= i ==> ws[k].status == PublishingNow
    ensures UnderWay(cfg, ws[b], ws[i])
  {
    assert Taken(cfg, ws[i - 1], steps[i - 1], ws[i]);
    AlwaysSound(cfg, ws, steps, i - 1);
    if ws[i - 1].status == PublishingNow {
      b := BeganAt(cfg, ws, steps, i - 1);
      PublishingKeepsTrack(cfg, ws[b], ws[i - 1], steps[i - 1]);
    } else {
      b := i - 1;
      BeginsHere(cfg, ws[i - 1], steps[i - 1]);
    }
  }

  /** Rows of the lessons listed (`count_for_course` counts them). */
  function RowsOf(rows: Rows, ids: seq<LessonId>): Rows {
    map id | id in rows && rows[id].lesson in ids :: rows[id]
  }

  function Held(rows: Rows, ids: seq<LessonId>): nat {
    if ids == [] then 0 else |RowsFor(rows, ids[0])| + Held(rows, ids[1..])
  }

  lemma {:induction false} HeldIsCount(rows: Rows, ids: seq<LessonId>)
    requires RepeatFree(ids)
    ensures Held(rows, ids) == |RowsOf(rows, ids)|
  {
    if ids == [] {
      assert RowsOf(rows, ids) == map[];
    } else {
      HeldIsCount(rows, ids[1..]);
      RowsOfOneMore(rows, ids[0], ids[1..]);
      assert [ids[0]] + ids[1..] == ids;
    }
  }

  lemma RowsOfOneMore(rows: Rows, l: LessonId, ids: seq<LessonId>)
    requires l !in ids
    ensures |RowsOf(rows, [l] + ids)| == |RowsOf(rows, ids)| + |RowsFor(rows, l)|
  {
    var others, here := RowsOf(rows, ids), RowsFor(rows, l);
    assert RowsOf(rows, [l] + ids).Keys == others.Keys + here.Keys;
    assert others.Keys !! here.Keys;
    assert |others.Keys + here.Keys| == |others.Keys| + |here.Keys|;
  }

  predicate Overfull(cfg: Settings, w: World, l: LessonId) {
    |PiecesOf(cfg, w.texts, l)| < |RowsFor(w.rows, l)|
  }

  lemma {:induction false} CountUpTo(cfg: Settings, w: World, ids: seq<LessonId>)
    requires forall l :: l in ids ==> |PiecesOf(cfg, w.texts, l)| <= |RowsFor(w.rows, l)|
    ensures Total(cfg, w.texts, ids) <= Held(w.rows, ids)
    ensures Total(cfg, w.texts, ids) == Held(w.rows, ids) <==> forall l :: l in ids ==> !Overfull(cfg, w, l)
  {
    if ids != [] {
      var first, rest := ids[0], ids[1..];
      assert forall l :: l in ids <==> l == first || l in rest;
      CountUpTo(cfg, w, rest);
      assert Overfull(cfg, w, first) <==> |PiecesOf(cfg, w.texts, first)| != |RowsFor(w.rows, first)|;
    }
  }

  lemma CountOne(cfg: Settings, start: World, w: World, l: LessonId)
    requires TableFits(w) && w.texts == start.texts && Done(cfg, start, w, l)
    ensures |PiecesOf(cfg, w.texts, l)| <= |RowsFor(w.rows, l)|
    ensures Overfull(cfg, w, l) <==> !LessonExact(cfg, w, l)
  {
    DoneIsSettled(cfg, start, w, l);
    SettledCount(RowsFor(w.rows, l), l, PiecesOf(cfg, w.texts, l), w.nextKey);
  }

  /** END TO END. Take any interleaving of edits, publish requests, crashes, retries and other
      courses' work. When a course becomes ready, the publish began at some earlier state, the
      status was `publishing` ever since, no lesson changed in between, and every lesson has its
      chunks. The total the run will return is no more than the rows the course holds, and equal to
      it exactly when every lesson's rows are exact. */
  lemma EndToEnd(cfg: Settings, ws: seq<World>, steps: seq<Step>, i: nat) returns (b: nat)
    requires Behaviour(cfg, ws, steps) && i < |steps|
    requires ws[i].status != Ready && ws[i + 1].status == Ready
    ensures b < i && ws[b].status != PublishingNow
    ensures forall k :: b < k <= i ==> ws[k].status == PublishingNow
    ensures Published(cfg, ws[b], ws[i + 1])
    ensures ws[i].run.Some? && LocalOf(ws[i]).AwaitReady?
    ensures var done, written := ws[i + 1], LocalOf(ws[i]).written;
      && written <= |RowsOf(done.rows, done.order)|
      && (written == |RowsOf(done.rows, done.order)| <==> forall l :: l in done.order ==> LessonExact(cfg, done, l))
  {
    assert Taken(cfg, ws[i], steps[i], ws[i + 1]);
    AlwaysSound(cfg, ws, steps, i);
    AlwaysSound(cfg, ws, steps, i + 1);
    OnlyFromPublishing(cfg, ws[i], steps[i]);
    b := BeganAt(cfg, ws, steps, i);
    FinishesHere(cfg, ws[b], ws[i], steps[i]);
    Finished(cfg, ws[b], ws[i], ws[i + 1]);
  }

  lemma OnlyFromPublishing(cfg: Settings, w: World, step: Step)
    requires Sound(w) && Enabled(w, step) && w.status != Ready && After(cfg, w, step).status == Ready
    ensures w.status == PublishingNow
  {
  }

  lemma Finished(cfg: Settings, start: World, w: World, done: World)
    requires Reached(cfg, start, w, []) && done.rows == w.rows
    requires TableFits(done) && done.order == start.order && done.texts == start.texts
    ensures Published(cfg, start, done)
    ensures var written := Total(cfg, start.texts, start.order);
      && written <= |RowsOf(done.rows, done.order)|
      && (written == |RowsOf(done.rows, done.order)| <==> forall l :: l in done.order ==> LessonExact(cfg, done, l))
  {
    forall l | l in done.order
      ensures LessonPublished(cfg, start, done, l)
      ensures |PiecesOf(cfg, done.texts, l)| <= |RowsFor(done.rows, l)|
      ensures Overfull(cfg, done, l) <==> !LessonExact(cfg, done, l)
    {
      assert DoneOrWaiting(cfg, start, w, [], l);
      SameRowsOne(cfg, start, w, done, [], l);
      DonePublishes(cfg, start, done, l);
      CountOne(cfg, start, done, l);
    }
    CountUpTo(cfg, done, done.order);
    HeldIsCount(done.rows, done.order);
  }

  /** A run that has not read its lessons yet is under way from where it stands. */
  lemma StartsHere(cfg: Settings, w: World)
    requires w.run.Some? && (LocalOf(w).AwaitBegin? || LocalOf(w).AwaitList?)
    ensures UnderWay(cfg, w, w)
  {
  }

  lemma {:induction false} StaysUnderWay(cfg: Settings, ws: seq<World>, steps: seq<Step>, b: nat, i: nat)
    requires Behaviour(cfg, ws, steps) && b <= i < |ws|
    requires ws[b].run.Some? && (LocalOf(ws[b]).AwaitBegin? || LocalOf(ws[b]).AwaitList?)
    requires forall k :: b <= k < i ==> !steps[k].Edit? && !steps[k].Close?
    ensures UnderWay(cfg, ws[b], ws[i])
    decreases i
  {
    if i == b {
      StartsHere(cfg, ws[b]);
    } else {
      StaysUnderWay(cfg, ws, steps, b, i - 1);
      StepTo(cfg, ws, steps, i);
      assert !steps[i - 1].Edit? && !steps[i - 1].Close?;
      StepKeepsTrack(cfg, ws[b], ws[i - 1], steps[i - 1]);
    }
  }

  /** REPUBLISH TOO. A run of either kind during which nobody edits, from before it lists the lessons
      until it has returned, leaves the course published as it found it, with the same law for the
      total it returns; whatever crashes, and whatever other courses do. */
  lemma UneditedRun(cfg: Settings, ws: seq<World>, steps: seq<Step>, b: nat, i: nat)
    requires Behaviour(cfg, ws, steps) && b <= i < |ws|
    requires ws[b].run.Some? && (LocalOf(ws[b]).AwaitBegin? || LocalOf(ws[b]).AwaitList?)
    requires forall k :: b <= k < i ==> !steps[k].Edit? && !steps[k].Close?
    requires ws[i].run.Some? && LocalOf(ws[i]).Returned?
    ensures Published(cfg, ws[b], ws[i])
    ensures var done, written := ws[i], LocalOf(ws[i]).written;
      && written <= |RowsOf(done.rows, done.order)|
      && (written == |RowsOf(done.rows, done.order)| <==> forall l :: l in done.order ==> LessonExact(cfg, done, l))
  {
    StaysUnderWay(cfg, ws, steps, b, i);
    AlwaysSound(cfg, ws, steps, i);
    Finished(cfg, ws[b], ws[i], ws[i]);
  }
}
