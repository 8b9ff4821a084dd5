/** When a publish succeeds: told from the stored rows and the texts before it starts. */
module PublishOutcome {
  import opened Options
  import opened ChunkStore
  import opened Publishing
  import opened PublishWorkflow
  import opened PublishProtocol
  import opened PublishRuns
  import opened PublishRepeats

  /** No row of the lesson that its text still wants, but that is not the last of its digest, stands
      at a place the text fills. */
  ghost predicate Chunkable(cfg: Settings, w: World, l: LessonId) {
    l in w.texts ==> forall id :: !Stray(RowsFor(w.rows, l), PiecesOf(cfg, w.texts, l), id)
  }

  ghost predicate AllChunkable(cfg: Settings, w: World, ids: seq<LessonId>) {
    forall l :: l in ids ==> Chunkable(cfg, w, l)
  }

  lemma ChunkableIff(cfg: Settings, w: World, l: LessonId)
    requires TableFits(w)
    ensures Chunkable(cfg, w, l) <==> ChunkWork(cfg, w, l).Work?
  {
    var stored, pieces := RowsFor(w.rows, l), PiecesOf(cfg, w.texts, l);
    RowsForValid(w.rows, l, w.nextKey);
    AfterChunkingFrame(w.rows, l, pieces, w.nextKey);
    AcceptedIffNoStray(stored, l, pieces, w.nextKey);
  }

  lemma SameChunkable(cfg: Settings, w: World, next: World, l: LessonId)
    requires next.texts == w.texts && RowsFor(next.rows, l) == RowsFor(w.rows, l)
    ensures Chunkable(cfg, next, l) <==> Chunkable(cfg, w, l)
  {
  }

  lemma SameAllChunkable(cfg: Settings, w: World, next: World, ids: seq<LessonId>)
    requires next.texts == w.texts && forall l :: l in ids ==> RowsFor(next.rows, l) == RowsFor(w.rows, l)
    ensures AllChunkable(cfg, next, ids) <==> AllChunkable(cfg, w, ids)
  {
    forall l | l in ids ensures Chunkable(cfg, next, l) <==> Chunkable(cfg, w, l) {
      SameChunkable(cfg, w, next, l);
    }
  }

  /** The lessons a run that stands at `local` still has to chunk. */
  function StillToChunk(w: World, local: Local): seq<LessonId> {
    match local
    case AwaitBegin => w.order
    case AwaitList(_) => w.order
    case AwaitChunk(_, todo, _) => todo
    case _ => []
  }

  /** The run is not failing, and no lesson it still has to chunk will be refused. */
  ghost predicate CanSucceed(cfg: Settings, w: World, local: Local) {
    !local.AwaitFailed? && !local.Raised? && AllChunkable(cfg, w, StillToChunk(w, local))
  }

  lemma OneLessToChunk(cfg: Settings, w: World, todo: seq<LessonId>)
    requires TableFits(w) && todo != [] && RepeatFree(todo) && ChunkWork(cfg, w, todo[0]).Work?
    ensures AllChunkable(cfg, ChunkWork(cfg, w, todo[0]).world, todo[1..]) <==> AllChunkable(cfg, w, todo)
  {
    var next, rest := ChunkWork(cfg, w, todo[0]).world, todo[1..];
    ChunkableIff(cfg, w, todo[0]);
    forall l | l in rest ensures RowsFor(next.rows, l) == RowsFor(w.rows, l) {
      ChunkFrame(cfg, w, todo[0], l);
    }
    SameAllChunkable(cfg, w, next, rest);
    assert forall l :: l in todo <==> l == todo[0] || l in rest;
  }

  lemma OutlookAtLoop(cfg: Settings, w: World, isFirst: bool, todo: seq<LessonId>, written: nat)
    ensures CanSucceed(cfg, w, AtLoop(isFirst, todo, written)) <==> AllChunkable(cfg, w, todo)
  {
  }

  /** A lesson that gets through leaves the outlook as it was. */
  lemma ChunkKeepsOutlook(cfg: Settings, w: World, local: Local)
    requires TableFits(w) && TodoFits(local, w.mine) && local.AwaitChunk? && ChunkWork(cfg, w, local.todo[0]).Work?
    ensures var work := ChunkWork(cfg, w, local.todo[0]);
      CanSucceed(cfg, work.world, Advance(local, work.result)) <==> CanSucceed(cfg, w, local)
  {
    var work := ChunkWork(cfg, w, local.todo[0]);
    assert Advance(local, work.result) == AtLoop(local.isFirst, local.todo[1..], local.written + work.result.count);
    OneLessToChunk(cfg, w, local.todo);
    OutlookAtLoop(cfg, work.world, local.isFirst, local.todo[1..], local.written + work.result.count);
    assert CanSucceed(cfg, w, local) <==> AllChunkable(cfg, w, local.todo);
  }

  /** So does every other pending activity. */
  lemma WorkKeepsOutlook(cfg: Settings, w: World, local: Local, now: Time)
    requires TableFits(w) && TodoFits(local, w.mine) && WorkOf(cfg, w, local, now).Work?
    ensures var work := WorkOf(cfg, w, local, now);
      CanSucceed(cfg, work.world, Advance(local, work.result)) <==> CanSucceed(cfg, w, local)
  {
    match local
    case AwaitChunk(_, _, _) => ChunkKeepsOutlook(cfg, w, local);
    case AwaitList(isFirst) => OutlookAtLoop(cfg, w, isFirst, w.order, 0);
    case AwaitBegin => SameAllChunkable(cfg, w, w.(status := Begun(w.status)), w.order);
    case _ =>
  }

  /** One that raises was never going to get through. */
  lemma RefusalKeepsOutlook(cfg: Settings, w: World, local: Local)
    requires TableFits(w) && TodoFits(local, w.mine) && local.AwaitChunk? && ChunkWork(cfg, w, local.todo[0]).Raises?
    ensures !CanSucceed(cfg, w, local)
  {
    ChunkableIff(cfg, w, local.todo[0]);
  }

  lemma MissKeepsFailing(cfg: Settings, w: World, local: Local)
    requires w.run.Some? && local == LocalOf(w) && local.AwaitChunk? && !CanSucceed(cfg, w, local)
    ensures !CanSucceed(cfg, Missed(w, local), LocalOf(Missed(w, local)))
  {
    MissedLocal(w, local);
    SameAllChunkable(cfg, w, Missed(w, local), local.todo);
  }

  lemma RecordKeepsOutlook(cfg: Settings, w: World, result: PublishWorkflow.Result)
    requires w.run.Some?
    ensures var next := Record(w, result);
      CanSucceed(cfg, next, LocalOf(next)) <==> CanSucceed(cfg, w, Advance(LocalOf(w), result))
  {
    var next := Record(w, result);
    RecordAdvances(w, result);
    SameAllChunkable(cfg, w, next, StillToChunk(next, LocalOf(next)));
  }

  lemma AttemptKeepsOutlook(cfg: Settings, w: World, now: Time)
    requires Sound(w) && Enabled(w, Attempt(Recorded, now))
    ensures var next := Attempted(cfg, w, Recorded, now);
      && next.run.Some? && (CanSucceed(cfg, next, LocalOf(next)) <==> CanSucceed(cfg, w, LocalOf(w)))
  {
    var local := LocalOf(w);
    var work := WorkOf(cfg, w, local, now);
    if work.Raises? {
      RefusalKeepsOutlook(cfg, w, local);
      MissKeepsFailing(cfg, w, local);
    } else {
      WorkKeepsOutlook(cfg, w, local, now);
      RecordKeepsOutlook(cfg, work.world, work.result);
    }
  }

  /** SUCCEEDS OR FAILS. From every sound state with a live run, whatever crashes and refusals came
      before, a worker that stays up ends the run, and the run returns if and only if it is not failing
      already and every lesson it still has to chunk would be accepted as its rows stand now. */
  lemma {:induction false} SucceedsIff(cfg: Settings, w: World, now: Time) returns (n: nat)
    requires Sound(w) && w.run.Some?
    ensures var end := Driven(cfg, w, now, n);
      && Ended(end) && (LocalOf(end).Returned? <==> CanSucceed(cfg, w, LocalOf(w)))
      && (LocalOf(end).Returned? ==> end.status == Ready)
    decreases StagesLeft(LocalOf(w)), LessonsLeft(LocalOf(w)), AttemptsLeft(w)
  {
    if Ended(w) {
      n := 0;
    } else {
      AttemptAdvances(cfg, w, now);
      AttemptKeepsOutlook(cfg, w, now);
      StepKeepsSound(cfg, w, Attempt(Recorded, now));
      n := SucceedsIff(cfg, After(cfg, w, Attempt(Recorded, now)), now);
      n := n + 1;
    }
  }

  /** A course becomes ready under such a worker only by a run that returns. */
  lemma ReadyByReturning(cfg: Settings, w: World, now: Time)
    requires Sound(w) && Enabled(w, Attempt(Recorded, now)) && w.status != Ready
    ensures var next := Attempted(cfg, w, Recorded, now); next.status == Ready ==> LocalOf(next).Returned?
  {
    var work := WorkOf(cfg, w, LocalOf(w), now);
    if work.Work? {
      RecordAdvances(work.world, work.result);
    }
  }

  lemma {:induction false} DrivenStatus(cfg: Settings, w: World, now: Time, n: nat)
    requires Sound(w) && w.run.Some?
    ensures var end := Driven(cfg, w, now, n);
      && Sound(end) && end.run.Some?
      && (w.status == Ready ==> end.status == Ready)
      && (w.status != Ready && end.status == Ready ==> LocalOf(end).Returned?)
    decreases n
  {
    if n > 0 && Enabled(w, Attempt(Recorded, now)) {
      var next := After(cfg, w, Attempt(Recorded, now));
      StepKeepsSound(cfg, w, Attempt(Recorded, now));
      AttemptKeepsOutlook(cfg, w, now);
      DrivenStatus(cfg, next, now, n - 1);
      if w.status == Ready {
        ReadyStep(cfg, w, Attempt(Recorded, now));
      } else {
        ReadyByReturning(cfg, w, now);
      }
    }
  }

  lemma EndStatus(w: World)
    requires Sound(w) && Ended(w)
    ensures (LocalOf(w).Returned? ==> w.status == Ready) && (w.status == Ready || w.status == Failed)
  {
  }

  lemma DrivenEnd(cfg: Settings, w: World, now: Time, n: nat)
    requires Sound(w) && w.run.Some? && Ended(Driven(cfg, w, now, n))
    ensures var end := Driven(cfg, w, now, n);
      end.status == if w.status == Ready || LocalOf(end).Returned? then Ready else Failed
  {
    DrivenStatus(cfg, w, now, n);
    EndStatus(Driven(cfg, w, now, n));
  }

  lemma StartOutlook(cfg: Settings, w: World)
    requires Sound(w) && w.run.None? && w.admitted > 0
    ensures var start := After(cfg, w, StartRequest);
      && Sound(start) && start.status == w.status && start.run.Some?
      && (CanSucceed(cfg, start, LocalOf(start)) <==> AllChunkable(cfg, w, w.order))
  {
    var start := After(cfg, w, StartRequest);
    StepKeepsSound(cfg, w, StartRequest);
    assert LocalOf(start) == AwaitBegin;
    SameAllChunkable(cfg, w, start, w.order);
  }

  /** So a publish that is started now, with no other one live, makes or keeps the course ready if
      and only if no lesson of the course will be refused. */
  lemma PublishSucceedsIff(cfg: Settings, w: World, now: Time) returns (n: nat)
    requires Sound(w) && w.run.None? && w.admitted > 0
    ensures var end := Driven(cfg, After(cfg, w, StartRequest), now, n);
      && Ended(end) && (LocalOf(end).Returned? <==> AllChunkable(cfg, w, w.order))
      && end.status == if w.status == Ready || AllChunkable(cfg, w, w.order) then Ready else Failed
  {
    var start := After(cfg, w, StartRequest);
    StartOutlook(cfg, w);
    n := SucceedsIff(cfg, start, now);
    DrivenEnd(cfg, start, now, n);
  }

  /** Nobody else can bring it about: an unedited run of either kind that returns found a course that
      way, whatever crashed, was retried or was asked for besides. */
  lemma ReturnedMeansChunkable(cfg: Settings, ws: seq<World>, steps: seq<Step>, b: nat, i: nat)
    requires Behaviour(cfg, ws, steps) && b <= i < |ws|
    requires ws[b].run.Some? && (LocalOf(ws[b]).AwaitBegin? || LocalOf(ws[b]).AwaitList?)
    requires forall k :: b <= k < i ==> !steps[k].Edit? && !steps[k].Close?
    requires ws[i].run.Some? && LocalOf(ws[i]).Returned?
    ensures AllChunkable(cfg, ws[b], ws[b].order)
  {
    StaysUnderWay(cfg, ws, steps, b, i);
    forall l | l in ws[b].order ensures Chunkable(cfg, ws[b], l) {
      assert DoneOrWaiting(cfg, ws[b], ws[i], [], l);
      DoneWasChunkable(cfg, ws[b], ws[i], l);
    }
  }

  lemma DoneWasChunkable(cfg: Settings, start: World, w: World, l: LessonId)
    requires Done(cfg, start, w, l)
    ensures Chunkable(cfg, start, l)
  {
    var stored, pieces := RowsFor(start.rows, l), PiecesOf(cfg, start.texts, l);
    var base: nat :| Reconciled(stored, l, pieces, base, RowsFor(w.rows, l));
    AcceptedIffNoStray(stored, l, pieces, base);
  }

  /** NEVER FAILS. If no text is ever cut into repeating pieces, then from every state a behaviour can
      reach a worker that stays up makes a run return, unless it was failing already. */
  lemma RunsReturn(cfg: Settings, ws: seq<World>, steps: seq<Step>, i: nat, now: Time) returns (n: nat)
    requires Behaviour(cfg, ws, steps) && NeverRepeats(cfg, ws) && i < |ws|
    requires ws[i].run.Some? && !LocalOf(ws[i]).AwaitFailed? && !LocalOf(ws[i]).Raised?
    ensures var end := Driven(cfg, ws[i], now, n);
      Ended(end) && LocalOf(end).Returned? && end.status == Ready
  {
    AlwaysSound(cfg, ws, steps, i);
    forall l | l in StillToChunk(ws[i], LocalOf(ws[i])) ensures Chunkable(cfg, ws[i], l) {
      NeverRefused(cfg, ws, steps, i, l);
      ChunkableIff(cfg, ws[i], l);
    }
    n := SucceedsIff(cfg, ws[i], now);
  }
}
