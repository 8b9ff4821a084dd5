/** What the records of a course keep to in every behaviour: the history of its runs, the requests
    between check and start, and the chunks of lessons that are gone. */
module PublishRecords {
  import opened Options
  import opened Chunking
  import opened ChunkStore
  import opened Publishing
  import opened PublishWorkflow
  import opened PublishProtocol
  import opened PublishRuns

  lemma StepAppends(cfg: Settings, w: World, step: Step)
    requires Enabled(w, step) && w.run.Some? && !step.Close?
    ensures var next := After(cfg, w, step);
      next.run.Some? && w.run.value.history <= next.run.value.history
  {
  }

  /** ONE RUN AT A TIME. Until a live run has ended it stays the live one, whatever is requested, and
      what it has recorded is only added to. */
  lemma {:induction false} HistoryOnlyGrows(cfg: Settings, ws: seq<World>, steps: seq<Step>, i: nat, j: nat)
    requires Behaviour(cfg, ws, steps) && i <= j < |ws| && ws[i].run.Some?
    requires forall k :: i <= k < j ==> !steps[k].Close?
    ensures ws[j].run.Some? && ws[i].run.value.history <= ws[j].run.value.history
    decreases j
  {
    if i < j {
      HistoryOnlyGrows(cfg, ws, steps, i, j - 1);
      StepTo(cfg, ws, steps, j);
      StepAppends(cfg, ws[j - 1], steps[j - 1]);
    }
  }

  /** Meanwhile other courses may write: a row for a lesson the course never had is always let in, at a
      place of that lesson that is free. */
  lemma OthersWrite(w: World, chunk: Chunk)
    requires TableFits(w) && chunk.lesson !in w.mine && RowTrue(chunk)
    requires chunk.tokenCount == Estimate(chunk.content)
    requires forall id :: id in RowsFor(w.rows, chunk.lesson) ==> w.rows[id].position != chunk.position
    ensures Enabled(w, Elsewhere(w.rows[w.nextKey := chunk], w.nextKey + 1))
  {
    var rows := w.rows[w.nextKey := chunk];
    forall l | l in w.mine ensures RowsFor(rows, l) == RowsFor(w.rows, l) {
      assert w.nextKey !in RowsFor(rows, l);
    }
    forall a, b | a in rows && b in rows && a != b && rows[a].lesson == rows[b].lesson
      ensures rows[a].position != rows[b].position
    {
      assert a != w.nextKey && rows[a].lesson == chunk.lesson ==> a in RowsFor(w.rows, chunk.lesson);
      assert b != w.nextKey && rows[b].lesson == chunk.lesson ==> b in RowsFor(w.rows, chunk.lesson);
    }
  }

  // --------------------------------------------------- requests under way

  /** What a step does to the number of requests between their check and their start. */
  function Change(step: Step): int {
    match step
    case CheckRequest => 1
    case StartRequest => -1
    case DropRequest => -1
    case _ => 0
  }

  function Balance(steps: seq<Step>, n: nat): int
    requires n <= |steps|
  {
    if n == 0 then 0 else Balance(steps, n - 1) + Change(steps[n - 1])
  }

  lemma StepBalances(cfg: Settings, w: World, step: Step)
    requires Sound(w) && Enabled(w, step)
    ensures After(cfg, w, step).admitted == w.admitted + Change(step)
  {
    if step.Attempt? {
      AttemptedTable(cfg, w, step.outcome, step.now);
      var work := WorkOf(cfg, w, LocalOf(w), step.now);
      assert work.Work? ==> work.world.admitted == w.admitted;
    }
  }

  /** Every request that passed its check starts or goes away, at most once, and none passes while the
      course is on `publishing`. */
  lemma {:induction false} RequestsBalance(cfg: Settings, ws: seq<World>, steps: seq<Step>, i: nat)
    requires Behaviour(cfg, ws, steps) && i < |ws|
    ensures ws[i].admitted == Balance(steps, i)
    ensures i < |steps| && steps[i].CheckRequest? ==> ws[i].status != PublishingNow
  {
    assert i < |steps| ==> Taken(cfg, ws[i], steps[i], ws[i + 1]);
    if i > 0 {
      RequestsBalance(cfg, ws, steps, i - 1);
      StepTo(cfg, ws, steps, i);
      StepBalances(cfg, ws[i - 1], steps[i - 1]);
    }
  }

  /** Whatever has become of the course since its check, a request may start; it begins a run if none is
      live, and otherwise leaves the live one alone. */
  lemma StartsWhenever(cfg: Settings, w: World)
    requires w.admitted > 0
    ensures Enabled(w, StartRequest)
    ensures After(cfg, w, StartRequest).run == if w.run.None? then Some(Run([], 0)) else w.run
  {
  }

  // ------------------------------------------------------ lessons that are gone

  /** A lesson the course had and has no longer. */
  predicate Gone(w: World, l: LessonId) {
    l in w.mine && l !in w.texts
  }

  predicate NoOrphans(w: World) {
    forall id :: id in w.rows ==> !Gone(w, w.rows[id].lesson)
  }

  lemma OrphansAre(w: World)
    ensures NoOrphans(w) <==> forall l :: Gone(w, l) ==> RowsFor(w.rows, l) == map[]
  {
    if forall l :: Gone(w, l) ==> RowsFor(w.rows, l) == map[] {
      forall id | id in w.rows ensures !Gone(w, w.rows[id].lesson) {
        assert id in RowsFor(w.rows, w.rows[id].lesson);
      }
    }
  }

  lemma WorkKeepsOrphansOut(cfg: Settings, w: World, local: Local, now: Time)
    requires TableFits(w) && NoOrphans(w) && WorkOf(cfg, w, local, now).Work?
    ensures NoOrphans(WorkOf(cfg, w, local, now).world)
  {
    var next := WorkOf(cfg, w, local, now).world;
    OrphansAre(w);
    if local.AwaitChunk? {
      forall l | Gone(next, l) ensures RowsFor(next.rows, l) == map[] {
        if local.todo[0] in w.texts {
          ChunkFrame(cfg, w, local.todo[0], l);
        }
      }
    }
    OrphansAre(next);
  }

  lemma SameOrphans(w: World, next: World)
    requires NoOrphans(w) && next.texts == w.texts && next.mine == w.mine
    requires forall l :: l in w.mine ==> RowsFor(next.rows, l) == RowsFor(w.rows, l)
    ensures NoOrphans(next)
  {
    OrphansAre(w);
    OrphansAre(next);
  }

  lemma EditKeepsOrphansOut(w: World, order: seq<LessonId>, texts: map<LessonId, Option<string>>)
    requires NoOrphans(w) && NewIdsAreFresh(w, texts)
    ensures NoOrphans(Edited(w, order, texts))
  {
  }

  lemma StepKeepsOrphansOut(cfg: Settings, w: World, step: Step)
    requires Sound(w) && Enabled(w, step) && NoOrphans(w)
    ensures NoOrphans(After(cfg, w, step))
  {
    var next := After(cfg, w, step);
    match step
    case Attempt(outcome, now) =>
      AttemptedTable(cfg, w, outcome, now);
      var work := WorkOf(cfg, w, LocalOf(w), now);
      if work.Work? && outcome != NotDone {
        WorkKeepsOrphansOut(cfg, w, LocalOf(w), now);
        SameOrphans(work.world, next);
      } else {
        SameOrphans(w, next);
      }
    case Edit(order, texts) => EditKeepsOrphansOut(w, order, texts);
    case _ => SameOrphans(w, next);
  }

  lemma {:induction false} NeverOrphans(cfg: Settings, ws: seq<World>, steps: seq<Step>, i: nat)
    requires Behaviour(cfg, ws, steps) && i < |ws|
    ensures NoOrphans(ws[i])
  {
    if i > 0 {
      NeverOrphans(cfg, ws, steps, i - 1);
      StepTo(cfg, ws, steps, i);
      StepKeepsOrphansOut(cfg, ws[i - 1], steps[i - 1]);
    }
  }

  /** NO ORPHANS. In every reachable state a lesson that was removed has no chunks, even if a run still
      had it to chunk. */
  lemma RemovedLessonsHaveNone(cfg: Settings, ws: seq<World>, steps: seq<Step>, i: nat)
    requires Behaviour(cfg, ws, steps) && i < |ws|
    ensures var w := ws[i]; forall id :: id in w.rows && w.rows[id].lesson in w.mine ==> w.rows[id].lesson in w.texts
  {
    NeverOrphans(cfg, ws, steps, i);
  }
}
