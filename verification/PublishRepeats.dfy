/** What repeated chunks do to a publish: without them every publish is exact and no attempt is
    refused; with them a publish that fails, or loses one report, cannot succeed before an edit. */
module PublishRepeats {
  import opened Options
  import opened ChunkStore
  import opened Publishing
  import opened PublishWorkflow
  import opened PublishProtocol
  import opened PublishRuns

  /** Every text the course ever has is cut into pairwise different pieces. */
  ghost predicate NeverRepeats(cfg: Settings, ws: seq<World>) {
    forall i :: 0 <= i < |ws| ==> NoRepeats(cfg, ws[i])
  }

  ghost predicate NoRepeats(cfg: Settings, w: World) {
    forall l :: l in w.texts ==> Distinct(PiecesOf(cfg, w.texts, l))
  }

  /** No two of a lesson's rows share a digest. */
  predicate Apart(rows: Rows) {
    forall a, b :: a in rows && b in rows && a != b ==> rows[a].contentHash != rows[b].contentHash
  }

  ghost predicate AllApart(w: World) {
    forall l :: l in w.texts ==> Apart(RowsFor(w.rows, l))
  }

  lemma ApartRebuilds(stored: Rows, l: LessonId, pieces: seq<string>, base: nat)
    requires ValidStored(stored, l, base) && Apart(stored) && Distinct(pieces)
    ensures var out := Rebuilt(stored, l, pieces, base);
            UniquePositions(out) && Exact(out, pieces) && Apart(out)
  {
    ReconcileIsExactIff(stored, l, pieces, base);
    RebuiltRows(stored, l, pieces, base);
    ExactIsApart(Rebuilt(stored, l, pieces, base), l, pieces);
  }

  lemma ExactIsApart(rows: Rows, l: LessonId, pieces: seq<string>)
    requires Exact(rows, pieces) && Distinct(pieces)
    requires forall id :: id in rows ==> RowTrue(rows[id]) && rows[id].lesson == l
    ensures Apart(rows)
  {
  }

  lemma ChunkKeepsApart(cfg: Settings, w: World, l: LessonId)
    requires TableFits(w) && NoRepeats(cfg, w) && AllApart(w)
    ensures ChunkWork(cfg, w, l).Work? && AllApart(ChunkWork(cfg, w, l).world)
  {
    if l in w.texts {
      var stored, pieces := RowsFor(w.rows, l), PiecesOf(cfg, w.texts, l);
      RowsForValid(w.rows, l, w.nextKey);
      ApartRebuilds(stored, l, pieces, w.nextKey);
      AfterChunkingFrame(w.rows, l, pieces, w.nextKey);
      var next := ChunkWork(cfg, w, l).world;
      forall other | other in next.texts ensures Apart(RowsFor(next.rows, other)) {
        if other != l {
          ChunkFrame(cfg, w, l, other);
        }
      }
    }
  }

  lemma EditKeepsApart(w: World, order: seq<LessonId>, texts: map<LessonId, Option<string>>)
    requires AllApart(w) && NewIdsAreFresh(w, texts)
    ensures AllApart(Edited(w, order, texts))
  {
    var next := Edited(w, order, texts);
    forall l, a, b | l in texts && a in RowsFor(next.rows, l) && b in RowsFor(next.rows, l) && a != b
      ensures next.rows[a].contentHash != next.rows[b].contentHash
    {
      assert l in w.texts;
      assert a in RowsFor(w.rows, l) && b in RowsFor(w.rows, l);
    }
  }

  lemma WorkKeepsApart(cfg: Settings, w: World, local: Local, now: Time)
    requires TableFits(w) && NoRepeats(cfg, w) && AllApart(w)
    ensures WorkOf(cfg, w, local, now).Work? ==> AllApart(WorkOf(cfg, w, local, now).world)
  {
    if local.AwaitChunk? && local.todo != [] {
      ChunkKeepsApart(cfg, w, local.todo[0]);
    }
  }

  lemma AttemptKeepsApart(cfg: Settings, w: World, outcome: Outcome, now: Time)
    requires w.run.Some? && TableFits(w) && NoRepeats(cfg, w) && AllApart(w)
    ensures AllApart(Attempted(cfg, w, outcome, now))
  {
    var local := LocalOf(w);
    var work := WorkOf(cfg, w, local, now);
    WorkKeepsApart(cfg, w, local, now);
    var done := if work.Raises? || outcome == NotDone then w else work.world;
    var next := Attempted(cfg, w, outcome, now);
    assert next.rows == done.rows && next.texts == done.texts;
    SameTableApart(done, next);
  }

  lemma SameTableApart(w: World, next: World)
    requires AllApart(w) && next.rows == w.rows && next.texts == w.texts
    ensures AllApart(next)
  {
  }

  lemma StepKeepsApart(cfg: Settings, w: World, step: Step)
    requires Sound(w) && Enabled(w, step) && NoRepeats(cfg, w) && AllApart(w)
    ensures AllApart(After(cfg, w, step))
  {
    match step
    case Attempt(outcome, now) => AttemptKeepsApart(cfg, w, outcome, now);
    case Edit(order, texts) => EditKeepsApart(w, order, texts);
    case _ =>
  }

  lemma {:induction false} AlwaysApart(cfg: Settings, ws: seq<World>, steps: seq<Step>, i: nat)
    requires Behaviour(cfg, ws, steps) && NeverRepeats(cfg, ws) && i < |ws|
    ensures AllApart(ws[i])
  {
    if i > 0 {
      AlwaysApart(cfg, ws, steps, i - 1);
      AlwaysSound(cfg, ws, steps, i - 1);
      assert Taken(cfg, ws[i - 1], steps[i - 1], ws[i]);
      assert NoRepeats(cfg, ws[i - 1]);
      StepKeepsApart(cfg, ws[i - 1], steps[i - 1]);
    }
  }

  /** EXACT PUBLISH. If no text is ever cut into repeating pieces, then whenever the course becomes
      ready every lesson's rows are exactly the pieces of its current text, in order, and the total
      the run returns is the number of rows the course holds. */
  lemma ExactPublish(cfg: Settings, ws: seq<World>, steps: seq<Step>, i: nat)
    requires Behaviour(cfg, ws, steps) && NeverRepeats(cfg, ws) && i < |steps|
    requires ws[i].status != Ready && ws[i + 1].status == Ready
    ensures var done := ws[i + 1]; forall l :: l in done.order ==> LessonExact(cfg, done, l)
    ensures ws[i].run.Some? && LocalOf(ws[i]).AwaitReady?
    ensures LocalOf(ws[i]).written == |RowsOf(ws[i + 1].rows, ws[i + 1].order)|
  {
    var b := EndToEnd(cfg, ws, steps, i);
    AlwaysApart(cfg, ws, steps, b);
    AlwaysSound(cfg, ws, steps, b);
    var done := ws[i + 1];
    forall l | l in done.order ensures LessonExact(cfg, done, l) {
      assert l in ws[b].texts && LessonPublished(cfg, ws[b], done, l);
      assert Reconcilable(RowsFor(ws[b].rows, l), PiecesOf(cfg, done.texts, l));
    }
  }

  /** NEVER REFUSED. Under the same condition no chunking attempt, first or repeated, is turned
      down by the position constraint. */
  lemma NeverRefused(cfg: Settings, ws: seq<World>, steps: seq<Step>, i: nat, l: LessonId)
    requires Behaviour(cfg, ws, steps) && NeverRepeats(cfg, ws) && i < |ws|
    ensures ChunkWork(cfg, ws[i], l).Work?
  {
    AlwaysApart(cfg, ws, steps, i);
    AlwaysSound(cfg, ws, steps, i);
    ChunkKeepsApart(cfg, ws[i], l);
  }
}
