/** What a publish that fails leaves behind. */
module PublishFailures {
  import opened Options
  import opened Chunking
  import opened ChunkStore
  import opened Publishing
  import opened PublishWorkflow
  import opened PublishProtocol
  import opened PublishRuns
  import opened PublishOutcome
  import opened PublishBlocked

  predicate Failing(w: World) {
    w.run.Some? && (LocalOf(w).AwaitFailed? || LocalOf(w).Raised?)
  }

  /** The steps can be taken from `w`, one after the other, and end in `end`. */
  ghost predicate Leads(cfg: Settings, w: World, steps: seq<Step>, end: World)
    decreases |steps|
  {
    if steps == [] then end == w
    else Enabled(w, steps[0]) && Leads(cfg, After(cfg, w, steps[0]), steps[1..], end)
  }

  /** One step, then the rest. */
  lemma StepThen(cfg: Settings, w: World, step: Step, steps: seq<Step>, end: World)
    requires Enabled(w, step) && Leads(cfg, After(cfg, w, step), steps, end)
    ensures Leads(cfg, w, [step] + steps, end)
  {
    assert ([step] + steps)[1..] == steps;
  }

  /** Within one run, and nobody edits. */
  predicate Within(steps: seq<Step>) {
    forall k :: 0 <= k < |steps| ==> !steps[k].Edit? && !steps[k].Close?
  }

  // --------------------------------------------------- where a failing run stands

  /** The lessons before the `k`th are chunked, those after it are as they were. */
  ghost predicate StandsAt(cfg: Settings, start: World, w: World, k: nat) {
    forall i :: 0 <= i < |start.order| ==> StandsOne(cfg, start, w, k, i)
  }

  ghost predicate StandsOne(cfg: Settings, start: World, w: World, k: nat, i: nat)
    requires i < |start.order|
  {
    if i < k then Done(cfg, start, w, start.order[i])
    else if i == k then DoneOrUntouched(cfg, start, w, start.order[i])
    else Untouched(start, w, start.order[i])
  }

  /** The lesson a run at `local` is at. */
  predicate FitsPlace(local: Local, order: seq<LessonId>, k: nat) {
    match local
    case AwaitBegin => k == 0
    case AwaitList(_) => k == 0
    case AwaitChunk(_, todo, _) => k < |order| && todo == order[k..]
    case AwaitFailed => k < |order|
    case Raised(_) => k < |order|
    case _ => k == |order|
  }

  /** A run that found the course as `start`, no lesson having changed since, and is at the `k`th. */
  ghost predicate PlacedAt(cfg: Settings, start: World, w: World, k: nat) {
    && w.run.Some? && w.order == start.order && w.texts == start.texts
    && FitsPlace(LocalOf(w), start.order, k) && StandsAt(cfg, start, w, k)
  }

  lemma SameStandsOne(cfg: Settings, start: World, w: World, next: World, k: nat, i: nat)
    requires i < |start.order| && StandsOne(cfg, start, w, k, i)
    requires RowsFor(next.rows, start.order[i]) == RowsFor(w.rows, start.order[i])
    ensures StandsOne(cfg, start, next, k, i)
  {
    if DoneOrUntouched(cfg, start, w, start.order[i]) {
      SameTableDone(cfg, start, w, next, start.order[i]);
    }
  }

  lemma SameStands(cfg: Settings, start: World, w: World, next: World, k: nat)
    requires StandsAt(cfg, start, w, k)
    requires forall l :: l in start.order ==> RowsFor(next.rows, l) == RowsFor(w.rows, l)
    ensures StandsAt(cfg, start, next, k)
  {
    forall i | 0 <= i < |start.order| ensures StandsOne(cfg, start, next, k, i) {
      assert StandsOne(cfg, start, w, k, i);
      SameStandsOne(cfg, start, w, next, k, i);
    }
  }

  lemma CommitDoesHere(cfg: Settings, start: World, w: World, k: nat)
    requires TableFits(w) && w.texts == start.texts && w.order == start.order && k < |start.order|
    requires StandsOne(cfg, start, w, k, k) && ChunkWork(cfg, w, start.order[k]).Work?
    ensures Done(cfg, start, ChunkWork(cfg, w, start.order[k]).world, start.order[k])
  {
    CommitDoes(cfg, start, w, start.order[k]);
  }

  lemma CommitStandsOne(cfg: Settings, start: World, w: World, k: nat, i: nat)
    requires TableFits(w) && w.order == start.order && k < |start.order|
    requires i < |start.order| && i != k && StandsOne(cfg, start, w, k, i) && ChunkWork(cfg, w, start.order[k]).Work?
    ensures StandsOne(cfg, start, ChunkWork(cfg, w, start.order[k]).world, k, i)
  {
    ChunkFrame(cfg, w, start.order[k], start.order[i]);
    SameStandsOne(cfg, start, w, ChunkWork(cfg, w, start.order[k]).world, k, i);
  }

  /** Committing the lesson it is at puts the run at the next, or leaves it there. */
  lemma CommitStands(cfg: Settings, start: World, w: World, k: nat)
    requires TableFits(w) && w.texts == start.texts && w.order == start.order && k < |start.order|
    requires StandsAt(cfg, start, w, k) && ChunkWork(cfg, w, start.order[k]).Work?
    ensures StandsAt(cfg, start, ChunkWork(cfg, w, start.order[k]).world, k)
    ensures StandsAt(cfg, start, ChunkWork(cfg, w, start.order[k]).world, k + 1)
  {
    var next := ChunkWork(cfg, w, start.order[k]).world;
    assert StandsOne(cfg, start, w, k, k);
    CommitDoesHere(cfg, start, w, k);
    forall i | 0 <= i < |start.order| ensures StandsOne(cfg, start, next, k, i) {
      assert StandsOne(cfg, start, w, k, i);
      if i != k {
        CommitStandsOne(cfg, start, w, k, i);
      }
    }
    StandsNext(cfg, start, next, k, k + 1);
  }

  lemma StandsNext(cfg: Settings, start: World, w: World, k: nat, m: nat)
    requires k < |start.order| && m == k + 1 && StandsAt(cfg, start, w, k) && Done(cfg, start, w, start.order[k])
    ensures StandsAt(cfg, start, w, m)
  {
    forall i | 0 <= i < |start.order| ensures StandsOne(cfg, start, w, m, i) {
      assert StandsOne(cfg, start, w, k, i);
    }
  }

  /** What a lost report leaves: the run where it was, or in its handler. */
  lemma MissPlaces(cfg: Settings, start: World, w: World, local: Local, k: nat)
    requires w.run.Some? && local == LocalOf(w) && PlacedAt(cfg, start, w, k)
    ensures PlacedAt(cfg, start, Missed(w, local), k)
  {
    MissedLocal(w, local);
    SameStands(cfg, start, w, Missed(w, local), k);
  }

  lemma RecordPlaces(cfg: Settings, start: World, w: World, result: PublishWorkflow.Result, k: nat)
    requires w.run.Some? && w.order == start.order && w.texts == start.texts
    requires FitsPlace(Advance(LocalOf(w), result), start.order, k) && StandsAt(cfg, start, w, k)
    ensures PlacedAt(cfg, start, Record(w, result), k)
  {
    RecordAdvances(w, result);
    SameStands(cfg, start, w, Record(w, result), k);
  }

  /** Where a pending activity that gets through puts the run. */
  function NextPlace(local: Local, k: nat): nat {
    if local.AwaitChunk? then k + 1 else k
  }

  lemma WorkPlaces(cfg: Settings, start: World, w: World, local: Local, now: Time, k: nat)
    requires TableFits(w) && w.texts == start.texts && w.order == start.order
    requires FitsPlace(local, start.order, k) && StandsAt(cfg, start, w, k) && WorkOf(cfg, w, local, now).Work?
    ensures var work := WorkOf(cfg, w, local, now);
      && StandsAt(cfg, start, work.world, k) && StandsAt(cfg, start, work.world, NextPlace(local, k))
  {
    if local.AwaitChunk? {
      CommitStands(cfg, start, w, k);
    } else {
      SameStands(cfg, start, w, WorkOf(cfg, w, local, now).world, k);
    }
  }

  lemma WorkFitsPlace(cfg: Settings, w: World, local: Local, now: Time, k: nat)
    requires FitsPlace(local, w.order, k) && WorkOf(cfg, w, local, now).Work?
    ensures FitsPlace(Advance(local, WorkOf(cfg, w, local, now).result), w.order, NextPlace(local, k))
  {
    assert w.order[0..] == w.order;
    assert k < |w.order| ==> w.order[k..][1..] == w.order[k + 1..];
  }

  lemma AttemptPlaces(cfg: Settings, start: World, w: World, outcome: Outcome, now: Time, k: nat) returns (m: nat)
    requires Sound(w) && PlacedAt(cfg, start, w, k)
    ensures PlacedAt(cfg, start, Attempted(cfg, w, outcome, now), m)
  {
    var local := LocalOf(w);
    var work := WorkOf(cfg, w, local, now);
    m := k;
    if work.Raises? || outcome == NotDone {
      MissPlaces(cfg, start, w, local, k);
    } else {
      WorkPlaces(cfg, start, w, local, now, k);
      WorkKeepsTable(cfg, w, local, now);
      if outcome == Lost {
        MissPlaces(cfg, start, work.world, local, k);
      } else {
        m := NextPlace(local, k);
        WorkFitsPlace(cfg, w, local, now, k);
        RecordPlaces(cfg, start, work.world, work.result, m);
      }
    }
  }

  lemma StepPlaces(cfg: Settings, start: World, w: World, step: Step, k: nat) returns (m: nat)
    requires Sound(w) && TableFits(start) && PlacedAt(cfg, start, w, k)
    requires Enabled(w, step) && !step.Edit? && !step.Close?
    ensures PlacedAt(cfg, start, After(cfg, w, step), m)
  {
    m := k;
    if step.Attempt? {
      m := AttemptPlaces(cfg, start, w, step.outcome, step.now, k);
    } else {
      SameStands(cfg, start, w, After(cfg, w, step), k);
    }
  }

  lemma {:induction false} LeadsPlaces(cfg: Settings, start: World, w: World, steps: seq<Step>, end: World, k: nat)
    returns (m: nat)
    requires Sound(w) && TableFits(start) && PlacedAt(cfg, start, w, k)
    requires Leads(cfg, w, steps, end) && Within(steps)
    ensures Sound(end) && PlacedAt(cfg, start, end, m) && (w.status == Ready ==> end.status == Ready)
    decreases |steps|
  {
    m := k;
    if steps != [] {
      var next := After(cfg, w, steps[0]);
      StepKeepsSound(cfg, w, steps[0]);
      m := StepPlaces(cfg, start, w, steps[0], k);
      if w.status == Ready {
        ReadyStep(cfg, w, steps[0]);
      }
      m := LeadsPlaces(cfg, start, next, steps[1..], end, m);
    }
  }

  /** A run that has not read its lessons yet. */
  predicate Starting(w: World) {
    w.run.Some? && (LocalOf(w).AwaitBegin? || LocalOf(w).AwaitList?)
  }

  lemma StartsPlaced(cfg: Settings, w: World)
    requires Starting(w)
    ensures PlacedAt(cfg, w, w, 0)
  {
    forall i | 0 <= i < |w.order| ensures StandsOne(cfg, w, w, 0, i) {
    }
  }

  /** A stretch of a behaviour leads from its first state to its last. */
  lemma {:induction false} BehaviourLeads(cfg: Settings, ws: seq<World>, steps: seq<Step>, b: nat, j: nat)
    requires Behaviour(cfg, ws, steps) && b <= j < |ws|
    ensures Leads(cfg, ws[b], steps[b..j], ws[j])
    decreases j - b
  {
    if b < j {
      StepTo(cfg, ws, steps, b + 1);
      BehaviourLeads(cfg, ws, steps, b + 1, j);
      assert steps[b..j] == [steps[b]] + steps[b + 1..j];
      StepThen(cfg, ws[b], steps[b], steps[b + 1..j], ws[j]);
    }
  }

  /** And what leads on from its last state makes it a longer one. */
  lemma {:induction false} LeadsExtends(cfg: Settings, ws: seq<World>, steps: seq<Step>, more: seq<Step>, end: World)
    returns (all: seq<World>)
    requires Behaviour(cfg, ws, steps) && Leads(cfg, ws[|steps|], more, end)
    ensures Behaviour(cfg, all, steps + more) && all[..|ws|] == ws && all[|steps + more|] == end
    decreases |more|
  {
    all := ws;
    if more == [] {
      assert steps + more == steps;
    } else {
      var next := After(cfg, ws[|steps|], more[0]);
      GoesOn(cfg, ws, steps, more[0]);
      all := LeadsExtends(cfg, ws + [next], steps + [more[0]], more[1..], end);
      assert steps + [more[0]] + more[1..] == steps + more;
    }
  }

  lemma StoppedAt(cfg: Settings, w: World, end: World, k: nat)
    requires PlacedAt(cfg, w, end, k)
    ensures forall i :: 0 <= i < k && i < |w.order| ==> Done(cfg, w, end, w.order[i])
    ensures k < |w.order| ==> DoneOrUntouched(cfg, w, end, w.order[k])
    ensures forall i :: k < i < |w.order| ==> Untouched(w, end, w.order[i])
  {
    forall i | 0 <= i < |w.order|
      ensures if i < k then Done(cfg, w, end, w.order[i]) else i == k || Untouched(w, end, w.order[i])
    {
      assert StandsOne(cfg, w, end, k, i);
    }
    assert k < |w.order| ==> StandsOne(cfg, w, end, k, k);
  }

  /** STOPS AT ONE LESSON. A run that fails, whatever crashed and was retried, stopped at one lesson:
      every lesson before it is chunked for its text, every lesson after it has the rows the run found,
      and the lesson itself either. */
  lemma FailureStopsAt(cfg: Settings, ws: seq<World>, steps: seq<Step>, b: nat, j: nat) returns (k: nat)
    requires Behaviour(cfg, ws, steps) && b <= j < |ws| && Starting(ws[b]) && Failing(ws[j])
    requires forall i :: b <= i < j ==> !steps[i].Edit? && !steps[i].Close?
    ensures ws[j].order == ws[b].order && ws[j].texts == ws[b].texts && k < |ws[b].order|
    ensures forall i :: 0 <= i < k ==> Done(cfg, ws[b], ws[j], ws[b].order[i])
    ensures Done(cfg, ws[b], ws[j], ws[b].order[k]) || Untouched(ws[b], ws[j], ws[b].order[k])
    ensures forall i :: k < i < |ws[b].order| ==> Untouched(ws[b], ws[j], ws[b].order[i])
  {
    AlwaysSound(cfg, ws, steps, b);
    BehaviourLeads(cfg, ws, steps, b, j);
    StartsPlaced(cfg, ws[b]);
    k := LeadsPlaces(cfg, ws[b], ws[b], steps[b..j], ws[j], 0);
    StoppedAt(cfg, ws[b], ws[j], k);
  }

  // ------------------------------------------------ whether it leaves any trace

  ghost predicate LeftAsFound(w: World, end: World) {
    forall l :: l in w.order ==> Untouched(w, end, l)
  }

  /** However a run that starts here fails, every lesson keeps the rows it had. */
  ghost predicate AlwaysLeaves(cfg: Settings, w: World) {
    forall steps, end ::
      Leads(cfg, w, steps, end) && Within(steps) && Failing(end) ==> LeftAsFound(w, end)
  }

  /** The lesson has exactly the rows of its text, and the text repeats no piece. */
  ghost predicate UpToDate(cfg: Settings, w: World, l: LessonId) {
    Exact(RowsFor(w.rows, l), PiecesOf(cfg, w.texts, l)) && Distinct(PiecesOf(cfg, w.texts, l))
  }

  /** Every lesson a run gets to commit is. */
  ghost predicate NothingToDo(cfg: Settings, w: World) {
    forall i :: 0 <= i < |w.order| && AllChunkable(cfg, w, w.order[..i + 1]) ==> UpToDate(cfg, w, w.order[i])
  }

  lemma UpToDateIsLeft(cfg: Settings, w: World, end: World, k: nat, i: nat)
    requires NothingToDo(cfg, w) && StandsAt(cfg, w, end, k) && i < |w.order|
    ensures Untouched(w, end, w.order[i])
  {
    assert StandsOne(cfg, w, end, k, i);
    if Done(cfg, w, end, w.order[i]) && i <= k {
      forall j | 0 <= j <= i ensures Chunkable(cfg, w, w.order[j]) {
        assert StandsOne(cfg, w, end, k, j);
        DoneWasChunkable(cfg, w, end, w.order[j]);
      }
      assert AllChunkable(cfg, w, w.order[..i + 1]);
      CommitLeavesIff(cfg, w, end, w.order[i]);
    }
  }

  lemma LeavesIfNothingToDo(cfg: Settings, w: World, steps: seq<Step>, end: World)
    requires Sound(w) && Starting(w) && NothingToDo(cfg, w)
    requires Leads(cfg, w, steps, end) && Within(steps) && Failing(end)
    ensures LeftAsFound(w, end)
  {
    StartsPlaced(cfg, w);
    var k := LeadsPlaces(cfg, w, w, steps, end, 0);
    forall l | l in w.order ensures Untouched(w, end, l) {
      var i: nat :| i < |w.order| && w.order[i] == l;
      UpToDateIsLeft(cfg, w, end, k, i);
    }
  }

  lemma {:induction false} LeadsOn(cfg: Settings, w: World, steps: seq<Step>, mid: World, more: seq<Step>, end: World)
    requires Leads(cfg, w, steps, mid) && Leads(cfg, mid, more, end)
    ensures Leads(cfg, w, steps + more, end)
    decreases |steps|
  {
    if steps == [] {
      assert steps + more == more;
    } else {
      assert (steps + more)[1..] == steps[1..] + more;
      LeadsOn(cfg, After(cfg, w, steps[0]), steps[1..], mid, more, end);
    }
  }

  /** The run waits for this lesson's chunks. */
  predicate AtLesson(w: World, l: LessonId) {
    w.run.Some? && LocalOf(w).AwaitChunk? && LocalOf(w).todo != [] && LocalOf(w).todo[0] == l
  }

  lemma PrefixMovesOn(cfg: Settings, w: World, todo: seq<LessonId>, i: nat)
    requires TableFits(w) && RepeatFree(todo) && 0 < i < |todo| && AllChunkable(cfg, w, todo[..i + 1])
    ensures ChunkWork(cfg, w, todo[0]).Work?
    ensures AllChunkable(cfg, ChunkWork(cfg, w, todo[0]).world, todo[1..][..i])
    ensures RowsFor(ChunkWork(cfg, w, todo[0]).world.rows, todo[i]) == RowsFor(w.rows, todo[i])
  {
    var front := todo[..i + 1];
    assert front[0] == todo[0] && front[1..] == todo[1..][..i];
    ChunkableIff(cfg, w, front[0]);
    OneLessToChunk(cfg, w, front);
    ChunkFrame(cfg, w, todo[0], todo[i]);
  }

  /** The `i`th lesson still to chunk, and those before it, all of which will be accepted. */
  ghost predicate Ahead(cfg: Settings, w: World, i: nat) {
    && w.run.Some?
    && var todo := StillToChunk(w, LocalOf(w)); i < |todo| && AllChunkable(cfg, w, todo[..i + 1])
  }

  function LessonAhead(w: World, i: nat): LessonId
    requires w.run.Some? && i < |StillToChunk(w, LocalOf(w))|
  {
    StillToChunk(w, LocalOf(w))[i]
  }

  /** `next` has the lesson, `m`th there, ahead of it too, and its rows are the same. */
  ghost predicate Closer(cfg: Settings, w: World, next: World, i: nat, m: nat)
    requires Ahead(cfg, w, i)
  {
    && Ahead(cfg, next, m) && LessonAhead(next, m) == LessonAhead(w, i)
    && Untouched(w, next, LessonAhead(w, i)) && next.texts == w.texts
  }

  lemma SameAhead(cfg: Settings, w: World, next: World, i: nat)
    requires Ahead(cfg, w, i) && next.rows == w.rows && next.texts == w.texts && next.run.Some?
    requires StillToChunk(next, LocalOf(next)) == StillToChunk(w, LocalOf(w))
    ensures Closer(cfg, w, next, i, i)
  {
    SameAllChunkable(cfg, w, next, StillToChunk(w, LocalOf(w))[..i + 1]);
  }

  /** Reading the lessons, or beginning to, changes nothing ahead. */
  lemma StartsCloser(cfg: Settings, w: World, now: Time, i: nat)
    requires Starting(w) && Ahead(cfg, w, i)
    ensures Closer(cfg, w, Attempted(cfg, w, Recorded, now), i, i)
  {
    var work := WorkOf(cfg, w, LocalOf(w), now);
    RecordAdvances(work.world, work.result);
    SameAhead(cfg, w, Attempted(cfg, w, Recorded, now), i);
  }

  /** Chunking the lesson at the head brings every other one closer. */
  lemma ChunkCloser(cfg: Settings, w: World, now: Time, i: nat)
    requires Sound(w) && Ahead(cfg, w, i) && LocalOf(w).AwaitChunk? && i > 0
    ensures Closer(cfg, w, Attempted(cfg, w, Recorded, now), i, i - 1)
  {
    var todo, work := LocalOf(w).todo, ChunkWork(cfg, w, LocalOf(w).todo[0]);
    PrefixMovesOn(cfg, w, todo, i);
    RecordAdvances(work.world, work.result);
    assert todo[1..][i - 1] == todo[i];
    SameAllChunkable(cfg, work.world, Attempted(cfg, w, Recorded, now), todo[1..][..i]);
  }

  lemma ComesCloser(cfg: Settings, w: World, now: Time, i: nat) returns (m: nat)
    requires Sound(w) && Ahead(cfg, w, i) && !AtLesson(w, LessonAhead(w, i))
    ensures Closer(cfg, w, Attempted(cfg, w, Recorded, now), i, m)
  {
    if Starting(w) {
      m := i;
      StartsCloser(cfg, w, now, i);
    } else {
      m := i - 1;
      ChunkCloser(cfg, w, now, i);
    }
  }

  lemma {:induction false} ReachesLesson(cfg: Settings, w: World, now: Time, i: nat)
    returns (steps: seq<Step>, end: World)
    requires Sound(w) && Ahead(cfg, w, i)
    ensures Leads(cfg, w, steps, end) && Within(steps) && Sound(end) && AtLesson(end, LessonAhead(w, i))
    ensures Untouched(w, end, LessonAhead(w, i)) && end.texts == w.texts && Chunkable(cfg, end, LessonAhead(w, i))
    decreases StagesLeft(LocalOf(w)), LessonsLeft(LocalOf(w)), AttemptsLeft(w)
  {
    var l := LessonAhead(w, i);
    if AtLesson(w, l) {
      steps, end := [], w;
      assert l in StillToChunk(w, LocalOf(w))[..i + 1];
    } else {
      var m := ComesCloser(cfg, w, now, i);
      AttemptAdvances(cfg, w, now);
      StepKeepsSound(cfg, w, Attempt(Recorded, now));
      steps, end := ReachesLesson(cfg, After(cfg, w, Attempt(Recorded, now)), now, m);
      StepThen(cfg, w, Attempt(Recorded, now), steps, end);
      steps := [Attempt(Recorded, now)] + steps;
    }
  }

  /** Attempts that fail before their commit bring the run to its handler. */
  lemma {:induction false} GivesUp(cfg: Settings, w: World, now: Time) returns (steps: seq<Step>, end: World)
    requires w.run.Some? && (LocalOf(w).AwaitChunk? || Failing(w))
    ensures Leads(cfg, w, steps, end) && Within(steps) && Failing(end) && end.rows == w.rows
    decreases if Failing(w) then 0 else 1, AttemptsLeft(w)
  {
    if Failing(w) {
      steps, end := [], w;
    } else {
      var next := After(cfg, w, Attempt(NotDone, now));
      RecordAdvances(w, ChunkingFailed);
      assert next == Missed(w, LocalOf(w));
      steps, end := GivesUp(cfg, next, now);
      StepThen(cfg, w, Attempt(NotDone, now), steps, end);
      steps := [Attempt(NotDone, now)] + steps;
    }
  }

  /** A lesson's commit goes through, its report is lost, and the attempts left fail. */
  lemma CommitsThenGivesUp(cfg: Settings, w: World, l: LessonId, now: Time) returns (steps: seq<Step>, end: World)
    requires Sound(w) && AtLesson(w, l) && Chunkable(cfg, w, l)
    ensures Leads(cfg, w, steps, end) && Within(steps) && Failing(end)
    ensures ChunkWork(cfg, w, l).Work? && end.rows == ChunkWork(cfg, w, l).world.rows
  {
    ChunkableIff(cfg, w, l);
    var done, next := ChunkWork(cfg, w, l).world, After(cfg, w, Attempt(Lost, now));
    MissedLocal(done, LocalOf(w));
    steps, end := GivesUp(cfg, next, now);
    StepThen(cfg, w, Attempt(Lost, now), steps, end);
    steps := [Attempt(Lost, now)] + steps;
  }

  lemma CommitChangesIff(cfg: Settings, start: World, w: World, l: LessonId)
    requires TableFits(w) && l in w.texts && Untouched(start, w, l) && w.texts == start.texts
    requires ChunkWork(cfg, w, l).Work?
    ensures Untouched(start, ChunkWork(cfg, w, l).world, l) <==> UpToDate(cfg, start, l)
  {
    var pieces := PiecesOf(cfg, w.texts, l);
    RowsForValid(w.rows, l, w.nextKey);
    AfterChunkingFrame(w.rows, l, pieces, w.nextKey);
    RebuiltLeavesIff(RowsFor(w.rows, l), l, pieces, w.nextKey);
  }

  lemma FailureCanChange(cfg: Settings, w: World, i: nat, now: Time) returns (steps: seq<Step>, end: World)
    requires Sound(w) && Starting(w) && i < |w.order| && AllChunkable(cfg, w, w.order[..i + 1])
    requires !UpToDate(cfg, w, w.order[i])
    ensures Leads(cfg, w, steps, end) && Within(steps) && Failing(end) && !Untouched(w, end, w.order[i])
  {
    var l := w.order[i];
    var there, mid := ReachesLesson(cfg, w, now, i);
    var more, stop := CommitsThenGivesUp(cfg, mid, l, now);
    CommitChangesIff(cfg, w, mid, l);
    steps, end := there + more, stop;
    LeadsOn(cfg, w, there, mid, more, stop);
  }

  /** NO TRACE OF FAILURE. Every way a run can fail leaves all the rows it found, as documented for a
      republish, if and only if each lesson it gets to commit is up to date already: exact for its text,
      which repeats no piece. */
  lemma LeavesIff(cfg: Settings, w: World, now: Time)
    requires Sound(w) && Starting(w)
    ensures AlwaysLeaves(cfg, w) <==> NothingToDo(cfg, w)
  {
    if NothingToDo(cfg, w) {
      forall steps, end | Leads(cfg, w, steps, end) && Within(steps) && Failing(end) ensures LeftAsFound(w, end) {
        LeavesIfNothingToDo(cfg, w, steps, end);
      }
    } else {
      var i: nat :| i < |w.order| && AllChunkable(cfg, w, w.order[..i + 1]) && !UpToDate(cfg, w, w.order[i]);
      var steps, end := FailureCanChange(cfg, w, i, now);
      assert !LeftAsFound(w, end);
    }
  }

  // ------------------------------------------------- a republish that leaves one

  /** The course before it has a lesson. */
  function Early(status: Status, date: Option<Time>, run: Option<Run>, admitted: nat): World {
    World(status, date, [], map[], {}, map[], 0, run, admitted)
  }

  /** The course with its one lesson added after it was published. */
  function Late(l: LessonId, content: Option<string>, now: Time, run: Option<Run>, admitted: nat): World {
    World(Ready, Some(now), [l], map[l := content], {l}, map[], 0, run, admitted)
  }

  /** Published while empty, given its lesson, and published again. */
  function Republished(l: LessonId, content: Option<string>, now: Time, n: nat): World {
    if n == 0 then Created()
    else if n == 1 then Early(Draft, None, None, 1)
    else if n == 2 then Early(Draft, None, Some(Run([], 0)), 0)
    else if n == 3 then Early(PublishingNow, None, Some(Run([Began(true)], 0)), 0)
    else if n == 4 then Early(PublishingNow, None, Some(Run([Began(true), Listed([])], 0)), 0)
    else if n == 5 then Early(Ready, Some(now), Some(Run([Began(true), Listed([]), MarkedReady], 0)), 0)
    else if n == 6 then Early(Ready, Some(now), None, 0)
    else if n == 7 then Late(l, content, now, None, 0)
    else if n == 8 then Late(l, content, now, None, 1)
    else Late(l, content, now, Some(Run([], 0)), 0)
  }

  function RepublishStep(l: LessonId, content: Option<string>, now: Time, n: nat): Step {
    if n == 0 || n == 7 then CheckRequest
    else if n == 1 || n == 8 then StartRequest
    else if n == 5 then Close
    else if n == 6 then Edit([l], map[l := content])
    else Attempt(Recorded, now)
  }

  lemma EmptyLocals()
    ensures Replay([]) == AwaitBegin && Replay([Began(true)]) == AwaitList(true)
    ensures Replay([Began(true), Listed([])]) == AwaitReady(0)
    ensures Replay([Began(true), Listed([]), MarkedReady]) == Returned(true, 0)
  {
    ReplayOneMore([], Began(true));
    ReplayOneMore([Began(true)], Listed([]));
    ReplayOneMore([Began(true), Listed([])], MarkedReady);
    assert [] + [Began(true)] == [Began(true)];
    assert [Began(true)] + [Listed([])] == [Began(true), Listed([])];
    assert [Began(true), Listed([])] + [MarkedReady] == [Began(true), Listed([]), MarkedReady];
  }

  lemma RepublishRequests(cfg: Settings, l: LessonId, content: Option<string>, now: Time, n: nat)
    requires n in {0, 1, 6, 7, 8}
    ensures Taken(cfg, Republished(l, content, now, n), RepublishStep(l, content, now, n),
                  Republished(l, content, now, n + 1))
  {
    assert {} + map[l := content].Keys == {l};
    assert Cascaded(map[], {} - {l}) == map[];
  }

  lemma RepublishActivities(cfg: Settings, l: LessonId, content: Option<string>, now: Time, n: nat)
    requires 2 <= n < 6
    ensures Taken(cfg, Republished(l, content, now, n), RepublishStep(l, content, now, n),
                  Republished(l, content, now, n + 1))
  {
    EmptyLocals();
    assert [] + [Began(true)] == [Began(true)];
    assert [Began(true)] + [Listed([])] == [Began(true), Listed([])];
    assert [Began(true), Listed([])] + [MarkedReady] == [Began(true), Listed([]), MarkedReady];
  }

  lemma {:induction false} RepublishLeads(cfg: Settings, l: LessonId, content: Option<string>, now: Time, n: nat)
    returns (steps: seq<Step>)
    requires n <= 9
    ensures Leads(cfg, Republished(l, content, now, n), steps, Republished(l, content, now, 9))
    decreases 9 - n
  {
    if n == 9 {
      steps := [];
    } else {
      if 2 <= n < 6 {
        RepublishActivities(cfg, l, content, now, n);
      } else {
        RepublishRequests(cfg, l, content, now, n);
      }
      steps := RepublishLeads(cfg, l, content, now, n + 1);
      StepThen(cfg, Republished(l, content, now, n), RepublishStep(l, content, now, n), steps,
               Republished(l, content, now, 9));
      steps := [RepublishStep(l, content, now, n)] + steps;
    }
  }

  lemma NothingStored(cfg: Settings, w: World, l: LessonId)
    requires w.rows == map[] && PiecesOf(cfg, w.texts, l) != []
    ensures Chunkable(cfg, w, l) && !UpToDate(cfg, w, l)
  {
    assert RowsFor(w.rows, l) == map[];
    assert !HasAt(map[], 0, PiecesOf(cfg, w.texts, l)[0]);
  }

  lemma LateIsSound(l: LessonId, content: Option<string>, now: Time)
    ensures Sound(Late(l, content, now, Some(Run([], 0)), 0)) && Starting(Late(l, content, now, Some(Run([], 0)), 0))
  {
    EmptyLocals();
  }

  lemma RepublishFails(cfg: Settings, w: World, l: LessonId, now: Time) returns (steps: seq<Step>, end: World)
    requires Sound(w) && Starting(w) && w.status == Ready && w.order == [l]
    requires w.rows == map[] && PiecesOf(cfg, w.texts, l) != []
    ensures Leads(cfg, w, steps, end) && Within(steps)
    ensures Failing(end) && end.status == Ready && !Untouched(w, end, l)
  {
    NothingStored(cfg, w, l);
    assert w.order[..1] == [l];
    steps, end := FailureCanChange(cfg, w, 0, now);
    StartsPlaced(cfg, w);
    var k := LeadsPlaces(cfg, w, w, steps, end, 0);
  }

  lemma ReachedLate(cfg: Settings, l: LessonId, content: Option<string>, now: Time)
    returns (ws: seq<World>, steps: seq<Step>)
    ensures Behaviour(cfg, ws, steps) && ws[|steps|] == Late(l, content, now, Some(Run([], 0)), 0)
  {
    steps := RepublishLeads(cfg, l, content, now, 0);
    ws := LeadsExtends(cfg, [Created()], [], steps, Republished(l, content, now, 9));
    assert [] + steps == steps;
  }

  /** A REPUBLISH THAT FAILS LEAVES A TRACE. From a newly created course, for any lesson with something
      to chunk: the live course keeps its status, and the lesson has rows the failed run did not find. */
  lemma FailedRepublishChanges(cfg: Settings, l: LessonId, content: Option<string>, now: Time)
    returns (ws: seq<World>, steps: seq<Step>, b: nat)
    requires ChunksOfContent(content, cfg.maxTokens, cfg.overlapTokens) != []
    ensures Behaviour(cfg, ws, steps) && b <= |steps| && Within(steps[b..])
    ensures ws[b].status == Ready && Starting(ws[b]) && ws[b].order == [l]
    ensures Failing(ws[|steps|]) && ws[|steps|].status == Ready && !Untouched(ws[b], ws[|steps|], l)
  {
    ws, steps := ReachedLate(cfg, l, content, now);
    b := |steps|;
    LateIsSound(l, content, now);
    var more, end := RepublishFails(cfg, ws[b], l, now);
    var all := LeadsExtends(cfg, ws, steps, more, end);
    assert all[..|ws|][b] == ws[b];
    ws, steps := all, steps + more;
    assert steps[b..] == more;
  }
}
