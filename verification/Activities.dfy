/** `workflows/activities.py`: what a worker does for the activity a run waits for, proved to be
    the step the protocol takes. */
module Activities {
  import opened Options
  import opened Chunking
  import opened ChunkStore
  import opened Publishing
  import opened PublishWorkflow
  import opened PublishProtocol
  import opened PublishRuns
  import opened ReadingOrder

  /** One course's rows beside the tables it shares with the others. */
  class Store {
    const settings: Settings
    const course: Course
    const database: Database
    var modules: Modules
    var places: Places

    constructor (settings: Settings, course: Course, database: Database, modules: Modules, places: Places)
      ensures this.settings == settings && this.course == course && this.database == database
      ensures this.modules == modules && this.places == places
    {
      this.settings, this.course, this.database := settings, course, database;
      this.modules, this.places := modules, places;
    }

    /** The protocol's view of what is stored: of the lessons, those of this course, in the order
        their modules' positions and their own put them in. */
    ghost predicate Shows(w: World)
      reads this, course, database
    {
      && course.status == w.status && course.publishedAt == w.publishedAt
      && InReadingOrder(modules, places, w.order) && database.chunks == w.rows && database.nextKey == w.nextKey
      && forall l :: l in w.mine ==>
        (l in database.lessons <==> l in w.texts) && (l in w.texts ==> database.lessons[l] == w.texts[l])
    }

    method ChunkOne(lesson: LessonId, ghost w: World) returns (report: Option<PublishWorkflow.Result>)
      requires Shows(w) && ValidRows(w.rows, w.nextKey) && lesson in w.mine
      modifies database
      ensures database.Valid()
      ensures report.None? <==> ChunkWork(settings, w, lesson).Raises?
      ensures report.None? ==> Shows(w)
      ensures report.Some? ==>
        report.value == ChunkWork(settings, w, lesson).result && Shows(ChunkWork(settings, w, lesson).world)
    {
      ghost var pieces := PiecesOf(settings, w.texts, lesson);
      var written := database.ChunkOneLesson(lesson, settings.maxTokens, settings.overlapTokens);
      assert lesson in w.texts ==>
        pieces == ChunksOfContent(database.lessons[lesson], settings.maxTokens, settings.overlapTokens);
      return if written.Ok? then Some(Chunked(written.value)) else None;
    }

    /** Run the pending activity to its commit. It raises exactly when the protocol says so, and
        otherwise reports the protocol's result and leaves the protocol's next state. */
    method Perform(local: Local, now: Time, ghost w: World) returns (report: Option<PublishWorkflow.Result>)
      requires Shows(w) && Performable(w, local)
      modifies course, database
      ensures database.Valid()
      ensures report.None? <==> WorkOf(settings, w, local, now).Raises?
      ensures report.None? ==> Shows(w)
      ensures report.Some? ==>
        report.value == WorkOf(settings, w, local, now).result && Shows(WorkOf(settings, w, local, now).world)
    {
      match local
      case AwaitBegin =>
        var isFirst := BeginPublish(course);
        return Some(Began(isFirst.value));
      case AwaitList(_) =>
        var ids := IdsForCourse(modules, places);
        OnlyOneOrder(modules, places, ids, w.order);
        return Some(Listed(ids));
      case AwaitChunk(_, todo, _) =>
        report := ChunkOne(todo[0], w);
      case AwaitReady(_) =>
        var _ := CompletePublish(course, now);
        return Some(MarkedReady);
      case AwaitFailed =>
        var _ := SetStatus(course, Failed);
        return Some(MarkedFailed);
    }
  }

  /** What an activity needs of the state it runs in. */
  predicate Performable(w: World, local: Local) {
    && ValidRows(w.rows, w.nextKey) && w.texts.Keys <= w.mine
    && (local.AwaitChunk? ==> local.todo != [] && local.todo[0] in w.mine)
    && !local.Returned? && !local.Raised? && !local.Diverged?
  }

  /** Every attempt that can be made in any run of the system finds that. */
  lemma AttemptsArePerformable(cfg: Settings, ws: seq<World>, steps: seq<Step>, i: nat)
    requires Behaviour(cfg, ws, steps) && i < |ws|
    requires ws[i].run.Some? && !LocalOf(ws[i]).Returned? && !LocalOf(ws[i]).Raised?
    ensures Performable(ws[i], LocalOf(ws[i]))
  {
    AlwaysSound(cfg, ws, steps, i);
  }
}
