/** One course, its publishes and everything that may interleave with them: edits, publish
    requests, activity attempts that crash before or after their commit, and other courses writing
    to the same chunk table. Every request and every activity transaction is one step. */
module PublishProtocol {
  import opened Options
  import opened Chunking
  import opened ChunkStore
  import opened Publishing
  import opened PublishWorkflow

  datatype Settings = Settings(maxTokens: int, overlapTokens: int)

  /** The live run of the course's workflow id: what its history records, and how many attempts of
      the pending activity have failed. */
  datatype Run = Run(history: seq<PublishWorkflow.Result>, attempts: nat)

  /** `order` lists the lessons in reading order and `texts` holds their contents; `mine` has every
      lesson id the course ever had, and `admitted` counts publish requests between their status
      check and their start. At most one run is live because Temporal refuses a second with the
      same workflow id. */
  datatype World = World(
    status: Status, publishedAt: Option<Time>, order: seq<LessonId>, texts: map<LessonId, Option<string>>,
    mine: set<LessonId>, rows: Rows, nextKey: nat, run: Option<Run>, admitted: nat)

  /** An attempt can fail before its commit, commit and die before reporting, or report. */
  datatype Outcome = NotDone | Lost | Recorded

  datatype Step =
    | Edit(order: seq<LessonId>, texts: map<LessonId, Option<string>>)
    | CheckRequest
    | StartRequest
    | DropRequest
    | Attempt(outcome: Outcome, now: Time)
    | Close
    | Elsewhere(rows: Rows, nextKey: nat)

  const MAX_ATTEMPTS := 3

  function PiecesOf(cfg: Settings, texts: map<LessonId, Option<string>>, lesson: LessonId): seq<string> {
    if lesson in texts then ChunksOfContent(texts[lesson], cfg.maxTokens, cfg.overlapTokens) else []
  }

  /** The list names every lesson once. */
  predicate Lists(order: seq<LessonId>, texts: map<LessonId, Option<string>>) {
    RepeatFree(order) && (forall l :: l in order ==> l in texts) && (forall l :: l in texts ==> l in order)
  }

  function LocalOf(w: World): Local
    requires w.run.Some?
  {
    Replay(w.run.value.history)
  }

  // ------------------------------------------------------------ the steps

  function Created(): World {
    World(Draft, None, [], map[], {}, map[], 0, None, 0)
  }

  /** The outcome of the pending activity if it runs to its commit, or none if it raises. */
  datatype Work = Work(world: World, result: PublishWorkflow.Result) | Raises

  ghost function ChunkWork(cfg: Settings, w: World, lesson: LessonId): (work: Work)
    ensures work.Work? ==> work.world == w.(rows := work.world.rows, nextKey := work.world.nextKey)
  {
    var pieces := PiecesOf(cfg, w.texts, lesson);
    var after := AfterChunking(w.rows, lesson, pieces, w.nextKey);
    if lesson !in w.texts then Work(w, Chunked(0))
    else if UniquePositions(after) then
      Work(w.(rows := after, nextKey := w.nextKey + |pieces|), Chunked(|pieces|))
    else Raises
  }

  ghost function WorkOf(cfg: Settings, w: World, local: Local, now: Time): (work: Work)
    ensures work.Work? ==> work.world.run == w.run
  {
    match local
    case AwaitBegin => Work(w.(status := Begun(w.status)), Began(w.status != Ready))
    case AwaitList(_) => Work(w, Listed(w.order))
    case AwaitChunk(_, todo, _) => if todo == [] then Raises else ChunkWork(cfg, w, todo[0])
    case AwaitReady(_) => Work(w.(status := Ready, publishedAt := Some(now)), MarkedReady)
    case AwaitFailed => Work(w.(status := Failed), MarkedFailed)
    case _ => Raises
  }

  /** The server records a result and goes on to the next activity. */
  function Record(w: World, result: PublishWorkflow.Result): World
    requires w.run.Some?
  {
    w.(run := Some(Run(w.run.value.history + [result], 0)))
  }

  /** An attempt did not report. Chunking gives up after its third, the others are tried again. */
  function Missed(w: World, local: Local): World
    requires w.run.Some?
  {
    var run := w.run.value;
    if !local.AwaitChunk? then w
    else if run.attempts + 1 < MAX_ATTEMPTS then w.(run := Some(run.(attempts := run.attempts + 1)))
    else Record(w, ChunkingFailed)
  }

  ghost function Attempted(cfg: Settings, w: World, outcome: Outcome, now: Time): World
    requires w.run.Some?
  {
    var local := LocalOf(w);
    var work := WorkOf(cfg, w, local, now);
    if work.Raises? || outcome == NotDone then Missed(w, local)
    else if outcome == Lost then Missed(work.world, local)
    else Record(work.world, work.result)
  }

  /** Lessons that go take their chunks with them. */
  function Edited(w: World, order: seq<LessonId>, texts: map<LessonId, Option<string>>): World {
    w.(order := order, texts := texts, mine := w.mine + texts.Keys, rows := Cascaded(w.rows, w.texts.Keys - texts.Keys))
  }

  function Cascaded(rows: Rows, gone: set<LessonId>): Rows {
    map id | id in rows && rows[id].lesson !in gone :: rows[id]
  }

  /** A new lesson has an id nothing refers to yet. */
  predicate NewIdsAreFresh(w: World, texts: map<LessonId, Option<string>>) {
    forall l :: l in texts && l !in w.texts ==> l !in w.mine && forall id :: id in w.rows ==> w.rows[id].lesson != l
  }

  predicate OthersOnly(w: World, rows: Rows) {
    forall l :: l in w.mine ==> RowsFor(rows, l) == RowsFor(w.rows, l)
  }

  predicate Enabled(w: World, step: Step) {
    match step
    case Edit(order, texts) => Open(w.status) && Lists(order, texts) && NewIdsAreFresh(w, texts)
    case CheckRequest => Open(w.status)
    case StartRequest => w.admitted > 0
    case DropRequest => w.admitted > 0
    case Attempt(_, _) => w.run.Some? && !LocalOf(w).Returned? && !LocalOf(w).Raised?
    case Close => w.run.Some? && (LocalOf(w).Returned? || LocalOf(w).Raised?)
    case Elsewhere(rows, nextKey) =>
      nextKey >= w.nextKey && ValidRows(rows, nextKey) && Counted(rows) && OthersOnly(w, rows)
  }

  ghost function After(cfg: Settings, w: World, step: Step): World
    requires Enabled(w, step)
  {
    match step
    case Edit(order, texts) => Edited(w, order, texts)
    case CheckRequest => w.(admitted := w.admitted + 1)
    case StartRequest =>
      w.(admitted := w.admitted - 1, run := if w.run.None? then Some(Run([], 0)) else w.run)
    case DropRequest => w.(admitted := w.admitted - 1)
    case Attempt(outcome, now) => Attempted(cfg, w, outcome, now)
    case Close => w.(run := None)
    case Elsewhere(rows, nextKey) => w.(rows := rows, nextKey := nextKey)
  }

  /** A run of the system from a newly created draft. */
  ghost predicate Behaviour(cfg: Settings, ws: seq<World>, steps: seq<Step>) {
    && |ws| == |steps| + 1
    && ws[0] == Created()
    && forall i :: 0 <= i < |steps| ==> Taken(cfg, ws[i], steps[i], ws[i + 1])
  }

  ghost predicate Taken(cfg: Settings, w: World, step: Step, next: World) {
    Enabled(w, step) && next == After(cfg, w, step)
  }

  // -------------------------------------------------- what every state keeps

  /** What the status may be while a run stands at `local`. */
  predicate StatusFits(status: Status, local: Local) {
    match local
    case AwaitBegin => true
    case AwaitList(isFirst) => status == if isFirst then PublishingNow else Ready
    case AwaitChunk(isFirst, _, _) => status == if isFirst then PublishingNow else Ready
    case AwaitReady(_) => status == PublishingNow || status == Ready
    case AwaitFailed => status == PublishingNow || status == Failed
    case Returned(_, _) => status == Ready
    case Raised(isFirst) => status == if isFirst then Failed else Ready
    case Diverged => false
  }

  predicate RunFits(w: World) {
    if w.run.None? then w.status != PublishingNow else StatusFits(w.status, LocalOf(w))
  }

  predicate TableFits(w: World) {
    ValidRows(w.rows, w.nextKey) && Counted(w.rows) && Lists(w.order, w.texts) && w.texts.Keys <= w.mine
  }

  /** A run in its loop has a lesson to go on with, each one once, and only ones the course has had. */
  predicate TodoFits(local: Local, mine: set<LessonId>) {
    local.AwaitChunk? ==> local.todo != [] && RepeatFree(local.todo) && forall l :: l in local.todo ==> l in mine
  }

  predicate Sound(w: World) {
    && RunFits(w) && TableFits(w) && (w.publishedAt.Some? <==> w.status == Ready)
    && (w.run.Some? ==> TodoFits(LocalOf(w), w.mine))
  }

  /** Recording a result moves the replayed code one activity on. */
  lemma RecordAdvances(w: World, result: PublishWorkflow.Result)
    requires w.run.Some?
    ensures LocalOf(Record(w, result)) == Advance(LocalOf(w), result)
  {
    ReplayOneMore(w.run.value.history, result);
  }

  lemma MissedLocal(w: World, local: Local)
    requires w.run.Some? && local == LocalOf(w)
    ensures var next := Missed(w, local);
      && next == w.(run := next.run) && next.run.Some?
      && (LocalOf(next) == local || (local.AwaitChunk? && LocalOf(next) == Advance(local, ChunkingFailed)))
  {
    RecordAdvances(w, ChunkingFailed);
  }

  /** Committing the pending activity, or recording its result, leaves a status that fits. */
  lemma WorkFits(cfg: Settings, w: World, local: Local, now: Time)
    requires StatusFits(w.status, local)
    ensures var work := WorkOf(cfg, w, local, now);
      work.Work? ==>
        && StatusFits(work.world.status, local)
        && (local.AwaitChunk? ==> StatusFits(work.world.status, Advance(local, ChunkingFailed)))
        && StatusFits(work.world.status, Advance(local, work.result))
  {
  }

  /** So has the run once the pending activity has reported. */
  lemma WorkKeepsTodo(cfg: Settings, w: World, local: Local, now: Time)
    requires TableFits(w) && TodoFits(local, w.mine)
    ensures var work := WorkOf(cfg, w, local, now);
      work.Work? ==> TodoFits(Advance(local, work.result), w.mine)
  {
  }

  lemma WorkKeepsTable(cfg: Settings, w: World, local: Local, now: Time)
    requires TableFits(w)
    ensures var work := WorkOf(cfg, w, local, now);
      work.Work? ==>
        && TableFits(work.world)
        && work.world.order == w.order && work.world.texts == w.texts && work.world.mine == w.mine
  {
    if local.AwaitChunk? && local.todo != [] {
      var lesson := local.todo[0];
      var pieces := PiecesOf(cfg, w.texts, lesson);
      AfterChunkingFrame(w.rows, lesson, pieces, w.nextKey);
      CountsStayTrue(w.rows, lesson, pieces, w.nextKey);
    }
  }

  lemma MissKeepsSound(w: World, local: Local)
    requires w.run.Some? && local == LocalOf(w) && Sound(w)
    ensures Sound(Missed(w, local))
  {
    MissedLocal(w, local);
  }

  lemma AttemptKeepsSound(cfg: Settings, w: World, outcome: Outcome, now: Time)
    requires Sound(w) && Enabled(w, Attempt(outcome, now))
    ensures Sound(Attempted(cfg, w, outcome, now))
  {
    var local := LocalOf(w);
    var work := WorkOf(cfg, w, local, now);
    WorkFits(cfg, w, local, now);
    WorkKeepsTable(cfg, w, local, now);
    WorkKeepsTodo(cfg, w, local, now);
    if work.Raises? || outcome == NotDone {
      MissKeepsSound(w, local);
    } else if outcome == Lost {
      MissKeepsSound(work.world, local);
    } else {
      RecordAdvances(work.world, work.result);
    }
  }

  lemma EditKeepsTable(w: World, order: seq<LessonId>, texts: map<LessonId, Option<string>>)
    requires TableFits(w) && Lists(order, texts)
    ensures TableFits(Edited(w, order, texts))
  {
  }

  lemma StepKeepsSound(cfg: Settings, w: World, step: Step)
    requires Sound(w) && Enabled(w, step)
    ensures Sound(After(cfg, w, step))
  {
    match step
    case Attempt(outcome, now) => AttemptKeepsSound(cfg, w, outcome, now);
    case Edit(order, texts) => EditKeepsTable(w, order, texts);
    case StartRequest => assert Replay([]) == AwaitBegin;
    case _ =>
  }
}
