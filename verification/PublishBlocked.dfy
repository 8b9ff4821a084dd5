/** Exactly when a chunking commit is refused, what that does to a course, and that every
    deployment can get there. */
module PublishBlocked {
  import opened Options
  import opened Chunking
  import opened ChunkingRepeats
  import opened ChunkStore
  import opened Publishing
  import opened PublishWorkflow
  import opened PublishProtocol
  import opened PublishRuns

  // -------------------------------------------------------- refused commits

  /** Two rows of a lesson. */
  datatype Duplicate = Duplicate(lesson: LessonId, first: ChunkId, firstRow: Chunk, second: ChunkId, secondRow: Chunk)

  predicate HasRow(w: World, id: ChunkId, row: Chunk) {
    id in w.rows && w.rows[id] == row
  }

  /** The lesson holds these two rows, and they share a digest, the first standing before the second. */
  predicate Holds(w: World, d: Duplicate) {
    && d.firstRow.lesson == d.lesson && d.secondRow.lesson == d.lesson
    && HasRow(w, d.first, d.firstRow) && HasRow(w, d.second, d.secondRow)
    && d.firstRow.contentHash == d.secondRow.contentHash && d.firstRow.position < d.secondRow.position
  }

  /** A text that still wants the digest and has a piece for the place of the first row. */
  ghost predicate Clashes(cfg: Settings, content: Option<string>, d: Duplicate) {
    var pieces := ChunksOfContent(content, cfg.maxTokens, cfg.overlapTokens);
    Wanted(pieces, d.firstRow.contentHash) && d.firstRow.position < |pieces|
  }

  lemma StrayMakesDuplicate(cfg: Settings, w: World, l: LessonId, id: ChunkId) returns (d: Duplicate)
    requires TableFits(w) && l in w.texts && Stray(RowsFor(w.rows, l), PiecesOf(cfg, w.texts, l), id)
    ensures d.lesson == l && Holds(w, d) && Clashes(cfg, w.texts[l], d)
  {
    var stored := RowsFor(w.rows, l);
    RowsForValid(w.rows, l, w.nextKey);
    var h := HolderAbove(stored, l, w.nextKey, id);
    d := Duplicate(l, id, stored[id], h, stored[h]);
  }

  lemma DuplicateMakesStray(cfg: Settings, w: World, d: Duplicate)
    requires d.lesson in w.texts && Holds(w, d) && Clashes(cfg, w.texts[d.lesson], d)
    ensures Stray(RowsFor(w.rows, d.lesson), PiecesOf(cfg, w.texts, d.lesson), d.first)
  {
    var stored := RowsFor(w.rows, d.lesson);
    assert d.first in stored && d.second in stored;
  }

  /** REFUSED OR NOT. An attempt to chunk a lesson raises if and only if the lesson exists and holds
      two rows of one digest that its text still wants, the first at a place the text still fills. */
  lemma RefusedIff(cfg: Settings, w: World, l: LessonId)
    requires TableFits(w)
    ensures ChunkWork(cfg, w, l).Raises? <==>
      l in w.texts && exists d: Duplicate :: d.lesson == l && Holds(w, d) && Clashes(cfg, w.texts[l], d)
  {
    if l in w.texts {
      var stored, pieces := RowsFor(w.rows, l), PiecesOf(cfg, w.texts, l);
      RowsForValid(w.rows, l, w.nextKey);
      AfterChunkingFrame(w.rows, l, pieces, w.nextKey);
      AcceptedIffNoStray(stored, l, pieces, w.nextKey);
      if id :| Stray(stored, pieces, id) {
        var d := StrayMakesDuplicate(cfg, w, l, id);
      }
      if d: Duplicate :| d.lesson == l && Holds(w, d) && Clashes(cfg, w.texts[l], d) {
        DuplicateMakesStray(cfg, w, d);
      }
    }
  }

  // -------------------------------------------------------- blocked courses

  /** The lesson exists, with one of these texts. */
  ghost predicate HasText(w: World, l: LessonId, bad: iset<Option<string>>) {
    l in w.texts && w.texts[l] in bad
  }

  /** The live run, if any, has not got past the lesson. */
  predicate NotPast(local: Local, l: LessonId) {
    match local
    case AwaitBegin => true
    case AwaitList(_) => true
    case AwaitChunk(_, todo, _) => l in todo
    case AwaitFailed => true
    case Raised(_) => true
    case _ => false
  }

  /** The course is not ready, and a lesson with such rows stands between it and being so. */
  predicate Behind(w: World, d: Duplicate) {
    Holds(w, d) && w.status != Ready && (w.run.Some? ==> NotPast(LocalOf(w), d.lesson))
  }

  /** No attempt to chunk the lesson gets through while it holds these rows under such a text. */
  ghost predicate Unchunkable(cfg: Settings, d: Duplicate, bad: iset<Option<string>>) {
    forall w: World {:trigger ChunkWork(cfg, w, d.lesson)} ::
      TableFits(w) && Holds(w, d) && HasText(w, d.lesson, bad) ==> ChunkWork(cfg, w, d.lesson).Raises?
  }

  lemma SameRowsHold(w: World, next: World, d: Duplicate)
    requires Holds(w, d) && RowsFor(next.rows, d.lesson) == RowsFor(w.rows, d.lesson)
    ensures Holds(next, d)
  {
    assert d.first in RowsFor(w.rows, d.lesson) && d.second in RowsFor(w.rows, d.lesson);
  }

  /** An attempt that goes unreported gets the run no further. */
  lemma MissStaysBehind(w: World, local: Local, l: LessonId)
    requires w.run.Some? && local == LocalOf(w) && StatusFits(w.status, local) && w.status != Ready && NotPast(local, l)
    ensures NotPast(LocalOf(Missed(w, local)), l)
  {
    MissedLocal(w, local);
  }

  /** Chunking one lesson of a run behind the duplicate leaves the run behind it. */
  lemma ChunkStaysBehind(cfg: Settings, w: World, todo: seq<LessonId>, d: Duplicate, bad: iset<Option<string>>)
    requires TableFits(w) && Holds(w, d) && HasText(w, d.lesson, bad) && Unchunkable(cfg, d, bad)
    requires todo != [] && d.lesson in todo && ChunkWork(cfg, w, todo[0]).Work?
    ensures Holds(ChunkWork(cfg, w, todo[0]).world, d) && d.lesson in todo[1..]
  {
    if todo[0] != d.lesson {
      var k :| 0 <= k < |todo| && todo[k] == d.lesson;
      assert todo[1..][k - 1] == d.lesson;
      ChunkFrame(cfg, w, todo[0], d.lesson);
      SameRowsHold(w, ChunkWork(cfg, w, todo[0]).world, d);
    }
  }

  /** So does every other pending activity that does not raise, reported or not. */
  lemma WorkStaysBehind(cfg: Settings, w: World, local: Local, now: Time, d: Duplicate, bad: iset<Option<string>>)
    requires TableFits(w) && StatusFits(w.status, local) && w.status != Ready && NotPast(local, d.lesson)
    requires Holds(w, d) && HasText(w, d.lesson, bad) && Unchunkable(cfg, d, bad)
    requires WorkOf(cfg, w, local, now).Work?
    ensures var work := WorkOf(cfg, w, local, now);
      && Holds(work.world, d) && work.world.status != Ready
      && StatusFits(work.world.status, local) && NotPast(Advance(local, work.result), d.lesson)
  {
    if local.AwaitChunk? {
      ChunkStaysBehind(cfg, w, local.todo, d, bad);
    }
  }

  lemma AttemptStaysBehind(cfg: Settings, w: World, outcome: Outcome, now: Time, d: Duplicate,
                           bad: iset<Option<string>>)
    requires Sound(w) && Enabled(w, Attempt(outcome, now)) && Behind(w, d)
    requires HasText(w, d.lesson, bad) && Unchunkable(cfg, d, bad)
    ensures Behind(Attempted(cfg, w, outcome, now), d)
  {
    var local := LocalOf(w);
    var work := WorkOf(cfg, w, local, now);
    if work.Raises? || outcome == NotDone {
      MissStaysBehind(w, local, d.lesson);
    } else {
      WorkStaysBehind(cfg, w, local, now, d, bad);
      if outcome == Lost {
        MissStaysBehind(work.world, local, d.lesson);
      } else {
        RecordAdvances(work.world, work.result);
      }
    }
  }

  lemma RequestStaysBehind(w: World, next: World, d: Duplicate)
    requires Behind(w, d) && next.rows == w.rows && next.status == w.status
    requires next.run in {None, Some(Run([], 0)), w.run}
    ensures Behind(next, d)
  {
    assert Replay([]) == AwaitBegin;
  }

  lemma EditStaysBehind(w: World, order: seq<LessonId>, texts: map<LessonId, Option<string>>, d: Duplicate)
    requires Behind(w, d) && d.lesson in texts
    ensures Behind(Edited(w, order, texts), d)
  {
  }

  lemma StepStaysBehind(cfg: Settings, w: World, step: Step, next: World, d: Duplicate, bad: iset<Option<string>>)
    requires Sound(w) && Taken(cfg, w, step, next) && Behind(w, d) && HasText(w, d.lesson, bad)
    requires Unchunkable(cfg, d, bad) && HasText(next, d.lesson, bad)
    ensures Behind(next, d)
  {
    match step
    case Attempt(outcome, now) => AttemptStaysBehind(cfg, w, outcome, now, d, bad);
    case Elsewhere(_, _) => SameRowsHold(w, next, d);
    case Edit(order, texts) => EditStaysBehind(w, order, texts, d);
    case _ => RequestStaysBehind(w, next, d);
  }

  lemma NextStaysBehind(cfg: Settings, ws: seq<World>, steps: seq<Step>, j: nat, d: Duplicate,
                        bad: iset<Option<string>>)
    requires Behaviour(cfg, ws, steps) && 0 < j < |ws| && Behind(ws[j - 1], d)
    requires Unchunkable(cfg, d, bad) && HasText(ws[j - 1], d.lesson, bad) && HasText(ws[j], d.lesson, bad)
    ensures Behind(ws[j], d)
  {
    StepTo(cfg, ws, steps, j);
    StepStaysBehind(cfg, ws[j - 1], steps[j - 1], ws[j], d, bad);
  }

  lemma {:induction false} NotReadyBefore(cfg: Settings, ws: seq<World>, steps: seq<Step>, i: nat, j: nat,
                                          d: Duplicate, bad: iset<Option<string>>) returns (k: nat)
    requires Behaviour(cfg, ws, steps) && i <= j < |ws| && ws[j].status == Ready
    requires Behind(ws[i], d) && HasText(ws[i], d.lesson, bad) && Unchunkable(cfg, d, bad)
    ensures i < k <= j && !HasText(ws[k], d.lesson, bad)
    decreases j - i
  {
    k := i + 1;
    if HasText(ws[k], d.lesson, bad) {
      NextStaysBehind(cfg, ws, steps, k, d, bad);
      k := NotReadyBefore(cfg, ws, steps, k, j, d, bad);
    }
  }

  /** Such a course, under a text that clashes with the rows. */
  ghost predicate Blocked(cfg: Settings, w: World, d: Duplicate) {
    Behind(w, d) && d.lesson in w.texts && Clashes(cfg, w.texts[d.lesson], d)
  }

  /** STUCK. Take a blocked course. However often it is published, and whatever else happens, if it
      ever becomes ready then before that the lesson was removed, or given a text that no longer
      wants the digest or no longer reaches the place of the first row. No other edit helps. */
  lemma StuckUntilResolved(cfg: Settings, ws: seq<World>, steps: seq<Step>, i: nat, j: nat, d: Duplicate)
    returns (k: nat)
    requires Behaviour(cfg, ws, steps) && i <= j < |ws| && ws[j].status == Ready && Blocked(cfg, ws[i], d)
    ensures i < k <= j && (d.lesson in ws[k].texts ==> !Clashes(cfg, ws[k].texts[d.lesson], d))
  {
    var bad := iset content: Option<string> | Clashes(cfg, content, d);
    forall w: World | TableFits(w) && Holds(w, d) && HasText(w, d.lesson, bad)
      ensures ChunkWork(cfg, w, d.lesson).Raises?
    {
      RefusedIff(cfg, w, d.lesson);
    }
    k := NotReadyBefore(cfg, ws, steps, i, j, d, bad);
  }

  // -------------------------------------------------------- how it gets there

  /** A committed lesson whose text repeats a piece holds such rows. */
  lemma SettledHasDuplicate(cfg: Settings, w: World, l: LessonId) returns (d: Duplicate)
    requires l in w.texts && !Distinct(PiecesOf(cfg, w.texts, l))
    requires Settled(RowsFor(w.rows, l), l, PiecesOf(cfg, w.texts, l), w.nextKey)
    ensures d.lesson == l && Holds(w, d) && Clashes(cfg, w.texts[l], d)
  {
    var rows := RowsFor(w.rows, l);
    var a, b := RepeatHeldTwice(rows, l, PiecesOf(cfg, w.texts, l), w.nextKey);
    d := Duplicate(l, a, rows[a], b, rows[b]);
  }

  lemma CommitSettles(cfg: Settings, w: World, l: LessonId)
    requires TableFits(w) && l in w.texts && ChunkWork(cfg, w, l).Work?
    ensures var done := ChunkWork(cfg, w, l).world;
      Settled(RowsFor(done.rows, l), l, PiecesOf(cfg, w.texts, l), done.nextKey)
  {
    var pieces := PiecesOf(cfg, w.texts, l);
    RowsForValid(w.rows, l, w.nextKey);
    AfterChunkingFrame(w.rows, l, pieces, w.nextKey);
    CommittedIsSettled(RowsFor(w.rows, l), l, pieces, w.nextKey);
  }

  /** One way: a worker dies between the commit of a lesson that repeats a piece and its report. */
  lemma LostCommitBlocks(cfg: Settings, w: World, local: Local, l: LessonId, now: Time) returns (d: Duplicate)
    requires Sound(w) && w.run.Some? && w.status != Ready && local == LocalOf(w)
    requires local.AwaitChunk? && local.todo != [] && local.todo[0] == l && l in w.texts
    requires !Distinct(PiecesOf(cfg, w.texts, l)) && ChunkWork(cfg, w, l).Work?
    ensures d.lesson == l && Blocked(cfg, Attempted(cfg, w, Lost, now), d)
  {
    var done := ChunkWork(cfg, w, l).world;
    CommitSettles(cfg, w, l);
    d := SettledHasDuplicate(cfg, done, l);
    MissStaysBehind(done, local, l);
    MissedLocal(done, local);
    assert Attempted(cfg, w, Lost, now) == Missed(done, local);
  }

  lemma DoneHasDuplicate(cfg: Settings, start: World, w: World, l: LessonId) returns (d: Duplicate)
    requires TableFits(w) && w.texts == start.texts && l in w.texts && Done(cfg, start, w, l)
    requires !Distinct(PiecesOf(cfg, start.texts, l))
    ensures d.lesson == l && Holds(w, d) && Clashes(cfg, w.texts[l], d)
  {
    DoneIsSettled(cfg, start, w, l);
    d := SettledHasDuplicate(cfg, w, l);
  }

  /** Another: such a lesson was committed at some point, and without an edit in between the course is
      found not ready and no run past the lesson: it failed, is failing, or is being tried again. */
  lemma LaterFailureBlocks(cfg: Settings, ws: seq<World>, steps: seq<Step>, b: nat, i: nat, j: nat, l: LessonId)
    returns (d: Duplicate)
    requires Behaviour(cfg, ws, steps) && b <= i <= j < |ws| && forall k :: b <= k < j ==> !steps[k].Edit?
    requires l in ws[b].order && Done(cfg, ws[b], ws[i], l) && !Distinct(PiecesOf(cfg, ws[b].texts, l))
    requires ws[j].status != Ready && (ws[j].run.Some? ==> NotPast(LocalOf(ws[j]), l))
    ensures d.lesson == l && Blocked(cfg, ws[j], d)
  {
    NothingIsUndone(cfg, ws, steps, b, i, j, l);
    AlwaysSound(cfg, ws, steps, j);
    d := DoneHasDuplicate(cfg, ws[b], ws[j], l);
  }

  // ------------------------------------------- from nothing to a blocked course

  /** A behaviour goes on by any step that can be taken. */
  lemma GoesOn(cfg: Settings, ws: seq<World>, steps: seq<Step>, step: Step)
    requires Behaviour(cfg, ws, steps) && Enabled(ws[|steps|], step)
    ensures Behaviour(cfg, ws + [After(cfg, ws[|steps|], step)], steps + [step])
  {
    var more, next := ws + [After(cfg, ws[|steps|], step)], steps + [step];
    forall i | 0 <= i < |next| ensures Taken(cfg, more[i], next[i], more[i + 1]) {
      if i < |steps| {
        assert Taken(cfg, ws[i], steps[i], ws[i + 1]);
      }
    }
  }

  /** The course with its one lesson written, at each point of its first publish. */
  function Written(l: LessonId, content: Option<string>, status: Status, run: Option<Run>, admitted: nat): World {
    World(status, None, [l], map[l := content], {l}, map[], 0, run, admitted)
  }

  function Listing(l: LessonId, n: nat): Option<Run> {
    Some(Run(if n == 0 then [] else if n == 1 then [Began(true)] else [Began(true), Listed([l])], 0))
  }

  function Path(l: LessonId, content: Option<string>, n: nat): World {
    if n == 0 then Created()
    else if n == 1 then Written(l, content, Draft, None, 0)
    else if n == 2 then Written(l, content, Draft, None, 1)
    else if n == 3 then Written(l, content, Draft, Listing(l, 0), 0)
    else if n == 4 then Written(l, content, PublishingNow, Listing(l, 1), 0)
    else Written(l, content, PublishingNow, Listing(l, 2), 0)
  }

  function PathStep(l: LessonId, content: Option<string>, now: Time, n: nat): Step {
    if n == 0 then Edit([l], map[l := content])
    else if n == 1 then CheckRequest
    else if n == 2 then StartRequest
    else Attempt(Recorded, now)
  }

  lemma ListingLocals(l: LessonId)
    ensures Replay([]) == AwaitBegin && Replay([Began(true)]) == AwaitList(true)
    ensures Replay([Began(true), Listed([l])]) == AwaitChunk(true, [l], 0)
  {
    ReplayOneMore([], Began(true));
    ReplayOneMore([Began(true)], Listed([l]));
    assert [] + [Began(true)] == [Began(true)];
    assert [Began(true)] + [Listed([l])] == [Began(true), Listed([l])];
  }

  lemma RequestsTake(cfg: Settings, l: LessonId, content: Option<string>, now: Time, n: nat)
    requires n < 3
    ensures Taken(cfg, Path(l, content, n), PathStep(l, content, now, n), Path(l, content, n + 1))
  {
    assert {} + map[l := content].Keys == {l};
    assert Cascaded(map[], {} - {l}) == map[];
  }

  lemma ActivitiesTake(cfg: Settings, l: LessonId, content: Option<string>, now: Time, n: nat)
    requires 3 <= n < 5
    ensures Taken(cfg, Path(l, content, n), PathStep(l, content, now, n), Path(l, content, n + 1))
  {
    ListingLocals(l);
    assert [] + [Began(true)] == [Began(true)];
    assert [Began(true)] + [Listed([l])] == [Began(true), Listed([l])];
  }

  /** With nothing stored the first commit is accepted. */
  lemma FirstCommitAccepted(cfg: Settings, l: LessonId, content: Option<string>)
    ensures Sound(Path(l, content, 5)) && LocalOf(Path(l, content, 5)) == AwaitChunk(true, [l], 0)
    ensures ChunkWork(cfg, Path(l, content, 5), l).Work?
  {
    ListingLocals(l);
    RefusedIff(cfg, Path(l, content, 5), l);
  }

  /** From a newly created course to the point where its lesson is to be chunked. */
  lemma FirstPath(cfg: Settings, l: LessonId, content: Option<string>, now: Time)
    returns (ws: seq<World>, steps: seq<Step>)
    ensures Behaviour(cfg, ws, steps) && |steps| == 5 && ws[5] == Path(l, content, 5)
  {
    ws := seq(6, i requires 0 <= i < 6 => Path(l, content, i));
    steps := seq(5, i requires 0 <= i < 5 => PathStep(l, content, now, i));
    forall i | 0 <= i < 5 ensures Taken(cfg, ws[i], steps[i], ws[i + 1]) {
      if i < 3 {
        RequestsTake(cfg, l, content, now, i);
      } else {
        ActivitiesTake(cfg, l, content, now, i);
      }
    }
  }

  /** At the lesson, which has such a text, its first commit is accepted. */
  ghost predicate AtItsCommit(cfg: Settings, w: World, l: LessonId) {
    && Sound(w) && w.run.Some? && w.status != Ready && LocalOf(w) == AwaitChunk(true, [l], 0)
    && l in w.texts && !Distinct(PiecesOf(cfg, w.texts, l)) && ChunkWork(cfg, w, l).Work?
  }

  lemma PathFields(l: LessonId, content: Option<string>)
    ensures var w := Path(l, content, 5); w.run.Some? && w.status == PublishingNow && w.texts == map[l := content]
  {
  }

  lemma PathGetsThere(cfg: Settings, l: LessonId, content: Option<string>)
    requires !Distinct(ChunksOfContent(content, cfg.maxTokens, cfg.overlapTokens))
    ensures AtItsCommit(cfg, Path(l, content, 5), l)
  {
    var w := Path(l, content, 5);
    PathFields(l, content);
    assert PiecesOf(cfg, w.texts, l) == ChunksOfContent(content, cfg.maxTokens, cfg.overlapTokens);
    FirstCommitAccepted(cfg, l, content);
  }

  lemma LossBlocks(cfg: Settings, w: World, l: LessonId, now: Time) returns (d: Duplicate)
    requires AtItsCommit(cfg, w, l)
    ensures Enabled(w, Attempt(Lost, now)) && d.lesson == l && Blocked(cfg, After(cfg, w, Attempt(Lost, now)), d)
  {
    d := LostCommitBlocks(cfg, w, LocalOf(w), l, now);
  }

  /** REACHED. From a newly created course, a lesson that repeats a piece and one lost report are
      enough to block it. */
  lemma BlockedIsReached(cfg: Settings, l: LessonId, content: Option<string>, now: Time)
    returns (ws: seq<World>, steps: seq<Step>, d: Duplicate)
    requires !Distinct(ChunksOfContent(content, cfg.maxTokens, cfg.overlapTokens))
    ensures Behaviour(cfg, ws, steps) && d.lesson == l && Blocked(cfg, ws[|steps|], d)
  {
    var before, first := FirstPath(cfg, l, content, now);
    PathGetsThere(cfg, l, content);
    d := LossBlocks(cfg, before[5], l, now);
    GoesOn(cfg, before, first, Attempt(Lost, now));
    ws := before + [After(cfg, before[5], Attempt(Lost, now))];
    steps := first + [Attempt(Lost, now)];
  }

  /** Under every ceiling and overlap, those deployed included: a course whose one lesson says a
      plain word often enough. */
  lemma EverySettingCanBlock(cfg: Settings, l: LessonId, word: string, now: Time)
    returns (ws: seq<World>, steps: seq<Step>, d: Duplicate)
    requires Plain(word)
    ensures Behaviour(cfg, ws, steps) && d.lesson == l && Blocked(cfg, ws[|steps|], d)
  {
    var n := PerChunk(cfg.maxTokens);
    EveryCeilingRepeats(word, cfg.maxTokens, cfg.overlapTokens);
    var pieces := [Said(word, n), Said(word, n)];
    assert pieces[0] == pieces[1] && !Distinct(pieces);
    ws, steps, d := BlockedIsReached(cfg, l, Some(Said(word, 2 * n)), now);
  }
}
