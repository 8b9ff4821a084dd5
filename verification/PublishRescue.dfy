/** That no course is lost: from wherever it stands it can be made ready. */
module PublishRescue {
  import opened Options
  import opened ChunkStore
  import opened Publishing
  import opened PublishProtocol
  import opened PublishRuns
  import opened PublishOutcome
  import opened PublishFailures
  import opened PublishAttempts

  /** The texts with those of the lessons that cannot be chunked left empty. */
  ghost function Emptied(cfg: Settings, w: World): map<LessonId, Option<string>> {
    map l | l in w.texts :: if Chunkable(cfg, w, l) then w.texts[l] else None
  }

  lemma NothingToChunk(cfg: Settings, w: World, l: LessonId)
    requires PiecesOf(cfg, w.texts, l) == []
    ensures Chunkable(cfg, w, l)
  {
  }

  lemma SameText(cfg: Settings, w: World, next: World, l: LessonId)
    requires Chunkable(cfg, w, l) && l in w.texts && l in next.texts && next.texts[l] == w.texts[l]
    requires RowsFor(next.rows, l) == RowsFor(w.rows, l)
    ensures Chunkable(cfg, next, l)
  {
    assert PiecesOf(cfg, next.texts, l) == PiecesOf(cfg, w.texts, l);
  }

  /** The edit keeps every lesson, and so all rows. */
  lemma EmptiedKeepsRows(cfg: Settings, w: World)
    ensures var next := Edited(w, w.order, Emptied(cfg, w));
      && next.rows == w.rows && next.texts == Emptied(cfg, w) && next.texts.Keys == w.texts.Keys
  {
    assert Emptied(cfg, w).Keys == w.texts.Keys;
    assert Cascaded(w.rows, {}) == w.rows;
  }

  lemma EmptiedIsChunkable(cfg: Settings, w: World)
    ensures AllChunkable(cfg, Edited(w, w.order, Emptied(cfg, w)), w.order)
  {
    var next := Edited(w, w.order, Emptied(cfg, w));
    EmptiedKeepsRows(cfg, w);
    forall l | l in w.order ensures Chunkable(cfg, next, l) {
      if l in w.texts && Chunkable(cfg, w, l) {
        SameText(cfg, w, next, l);
      } else {
        NothingToChunk(cfg, next, l);
      }
    }
  }

  /** With no run live and nobody publishing: an edit of those lessons alone, a request, and a worker
      that stays up. */
  lemma EditThenPublish(cfg: Settings, w: World, now: Time) returns (steps: seq<Step>, end: World)
    requires Sound(w) && w.run.None?
    ensures Leads(cfg, w, steps, end) && end.status == Ready && end.order == w.order
    ensures end.texts == Emptied(cfg, w)
  {
    var edit := Edit(w.order, Emptied(cfg, w));
    var edited := After(cfg, w, edit);
    StepKeepsSound(cfg, w, edit);
    EmptiedIsChunkable(cfg, w);
    var asked := After(cfg, edited, CheckRequest);
    StepKeepsSound(cfg, edited, CheckRequest);
    SameAllChunkable(cfg, edited, asked, w.order);
    var started := After(cfg, asked, StartRequest);
    var n := PublishSucceedsIff(cfg, asked, now);
    end := Driven(cfg, started, now, n);
    steps := DrivenLeads(cfg, started, now, n);
    DrivenKeepsLessons(cfg, started, now, n);
    StepThen(cfg, asked, StartRequest, steps, end);
    StepThen(cfg, edited, CheckRequest, [StartRequest] + steps, end);
    StepThen(cfg, w, edit, [CheckRequest] + ([StartRequest] + steps), end);
    steps := [edit] + ([CheckRequest] + ([StartRequest] + steps));
  }

  lemma {:induction false} DrivenKeepsLessons(cfg: Settings, w: World, now: Time, n: nat)
    requires Sound(w)
    ensures Driven(cfg, w, now, n).order == w.order && Driven(cfg, w, now, n).texts == w.texts
    decreases n
  {
    if n > 0 && Enabled(w, Attempt(Recorded, now)) {
      StepKeepsSound(cfg, w, Attempt(Recorded, now));
      SameLessons(cfg, w, Attempt(Recorded, now));
      DrivenKeepsLessons(cfg, After(cfg, w, Attempt(Recorded, now)), now, n - 1);
    }
  }

  /** A run that is live can be brought to its end and put away. */
  lemma EndsAndCloses(cfg: Settings, w: World, now: Time) returns (steps: seq<Step>, end: World)
    requires Sound(w) && w.run.Some?
    ensures Leads(cfg, w, steps, end) && Sound(end) && end.run.None? && end.order == w.order && end.texts == w.texts
  {
    var n := RunsFinish(cfg, w, now);
    var ended := Driven(cfg, w, now, n);
    var before := DrivenLeads(cfg, w, now, n);
    DrivenKeepsLessons(cfg, w, now, n);
    DrivenStatus(cfg, w, now, n);
    end := After(cfg, ended, Close);
    StepKeepsSound(cfg, ended, Close);
    StepThen(cfg, ended, Close, [], end);
    LeadsOn(cfg, w, before, ended, [Close] + [], end);
    steps := before + ([Close] + []);
  }

  /** NO COURSE IS LOST. From every sound state, whatever was refused, crashed or is still running, the
      course can be made ready with all its lessons: let the run end, leave empty the texts of lessons
      that cannot be chunked, if any, and publish again. */
  lemma CanAlwaysBeReady(cfg: Settings, w: World, now: Time) returns (steps: seq<Step>, end: World)
    requires Sound(w)
    ensures Leads(cfg, w, steps, end) && end.status == Ready && end.order == w.order
    ensures forall l :: l in w.texts ==> l in end.texts && (end.texts[l] == w.texts[l] || end.texts[l] == None)
  {
    if w.run.None? {
      steps, end := EditThenPublish(cfg, w, now);
    } else {
      var before, idle := EndsAndCloses(cfg, w, now);
      var after, last := EditThenPublish(cfg, idle, now);
      LeadsOn(cfg, w, before, idle, after, last);
      steps, end := before + after, last;
    }
  }
}
