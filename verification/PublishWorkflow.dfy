/** `workflows/publishing.py`: the workflow as a function of its recorded results, and the
    sequential code that replays them. */
module PublishWorkflow {
  import opened ChunkStore

  /** A recorded activity result. Only chunking can be recorded as failed: it has three attempts,
      the others are retried until they succeed. */
  datatype Result =
    | Began(isFirst: bool)
    | Listed(ids: seq<LessonId>)
    | Chunked(count: nat)
    | ChunkingFailed
    | MarkedReady
    | MarkedFailed

  /** Where a run stands: the activity it waits for, how it ended, or that the history is not one
      this code can have produced. */
  datatype Local =
    | AwaitBegin
    | AwaitList(isFirst: bool)
    | AwaitChunk(isFirst: bool, todo: seq<LessonId>, written: nat)
    | AwaitReady(written: nat)
    | AwaitFailed
    | Returned(isFirst: bool, written: nat)
    | Raised(isFirst: bool)
    | Diverged

  /** At the head of the loop, or past it when nothing is left to do. */
  function AtLoop(isFirst: bool, todo: seq<LessonId>, written: nat): Local {
    if todo != [] then AwaitChunk(isFirst, todo, written)
    else if isFirst then AwaitReady(written)
    else Returned(false, written)
  }

  /** In the loop, or in the handler once a lesson has failed. */
  function AtFork(isFirst: bool, todo: seq<LessonId>, written: nat, failed: bool): Local {
    if !failed then AtLoop(isFirst, todo, written)
    else if isFirst then AwaitFailed
    else Raised(false)
  }

  /** One recorded result arrives. */
  function Advance(local: Local, result: Result): Local {
    match (local, result)
    case (AwaitBegin, Began(isFirst)) => AwaitList(isFirst)
    case (AwaitList(isFirst), Listed(ids)) => AtLoop(isFirst, ids, 0)
    case (AwaitChunk(isFirst, todo, written), Chunked(count)) =>
      if todo == [] then Diverged else AtLoop(isFirst, todo[1..], written + count)
    case (AwaitChunk(isFirst, _, _), ChunkingFailed) => if isFirst then AwaitFailed else Raised(false)
    case (AwaitReady(written), MarkedReady) => Returned(true, written)
    case (AwaitFailed, MarkedFailed) => Raised(true)
    case _ => Diverged
  }

  /** Continue from `local` through a stretch of history. */
  function Resume(local: Local, history: seq<Result>): Local
    decreases |history|
  {
    if history == [] then local else Resume(Advance(local, history[0]), history[1..])
  }

  /** Re-run from the top. */
  function Replay(history: seq<Result>): Local {
    Resume(AwaitBegin, history)
  }

  /** A worker that lost its memory after any prefix and re-ran it from the top is where it was. */
  lemma {:induction false} ReplayAfterCrash(local: Local, before: seq<Result>, after: seq<Result>)
    ensures Resume(local, before + after) == Resume(Resume(local, before), after)
    decreases |before|
  {
    if before == [] {
      assert before + after == after;
    } else {
      assert (before + after)[1..] == before[1..] + after;
      ReplayAfterCrash(Advance(local, before[0]), before[1..], after);
    }
  }

  lemma ReplayOneMore(history: seq<Result>, result: Result)
    ensures Replay(history + [result]) == Advance(Replay(history), result)
  {
    ReplayAfterCrash(AwaitBegin, history, [result]);
    assert [result][1..] == [];
    assert Resume(Replay(history), [result]) == Resume(Advance(Replay(history), result), []);
  }

  lemma {:induction false} DivergedForGood(history: seq<Result>)
    ensures Resume(Diverged, history) == Diverged
  {
    if history != [] {
      DivergedForGood(history[1..]);
    }
  }

  lemma EndedForGood(local: Local, history: seq<Result>)
    requires local.Returned? || local.Raised?
    ensures Resume(local, history) == if history == [] then local else Diverged
  {
    if history != [] {
      DivergedForGood(history[1..]);
    }
  }

  lemma UnfoldResume(local: Local, history: seq<Result>, i: nat)
    requires i < |history|
    ensures Resume(local, history[i..]) == Resume(Advance(local, history[i]), history[i + 1..])
  {
  }

  /** `PublishCourseWorkflow.run`, executed over a recorded history: each `execute_activity` takes
      the next recorded result, and where none is left the run waits. */
  method Run(history: seq<Result>) returns (out: Local)
    ensures out == Replay(history)
  {
    if |history| == 0 {
      return AwaitBegin;
    }
    assert history[0..] == history;
    UnfoldResume(AwaitBegin, history, 0);
    if !history[0].Began? {
      DivergedForGood(history[1..]);
      return Diverged;
    }
    var isFirst := history[0].isFirst;

    if |history| == 1 {
      return AwaitList(isFirst);
    }
    UnfoldResume(AwaitList(isFirst), history, 1);
    if !history[1].Listed? {
      DivergedForGood(history[2..]);
      return Diverged;
    }
    var lessonIds := history[1].ids;
    var written, next, i, failed := 0, 2, 0, false;
    assert lessonIds[0..] == lessonIds;
    while i < |lessonIds| && !failed
      invariant 0 <= i <= |lessonIds| && 2 <= next <= |history|
      invariant Replay(history) == Resume(AtFork(isFirst, lessonIds[i..], written, failed), history[next..])
      decreases |lessonIds| - i, !failed
    {
      if next == |history| {
        return AwaitChunk(isFirst, lessonIds[i..], written);
      }
      UnfoldResume(AwaitChunk(isFirst, lessonIds[i..], written), history, next);
      assert lessonIds[i..][1..] == lessonIds[i + 1..];
      match history[next] {
        case Chunked(count) =>
          written := written + count;
          i := i + 1;
        case ChunkingFailed =>
          failed := true;
        case _ =>
          DivergedForGood(history[next + 1..]);
          return Diverged;
      }
      next := next + 1;
    }

    out := Conclude(isFirst, written, failed, history, next);
  }

  /** What follows the loop: `mark_ready` after a success, `mark_failed` in the handler. */
  method Conclude(isFirst: bool, written: nat, failed: bool, history: seq<Result>, next: nat) returns (out: Local)
    requires next <= |history|
    ensures out == Resume(AtFork(isFirst, [], written, failed), history[next..])
  {
    out := if failed then Raised(isFirst) else Returned(isFirst, written);
    var rest := next;
    if isFirst {
      var waiting := if failed then AwaitFailed else AwaitReady(written);
      if next == |history| {
        return waiting;
      }
      UnfoldResume(waiting, history, next);
      if history[next] != (if failed then MarkedFailed else MarkedReady) {
        DivergedForGood(history[next + 1..]);
        return Diverged;
      }
      rest := next + 1;
    }
    EndedForGood(out, history[rest..]);
    if rest < |history| {
      out := Diverged;
    }
  }

  // ------------------------------------------------ which histories lead where

  function Sum(counts: seq<nat>): nat {
    if counts == [] then 0 else counts[0] + Sum(counts[1..])
  }

  /** From `i` on the history holds exactly these successes. */
  predicate Succeeded(history: seq<Result>, i: nat, counts: seq<nat>) {
    |history| == i + |counts| && forall k :: 0 <= k < |counts| ==> history[i + k] == Chunked(counts[k])
  }

  /** The history of a run in which the first `|counts|` listed lessons have succeeded. */
  predicate IsProgress(history: seq<Result>, isFirst: bool, ids: seq<LessonId>, counts: seq<nat>) {
    Succeeded(history, 2, counts) && history[0] == Began(isFirst) && history[1] == Listed(ids)
  }

  lemma {:induction false} LoopForward(isFirst: bool, todo: seq<LessonId>, written: nat, counts: seq<nat>,
                                       history: seq<Result>, i: nat)
    requires Succeeded(history, i, counts) && |counts| <= |todo|
    ensures Resume(AtLoop(isFirst, todo, written), history[i..])
         == AtLoop(isFirst, todo[|counts|..], written + Sum(counts))
    decreases |counts|
  {
    if counts == [] {
      assert todo[0..] == todo && history[i..] == [];
    } else {
      assert history[i + 0] == Chunked(counts[0]);
      UnfoldResume(AtLoop(isFirst, todo, written), history, i);
      forall k | 0 <= k < |counts| - 1 ensures history[i + 1 + k] == Chunked(counts[1..][k]) {
        assert history[i + (k + 1)] == Chunked(counts[k + 1]);
      }
      LoopForward(isFirst, todo[1..], written + counts[0], counts[1..], history, i + 1);
      assert todo[1..][|counts| - 1..] == todo[|counts|..];
    }
  }

  /** The only way to be at the loop, or waiting to mark the course ready, is to have recorded a
      success for every lesson before. */
  lemma {:induction false} LoopBackward(isFirst: bool, todo: seq<LessonId>, written: nat, history: seq<Result>, i: nat)
    returns (counts: seq<nat>)
    requires i <= |history|
    requires var l := Resume(AtLoop(isFirst, todo, written), history[i..]); l.AwaitChunk? || l.AwaitReady?
    ensures |counts| <= |todo| && Succeeded(history, i, counts)
    ensures Resume(AtLoop(isFirst, todo, written), history[i..])
         == AtLoop(isFirst, todo[|counts|..], written + Sum(counts))
    decreases |history| - i
  {
    if i == |history| {
      counts := [];
      assert todo[0..] == todo;
    } else {
      var here := AtLoop(isFirst, todo, written);
      UnfoldResume(here, history, i);
      DivergedForGood(history[i + 1..]);
      NoWayBack(Advance(here, history[i]), history[i + 1..]);
      assert here.AwaitChunk? && history[i].Chunked?;
      var more := LoopBackward(isFirst, todo[1..], written + history[i].count, history, i + 1);
      counts := [history[i].count] + more;
      assert counts[1..] == more && todo[1..][|more|..] == todo[|counts|..];
      forall k | 0 <= k < |counts| ensures history[i + k] == Chunked(counts[k]) {
        assert k > 0 ==> history[i + 1 + (k - 1)] == Chunked(more[k - 1]);
      }
    }
  }

  /** Once past the loop there is no way back to it. */
  lemma {:induction false} NoWayBack(local: Local, history: seq<Result>)
    requires !local.AwaitBegin? && !local.AwaitList?
    ensures local.AwaitFailed? || local.Returned? || local.Raised? ==>
              var l := Resume(local, history); !l.AwaitChunk? && !l.AwaitReady?
    decreases |history|
  {
    DivergedForGood(history);
    if history != [] {
      NoWayBack(Advance(local, history[0]), history[1..]);
    }
  }

  lemma ProgressReplays(history: seq<Result>, isFirst: bool, ids: seq<LessonId>, counts: seq<nat>)
    requires IsProgress(history, isFirst, ids, counts) && |counts| <= |ids|
    ensures Replay(history) == AtLoop(isFirst, ids[|counts|..], Sum(counts))
  {
    assert history[0..] == history;
    UnfoldResume(AwaitBegin, history, 0);
    UnfoldResume(AwaitList(isFirst), history, 1);
    LoopForward(isFirst, ids, 0, counts, history, 2);
  }

  /** READY ONLY AFTER EVERYTHING. A run waits to mark the course ready exactly when its history is
      a first publish whose every listed lesson succeeded, and the total is the sum recorded. */
  lemma ReadyOnlyAfterEverything(history: seq<Result>, written: nat)
    ensures Replay(history) == AwaitReady(written)
       <==> exists ids: seq<LessonId>, counts: seq<nat> ::
              |counts| == |ids| && IsProgress(history, true, ids, counts) && Sum(counts) == written
  {
    if Replay(history) == AwaitReady(written) {
      var ids, counts := AtLoopHistory(history);
    }
    if ids: seq<LessonId>, counts: seq<nat> :|
         |counts| == |ids| && IsProgress(history, true, ids, counts) && Sum(counts) == written {
      ProgressReplays(history, true, ids, counts);
    }
  }

  lemma AtLoopHistory(history: seq<Result>) returns (ids: seq<LessonId>, counts: seq<nat>)
    requires Replay(history).AwaitChunk? || Replay(history).AwaitReady?
    ensures |counts| <= |ids| && history != [] && history[0].Began?
    ensures IsProgress(history, history[0].isFirst, ids, counts)
    ensures Replay(history) == AtLoop(history[0].isFirst, ids[|counts|..], Sum(counts))
  {
    assert history[0..] == history && history != [];
    DivergedForGood(history[1..]);
    UnfoldResume(AwaitBegin, history, 0);
    assert history[0].Began? && |history| > 1;
    DivergedForGood(history[2..]);
    UnfoldResume(AwaitList(history[0].isFirst), history, 1);
    assert history[1].Listed?;
    ids := history[1].ids;
    counts := LoopBackward(history[0].isFirst, ids, 0, history, 2);
  }

  /** The total a run has summed up when it waits to mark the course ready is the total it returns. */
  lemma TotalIsReturned(history: seq<Result>, more: seq<Result>, written: nat)
    requires Replay(history) == AwaitReady(written) && more != []
    ensures Replay(history + more) == if more == [MarkedReady] then Returned(true, written) else Diverged
  {
    ReplayAfterCrash(AwaitBegin, history, more);
    var next := Advance(AwaitReady(written), more[0]);
    DivergedForGood(more[1..]);
    if next != Diverged {
      EndedForGood(next, more[1..]);
    }
    assert more == [more[0]] + more[1..];
  }

  /** ONE ENDING. No history this code can produce records both `mark_ready` and `mark_failed`. */
  lemma {:induction false} NeverBothEndings(local: Local, history: seq<Result>)
    requires Resume(local, history) != Diverged
    ensures !(MarkedReady in history && MarkedFailed in history)
    decreases |history|
  {
    if history != [] {
      var next, rest := Advance(local, history[0]), history[1..];
      DivergedForGood(rest);
      if history[0] == MarkedReady || history[0] == MarkedFailed {
        EndedForGood(next, rest);
        assert rest == [];
      }
      NeverBothEndings(next, rest);
      assert history == [history[0]] + rest;
    }
  }

  /** `workflow_id_for`. */
  function WorkflowIdFor(courseId: string): string {
    "publish-course-" + courseId
  }

  /** Publishes of different courses never share a workflow id. */
  lemma WorkflowIdsDiffer(a: string, b: string)
    requires WorkflowIdFor(a) == WorkflowIdFor(b)
    ensures a == b
  {
    var n := |"publish-course-"|;
    assert WorkflowIdFor(a)[n..] == a && WorkflowIdFor(b)[n..] == b;
  }
}
