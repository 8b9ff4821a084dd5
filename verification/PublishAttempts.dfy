/** How often a lesson is tried before its publish gives up. */
module PublishAttempts {
  import opened Options
  import opened ChunkStore
  import opened Publishing
  import opened PublishWorkflow
  import opened PublishProtocol
  import opened PublishRuns
  import opened PublishBlocked
  import opened PublishOutcome
  import opened PublishFailures

  /** The attempts among these steps. */
  function AttemptsIn(steps: seq<Step>, i: nat, j: nat): set<nat>
    requires i <= j <= |steps|
  {
    set k | i <= k < j && steps[k].Attempt?
  }

  lemma AttemptsOneMore(steps: seq<Step>, i: nat, j: nat)
    requires i <= j < |steps|
    ensures |AttemptsIn(steps, i, j + 1)| == |AttemptsIn(steps, i, j)| + if steps[j].Attempt? then 1 else 0
  {
    var now := AttemptsIn(steps, i, j);
    assert AttemptsIn(steps, i, j + 1) == if steps[j].Attempt? then now + {j} else now;
  }

  /** Live, with this much recorded. */
  predicate HasRecorded(w: World, history: seq<PublishWorkflow.Result>) {
    w.run.Some? && w.run.value.history == history
  }

  /** The step is no attempt, or one that reports no result. */
  ghost predicate Unreported(cfg: Settings, w: World, step: Step) {
    step.Attempt? ==> step.outcome != Recorded || (w.run.Some? && WorkOf(cfg, w, LocalOf(w), step.now).Raises?)
  }

  /** From the `i`th state, where a result was just recorded, to the `j`th, no other one was. */
  ghost predicate SinceRecorded(cfg: Settings, ws: seq<World>, steps: seq<Step>, i: nat, j: nat)
    requires |ws| == |steps| + 1 && i <= j < |ws|
  {
    && 0 < i && ws[i - 1].run.Some? && ws[i].run.Some? && ws[i].run.value.history != []
    && HasRecorded(ws[i - 1], ws[i].run.value.history[..|ws[i].run.value.history| - 1])
    && (forall k :: i <= k <= j ==> HasRecorded(ws[k], ws[i].run.value.history))
    && (forall k :: i <= k < j ==> Unreported(cfg, ws[k], steps[k]))
  }

  /** The run after an attempt that reports nothing. */
  function Missing(run: Run): Run {
    if run.attempts < 2 then Run(run.history, run.attempts + 1) else Run(run.history + [ChunkingFailed], 0)
  }

  lemma MissedRun(w: World, local: Local)
    requires w.run.Some? && local.AwaitChunk? && w.run.value.attempts <= 2
    ensures Missed(w, local).run == Some(Missing(w.run.value))
  {
  }

  /** One step of a run that waits for a lesson: the attempt that reports nothing is counted, and the
      third one is the last. */
  lemma WaitingStep(cfg: Settings, w: World, step: Step)
    requires Enabled(w, step) && w.run.Some? && LocalOf(w).AwaitChunk? && Unreported(cfg, w, step)
    requires w.run.value.attempts <= 2
    ensures After(cfg, w, step).run == if step.Attempt? then Some(Missing(w.run.value)) else w.run
  {
    if step.Attempt? {
      var work := WorkOf(cfg, w, LocalOf(w), step.now);
      MissedRun(w, LocalOf(w));
      if work.Work? {
        MissedRun(work.world, LocalOf(w));
      }
    }
  }

  /** A step after which a run waits for a lesson, having just recorded a result or not. */
  lemma ArrivingStep(cfg: Settings, w: World, step: Step)
    requires Sound(w) && Enabled(w, step)
    requires var next := After(cfg, w, step); next.run.Some? && LocalOf(next).AwaitChunk?
    ensures w.run.Some?
    ensures var next := After(cfg, w, step);
      || (LocalOf(w).AwaitChunk? && Unreported(cfg, w, step) && next.run.value.history == w.run.value.history)
      || (next.run.value.attempts == 0 && next.run.value.history != []
          && HasRecorded(w, next.run.value.history[..|next.run.value.history| - 1]))
  {
    assert Replay([]) == AwaitBegin;
    if step.Attempt? {
      var local, work := LocalOf(w), WorkOf(cfg, w, LocalOf(w), step.now);
      if work.Work? && step.outcome == Recorded {
        var history := w.run.value.history;
        assert (history + [work.result])[..|history|] == history;
      } else {
        MissedLocal(if work.Work? && step.outcome == Lost then work.world else w, local);
      }
    }
  }

  /** Since the `i`th state, counted on the run itself. */
  ghost predicate CountedFrom(cfg: Settings, ws: seq<World>, steps: seq<Step>, i: nat, j: nat)
    requires |ws| == |steps| + 1 && i <= j < |ws|
  {
    && SinceRecorded(cfg, ws, steps, i, j) && ws[j].run.Some?
    && ws[j].run.value.attempts == |AttemptsIn(steps, i, j)| <= 2
  }

  lemma CountOne(cfg: Settings, ws: seq<World>, steps: seq<Step>, i: nat, j: nat)
    requires |ws| == |steps| + 1 && i <= j < |steps| && CountedFrom(cfg, ws, steps, i, j)
    requires Taken(cfg, ws[j], steps[j], ws[j + 1]) && LocalOf(ws[j]).AwaitChunk? && Unreported(cfg, ws[j], steps[j])
    requires HasRecorded(ws[j + 1], ws[j].run.value.history)
    ensures CountedFrom(cfg, ws, steps, i, j + 1)
  {
    WaitingStep(cfg, ws[j], steps[j]);
    AttemptsOneMore(steps, i, j);
  }

  lemma CountNone(cfg: Settings, ws: seq<World>, steps: seq<Step>, j: nat)
    requires |ws| == |steps| + 1 && 0 < j < |ws| && ws[j - 1].run.Some? && ws[j].run.Some?
    requires ws[j].run.value.attempts == 0 && ws[j].run.value.history != []
    requires HasRecorded(ws[j - 1], ws[j].run.value.history[..|ws[j].run.value.history| - 1])
    ensures CountedFrom(cfg, ws, steps, j, j)
  {
    assert AttemptsIn(steps, j, j) == {};
  }

  lemma {:induction false} Counted(cfg: Settings, ws: seq<World>, steps: seq<Step>, j: nat) returns (i: nat)
    requires Behaviour(cfg, ws, steps) && j < |ws| && ws[j].run.Some? && LocalOf(ws[j]).AwaitChunk?
    ensures i <= j && CountedFrom(cfg, ws, steps, i, j)
  {
    StepTo(cfg, ws, steps, j);
    ArrivingStep(cfg, ws[j - 1], steps[j - 1]);
    if && LocalOf(ws[j - 1]).AwaitChunk? && Unreported(cfg, ws[j - 1], steps[j - 1])
       && ws[j].run.value.history == ws[j - 1].run.value.history {
      i := Counted(cfg, ws, steps, j - 1);
      CountOne(cfg, ws, steps, i, j - 1);
    } else {
      i := j;
      CountNone(cfg, ws, steps, j);
    }
  }

  lemma OtherEnd(history: seq<PublishWorkflow.Result>, a: PublishWorkflow.Result, b: PublishWorkflow.Result)
    requires a != b
    ensures history + [a] != history + [b]
  {
    assert (history + [a])[|history|] == a && (history + [b])[|history|] == b;
  }

  lemma FailingStep(cfg: Settings, w: World, step: Step)
    requires Enabled(w, step) && w.run.Some?
    requires HasRecorded(After(cfg, w, step), w.run.value.history + [ChunkingFailed])
    ensures LocalOf(w).AwaitChunk? && step.Attempt? && Unreported(cfg, w, step)
  {
    var history := w.run.value.history;
    assert (history + [ChunkingFailed])[|history|] == ChunkingFailed;
    if step.Attempt? {
      var work := WorkOf(cfg, w, LocalOf(w), step.now);
      if work.Work? {
        assert work.result != ChunkingFailed;
        OtherEnd(history, work.result, ChunkingFailed);
      }
    }
  }

  /** THREE ATTEMPTS. Whenever a lesson's failure is recorded, exactly three attempts were made since the
      result before it was, in whatever interleaving; and none of them reported. */
  lemma FailsAfterThree(cfg: Settings, ws: seq<World>, steps: seq<Step>, j: nat) returns (i: nat)
    requires Behaviour(cfg, ws, steps) && j < |steps| && ws[j].run.Some?
    requires HasRecorded(ws[j + 1], ws[j].run.value.history + [ChunkingFailed])
    ensures i <= j && SinceRecorded(cfg, ws, steps, i, j) && Unreported(cfg, ws[j], steps[j])
    ensures LocalOf(ws[i]).AwaitChunk? && LocalOf(ws[j]) == LocalOf(ws[i])
    ensures steps[j].Attempt? && |AttemptsIn(steps, i, j + 1)| == 3
  {
    StepTo(cfg, ws, steps, j + 1);
    FailingStep(cfg, ws[j], steps[j]);
    i := Counted(cfg, ws, steps, j);
    WaitingStep(cfg, ws[j], steps[j]);
    AttemptsOneMore(steps, i, j);
  }

  lemma JustRecorded(cfg: Settings, w: World, step: Step, result: PublishWorkflow.Result)
    requires Enabled(w, step) && w.run.Some? && HasRecorded(After(cfg, w, step), w.run.value.history + [result])
    ensures After(cfg, w, step).run.value.attempts == 0
  {
    assert |w.run.value.history + [result]| == |w.run.value.history| + 1;
  }

  lemma WaitsOn(cfg: Settings, ws: seq<World>, steps: seq<Step>, j: nat, history: seq<PublishWorkflow.Result>, n: nat)
    requires Behaviour(cfg, ws, steps) && j < |steps| && ws[j].run == Some(Run(history, n)) && n <= 2
    requires Replay(history).AwaitChunk? && Unreported(cfg, ws[j], steps[j]) && (steps[j].Attempt? ==> n < 2)
    ensures ws[j + 1].run == Some(Run(history, n + if steps[j].Attempt? then 1 else 0))
  {
    assert Taken(cfg, ws[j], steps[j], ws[j + 1]);
    WaitingStep(cfg, ws[j], steps[j]);
  }

  lemma {:induction false} StillWaiting(cfg: Settings, ws: seq<World>, steps: seq<Step>, i: nat, j: nat,
                                        history: seq<PublishWorkflow.Result>)
    requires Behaviour(cfg, ws, steps) && i <= j < |ws|
    requires ws[i].run == Some(Run(history, 0)) && Replay(history).AwaitChunk?
    requires forall k :: i <= k < j ==> Unreported(cfg, ws[k], steps[k])
    requires |AttemptsIn(steps, i, j)| <= 2
    ensures ws[j].run == Some(Run(history, |AttemptsIn(steps, i, j)|))
    decreases j
  {
    if i < j {
      AttemptsOneMore(steps, i, j - 1);
      StillWaiting(cfg, ws, steps, i, j - 1, history);
      WaitsOn(cfg, ws, steps, j - 1, history, |AttemptsIn(steps, i, j - 1)|);
    } else {
      assert AttemptsIn(steps, i, i) == {};
    }
  }

  lemma ThirdFails(cfg: Settings, ws: seq<World>, steps: seq<Step>, j: nat, history: seq<PublishWorkflow.Result>)
    requires Behaviour(cfg, ws, steps) && j < |steps| && ws[j].run == Some(Run(history, 2))
    requires Replay(history).AwaitChunk? && steps[j].Attempt? && Unreported(cfg, ws[j], steps[j])
    ensures HasRecorded(ws[j + 1], history + [ChunkingFailed])
  {
    StepTo(cfg, ws, steps, j + 1);
    WaitingStep(cfg, ws[j], steps[j]);
  }

  lemma StartsAtNone(cfg: Settings, ws: seq<World>, steps: seq<Step>, i: nat, result: PublishWorkflow.Result)
    requires Behaviour(cfg, ws, steps) && 0 < i < |ws| && ws[i - 1].run.Some?
    requires HasRecorded(ws[i], ws[i - 1].run.value.history + [result])
    ensures ws[i].run == Some(Run(ws[i].run.value.history, 0))
  {
    StepTo(cfg, ws, steps, i);
    JustRecorded(cfg, ws[i - 1], steps[i - 1], result);
  }

  /** Up to two attempts that report nothing leave the run waiting for the same lesson, with nothing
      recorded; and one more records the failure. */
  lemma RetriedTwice(cfg: Settings, ws: seq<World>, steps: seq<Step>, i: nat, j: nat, result: PublishWorkflow.Result)
    requires Behaviour(cfg, ws, steps) && 0 < i <= j < |ws| && ws[i - 1].run.Some?
    requires HasRecorded(ws[i], ws[i - 1].run.value.history + [result]) && LocalOf(ws[i]).AwaitChunk?
    requires forall k :: i <= k < j ==> Unreported(cfg, ws[k], steps[k])
    requires |AttemptsIn(steps, i, j)| <= 2
    ensures HasRecorded(ws[j], ws[i].run.value.history)
    ensures |AttemptsIn(steps, i, j)| == 2 && j < |steps| && steps[j].Attempt? && Unreported(cfg, ws[j], steps[j]) ==>
      HasRecorded(ws[j + 1], ws[i].run.value.history + [ChunkingFailed])
  {
    StartsAtNone(cfg, ws, steps, i, result);
    StillWaiting(cfg, ws, steps, i, j, ws[i].run.value.history);
    if |AttemptsIn(steps, i, j)| == 2 && j < |steps| && steps[j].Attempt? && Unreported(cfg, ws[j], steps[j]) {
      ThirdFails(cfg, ws, steps, j, ws[i].run.value.history);
    }
  }

  // ------------------------------------------------- two crashes are survived

  /** The course of one lesson whose run has missed some reports. */
  function Waiting(l: LessonId, content: Option<string>, missed: nat): World {
    Written(l, content, PublishingNow, Some(Run([Began(true), Listed([l])], missed)), 0)
  }

  lemma WaitsForIt(l: LessonId, content: Option<string>, missed: nat)
    ensures Sound(Waiting(l, content, missed)) && LocalOf(Waiting(l, content, missed)) == AwaitChunk(true, [l], 0)
  {
    ListingLocals(l);
  }

  lemma MissTaken(cfg: Settings, w: World, now: Time)
    requires w.run.Some? && LocalOf(w).AwaitChunk? && w.run.value.attempts < 2
    ensures Taken(cfg, w, Attempt(NotDone, now), w.(run := Some(Missing(w.run.value))))
  {
    MissedLocal(w, LocalOf(w));
    MissedRun(w, LocalOf(w));
  }

  lemma MissesOnce(cfg: Settings, l: LessonId, content: Option<string>, now: Time, missed: nat)
    requires missed < 2
    ensures Taken(cfg, Waiting(l, content, missed), Attempt(NotDone, now), Waiting(l, content, missed + 1))
  {
    WaitsForIt(l, content, missed);
    MissTaken(cfg, Waiting(l, content, missed), now);
  }

  lemma NothingInTheWay(cfg: Settings, l: LessonId, content: Option<string>)
    ensures var w := Waiting(l, content, 2); Sound(w) && CanSucceed(cfg, w, LocalOf(w))
  {
    ListingLocals(l);
    var w := Waiting(l, content, 2);
    assert RowsFor(w.rows, l) == map[];
  }

  lemma {:induction false} DrivenLeads(cfg: Settings, w: World, now: Time, n: nat) returns (steps: seq<Step>)
    ensures Leads(cfg, w, steps, Driven(cfg, w, now, n))
    decreases n
  {
    if n == 0 || !Enabled(w, Attempt(Recorded, now)) {
      steps := [];
    } else {
      var next := After(cfg, w, Attempt(Recorded, now));
      steps := DrivenLeads(cfg, next, now, n - 1);
      StepThen(cfg, w, Attempt(Recorded, now), steps, Driven(cfg, next, now, n - 1));
      steps := [Attempt(Recorded, now)] + steps;
    }
  }

  lemma TwoMisses(cfg: Settings, l: LessonId, content: Option<string>, now: Time)
    returns (steps: seq<Step>, end: World)
    ensures |steps| >= 2 && steps[0] == steps[1] == Attempt(NotDone, now)
    ensures Leads(cfg, Waiting(l, content, 0), steps, end) && end.status == Ready
  {
    NothingInTheWay(cfg, l, content);
    var n := SucceedsIff(cfg, Waiting(l, content, 2), now);
    end := Driven(cfg, Waiting(l, content, 2), now, n);
    steps := DrivenLeads(cfg, Waiting(l, content, 2), now, n);
    MissesOnce(cfg, l, content, now, 1);
    StepThen(cfg, Waiting(l, content, 1), Attempt(NotDone, now), steps, end);
    MissesOnce(cfg, l, content, now, 0);
    StepThen(cfg, Waiting(l, content, 0), Attempt(NotDone, now), [Attempt(NotDone, now)] + steps, end);
    steps := [Attempt(NotDone, now)] + ([Attempt(NotDone, now)] + steps);
  }

  /** TWO CRASHES ARE SURVIVED. From a newly created course, for every lesson: two attempts to chunk it
      die before their commit, and the course becomes ready. */
  lemma SurvivesTwoCrashes(cfg: Settings, l: LessonId, content: Option<string>, now: Time)
    returns (ws: seq<World>, steps: seq<Step>)
    ensures Behaviour(cfg, ws, steps) && |steps| > 6 && ws[|steps|].status == Ready
    ensures ws[5].run.Some? && LocalOf(ws[5]) == AwaitChunk(true, [l], 0)
    ensures steps[5] == steps[6] == Attempt(NotDone, now)
  {
    var before, first := FirstPath(cfg, l, content, now);
    WaitsForIt(l, content, 0);
    var more, end := TwoMisses(cfg, l, content, now);
    ws := LeadsExtends(cfg, before, first, more, end);
    steps := first + more;
    assert ws[..6][5] == before[5];
  }
}
