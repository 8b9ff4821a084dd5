/** What enrolling asks of a student's own record, and what a schedule leaves in it. */
module EnrollmentRecords {
  import opened Enrollment

  /** WHO MAY ENROL, from the rows themselves: a student with no active row in a published course, a
      completed row in each of its prerequisites, and fewer active rows in the course than its capacity,
      if it has one. */
  lemma MayEnrollIff(cat: Catalogue, rows: Table, student: StudentId, course: CourseId)
    ensures MayEnroll(cat, rows, student, course) <==>
      && course in cat.ready && student in cat.students
      && (forall id :: id in rows ==> rows[id] != Row(student, course, Active))
      && (forall p :: course in cat.required && p in cat.required[course] ==>
            exists id :: id in rows && rows[id] == Row(student, p, Completed))
      && (course in cat.capacity ==>
            |set id | id in rows && rows[id].course == course && rows[id].standing == Active| < cat.capacity[course])
  {
    QualifiedIff(cat, rows, student, course);
    assert forall p :: Asks(cat, course, p) ==>
      (Recorded(rows, student, p, Completed) <==> exists id :: id in rows && rows[id] == Row(student, p, Completed));
    assert AlreadyIn(rows, student, course) <==> exists id :: id in rows && IsActive(rows, id, student, course);
    assert ActiveIn(rows, course) == set id | id in rows && rows[id].course == course && rows[id].standing == Active;
  }

  // ------------------------------------------------------- in every schedule

  /** The transaction has found the prerequisites completed. */
  predicate PastCheck(phase: Phase) {
    phase == Cleared || phase == Locked || phase == Seated || phase.Inserted?
  }

  ghost predicate TxQualified(cat: Catalogue, w: World, tx: Tx) {
    && (PastCheck(tx.phase) ==> Qualified(cat, w.rows, tx.student, tx.course))
    && (tx.phase.Needs? ==> tx.phase.required == RequiredBy(cat, tx.course))
    && (tx.phase.Inserted? ==> tx.phase.row !in w.rows)
  }

  /** No two transactions wait to commit a row under one id. */
  predicate OwnIds(w: World) {
    forall t, o :: t in w.txs && o in w.txs && t != o && w.txs[t].phase.Inserted? ==> w.txs[o].phase != w.txs[t].phase
  }

  ghost predicate AllQualified(cat: Catalogue, w: World) {
    OwnIds(w) && forall t :: t in w.txs ==> TxQualified(cat, w, w.txs[t])
  }

  /** Completed rows stay as they are. */
  predicate KeepsCompleted(rows: Table, next: Table) {
    forall id :: id in rows && rows[id].standing == Completed ==> id in next && next[id] == rows[id]
  }

  lemma StaysQualified(cat: Catalogue, rows: Table, next: Table, student: StudentId, course: CourseId)
    requires KeepsCompleted(rows, next) && Qualified(cat, rows, student, course)
    ensures Qualified(cat, next, student, course)
  {
    forall p | Asks(cat, course, p) ensures Recorded(next, student, p, Completed) {
      assert Recorded(rows, student, p, Completed);
      var id :| id in rows && rows[id] == Row(student, p, Completed);
      assert next[id] == Row(student, p, Completed);
    }
  }

  /** One transaction moves on and no row changes. */
  lemma MoveQualified(cat: Catalogue, w: World, t: TxId, tx: Tx)
    requires AllQualified(cat, w) && TxQualified(cat, w, tx)
    requires tx.phase.Inserted? ==> forall o :: o in w.txs && o != t ==> w.txs[o].phase != tx.phase
    ensures AllQualified(cat, w.(txs := w.txs[t := tx]))
  {
    var next := w.(txs := w.txs[t := tx]);
    forall o | o in next.txs ensures TxQualified(cat, next, next.txs[o]) {
      assert o != t ==> TxQualified(cat, w, w.txs[o]);
    }
  }

  lemma EndQualified(cat: Catalogue, w: World, t: TxId)
    requires AllQualified(cat, w)
    ensures AllQualified(cat, End(w, t))
  {
    var next := End(w, t);
    forall o | o in next.txs ensures TxQualified(cat, next, next.txs[o]) {
      assert TxQualified(cat, w, w.txs[o]);
    }
  }

  /** Rows change, completed ones and the ids others wait to use excepted. */
  lemma RowsQualified(cat: Catalogue, w: World, rows: Table)
    requires AllQualified(cat, w) && KeepsCompleted(w.rows, rows) && rows.Keys == w.rows.Keys
    ensures AllQualified(cat, w.(rows := rows))
  {
    var next := w.(rows := rows);
    forall o | o in next.txs ensures TxQualified(cat, next, next.txs[o]) {
      assert TxQualified(cat, w, w.txs[o]);
      if PastCheck(w.txs[o].phase) {
        StaysQualified(cat, w.rows, rows, w.txs[o].student, w.txs[o].course);
      }
    }
  }

  lemma CommitQualified(cat: Catalogue, w: World, t: TxId)
    requires AllQualified(cat, w) && t in w.txs && w.txs[t].phase.Inserted?
    ensures var tx := w.txs[t];
      AllQualified(cat, End(w.(rows := w.rows[tx.phase.row := Row(tx.student, tx.course, Active)]), t))
  {
    var tx := w.txs[t];
    var rows := w.rows[tx.phase.row := Row(tx.student, tx.course, Active)];
    var next := End(w.(rows := rows), t);
    assert TxQualified(cat, w, tx);
    forall o | o in next.txs ensures TxQualified(cat, next, next.txs[o]) {
      assert TxQualified(cat, w, w.txs[o]);
      if PastCheck(w.txs[o].phase) {
        StaysQualified(cat, w.rows, rows, w.txs[o].student, w.txs[o].course);
      }
    }
  }

  lemma MovedQualified(cat: Catalogue, w: World, t: TxId, step: Step)
    requires AllQualified(cat, w) && t in w.txs && PhaseAllows(cat, w, t, w.txs[t], step)
    ensures AllQualified(cat, Moved(cat, w, t, w.txs[t], step))
  {
    var tx := w.txs[t];
    assert TxQualified(cat, w, tx);
    EndQualified(cat, w, t);
    match step
    case Look => MoveQualified(cat, w, t, tx.(phase := Looked));
    case CheckActive => MoveQualified(cat, w, t, tx.(phase := NotYetIn));
    case ReadRequired => MoveQualified(cat, w, t, tx.(phase := Needs(RequiredBy(cat, tx.course))));
    case CheckCompleted =>
      QualifiedIff(cat, w.rows, tx.student, tx.course);
      if tx.phase.required <= CompletedBy(w.rows, tx.student) {
        MoveQualified(cat, w, t, tx.(phase := Cleared));
      }
    case Lock => MoveQualified(cat, w.(locks := w.locks[tx.course := t]), t, tx.(phase := Locked));
    case Count => MoveQualified(cat, w, t, tx.(phase := Seated));
    case Insert(newId) => MoveQualified(cat, w, t, tx.(phase := Inserted(newId)));
    case Commit => CommitQualified(cat, w, t);
    case CommitLeave =>
      RowsQualified(cat, w, Left(w.rows, tx.phase.row));
      EndQualified(cat, w.(rows := Left(w.rows, tx.phase.row)), t);
    case _ =>
  }

  lemma StepQualified(cat: Catalogue, w: World, t: TxId, step: Step)
    requires AllQualified(cat, w) && Enabled(cat, w, t, step)
    ensures AllQualified(cat, After(cat, w, t, step))
  {
    match step
    case Begin(student, course) => MoveQualified(cat, w, t, Tx(student, course, Began));
    case FindToLeave(student, course, row) => MoveQualified(cat, w, t, Tx(student, course, Leaving(row)));
    case Complete(id) => RowsQualified(cat, w, w.rows[id := w.rows[id].(standing := Completed)]);
    case Abort => EndQualified(cat, w, t);
    case _ => MovedQualified(cat, w, t, step);
  }

  lemma {:induction false} AlwaysQualified(cat: Catalogue, ws: seq<World>, moves: seq<Move>, i: nat)
    requires Schedule(cat, ws, moves) && i < |ws| && Quiet(ws[0])
    ensures AllQualified(cat, ws[i])
  {
    if i > 0 {
      AlwaysQualified(cat, ws, moves, i - 1);
      StepTo(cat, ws, moves, i);
      StepQualified(cat, ws[i - 1], moves[i - 1].t, moves[i - 1].step);
    }
  }

  /** ONLY THE QUALIFIED. In every schedule, a transaction past the prerequisite check belongs to a
      student with a completed row of their own, still there, for each course the course requires. So
      does every enrolment that commits, and it adds one active row under an id not in use. */
  lemma OnlyTheQualified(cat: Catalogue, ws: seq<World>, moves: seq<Move>, i: nat, t: TxId)
    requires Schedule(cat, ws, moves) && Quiet(ws[0]) && i < |ws| && t in ws[i].txs
    ensures var w, tx := ws[i], ws[i].txs[t];
      tx.phase in {Cleared, Locked, Seated} || tx.phase.Inserted? ==>
        forall p :: tx.course in cat.required && p in cat.required[tx.course] ==>
          exists id :: id in w.rows && w.rows[id] == Row(tx.student, p, Completed)
    ensures i < |moves| && moves[i] == Move(t, Commit) ==>
      && ws[i].txs[t].phase.Inserted? && ws[i].txs[t].phase.row !in ws[i].rows
      && ws[i + 1].rows == ws[i].rows[ws[i].txs[t].phase.row := Row(ws[i].txs[t].student, ws[i].txs[t].course, Active)]
  {
    AlwaysQualified(cat, ws, moves, i);
    var w, tx := ws[i], ws[i].txs[t];
    assert TxQualified(cat, w, tx);
    if PastCheck(tx.phase) {
      forall p | tx.course in cat.required && p in cat.required[tx.course]
        ensures exists id :: id in w.rows && w.rows[id] == Row(tx.student, p, Completed)
      {
        assert Asks(cat, tx.course, p) && Recorded(w.rows, tx.student, p, Completed);
      }
    }
    assert i < |moves| ==> Taken(cat, ws[i], moves[i], ws[i + 1]);
  }

  // ------------------------------------------------------------- the history

  /** The row is still there, of the same student and course, and only an active one has changed. */
  predicate Kept(rows: Table, next: Table, id: RowId) {
    id in rows ==>
      && id in next && next[id].student == rows[id].student && next[id].course == rows[id].course
      && (rows[id].standing != Active ==> next[id] == rows[id])
  }

  /** What a step makes of a row: a completion completes it, a withdrawal of it withdraws it unless it was
      completed meanwhile, and nothing else touches it. */
  lemma StepOnRow(cat: Catalogue, w: World, t: TxId, step: Step, id: RowId)
    requires AllQualified(cat, w) && Enabled(cat, w, t, step) && id in w.rows
    ensures var rows, row := After(cat, w, t, step).rows, w.rows[id];
      && id in rows
      && rows[id] == if step == Complete(id) then Row(row.student, row.course, Completed)
                     else if step == CommitLeave && w.txs[t].phase == Leaving(id) && row.standing != Completed
                     then Row(row.student, row.course, Withdrawn)
                     else row
  {
    if t in w.txs {
      assert TxQualified(cat, w, w.txs[t]);
    }
  }

  lemma StepKeepsRow(cat: Catalogue, w: World, t: TxId, step: Step, id: RowId)
    requires AllQualified(cat, w) && Enabled(cat, w, t, step)
    ensures Kept(w.rows, After(cat, w, t, step).rows, id)
  {
    if id in w.rows {
      StepOnRow(cat, w, t, step, id);
    }
  }

  /** HISTORY IS KEPT. No schedule removes an enrolment or gives it to another student or course, and one
      that was completed or withdrawn stays so. */
  lemma {:induction false} HistoryIsKept(cat: Catalogue, ws: seq<World>, moves: seq<Move>, i: nat, j: nat, id: RowId)
    requires Schedule(cat, ws, moves) && Quiet(ws[0]) && i <= j < |ws| && id in ws[i].rows
    ensures id in ws[j].rows
    ensures ws[j].rows[id].student == ws[i].rows[id].student && ws[j].rows[id].course == ws[i].rows[id].course
    ensures ws[i].rows[id].standing != Active ==> ws[j].rows[id] == ws[i].rows[id]
    decreases j
  {
    if i < j {
      HistoryIsKept(cat, ws, moves, i, j - 1, id);
      AlwaysQualified(cat, ws, moves, j - 1);
      StepTo(cat, ws, moves, j);
      StepKeepsRow(cat, ws[j - 1], moves[j - 1].t, moves[j - 1].step, id);
    }
  }

  /** The statements of one withdrawal that meets nobody amount to the service's `withdraw`. */
  lemma LeavingAlone(cat: Catalogue, w: World, t: TxId, student: StudentId, course: CourseId, id: RowId)
    requires Quiet(w)
    ensures Tried(cat, Tried(cat, w, t, FindToLeave(student, course, id)), t, CommitLeave) ==
      if id in w.rows && w.rows[id] == Row(student, course, Active)
      then World(w.rows[id := Row(student, course, Withdrawn)], map[], map[]) else w
  {
    assert map[t := Tx(student, course, Leaving(id))] - {t} == map[];
  }

  /** A transaction can be given up at any point: no row changes, and its locks are free again. */
  lemma GivingUp(cat: Catalogue, w: World, t: TxId)
    requires t in w.txs
    ensures Enabled(cat, w, t, Abort)
    ensures var next := After(cat, w, t, Abort);
      && next.rows == w.rows && next.txs == w.txs - {t}
      && forall c :: c in next.locks <==> c in w.locks && w.locks[c] != t
  {
  }

  /** An active enrolment can be completed at any point, whoever is at work. */
  lemma Completing(cat: Catalogue, w: World, t: TxId, id: RowId)
    requires id in w.rows && w.rows[id].standing == Active
    ensures Enabled(cat, w, t, Complete(id))
    ensures var row := w.rows[id];
      After(cat, w, t, Complete(id)) == w.(rows := w.rows[id := Row(row.student, row.course, Completed)])
  {
  }

  // ---------------------------------------------------- a race for one seat

  /** Two students at work on one course. */
  datatype Race = Race(course: CourseId, one: StudentId, other: StudentId, t: TxId, u: TxId, newId: RowId)

  predicate OneSeat(cat: Catalogue, r: Race) {
    && r.course in cat.ready && r.course in cat.capacity && cat.capacity[r.course] == 1
    && r.course !in cat.required && r.one in cat.students && r.other in cat.students
    && r.one != r.other && r.t != r.u
  }

  /** The phases up to the check of the prerequisites. */
  function Early(n: nat): Phase {
    if n == 0 then Began else if n == 1 then Looked else if n == 2 then NotYetIn
    else if n == 3 then Needs({}) else Cleared
  }

  function EarlyStep(r: Race, student: StudentId, n: nat): Step {
    if n == 0 then Begin(student, r.course) else if n == 1 then Look else if n == 2 then CheckActive
    else if n == 3 then ReadRequired else CheckCompleted
  }

  function Both(r: Race, p: Phase, q: Phase, locks: map<CourseId, TxId>): World {
    World(map[], map[r.t := Tx(r.one, r.course, p), r.u := Tx(r.other, r.course, q)], locks)
  }

  function Seat(r: Race): Table {
    map[r.newId := Row(r.one, r.course, Active)]
  }

  /** The two take turns until both are past the checks; then the first goes through to its commit. */
  function Racing(r: Race, n: nat): World {
    if n == 0 then World(map[], map[], map[])
    else if n == 1 then World(map[], map[r.t := Tx(r.one, r.course, Began)], map[])
    else if n <= 10 then Both(r, Early((n - 1) / 2), Early(n / 2 - 1), map[])
    else if n == 11 then Both(r, Locked, Cleared, map[r.course := r.t])
    else if n == 12 then Both(r, Seated, Cleared, map[r.course := r.t])
    else if n == 13 then Both(r, Inserted(r.newId), Cleared, map[r.course := r.t])
    else if n == 14 then World(Seat(r), map[r.u := Tx(r.other, r.course, Cleared)], map[])
    else if n == 15 then World(Seat(r), map[r.u := Tx(r.other, r.course, Locked)], map[r.course := r.u])
    else World(Seat(r), map[], map[])
  }

  function RacingMove(r: Race, n: nat): Move {
    if n < 10 then
      if n % 2 == 0 then Move(r.t, EarlyStep(r, r.one, n / 2)) else Move(r.u, EarlyStep(r, r.other, n / 2))
    else if n == 10 then Move(r.t, Lock)
    else if n == 11 then Move(r.t, Count)
    else if n == 12 then Move(r.t, Insert(r.newId))
    else if n == 13 then Move(r.t, Commit)
    else if n == 14 then Move(r.u, Lock)
    else Move(r.u, Count)
  }

  lemma EarlyMoves(cat: Catalogue, r: Race, n: nat)
    requires OneSeat(cat, r) && n < 5
    ensures Taken(cat, Racing(r, 2 * n), RacingMove(r, 2 * n), Racing(r, 2 * n + 1))
  {
  }

  lemma OtherEarlyMoves(cat: Catalogue, r: Race, n: nat)
    requires OneSeat(cat, r) && n < 5
    ensures Taken(cat, Racing(r, 2 * n + 1), RacingMove(r, 2 * n + 1), Racing(r, 2 * n + 2))
  {
  }

  lemma FirstLocks(cat: Catalogue, r: Race)
    requires OneSeat(cat, r)
    ensures Taken(cat, Racing(r, 10), RacingMove(r, 10), Racing(r, 11))
  {
  }

  lemma FirstCounts(cat: Catalogue, r: Race)
    requires OneSeat(cat, r)
    ensures Taken(cat, Racing(r, 11), RacingMove(r, 11), Racing(r, 12))
  {
    assert ActiveIn(map[], r.course) == {};
  }

  lemma FirstInserts(cat: Catalogue, r: Race)
    requires OneSeat(cat, r)
    ensures Taken(cat, Racing(r, 12), RacingMove(r, 12), Racing(r, 13))
  {
  }

  lemma FirstCommits(cat: Catalogue, r: Race)
    requires OneSeat(cat, r)
    ensures Taken(cat, Racing(r, 13), RacingMove(r, 13), Racing(r, 14))
  {
    assert map[r.t := Tx(r.one, r.course, Inserted(r.newId)), r.u := Tx(r.other, r.course, Cleared)] - {r.t}
        == map[r.u := Tx(r.other, r.course, Cleared)];
  }

  lemma OtherIsLate(cat: Catalogue, r: Race, n: nat)
    requires OneSeat(cat, r) && 14 <= n < 16
    ensures Taken(cat, Racing(r, n), RacingMove(r, n), Racing(r, n + 1))
  {
    assert ActiveIn(Seat(r), r.course) == {r.newId};
    assert map[r.u := Tx(r.other, r.course, Locked)] - {r.u} == map[];
  }

  lemma RacingTakes(cat: Catalogue, r: Race, n: nat)
    requires OneSeat(cat, r) && n < 16
    ensures Taken(cat, Racing(r, n), RacingMove(r, n), Racing(r, n + 1))
  {
    if n < 10 && n % 2 == 0 {
      EarlyMoves(cat, r, n / 2);
    } else if n < 10 {
      OtherEarlyMoves(cat, r, n / 2);
    } else if n == 10 {
      FirstLocks(cat, r);
    } else if n == 11 {
      FirstCounts(cat, r);
    } else if n == 12 {
      FirstInserts(cat, r);
    } else if n == 13 {
      FirstCommits(cat, r);
    } else {
      OtherIsLate(cat, r, n);
    }
  }

  /** ONE SEAT, TWO STUDENTS. Both pass every check before either writes; the first to lock the course gets
      the seat, and the other, once it has the lock, counts it taken and is turned away. */
  lemma RaceForOneSeat(cat: Catalogue, r: Race)
    requires OneSeat(cat, r)
    ensures var ws := seq(17, n requires 0 <= n < 17 => Racing(r, n));
            var moves := seq(16, n requires 0 <= n < 16 => RacingMove(r, n));
      && Schedule(cat, ws, moves) && Quiet(ws[0])
      && ws[10].txs.Keys == {r.t, r.u} && ws[10].txs[r.t].phase == ws[10].txs[r.u].phase == Cleared
      && TurnedAway(ws[15], moves[15], ws[16], r.course) && ws[16].rows == Seat(r)
  {
    var ws := seq(17, n requires 0 <= n < 17 => Racing(r, n));
    var moves := seq(16, n requires 0 <= n < 16 => RacingMove(r, n));
    forall n | 0 <= n < 16 ensures Taken(cat, ws[n], moves[n], ws[n + 1]) {
      RacingTakes(cat, r, n);
    }
  }
}
