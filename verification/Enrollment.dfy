/** `services/enrollment.py` and `infra/db/repositories/enrollment.py`: joining and leaving courses,
    as code and as transactions interleaved statement by statement under read committed. */
module Enrollment {
  import opened Options

  type CourseId = nat
  type StudentId = nat
  type RowId = nat
  type TxId = nat

  datatype Standing = Active | Completed | Withdrawn

  datatype Row = Row(student: StudentId, course: CourseId, standing: Standing)

  type Table = map<RowId, Row>

  /** What a schedule cannot change: the published courses, their capacity (none means unlimited)
      and prerequisites, and who holds the student role. */
  datatype Catalogue = Catalogue(
    ready: set<CourseId>, capacity: map<CourseId, nat>, required: map<CourseId, set<CourseId>>,
    students: set<StudentId>)

  function RequiredBy(cat: Catalogue, course: CourseId): set<CourseId> {
    if course in cat.required then cat.required[course] else {}
  }

  predicate IsActive(rows: Table, id: RowId, student: StudentId, course: CourseId) {
    id in rows && rows[id] == Row(student, course, Active)
  }

  predicate AlreadyIn(rows: Table, student: StudentId, course: CourseId) {
    exists id :: id in rows && IsActive(rows, id, student, course)
  }

  /** The rows `count_active` counts. */
  function ActiveIn(rows: Table, course: CourseId): set<RowId> {
    set id | id in rows && rows[id].course == course && rows[id].standing == Active
  }

  function CompletedBy(rows: Table, student: StudentId): set<CourseId> {
    set id | id in rows && rows[id].student == student && rows[id].standing == Completed :: rows[id].course
  }

  /** A row says that the student is in the course, has finished it or has left it. */
  predicate Recorded(rows: Table, student: StudentId, course: CourseId, standing: Standing) {
    exists id :: id in rows && rows[id] == Row(student, course, standing)
  }

  predicate Asks(cat: Catalogue, course: CourseId, p: CourseId) {
    course in cat.required && p in cat.required[course]
  }

  /** Every prerequisite has a row of the student's own, and it says completed. */
  ghost predicate Qualified(cat: Catalogue, rows: Table, student: StudentId, course: CourseId) {
    forall p :: Asks(cat, course, p) ==> Recorded(rows, student, p, Completed)
  }

  lemma CompletedIff(rows: Table, student: StudentId, p: CourseId)
    ensures p in CompletedBy(rows, student) <==> Recorded(rows, student, p, Completed)
  {
  }

  lemma QualifiedIff(cat: Catalogue, rows: Table, student: StudentId, course: CourseId)
    ensures RequiredBy(cat, course) <= CompletedBy(rows, student) <==> Qualified(cat, rows, student, course)
  {
    forall p ensures p in CompletedBy(rows, student) <==> Recorded(rows, student, p, Completed) {
      CompletedIff(rows, student, p);
    }
    assert forall p :: p in RequiredBy(cat, course) <==> Asks(cat, course, p);
  }

  // ------------------------------------------------- the service, by itself

  /** The rules `enroll` applies, in one condition. */
  ghost predicate MayEnroll(cat: Catalogue, rows: Table, student: StudentId, course: CourseId) {
    && course in cat.ready && student in cat.students && !AlreadyIn(rows, student, course)
    && Qualified(cat, rows, student, course)
    && (course in cat.capacity ==> |ActiveIn(rows, course)| < cat.capacity[course])
  }

  datatype Refusal =
    | NotFound
    | NeedsStudentRole
    | AlreadyEnrolled
    | PrerequisitesMissing(missing: set<CourseId>)
    | CourseFull

  datatype Result<+T> = Ok(value: T) | Refused(reason: Refusal)

  /** The table as one session sees it, with nobody else at work. */
  class EnrollmentService {
    const catalogue: Catalogue
    var rows: Table

    constructor (catalogue: Catalogue, rows: Table)
      ensures this.catalogue == catalogue && this.rows == rows
    {
      this.catalogue, this.rows := catalogue, rows;
    }

    /** `get_active`. */
    method GetActive(student: StudentId, course: CourseId) returns (found: Option<RowId>)
      ensures found.Some? ==> IsActive(rows, found.value, student, course)
      ensures found.None? ==> !AlreadyIn(rows, student, course)
    {
      var hits := set id | id in rows && rows[id] == Row(student, course, Active);
      if hits == {} {
        assert forall id :: id in rows && IsActive(rows, id, student, course) ==> id in hits;
        return None;
      }
      var id :| id in hits;
      return Some(id);
    }

    /** `enroll`. Accepted exactly when every rule holds, and then one active row is added; each
        refusal says that its own rule failed and every cheaper one held. */
    method Enroll(student: StudentId, course: CourseId, newId: RowId) returns (r: Result<RowId>)
      requires newId !in rows
      modifies this
      ensures r.Ok? <==> MayEnroll(catalogue, old(rows), student, course)
      ensures rows == if r.Ok? then old(rows)[newId := Row(student, course, Active)] else old(rows)
      ensures r == Refused(NotFound) <==> course !in catalogue.ready
      ensures r == Refused(NeedsStudentRole) <==> course in catalogue.ready && student !in catalogue.students
      ensures r == Refused(AlreadyEnrolled) <==>
        course in catalogue.ready && student in catalogue.students && AlreadyIn(old(rows), student, course)
      ensures r.Refused? && r.reason.PrerequisitesMissing? ==>
        && !AlreadyIn(old(rows), student, course)
        && r.reason.missing != {} && forall p ::
             p in r.reason.missing <==> Asks(catalogue, course, p) && !Recorded(old(rows), student, p, Completed)
      ensures r == Refused(CourseFull) ==>
        && Qualified(catalogue, old(rows), student, course)
        && course in catalogue.capacity && |ActiveIn(old(rows), course)| >= catalogue.capacity[course]
    {
      if course !in catalogue.ready {
        return Refused(NotFound);
      }
      if student !in catalogue.students {
        return Refused(NeedsStudentRole);
      }
      var existing := GetActive(student, course);
      if existing.Some? {
        return Refused(AlreadyEnrolled);
      }
      var required, completed := RequiredBy(catalogue, course), CompletedBy(rows, student);
      var missing := required - completed;
      QualifiedIff(catalogue, rows, student, course);
      forall p ensures p in completed <==> Recorded(rows, student, p, Completed) {
        CompletedIff(rows, student, p);
      }
      if missing != {} {
        return Refused(PrerequisitesMissing(missing));
      }
      assert forall c :: c in required && c !in completed ==> c in missing;
      if course in catalogue.capacity {
        var taken := |ActiveIn(rows, course)|;
        if taken >= catalogue.capacity[course] {
          return Refused(CourseFull);
        }
      }
      rows := rows[newId := Row(student, course, Active)];
      return Ok(newId);
    }

    /** `withdraw`. The row stays, as history; only its standing changes. */
    method Withdraw(student: StudentId, course: CourseId) returns (r: Result<RowId>)
      modifies this
      ensures r.Ok? <==> AlreadyIn(old(rows), student, course)
      ensures r.Ok? ==>
        && IsActive(old(rows), r.value, student, course)
        && rows == old(rows)[r.value := Row(student, course, Withdrawn)]
      ensures r.Refused? ==> r.reason == NotFound && rows == old(rows)
    {
      var found := GetActive(student, course);
      if found.None? {
        return Refused(NotFound);
      }
      rows := rows[found.value := Row(student, course, Withdrawn)];
      return Ok(found.value);
    }
  }

  // ------------------------------------------------ interleaved transactions

  /** How far a transaction has come. */
  datatype Phase =
    | Began
    | Looked
    | NotYetIn
    | Needs(required: set<CourseId>)
    | Cleared
    | Locked
    | Seated
    | Inserted(row: RowId)
    | Leaving(row: RowId)

  datatype Tx = Tx(student: StudentId, course: CourseId, phase: Phase)

  /** Committed rows, open transactions, and who holds the lock on which course row. */
  datatype World = World(rows: Table, txs: map<TxId, Tx>, locks: map<CourseId, TxId>)

  datatype Step =
    | Begin(student: StudentId, course: CourseId)
    | Look
    | CheckActive
    | ReadRequired
    | CheckCompleted
    | Lock
    | Count
    | Insert(newId: RowId)
    | Commit
    | Abort
    | FindToLeave(leaver: StudentId, from: CourseId, row: RowId)
    | CommitLeave
    | Complete(done: RowId)

  function End(w: World, t: TxId): World {
    World(w.rows, w.txs - {t}, map c | c in w.locks && w.locks[c] != t :: w.locks[c])
  }

  function To(w: World, t: TxId, phase: Phase): World
    requires t in w.txs
  {
    w.(txs := w.txs[t := w.txs[t].(phase := phase)])
  }

  /** Somebody else has an uncommitted insert of the same student and course. */
  predicate InsertBlocked(w: World, t: TxId)
    requires t in w.txs
  {
    exists o :: o in w.txs && o != t && IsPending(w, o, w.txs[t].student, w.txs[t].course)
  }

  predicate IsPending(w: World, t: TxId, student: StudentId, course: CourseId) {
    t in w.txs && w.txs[t].phase.Inserted? && w.txs[t].student == student && w.txs[t].course == course
  }

  predicate KeyTaken(w: World, id: RowId) {
    id in w.rows || exists o :: o in w.txs && w.txs[o].phase == Inserted(id)
  }

  predicate Enabled(cat: Catalogue, w: World, t: TxId, step: Step) {
    match step
    case Begin(_, _) => t !in w.txs
    case FindToLeave(student, course, row) => t !in w.txs && IsActive(w.rows, row, student, course)
    case Complete(id) => id in w.rows && w.rows[id].standing == Active
    case Abort => t in w.txs
    case _ => t in w.txs && PhaseAllows(cat, w, t, w.txs[t], step)
  }

  predicate PhaseAllows(cat: Catalogue, w: World, t: TxId, tx: Tx, step: Step)
    requires t in w.txs
  {
    match step
    case Look => tx.phase == Began
    case CheckActive => tx.phase == Looked
    case ReadRequired => tx.phase == NotYetIn
    case CheckCompleted => tx.phase.Needs?
    case Lock => tx.phase == Cleared && tx.course in cat.capacity && tx.course !in w.locks
    case Count => tx.phase == Locked && tx.course in cat.capacity
    case Insert(newId) =>
      && (tx.phase == Seated || (tx.phase == Cleared && tx.course !in cat.capacity))
      && !InsertBlocked(w, t) && !KeyTaken(w, newId)
    case Commit => tx.phase.Inserted?
    case CommitLeave => tx.phase.Leaving?
    case _ => false
  }

  function After(cat: Catalogue, w: World, t: TxId, step: Step): World
    requires Enabled(cat, w, t, step)
  {
    match step
    case Begin(student, course) => w.(txs := w.txs[t := Tx(student, course, Began)])
    case FindToLeave(student, course, row) => w.(txs := w.txs[t := Tx(student, course, Leaving(row))])
    case Complete(id) => w.(rows := w.rows[id := w.rows[id].(standing := Completed)])
    case Abort => End(w, t)
    case _ => Moved(cat, w, t, w.txs[t], step)
  }

  function Moved(cat: Catalogue, w: World, t: TxId, tx: Tx, step: Step): World
    requires t in w.txs && PhaseAllows(cat, w, t, tx, step)
  {
    match step
    case Look => if tx.course in cat.ready && tx.student in cat.students then To(w, t, Looked) else End(w, t)
    case CheckActive => if AlreadyIn(w.rows, tx.student, tx.course) then End(w, t) else To(w, t, NotYetIn)
    case ReadRequired => To(w, t, Needs(RequiredBy(cat, tx.course)))
    case CheckCompleted =>
      if tx.phase.required <= CompletedBy(w.rows, tx.student) then To(w, t, Cleared) else End(w, t)
    case Lock => To(w, t, Locked).(locks := w.locks[tx.course := t])
    case Count => if |ActiveIn(w.rows, tx.course)| < cat.capacity[tx.course] then To(w, t, Seated) else End(w, t)
    case Insert(newId) => if AlreadyIn(w.rows, tx.student, tx.course) then End(w, t) else To(w, t, Inserted(newId))
    case Commit => End(w.(rows := w.rows[tx.phase.row := Row(tx.student, tx.course, Active)]), t)
    case CommitLeave => End(w.(rows := Left(w.rows, tx.phase.row)), t)
    case _ => w
  }

  /** The update by key at commit. A row completed meanwhile fails the check that a completion date
      goes with the completed standing, and the transaction is rolled back. */
  function Left(rows: Table, id: RowId): Table {
    if id in rows && rows[id].standing != Completed then rows[id := rows[id].(standing := Withdrawn)] else rows
  }

  /** Which transaction takes which step. */
  datatype Move = Move(t: TxId, step: Step)

  predicate Schedule(cat: Catalogue, ws: seq<World>, moves: seq<Move>) {
    && |ws| == |moves| + 1
    && forall i :: 0 <= i < |moves| ==> Taken(cat, ws[i], moves[i], ws[i + 1])
  }

  lemma StepTo(cat: Catalogue, ws: seq<World>, moves: seq<Move>, i: nat)
    requires Schedule(cat, ws, moves) && 0 < i < |ws|
    ensures Taken(cat, ws[i - 1], moves[i - 1], ws[i])
  {
  }

  /** Nobody is at work. */
  predicate Quiet(w: World) {
    w.txs == map[] && w.locks == map[]
  }

  predicate Taken(cat: Catalogue, w: World, move: Move, next: World) {
    Enabled(cat, w, move.t, move.step) && next == After(cat, w, move.t, move.step)
  }

  // ----------------------------------------- one transaction, undisturbed

  /** A step that does not apply is skipped. */
  function Tried(cat: Catalogue, w: World, t: TxId, step: Step): World {
    if Enabled(cat, w, t, step) then After(cat, w, t, step) else w
  }

  function Checks(cat: Catalogue, w: World, t: TxId, student: StudentId, course: CourseId): World {
    var w1 := Tried(cat, Tried(cat, w, t, Begin(student, course)), t, Look);
    Tried(cat, Tried(cat, Tried(cat, w1, t, CheckActive), t, ReadRequired), t, CheckCompleted)
  }

  function Write(cat: Catalogue, w: World, t: TxId, newId: RowId): World {
    var w1 := Tried(cat, Tried(cat, w, t, Lock), t, Count);
    Tried(cat, Tried(cat, w1, t, Insert(newId)), t, Commit)
  }

  lemma ChecksAlone(cat: Catalogue, w: World, t: TxId, student: StudentId, course: CourseId)
    requires Quiet(w)
    ensures Checks(cat, w, t, student, course) ==
      if && course in cat.ready && student in cat.students && !AlreadyIn(w.rows, student, course)
         && RequiredBy(cat, course) <= CompletedBy(w.rows, student)
      then World(w.rows, map[t := Tx(student, course, Cleared)], map[]) else w
  {
  }

  /** Waiting to write, with the lock the course calls for. */
  function AboutToWrite(cat: Catalogue, rows: Table, t: TxId, student: StudentId, course: CourseId): World {
    if course in cat.capacity then World(rows, map[t := Tx(student, course, Seated)], map[course := t])
    else World(rows, map[t := Tx(student, course, Cleared)], map[])
  }

  lemma SeatAlone(cat: Catalogue, rows: Table, t: TxId, student: StudentId, course: CourseId)
    ensures Tried(cat, Tried(cat, World(rows, map[t := Tx(student, course, Cleared)], map[]), t, Lock), t, Count) ==
      if course in cat.capacity && |ActiveIn(rows, course)| >= cat.capacity[course] then World(rows, map[], map[])
      else AboutToWrite(cat, rows, t, student, course)
  {
  }

  lemma InsertAlone(cat: Catalogue, rows: Table, t: TxId, student: StudentId, course: CourseId, newId: RowId)
    requires newId !in rows && !AlreadyIn(rows, student, course)
    ensures Tried(cat, Tried(cat, AboutToWrite(cat, rows, t, student, course), t, Insert(newId)), t, Commit)
         == World(rows[newId := Row(student, course, Active)], map[], map[])
  {
  }

  lemma WriteAlone(cat: Catalogue, rows: Table, t: TxId, student: StudentId, course: CourseId, newId: RowId)
    requires newId !in rows && !AlreadyIn(rows, student, course)
    ensures Write(cat, World(rows, map[t := Tx(student, course, Cleared)], map[]), t, newId) == World(
      if course in cat.capacity && |ActiveIn(rows, course)| >= cat.capacity[course] then rows
      else rows[newId := Row(student, course, Active)], map[], map[])
  {
    SeatAlone(cat, rows, t, student, course);
    InsertAlone(cat, rows, t, student, course, newId);
  }

  /** The statements of one transaction that meets nobody amount to the service's `enroll`: it
      leaves an active row exactly when every rule holds, and nothing otherwise. */
  lemma AloneIsEnroll(cat: Catalogue, w: World, t: TxId, student: StudentId, course: CourseId, newId: RowId)
    requires Quiet(w) && newId !in w.rows
    ensures Write(cat, Checks(cat, w, t, student, course), t, newId) ==
      if MayEnroll(cat, w.rows, student, course) then w.(rows := w.rows[newId := Row(student, course, Active)]) else w
  {
    ChecksAlone(cat, w, t, student, course);
    QualifiedIff(cat, w.rows, student, course);
    if Checks(cat, w, t, student, course) != w {
      WriteAlone(cat, w.rows, t, student, course, newId);
    }
  }

  // ------------------------------------------------------------- the capacity

  /** The transactions holding an uncommitted enrolment in the course. */
  function PendingIn(w: World, course: CourseId): set<TxId> {
    set t | t in w.txs && w.txs[t].course == course && w.txs[t].phase.Inserted?
  }

  /** A transaction past the lock holds it. */
  predicate HoldsLock(w: World, course: CourseId, t: TxId) {
    t in w.txs && w.txs[t].course == course && (w.txs[t].phase == Locked || Counted(w.txs[t].phase)) ==>
      course in w.locks && w.locks[course] == t
  }

  predicate Counted(phase: Phase) {
    phase == Seated || phase.Inserted?
  }

  /** One that has counted found room, and there still is. */
  predicate RoomFor(w: World, course: CourseId, cap: nat, t: TxId) {
    t in w.txs && w.txs[t].course == course && Counted(w.txs[t].phase) ==> |ActiveIn(w.rows, course)| < cap
  }

  predicate WithinCapacity(w: World, course: CourseId, cap: nat) {
    && |ActiveIn(w.rows, course)| <= cap
    && (forall t :: t in w.txs ==> HoldsLock(w, course, t))
    && (forall t :: t in w.txs ==> RoomFor(w, course, cap, t))
  }

  lemma SubsetCount(a: set<RowId>, b: set<RowId>)
    requires a <= b
    ensures |a| <= |b|
  {
    assert b == a + (b - a);
  }

  lemma AtMostOneMore(a: set<RowId>, b: set<RowId>, id: RowId)
    requires b <= a + {id}
    ensures |b| <= |a| + 1
  {
    SubsetCount(b - {id}, a);
    SubsetCount(b, (b - {id}) + {id});
  }

  lemma EndKeepsCapacity(w: World, t: TxId, course: CourseId, cap: nat)
    requires WithinCapacity(w, course, cap)
    ensures WithinCapacity(End(w, t), course, cap)
  {
  }

  lemma FewerActive(w: World, rows: Table, course: CourseId, cap: nat)
    requires WithinCapacity(w, course, cap) && ActiveIn(rows, course) <= ActiveIn(w.rows, course)
    ensures WithinCapacity(w.(rows := rows), course, cap)
  {
    var next := w.(rows := rows);
    SubsetCount(ActiveIn(rows, course), ActiveIn(w.rows, course));
    forall o | o in next.txs ensures HoldsLock(next, course, o) && RoomFor(next, course, cap, o) {
      assert HoldsLock(w, course, o) && RoomFor(w, course, cap, o);
    }
  }

  /** One transaction moves on; it must hold the lock and have room if its new phase says so. */
  lemma MoveKeepsCapacity(w: World, t: TxId, tx: Tx, course: CourseId, cap: nat)
    requires WithinCapacity(w, course, cap)
    requires tx.course == course && (tx.phase == Locked || Counted(tx.phase)) ==>
               course in w.locks && w.locks[course] == t
    requires tx.course == course && Counted(tx.phase) ==> |ActiveIn(w.rows, course)| < cap
    ensures WithinCapacity(w.(txs := w.txs[t := tx]), course, cap)
  {
  }

  /** Taking a lock that is free disturbs nobody: whoever is past the lock holds it. */
  lemma LockKeepsCapacity(w: World, t: TxId, taken: CourseId, course: CourseId, cap: nat)
    requires WithinCapacity(w, course, cap) && taken !in w.locks
    ensures WithinCapacity(w.(locks := w.locks[taken := t]), course, cap)
  {
  }

  /** A commit fills a seat that was counted as free, and no other transaction counted on it. */
  lemma CommitKeepsCapacity(w: World, t: TxId, course: CourseId, cap: nat)
    requires WithinCapacity(w, course, cap) && t in w.txs && w.txs[t].phase.Inserted?
    ensures var tx := w.txs[t];
            WithinCapacity(End(w.(rows := w.rows[tx.phase.row := Row(tx.student, tx.course, Active)]), t), course, cap)
  {
    var tx := w.txs[t];
    var rows := w.rows[tx.phase.row := Row(tx.student, tx.course, Active)];
    if tx.course == course {
      assert HoldsLock(w, course, t) && RoomFor(w, course, cap, t);
      AtMostOneMore(ActiveIn(w.rows, course), ActiveIn(rows, course), tx.phase.row);
      var next := End(w.(rows := rows), t);
      forall o | o in next.txs ensures HoldsLock(next, course, o) && RoomFor(next, course, cap, o) {
        assert o != t && HoldsLock(w, course, o);
      }
    } else {
      FewerActive(w, rows, course, cap);
      EndKeepsCapacity(w.(rows := rows), t, course, cap);
    }
  }

  lemma MovedKeepsCapacity(cat: Catalogue, w: World, t: TxId, step: Step, course: CourseId, cap: nat)
    requires WithinCapacity(w, course, cap) && course in cat.capacity && cat.capacity[course] == cap
    requires t in w.txs && PhaseAllows(cat, w, t, w.txs[t], step) && step != Commit
    ensures WithinCapacity(Moved(cat, w, t, w.txs[t], step), course, cap)
  {
    var tx := w.txs[t];
    EndKeepsCapacity(w, t, course, cap);
    assert HoldsLock(w, course, t) && RoomFor(w, course, cap, t);
    match step
    case Look => MoveKeepsCapacity(w, t, tx.(phase := Looked), course, cap);
    case CheckActive => MoveKeepsCapacity(w, t, tx.(phase := NotYetIn), course, cap);
    case ReadRequired => MoveKeepsCapacity(w, t, tx.(phase := Needs(RequiredBy(cat, tx.course))), course, cap);
    case CheckCompleted => MoveKeepsCapacity(w, t, tx.(phase := Cleared), course, cap);
    case Lock =>
      LockKeepsCapacity(w, t, tx.course, course, cap);
      MoveKeepsCapacity(w.(locks := w.locks[tx.course := t]), t, tx.(phase := Locked), course, cap);
    case Count =>
      if |ActiveIn(w.rows, tx.course)| < cat.capacity[tx.course] {
        MoveKeepsCapacity(w, t, tx.(phase := Seated), course, cap);
      }
    case Insert(newId) => MoveKeepsCapacity(w, t, tx.(phase := Inserted(newId)), course, cap);
    case CommitLeave =>
      FewerActive(w, Left(w.rows, tx.phase.row), course, cap);
      EndKeepsCapacity(w.(rows := Left(w.rows, tx.phase.row)), t, course, cap);
    case _ =>
  }

  lemma StepKeepsCapacity(cat: Catalogue, w: World, t: TxId, step: Step, course: CourseId, cap: nat)
    requires WithinCapacity(w, course, cap) && course in cat.capacity && cat.capacity[course] == cap
    requires Enabled(cat, w, t, step)
    ensures WithinCapacity(After(cat, w, t, step), course, cap)
  {
    match step
    case Begin(student, at) => MoveKeepsCapacity(w, t, Tx(student, at, Began), course, cap);
    case FindToLeave(student, at, row) => MoveKeepsCapacity(w, t, Tx(student, at, Leaving(row)), course, cap);
    case Complete(id) => FewerActive(w, w.rows[id := w.rows[id].(standing := Completed)], course, cap);
    case Abort => EndKeepsCapacity(w, t, course, cap);
    case Commit => CommitKeepsCapacity(w, t, course, cap);
    case _ => MovedKeepsCapacity(cat, w, t, step, course, cap);
  }

  lemma {:induction false} AlwaysWithinCapacity(cat: Catalogue, ws: seq<World>, moves: seq<Move>, i: nat,
                                                course: CourseId)
    requires Schedule(cat, ws, moves) && i < |ws| && course in cat.capacity
    requires Quiet(ws[0]) && |ActiveIn(ws[0].rows, course)| <= cat.capacity[course]
    ensures WithinCapacity(ws[i], course, cat.capacity[course])
  {
    if i > 0 {
      AlwaysWithinCapacity(cat, ws, moves, i - 1, course);
      StepTo(cat, ws, moves, i);
      StepKeepsCapacity(cat, ws[i - 1], moves[i - 1].t, moves[i - 1].step, course, cat.capacity[course]);
    }
  }

  /** At most one transaction holds an uncommitted enrolment, so all of them fit. */
  lemma PendingFits(w: World, course: CourseId, cap: nat)
    requires WithinCapacity(w, course, cap)
    ensures |ActiveIn(w.rows, course)| + |PendingIn(w, course)| <= cap
  {
    if PendingIn(w, course) != {} {
      var t :| t in PendingIn(w, course);
      assert HoldsLock(w, course, t) && RoomFor(w, course, cap, t);
      forall o | o in PendingIn(w, course) ensures o == t {
        assert HoldsLock(w, course, o);
      }
      assert PendingIn(w, course) == {t};
    }
  }

  /** The move ends a transaction because its count found no seat. */
  predicate TurnedAway(w: World, move: Move, next: World, course: CourseId) {
    move.step.Count? && move.t in w.txs && w.txs[move.t].course == course && move.t !in next.txs
  }

  /** CAPACITY. In every schedule of enrolments, withdrawals, completions and aborts, committed
      active enrolments and uncommitted inserts together never exceed the capacity; and whoever is
      turned away is turned away with every seat taken by a committed active enrolment. */
  lemma CapacityHolds(cat: Catalogue, ws: seq<World>, moves: seq<Move>, i: nat, course: CourseId)
    requires Schedule(cat, ws, moves) && i < |ws| && course in cat.capacity
    requires Quiet(ws[0]) && |ActiveIn(ws[0].rows, course)| <= cat.capacity[course]
    ensures |ActiveIn(ws[i].rows, course)| + |PendingIn(ws[i], course)| <= cat.capacity[course]
    ensures forall t :: t in ws[i].txs && ws[i].txs[t].course == course && ws[i].txs[t].phase.Inserted? ==>
              t in PendingIn(ws[i], course)
    ensures i < |moves| && TurnedAway(ws[i], moves[i], ws[i + 1], course) ==>
              |ActiveIn(ws[i].rows, course)| == cat.capacity[course]
  {
    AlwaysWithinCapacity(cat, ws, moves, i, course);
    PendingFits(ws[i], course, cat.capacity[course]);
    assert i < |moves| ==> Taken(cat, ws[i], moves[i], ws[i + 1]);
  }

  // ------------------------------------------- one active enrolment at a time

  ghost predicate OneAtATime(w: World, student: StudentId, course: CourseId) {
    && (forall a, b :: IsActive(w.rows, a, student, course) && IsActive(w.rows, b, student, course) ==> a == b)
    && (forall t :: IsPending(w, t, student, course) ==> !AlreadyIn(w.rows, student, course))
    && (forall t, o :: IsPending(w, t, student, course) && IsPending(w, o, student, course) ==> t == o)
  }

  /** No row of this student and course became active, and nobody new waits to commit one. */
  lemma NothingNew(w: World, next: World, student: StudentId, course: CourseId)
    requires OneAtATime(w, student, course)
    requires forall id :: IsActive(next.rows, id, student, course) ==> IsActive(w.rows, id, student, course)
    requires forall t :: IsPending(next, t, student, course) ==> IsPending(w, t, student, course)
    ensures OneAtATime(next, student, course)
  {
  }

  lemma InsertKeepsOne(w: World, t: TxId, newId: RowId, student: StudentId, course: CourseId)
    requires OneAtATime(w, student, course) && t in w.txs && !InsertBlocked(w, t)
    requires !AlreadyIn(w.rows, w.txs[t].student, w.txs[t].course)
    ensures OneAtATime(To(w, t, Inserted(newId)), student, course)
  {
    var next := To(w, t, Inserted(newId));
    forall o | IsPending(next, o, student, course) && o != t ensures IsPending(w, o, student, course) {
    }
  }

  lemma CommitKeepsOne(w: World, t: TxId, student: StudentId, course: CourseId)
    requires OneAtATime(w, student, course) && t in w.txs && w.txs[t].phase.Inserted?
    ensures var tx := w.txs[t];
            OneAtATime(End(w.(rows := w.rows[tx.phase.row := Row(tx.student, tx.course, Active)]), t), student, course)
  {
    var tx := w.txs[t];
    var next := End(w.(rows := w.rows[tx.phase.row := Row(tx.student, tx.course, Active)]), t);
    if tx.student == student && tx.course == course {
      assert IsPending(w, t, student, course);
      forall id | IsActive(next.rows, id, student, course) ensures id == tx.phase.row {
        assert id != tx.phase.row ==> IsActive(w.rows, id, student, course);
      }
      forall o ensures !IsPending(next, o, student, course) {
        assert IsPending(next, o, student, course) ==> IsPending(w, o, student, course);
      }
    } else {
      NothingNew(w, next, student, course);
    }
  }

  lemma StepKeepsOne(cat: Catalogue, w: World, t: TxId, step: Step, student: StudentId, course: CourseId)
    requires OneAtATime(w, student, course) && Enabled(cat, w, t, step)
    ensures OneAtATime(After(cat, w, t, step), student, course)
  {
    match step
    case Commit => CommitKeepsOne(w, t, student, course);
    case Insert(newId) =>
      if AlreadyIn(w.rows, w.txs[t].student, w.txs[t].course) {
        NothingNew(w, After(cat, w, t, step), student, course);
      } else {
        InsertKeepsOne(w, t, newId, student, course);
      }
    case _ => NothingNew(w, After(cat, w, t, step), student, course);
  }

  /** ONE AT A TIME. No schedule gives a student two active enrolments in a course, committed or
      waiting to commit, however the `get_active` checks race. */
  lemma {:induction false} OneActiveEnrolment(cat: Catalogue, ws: seq<World>, moves: seq<Move>, i: nat,
                                              student: StudentId, course: CourseId)
    requires Schedule(cat, ws, moves) && i < |ws| && OneAtATime(ws[0], student, course)
    ensures OneAtATime(ws[i], student, course)
  {
    if i > 0 {
      OneActiveEnrolment(cat, ws, moves, i - 1, student, course);
      StepTo(cat, ws, moves, i);
      StepKeepsOne(cat, ws[i - 1], moves[i - 1].t, moves[i - 1].step, student, course);
    }
  }

  // ---------------------------------------- courses that require one another

  /** Every course of the set requires some course of the set. */
  ghost predicate Closed(cat: Catalogue, courses: set<CourseId>) {
    forall c :: c in courses ==> RequiresOneOf(cat, c, courses)
  }

  ghost predicate RequiresOneOf(cat: Catalogue, course: CourseId, courses: set<CourseId>) {
    exists p :: p in courses && p in RequiredBy(cat, course)
  }

  /** Nobody studies or has finished any of them, and no open transaction is past the check. */
  ghost predicate ShutOut(cat: Catalogue, w: World, courses: set<CourseId>) {
    && (forall id :: id in w.rows && w.rows[id].course in courses ==> w.rows[id].standing == Withdrawn)
    && (forall t :: t in w.txs && w.txs[t].course in courses ==> StillOutside(cat, w.txs[t]))
  }

  predicate StillOutside(cat: Catalogue, tx: Tx) {
    match tx.phase
    case Began => true
    case Looked => true
    case NotYetIn => true
    case Needs(required) => required == RequiredBy(cat, tx.course)
    case Leaving(_) => true
    case _ => false
  }

  lemma NobodyCompleted(cat: Catalogue, w: World, courses: set<CourseId>, student: StudentId, course: CourseId)
    requires ShutOut(cat, w, courses) && Closed(cat, courses) && course in courses
    ensures !(RequiredBy(cat, course) <= CompletedBy(w.rows, student))
  {
  }

  lemma EndKeepsOut(cat: Catalogue, w: World, t: TxId, courses: set<CourseId>)
    requires ShutOut(cat, w, courses)
    ensures ShutOut(cat, End(w, t), courses)
  {
  }

  lemma MoveKeepsOut(cat: Catalogue, w: World, t: TxId, tx: Tx, courses: set<CourseId>)
    requires ShutOut(cat, w, courses) && (tx.course in courses ==> StillOutside(cat, tx))
    ensures ShutOut(cat, w.(txs := w.txs[t := tx]), courses)
  {
  }

  lemma RowKeepsOut(cat: Catalogue, w: World, id: RowId, row: Row, courses: set<CourseId>)
    requires ShutOut(cat, w, courses) && (row.course in courses ==> row.standing == Withdrawn)
    ensures ShutOut(cat, w.(rows := w.rows[id := row]), courses)
  {
  }

  lemma MovedKeepsOut(cat: Catalogue, w: World, t: TxId, step: Step, courses: set<CourseId>)
    requires ShutOut(cat, w, courses) && Closed(cat, courses)
    requires t in w.txs && PhaseAllows(cat, w, t, w.txs[t], step)
    ensures ShutOut(cat, Moved(cat, w, t, w.txs[t], step), courses)
  {
    var tx := w.txs[t];
    EndKeepsOut(cat, w, t, courses);
    match step
    case Look => MoveKeepsOut(cat, w, t, tx.(phase := Looked), courses);
    case CheckActive => MoveKeepsOut(cat, w, t, tx.(phase := NotYetIn), courses);
    case ReadRequired => MoveKeepsOut(cat, w, t, tx.(phase := Needs(RequiredBy(cat, tx.course))), courses);
    case CheckCompleted =>
      if tx.course in courses {
        NobodyCompleted(cat, w, courses, tx.student, tx.course);
      } else {
        MoveKeepsOut(cat, w, t, tx.(phase := Cleared), courses);
      }
    case Lock => MoveKeepsOut(cat, w, t, tx.(phase := Locked), courses);
    case Count => MoveKeepsOut(cat, w, t, tx.(phase := Seated), courses);
    case Insert(newId) => MoveKeepsOut(cat, w, t, tx.(phase := Inserted(newId)), courses);
    case Commit =>
      RowKeepsOut(cat, w, tx.phase.row, Row(tx.student, tx.course, Active), courses);
      EndKeepsOut(cat, w.(rows := w.rows[tx.phase.row := Row(tx.student, tx.course, Active)]), t, courses);
    case CommitLeave =>
      var rows := Left(w.rows, tx.phase.row);
      if rows != w.rows {
        RowKeepsOut(cat, w, tx.phase.row, rows[tx.phase.row], courses);
      }
      EndKeepsOut(cat, w.(rows := rows), t, courses);
    case _ =>
  }

  lemma StepKeepsOut(cat: Catalogue, w: World, t: TxId, step: Step, courses: set<CourseId>)
    requires ShutOut(cat, w, courses) && Closed(cat, courses) && Enabled(cat, w, t, step)
    ensures ShutOut(cat, After(cat, w, t, step), courses)
  {
    match step
    case Begin(student, course) => MoveKeepsOut(cat, w, t, Tx(student, course, Began), courses);
    case FindToLeave(student, course, row) => MoveKeepsOut(cat, w, t, Tx(student, course, Leaving(row)), courses);
    case Complete(id) => RowKeepsOut(cat, w, id, w.rows[id].(standing := Completed), courses);
    case Abort => EndKeepsOut(cat, w, t, courses);
    case _ => MovedKeepsOut(cat, w, t, step, courses);
  }

  lemma NextKeepsOut(cat: Catalogue, ws: seq<World>, moves: seq<Move>, i: nat, courses: set<CourseId>)
    requires Schedule(cat, ws, moves) && 0 < i < |ws| && Closed(cat, courses) && ShutOut(cat, ws[i - 1], courses)
    ensures ShutOut(cat, ws[i], courses)
  {
    StepTo(cat, ws, moves, i);
    StepKeepsOut(cat, ws[i - 1], moves[i - 1].t, moves[i - 1].step, courses);
  }

  /** SHUT OUT. If every course of a set requires another of the set, and nobody is in or through
      one of them, then no schedule whatsoever enrols anybody in any of them. */
  lemma {:induction false} NobodyEverGetsIn(cat: Catalogue, ws: seq<World>, moves: seq<Move>, i: nat,
                                            courses: set<CourseId>)
    requires Schedule(cat, ws, moves) && i < |ws| && Closed(cat, courses) && ShutOut(cat, ws[0], courses)
    ensures ShutOut(cat, ws[i], courses)
  {
    if i > 0 {
      NobodyEverGetsIn(cat, ws, moves, i - 1, courses);
      NextKeepsOut(cat, ws, moves, i, courses);
    }
  }
}
