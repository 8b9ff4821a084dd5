/** `services/publishing.py` and the transactions of `workflows/activities.py`: the code that
    changes course rows and chunk rows. */
module Publishing {
  import opened Options
  import opened Chunking
  import opened ChunkStore

  // ---------------------------------------------------------- course rows

  datatype Status = Draft | PublishingNow | Ready | Failed

  type Time = int

  /** Neither publishable nor editable while a publish is running. */
  predicate Open(status: Status) {
    status != PublishingNow
  }

  datatype Role = Student | Instructor | Admin

  datatype User = User(id: nat, roles: set<Role>)

  datatype Refusal = NotFound | NoInstructorRole | AnothersCourse | BadStatus | CourseBusy | IntegrityError

  datatype Result<+T> = Ok(value: T) | Refused(reason: Refusal)

  class Course {
    const instructor: nat
    var status: Status
    var publishedAt: Option<Time>

    constructor (instructor: nat)
      ensures this.instructor == instructor && status == Draft && publishedAt == None
    {
      this.instructor := instructor;
      status, publishedAt := Draft, None;
    }
  }

  predicate CanView(status: Status, instructor: nat, user: User) {
    || status == Ready
    || Admin in user.roles
    || (instructor == user.id && Instructor in user.roles)
  }

  /** Who may publish: an admin, or the owner holding the instructor role. */
  predicate MayPublish(instructor: nat, user: User) {
    Admin in user.roles || (Instructor in user.roles && instructor == user.id)
  }

  /** `assert_can_publish`. The endpoint goes on exactly for a caller who may publish a course that
      is not being published; a course the caller cannot see is reported as absent, whatever else
      is wrong, and the status is disclosed only to somebody who may publish. */
  method AssertCanPublish(course: Course?, user: User) returns (r: Result<()>)
    ensures r.Ok? <==> course != null && MayPublish(course.instructor, user) && Open(course.status)
    ensures r == Refused(NotFound) <==> course == null || !CanView(course.status, course.instructor, user)
    ensures r == Refused(NoInstructorRole) <==>
      course != null && course.status == Ready && Admin !in user.roles && Instructor !in user.roles
    ensures r == Refused(AnothersCourse) <==>
      && course != null && course.status == Ready && course.instructor != user.id
      && Admin !in user.roles && Instructor in user.roles
    ensures r == Refused(BadStatus) <==>
      course != null && MayPublish(course.instructor, user) && course.status == PublishingNow
    ensures r != Refused(CourseBusy)
  {
    if course == null {
      return Refused(NotFound);
    }
    if !CanView(course.status, course.instructor, user) {
      return Refused(NotFound);
    }
    if Admin !in user.roles {
      if Instructor !in user.roles {
        return Refused(NoInstructorRole);
      }
      if course.instructor != user.id {
        return Refused(AnothersCourse);
      }
    }
    if !(course.status == Draft || course.status == Failed || course.status == Ready) {
      return Refused(BadStatus);
    }
    return Ok(());
  }

  /** The status `begin_publish` leaves. */
  function Begun(status: Status): Status {
    if status == Ready then Ready else PublishingNow
  }

  method BeginPublish(course: Course?) returns (r: Result<bool>)
    modifies course
    ensures course == null ==> r == Refused(NotFound)
    ensures course != null ==> r == Ok(old(course.status) != Ready)
    ensures course != null ==>
      course.status == Begun(old(course.status)) && course.publishedAt == old(course.publishedAt)
  {
    if course == null {
      return Refused(NotFound);
    }
    var isFirst := course.status != Ready;
    if isFirst {
      course.status := PublishingNow;
    }
    return Ok(isFirst);
  }

  method CompletePublish(course: Course?, finishedAt: Time) returns (r: Result<()>)
    modifies course
    ensures course == null ==> r == Refused(NotFound)
    ensures course != null ==> r == Ok(()) && course.status == Ready && course.publishedAt == Some(finishedAt)
  {
    if course == null {
      return Refused(NotFound);
    }
    course.status := Ready;
    course.publishedAt := Some(finishedAt);
    return Ok(());
  }

  method SetStatus(course: Course?, status: Status) returns (r: Result<()>)
    modifies course
    ensures course == null ==> r == Refused(NotFound)
    ensures course != null ==> r == Ok(()) && course.status == status && course.publishedAt == old(course.publishedAt)
  {
    if course == null {
      return Refused(NotFound);
    }
    course.status := status;
    return Ok(());
  }

  /** A retried `begin_publish` gives the answer it gave before its own commit, whichever it was. */
  lemma BeginIsRepeatable(status: Status)
    ensures (Begun(status) != Ready) == (status != Ready) && Begun(Begun(status)) == Begun(status)
  {
  }

  // ------------------------------------------------------------ chunk rows

  /** `ids` lists `rows` in position order, each once. */
  ghost predicate InOrder(rows: Rows, ids: seq<ChunkId>) {
    && (forall i :: 0 <= i < |ids| ==> ids[i] in rows)
    && (forall id :: id in rows ==> id in ids)
    && (forall i, j :: 0 <= i < j < |ids| ==> ids[i] != ids[j] && rows[ids[i]].position <= rows[ids[j]].position)
  }

  lemma {:induction false} SomeLowest(rows: Rows, ids: set<ChunkId>) returns (low: ChunkId)
    requires ids != {} && ids <= rows.Keys
    ensures low in ids && forall id :: id in ids ==> rows[low].position <= rows[id].position
    decreases ids
  {
    var id :| id in ids;
    if ids == {id} {
      low := id;
    } else {
      low := SomeLowest(rows, ids - {id});
      if rows[id].position < rows[low].position {
        low := id;
      }
    }
  }

  /** Reading exact rows in position order gives the pieces, one row each. */
  lemma ExactReadsBack(rows: Rows, pieces: seq<string>, ids: seq<ChunkId>)
    requires Exact(rows, pieces) && InOrder(rows, ids)
    requires forall a, b :: a in rows && b in rows ==> rows[a].lesson == rows[b].lesson
    ensures |ids| == |pieces|
    ensures forall k :: 0 <= k < |ids| ==> rows[ids[k]].position == k && rows[ids[k]].content == pieces[k]
  {
    forall k | 0 <= k < |ids| ensures rows[ids[k]].position == k {
      PlaceIsIndex(rows, pieces, ids, k);
    }
    assert |ids| > 0 ==> rows[ids[|ids| - 1]].position < |pieces|;
    if |pieces| > 0 {
      var last := |pieces| - 1;
      assert HasAt(rows, last, pieces[last]);
      var id :| id in rows && rows[id].position == last;
      var i :| 0 <= i < |ids| && ids[i] == id;
    }
  }

  lemma {:induction false} PlaceIsIndex(rows: Rows, pieces: seq<string>, ids: seq<ChunkId>, k: nat)
    requires Exact(rows, pieces) && InOrder(rows, ids) && k < |ids|
    requires forall a, b :: a in rows && b in rows ==> rows[a].lesson == rows[b].lesson
    ensures rows[ids[k]].position == k
  {
    var p := rows[ids[k]].position;
    if p < k {
      PlaceIsIndex(rows, pieces, ids, p);
    }
    assert HasAt(rows, k, pieces[k]);
    var id :| id in rows && rows[id].position == k;
    var j :| 0 <= j < |ids| && ids[j] == id;
    if j < k {
      PlaceIsIndex(rows, pieces, ids, j);
    }
    assert p <= k;
  }

  /** The `chunks` table as one session sees it. */
  class ChunkRepository {
    var rows: Rows

    constructor (rows: Rows)
      ensures this.rows == rows
    {
      this.rows := rows;
    }

    /** `SELECT ... WHERE lesson_id = ... ORDER BY position`. */
    method ExistingForLesson(lesson: LessonId) returns (ids: seq<ChunkId>)
      ensures InOrder(RowsFor(rows, lesson), ids)
    {
      ids := [];
      var mine := RowsFor(rows, lesson);
      var left := mine.Keys;
      while left != {}
        invariant left <= mine.Keys
        invariant forall i :: 0 <= i < |ids| ==> ids[i] in mine && ids[i] !in left
        invariant forall id :: id in mine ==> id in left || id in ids
        invariant forall i, j :: 0 <= i < j < |ids| ==>
                    ids[i] != ids[j] && mine[ids[i]].position <= mine[ids[j]].position
        invariant forall i, id :: 0 <= i < |ids| && id in left ==> mine[ids[i]].position <= mine[id].position
        decreases left
      {
        ghost var lowest := SomeLowest(mine, left);
        var low :| low in left && forall id :: id in left ==> mine[low].position <= mine[id].position;
        ids := ids + [low];
        left := left - {low};
      }
    }

    method Add(id: ChunkId, chunk: Chunk)
      requires id !in rows
      modifies this
      ensures rows == old(rows)[id := chunk]
    {
      rows := rows[id := chunk];
    }

    /** Assigning `chunk.position` on a row already loaded. */
    method Move(id: ChunkId, position: nat)
      requires id in rows
      modifies this
      ensures rows == old(rows)[id := old(rows)[id].(position := position)]
    {
      rows := rows[id := rows[id].(position := position)];
    }

    method DeleteMany(ids: seq<ChunkId>)
      modifies this
      ensures rows == old(rows) - (set id | id in ids)
    {
      for i := 0 to |ids|
        invariant rows == old(rows) - (set id | id in ids[..i])
      {
        assert ids[..i + 1] == ids[..i] + [ids[i]];
        rows := rows - {ids[i]};
      }
      assert ids[..|ids|] == ids;
    }

    method DeleteForLesson(lesson: LessonId)
      modifies this
      ensures rows == map id | id in old(rows) && old(rows)[id].lesson != lesson :: old(rows)[id]
    {
      rows := map id | id in rows && rows[id].lesson != lesson :: rows[id];
    }
  }

  // --------------------------------------------------------- chunk_lesson

  /** The table when the first `n` pieces have been placed. */
  ghost function Placed(rows: Rows, lesson: LessonId, pieces: seq<string>, base: nat, n: nat): Rows {
    Moved(rows, lesson, pieces, n) + Inserted(RowsFor(rows, lesson), lesson, pieces, base, n)
  }

  ghost function Moved(rows: Rows, lesson: LessonId, pieces: seq<string>, n: nat): Rows {
    map id | id in rows :: MovedRow(rows, lesson, pieces, n, id)
  }

  ghost function MovedRow(rows: Rows, lesson: LessonId, pieces: seq<string>, n: nat, id: ChunkId): Chunk
    requires id in rows
  {
    var stored := RowsFor(rows, lesson);
    if IsHolder(stored, id) && Wanted(pieces, rows[id].contentHash) && FirstAt(pieces, rows[id].contentHash) < n
    then rows[id].(position := FirstAt(pieces, rows[id].contentHash))
    else rows[id]
  }

  /** `by_hash`: every stored digest leads to its holder. */
  ghost predicate IsByHash(byHash: map<Digest, ChunkId>, stored: Rows) {
    && (forall d :: d in byHash ==> IsHolder(stored, byHash[d]) && stored[byHash[d]].contentHash == d)
    && (forall d :: Stored(stored, d) ==> d in byHash)
  }

  method IndexByHash(repo: ChunkRepository, existing: seq<ChunkId>, ghost stored: Rows, ghost lesson: LessonId,
                     ghost base: nat)
    returns (byHash: map<Digest, ChunkId>)
    requires ValidStored(stored, lesson, base) && InOrder(stored, existing)
    requires forall id :: id in stored ==> id in repo.rows && repo.rows[id] == stored[id]
    ensures IsByHash(byHash, stored)
  {
    byHash := map[];
    for i := 0 to |existing|
      invariant forall d :: d in byHash ==> byHash[d] in stored && stored[byHash[d]].contentHash == d
      invariant forall j :: 0 <= j < i ==> NotAbove(stored, byHash, existing[j])
    {
      var hash := repo.rows[existing[i]].contentHash;
      byHash := byHash[hash := existing[i]];
    }
    forall d | d in byHash ensures IsHolder(stored, byHash[d]) {
      forall other | other in stored && other != byHash[d] && stored[other].contentHash == d
        ensures stored[other].position < stored[byHash[d]].position
      {
        var j :| 0 <= j < |existing| && existing[j] == other;
        assert NotAbove(stored, byHash, existing[j]);
      }
    }
    forall d | Stored(stored, d) ensures d in byHash {
      var id :| id in stored && stored[id].contentHash == d;
      var j :| 0 <= j < |existing| && existing[j] == id;
      assert NotAbove(stored, byHash, existing[j]);
    }
  }

  /** `id` is indexed, or a row with its digest that stands no earlier. */
  ghost predicate NotAbove(stored: Rows, byHash: map<Digest, ChunkId>, id: ChunkId) {
    && id in stored
    && stored[id].contentHash in byHash
    && byHash[stored[id].contentHash] in stored
    && stored[id].position <= stored[byHash[stored[id].contentHash]].position
  }

  // The effect of placing one more piece, in the two cases the loop distinguishes.

  /** Adding the row for place `n` to those inserted so far. */
  lemma InsertedStep(stored: Rows, lesson: LessonId, pieces: seq<string>, base: nat, n: nat)
    requires n < |pieces|
    ensures var before := Inserted(stored, lesson, pieces, base, n);
            var after := Inserted(stored, lesson, pieces, base, n + 1);
            if Reused(stored, pieces, n) then after == before
            else after == before[base + n := NewChunk(lesson, pieces[n], n)]
  {
    assert IsInsert(stored, pieces, base, base + n) <==> !Reused(stored, pieces, n);
  }

  lemma PlacedByReuse(rows: Rows, lesson: LessonId, pieces: seq<string>, base: nat, n: nat, h: ChunkId)
    requires ValidRows(rows, base) && n < |pieces|
    requires IsHolder(RowsFor(rows, lesson), h) && rows[h].contentHash == ContentHash(pieces[n])
    requires FirstAt(pieces, ContentHash(pieces[n])) == n
    ensures var before := Placed(rows, lesson, pieces, base, n);
            h in before && Placed(rows, lesson, pieces, base, n + 1) == before[h := before[h].(position := n)]
  {
    assert Stored(RowsFor(rows, lesson), ContentHash(pieces[n])) && h < base;
    InsertedStep(RowsFor(rows, lesson), lesson, pieces, base, n);
    OnlyHolderMoves(rows, lesson, pieces, base, n, h);
  }

  lemma OnlyHolderMoves(rows: Rows, lesson: LessonId, pieces: seq<string>, base: nat, n: nat, h: ChunkId)
    requires n < |pieces| && IsHolder(RowsFor(rows, lesson), h) && rows[h].contentHash == ContentHash(pieces[n])
    requires FirstAt(pieces, ContentHash(pieces[n])) == n
    ensures forall id :: id in rows && id != h ==>
              MovedRow(rows, lesson, pieces, n + 1, id) == MovedRow(rows, lesson, pieces, n, id)
    ensures MovedRow(rows, lesson, pieces, n + 1, h) == MovedRow(rows, lesson, pieces, n, h).(position := n)
  {
  }

  lemma PlacedByInsert(rows: Rows, lesson: LessonId, pieces: seq<string>, base: nat, n: nat)
    requires ValidRows(rows, base) && n < |pieces| && !Reused(RowsFor(rows, lesson), pieces, n)
    ensures var before := Placed(rows, lesson, pieces, base, n);
            && base + n !in before
            && Placed(rows, lesson, pieces, base, n + 1) == before[base + n := NewChunk(lesson, pieces[n], n)]
  {
    var stored := RowsFor(rows, lesson);
    InsertedStep(stored, lesson, pieces, base, n);
    NoHolderMoves(rows, lesson, pieces, n);
    AddedLast(Moved(rows, lesson, pieces, n), Inserted(stored, lesson, pieces, base, n), base + n,
              NewChunk(lesson, pieces[n], n));
  }

  lemma AddedLast(moved: Rows, inserted: Rows, id: ChunkId, chunk: Chunk)
    ensures moved + inserted[id := chunk] == (moved + inserted)[id := chunk]
  {
  }

  lemma NoHolderMoves(rows: Rows, lesson: LessonId, pieces: seq<string>, n: nat)
    requires n < |pieces| && !Reused(RowsFor(rows, lesson), pieces, n)
    ensures Moved(rows, lesson, pieces, n + 1) == Moved(rows, lesson, pieces, n)
  {
  }

  /** What becomes of one key when the unwanted rows are dropped. */
  lemma TrimmedAt(rows: Rows, lesson: LessonId, pieces: seq<string>, base: nat, id: ChunkId)
    requires ValidRows(rows, base)
    ensures var placed := Placed(rows, lesson, pieces, base, |pieces|);
            var after := AfterChunking(rows, lesson, pieces, base);
            var stale := id in rows && rows[id].lesson == lesson && !Wanted(pieces, rows[id].contentHash);
            && (id in after <==> id in placed && !stale)
            && (id in after ==> after[id] == placed[id])
  {
    var stored := RowsFor(rows, lesson);
    if id in Inserted(stored, lesson, pieces, base, |pieces|) {
      assert id >= base && id !in rows;
    } else if id in rows {
      assert Placed(rows, lesson, pieces, base, |pieces|)[id] == MovedRow(rows, lesson, pieces, |pieces|, id);
      if rows[id].lesson == lesson {
        assert id in stored && stored[id] == rows[id];
      } else {
        assert id !in stored && id !in Rebuilt(stored, lesson, pieces, base);
      }
    }
  }

  /** Dropping the unwanted rows of the lesson finishes the reconciliation. */
  lemma PlacedThenTrimmed(rows: Rows, lesson: LessonId, pieces: seq<string>, base: nat, stale: set<ChunkId>)
    requires ValidRows(rows, base)
    requires forall id :: id in stale <==>
               id in rows && rows[id].lesson == lesson && !Wanted(pieces, rows[id].contentHash)
    ensures Placed(rows, lesson, pieces, base, |pieces|) - stale == AfterChunking(rows, lesson, pieces, base)
  {
    var placed, after := Placed(rows, lesson, pieces, base, |pieces|), AfterChunking(rows, lesson, pieces, base);
    SameMap(placed - stale, after) by {
      forall id: ChunkId
        ensures (id in placed - stale <==> id in after) && (id in after ==> (placed - stale)[id] == after[id])
      {
        TrimmedAt(rows, lesson, pieces, base, id);
      }
    }
  }

  lemma SameMap(a: Rows, b: Rows)
    requires forall id: ChunkId :: (id in a <==> id in b) && (id in b ==> a[id] == b[id])
    ensures a == b
  {
  }

  /** A lesson without text keeps no chunks. */
  lemma NothingWanted(rows: Rows, lesson: LessonId, base: nat)
    ensures AfterChunking(rows, lesson, [], base) == map id | id in rows && rows[id].lesson != lesson :: rows[id]
  {
  }

  /** The loop over the pieces: take over the holder of a digest seen for the first time, insert
      otherwise. */
  method PlacePieces(repo: ChunkRepository, lesson: LessonId, pieces: seq<string>, byHash: map<Digest, ChunkId>,
                     base: nat)
    returns (kept: set<Digest>)
    requires ValidRows(repo.rows, base) && IsByHash(byHash, RowsFor(repo.rows, lesson))
    modifies repo
    ensures repo.rows == Placed(old(repo.rows), lesson, pieces, base, |pieces|)
    ensures forall d :: d in kept <==> Wanted(pieces, d)
  {
    ghost var rows := repo.rows;
    kept := {};
    NothingPlaced(rows, lesson, pieces, base);
    for position := 0 to |pieces|
      invariant repo.rows == Placed(rows, lesson, pieces, base, position)
      invariant SeenBefore(kept, pieces, position)
    {
      PlaceOne(repo, lesson, pieces, byHash, base, kept, position, rows);
      SeenStep(kept, pieces, position);
      kept := kept + {ContentHash(pieces[position])};
    }
    AllSeen(kept, pieces);
  }

  lemma NothingPlaced(rows: Rows, lesson: LessonId, pieces: seq<string>, base: nat)
    ensures Placed(rows, lesson, pieces, base, 0) == rows
  {
    assert Inserted(RowsFor(rows, lesson), lesson, pieces, base, 0) == map[];
    assert Moved(rows, lesson, pieces, 0) == rows;
  }

  lemma AllSeen(kept: set<Digest>, pieces: seq<string>)
    requires SeenBefore(kept, pieces, |pieces|)
    ensures forall d :: d in kept <==> Wanted(pieces, d)
  {
  }

  /** One turn of the loop. */
  method PlaceOne(repo: ChunkRepository, lesson: LessonId, pieces: seq<string>, byHash: map<Digest, ChunkId>, base: nat,
                  kept: set<Digest>, position: nat, ghost rows: Rows)
    requires ValidRows(rows, base) && IsByHash(byHash, RowsFor(rows, lesson))
    requires position < |pieces| && SeenBefore(kept, pieces, position)
    requires repo.rows == Placed(rows, lesson, pieces, base, position)
    modifies repo
    ensures repo.rows == Placed(rows, lesson, pieces, base, position + 1)
  {
    var digest := ContentHash(pieces[position]);
    ghost var before, after := repo.rows, Placed(rows, lesson, pieces, base, position + 1);
    ReusedIff(RowsFor(rows, lesson), pieces, position, byHash, kept);
    if digest in byHash && digest !in kept {
      var reused := byHash[digest];
      PlacedByReuse(rows, lesson, pieces, base, position, reused);
      assert after == before[reused := before[reused].(position := position)];
      repo.Move(reused, position);
    } else {
      var chunk := NewChunk(lesson, pieces[position], position);
      PlacedByInsert(rows, lesson, pieces, base, position);
      assert after == before[base + position := chunk];
      repo.Add(base + position, chunk);
    }
  }

  ghost predicate SeenBefore(kept: set<Digest>, pieces: seq<string>, n: nat) {
    forall d :: d in kept <==> exists j :: 0 <= j < n && j < |pieces| && ContentHash(pieces[j]) == d
  }

  lemma SeenStep(kept: set<Digest>, pieces: seq<string>, n: nat)
    requires n < |pieces| && SeenBefore(kept, pieces, n)
    ensures SeenBefore(kept + {ContentHash(pieces[n])}, pieces, n + 1)
  {
  }

  /** `chunk_lesson`. New keys are drawn from `base`, which no stored key has reached. */
  method ChunkLesson(repo: ChunkRepository, lesson: LessonId, content: Option<string>,
                     maxTokens: int, overlapTokens: int, base: nat)
    returns (count: nat)
    requires ValidRows(repo.rows, base)
    modifies repo
    ensures var pieces := ChunksOfContent(content, maxTokens, overlapTokens);
            count == |pieces| && repo.rows == AfterChunking(old(repo.rows), lesson, pieces, base)
  {
    var existing := repo.ExistingForLesson(lesson);
    var pieces := ChunkText(content, maxTokens, overlapTokens);
    ghost var rows := repo.rows;
    ghost var stored := RowsFor(rows, lesson);
    RowsForValid(rows, lesson, base);

    if pieces == [] {
      NothingWanted(rows, lesson, base);
      repo.DeleteForLesson(lesson);
      return 0;
    }

    var byHash := IndexByHash(repo, existing, stored, lesson, base);
    var kept := PlacePieces(repo, lesson, pieces, byHash, base);
    var stale := StaleRows(repo, existing, kept, rows, lesson, pieces, base);
    PlacedThenTrimmed(rows, lesson, pieces, base, set id | id in stale);
    repo.DeleteMany(stale);
    count := |pieces|;
  }

  lemma ReusedIff(stored: Rows, pieces: seq<string>, n: nat, byHash: map<Digest, ChunkId>, kept: set<Digest>)
    requires n < |pieces| && IsByHash(byHash, stored)
    requires SeenBefore(kept, pieces, n)
    ensures var d := ContentHash(pieces[n]);
            && Wanted(pieces, d)
            && ((d in byHash && d !in kept) <==> Reused(stored, pieces, n))
            && (d !in kept ==> FirstAt(pieces, d) == n)
  {
  }

  method StaleRows(repo: ChunkRepository, existing: seq<ChunkId>, kept: set<Digest>, ghost rows: Rows,
                   ghost lesson: LessonId, ghost pieces: seq<string>, ghost base: nat)
    returns (stale: seq<ChunkId>)
    requires ValidRows(rows, base) && InOrder(RowsFor(rows, lesson), existing)
    requires repo.rows == Placed(rows, lesson, pieces, base, |pieces|)
    requires forall d :: d in kept <==> Wanted(pieces, d)
    ensures forall id :: id in stale <==>
              id in rows && rows[id].lesson == lesson && !Wanted(pieces, rows[id].contentHash)
  {
    stale := [];
    for i := 0 to |existing|
      invariant forall id :: id in stale ==> id in existing && !Wanted(pieces, rows[id].contentHash)
      invariant forall j :: 0 <= j < i && !Wanted(pieces, rows[existing[j]].contentHash) ==> existing[j] in stale
    {
      PlacedKeepsHash(rows, lesson, pieces, base, existing[i]);
      if repo.rows[existing[i]].contentHash !in kept {
        stale := stale + [existing[i]];
      }
    }
    forall id | id in rows && rows[id].lesson == lesson && !Wanted(pieces, rows[id].contentHash) ensures id in stale {
      assert id in RowsFor(rows, lesson);
      var j :| 0 <= j < |existing| && existing[j] == id;
    }
  }

  lemma PlacedKeepsHash(rows: Rows, lesson: LessonId, pieces: seq<string>, base: nat, id: ChunkId)
    requires ValidRows(rows, base) && id in RowsFor(rows, lesson)
    ensures var placed := Placed(rows, lesson, pieces, base, |pieces|);
            id in placed && placed[id].contentHash == rows[id].contentHash
  {
  }

  // ---------------------------------------------------- the transaction

  /** The rows of the deployment: lessons' texts and the chunk table. */
  class Database {
    var lessons: map<LessonId, Option<string>>
    var chunks: Rows
    var nextKey: nat

    predicate Valid()
      reads this
    {
      ValidRows(chunks, nextKey)
    }

    constructor ()
      ensures Valid() && chunks == map[] && lessons == map[]
    {
      lessons, chunks, nextKey := map[], map[], 0;
    }

    /** `chunk_one_lesson`: work in a session of its own, then commit. A lesson deleted meanwhile
        is nothing to chunk; a commit that breaks the position constraint leaves no trace. */
    method ChunkOneLesson(lesson: LessonId, maxTokens: int, overlapTokens: int) returns (r: Result<nat>)
      requires Valid()
      modifies this
      ensures Valid() && lessons == old(lessons)
      ensures lesson !in lessons ==> r == Ok(0) && chunks == old(chunks)
      ensures r.Ok? ==> nextKey == old(nextKey) + r.value
      ensures r.Refused? ==> nextKey == old(nextKey)
      ensures lesson in lessons ==>
        var pieces := ChunksOfContent(lessons[lesson], maxTokens, overlapTokens);
        var after := AfterChunking(old(chunks), lesson, pieces, old(nextKey));
        if UniquePositions(after) then r == Ok(|pieces|) && chunks == after
        else r == Refused(IntegrityError) && chunks == old(chunks)
    {
      if lesson !in lessons {
        return Ok(0);
      }
      var session := new ChunkRepository(chunks);
      var count := ChunkLesson(session, lesson, lessons[lesson], maxTokens, overlapTokens, nextKey);
      AfterChunkingFrame(chunks, lesson, ChunksOfContent(lessons[lesson], maxTokens, overlapTokens), nextKey);
      if UniquePositions(session.rows) {
        chunks, nextKey := session.rows, nextKey + count;
        r := Ok(count);
      } else {
        r := Refused(IntegrityError);
      }
    }
  }
}
