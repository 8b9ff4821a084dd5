/** The stored chunks (`infra/db/repositories/chunk.py`) and what reconciling one lesson does to
    them (`services/publishing.py`, `chunk_lesson`). */
module ChunkStore {
  import opened Chunking

  type ChunkId = nat
  type LessonId = nat

  /** A sha256 digest; collisions are taken not to happen, so it is known by its preimage. */
  datatype Digest = Sha256(preimage: string)

  function ContentHash(text: string): Digest {
    Sha256(text)
  }

  datatype Chunk = Chunk(lesson: LessonId, content: string, position: nat, tokenCount: nat, contentHash: Digest)

  /** Rows by primary key. */
  type Rows = map<ChunkId, Chunk>

  function RowsFor(rows: Rows, lesson: LessonId): Rows {
    map id | id in rows && rows[id].lesson == lesson :: rows[id]
  }

  /** `uq_chunks_source_position`, checked at commit. */
  predicate UniquePositions(rows: Rows) {
    forall a, b :: a in rows && b in rows && a != b && rows[a].lesson == rows[b].lesson ==>
      rows[a].position != rows[b].position
  }

  /** A row carries the digest of its own text. */
  predicate RowTrue(c: Chunk) {
    c.contentHash == ContentHash(c.content)
  }

  /** Every row carries the estimate of its own text. */
  predicate Counted(rows: Rows) {
    forall id :: id in rows ==> rows[id].tokenCount == Estimate(rows[id].content)
  }

  /** A committed table: no key has reached `base`, from which new keys are drawn. */
  predicate ValidRows(rows: Rows, base: nat) {
    UniquePositions(rows) && forall id :: id in rows ==> id < base && RowTrue(rows[id])
  }

  /** A committed table holding the rows of one lesson. */
  predicate ValidStored(stored: Rows, lesson: LessonId, base: nat) {
    ValidRows(stored, base) && forall id :: id in stored ==> stored[id].lesson == lesson
  }

  lemma RowsForValid(rows: Rows, lesson: LessonId, base: nat)
    requires ValidRows(rows, base)
    ensures ValidStored(RowsFor(rows, lesson), lesson, base)
  {
  }

  // ----------------------------------------------------- the reconciliation

  predicate Wanted(pieces: seq<string>, digest: Digest) {
    exists k :: 0 <= k < |pieces| && ContentHash(pieces[k]) == digest
  }

  lemma {:induction false} SomeFirst(pieces: seq<string>, digest: Digest, k: nat) returns (f: nat)
    requires k < |pieces| && ContentHash(pieces[k]) == digest
    ensures f < |pieces| && ContentHash(pieces[f]) == digest
    ensures forall j :: 0 <= j < f ==> ContentHash(pieces[j]) != digest
  {
    if j :| 0 <= j < k && ContentHash(pieces[j]) == digest {
      f := SomeFirst(pieces, digest, j);
    } else {
      f := k;
    }
  }

  /** Where the first piece with this digest stands. */
  ghost function FirstAt(pieces: seq<string>, digest: Digest): (k: nat)
    requires Wanted(pieces, digest)
    ensures k < |pieces| && ContentHash(pieces[k]) == digest
    ensures forall j :: 0 <= j < k ==> ContentHash(pieces[j]) != digest
  {
    assert exists f: nat :: f < |pieces| && ContentHash(pieces[f]) == digest
                         && forall j :: 0 <= j < f ==> ContentHash(pieces[j]) != digest by {
      var k :| 0 <= k < |pieces| && ContentHash(pieces[k]) == digest;
      var f := SomeFirst(pieces, digest, k);
    }
    var k: nat :| k < |pieces| && ContentHash(pieces[k]) == digest
                  && forall j :: 0 <= j < k ==> ContentHash(pieces[j]) != digest;
    k
  }

  /** The row `by_hash` ends up with for its digest: the last in position order. */
  predicate IsHolder(stored: Rows, id: ChunkId) {
    id in stored
    && forall other ::
      other in stored && other != id && stored[other].contentHash == stored[id].contentHash ==>
        stored[other].position < stored[id].position
  }

  predicate Stored(stored: Rows, digest: Digest) {
    exists id :: id in stored && stored[id].contentHash == digest
  }

  /** The piece at `k` takes over a stored row instead of a new one. */
  ghost predicate Reused(stored: Rows, pieces: seq<string>, k: nat) {
    k < |pieces| && Stored(stored, ContentHash(pieces[k])) && FirstAt(pieces, ContentHash(pieces[k])) == k
  }

  function NewChunk(lesson: LessonId, text: string, position: nat): Chunk {
    Chunk(lesson, text, position, Estimate(text), ContentHash(text))
  }

  /** The stored rows that survive: wanted ones stay, the holder of each digest moves to the
      first place its text now has. */
  ghost function Survivors(stored: Rows, pieces: seq<string>): Rows {
    map id | id in stored && Wanted(pieces, stored[id].contentHash) ::
      if IsHolder(stored, id) then stored[id].(position := FirstAt(pieces, stored[id].contentHash))
      else stored[id]
  }

  /** One new row for every piece that took over no stored one. */
  ghost function Inserted(stored: Rows, lesson: LessonId, pieces: seq<string>, base: nat, upTo: nat): Rows {
    map id: ChunkId | base <= id < base + upTo && IsInsert(stored, pieces, base, id) ::
      NewChunk(lesson, pieces[id - base], id - base)
  }

  ghost predicate IsInsert(stored: Rows, pieces: seq<string>, base: nat, id: ChunkId) {
    base <= id < base + |pieces| && !Reused(stored, pieces, id - base)
  }

  /** The lesson's rows after `chunk_lesson`. */
  ghost function Rebuilt(stored: Rows, lesson: LessonId, pieces: seq<string>, base: nat): Rows {
    Survivors(stored, pieces) + Inserted(stored, lesson, pieces, base, |pieces|)
  }

  /** Replacing one lesson's rows: `out` for `lesson`, everything else as it was. */
  function Replaced(rows: Rows, lesson: LessonId, out: Rows): Rows {
    (map id | id in rows && rows[id].lesson != lesson :: rows[id]) + out
  }

  /** The whole table after `chunk_lesson`. */
  ghost function AfterChunking(rows: Rows, lesson: LessonId, pieces: seq<string>, base: nat): Rows {
    Replaced(rows, lesson, Rebuilt(RowsFor(rows, lesson), lesson, pieces, base))
  }

  // -------------------------------------------------- what it should achieve

  /** Every piece has a row at its place. */
  ghost predicate Covers(rows: Rows, pieces: seq<string>) {
    forall k :: 0 <= k < |pieces| ==> HasAt(rows, k, pieces[k])
  }

  ghost predicate HasAt(rows: Rows, k: nat, text: string) {
    exists id :: id in rows && rows[id].position == k && rows[id].content == text
  }

  /** Delete-everything-then-insert would leave exactly this: positions 0..n-1 once each, the row
      at `k` holding the `k`th piece, and nothing else. */
  ghost predicate Exact(rows: Rows, pieces: seq<string>) {
    && UniquePositions(rows)
    && Covers(rows, pieces)
    && forall id :: id in rows ==> rows[id].position < |pieces| && rows[id].content == pieces[rows[id].position]
  }

  /** No two stored rows share a digest that the new pieces want. */
  ghost predicate Reconcilable(stored: Rows, pieces: seq<string>) {
    forall a, b :: a in stored && b in stored && a != b && stored[a].contentHash == stored[b].contentHash ==>
      !Wanted(pieces, stored[a].contentHash)
  }

  ghost predicate Distinct(pieces: seq<string>) {
    forall i, j :: 0 <= i < j < |pieces| ==> pieces[i] != pieces[j]
  }

  // ------------------------------------------------------------ basic facts

  lemma HolderAbove(stored: Rows, lesson: LessonId, base: nat, id: ChunkId) returns (h: ChunkId)
    requires ValidStored(stored, lesson, base) && id in stored
    ensures IsHolder(stored, h) && stored[h].contentHash == stored[id].contentHash
    ensures stored[id].position <= stored[h].position
    decreases Rivals(stored, id)
  {
    if other :| other in stored && other != id && stored[other].contentHash == stored[id].contentHash
                && stored[other].position >= stored[id].position {
      assert other in Rivals(stored, id) && other !in Rivals(stored, other);
      assert Rivals(stored, other) <= Rivals(stored, id);
      h := HolderAbove(stored, lesson, base, other);
    } else {
      h := id;
    }
  }

  ghost function Rivals(stored: Rows, id: ChunkId): set<ChunkId>
    requires id in stored
  {
    set o | o in stored && stored[o].position > stored[id].position
  }

  /** The row that carries the piece at `k`. */
  lemma RowAt(rows: Rows, pieces: seq<string>, k: nat) returns (id: ChunkId)
    requires Covers(rows, pieces) && k < |pieces|
    ensures id in rows && rows[id].position == k && rows[id].content == pieces[k]
  {
    assert HasAt(rows, k, pieces[k]);
    id :| id in rows && rows[id].position == k && rows[id].content == pieces[k];
  }

  lemma SomeRepeat(pieces: seq<string>) returns (i: nat, j: nat)
    requires !Distinct(pieces)
    ensures i < j < |pieces| && pieces[i] == pieces[j]
  {
    i, j :| 0 <= i < j < |pieces| && pieces[i] == pieces[j];
  }

  lemma WantedPiece(pieces: seq<string>, k: nat)
    requires k < |pieces|
    ensures Wanted(pieces, ContentHash(pieces[k])) && FirstAt(pieces, ContentHash(pieces[k])) <= k
  {
  }

  /** The row that carries the piece at `k`: the holder of its digest, or a new row. */
  lemma Occupant(stored: Rows, lesson: LessonId, pieces: seq<string>, base: nat, k: nat) returns (id: ChunkId)
    requires ValidStored(stored, lesson, base) && k < |pieces|
    ensures var out := Rebuilt(stored, lesson, pieces, base);
            id in out && out[id].position == k && out[id].content == pieces[k]
    ensures id in stored ==> IsHolder(stored, id)
  {
    WantedPiece(pieces, k);
    if Reused(stored, pieces, k) {
      var some :| some in stored && stored[some].contentHash == ContentHash(pieces[k]);
      id := HolderAbove(stored, lesson, base, some);
      assert id in Survivors(stored, pieces) && id < base;
    } else {
      id := base + k;
      assert IsInsert(stored, pieces, base, id);
      assert id in Inserted(stored, lesson, pieces, base, |pieces|);
    }
  }

  /** Every piece finds its place, whatever was stored. */
  lemma RebuiltCovers(stored: Rows, lesson: LessonId, pieces: seq<string>, base: nat)
    requires ValidStored(stored, lesson, base)
    ensures Covers(Rebuilt(stored, lesson, pieces, base), pieces)
  {
    forall k | 0 <= k < |pieces| ensures HasAt(Rebuilt(stored, lesson, pieces, base), k, pieces[k]) {
      var id := Occupant(stored, lesson, pieces, base, k);
    }
  }

  /** The row invariant is kept, and every row left is one the pieces want. */
  lemma RebuiltRows(stored: Rows, lesson: LessonId, pieces: seq<string>, base: nat)
    requires ValidStored(stored, lesson, base)
    ensures forall id :: id in Rebuilt(stored, lesson, pieces, base) ==>
              var c := Rebuilt(stored, lesson, pieces, base)[id];
              RowTrue(c) && c.lesson == lesson && id < base + |pieces| && Wanted(pieces, c.contentHash)
  {
    var out := Rebuilt(stored, lesson, pieces, base);
    forall id | id in out
      ensures RowTrue(out[id]) && out[id].lesson == lesson && id < base + |pieces|
      ensures Wanted(pieces, out[id].contentHash)
    {
      if id !in Survivors(stored, pieces) {
        WantedPiece(pieces, id - base);
      }
    }
  }

  /** A stored row that stays, is not moved, and stands where a piece must go. */
  ghost predicate Stray(stored: Rows, pieces: seq<string>, id: ChunkId) {
    && id in stored && Wanted(pieces, stored[id].contentHash) && !IsHolder(stored, id)
    && stored[id].position < |pieces|
  }

  /** It shares its place with the row put there. */
  lemma StrayCollides(stored: Rows, lesson: LessonId, pieces: seq<string>, base: nat, stray: ChunkId)
    requires ValidStored(stored, lesson, base) && Stray(stored, pieces, stray)
    ensures !UniquePositions(Rebuilt(stored, lesson, pieces, base))
  {
    var out := Rebuilt(stored, lesson, pieces, base);
    assert stray in Survivors(stored, pieces) && stray < base && out[stray] == stored[stray];
    RebuiltRows(stored, lesson, pieces, base);
    var id := Occupant(stored, lesson, pieces, base, stored[stray].position);
    assert id != stray && out[id].position == out[stray].position && out[id].lesson == out[stray].lesson;
  }

  /** A wanted row that is not moved leaves the lesson other than it should be. */
  lemma UnmovedBreaksExactness(stored: Rows, lesson: LessonId, pieces: seq<string>, base: nat, id: ChunkId)
    requires ValidStored(stored, lesson, base)
    requires id in stored && Wanted(pieces, stored[id].contentHash) && !IsHolder(stored, id)
    ensures !Exact(Rebuilt(stored, lesson, pieces, base), pieces)
  {
    assert id in Survivors(stored, pieces) && id < base;
    if stored[id].position < |pieces| {
      StrayCollides(stored, lesson, pieces, base, id);
    }
  }

  /** A row moved or inserted stands at a piece with its text, and it is either the reused row for
      that piece or the one inserted for it. */
  lemma PlacedRow(stored: Rows, lesson: LessonId, pieces: seq<string>, base: nat, id: ChunkId)
    requires ValidStored(stored, lesson, base) && (id in stored ==> IsHolder(stored, id))
    requires id in Rebuilt(stored, lesson, pieces, base)
    ensures var c := Rebuilt(stored, lesson, pieces, base)[id];
      && c.position < |pieces| && c.content == pieces[c.position]
      && (id in stored ==> Reused(stored, pieces, c.position))
      && (id in stored ==> stored[id].contentHash == ContentHash(pieces[c.position]))
      && (id !in stored ==> id == base + c.position && !Reused(stored, pieces, c.position))
  {
    if id in stored {
      var d := stored[id].contentHash;
      assert Stored(stored, d);
      WantedPiece(pieces, FirstAt(pieces, d));
    } else {
      assert IsInsert(stored, pieces, base, id);
    }
  }

  /** No two rows moved or inserted share a place. */
  lemma PlacedApart(stored: Rows, lesson: LessonId, pieces: seq<string>, base: nat, a: ChunkId, b: ChunkId)
    requires ValidStored(stored, lesson, base) && a != b
    requires a in Rebuilt(stored, lesson, pieces, base) && b in Rebuilt(stored, lesson, pieces, base)
    requires (a in stored ==> IsHolder(stored, a)) && (b in stored ==> IsHolder(stored, b))
    ensures var out := Rebuilt(stored, lesson, pieces, base); out[a].position != out[b].position
  {
    PlacedRow(stored, lesson, pieces, base, a);
    PlacedRow(stored, lesson, pieces, base, b);
  }

  lemma UnmovedStays(stored: Rows, lesson: LessonId, pieces: seq<string>, base: nat, id: ChunkId)
    requires ValidStored(stored, lesson, base) && id in stored && !IsHolder(stored, id)
    requires id in Rebuilt(stored, lesson, pieces, base) && !Stray(stored, pieces, id)
    ensures Rebuilt(stored, lesson, pieces, base)[id] == stored[id] && stored[id].position >= |pieces|
  {
    assert id < base && id in Survivors(stored, pieces);
  }

  /** ACCEPTED OR REFUSED. The position constraint accepts a reconciliation, whatever was stored and
      whatever the pieces are, if and only if there is no such stray row. */
  lemma AcceptedIffNoStray(stored: Rows, lesson: LessonId, pieces: seq<string>, base: nat)
    requires ValidStored(stored, lesson, base)
    ensures UniquePositions(Rebuilt(stored, lesson, pieces, base)) <==> forall id :: !Stray(stored, pieces, id)
  {
    var out := Rebuilt(stored, lesson, pieces, base);
    if id :| Stray(stored, pieces, id) {
      StrayCollides(stored, lesson, pieces, base, id);
    } else {
      forall a, b | a in out && b in out && a != b ensures out[a].position != out[b].position {
        RowsApart(stored, lesson, pieces, base, a, b);
      }
    }
  }

  lemma RowsApart(stored: Rows, lesson: LessonId, pieces: seq<string>, base: nat, a: ChunkId, b: ChunkId)
    requires ValidStored(stored, lesson, base) && a != b
    requires a in Rebuilt(stored, lesson, pieces, base) && b in Rebuilt(stored, lesson, pieces, base)
    requires !Stray(stored, pieces, a) && !Stray(stored, pieces, b)
    ensures var out := Rebuilt(stored, lesson, pieces, base); out[a].position != out[b].position
  {
    var aStays, bStays := a in stored && !IsHolder(stored, a), b in stored && !IsHolder(stored, b);
    if aStays {
      UnmovedStays(stored, lesson, pieces, base, a);
    } else {
      PlacedRow(stored, lesson, pieces, base, a);
    }
    if bStays {
      UnmovedStays(stored, lesson, pieces, base, b);
    } else {
      PlacedRow(stored, lesson, pieces, base, b);
    }
    if !aStays && !bStays {
      PlacedApart(stored, lesson, pieces, base, a, b);
    }
  }

  lemma ReconcilableGivesExact(stored: Rows, lesson: LessonId, pieces: seq<string>, base: nat)
    requires ValidStored(stored, lesson, base) && Reconcilable(stored, pieces)
    ensures Exact(Rebuilt(stored, lesson, pieces, base), pieces)
  {
    var out := Rebuilt(stored, lesson, pieces, base);
    RebuiltCovers(stored, lesson, pieces, base);
    AcceptedIffNoStray(stored, lesson, pieces, base);
    forall id | id in out ensures out[id].position < |pieces| && out[id].content == pieces[out[id].position] {
      assert id in stored ==> IsHolder(stored, id);
      PlacedRow(stored, lesson, pieces, base, id);
    }
  }

  /** REFINEMENT. The reconciled rows are exactly those of delete-and-rebuild if and only if no
      two stored rows share a digest that the new pieces want. */
  lemma ReconcileIsExactIff(stored: Rows, lesson: LessonId, pieces: seq<string>, base: nat)
    requires ValidStored(stored, lesson, base)
    ensures Exact(Rebuilt(stored, lesson, pieces, base), pieces) <==> Reconcilable(stored, pieces)
  {
    if Reconcilable(stored, pieces) {
      ReconcilableGivesExact(stored, lesson, pieces, base);
    } else {
      var a, b :| a in stored && b in stored && a != b
                  && stored[a].contentHash == stored[b].contentHash && Wanted(pieces, stored[a].contentHash);
      assert !(IsHolder(stored, a) && IsHolder(stored, b));
      UnmovedBreaksExactness(stored, lesson, pieces, base, if IsHolder(stored, a) then b else a);
    }
  }

  // ------------------------------------------------------------- re-execution

  /** Rows as a committed reconciliation leaves them. */
  ghost predicate Settled(rows: Rows, lesson: LessonId, pieces: seq<string>, base: nat) {
    && ValidStored(rows, lesson, base)
    && Covers(rows, pieces)
    && forall id :: id in rows ==> Wanted(pieces, rows[id].contentHash)
  }

  lemma CommittedIsSettled(stored: Rows, lesson: LessonId, pieces: seq<string>, base: nat)
    requires ValidStored(stored, lesson, base)
    requires UniquePositions(Rebuilt(stored, lesson, pieces, base))
    ensures Settled(Rebuilt(stored, lesson, pieces, base), lesson, pieces, base + |pieces|)
  {
    RebuiltCovers(stored, lesson, pieces, base);
    RebuiltRows(stored, lesson, pieces, base);
  }

  /** If a digest is held twice, one of its rows is in the way of running again. */
  lemma RepeatCollides(rows: Rows, lesson: LessonId, pieces: seq<string>, base: nat, b: ChunkId)
    requires Settled(rows, lesson, pieces, base) && b in rows && !IsHolder(rows, b)
    ensures !UniquePositions(Rebuilt(rows, lesson, pieces, base))
  {
    var r := RowAt(rows, pieces, FirstAt(pieces, rows[b].contentHash));
    StrayCollides(rows, lesson, pieces, base, if IsHolder(rows, r) then b else r);
  }

  /** Where the pieces repeat, the committed rows hold a digest twice. */
  lemma RepeatHeldTwice(rows: Rows, lesson: LessonId, pieces: seq<string>, base: nat) returns (a: ChunkId, b: ChunkId)
    requires ValidStored(rows, lesson, base) && Covers(rows, pieces) && !Distinct(pieces)
    ensures a in rows && b in rows && rows[a].contentHash == rows[b].contentHash
    ensures rows[a].position < rows[b].position && rows[a].position < |pieces|
    ensures Wanted(pieces, rows[a].contentHash)
  {
    var i, j := SomeRepeat(pieces);
    a := RowAt(rows, pieces, i);
    b := RowAt(rows, pieces, j);
    assert RowTrue(rows[a]) && RowTrue(rows[b]);
  }

  /** RE-EXECUTION. Running again over what was committed is accepted by the position constraint
      exactly when the committed rows are exact and the pieces pairwise distinct; and whenever it
      is accepted it inserts, deletes and changes nothing. */
  lemma RerunLaw(rows: Rows, lesson: LessonId, pieces: seq<string>, base: nat)
    requires Settled(rows, lesson, pieces, base)
    ensures UniquePositions(Rebuilt(rows, lesson, pieces, base)) <==> Exact(rows, pieces) && Distinct(pieces)
    ensures UniquePositions(Rebuilt(rows, lesson, pieces, base)) ==> Rebuilt(rows, lesson, pieces, base) == rows
  {
    var again := Rebuilt(rows, lesson, pieces, base);
    if UniquePositions(again) {
      forall id | id in rows ensures IsHolder(rows, id) {
        if !IsHolder(rows, id) {
          RepeatCollides(rows, lesson, pieces, base, id);
        }
      }
      HoldersMakeExact(rows, lesson, pieces, base);
    }
    if Exact(rows, pieces) && Distinct(pieces) {
      ExactRerunsToItself(rows, lesson, pieces, base);
    }
  }

  /** A reconciliation changes nothing exactly where the rows are already exact for pairwise distinct
      pieces. */
  lemma RebuiltLeavesIff(stored: Rows, lesson: LessonId, pieces: seq<string>, base: nat)
    requires ValidStored(stored, lesson, base)
    ensures Rebuilt(stored, lesson, pieces, base) == stored <==> Exact(stored, pieces) && Distinct(pieces)
  {
    if Rebuilt(stored, lesson, pieces, base) == stored {
      RebuiltCovers(stored, lesson, pieces, base);
      RebuiltRows(stored, lesson, pieces, base);
      RerunLaw(stored, lesson, pieces, base);
    }
    if Exact(stored, pieces) && Distinct(pieces) {
      ExactRerunsToItself(stored, lesson, pieces, base);
    }
  }

  lemma HoldersMakeExact(rows: Rows, lesson: LessonId, pieces: seq<string>, base: nat)
    requires Settled(rows, lesson, pieces, base)
    requires forall id :: id in rows ==> IsHolder(rows, id)
    ensures Exact(rows, pieces) && Distinct(pieces)
  {
    forall i, j | 0 <= i < j < |pieces| ensures pieces[i] != pieces[j] {
      HoldersMakeDistinct(rows, lesson, pieces, base, i, j);
    }
    forall id | id in rows
      ensures rows[id].position < |pieces| && rows[id].content == pieces[rows[id].position]
    {
      HolderIsPlaced(rows, lesson, pieces, base, id);
    }
  }

  lemma HoldersMakeDistinct(rows: Rows, lesson: LessonId, pieces: seq<string>, base: nat, i: nat, j: nat)
    requires ValidStored(rows, lesson, base) && Covers(rows, pieces) && i < j < |pieces|
    requires forall id :: id in rows ==> IsHolder(rows, id)
    ensures pieces[i] != pieces[j]
  {
    var a := RowAt(rows, pieces, i);
    var b := RowAt(rows, pieces, j);
    assert IsHolder(rows, a) && IsHolder(rows, b);
  }

  lemma HolderIsPlaced(rows: Rows, lesson: LessonId, pieces: seq<string>, base: nat, id: ChunkId)
    requires ValidStored(rows, lesson, base) && Covers(rows, pieces)
    requires id in rows && Wanted(pieces, rows[id].contentHash) && IsHolder(rows, id)
    requires forall other :: other in rows ==> IsHolder(rows, other)
    ensures rows[id].position < |pieces| && rows[id].content == pieces[rows[id].position]
  {
    var r := RowAt(rows, pieces, FirstAt(pieces, rows[id].contentHash));
    assert IsHolder(rows, r) && IsHolder(rows, id);
  }

  lemma ExactLeavesNothingToInsert(rows: Rows, lesson: LessonId, pieces: seq<string>, base: nat, id: ChunkId)
    requires ValidStored(rows, lesson, base) && Exact(rows, pieces) && Distinct(pieces)
    ensures !IsInsert(rows, pieces, base, id)
  {
  }

  lemma ExactSurvives(rows: Rows, lesson: LessonId, pieces: seq<string>, base: nat)
    requires ValidStored(rows, lesson, base) && Exact(rows, pieces) && Distinct(pieces)
    ensures Survivors(rows, pieces) == rows
  {
  }

  lemma ExactRerunsToItself(rows: Rows, lesson: LessonId, pieces: seq<string>, base: nat)
    requires ValidStored(rows, lesson, base) && Exact(rows, pieces) && Distinct(pieces)
    ensures Rebuilt(rows, lesson, pieces, base) == rows
  {
    ExactSurvives(rows, lesson, pieces, base);
    forall id: ChunkId ensures !IsInsert(rows, pieces, base, id) {
      ExactLeavesNothingToInsert(rows, lesson, pieces, base, id);
    }
    NothingInserted(rows, lesson, pieces, base);
  }

  // ------------------------------------------------------------------- counts

  lemma {:induction false} Below(n: nat) returns (s: set<nat>)
    ensures |s| == n && forall k: nat :: k in s <==> k < n
  {
    if n == 0 {
      s := {};
    } else {
      s := Below(n - 1);
      s := s + {n - 1};
    }
  }

  function Places(rows: Rows, ids: set<ChunkId>): set<nat>
    requires ids <= rows.Keys
  {
    set id | id in ids :: rows[id].position
  }

  lemma {:induction false} PlacesCount(rows: Rows, ids: set<ChunkId>)
    requires ids <= rows.Keys
    requires forall a, b :: a in ids && b in ids && a != b ==> rows[a].position != rows[b].position
    ensures |Places(rows, ids)| == |ids|
    decreases ids
  {
    if ids == {} {
      assert Places(rows, ids) == {};
    } else {
      var id :| id in ids;
      PlacesCount(rows, ids - {id});
      assert Places(rows, ids) == Places(rows, ids - {id}) + {rows[id].position};
    }
  }

  predicate InRange(rows: Rows, n: nat) {
    forall id :: id in rows ==> rows[id].position < n
  }

  lemma PlacesFill(rows: Rows, pieces: seq<string>, below: set<nat>)
    requires Covers(rows, pieces) && forall k: nat :: k in below <==> k < |pieces|
    ensures below <= Places(rows, rows.Keys)
    ensures Places(rows, rows.Keys) <= below <==> InRange(rows, |pieces|)
  {
    forall k | k in below ensures k in Places(rows, rows.Keys) {
      var id := RowAt(rows, pieces, k);
    }
    forall id | id in rows ensures rows[id].position in Places(rows, rows.Keys) {
    }
  }

  lemma CountIffInRange(rows: Rows, lesson: LessonId, pieces: seq<string>, base: nat)
    requires ValidStored(rows, lesson, base) && Covers(rows, pieces)
    ensures |rows| >= |pieces|
    ensures |rows| == |pieces| <==> InRange(rows, |pieces|)
  {
    var below := Below(|pieces|);
    PlacesCount(rows, rows.Keys);
    PlacesFill(rows, pieces, below);
    Cardinality(below, Places(rows, rows.Keys));
    assert |rows| == |rows.Keys|;
  }

  lemma InRangeIffExact(rows: Rows, lesson: LessonId, pieces: seq<string>, base: nat)
    requires ValidStored(rows, lesson, base) && Covers(rows, pieces)
    ensures Exact(rows, pieces) <==> InRange(rows, |pieces|)
  {
    if InRange(rows, |pieces|) {
      forall id | id in rows ensures rows[id].content == pieces[rows[id].position] {
        var r := RowAt(rows, pieces, rows[id].position);
      }
    }
  }

  /** COUNTING. A committed lesson holds at least as many rows as pieces, and as many exactly when
      its rows are exact. */
  lemma SettledCount(rows: Rows, lesson: LessonId, pieces: seq<string>, base: nat)
    requires Settled(rows, lesson, pieces, base)
    ensures |rows| >= |pieces|
    ensures |rows| == |pieces| <==> Exact(rows, pieces)
  {
    CountIffInRange(rows, lesson, pieces, base);
    InRangeIffExact(rows, lesson, pieces, base);
  }

  lemma Cardinality(a: set<nat>, b: set<nat>)
    requires a <= b
    ensures |a| <= |b| && (|a| == |b| <==> b <= a)
  {
    assert b == a + (b - a);
  }

  /** The digests of the pieces that some stored row has too. */
  ghost function SharedDigests(stored: Rows, pieces: seq<string>): set<Digest> {
    set k | 0 <= k < |pieces| && Stored(stored, ContentHash(pieces[k])) :: ContentHash(pieces[k])
  }

  ghost function ReusedPlaces(stored: Rows, pieces: seq<string>): set<nat> {
    set k: nat | k < |pieces| && Reused(stored, pieces, k)
  }

  function DigestsAt(pieces: seq<string>, ks: set<nat>): set<Digest>
    requires forall k :: k in ks ==> k < |pieces|
  {
    set k | k in ks :: ContentHash(pieces[k])
  }

  lemma {:induction false} DigestsCount(pieces: seq<string>, ks: set<nat>)
    requires forall k :: k in ks ==> k < |pieces|
    requires forall j, k :: j in ks && k in ks && j != k ==> pieces[j] != pieces[k]
    ensures |DigestsAt(pieces, ks)| == |ks|
    decreases ks
  {
    if ks == {} {
      assert DigestsAt(pieces, ks) == {};
    } else {
      var k :| k in ks;
      DigestsCount(pieces, ks - {k});
      assert DigestsAt(pieces, ks) == DigestsAt(pieces, ks - {k}) + {ContentHash(pieces[k])};
    }
  }

  lemma SharedFromReused(stored: Rows, pieces: seq<string>)
    ensures SharedDigests(stored, pieces) == DigestsAt(pieces, ReusedPlaces(stored, pieces))
  {
  }

  lemma ReusedCount(stored: Rows, pieces: seq<string>)
    ensures |ReusedPlaces(stored, pieces)| == |SharedDigests(stored, pieces)|
  {
    SharedFromReused(stored, pieces);
    var places := ReusedPlaces(stored, pieces);
    forall j, k | j in places && k in places && j != k ensures pieces[j] != pieces[k] {
      assert FirstAt(pieces, ContentHash(pieces[j])) == j && FirstAt(pieces, ContentHash(pieces[k])) == k;
    }
    DigestsCount(pieces, places);
  }

  /** The key drawn for a new row at place `k`. */
  function KeyFor(base: nat, k: nat): ChunkId {
    base + k
  }

  function KeysFor(ks: set<nat>, base: nat): set<ChunkId> {
    set k | k in ks :: KeyFor(base, k)
  }

  lemma {:induction false} KeysForCount(ks: set<nat>, base: nat)
    ensures |KeysFor(ks, base)| == |ks|
    decreases ks
  {
    if ks != {} {
      var k :| k in ks;
      KeysForCount(ks - {k}, base);
      assert KeysFor(ks, base) == KeysFor(ks - {k}, base) + {KeyFor(base, k)};
    }
  }

  lemma InsertAt(stored: Rows, pieces: seq<string>, base: nat, below: set<nat>, id: ChunkId)
    requires forall k: nat :: k in below <==> k < |pieces|
    ensures IsInsert(stored, pieces, base, id)
       <==> base <= id && id - base in below - ReusedPlaces(stored, pieces)
  {
  }

  lemma InsertedKeys(stored: Rows, lesson: LessonId, pieces: seq<string>, base: nat, below: set<nat>)
    requires forall k: nat :: k in below <==> k < |pieces|
    ensures Inserted(stored, lesson, pieces, base, |pieces|).Keys
         == KeysFor(below - ReusedPlaces(stored, pieces), base)
  {
    var keys := Inserted(stored, lesson, pieces, base, |pieces|).Keys;
    var places := below - ReusedPlaces(stored, pieces);
    forall id: ChunkId ensures id in keys <==> id in KeysFor(places, base) {
      InsertAt(stored, pieces, base, below, id);
      if id in keys {
        assert KeyFor(base, id - base) == id;
      }
    }
  }

  lemma Remaining(all: set<nat>, some: set<nat>)
    requires some <= all
    ensures |all - some| == |all| - |some|
  {
  }

  lemma InsertedCount(stored: Rows, lesson: LessonId, pieces: seq<string>, base: nat)
    ensures |Inserted(stored, lesson, pieces, base, |pieces|).Keys| == |pieces| - |SharedDigests(stored, pieces)|
  {
    var below := Below(|pieces|);
    var taken := ReusedPlaces(stored, pieces);
    InsertedKeys(stored, lesson, pieces, base, below);
    KeysForCount(below - taken, base);
    ReusedCount(stored, pieces);
    Remaining(below, taken);
  }

  lemma NewKeys(stored: Rows, lesson: LessonId, pieces: seq<string>, base: nat)
    requires forall id :: id in stored ==> id < base
    ensures Rebuilt(stored, lesson, pieces, base).Keys - stored.Keys
         == Inserted(stored, lesson, pieces, base, |pieces|).Keys
  {
  }

  /** REUSE. The stored rows that keep their id are exactly those whose text is still wanted, and
      they keep everything but their position; the rows inserted number the pieces less the
      digests shared with the store. */
  lemma ReuseIsMaximal(stored: Rows, lesson: LessonId, pieces: seq<string>, base: nat)
    requires ValidStored(stored, lesson, base)
    ensures var out := Rebuilt(stored, lesson, pieces, base);
      && (forall id :: id in stored ==> (id in out <==> Wanted(pieces, stored[id].contentHash)))
      && (forall id :: id in stored && id in out ==> out[id] == stored[id].(position := out[id].position))
      && |out.Keys - stored.Keys| == |pieces| - |SharedDigests(stored, pieces)|
  {
    InsertedCount(stored, lesson, pieces, base);
    NewKeys(stored, lesson, pieces, base);
  }

  // ------------------------------------------------------------- other lessons

  lemma ReplacedRows(rows: Rows, lesson: LessonId, out: Rows)
    requires forall id :: id in out ==> out[id].lesson == lesson
    requires forall id :: id in out && id in rows ==> rows[id].lesson == lesson
    ensures RowsFor(Replaced(rows, lesson, out), lesson) == out
    ensures forall other :: other != lesson ==> RowsFor(Replaced(rows, lesson, out), other) == RowsFor(rows, other)
  {
  }

  lemma ReplacedUnique(rows: Rows, lesson: LessonId, out: Rows)
    requires UniquePositions(rows)
    requires forall id :: id in out ==> out[id].lesson == lesson
    requires forall id :: id in out && id in rows ==> rows[id].lesson == lesson
    ensures UniquePositions(Replaced(rows, lesson, out)) <==> UniquePositions(out)
  {
  }

  /** Only the lesson's own rows change; the table as a whole stays valid exactly when the
      lesson's rows satisfy the position constraint. */
  lemma AfterChunkingFrame(rows: Rows, lesson: LessonId, pieces: seq<string>, base: nat)
    requires ValidRows(rows, base)
    ensures var after := AfterChunking(rows, lesson, pieces, base);
      && RowsFor(after, lesson) == Rebuilt(RowsFor(rows, lesson), lesson, pieces, base)
      && (forall other :: other != lesson ==> RowsFor(after, other) == RowsFor(rows, other))
      && (UniquePositions(after) <==> UniquePositions(Rebuilt(RowsFor(rows, lesson), lesson, pieces, base)))
      && (UniquePositions(after) ==> ValidRows(after, base + |pieces|))
  {
    var stored := RowsFor(rows, lesson);
    var out := Rebuilt(stored, lesson, pieces, base);
    RowsForValid(rows, lesson, base);
    RebuiltRows(stored, lesson, pieces, base);
    forall id | id in out && id in rows ensures rows[id].lesson == lesson {
      assert id < base;
    }
    ReplacedRows(rows, lesson, out);
    ReplacedUnique(rows, lesson, out);
  }

  // ----------------------------------------------------- a concrete leftover

  /** Rows B, A, A re-chunked to the single piece A: the commit is accepted, yet one A too many is
      left, so the lesson is not what delete-and-rebuild would leave. */
  lemma LeftoverExample(a: string, b: string)
    requires a != b
    ensures var stored := map[0 := NewChunk(0, b, 0), 1 := NewChunk(0, a, 1), 2 := NewChunk(0, a, 2)];
      && ValidStored(stored, 0, 3)
      && Rebuilt(stored, 0, [a], 3) == map[1 := NewChunk(0, a, 1), 2 := NewChunk(0, a, 0)]
      && UniquePositions(Rebuilt(stored, 0, [a], 3))
      && !Exact(Rebuilt(stored, 0, [a], 3), [a])
  {
    var stored := map[0 := NewChunk(0, b, 0), 1 := NewChunk(0, a, 1), 2 := NewChunk(0, a, 2)];
    LeftoverSurvivors(a, b);
    UnmovedBreaksExactness(stored, 0, [a], 3, 1);
    LeftoverReuses(a, stored);
    NothingInserted(stored, 0, [a], 3);
  }

  lemma NothingInserted(stored: Rows, lesson: LessonId, pieces: seq<string>, base: nat)
    requires forall id :: !IsInsert(stored, pieces, base, id)
    ensures Inserted(stored, lesson, pieces, base, |pieces|) == map[]
    ensures Rebuilt(stored, lesson, pieces, base) == Survivors(stored, pieces)
  {
  }

  lemma LeftoverReuses(a: string, stored: Rows)
    requires 1 in stored && stored[1].contentHash == ContentHash(a)
    ensures forall id :: !IsInsert(stored, [a], 3, id)
  {
  }

  lemma LeftoverSurvivors(a: string, b: string)
    requires a != b
    ensures var stored := map[0 := NewChunk(0, b, 0), 1 := NewChunk(0, a, 1), 2 := NewChunk(0, a, 2)];
      && Wanted([a], ContentHash(a)) && !IsHolder(stored, 1)
      && Survivors(stored, [a]) == map[1 := NewChunk(0, a, 1), 2 := NewChunk(0, a, 0)]
  {
    assert [a][0] == a;
    WantedPiece([a], 0);
    var stored := map[0 := NewChunk(0, b, 0), 1 := NewChunk(0, a, 1), 2 := NewChunk(0, a, 2)];
    assert stored[2].contentHash == ContentHash(a) && stored[1].contentHash == ContentHash(a);
    assert IsHolder(stored, 2) && !IsHolder(stored, 1) && !Wanted([a], ContentHash(b));
  }

  /** The token counts stay true. */
  lemma CountsStayTrue(rows: Rows, lesson: LessonId, pieces: seq<string>, base: nat)
    requires Counted(rows)
    ensures Counted(AfterChunking(rows, lesson, pieces, base))
  {
    var stored := RowsFor(rows, lesson);
    var after := AfterChunking(rows, lesson, pieces, base);
    forall id | id in after ensures after[id].tokenCount == Estimate(after[id].content) {
      if id in Inserted(stored, lesson, pieces, base, |pieces|) {
        assert after[id] == NewChunk(lesson, pieces[id - base], id - base);
      } else {
        assert after[id] == rows[id].(position := after[id].position);
      }
    }
  }
}
