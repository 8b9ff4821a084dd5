/** Positions of modules in a course and of lessons in a module: `_reposition` of
    `services/course.py`, and appending by MAX+1 under the parent's row lock
    (`infra/db/repositories/course.py`). */
module Ordering {
  import opened Options

  type ItemId = nat
  type TxId = nat

  class Item {
    const id: ItemId
    var position: nat

    constructor (id: ItemId, position: nat)
      ensures this.id == id && this.position == position
    {
      this.id, this.position := id, position;
    }
  }

  // -------------------------------------------------------- what an order says

  /** Where the id is listed last. */
  function LastAt(order: seq<ItemId>, id: ItemId): (i: nat)
    requires id in order
    ensures i < |order| && order[i] == id
    ensures forall j :: i < j < |order| ==> order[j] != id
  {
    var last := |order| - 1;
    if order[last] == id then last
    else
      assert order == order[..last] + [order[last]];
      LastAt(order[..last], id)
  }

  /** The positions an accepted order leaves. */
  function Placed(order: seq<ItemId>): map<ItemId, nat> {
    map id | id in order :: LastAt(order, id)
  }

  lemma LastIsLast(order: seq<ItemId>, i: nat)
    requires i < |order|
    ensures i <= LastAt(order, order[i])
    ensures RepeatFree(order) ==> LastAt(order, order[i]) == i
  {
  }

  lemma LastStep(order: seq<ItemId>, n: nat, id: ItemId)
    requires n < |order|
    ensures id in order[..n + 1] <==> id == order[n] || id in order[..n]
    ensures id in order[..n + 1] ==>
              LastAt(order[..n + 1], id) == if id == order[n] then n else LastAt(order[..n], id)
  {
  }

  /** `by_id`. */
  method IndexById(items: seq<Item>) returns (byId: map<ItemId, Item>)
    requires forall i, j :: 0 <= i < j < |items| ==> items[i].id != items[j].id
    ensures forall id :: id in byId ==> byId[id] in items && byId[id].id == id
    ensures forall item :: item in items ==> item.id in byId && byId[item.id] == item
  {
    byId := map[];
    for i := 0 to |items|
      invariant forall id :: id in byId ==> byId[id] in items[..i] && byId[id].id == id
      invariant forall j :: 0 <= j < i ==> items[j].id in byId && byId[items[j].id] == items[j]
    {
      byId := byId[items[i].id := items[i]];
    }
  }

  /** Checked against the index, then written through one listed id at a time. An order is
      accepted exactly when it names the items and nothing else, though perhaps repeatedly; every
      item then stands where it was listed last, and a refused order moves nothing. */
  method Reposition(items: seq<Item>, order: seq<ItemId>) returns (ok: bool)
    requires forall i, j :: 0 <= i < j < |items| ==> items[i].id != items[j].id
    modifies items
    ensures ok <==> Elements(order) == set item | item in items :: item.id
    ensures ok ==> forall item :: item in items ==> item.id in order && item.position == LastAt(order, item.id)
    ensures !ok ==> forall item :: item in items ==> item.position == old(item.position)
  {
    var byId := IndexById(items);
    assert byId.Keys == set item | item in items :: item.id;
    if Elements(order) != byId.Keys {
      return false;
    }
    for position := 0 to |order|
      invariant forall item :: item in items ==> Stands(item, order[..position])
    {
      assert order[position] in Elements(order);
      WriteOne(items, byId, order, position);
    }
    assert order[..|order|] == order;
    forall item | item in items ensures item.id in order {
      assert item.id in Elements(order);
    }
    return true;
  }

  /** The item stands where this order lists it last, if it does. */
  predicate Stands(item: Item, order: seq<ItemId>)
    reads item
  {
    item.id in order ==> item.position == LastAt(order, item.id)
  }

  method WriteOne(items: seq<Item>, byId: map<ItemId, Item>, order: seq<ItemId>, position: nat)
    requires position < |order| && order[position] in byId
    requires forall id :: id in byId ==> byId[id] in items && byId[id].id == id
    requires forall item :: item in items ==> item.id in byId && byId[item.id] == item
    requires forall item :: item in items ==> Stands(item, order[..position])
    modifies items
    ensures forall item :: item in items ==> Stands(item, order[..position + 1])
  {
    var item := byId[order[position]];
    item.position := position;
    forall other | other in items ensures Stands(other, order[..position + 1]) {
      LastStep(order, position, other.id);
      assert other != item ==> other.position == old(other.position) && old(Stands(other, order[..position]));
    }
  }

  // ------------------------------------------------------- what an order does

  predicate DistinctPositions(at: map<ItemId, nat>) {
    forall a, b :: a in at && b in at && a != b ==> at[a] != at[b]
  }

  /** Exactly the positions 0..n-1 for n items. */
  predicate Dense(at: map<ItemId, nat>) {
    DistinctPositions(at) && forall id :: id in at ==> at[id] < |at|
  }

  lemma {:induction false} ElementsCount(order: seq<ItemId>)
    ensures |Elements(order)| <= |order|
    ensures |Elements(order)| == |order| <==> RepeatFree(order)
  {
    if order == [] {
      assert Elements(order) == {};
    } else {
      var last, front := order[|order| - 1], order[..|order| - 1];
      assert order == front + [last];
      ElementsCount(front);
      assert Elements(order) == Elements(front) + {last};
      assert last in Elements(front) <==> exists i :: 0 <= i < |front| && order[i] == last;
      assert RepeatFree(order) <==> RepeatFree(front) && last !in front;
    }
  }

  /** ANY ACCEPTED ORDER leaves positions that differ, so the deferred constraint is met; they are
      exactly 0..n-1 when and only when the order lists nothing twice, and then the item listed at
      `i` stands at `i`. */
  lemma AcceptedOrder(order: seq<ItemId>)
    ensures DistinctPositions(Placed(order))
    ensures Dense(Placed(order)) <==> RepeatFree(order)
    ensures RepeatFree(order) ==> forall i :: 0 <= i < |order| ==> Placed(order)[order[i]] == i
  {
    var at := Placed(order);
    assert at.Keys == Elements(order);
    ElementsCount(order);
    if order != [] {
      LastIsLast(order, |order| - 1);
      assert at[order[|order| - 1]] == |order| - 1;
    }
    forall i | 0 <= i < |order| ensures RepeatFree(order) ==> at[order[i]] == i {
      LastIsLast(order, i);
    }
  }

  // ---------------------------------------------- appending, step by step

  type Positions = map<ItemId, nat>

  /** `next_position`: one past the highest, or zero where there is nothing. */
  predicate IsNext(at: Positions, n: nat) {
    && (forall id :: id in at ==> at[id] < n)
    && (n == 0 || exists id :: id in at && at[id] + 1 == n)
  }

  lemma {:induction false} SomeNext(at: Positions) returns (n: nat)
    ensures IsNext(at, n)
    decreases at.Keys
  {
    if at == map[] {
      n := 0;
    } else {
      var id :| id in at;
      var rest := at - {id};
      n := SomeNext(rest);
      assert forall other :: other in at && other != id ==> other in rest && rest[other] == at[other];
      if at[id] >= n {
        n := at[id] + 1;
        assert id in at && at[id] + 1 == n;
      } else if n > 0 {
        var high :| high in rest && rest[high] + 1 == n;
        assert at[high] + 1 == n;
      }
    }
  }

  lemma OnlyOneNext(at: Positions, n: nat, m: nat)
    requires IsNext(at, n) && IsNext(at, m)
    ensures n == m
  {
  }

  /** Where the positions are 0..n-1, the next one is n, and they stay so when an item is put there. */
  lemma DenseNext(at: Positions, n: nat, id: ItemId)
    requires Dense(at) && id !in at
    ensures IsNext(at, n) <==> n == |at|
    ensures Dense(at[id := |at|])
  {
    if at.Keys != {} {
      HighestIsTaken(at);
    } else {
      assert |at| == 0;
    }
    assert at[id := |at|].Keys == at.Keys + {id};
    assert |at[id := |at|]| == |at| + 1;
  }

  /** If none stood at the last position, the items would not fit below it. */
  lemma HighestIsTaken(at: Positions)
    requires Dense(at) && |at| > 0
    ensures exists id :: id in at && at[id] + 1 == |at|
  {
    if forall id :: id in at ==> at[id] + 1 != |at| {
      PigeonHole(at, |at| - 1);
    }
  }

  /** How far a request adding an item has come. */
  datatype Phase = Began | Locked | Chose(next: nat) | Inserted(id: ItemId, position: nat)

  /** The committed items under one parent, the requests adding to it, and who holds the lock on
      the parent's row. */
  datatype World = World(at: Positions, txs: map<TxId, Phase>, lock: Option<TxId>)

  datatype Step =
    | Begin(t: TxId)
    | Lock(t: TxId)
    | ReadMax(t: TxId, next: nat)
    | Insert(t: TxId, id: ItemId)
    | Commit(t: TxId)
    | Abort(t: TxId)
    | Reorder(order: seq<ItemId>)
    | Delete(gone: ItemId)

  /** Two inserts never draw the same id. */
  predicate IdFree(w: World, id: ItemId) {
    id !in w.at && forall t :: t in w.txs && w.txs[t].Inserted? ==> w.txs[t].id != id
  }

  predicate Enabled(w: World, step: Step) {
    match step
    case Begin(t) => t !in w.txs
    case Lock(t) => t in w.txs && w.txs[t] == Began && w.lock == None
    case ReadMax(t, next) => t in w.txs && w.txs[t] == Locked && IsNext(w.at, next)
    case Insert(t, id) => t in w.txs && w.txs[t].Chose? && IdFree(w, id)
    case Commit(t) => t in w.txs && w.txs[t].Inserted?
    case Abort(t) => t in w.txs
    case Reorder(order) => Elements(order) == w.at.Keys
    case Delete(gone) => gone in w.at
  }

  function End(w: World, t: TxId): World {
    World(w.at, w.txs - {t}, if w.lock == Some(t) then None else w.lock)
  }

  /** The deferred constraint would refuse this commit. */
  predicate Collides(w: World, t: TxId)
    requires t in w.txs && w.txs[t].Inserted?
  {
    exists id :: id in w.at && id != w.txs[t].id && w.at[id] == w.txs[t].position
  }

  predicate Refused(w: World, step: Step) {
    step.Commit? && step.t in w.txs && w.txs[step.t].Inserted? && Collides(w, step.t)
  }

  function After(w: World, step: Step): World
    requires Enabled(w, step)
  {
    match step
    case Begin(t) => w.(txs := w.txs[t := Began])
    case Lock(t) => w.(txs := w.txs[t := Locked], lock := Some(t))
    case ReadMax(t, next) => w.(txs := w.txs[t := Chose(next)])
    case Insert(t, id) => w.(txs := w.txs[t := Inserted(id, w.txs[t].next)])
    case Commit(t) => if Collides(w, t) then End(w, t) else End(w.(at := w.at[w.txs[t].id := w.txs[t].position]), t)
    case Abort(t) => End(w, t)
    case Reorder(order) => w.(at := Placed(order))
    case Delete(gone) => w.(at := w.at - {gone})
  }

  predicate Schedule(ws: seq<World>, steps: seq<Step>) {
    && |ws| == |steps| + 1
    && forall i :: 0 <= i < |steps| ==> Taken(ws[i], steps[i], ws[i + 1])
  }

  predicate Taken(w: World, step: Step, next: World) {
    Enabled(w, step) && next == After(w, step)
  }

  predicate Tame(step: Step) {
    step.Reorder? ==> RepeatFree(step.order)
  }

  /** Whoever is past the lock holds it, and has chosen a place beyond all committed ones. */
  predicate TxFits(w: World, t: TxId)
    requires t in w.txs
  {
    match w.txs[t]
    case Began => true
    case Locked => w.lock == Some(t)
    case Chose(next) => w.lock == Some(t) && forall id :: id in w.at ==> w.at[id] < next
    case Inserted(item, position) =>
      w.lock == Some(t) && item !in w.at && forall id :: id in w.at ==> w.at[id] < position
  }

  predicate Orderly(w: World) {
    DistinctPositions(w.at) && forall t :: t in w.txs ==> TxFits(w, t)
  }

  lemma {:induction false} PigeonHole(at: Positions, n: nat)
    requires DistinctPositions(at) && forall id :: id in at ==> at[id] < n
    ensures |at| <= n
    decreases n
  {
    if n > 0 {
      if top :| top in at && at[top] == n - 1 {
        var rest := at - {top};
        PigeonHole(rest, n - 1);
        assert at.Keys == rest.Keys + {top};
      } else {
        PigeonHole(at, n - 1);
      }
    } else {
      assert at.Keys == {};
    }
  }

  /** A repeat-free order moves nobody past a place already chosen. */
  lemma ReorderStaysBelow(at: Positions, order: seq<ItemId>, n: nat)
    requires DistinctPositions(at) && (forall id :: id in at ==> at[id] < n)
    requires Elements(order) == at.Keys && RepeatFree(order)
    ensures forall id :: id in Placed(order) ==> Placed(order)[id] < n
  {
    PigeonHole(at, n);
    ElementsCount(order);
  }

  lemma ReorderFits(w: World, order: seq<ItemId>, t: TxId)
    requires DistinctPositions(w.at) && t in w.txs && TxFits(w, t)
    requires Elements(order) == w.at.Keys == Placed(order).Keys && RepeatFree(order)
    ensures TxFits(w.(at := Placed(order)), t)
  {
    match w.txs[t]
    case Chose(n) => ReorderStaysBelow(w.at, order, n);
    case Inserted(_, n) => ReorderStaysBelow(w.at, order, n);
    case _ =>
  }

  lemma ReorderKeepsOrderly(w: World, order: seq<ItemId>)
    requires Orderly(w) && Elements(order) == w.at.Keys && RepeatFree(order)
    ensures Orderly(w.(at := Placed(order)))
  {
    AcceptedOrder(order);
    var next := w.(at := Placed(order));
    assert Placed(order).Keys == w.at.Keys;
    forall t | t in next.txs ensures TxFits(next, t) {
      ReorderFits(w, order, t);
    }
  }

  lemma StepKeepsOrderly(w: World, step: Step)
    requires Orderly(w) && Enabled(w, step) && Tame(step)
    ensures Orderly(After(w, step))
    ensures !Refused(w, step)
  {
    match step
    case Reorder(order) => ReorderKeepsOrderly(w, order);
    case Commit(t) => assert TxFits(w, t);
    case _ =>
  }

  /** APPENDS NEVER COLLIDE. With requests interleaved statement by statement, and reorders and
      deletions in between, positions stay distinct and no added item is refused its place, as
      long as every order lists each id once. */
  lemma {:induction false} AppendsNeverCollide(ws: seq<World>, steps: seq<Step>, i: nat)
    requires Schedule(ws, steps) && i < |ws| && Orderly(ws[0])
    requires forall k :: 0 <= k < |steps| ==> Tame(steps[k])
    ensures Orderly(ws[i])
    ensures i < |steps| ==> !Refused(ws[i], steps[i])
  {
    if i > 0 {
      AppendsNeverCollide(ws, steps, i - 1);
      assert Taken(ws[i - 1], steps[i - 1], ws[i - 1 + 1]) && Tame(steps[i - 1]);
      StepKeepsOrderly(ws[i - 1], steps[i - 1]);
    }
    if i < |steps| {
      assert Taken(ws[i], steps[i], ws[i + 1]) && Tame(steps[i]);
      StepKeepsOrderly(ws[i], steps[i]);
    }
  }

  /** ALWAYS DISTINCT. Whatever the orders list, positions stay distinct: a commit that would break that is
      refused and leaves every item where it is. */
  lemma {:induction false} AlwaysDistinct(ws: seq<World>, steps: seq<Step>, i: nat)
    requires Schedule(ws, steps) && i < |ws| && DistinctPositions(ws[0].at)
    ensures DistinctPositions(ws[i].at)
    ensures i < |steps| && Refused(ws[i], steps[i]) ==> ws[i + 1].at == ws[i].at && steps[i].t !in ws[i + 1].txs
  {
    if i > 0 {
      AlwaysDistinct(ws, steps, i - 1);
      assert Taken(ws[i - 1], steps[i - 1], ws[i - 1 + 1]);
      StaysDistinct(ws[i - 1], steps[i - 1]);
    }
    assert i < |steps| ==> Taken(ws[i], steps[i], ws[i + 1]);
  }

  lemma StaysDistinct(w: World, step: Step)
    requires DistinctPositions(w.at) && Enabled(w, step)
    ensures DistinctPositions(After(w, step).at)
  {
    if step.Reorder? {
      AcceptedOrder(step.order);
    }
  }

  /** AN APPEND APPENDS. Under the same conditions a commit puts its item beyond every other, and every
      other stays where it stood. */
  lemma CommitAppends(ws: seq<World>, steps: seq<Step>, i: nat)
    requires Schedule(ws, steps) && i < |steps| && Orderly(ws[0]) && steps[i].Commit?
    requires forall k :: 0 <= k < |steps| ==> Tame(steps[k])
    ensures steps[i].t in ws[i].txs && ws[i].txs[steps[i].t].Inserted?
    ensures var before, after, item := ws[i].at, ws[i + 1].at, ws[i].txs[steps[i].t].id;
      && item !in before && after.Keys == before.Keys + {item}
      && forall other :: other in before ==> after[other] == before[other] < after[item]
  {
    AppendsNeverCollide(ws, steps, i);
    assert Taken(ws[i], steps[i], ws[i + 1]);
    assert TxFits(ws[i], steps[i].t);
  }

  /** The statements of an append that meets nobody leave its item at MAX+1 and the rest as it was. */
  lemma AppendAlone(w: World, t: TxId, id: ItemId, n: nat)
    requires w.txs == map[] && w.lock == None && DistinctPositions(w.at) && id !in w.at && IsNext(w.at, n)
    ensures var steps := [Begin(t), Lock(t), ReadMax(t, n), Insert(t, id), Commit(t)];
      var ws := [w, w.(txs := map[t := Began]), w.(txs := map[t := Locked], lock := Some(t)),
                 w.(txs := map[t := Chose(n)], lock := Some(t)), w.(txs := map[t := Inserted(id, n)], lock := Some(t)),
                 w.(at := w.at[id := n])];
      Schedule(ws, steps)
  {
    var steps := [Begin(t), Lock(t), ReadMax(t, n), Insert(t, id), Commit(t)];
    var ws := [w, w.(txs := map[t := Began]), w.(txs := map[t := Locked], lock := Some(t)),
               w.(txs := map[t := Chose(n)], lock := Some(t)), w.(txs := map[t := Inserted(id, n)], lock := Some(t)),
               w.(at := w.at[id := n])];
    forall i | 0 <= i < 5 ensures Taken(ws[i], steps[i], ws[i + 1]) {
      assert map[t := Inserted(id, n)] - {t} == map[];
    }
  }

  /** A request can be given up at any point: nothing moves, and its lock is free again. */
  lemma GivingUp(w: World, t: TxId)
    requires t in w.txs
    ensures Enabled(w, Abort(t))
    ensures After(w, Abort(t)) == World(w.at, w.txs - {t}, if w.lock == Some(t) then None else w.lock)
  {
  }

  /** Any committed item can be deleted, whoever is at work; the others stay where they stand. */
  lemma Deleting(w: World, gone: ItemId)
    requires gone in w.at
    ensures Enabled(w, Delete(gone)) && After(w, Delete(gone)) == w.(at := w.at - {gone})
  {
  }

  /** What a step does to the number of items. */
  function Change(step: Step): int {
    if step.Commit? then 1 else if step.Delete? then -1 else 0
  }

  /** Items added and not deleted. */
  function Balance(steps: seq<Step>, n: nat): int
    requires n <= |steps|
  {
    if n == 0 then 0 else Balance(steps, n - 1) + Change(steps[n - 1])
  }

  lemma OneMoreItem(before: Positions, after: Positions, item: ItemId)
    requires item !in before && after.Keys == before.Keys + {item}
    ensures |after| == |before| + 1
  {
    assert |after| == |after.Keys| && |before| == |before.Keys|;
  }

  lemma StepAdds(ws: seq<World>, steps: seq<Step>, i: nat)
    requires Schedule(ws, steps) && i < |steps| && Orderly(ws[0])
    requires forall k :: 0 <= k < |steps| ==> Tame(steps[k])
    ensures |ws[i + 1].at| == |ws[i].at| + Change(steps[i])
  {
    assert Taken(ws[i], steps[i], ws[i + 1]);
    if steps[i].Commit? {
      CommitAppends(ws, steps, i);
      OneMoreItem(ws[i].at, ws[i + 1].at, ws[i].txs[steps[i].t].id);
    } else {
      SameItems(ws[i], steps[i]);
    }
  }

  lemma {:induction false} SizesAdd(sizes: seq<nat>, steps: seq<Step>, i: nat)
    requires |sizes| == |steps| + 1 && i < |sizes|
    requires forall k :: 0 <= k < |steps| ==> sizes[k + 1] == sizes[k] + Change(steps[k])
    ensures sizes[i] == sizes[0] + Balance(steps, i)
  {
    if i > 0 {
      SizesAdd(sizes, steps, i - 1);
      assert sizes[i - 1 + 1] == sizes[i - 1] + Change(steps[i - 1]);
    }
  }

  /** NOTHING LOST. Items are as many as at the start, one more for each commit and one fewer for each
      deletion; nothing else adds or removes any. */
  lemma ItemsAdd(ws: seq<World>, steps: seq<Step>, i: nat)
    requires Schedule(ws, steps) && i < |ws| && Orderly(ws[0])
    requires forall k :: 0 <= k < |steps| ==> Tame(steps[k])
    ensures |ws[i].at| == |ws[0].at| + Balance(steps, i)
  {
    var sizes := seq(|ws|, k requires 0 <= k < |ws| => |ws[k].at|);
    forall k | 0 <= k < |steps| ensures sizes[k + 1] == sizes[k] + Change(steps[k]) {
      StepAdds(ws, steps, k);
    }
    SizesAdd(sizes, steps, i);
  }

  lemma SameItems(w: World, step: Step)
    requires Enabled(w, step) && !step.Commit?
    ensures |After(w, step).at| == |w.at| - if step.Delete? then 1 else 0
  {
    if step.Reorder? {
      assert Placed(step.order).Keys == Elements(step.order);
    }
    var next := After(w, step);
    assert |next.at.Keys| == |next.at| && |w.at.Keys| == |w.at|;
    if step.Delete? {
      assert next.at.Keys == w.at.Keys - {step.gone};
    }
  }

  /** A committed item stands at the place. */
  predicate PlaceTaken(at: Positions, p: nat) {
    exists id :: id in at && at[id] == p
  }

  lemma PlaceTakenIff(order: seq<ItemId>, p: nat)
    ensures PlaceTaken(Placed(order), p) <==> p < |order| && order[p] !in order[p + 1..]
  {
    var at := Placed(order);
    if p < |order| && order[p] !in order[p + 1..] {
      LastIsLast(order, p);
      forall j | p < j < |order| ensures order[j] in order[p + 1..] {
        assert order[p + 1..][j - p - 1] == order[j];
      }
      assert order[p] in at && at[order[p]] == p;
    }
    if id :| id in at && at[id] == p {
      assert forall j :: p < j < |order| ==> order[j] != id;
    }
  }

  /** Exactly which orders put an item in the way of a request that has inserted and waits to commit:
      those that name, at the very place it chose, an item they do not name again. */
  lemma OvertakenIff(w: World, order: seq<ItemId>, t: TxId)
    requires Enabled(w, Reorder(order)) && t in w.txs && w.txs[t].Inserted? && w.txs[t].id !in w.at
    ensures Refused(After(w, Reorder(order)), Commit(t))
       <==> var p := w.txs[t].position; p < |order| && order[p] !in order[p + 1..]
  {
    PlaceTakenIff(order, w.txs[t].position);
    assert Placed(order).Keys == Elements(order);
  }

  /** The same orders are in the way of one that has chosen its place and not yet inserted: whatever
      id it then draws, its commit is refused. */
  lemma OvertakenBeforeInsertIff(w: World, order: seq<ItemId>, t: TxId, id: ItemId)
    requires Enabled(w, Reorder(order)) && t in w.txs && w.txs[t].Chose?
    requires Enabled(After(w, Reorder(order)), Insert(t, id))
    ensures Refused(After(After(w, Reorder(order)), Insert(t, id)), Commit(t))
       <==> var p := w.txs[t].next; p < |order| && order[p] !in order[p + 1..]
  {
    PlaceTakenIff(order, w.txs[t].next);
  }

  /** What the request sees, `n` statements in: one item, at position 0. */
  function Choosing(id: ItemId, added: ItemId, t: TxId, n: nat): World {
    var at := map[id := 0];
    if n == 0 then World(at, map[], None)
    else if n == 1 then World(at, map[t := Began], None)
    else if n == 2 then World(at, map[t := Locked], Some(t))
    else if n == 3 then World(at, map[t := Chose(1)], Some(t))
    else if n == 4 then World(at, map[t := Inserted(added, 1)], Some(t))
    else World(map[id := 1], map[t := Inserted(added, 1)], Some(t))
  }

  function ChoosingStep(id: ItemId, added: ItemId, t: TxId, n: nat): Step {
    if n == 0 then Begin(t)
    else if n == 1 then Lock(t)
    else if n == 2 then ReadMax(t, 1)
    else if n == 3 then Insert(t, added)
    else Reorder([id, id])
  }

  /** One item at position 0; a request picks 1; an order listing that item twice is accepted and
      moves it to 1; the request is refused through no fault of its own. */
  lemma RepeatedOrderCollides(id: ItemId, added: ItemId, t: TxId)
    requires id != added
    ensures var ws := seq(6, i requires 0 <= i < 6 => Choosing(id, added, t, i));
            var steps := seq(5, i requires 0 <= i < 5 => ChoosingStep(id, added, t, i));
            Schedule(ws, steps) && Orderly(ws[0]) && Refused(ws[5], Commit(t))
  {
    var ws := seq(6, i requires 0 <= i < 6 => Choosing(id, added, t, i));
    var steps := seq(5, i requires 0 <= i < 5 => ChoosingStep(id, added, t, i));
    forall i | 0 <= i < 5 ensures Taken(ws[i], steps[i], ws[i + 1]) {
      ChoosingTakes(id, added, t, i);
    }
    assert ws[5].at[id] == 1;
  }

  lemma ChoosingTakes(id: ItemId, added: ItemId, t: TxId, n: nat)
    requires id != added && n < 5
    ensures Taken(Choosing(id, added, t, n), ChoosingStep(id, added, t, n), Choosing(id, added, t, n + 1))
  {
    TwiceTheSame(id);
    assert map[id := 0][id] + 1 == 1;
  }

  lemma TwiceTheSame(id: ItemId)
    ensures Elements([id, id]) == {id} && Placed([id, id]) == map[id := 1]
  {
  }
}
