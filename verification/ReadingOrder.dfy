/** `LessonRepository.ids_for_course`: the lessons of a course by their module's position and then
    by their own. */
module ReadingOrder {
  import opened Options
  import opened ChunkStore

  type ModuleId = nat

  /** Where a lesson stands: its module and its position there. */
  datatype Place = Place(moduleId: ModuleId, position: nat)

  type Modules = map<ModuleId, nat>
  type Places = map<LessonId, Place>

  /** The two position constraints and the foreign key. */
  predicate WellPlaced(modules: Modules, places: Places) {
    && (forall a, b :: a in modules && b in modules && a != b ==> modules[a] != modules[b])
    && (forall l :: l in places ==> places[l].moduleId in modules)
    && (forall a, b :: a in places && b in places && a != b ==> places[a] != places[b])
  }

  predicate Before(modules: Modules, places: Places, a: LessonId, b: LessonId)
    requires WellPlaced(modules, places) && a in places && b in places
  {
    var ma, mb := modules[places[a].moduleId], modules[places[b].moduleId];
    ma < mb || (ma == mb && places[a].position < places[b].position)
  }

  /** Each before all that follow. */
  predicate Sorted(modules: Modules, places: Places, ids: seq<LessonId>)
    requires WellPlaced(modules, places)
  {
    && (forall l :: l in ids ==> l in places)
    && (forall i, j :: 0 <= i < j < |ids| ==> Before(modules, places, ids[i], ids[j]))
  }

  /** Every lesson once, in reading order. */
  predicate InReadingOrder(modules: Modules, places: Places, ids: seq<LessonId>) {
    WellPlaced(modules, places) && Sorted(modules, places, ids) && Elements(ids) == places.Keys
  }

  lemma BeforeIsTotal(modules: Modules, places: Places, a: LessonId, b: LessonId)
    requires WellPlaced(modules, places) && a in places && b in places && a != b
    ensures Before(modules, places, a, b) <==> !Before(modules, places, b, a)
  {
    var p, q := places[a], places[b];
    assert p != q;
    assert p.moduleId != q.moduleId ==> modules[p.moduleId] != modules[q.moduleId];
    assert p.moduleId == q.moduleId ==> p.position != q.position;
  }

  lemma {:induction false} SomeFirst(modules: Modules, places: Places, ids: set<LessonId>) returns (first: LessonId)
    requires WellPlaced(modules, places) && ids != {} && ids <= places.Keys
    ensures first in ids && forall l :: l in ids && l != first ==> Before(modules, places, first, l)
    decreases ids
  {
    var l :| l in ids;
    if ids == {l} {
      first := l;
    } else {
      var least := SomeFirst(modules, places, ids - {l});
      BeforeIsTotal(modules, places, l, least);
      first := if Before(modules, places, l, least) then l else least;
      forall m | m in ids && m != first ensures Before(modules, places, first, m) {
        assert m != l ==> m in ids - {l};
      }
    }
  }

  /** There is only one way to list lessons in order. */
  lemma {:induction false} OnlyOneOrder(modules: Modules, places: Places, a: seq<LessonId>, b: seq<LessonId>)
    requires WellPlaced(modules, places) && Sorted(modules, places, a) && Sorted(modules, places, b)
    requires Elements(a) == Elements(b)
    ensures a == b
    decreases |a|
  {
    NoElements(a);
    NoElements(b);
    if a != [] {
      assert a[0] in Elements(b) && b[0] in Elements(a);
      assert a[0] == b[0];
      TailElements(modules, places, a);
      TailElements(modules, places, b);
      OnlyOneOrder(modules, places, a[1..], b[1..]);
      assert a == [a[0]] + a[1..] && b == [b[0]] + b[1..];
    }
  }

  lemma NoElements(a: seq<LessonId>)
    ensures Elements(a) == {} <==> a == []
  {
    if a != [] {
      assert a[0] in Elements(a);
    }
  }

  lemma TailElements(modules: Modules, places: Places, a: seq<LessonId>)
    requires WellPlaced(modules, places) && Sorted(modules, places, a) && a != []
    ensures Elements(a[1..]) == Elements(a) - {a[0]} && Sorted(modules, places, a[1..])
  {
    forall l | l in a && l != a[0] ensures l in a[1..] {
      var i :| 0 <= i < |a| && a[i] == l;
      assert a[1..][i - 1] == l;
    }
  }

  /** Each of these is a lesson of the module, and they stand by rising position. */
  ghost predicate OwnLessons(places: Places, m: ModuleId, ids: seq<LessonId>) {
    && (forall l :: l in ids <==> l in places && places[l].moduleId == m)
    && (forall i, j :: 0 <= i < j < |ids| ==> places[ids[i]].position < places[ids[j]].position)
  }

  function Joined(lists: seq<seq<LessonId>>): seq<LessonId> {
    if lists == [] then [] else lists[0] + Joined(lists[1..])
  }

  /** How many of the first lessons are the module's. */
  function Leading(places: Places, m: ModuleId, ids: seq<LessonId>): (n: nat)
    requires forall l :: l in ids ==> l in places
    ensures n <= |ids| && (forall i :: 0 <= i < n ==> places[ids[i]].moduleId == m)
    ensures n < |ids| ==> places[ids[n]].moduleId != m
  {
    if ids == [] || places[ids[0]].moduleId != m then 0 else 1 + Leading(places, m, ids[1..])
  }

  /** Lessons of modules not before `m`: those of `m` lead, and none comes later. */
  lemma LeadingAreAll(modules: Modules, places: Places, m: ModuleId, ids: seq<LessonId>, i: nat)
    requires WellPlaced(modules, places) && Sorted(modules, places, ids) && m in modules
    requires forall l :: l in ids ==> modules[m] <= modules[places[l].moduleId]
    requires Leading(places, m, ids) <= i < |ids|
    ensures modules[m] < modules[places[ids[i]].moduleId]
  {
    var n := Leading(places, m, ids);
    assert ids[n] in ids && modules[places[ids[n]].moduleId] != modules[m];
    if n < i {
      assert Before(modules, places, ids[n], ids[i]);
    }
  }

  /** The lessons of these modules and no others. */
  ghost predicate LessonsOf(places: Places, ms: seq<ModuleId>, ids: seq<LessonId>) {
    forall l :: l in ids <==> l in places && places[l].moduleId in ms
  }

  lemma NoModules(places: Places, ids: seq<LessonId>)
    requires LessonsOf(places, [], ids)
    ensures ids == []
  {
    assert Elements(ids) == {};
    NoElements(ids);
  }

  lemma NoneBefore(modules: Modules, places: Places, ms: seq<ModuleId>, ids: seq<LessonId>)
    requires WellPlaced(modules, places) && ms != [] && Rising(modules, ms)
    requires LessonsOf(places, ms, ids)
    ensures forall l :: l in ids ==> modules[ms[0]] <= modules[places[l].moduleId]
  {
    forall l | l in ids ensures modules[ms[0]] <= modules[places[l].moduleId] {
      var i :| 0 <= i < |ms| && ms[i] == places[l].moduleId;
    }
  }

  predicate Rising(modules: Modules, ms: seq<ModuleId>) {
    && (forall m :: m in ms ==> m in modules)
    && (forall i, j :: 0 <= i < j < |ms| ==> modules[ms[i]] < modules[ms[j]])
  }

  /** One list of its own lessons for each module. */
  ghost predicate Lists(places: Places, ms: seq<ModuleId>, lists: seq<seq<LessonId>>) {
    |lists| == |ms| && forall i :: 0 <= i < |ms| ==> OwnLessons(places, ms[i], lists[i])
  }

  lemma PutInFront(places: Places, ms: seq<ModuleId>, ids: seq<LessonId>, n: nat, more: seq<seq<LessonId>>)
    requires ms != [] && n <= |ids| && OwnLessons(places, ms[0], ids[..n]) && Lists(places, ms[1..], more)
    requires Joined(more) == ids[n..]
    ensures Lists(places, ms, [ids[..n]] + more) && Joined([ids[..n]] + more) == ids
  {
    assert ([ids[..n]] + more)[1..] == more;
    assert ids[..n] + ids[n..] == ids;
  }

  lemma OtherModules(modules: Modules, places: Places, ms: seq<ModuleId>, ids: seq<LessonId>, n: nat)
    requires WellPlaced(modules, places) && ms != [] && n <= |ids| && Rising(modules, ms)
    requires LessonsOf(places, ms, ids)
    requires forall l :: l in ids[n..] <==> l in ids && places[l].moduleId != ms[0]
    ensures LessonsOf(places, ms[1..], ids[n..])
  {
    assert ms[0] !in ms[1..];
    assert forall m :: m in ms <==> m == ms[0] || m in ms[1..];
  }

  lemma RestIsSorted(modules: Modules, places: Places, ids: seq<LessonId>, n: nat)
    requires WellPlaced(modules, places) && Sorted(modules, places, ids) && n <= |ids|
    ensures Sorted(modules, places, ids[n..])
  {
    forall i, j | 0 <= i < j < |ids| - n ensures Before(modules, places, ids[n..][i], ids[n..][j]) {
      assert Before(modules, places, ids[n + i], ids[n + j]);
    }
  }

  /** Split where one module's lessons end. */
  lemma LedBy(places: Places, m: ModuleId, ids: seq<LessonId>, n: nat)
    requires n <= |ids| && forall l :: l in ids ==> l in places
    requires forall i :: 0 <= i < |ids| ==> (i < n <==> places[ids[i]].moduleId == m)
    ensures forall l :: l in ids[..n] <==> l in ids && places[l].moduleId == m
    ensures forall l :: l in ids[n..] <==> l in ids && places[l].moduleId != m
  {
    assert ids == ids[..n] + ids[n..];
  }

  lemma OwnRising(modules: Modules, places: Places, m: ModuleId, ids: seq<LessonId>, n: nat)
    requires WellPlaced(modules, places) && Sorted(modules, places, ids) && n <= |ids|
    requires forall i :: 0 <= i < n ==> places[ids[i]].moduleId == m
    ensures forall i, j :: 0 <= i < j < n ==> places[ids[i]].position < places[ids[j]].position
  {
    forall i, j | 0 <= i < j < n ensures places[ids[i]].position < places[ids[j]].position {
      assert Before(modules, places, ids[i], ids[j]);
    }
  }

  lemma FirstModule(modules: Modules, places: Places, m: ModuleId, ids: seq<LessonId>)
    requires WellPlaced(modules, places) && Sorted(modules, places, ids) && m in modules
    requires forall l :: l in ids ==> modules[m] <= modules[places[l].moduleId]
    requires forall l :: l in places && places[l].moduleId == m ==> l in ids
    ensures var n := Leading(places, m, ids);
      && OwnLessons(places, m, ids[..n])
      && Sorted(modules, places, ids[n..])
      && forall l :: l in ids[n..] <==> l in ids && places[l].moduleId != m
  {
    var n := Leading(places, m, ids);
    forall i | n <= i < |ids| ensures places[ids[i]].moduleId != m {
      LeadingAreAll(modules, places, m, ids, i);
    }
    LedBy(places, m, ids, n);
    OwnRising(modules, places, m, ids, n);
    RestIsSorted(modules, places, ids, n);
  }

  lemma FrontModule(modules: Modules, places: Places, ms: seq<ModuleId>, ids: seq<LessonId>)
    requires WellPlaced(modules, places) && Sorted(modules, places, ids) && ms != [] && Rising(modules, ms)
    requires LessonsOf(places, ms, ids)
    ensures var n := Leading(places, ms[0], ids);
      && OwnLessons(places, ms[0], ids[..n]) && Sorted(modules, places, ids[n..])
      && LessonsOf(places, ms[1..], ids[n..]) && Rising(modules, ms[1..])
  {
    NoneBefore(modules, places, ms, ids);
    FirstModule(modules, places, ms[0], ids);
    OtherModules(modules, places, ms, ids, Leading(places, ms[0], ids));
  }

  lemma {:induction false} ModuleByModule(modules: Modules, places: Places, ms: seq<ModuleId>, ids: seq<LessonId>)
    returns (lists: seq<seq<LessonId>>)
    requires WellPlaced(modules, places) && Sorted(modules, places, ids) && Rising(modules, ms)
    requires LessonsOf(places, ms, ids)
    ensures Lists(places, ms, lists) && Joined(lists) == ids
    decreases |ms|
  {
    if ms == [] {
      lists := [];
      NoModules(places, ids);
    } else {
      var n := Leading(places, ms[0], ids);
      FrontModule(modules, places, ms, ids);
      var more := ModuleByModule(modules, places, ms[1..], ids[n..]);
      PutInFront(places, ms, ids, n, more);
      lists := [ids[..n]] + more;
    }
  }

  /** MODULE BY MODULE. Lessons in reading order are the modules' own lists, each by rising position, put
      one behind the other by the modules' rising positions. */
  lemma OrderIsModuleByModule(modules: Modules, places: Places, ms: seq<ModuleId>, ids: seq<LessonId>)
    returns (lists: seq<seq<LessonId>>)
    requires InReadingOrder(modules, places, ids) && Elements(ms) == modules.Keys
    requires forall i, j :: 0 <= i < j < |ms| ==>
               ms[i] in modules && ms[j] in modules && modules[ms[i]] < modules[ms[j]]
    ensures |lists| == |ms| && Joined(lists) == ids
    ensures forall i :: 0 <= i < |ms| ==> OwnLessons(places, ms[i], lists[i])
  {
    assert forall l :: l in ids <==> l in Elements(ids);
    assert forall m :: m in ms <==> m in Elements(ms);
    lists := ModuleByModule(modules, places, ms, ids);
  }

  lemma SortedRises(modules: Modules, places: Places, ids: seq<LessonId>)
    requires WellPlaced(modules, places) && Sorted(modules, places, ids)
    ensures forall i, j :: 0 <= i < j < |ids| ==>
      var p, q := places[ids[i]], places[ids[j]];
      modules[p.moduleId] < modules[q.moduleId] || (p.moduleId == q.moduleId && p.position < q.position)
  {
    forall i, j | 0 <= i < j < |ids|
      ensures var p, q := places[ids[i]], places[ids[j]];
        modules[p.moduleId] < modules[q.moduleId] || (p.moduleId == q.moduleId && p.position < q.position)
    {
      assert Before(modules, places, ids[i], ids[j]);
    }
  }

  method IdsForCourse(modules: Modules, places: Places) returns (ids: seq<LessonId>)
    requires WellPlaced(modules, places)
    ensures InReadingOrder(modules, places, ids)
    ensures forall i, j :: 0 <= i < j < |ids| ==>
      var p, q := places[ids[i]], places[ids[j]];
      modules[p.moduleId] < modules[q.moduleId] || (p.moduleId == q.moduleId && p.position < q.position)
  {
    ids := [];
    var left := places.Keys;
    while left != {}
      invariant left <= places.Keys && Sorted(modules, places, ids)
      invariant Elements(ids) == places.Keys - left
      invariant forall l, m :: l in ids && m in left ==> Before(modules, places, l, m)
      decreases left
    {
      ghost var least := SomeFirst(modules, places, left);
      var first :| first in left && forall l :: l in left && l != first ==> Before(modules, places, first, l);
      assert Elements(ids + [first]) == Elements(ids) + {first};
      ids := ids + [first];
      left := left - {first};
    }
    SortedRises(modules, places, ids);
  }
}
