/** The prerequisite graph: `_set_prerequisites` of `services/course.py` over the
    `course_prerequisites` table. */
module Prerequisites {
  import opened Options

  type CourseId = nat

  datatype Edge = Edge(course: CourseId, prerequisite: CourseId)

  datatype Refusal = RequiresItself | Unknown(ids: set<CourseId>) | Mutual(ids: set<CourseId>)

  datatype Result = Ok | Refused(reason: Refusal)

  /** `required_by`. */
  function Dependents(edges: set<Edge>, course: CourseId): set<CourseId> {
    set e | e in edges && e.prerequisite == course :: e.course
  }

  /** `prerequisite_ids`. */
  function RequiredIn(edges: set<Edge>, course: CourseId): set<CourseId> {
    set e | e in edges && e.course == course :: e.prerequisite
  }

  function EdgesFrom(course: CourseId, wanted: set<CourseId>): set<Edge> {
    set p | p in wanted :: Edge(course, p)
  }

  function Without(edges: set<Edge>, course: CourseId): set<Edge> {
    set e | e in edges && e.course != course
  }

  function Replaced(edges: set<Edge>, course: CourseId, wanted: set<CourseId>): set<Edge> {
    Without(edges, course) + EdgesFrom(course, wanted)
  }

  /** No course requires itself and no two require each other. */
  predicate Safe(edges: set<Edge>) {
    forall e :: e in edges ==> e.course != e.prerequisite && Edge(e.prerequisite, e.course) !in edges
  }

  /** The three checks: not itself, all existing, none that requires it already. */
  predicate Accepted(courses: set<CourseId>, edges: set<Edge>, course: CourseId, wanted: set<CourseId>) {
    course !in wanted && wanted <= courses && wanted !! Dependents(edges, course)
  }

  class PrerequisiteTable {
    var courses: set<CourseId>
    var edges: set<Edge>

    constructor (courses: set<CourseId>)
      ensures this.courses == courses && edges == {}
    {
      this.courses, edges := courses, {};
    }

    /** Delete the course's rows, then insert one row per id, a repeated id once. */
    method ReplacePrerequisites(course: CourseId, ids: seq<CourseId>)
      modifies this
      ensures courses == old(courses) && edges == Replaced(old(edges), course, Elements(ids))
    {
      edges := Without(edges, course);
      ghost var kept := edges;
      for i := 0 to |ids|
        invariant courses == old(courses) && edges == kept + EdgesFrom(course, Elements(ids[..i]))
      {
        assert ids[..i + 1] == ids[..i] + [ids[i]];
        assert Elements(ids[..i + 1]) == Elements(ids[..i]) + {ids[i]};
        assert EdgesFrom(course, Elements(ids[..i + 1]))
            == EdgesFrom(course, Elements(ids[..i])) + {Edge(course, ids[i])};
        edges := edges + {Edge(course, ids[i])};
      }
      assert ids[..|ids|] == ids;
    }

    /** `_set_prerequisites`. Each refusal says what was wrong, in the order the checks run, and
        changes nothing; an accepted list becomes exactly the course's prerequisites, nobody
        else's changing. */
    method SetPrerequisites(course: CourseId, ids: seq<CourseId>) returns (r: Result)
      modifies this
      ensures courses == old(courses)
      ensures r == Refused(RequiresItself) <==> course in ids
      ensures r.Refused? && r.reason.Unknown? ==> r.reason.ids == Elements(ids) - courses != {} && course !in ids
      ensures r.Refused? && r.reason.Mutual? ==>
        && r.reason.ids == Elements(ids) * Dependents(old(edges), course) != {}
        && Elements(ids) <= courses && course !in ids
      ensures r.Ok? <==> Accepted(courses, old(edges), course, Elements(ids))
      ensures edges == if r.Ok? then Replaced(old(edges), course, Elements(ids)) else old(edges)
    {
      var wanted := Elements(ids);
      if course in wanted {
        return Refused(RequiresItself);
      }
      var missing := wanted - courses;
      if missing != {} {
        return Refused(Unknown(missing));
      }
      assert forall id :: id in wanted && id !in courses ==> id in missing;
      var conflicts := wanted * Dependents(edges, course);
      if conflicts != {} {
        return Refused(Mutual(conflicts));
      }
      ReplacePrerequisites(course, ids);
      return Ok;
    }
  }

  // ------------------------------------------------------ what the checks do

  /** Replacing one list leaves the other courses' lists alone and is repeatable. */
  lemma ReplacedReads(edges: set<Edge>, course: CourseId, wanted: set<CourseId>)
    ensures var after := Replaced(edges, course, wanted);
      && RequiredIn(after, course) == wanted
      && (forall other :: other != course ==> RequiredIn(after, other) == RequiredIn(edges, other))
      && Replaced(after, course, wanted) == after
  {
  }

  /** EXACT CHECKS. On a graph free of self-edges and two-course loops, a list of existing courses
      is accepted exactly when the graph it leads to is free of them too. */
  lemma AcceptedIffSafe(courses: set<CourseId>, edges: set<Edge>, course: CourseId, wanted: set<CourseId>)
    requires Safe(edges) && wanted <= courses
    ensures Accepted(courses, edges, course, wanted) <==> Safe(Replaced(edges, course, wanted))
  {
  }

  datatype Request = Request(course: CourseId, wanted: set<CourseId>)

  function Applied(courses: set<CourseId>, edges: set<Edge>, request: Request): set<Edge> {
    if Accepted(courses, edges, request.course, request.wanted) then Replaced(edges, request.course, request.wanted)
    else edges
  }

  function AllApplied(courses: set<CourseId>, edges: set<Edge>, requests: seq<Request>): set<Edge>
    decreases |requests|
  {
    if requests == [] then edges else AllApplied(courses, Applied(courses, edges, requests[0]), requests[1..])
  }

  /** Every sequence of calls, accepted and refused, keeps the graph free of self-edges and
      two-course loops. */
  lemma {:induction false} CallsStaySafe(courses: set<CourseId>, edges: set<Edge>, requests: seq<Request>)
    requires Safe(edges)
    ensures Safe(AllApplied(courses, edges, requests))
    decreases |requests|
  {
    if requests != [] {
      var first := requests[0];
      if Accepted(courses, edges, first.course, first.wanted) {
        AcceptedIffSafe(courses, edges, first.course, first.wanted);
      }
      CallsStaySafe(courses, Applied(courses, edges, first), requests[1..]);
    }
  }
}
