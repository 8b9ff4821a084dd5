/** What the one-hop check of `_set_prerequisites` lets through: loops of three courses and more,
    and loops closed by two calls that overlap; and what a loop costs. */
module PrerequisiteLoops {
  import opened Options
  import opened Prerequisites
  import Enrollment

  // ----------------------------------------------------------------- walks

  /** Each course requires the next. */
  predicate IsWalk(edges: set<Edge>, p: seq<CourseId>) {
    p != [] && forall i :: 0 <= i < |p| - 1 ==> Edge(p[i], p[i + 1]) in edges
  }

  /** A walk, possibly of no steps, from `a` to `b`. */
  ghost predicate Leads(edges: set<Edge>, a: CourseId, b: CourseId) {
    exists p :: IsWalk(edges, p) && p[0] == a && p[|p| - 1] == b
  }

  predicate IsLoop(edges: set<Edge>, p: seq<CourseId>) {
    IsWalk(edges, p) && |p| >= 2 && p[0] == p[|p| - 1]
  }

  /** No loop of any length. */
  ghost predicate Acyclic(edges: set<Edge>) {
    forall p :: !IsLoop(edges, p)
  }

  /** The walk of the whole graph that a check for longer loops would make. */
  ghost predicate LeadsBack(edges: set<Edge>, course: CourseId, wanted: set<CourseId>) {
    exists w :: w in wanted && Leads(edges, w, course)
  }

  /** A walk cut off where it first meets `course` uses none of the course's own edges. */
  lemma {:induction false} UpToFirst(edges: set<Edge>, p: seq<CourseId>, course: CourseId) returns (q: seq<CourseId>)
    requires IsWalk(edges, p) && p[|p| - 1] == course
    ensures IsWalk(Without(edges, course), q) && q[0] == p[0] && q[|q| - 1] == course
  {
    if p[0] == course {
      q := [course];
    } else {
      assert IsWalk(edges, p[1..]);
      var rest := UpToFirst(edges, p[1..], course);
      q := [p[0]] + rest;
      assert Edge(p[0], p[1]) in Without(edges, course);
    }
  }

  /** Walking the graph before or after the course's old list is deleted finds the same. */
  lemma SameWayBack(edges: set<Edge>, a: CourseId, course: CourseId)
    ensures Leads(edges, a, course) <==> Leads(Without(edges, course), a, course)
  {
    if p :| IsWalk(edges, p) && p[0] == a && p[|p| - 1] == course {
      var q := UpToFirst(edges, p, course);
    }
    if p :| IsWalk(Without(edges, course), p) && p[0] == a && p[|p| - 1] == course {
      assert IsWalk(edges, p);
    }
  }

  /** A loop can be entered at any of its courses. */
  lemma Rotated(edges: set<Edge>, p: seq<CourseId>, i: nat) returns (q: seq<CourseId>)
    requires IsLoop(edges, p) && i < |p| - 1
    ensures IsLoop(edges, q) && q[0] == p[i]
  {
    q := p[i..] + p[1..i + 1];
    assert forall k :: 0 <= k < |p| - i ==> q[k] == p[i + k];
    assert forall k :: |p| - i <= k < |q| ==> q[k] == p[k - (|p| - i) + 1];
  }

  /** A new loop runs through the course whose list was replaced, and so one of the new
      prerequisites leads back to it. */
  lemma NewLoopLeadsBack(edges: set<Edge>, course: CourseId, wanted: set<CourseId>, p: seq<CourseId>)
    requires Acyclic(edges) && IsLoop(Replaced(edges, course, wanted), p)
    ensures LeadsBack(edges, course, wanted)
  {
    var after := Replaced(edges, course, wanted);
    if i :| 0 <= i < |p| - 1 && p[i] == course {
      var q := Rotated(after, p, i);
      var tail := q[1..];
      assert IsWalk(after, tail);
      var back := UpToFirst(after, tail, course);
      assert Edge(q[0], q[1]) in after;
      assert IsWalk(edges, back) && back[0] in wanted;
      assert Leads(edges, back[0], course);
    } else {
      assert IsLoop(edges, p);
    }
  }

  lemma WayBackIsLoop(edges: set<Edge>, course: CourseId, wanted: set<CourseId>)
    requires LeadsBack(edges, course, wanted)
    ensures !Acyclic(Replaced(edges, course, wanted))
  {
    var w :| w in wanted && Leads(edges, w, course);
    SameWayBack(edges, w, course);
    var p :| IsWalk(Without(edges, course), p) && p[0] == w && p[|p| - 1] == course;
    var loop := [course] + p;
    forall i | 0 <= i < |loop| - 1 ensures Edge(loop[i], loop[i + 1]) in Replaced(edges, course, wanted) {
      if i > 0 {
        assert Edge(p[i - 1], p[i]) in Without(edges, course);
      }
    }
    assert IsLoop(Replaced(edges, course, wanted), loop);
  }

  /** WHEN A LIST CLOSES A LOOP. Replacing a list on a graph without loops of any length leaves one
      without loops if and only if no wanted course leads back to the course being changed. */
  lemma AcyclicIff(edges: set<Edge>, course: CourseId, wanted: set<CourseId>)
    requires Acyclic(edges)
    ensures Acyclic(Replaced(edges, course, wanted)) <==> !LeadsBack(edges, course, wanted)
  {
    var after := Replaced(edges, course, wanted);
    if LeadsBack(edges, course, wanted) {
      WayBackIsLoop(edges, course, wanted);
    } else if p :| IsLoop(after, p) {
      NewLoopLeadsBack(edges, course, wanted, p);
    }
  }

  /** What a call does to a graph without loops: they stay out exactly when it is refused or no
      wanted course leads back. */
  lemma CallStaysAcyclicIff(courses: set<CourseId>, edges: set<Edge>, r: Request)
    requires Acyclic(edges)
    ensures Acyclic(Applied(courses, edges, r)) <==>
              !Accepted(courses, edges, r.course, r.wanted) || !LeadsBack(edges, r.course, r.wanted)
  {
    AcyclicIff(edges, r.course, r.wanted);
  }

  /** Every call of the sequence that is accepted comes from a check that would have walked the
      whole graph and found no way back. */
  ghost predicate NoneLeadsBack(courses: set<CourseId>, edges: set<Edge>, requests: seq<Request>)
    decreases |requests|
  {
    requests == []
    || ((!Accepted(courses, edges, requests[0].course, requests[0].wanted)
         || !LeadsBack(edges, requests[0].course, requests[0].wanted))
        && NoneLeadsBack(courses, Applied(courses, edges, requests[0]), requests[1..]))
  }

  /** Over any sequence of calls, every graph passed through is without loops if and only if no
      accepted call led back. */
  lemma {:induction false} CallsStayAcyclicIff(courses: set<CourseId>, edges: set<Edge>, requests: seq<Request>)
    requires Acyclic(edges)
    ensures NoneLeadsBack(courses, edges, requests) <==>
              forall n :: 0 <= n <= |requests| ==> Acyclic(AllApplied(courses, edges, requests[..n]))
    decreases |requests|
  {
    if requests == [] {
      assert AllApplied(courses, edges, []) == edges;
    } else {
      var next, rest := Applied(courses, edges, requests[0]), requests[1..];
      CallStaysAcyclicIff(courses, edges, requests[0]);
      forall n | 1 <= n <= |requests|
        ensures AllApplied(courses, edges, requests[..n]) == AllApplied(courses, next, rest[..n - 1])
      {
        assert requests[..n][1..] == rest[..n - 1];
      }
      assert AllApplied(courses, edges, requests[..0]) == edges;
      assert AllApplied(courses, edges, requests[..1]) == next;
      if Acyclic(next) {
        CallsStayAcyclicIff(courses, next, rest);
        forall n | 0 <= n <= |rest|
          ensures AllApplied(courses, next, rest[..n]) == AllApplied(courses, edges, requests[..n + 1])
        {
        }
      }
    }
  }

  // ------------------------------------------------- how long such loops are

  /** The one-hop check leaves only loops of three courses or more. */
  lemma LoopsAreLong(edges: set<Edge>, p: seq<CourseId>)
    requires Safe(edges) && IsLoop(edges, p)
    ensures |p| >= 4
  {
    assert Edge(p[0], p[1]) in edges;
    assert |p| > 2 ==> Edge(p[1], p[2]) in edges;
  }

  /** The course after `i` in the ring. */
  function Next(ring: seq<CourseId>, i: nat): CourseId
    requires i < |ring|
  {
    if i + 1 < |ring| then ring[i + 1] else ring[0]
  }

  function RingEdge(ring: seq<CourseId>, i: nat): Edge
    requires i < |ring|
  {
    Edge(ring[i], Next(ring, i))
  }

  /** The first `n` courses of the ring require their successors. */
  function RingUpTo(ring: seq<CourseId>, n: nat): set<Edge>
    requires n <= |ring|
  {
    if n == 0 then {} else RingUpTo(ring, n - 1) + {RingEdge(ring, n - 1)}
  }

  function RingRequests(ring: seq<CourseId>, n: nat): seq<Request>
    requires n <= |ring|
  {
    if n == 0 then [] else RingRequests(ring, n - 1) + [Request(ring[n - 1], {Next(ring, n - 1)})]
  }

  lemma {:induction false} InRing(ring: seq<CourseId>, n: nat, e: Edge)
    requires n <= |ring|
    ensures e in RingUpTo(ring, n) <==> exists i: nat :: i < n && e == RingEdge(ring, i)
  {
    if n > 0 {
      InRing(ring, n - 1, e);
    }
  }

  lemma {:induction false} OneMoreCall(courses: set<CourseId>, edges: set<Edge>, requests: seq<Request>, r: Request)
    ensures AllApplied(courses, edges, requests + [r]) == Applied(courses, AllApplied(courses, edges, requests), r)
    decreases |requests|
  {
    if requests == [] {
      assert requests + [r] == [r] && [r][1..] == [];
    } else {
      assert (requests + [r])[1..] == requests[1..] + [r];
      OneMoreCall(courses, Applied(courses, edges, requests[0]), requests[1..], r);
    }
  }

  /** Adding one required course where the other does not require it yet. */
  lemma OneEdge(courses: set<CourseId>, edges: set<Edge>, course: CourseId, p: CourseId)
    requires p in courses && p != course && Edge(p, course) !in edges
    requires forall e :: e in edges ==> e.course != course
    ensures Applied(courses, edges, Request(course, {p})) == edges + {Edge(course, p)}
  {
    assert EdgesFrom(course, {p}) == {Edge(course, p)};
    assert Without(edges, course) == edges;
  }

  lemma {:induction false} RingGrows(courses: set<CourseId>, ring: seq<CourseId>, n: nat)
    requires RepeatFree(ring) && |ring| >= 3 && n <= |ring| && forall c :: c in ring ==> c in courses
    ensures AllApplied(courses, {}, RingRequests(ring, n)) == RingUpTo(ring, n)
  {
    if n > 0 {
      var i := n - 1;
      RingGrows(courses, ring, i);
      OneMoreCall(courses, {}, RingRequests(ring, i), Request(ring[i], {Next(ring, i)}));
      RingHasNoEdgeBack(ring, i);
      OneEdge(courses, RingUpTo(ring, i), ring[i], Next(ring, i));
    }
  }

  lemma RingHasNoEdgeBack(ring: seq<CourseId>, i: nat)
    requires RepeatFree(ring) && |ring| >= 3 && i < |ring|
    ensures Next(ring, i) != ring[i] && Edge(Next(ring, i), ring[i]) !in RingUpTo(ring, i)
    ensures forall e :: e in RingUpTo(ring, i) ==> e.course != ring[i]
  {
    InRing(ring, i, Edge(Next(ring, i), ring[i]));
    forall e | e in RingUpTo(ring, i) ensures e.course != ring[i] {
      InRing(ring, i, e);
    }
  }

  /** EVERY LONGER LOOP GETS IN. Any three or more different courses can be made a loop by calls of
      which every one is accepted, in a graph the checks regard as safe. */
  lemma LongerLoopsAccepted(courses: set<CourseId>, ring: seq<CourseId>)
    requires RepeatFree(ring) && |ring| >= 3 && forall c :: c in ring ==> c in courses
    ensures var edges := AllApplied(courses, {}, RingRequests(ring, |ring|));
      edges == RingUpTo(ring, |ring|) && Safe(edges) && IsLoop(edges, ring + [ring[0]])
  {
    RingGrows(courses, ring, |ring|);
    CallsStaySafe(courses, {}, RingRequests(ring, |ring|));
    RingIsLoop(ring);
  }

  lemma RingIsLoop(ring: seq<CourseId>)
    requires |ring| >= 1
    ensures IsLoop(RingUpTo(ring, |ring|), ring + [ring[0]])
  {
    var loop := ring + [ring[0]];
    forall i | 0 <= i < |ring| ensures Edge(loop[i], loop[i + 1]) in RingUpTo(ring, |ring|) {
      InRing(ring, |ring|, RingEdge(ring, i));
      assert Edge(loop[i], loop[i + 1]) == RingEdge(ring, i);
    }
  }

  // ------------------------------------------------------------ overlapping calls

  /** RACING CALLS. Two calls for different courses, both checked against the same table before
      either commits, leave a safe graph if and only if they do not name each other's course. */
  lemma RacingCallsIff(courses: set<CourseId>, edges: set<Edge>, a: CourseId, forA: set<CourseId>,
                       b: CourseId, forB: set<CourseId>)
    requires Safe(edges) && a != b
    requires Accepted(courses, edges, a, forA) && Accepted(courses, edges, b, forB)
    ensures Safe(Replaced(Replaced(edges, a, forA), b, forB)) <==> !(b in forA && a in forB)
  {
    var first := Replaced(edges, a, forA);
    var both := Replaced(first, b, forB);
    AcceptedIffSafe(courses, edges, a, forA);
    AcceptedIffSafe(courses, first, b, forB);
    if b in forA && a in forB {
      assert Edge(a, b) in both && Edge(b, a) in both;
    }
  }

  /** Two such calls for one course leave a safe graph whichever list ends up stored, and also if
      the second deletion misses the first call's rows and both lists do. */
  lemma RacingForOneCourse(courses: set<CourseId>, edges: set<Edge>, a: CourseId,
                           one: set<CourseId>, other: set<CourseId>)
    requires Safe(edges) && Accepted(courses, edges, a, one) && Accepted(courses, edges, a, other)
    ensures Safe(Replaced(Replaced(edges, a, one), a, other)) && Safe(Replaced(edges, a, one + other))
  {
    AcceptedIffSafe(courses, edges, a, other);
    AcceptedIffSafe(courses, edges, a, one + other);
    assert Without(Replaced(edges, a, one), a) == Without(edges, a);
  }

  // ------------------------------------------------------- the price of a loop

  /** The catalogue that enrolment sees for these edges. */
  ghost predicate Shows(cat: Enrollment.Catalogue, edges: set<Edge>) {
    forall c :: Enrollment.RequiredBy(cat, c) == RequiredIn(edges, c)
  }

  lemma LoopIsClosed(edges: set<Edge>, loop: set<CourseId>, cat: Enrollment.Catalogue)
    requires Shows(cat, edges) && forall c :: c in loop ==> RequiredIn(edges, c) * loop != {}
    ensures Enrollment.Closed(cat, loop)
  {
    forall c | c in loop ensures Enrollment.RequiresOneOf(cat, c, loop) {
      var p :| p in RequiredIn(edges, c) * loop;
      assert p in Enrollment.RequiredBy(cat, c);
    }
  }

  /** Courses each of which requires another of them, as in a loop of any length, can never be
      entered: unless somebody is in or through one already, nobody gets in, in any schedule. */
  lemma LoopShutsOut(edges: set<Edge>, loop: set<CourseId>, cat: Enrollment.Catalogue,
                     ws: seq<Enrollment.World>, moves: seq<Enrollment.Move>, i: nat)
    requires forall c :: c in loop ==> RequiredIn(edges, c) * loop != {}
    requires Shows(cat, edges) && Enrollment.Schedule(cat, ws, moves) && i < |ws| && Enrollment.Quiet(ws[0])
    requires forall id :: id in ws[0].rows && ws[0].rows[id].course in loop ==>
               ws[0].rows[id].standing == Enrollment.Withdrawn
    ensures forall id :: id in ws[i].rows && ws[i].rows[id].course in loop ==>
              ws[i].rows[id].standing == Enrollment.Withdrawn
    ensures forall c :: c in loop ==> Enrollment.PendingIn(ws[i], c) == {}
  {
    LoopIsClosed(edges, loop, cat);
    Enrollment.NobodyEverGetsIn(cat, ws, moves, i, loop);
  }
}
