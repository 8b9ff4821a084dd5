/** `api/routers/courses.py`, `publish_course`: check the course, then ask for a run. */
module PublishEndpoint {
  import opened Publishing
  import PublishWorkflow

  /** The workflow ids with a run in progress. */
  class WorkflowServer {
    var running: set<string>

    constructor ()
      ensures running == {}
    {
      running := {};
    }

    /** Temporal refuses a second run under an id that is running. */
    method StartWorkflow(id: string) returns (started: bool)
      modifies this
      ensures started <==> id !in old(running)
      ensures running == old(running) + {id}
    {
      started := id !in running;
      running := running + {id};
    }
  }

  /** A publish is accepted exactly when the caller may publish, the course is not being published
      and no run of this very course is in progress; a caller who fails the first checks never
      learns about runs. Acceptance starts one run of this course, a refusal starts nothing, and
      the course row is never written here. */
  method PublishCourse(course: Course?, courseId: string, user: User, server: WorkflowServer)
    returns (r: Result<string>)
    modifies server
    ensures r.Ok? <==>
      && course != null && MayPublish(course.instructor, user) && Open(course.status)
      && PublishWorkflow.WorkflowIdFor(courseId) !in old(server.running)
    ensures r.Ok? ==> server.running - old(server.running) == {r.value}
    ensures r.Ok? ==> r.value == "publish-course-" + courseId
    ensures r.Refused? ==> server.running == old(server.running)
    ensures r == Refused(NotFound) <==> course == null || !CanView(course.status, course.instructor, user)
    ensures r == Refused(NoInstructorRole) <==>
      && course != null && CanView(course.status, course.instructor, user)
      && Admin !in user.roles && Instructor !in user.roles
    ensures r == Refused(AnothersCourse) <==>
      && course != null && CanView(course.status, course.instructor, user)
      && Admin !in user.roles && Instructor in user.roles && course.instructor != user.id
    ensures r == Refused(BadStatus) <==>
      course != null && MayPublish(course.instructor, user) && course.status == PublishingNow
    ensures r == Refused(CourseBusy) <==>
      && course != null && MayPublish(course.instructor, user) && Open(course.status)
      && PublishWorkflow.WorkflowIdFor(courseId) in old(server.running)
    ensures forall other :: other != courseId ==>
      var otherId := PublishWorkflow.WorkflowIdFor(other);
      otherId in server.running <==> otherId in old(server.running)
  {
    var allowed := AssertCanPublish(course, user);
    if allowed.Refused? {
      return Refused(allowed.reason);
    }
    var workflowId := PublishWorkflow.WorkflowIdFor(courseId);
    var started := server.StartWorkflow(workflowId);
    if !started {
      return Refused(CourseBusy);
    }
    forall other | other != courseId ensures PublishWorkflow.WorkflowIdFor(other) != workflowId {
      if PublishWorkflow.WorkflowIdFor(other) == workflowId {
        PublishWorkflow.WorkflowIdsDiffer(other, courseId);
      }
    }
    r := Ok(workflowId);
  }
}
