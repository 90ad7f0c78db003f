/**
  The document store the handlers read and write, held in memory: the student,
  therapist and progress collections, which handlers update, and the session
  log, which they only read. `Valid` gathers the schema constraints and unique
  indexes that every handler keeps.
 */
module Database {
  import opened Common
  import StudentModel
  import TherapistModel
  import GameProgressModel
  import SessionModel

  ghost predicate StudentsOk(ss: seq<StudentModel.Student>)
  {
    && StudentModel.UniqueIds(ss)
    && StudentModel.UniquePins(ss)
    && forall i :: 0 <= i < |ss| ==> StudentModel.Stored(ss[i])
  }

  ghost predicate TherapistsOk(ts: seq<TherapistModel.Therapist>)
  {
    && TherapistModel.UniqueIds(ts)
    && TherapistModel.UniqueEmails(ts)
    && forall i :: 0 <= i < |ts| ==>
         TherapistModel.Valid(ts[i]) && TherapistModel.NoDuplicates(ts[i].assignedStudents)
  }

  ghost predicate ProgressOk(ps: seq<GameProgressModel.GameProgress>)
  {
    GameProgressModel.AllValid(ps) && GameProgressModel.UniquePairs(ps)
  }

  class Store {
    var students: seq<StudentModel.Student>
    var therapists: seq<TherapistModel.Therapist>
    var progress: seq<GameProgressModel.GameProgress>
    const sessions: seq<SessionModel.Session>

    ghost predicate Valid()
      reads this
    {
      StudentsOk(students) && TherapistsOk(therapists) && ProgressOk(progress) && SessionModel.AllValid(sessions)
    }

    /** An empty database over a given session log. */
    constructor (log: seq<SessionModel.Session>)
      requires SessionModel.AllValid(log)
      ensures Valid()
      ensures students == [] && therapists == [] && progress == [] && sessions == log
    {
      students, therapists, progress := [], [], [];
      sessions := log;
    }
  }
}
