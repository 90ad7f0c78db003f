/**
  The Session schema (server/models/Session.ts): an append-only log entry of one
  play or therapy session, and the queries and folds the read handlers run over
  the log. No handler in the server writes sessions, so the log is an input.
 */
module SessionModel {
  import opened Common
  import opened ModuleEnum

  datatype Session = Session(
    id: Id,
    studentId: Id,
    therapistId: Option<Id>,
    moduleId: ModuleId,
    duration: int,
    accuracy: int,
    pointsEarned: int,
    notes: string,
    createdAt: int)

  const DefaultAccuracy := 0
  const DefaultPoints := 0
  const DefaultNotes := ""

  /** The `min: 0, max: 100` validators on accuracy. */
  predicate Valid(s: Session)
  {
    0 <= s.accuracy <= 100
  }

  predicate AllValid(ss: seq<Session>)
  {
    forall i :: 0 <= i < |ss| ==> Valid(ss[i])
  }

  /**
    A session document as the schema builds it: studentId, moduleId and duration
    are required, therapistId is optional, accuracy, pointsEarned and notes take
    their defaults when absent, accuracy must lie in 0..100, and the `timestamps`
    option stamps createdAt with the current time.
   */
  function Create(id: Id, studentId: Option<Id>, therapistId: Option<Id>, moduleId: Option<string>,
                  duration: Option<int>, accuracy: Option<int>, pointsEarned: Option<int>,
                  notes: Option<string>, now: int)
    : (r: Checked<Session>)
    ensures r.Accepted? <==>
      && studentId.Some?
      && moduleId.Some? && Parse(moduleId.value).Some?
      && duration.Some?
      && (accuracy.Some? ==> 0 <= accuracy.value <= 100)
    ensures r.Accepted? ==>
      && Valid(r.value)
      && r.value.studentId == studentId.value
      && r.value.therapistId == therapistId
      && Name(r.value.moduleId) == moduleId.value
      && r.value.duration == duration.value
      && r.value.accuracy == (if accuracy.Some? then accuracy.value else DefaultAccuracy)
      && r.value.pointsEarned == (if pointsEarned.Some? then pointsEarned.value else DefaultPoints)
      && r.value.notes == (if notes.Some? then notes.value else DefaultNotes)
      && r.value.createdAt == now
  {
    if studentId.None? then Rejected("studentId")
    else if moduleId.None? || Parse(moduleId.value).None? then Rejected("moduleId")
    else if duration.None? then Rejected("duration")
    else
      var acc := if accuracy.Some? then accuracy.value else DefaultAccuracy;
      if !(0 <= acc <= 100) then Rejected("accuracy")
      else Accepted(Session(
        id,
        studentId.value,
        therapistId,
        Parse(moduleId.value).value,
        duration.value,
        acc,
        if pointsEarned.Some? then pointsEarned.value else DefaultPoints,
        if notes.Some? then notes.value else DefaultNotes,
        now))
  }

  /** `find({ studentId })`, in log order. */
  function OfStudent(ss: seq<Session>, studentId: Id): (r: seq<Session>)
    ensures |r| <= |ss|
    ensures forall s :: s in r <==> s in ss && s.studentId == studentId
  {
    if ss == [] then []
    else (if ss[0].studentId == studentId then [ss[0]] else []) + OfStudent(ss[1..], studentId)
  }

  /** `find({ therapistId })`: sessions attributed to that therapist, in log order. */
  function OfTherapist(ss: seq<Session>, therapistId: Id): (r: seq<Session>)
    ensures |r| <= |ss|
    ensures forall s :: s in r <==> s in ss && s.therapistId == Some(therapistId)
    ensures multiset(r) <= multiset(ss)
  {
    if ss == [] then []
    else
      assert ss == [ss[0]] + ss[1..];
      (if ss[0].therapistId == Some(therapistId) then [ss[0]] else []) + OfTherapist(ss[1..], therapistId)
  }

  /** `find({ studentId, createdAt: { $gte: since } })`: the student's sessions from `since` on. */
  function OfStudentSince(ss: seq<Session>, studentId: Id, since: int): (r: seq<Session>)
    ensures |r| <= |ss|
    ensures forall s :: s in r <==> s in ss && s.studentId == studentId && s.createdAt >= since
  {
    if ss == [] then []
    else
      (if ss[0].studentId == studentId && ss[0].createdAt >= since then [ss[0]] else [])
      + OfStudentSince(ss[1..], studentId, since)
  }

  /** Number of sessions of one student, counted directly (a reference for the filter). */
  function CountOf(ss: seq<Session>, studentId: Id): nat
  {
    if ss == [] then 0
    else (if ss[0].studentId == studentId then 1 else 0) + CountOf(ss[1..], studentId)
  }

  /** `reduce((sum, s) => sum + (s.duration || 0), 0)` (a stored duration is always a number). */
  function SumDuration(ss: seq<Session>): int
  {
    if ss == [] then 0 else ss[0].duration + SumDuration(ss[1..])
  }

  /** `reduce((sum, s) => sum + (s.pointsEarned || 0), 0)`. */
  function SumPoints(ss: seq<Session>): int
  {
    if ss == [] then 0 else ss[0].pointsEarned + SumPoints(ss[1..])
  }

  /** `reduce((sum, s) => sum + (s.accuracy || 0), 0)`. */
  function SumAccuracy(ss: seq<Session>): int
  {
    if ss == [] then 0 else ss[0].accuracy + SumAccuracy(ss[1..])
  }

  /** The filter's length is the direct count of the student's sessions. */
  lemma {:induction false} OfStudentCount(ss: seq<Session>, studentId: Id)
    ensures |OfStudent(ss, studentId)| == CountOf(ss, studentId)
  {
    if ss != [] {
      OfStudentCount(ss[1..], studentId);
    }
  }

  /** The three folds are additive: appending sessions adds their totals. */
  lemma {:induction false} SumsAppend(a: seq<Session>, b: seq<Session>)
    ensures SumDuration(a + b) == SumDuration(a) + SumDuration(b)
    ensures SumPoints(a + b) == SumPoints(a) + SumPoints(b)
    ensures SumAccuracy(a + b) == SumAccuracy(a) + SumAccuracy(b)
  {
    if a == [] {
      assert a + b == b;
    } else {
      assert (a + b)[1..] == a[1..] + b;
      SumsAppend(a[1..], b);
    }
  }

  /** The student filter distributes over concatenation of logs. */
  lemma {:induction false} OfStudentAppend(a: seq<Session>, b: seq<Session>, studentId: Id)
    ensures OfStudent(a + b, studentId) == OfStudent(a, studentId) + OfStudent(b, studentId)
  {
    if a == [] {
      assert a + b == b;
    } else {
      assert (a + b)[1..] == a[1..] + b;
      OfStudentAppend(a[1..], b, studentId);
    }
  }

  /** The windowed filter distributes over concatenation of logs. */
  lemma {:induction false} OfStudentSinceAppend(a: seq<Session>, b: seq<Session>, studentId: Id, since: int)
    ensures OfStudentSince(a + b, studentId, since) == OfStudentSince(a, studentId, since) + OfStudentSince(b, studentId, since)
  {
    if a == [] {
      assert a + b == b;
    } else {
      assert (a + b)[1..] == a[1..] + b;
      OfStudentSinceAppend(a[1..], b, studentId, since);
    }
  }

  /** A sum of valid accuracies lies between 0 and 100 per session. */
  lemma {:induction false} SumAccuracyBounds(ss: seq<Session>)
    requires AllValid(ss)
    ensures 0 <= SumAccuracy(ss) <= 100 * |ss|
  {
    if ss != [] {
      SumAccuracyBounds(ss[1..]);
    }
  }

  /** The filtered sessions of a valid log are valid. */
  lemma {:induction false} OfStudentSinceValid(ss: seq<Session>, studentId: Id, since: int)
    requires AllValid(ss)
    ensures AllValid(OfStudentSince(ss, studentId, since))
  {
    var r := OfStudentSince(ss, studentId, since);
    forall i | 0 <= i < |r| ensures Valid(r[i]) {
      assert r[i] in ss;
    }
  }
}
