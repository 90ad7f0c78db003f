/**
  The student handlers (server/routes/student.ts): profile read and update,
  progress read, the per-(student, module) progress upsert, and the statistics
  fold over the session log. Each handler takes the authenticated id the gate
  attached (`req.user?.id`), absent meaning 401 before the store is touched.
 */
module StudentRoutes {
  import opened Common
  import opened ModuleEnum
  import StudentModel
  import GameProgressModel
  import SessionModel
  import opened Database

  // ---------------------------------------------------------------- profile

  /** `getStudentProfile`. */
  function GetStudentProfile(user: Option<Id>, students: seq<StudentModel.Student>)
    : (r: Response<StudentModel.Profile>)
    ensures user.None? ==> r == Failure(401, "Unauthorized")
    ensures user.Some? ==> (r.Failure? <==> forall s :: s in students ==> s.id != user.value)
    ensures user.Some? && r.Failure? ==> r == Failure(404, "Student not found")
    ensures r.Reply? ==>
      && r.status == 200
      && exists s :: s in students && s.id == user.value && r.body == StudentModel.ProfileOf(s)
  {
    if user.None? then Failure(401, "Unauthorized")
    else
      match StudentModel.FindById(students, user.value)
      case None => Failure(404, "Student not found")
      case Some(s) => Reply(200, StudentModel.ProfileOf(s))
  }

  /** The body of a profile update; an absent field is dropped from the update. */
  datatype ProfilePatch = ProfilePatch(name: Option<string>, avatar: Option<string>, soundEnabled: Option<bool>)

  /** The `{ name, avatar, soundEnabled }` update applied to one record. */
  function Patch(s: StudentModel.Student, p: ProfilePatch): (r: StudentModel.Student)
    ensures r.(name := s.name, avatar := s.avatar, soundEnabled := s.soundEnabled) == s
    ensures p.name.Some? ==> r.name == p.name.value
    ensures p.avatar.Some? ==> r.avatar == p.avatar.value
    ensures p.soundEnabled.Some? ==> r.soundEnabled == p.soundEnabled.value
    ensures p == ProfilePatch(None, None, None) ==> r == s
  {
    s.(name := if p.name.Some? then p.name.value else s.name,
       avatar := if p.avatar.Some? then p.avatar.value else s.avatar,
       soundEnabled := if p.soundEnabled.Some? then p.soundEnabled.value else s.soundEnabled)
  }

  /** `updateStudentProfile`: `findByIdAndUpdate` with the new document returned, credentials left out. */
  method UpdateStudentProfile(db: Store, user: Option<Id>, patch: ProfilePatch)
    returns (r: Response<StudentModel.Profile>)
    requires db.Valid()
    modifies db
    ensures db.Valid()
    ensures db.therapists == old(db.therapists) && db.progress == old(db.progress)
    ensures user.None? ==> r == Failure(401, "Unauthorized") && db.students == old(db.students)
    ensures user.Some? && StudentModel.IndexOf(old(db.students), user.value).None? ==>
      r == Failure(404, "Student not found") && db.students == old(db.students)
    ensures user.Some? && StudentModel.IndexOf(old(db.students), user.value).Some? ==>
      var i := StudentModel.IndexOf(old(db.students), user.value).value;
      && db.students == old(db.students)[i := Patch(old(db.students)[i], patch)]
      && r == Reply(200, StudentModel.ProfileOf(db.students[i]))
  {
    if user.None? {
      return Failure(401, "Unauthorized");
    }
    var found := StudentModel.IndexOf(db.students, user.value);
    if found.None? {
      return Failure(404, "Student not found");
    }
    var i := found.value;
    var updated := Patch(db.students[i], patch);
    db.students := db.students[i := updated];
    r := Reply(200, StudentModel.ProfileOf(updated));
  }

  // ---------------------------------------------------------------- progress

  /** `getStudentProgress`: the caller's own records. */
  function GetStudentProgress(user: Option<Id>, progress: seq<GameProgressModel.GameProgress>)
    : (r: Response<seq<GameProgressModel.GameProgress>>)
    ensures user.None? ==> r == Failure(401, "Unauthorized")
    ensures user.Some? ==> r.Reply? && r.status == 200
    ensures r.Reply? ==> forall p :: p in r.body <==> p in progress && p.studentId == user.value
  {
    if user.None? then Failure(401, "Unauthorized")
    else Reply(200, GameProgressModel.OfStudent(progress, user.value))
  }

  /** The body of a progress update. */
  datatype ProgressBody = ProgressBody(moduleId: Option<string>, completed: Option<int>, accuracy: Option<int>, timeSpent: Option<int>)

  /** The creation branch: `new GameProgress({ ..., completed: completed || 0, ... })`. */
  function Fresh(studentId: Id, body: ProgressBody, now: int): Checked<GameProgressModel.GameProgress>
  {
    GameProgressModel.Create(Some(studentId), body.moduleId, Some(NumberOr(body.completed, 0)), None,
                             Some(NumberOr(body.accuracy, 0)), Some(NumberOr(body.timeSpent, 0)), now)
  }

  /** The update branch, field by field as the handler assigns them. */
  function Revise(p: GameProgressModel.GameProgress, body: ProgressBody, now: int): GameProgressModel.GameProgress
  {
    p.(completed := NumberOr(body.completed, p.completed),
       accuracy := NumberOr(body.accuracy, p.accuracy),
       timeSpent := p.timeSpent + NumberOr(body.timeSpent, 0),
       lastPlayedAt := now)
  }

  datatype Upserted = Upserted(records: seq<GameProgressModel.GameProgress>, saved: GameProgressModel.GameProgress)

  /** True when a record belongs to the (student, module) pair an update names. */
  predicate SamePair(p: GameProgressModel.GameProgress, studentId: Id, body: ProgressBody)
  {
    GameProgressModel.Matches(p, studentId, body.moduleId)
  }

  /**
    What one progress update does to the collection: the record for the pair is
    revised in place, or a new one is appended; `save()` refuses a record whose
    module is not in the enumeration or whose accuracy leaves 0..100.
   */
  function Upsert(ps: seq<GameProgressModel.GameProgress>, studentId: Id, body: ProgressBody, now: int)
    : (r: Checked<Upserted>)
    ensures r.Accepted? ==>
      && GameProgressModel.Valid(r.value.saved)
      && SamePair(r.value.saved, studentId, body)
      && r.value.saved in r.value.records
      && r.value.saved.lastPlayedAt == now
    ensures body.moduleId.None? || Parse(body.moduleId.value).None? ==> r.Rejected?
  {
    match GameProgressModel.FindOne(ps, studentId, body.moduleId)
    case None =>
      (match Fresh(studentId, body, now)
       case Rejected(path) => Rejected(path)
       case Accepted(rec) => Accepted(Upserted(ps + [rec], rec)))
    case Some(i) =>
      var rec := Revise(ps[i], body, now);
      if !GameProgressModel.Valid(rec) then Rejected("accuracy")
      else
        var records := ps[i := rec];
        assert records[i] == rec;
        Accepted(Upserted(records, rec))
  }

  /** An update keeps the accuracy bound and the one-record-per-pair index. */
  lemma UpsertKeepsIndex(ps: seq<GameProgressModel.GameProgress>, studentId: Id, body: ProgressBody, now: int)
    requires ProgressOk(ps)
    requires Upsert(ps, studentId, body, now).Accepted?
    ensures ProgressOk(Upsert(ps, studentId, body, now).value.records)
  {
    var u := Upsert(ps, studentId, body, now).value;
    match GameProgressModel.FindOne(ps, studentId, body.moduleId)
    case None =>
      assert u.records == ps + [u.saved];
      forall i, j | 0 <= i < j < |u.records|
        ensures u.records[i].studentId != u.records[j].studentId || u.records[i].moduleId != u.records[j].moduleId
      {
        if j == |ps| {
          assert !GameProgressModel.Matches(ps[i], studentId, body.moduleId);
        }
      }
    case Some(k) =>
      assert u.records == ps[k := u.saved];
  }

  /** Only the record of the named pair changes; every other record is kept, and nothing else appears. */
  lemma UpsertTouchesOnlyPair(ps: seq<GameProgressModel.GameProgress>, studentId: Id, body: ProgressBody, now: int)
    requires Upsert(ps, studentId, body, now).Accepted?
    ensures var u := Upsert(ps, studentId, body, now).value;
      && (forall q :: q in ps && !SamePair(q, studentId, body) ==> q in u.records)
      && (forall q :: q in u.records && !SamePair(q, studentId, body) ==> q in ps)
      && |ps| <= |u.records| <= |ps| + 1
  {
    var u := Upsert(ps, studentId, body, now).value;
    match GameProgressModel.FindOne(ps, studentId, body.moduleId)
    case None =>
      assert u.records == ps + [u.saved];
    case Some(k) =>
      assert u.records == ps[k := u.saved];
      forall q | q in ps && !SamePair(q, studentId, body) ensures q in u.records {
        var j :| 0 <= j < |ps| && ps[j] == q;
        assert u.records[j] == q;
      }
      forall q | q in u.records && !SamePair(q, studentId, body) ensures q in ps {
        var j :| 0 <= j < |u.records| && u.records[j] == q;
        assert ps[j] == q;
      }
  }

  /**
    On the creation path the new record holds the supplied completed, accuracy
    and timeSpent (absent reading as 0) with total 5, and reading the student's
    progress back returns it.
   */
  lemma CreatedRecordReadsBack(ps: seq<GameProgressModel.GameProgress>, studentId: Id, m: ModuleId,
                               completed: int, accuracy: int, timeSpent: int, now: int)
    requires GameProgressModel.FindOne(ps, studentId, Some(Name(m))).None?
    requires 0 <= accuracy <= 100
    ensures var r := Upsert(ps, studentId, ProgressBody(Some(Name(m)), Some(completed), Some(accuracy), Some(timeSpent)), now);
      && r.Accepted?
      && r.value.saved == GameProgressModel.GameProgress(studentId, m, completed, GameProgressModel.DefaultTotal, accuracy, timeSpent, now)
      && r.value.saved in GameProgressModel.OfStudent(r.value.records, studentId)
  {
    EnumerationComplete(m);
  }

  /**
    On an existing record, completed and accuracy change only when the supplied
    value is truthy: a supplied 0 or an absent value keeps the old one.
   */
  lemma FalsyValuesKeepOld(ps: seq<GameProgressModel.GameProgress>, studentId: Id, body: ProgressBody, now: int)
    requires GameProgressModel.FindOne(ps, studentId, body.moduleId).Some?
    requires Upsert(ps, studentId, body, now).Accepted?
    ensures var before := ps[GameProgressModel.FindOne(ps, studentId, body.moduleId).value];
      var saved := Upsert(ps, studentId, body, now).value.saved;
      && (TruthyNumber(body.completed) ==> saved.completed == body.completed.value)
      && (!TruthyNumber(body.completed) ==> saved.completed == before.completed)
      && (TruthyNumber(body.accuracy) ==> saved.accuracy == body.accuracy.value)
      && (!TruthyNumber(body.accuracy) ==> saved.accuracy == before.accuracy)
      && saved.total == before.total
  {
  }

  /** The record an accepted update saved is the one the next update for the same pair finds. */
  lemma SavedIsFoundNext(ps: seq<GameProgressModel.GameProgress>, studentId: Id, body: ProgressBody, now: int,
                         moduleId: Option<string>)
    requires Upsert(ps, studentId, body, now).Accepted?
    requires moduleId == body.moduleId
    ensures var u := Upsert(ps, studentId, body, now).value;
      GameProgressModel.FindOne(u.records, studentId, moduleId).Some?
      && u.records[GameProgressModel.FindOne(u.records, studentId, moduleId).value] == u.saved
  {
    var u := Upsert(ps, studentId, body, now).value;
    match GameProgressModel.FindOne(ps, studentId, body.moduleId)
    case None =>
      assert u.records == ps + [u.saved];
      assert GameProgressModel.Matches(u.records[|ps|], studentId, moduleId);
    case Some(k) =>
      assert u.records == ps[k := u.saved];
      assert GameProgressModel.Matches(u.records[k], studentId, moduleId);
  }

  /** The accumulation law: updates supplying a and then b add a + b to the time already recorded. */
  lemma {:induction false} TimeSpentAccumulates(ps: seq<GameProgressModel.GameProgress>, studentId: Id,
                                                first: ProgressBody, second: ProgressBody, t1: int, t2: int)
    requires first.moduleId == second.moduleId
    requires Upsert(ps, studentId, first, t1).Accepted?
    requires Upsert(Upsert(ps, studentId, first, t1).value.records, studentId, second, t2).Accepted?
    ensures var earlier := GameProgressModel.FindOne(ps, studentId, first.moduleId);
      var base := if earlier.Some? then ps[earlier.value].timeSpent else 0;
      Upsert(Upsert(ps, studentId, first, t1).value.records, studentId, second, t2).value.saved.timeSpent
        == base + NumberOr(first.timeSpent, 0) + NumberOr(second.timeSpent, 0)
  {
    var u1 := Upsert(ps, studentId, first, t1).value;
    SavedIsFoundNext(ps, studentId, first, t1, second.moduleId);
  }

  /** `updateGameProgress`: the found record is mutated field by field and saved, or a new one is created. */
  method UpdateGameProgress(db: Store, user: Option<Id>, body: ProgressBody, now: int)
    returns (r: Response<GameProgressModel.GameProgress>)
    requires db.Valid()
    modifies db
    ensures db.Valid()
    ensures db.students == old(db.students) && db.therapists == old(db.therapists)
    ensures user.None? ==> r == Failure(401, "Unauthorized") && db.progress == old(db.progress)
    ensures user.Some? && Upsert(old(db.progress), user.value, body, now).Accepted? ==>
      && db.progress == Upsert(old(db.progress), user.value, body, now).value.records
      && r == Reply(200, Upsert(old(db.progress), user.value, body, now).value.saved)
    ensures user.Some? && Upsert(old(db.progress), user.value, body, now).Rejected? ==>
      r == Failure(500, "Failed to update progress") && db.progress == old(db.progress)
  {
    if user.None? {
      return Failure(401, "Unauthorized");
    }
    var studentId := user.value;
    ghost var outcome := Upsert(db.progress, studentId, body, now);
    var found := GameProgressModel.FindOne(db.progress, studentId, body.moduleId);
    var record: GameProgressModel.GameProgress;
    if found.None? {
      var doc := GameProgressModel.Create(Some(studentId), body.moduleId, Some(NumberOr(body.completed, 0)), None,
                                          Some(NumberOr(body.accuracy, 0)), Some(NumberOr(body.timeSpent, 0)), now);
      assert outcome == (if doc.Rejected? then Rejected(doc.path) else Accepted(Upserted(db.progress + [doc.value], doc.value)));
      if doc.Rejected? {
        return Failure(500, "Failed to update progress");
      }
      record := doc.value;
      UpsertKeepsIndex(db.progress, studentId, body, now);
      db.progress := db.progress + [record];
    } else {
      record := db.progress[found.value];
      record := record.(completed := NumberOr(body.completed, record.completed));
      record := record.(accuracy := NumberOr(body.accuracy, record.accuracy));
      record := record.(timeSpent := record.timeSpent + NumberOr(body.timeSpent, 0));
      record := record.(lastPlayedAt := now);
      assert record == Revise(db.progress[found.value], body, now);
      if !GameProgressModel.Valid(record) {
        return Failure(500, "Failed to update progress");
      }
      UpsertKeepsIndex(db.progress, studentId, body, now);
      db.progress := db.progress[found.value := record];
    }
    r := Reply(200, record);
  }

  // ---------------------------------------------------------------- statistics

  /** `student?.name` and friends: absent when the student record is missing. */
  datatype StudentSummary = StudentSummary(name: Option<string>, avatar: Option<string>,
                                           progressStars: Option<int>, soundEnabled: Option<bool>)

  /** totalHours is totalMinutes / 60 in the reply; the division is left to the reader. */
  datatype Stats = Stats(totalSessions: nat, totalMinutes: int, currentStreak: int, totalPoints: int)

  datatype StatsReply = StatsReply(student: StudentSummary, stats: Stats)

  function Summary(s: Option<StudentModel.Student>): StudentSummary
  {
    match s
    case None => StudentSummary(None, None, None, None)
    case Some(st) => StudentSummary(Some(st.name), Some(st.avatar), Some(st.progressStars), Some(st.soundEnabled))
  }

  /** `getStudentStats`: computed on read from the session log; the streak is the stored counter. */
  function GetStudentStats(user: Option<Id>, students: seq<StudentModel.Student>, sessions: seq<SessionModel.Session>)
    : (r: Response<StatsReply>)
    ensures user.None? ==> r == Failure(401, "Unauthorized")
    ensures user.Some? ==> r.Reply? && r.status == 200
    ensures r.Reply? ==> r.body.stats.totalSessions == SessionModel.CountOf(sessions, user.value)
    ensures r.Reply? ==>
      && r.body.stats.totalMinutes == SessionModel.SumDuration(SessionModel.OfStudent(sessions, user.value))
      && r.body.stats.totalPoints == SessionModel.SumPoints(SessionModel.OfStudent(sessions, user.value))
    ensures r.Reply? ==> r.body.student == Summary(StudentModel.FindById(students, user.value))
    ensures r.Reply? && StudentModel.FindById(students, user.value).Some? ==>
      r.body.stats.currentStreak == StudentModel.FindById(students, user.value).value.currentStreak
    ensures r.Reply? && StudentModel.FindById(students, user.value).None? ==> r.body.stats.currentStreak == 0
  {
    if user.None? then Failure(401, "Unauthorized")
    else
      var student := StudentModel.FindById(students, user.value);
      var mine := SessionModel.OfStudent(sessions, user.value);
      SessionModel.OfStudentCount(sessions, user.value);
      Reply(200, StatsReply(
        Summary(student),
        Stats(|mine|,
              SessionModel.SumDuration(mine),
              if student.Some? then student.value.currentStreak else 0,
              SessionModel.SumPoints(mine))))
  }

  /** The streak is read from the student record and never derived from sessions. */
  lemma StreakIgnoresSessions(user: Id, students: seq<StudentModel.Student>,
                              a: seq<SessionModel.Session>, b: seq<SessionModel.Session>)
    ensures GetStudentStats(Some(user), students, a).body.stats.currentStreak
         == GetStudentStats(Some(user), students, b).body.stats.currentStreak
  {
  }

  /** Statistics are additive over the log: a longer log adds exactly the newer sessions' counts and sums. */
  lemma {:induction false} StatsAdditive(user: Id, students: seq<StudentModel.Student>,
                                         a: seq<SessionModel.Session>, b: seq<SessionModel.Session>)
    ensures var whole := GetStudentStats(Some(user), students, a + b).body.stats;
      var x := GetStudentStats(Some(user), students, a).body.stats;
      var y := GetStudentStats(Some(user), students, b).body.stats;
      && whole.totalSessions == x.totalSessions + y.totalSessions
      && whole.totalMinutes == x.totalMinutes + y.totalMinutes
      && whole.totalPoints == x.totalPoints + y.totalPoints
  {
    SessionModel.OfStudentAppend(a, b, user);
    SessionModel.SumsAppend(SessionModel.OfStudent(a, user), SessionModel.OfStudent(b, user));
  }

  /** An empty log gives zero totals, and one session adds one, its minutes and its points exactly when it is the caller's. */
  lemma StatsOfOneSession(user: Id, students: seq<StudentModel.Student>, s: SessionModel.Session)
    ensures var none := GetStudentStats(Some(user), students, []).body.stats;
      none.totalSessions == 0 && none.totalMinutes == 0 && none.totalPoints == 0
    ensures var one := GetStudentStats(Some(user), students, [s]).body.stats;
      && one.totalSessions == (if s.studentId == user then 1 else 0)
      && one.totalMinutes == (if s.studentId == user then s.duration else 0)
      && one.totalPoints == (if s.studentId == user then s.pointsEarned else 0)
  {
    assert [s][1..] == [];
    assert SessionModel.OfStudent([s], user) == if s.studentId == user then [s] else [];
    assert SessionModel.SumDuration([s]) == s.duration + SessionModel.SumDuration([]);
    assert SessionModel.SumPoints([s]) == s.pointsEarned + SessionModel.SumPoints([]);
  }

  /** Three sessions of 10, 20 and 30 minutes make 60 minutes, that is one hour. */
  lemma ThreeSessionsMakeAnHour(user: Id, students: seq<StudentModel.Student>, m: ModuleId)
    ensures var log := [SessionModel.Session(1, user, None, m, 10, 0, 0, "", 0),
                        SessionModel.Session(2, user, None, m, 20, 0, 0, "", 0),
                        SessionModel.Session(3, user, None, m, 30, 0, 0, "", 0)];
      && GetStudentStats(Some(user), students, log).body.stats.totalSessions == 3
      && GetStudentStats(Some(user), students, log).body.stats.totalMinutes == 60
  {
    var log := [SessionModel.Session(1, user, None, m, 10, 0, 0, "", 0),
                SessionModel.Session(2, user, None, m, 20, 0, 0, "", 0),
                SessionModel.Session(3, user, None, m, 30, 0, 0, "", 0)];
    assert log[1..][1..][1..] == [];
    assert SessionModel.OfStudent(log, user) == log;
    assert SessionModel.SumDuration(log[1..][1..]) == 30;
    assert SessionModel.SumDuration(log[1..]) == 50;
  }
}
