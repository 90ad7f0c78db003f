/**
  The therapist handlers (server/routes/therapist.ts): the dashboard, the
  assignment of a student, the per-student progress view and the weekly
  report. The last two read `studentId` from the path and consult neither the
  caller's id nor the assignment list: the route's therapist gate is the only
  access control in front of them.
 */
module TherapistRoutes {
  import opened Common
  import opened ModuleEnum
  import StudentModel
  import TherapistModel
  import GameProgressModel
  import SessionModel
  import opened Database

  /**
    A mean reported as `(sum / count).toFixed(2)` when there is data and the
    number 0 when there is none; the division and the formatting are left to
    the reader of the value.
   */
  datatype Average = NoData | Mean(sum: int, count: nat)

  /** A mean of values in 0..100: the sum lies between 0 and 100 per counted value. */
  predicate Percentage(a: Average)
  {
    a.Mean? ==> 0 <= a.sum <= 100 * a.count
  }

  /** The mean accuracy of progress records; valid records give a mean in 0..100. */
  function ProgressAverage(ps: seq<GameProgressModel.GameProgress>): (r: Average)
    ensures r.NoData? <==> ps == []
    ensures r.Mean? ==> r.count == |ps| > 0 && r.sum == GameProgressModel.SumAccuracy(ps)
    ensures GameProgressModel.AllValid(ps) ==> Percentage(r)
  {
    assert GameProgressModel.AllValid(ps) ==> 0 <= GameProgressModel.SumAccuracy(ps) <= 100 * |ps| by {
      if GameProgressModel.AllValid(ps) { GameProgressModel.SumAccuracyBounds(ps); }
    }
    if |ps| > 0 then Mean(GameProgressModel.SumAccuracy(ps), |ps|) else NoData
  }

  /** The mean accuracy of sessions; valid sessions give a mean in 0..100. */
  function SessionAverage(ss: seq<SessionModel.Session>): (r: Average)
    ensures r.NoData? <==> ss == []
    ensures r.Mean? ==> r.count == |ss| > 0 && r.sum == SessionModel.SumAccuracy(ss)
    ensures SessionModel.AllValid(ss) ==> Percentage(r)
  {
    assert SessionModel.AllValid(ss) ==> 0 <= SessionModel.SumAccuracy(ss) <= 100 * |ss| by {
      if SessionModel.AllValid(ss) { SessionModel.SumAccuracyBounds(ss); }
    }
    if |ss| > 0 then Mean(SessionModel.SumAccuracy(ss), |ss|) else NoData
  }

  // ---------------------------------------------------------------- dashboard

  /** One line of `studentProgress`. */
  datatype DashboardEntry<K> = DashboardEntry(
    id: K,
    name: string,
    avatar: string,
    sessionsCompleted: nat,
    avgAccuracy: Average,
    progressPercentage: int)

  /** `student?.progressStars ? (progressStars / 5) * 100 : 0`. */
  function ProgressPercentage(stars: int): (r: int)
    ensures r == stars * 20
    ensures 0 <= stars <= StudentModel.MaxProgressStars ==> 0 <= r <= 100
    ensures stars == StudentModel.MaxProgressStars ==> r == 100
  {
    if stars != 0 then stars * 100 / StudentModel.MaxProgressStars else 0
  }

  /** The dashboard line of one assigned student, keyed by the student's id. */
  function Entry(s: StudentModel.Student, sessions: seq<SessionModel.Session>,
                 progress: seq<GameProgressModel.GameProgress>): DashboardEntry<Id>
  {
    DashboardEntry(s.id, s.name, s.avatar,
                   |SessionModel.OfStudent(sessions, s.id)|,
                   ProgressAverage(GameProgressModel.OfStudent(progress, s.id)),
                   ProgressPercentage(s.progressStars))
  }

  /**
    The line as the handler builds it: after `populate`, the value mapped over
    is the student document itself, so `id` carries the whole record, password
    digest and cleartext PIN included.
   */
  function EntryAsWritten(s: StudentModel.Student, sessions: seq<SessionModel.Session>,
                          progress: seq<GameProgressModel.GameProgress>): (r: DashboardEntry<StudentModel.Student>)
    ensures r.id == s
  {
    var e := Entry(s, sessions, progress);
    DashboardEntry(s, e.name, e.avatar, e.sessionsCompleted, e.avgAccuracy, e.progressPercentage)
  }

  /** As written, two students differing only in their PIN get different dashboard lines: the PIN is in the reply. */
  lemma EntryAsWrittenRevealsPin(s: StudentModel.Student, pinCode: string,
                                 sessions: seq<SessionModel.Session>, progress: seq<GameProgressModel.GameProgress>)
    requires pinCode != s.pinCode
    ensures EntryAsWritten(s.(pinCode := pinCode), sessions, progress).id.pinCode == pinCode
    ensures EntryAsWritten(s.(pinCode := pinCode), sessions, progress) != EntryAsWritten(s, sessions, progress)
  {
    assert EntryAsWritten(s, sessions, progress).id.pinCode == s.pinCode;
  }

  /** The id-keyed line does not depend on the student's credentials. */
  lemma EntryOmitsCredentials(s: StudentModel.Student, password: string, pinCode: string,
                              sessions: seq<SessionModel.Session>, progress: seq<GameProgressModel.GameProgress>)
    ensures Entry(s.(password := password, pinCode := pinCode), sessions, progress) == Entry(s, sessions, progress)
    ensures Entry(s, sessions, progress).id == s.id
  {
  }

  /** The assigned ids whose student still exists, in assignment order: what `populate` leaves. */
  function Existing(ids: seq<Id>, students: seq<StudentModel.Student>): (r: seq<Id>)
    ensures |r| <= |ids|
    ensures forall id :: id in r <==> id in ids && StudentModel.FindById(students, id).Some?
  {
    if ids == [] then []
    else (if StudentModel.FindById(students, ids[0]).Some? then [ids[0]] else []) + Existing(ids[1..], students)
  }

  /** Dropping ids keeps a duplicate-free list duplicate-free. */
  lemma {:induction false} ExistingNoDuplicates(ids: seq<Id>, students: seq<StudentModel.Student>)
    requires TherapistModel.NoDuplicates(ids)
    ensures TherapistModel.NoDuplicates(Existing(ids, students))
  {
    if ids != [] {
      var rest := Existing(ids[1..], students);
      assert TherapistModel.NoDuplicates(ids[1..]) by {
        forall i, j | 0 <= i < j < |ids| - 1 ensures ids[1..][i] != ids[1..][j] {
          assert ids[i + 1] != ids[j + 1];
        }
      }
      ExistingNoDuplicates(ids[1..], students);
      assert ids[0] !in ids[1..] by {
        forall k | 0 <= k < |ids| - 1 ensures ids[1..][k] != ids[0] {
          assert ids[0] != ids[k + 1];
        }
      }
      assert ids[0] !in rest;
    }
  }

  /**
    The lines for the assigned ids, in assignment order: `populate` drops an id
    whose student no longer exists, and each remaining student is mapped to its line.
   */
  function Entries(ids: seq<Id>, students: seq<StudentModel.Student>, sessions: seq<SessionModel.Session>,
                   progress: seq<GameProgressModel.GameProgress>): (r: seq<DashboardEntry<Id>>)
    ensures |r| == |Existing(ids, students)|
    ensures forall k :: 0 <= k < |r| ==>
      StudentModel.FindById(students, Existing(ids, students)[k]).Some?
      && r[k] == Entry(StudentModel.FindById(students, Existing(ids, students)[k]).value, sessions, progress)
      && r[k].id == Existing(ids, students)[k]
  {
    var populated := Existing(ids, students);
    assert forall k :: 0 <= k < |populated| ==> populated[k] in populated;
    seq(|populated|, k requires 0 <= k < |populated| =>
      Entry(StudentModel.FindById(students, populated[k]).value, sessions, progress))
  }

  /** With no id assigned twice, which `$addToSet` keeps, every existing student has exactly one line. */
  lemma OneLinePerStudent(ids: seq<Id>, students: seq<StudentModel.Student>, sessions: seq<SessionModel.Session>,
                          progress: seq<GameProgressModel.GameProgress>)
    requires TherapistModel.NoDuplicates(ids)
    ensures var r := Entries(ids, students, sessions, progress);
      && (forall i, j :: 0 <= i < j < |r| ==> r[i].id != r[j].id)
      && (forall id :: id in ids && StudentModel.FindById(students, id).Some? <==>
            exists k :: 0 <= k < |r| && r[k].id == id)
  {
    var r := Entries(ids, students, sessions, progress);
    var ex := Existing(ids, students);
    ExistingNoDuplicates(ids, students);
    forall id | id in ids && StudentModel.FindById(students, id).Some? ensures exists k :: 0 <= k < |r| && r[k].id == id {
      var k :| 0 <= k < |ex| && ex[k] == id;
      assert r[k].id == id;
    }
    forall id | exists k :: 0 <= k < |r| && r[k].id == id ensures id in ids && StudentModel.FindById(students, id).Some? {
      var k :| 0 <= k < |r| && r[k].id == id;
      assert ex[k] in ex;
    }
  }

  /** One line of `recentSessions`: the student's name and avatar come from `populate`, absent when the student is gone. */
  datatype RecentSession = RecentSession(
    id: Id,
    studentName: Option<string>,
    studentAvatar: Option<string>,
    moduleId: ModuleId,
    duration: int,
    accuracy: int,
    createdAt: int)

  function Recent(s: SessionModel.Session, students: seq<StudentModel.Student>): RecentSession
  {
    var st := StudentModel.FindById(students, s.studentId);
    RecentSession(s.id, if st.Some? then Some(st.value.name) else None,
                  if st.Some? then Some(st.value.avatar) else None,
                  s.moduleId, s.duration, s.accuracy, s.createdAt)
  }

  function RecentAll(ss: seq<SessionModel.Session>, students: seq<StudentModel.Student>): (r: seq<RecentSession>)
    ensures |r| == |ss|
    ensures forall i :: 0 <= i < |ss| ==> r[i] == Recent(ss[i], students)
  {
    if ss == [] then [] else [Recent(ss[0], students)] + RecentAll(ss[1..], students)
  }

  /** `sort({ createdAt: -1 })`: newest first. */
  predicate NewestFirst(ss: seq<SessionModel.Session>)
  {
    forall i, j :: 0 <= i < j < |ss| ==> ss[i].createdAt >= ss[j].createdAt
  }

  /** In a newest-first list, nothing after the head is newer than the head. */
  lemma HeadIsLatest(ss: seq<SessionModel.Session>)
    requires NewestFirst(ss) && ss != []
    ensures forall y :: y in ss ==> y.createdAt <= ss[0].createdAt
  {
    forall y | y in ss ensures y.createdAt <= ss[0].createdAt {
      var j :| 0 <= j < |ss| && ss[j] == y;
    }
  }

  /** Putting a session no older than every element in front keeps a list newest first. */
  lemma PrependLatest(x: SessionModel.Session, ss: seq<SessionModel.Session>)
    requires NewestFirst(ss)
    requires forall y :: y in ss ==> y.createdAt <= x.createdAt
    ensures NewestFirst([x] + ss)
  {
    forall i, j | 0 <= i < j < |[x] + ss| ensures ([x] + ss)[i].createdAt >= ([x] + ss)[j].createdAt {
      if i == 0 {
        assert ([x] + ss)[j] in ss;
      }
    }
  }

  function InsertByAge(x: SessionModel.Session, ss: seq<SessionModel.Session>): (r: seq<SessionModel.Session>)
    requires NewestFirst(ss)
    ensures NewestFirst(r)
    ensures multiset(r) == multiset(ss) + multiset{x}
    ensures forall y :: y in r ==> y in ss || y == x
  {
    if ss == [] then [x]
    else
      HeadIsLatest(ss);
      if x.createdAt >= ss[0].createdAt then
        PrependLatest(x, ss);
        [x] + ss
      else
        var rest := InsertByAge(x, ss[1..]);
        assert ss == [ss[0]] + ss[1..];
        PrependLatest(ss[0], rest);
        [ss[0]] + rest
  }

  function SortByAge(ss: seq<SessionModel.Session>): (r: seq<SessionModel.Session>)
    ensures NewestFirst(r)
    ensures multiset(r) == multiset(ss)
  {
    if ss == [] then []
    else
      assert ss == [ss[0]] + ss[1..];
      InsertByAge(ss[0], SortByAge(ss[1..]))
  }

  /** Cutting a newest-first sequence anywhere leaves nothing in the tail newer than anything in the head. */
  lemma HeadIsNewest(sorted: seq<SessionModel.Session>, k: nat)
    requires NewestFirst(sorted) && k <= |sorted|
    ensures forall x, y :: x in multiset(sorted) - multiset(sorted[..k]) && y in sorted[..k] ==> x.createdAt <= y.createdAt
  {
    assert sorted == sorted[..k] + sorted[k..];
    forall x, y | x in multiset(sorted) - multiset(sorted[..k]) && y in sorted[..k]
      ensures x.createdAt <= y.createdAt
    {
      assert x in multiset(sorted[k..]);
      var j :| k <= j < |sorted| && sorted[j] == x;
      var i :| 0 <= i < k && sorted[i] == y;
    }
  }

  /** `sort({ createdAt: -1 }).limit(n)`: the n newest, newest first. */
  function Newest(ss: seq<SessionModel.Session>, n: nat): (r: seq<SessionModel.Session>)
    ensures |r| == if |ss| < n then |ss| else n
    ensures NewestFirst(r)
    ensures multiset(r) <= multiset(ss)
    ensures forall x, y :: x in multiset(ss) - multiset(r) && y in r ==> x.createdAt <= y.createdAt
  {
    var sorted := SortByAge(ss);
    assert |sorted| == |multiset(sorted)| == |ss|;
    var k := if |ss| < n then |ss| else n;
    HeadIsNewest(sorted, k);
    assert sorted == sorted[..k] + sorted[k..];
    sorted[..k]
  }

  const RecentLimit := 10

  datatype TherapistSummary = TherapistSummary(id: Id, name: string, email: string)

  datatype Dashboard = Dashboard(
    therapist: TherapistSummary,
    studentProgress: seq<DashboardEntry<Id>>,
    recentSessions: seq<RecentSession>)

  /** `getTherapistDashboard`, with the lines keyed by id (see EntryAsWritten for the handler's own key). */
  function GetTherapistDashboard(user: Option<Id>, therapists: seq<TherapistModel.Therapist>,
                                 students: seq<StudentModel.Student>, sessions: seq<SessionModel.Session>,
                                 progress: seq<GameProgressModel.GameProgress>)
    : (r: Response<Dashboard>)
    ensures user.None? ==> r == Failure(401, "Unauthorized")
    ensures user.Some? ==> (r.Failure? <==> TherapistModel.IndexOf(therapists, user.value).None?)
    ensures user.Some? && r.Failure? ==> r == Failure(404, "Therapist not found")
    ensures r.Reply? ==>
      var t := therapists[TherapistModel.IndexOf(therapists, user.value).value];
      && r.status == 200
      && r.body.therapist == TherapistSummary(t.id, t.name, t.email)
      && r.body.studentProgress == Entries(t.assignedStudents, students, sessions, progress)
      && r.body.recentSessions == RecentAll(Newest(SessionModel.OfTherapist(sessions, t.id), RecentLimit), students)
      && |r.body.studentProgress| <= |t.assignedStudents|
      && |r.body.recentSessions| <= RecentLimit
  {
    if user.None? then Failure(401, "Unauthorized")
    else
      match TherapistModel.IndexOf(therapists, user.value)
      case None => Failure(404, "Therapist not found")
      case Some(i) =>
        var t := therapists[i];
        Reply(200, Dashboard(
          TherapistSummary(t.id, t.name, t.email),
          Entries(t.assignedStudents, students, sessions, progress),
          RecentAll(Newest(SessionModel.OfTherapist(sessions, t.id), RecentLimit), students)))
  }

  /** Every recent line is one of the therapist's sessions, and no session of theirs left out is newer than one shown. */
  lemma RecentAreNewest(t: Id, sessions: seq<SessionModel.Session>)
    ensures var shown := Newest(SessionModel.OfTherapist(sessions, t), RecentLimit);
      && (forall s :: s in shown ==> s in sessions && s.therapistId == Some(t))
      && (forall s, u :: s in sessions && s.therapistId == Some(t) && s !in shown && u in shown ==> s.createdAt <= u.createdAt)
  {
    var mine := SessionModel.OfTherapist(sessions, t);
    var shown := Newest(mine, RecentLimit);
    forall s | s in shown ensures s in sessions && s.therapistId == Some(t) {
      assert s in multiset(shown);
      assert s in multiset(mine);
    }
    forall s, u | s in sessions && s.therapistId == Some(t) && s !in shown && u in shown
      ensures s.createdAt <= u.createdAt
    {
      assert s in multiset(mine);
      assert s !in multiset(shown);
      assert s in multiset(mine) - multiset(shown);
    }
  }

  /** Dashboard figures stay in range: percentages in 0..100 and accuracy means of valid records. */
  lemma {:induction false} EntriesInRange(ids: seq<Id>, students: seq<StudentModel.Student>,
                                          sessions: seq<SessionModel.Session>,
                                          progress: seq<GameProgressModel.GameProgress>)
    requires StudentsOk(students) && ProgressOk(progress)
    ensures forall e :: e in Entries(ids, students, sessions, progress) ==>
      0 <= e.progressPercentage <= 100 && Percentage(e.avgAccuracy)
  {
    var r := Entries(ids, students, sessions, progress);
    var ex := Existing(ids, students);
    forall e | e in r
      ensures 0 <= e.progressPercentage <= 100 && Percentage(e.avgAccuracy)
    {
      var k :| 0 <= k < |r| && r[k] == e;
      var s := StudentModel.FindById(students, ex[k]).value;
      assert StudentModel.Stored(s);
      GameProgressModel.OfStudentValid(progress, s.id);
    }
  }

  // ---------------------------------------------------------------- assignment

  /** `$addToSet`: append the value unless it is already present. */
  function AddToSet(xs: seq<Id>, x: Id): (r: seq<Id>)
    ensures forall y :: y in r <==> y in xs || y == x
    ensures |xs| <= |r| <= |xs| + 1 && r[..|xs|] == xs
    ensures TherapistModel.NoDuplicates(xs) ==> TherapistModel.NoDuplicates(r)
  {
    if x in xs then xs else xs + [x]
  }

  /** Assigning twice is assigning once. */
  lemma AddToSetIdempotent(xs: seq<Id>, x: Id)
    ensures AddToSet(AddToSet(xs, x), x) == AddToSet(xs, x)
  {
  }

  /**
    `assignStudent`: `findByIdAndUpdate` with `$addToSet` and the new document
    returned, as is, to the caller; a missing therapist gives 200 with null.
    The student id is not checked against the student collection. An absent
    `studentId` leaves an empty update, which changes nothing.
   */
  method AssignStudent(db: Store, user: Option<Id>, studentId: Option<Id>)
    returns (r: Response<Option<TherapistModel.Therapist>>)
    requires db.Valid()
    modifies db
    ensures db.Valid()
    ensures db.students == old(db.students) && db.progress == old(db.progress)
    ensures user.None? ==> r == Failure(401, "Unauthorized") && db.therapists == old(db.therapists)
    ensures user.Some? && TherapistModel.IndexOf(old(db.therapists), user.value).None? ==>
      r == Reply(200, None) && db.therapists == old(db.therapists)
    ensures user.Some? && TherapistModel.IndexOf(old(db.therapists), user.value).Some? ==>
      var i := TherapistModel.IndexOf(old(db.therapists), user.value).value;
      var t := old(db.therapists)[i];
      var list := if studentId.Some? then AddToSet(t.assignedStudents, studentId.value) else t.assignedStudents;
      && db.therapists == old(db.therapists)[i := t.(assignedStudents := list)]
      && r == Reply(200, Some(db.therapists[i]))
  {
    if user.None? {
      return Failure(401, "Unauthorized");
    }
    var found := TherapistModel.IndexOf(db.therapists, user.value);
    if found.None? {
      return Reply(200, None);
    }
    var i := found.value;
    var t := db.therapists[i];
    if studentId.Some? {
      t := t.(assignedStudents := AddToSet(t.assignedStudents, studentId.value));
    }
    db.therapists := db.therapists[i := t];
    r := Reply(200, Some(t));
  }

  // ---------------------------------------------------------------- student progress

  /** One `skillsProgress` line; the emoji is left out. */
  datatype Skill = Skill(name: string, progress: int)

  /** The four skill labels and the module each one reads. */
  const SkillAreas: seq<(string, ModuleId)> := [
    ("Communication", SocialCommunication),
    ("Focus & Attention", ExecutiveFunction),
    ("Motor Skills", EmotionalRecognition),
    ("Social Interaction", TheoryOfMind)
  ]

  /** `progress.find(p => p.moduleId === m)?.accuracy || 0`. */
  function SkillScore(ps: seq<GameProgressModel.GameProgress>, m: ModuleId): (r: int)
    ensures GameProgressModel.FindModule(ps, m).None? ==> r == 0
    ensures GameProgressModel.FindModule(ps, m).Some? ==> r == GameProgressModel.FindModule(ps, m).value.accuracy
    ensures GameProgressModel.AllValid(ps) ==> 0 <= r <= 100
  {
    match GameProgressModel.FindModule(ps, m)
    case None => 0
    case Some(p) =>
      assert GameProgressModel.AllValid(ps) ==> GameProgressModel.Valid(p);
      NumberOr(Some(p.accuracy), 0)
  }

  function Skills(ps: seq<GameProgressModel.GameProgress>): (r: seq<Skill>)
    ensures |r| == |SkillAreas|
    ensures forall k :: 0 <= k < |SkillAreas| ==>
      r[k] == Skill(SkillAreas[k].0, SkillScore(ps, SkillAreas[k].1))
  {
    seq(|SkillAreas|, k requires 0 <= k < |SkillAreas| => Skill(SkillAreas[k].0, SkillScore(ps, SkillAreas[k].1)))
  }

  /** The module each skill line reads, in line order. */
  function SkillModules(): (r: seq<ModuleId>)
    ensures |r| == |SkillAreas|
    ensures forall k :: 0 <= k < |r| ==> r[k] == SkillAreas[k].1
  {
    seq(|SkillAreas|, k requires 0 <= k < |SkillAreas| => SkillAreas[k].1)
  }

  /** The skill lines cover each module exactly once. */
  lemma SkillAreasCoverModules()
    ensures forall m: ModuleId :: m in SkillModules()
    ensures forall i, j :: 0 <= i < j < |SkillModules()| ==> SkillModules()[i] != SkillModules()[j]
  {
    var ms := SkillModules();
    assert ms[0] == SocialCommunication && ms[1] == ExecutiveFunction;
    assert ms[2] == EmotionalRecognition && ms[3] == TheoryOfMind;
    forall m: ModuleId ensures m in ms {
      var k := match m
        case SocialCommunication => 0
        case ExecutiveFunction => 1
        case EmotionalRecognition => 2
        case TheoryOfMind => 3;
      assert ms[k] == m;
    }
  }

  /** `sessions.slice(-n)`: the last n, or all of them when there are fewer. */
  function LastOf(ss: seq<SessionModel.Session>, n: nat): (r: seq<SessionModel.Session>)
    ensures |r| == if |ss| < n then |ss| else n
    ensures ss == ss[..|ss| - |r|] + r
  {
    if |ss| <= n then ss else ss[|ss| - n..]
  }

  const SessionWindow := 20

  datatype StudentProgressView = StudentProgressView(
    moduleProgress: seq<GameProgressModel.GameProgress>,
    sessions: seq<SessionModel.Session>,
    skillsProgress: seq<Skill>)

  /** `getStudentProgress` on the therapist side. */
  function GetAssignedStudentProgress(studentId: Id, sessions: seq<SessionModel.Session>,
                                      progress: seq<GameProgressModel.GameProgress>)
    : (r: Response<StudentProgressView>)
    ensures r.Reply? && r.status == 200
    ensures forall p :: p in r.body.moduleProgress <==> p in progress && p.studentId == studentId
    ensures |r.body.sessions| <= SessionWindow
    ensures forall s :: s in r.body.sessions ==> s in sessions && s.studentId == studentId
    ensures r.body.moduleProgress == GameProgressModel.OfStudent(progress, studentId)
    ensures r.body.sessions == LastOf(SessionModel.OfStudent(sessions, studentId), SessionWindow)
    ensures r.body.skillsProgress == Skills(GameProgressModel.OfStudent(progress, studentId))
    ensures |r.body.skillsProgress| == |SkillAreas|
    ensures ProgressOk(progress) ==> forall k :: 0 <= k < |r.body.skillsProgress| ==> 0 <= r.body.skillsProgress[k].progress <= 100
  {
    var mine := GameProgressModel.OfStudent(progress, studentId);
    var theirs := SessionModel.OfStudent(sessions, studentId);
    var last := LastOf(theirs, SessionWindow);
    assert forall s :: s in last ==> s in theirs;
    assert ProgressOk(progress) ==> GameProgressModel.AllValid(mine) by {
      if ProgressOk(progress) { GameProgressModel.OfStudentValid(progress, studentId); }
    }
    Reply(200, StudentProgressView(mine, last, Skills(mine)))
  }

  /** The view shows the most recent sessions: when the student has more than the window, the older ones are the ones dropped. */
  lemma ViewKeepsLatest(studentId: Id, sessions: seq<SessionModel.Session>, progress: seq<GameProgressModel.GameProgress>)
    ensures var theirs := SessionModel.OfStudent(sessions, studentId);
      var shown := GetAssignedStudentProgress(studentId, sessions, progress).body.sessions;
      && |shown| == (if |theirs| < SessionWindow then |theirs| else SessionWindow)
      && shown == theirs[|theirs| - |shown|..]
  {
    var theirs := SessionModel.OfStudent(sessions, studentId);
    var shown := LastOf(theirs, SessionWindow);
    assert theirs[|theirs| - |shown|..] == shown;
  }

  // ---------------------------------------------------------------- weekly report

  /** `7 * 24 * 60 * 60 * 1000` milliseconds. */
  const WeekMs := 7 * 24 * 60 * 60 * 1000

  /** One `moduleBreakdown` line; the reply names the first field `module`. */
  datatype ModuleLine = ModuleLine(moduleId: ModuleId, completed: int, accuracy: int)

  /** The report; the `week` label is left out and `timestamp` is the clock reading. */
  datatype WeeklyReport = WeeklyReport(
    studentName: Option<string>,
    sessionsThisWeek: nat,
    totalMinutes: int,
    averageAccuracy: Average,
    moduleBreakdown: seq<ModuleLine>,
    timestamp: int)

  function Breakdown(ps: seq<GameProgressModel.GameProgress>): (r: seq<ModuleLine>)
    ensures |r| == |ps|
    ensures forall i :: 0 <= i < |ps| ==> r[i] == ModuleLine(ps[i].moduleId, ps[i].completed, ps[i].accuracy)
  {
    if ps == [] then [] else [ModuleLine(ps[0].moduleId, ps[0].completed, ps[0].accuracy)] + Breakdown(ps[1..])
  }

  /** The student's sessions the report counts: those of the last week, the bound included. */
  function WeekOf(sessions: seq<SessionModel.Session>, studentId: Id, now: int): seq<SessionModel.Session>
  {
    SessionModel.OfStudentSince(sessions, studentId, now - WeekMs)
  }

  /** `generateWeeklyReport` at clock reading `now` (milliseconds). */
  function GenerateWeeklyReport(studentId: Id, students: seq<StudentModel.Student>,
                                sessions: seq<SessionModel.Session>, progress: seq<GameProgressModel.GameProgress>,
                                now: int)
    : (r: Response<WeeklyReport>)
    ensures r.Reply? && r.status == 200
    ensures var student := StudentModel.FindById(students, studentId);
      r.body.studentName == if student.Some? then Some(student.value.name) else None
    ensures forall s :: s in WeekOf(sessions, studentId, now) <==>
      s in sessions && s.studentId == studentId && now - WeekMs <= s.createdAt
    ensures r.body.sessionsThisWeek == |WeekOf(sessions, studentId, now)|
    ensures r.body.totalMinutes == SessionModel.SumDuration(WeekOf(sessions, studentId, now))
    ensures r.body.averageAccuracy.NoData? <==> r.body.sessionsThisWeek == 0
    ensures r.body.sessionsThisWeek > 0 ==>
      r.body.averageAccuracy == Mean(SessionModel.SumAccuracy(WeekOf(sessions, studentId, now)), r.body.sessionsThisWeek)
    ensures SessionModel.AllValid(sessions) ==> Percentage(r.body.averageAccuracy)
    ensures r.body.moduleBreakdown == Breakdown(GameProgressModel.OfStudent(progress, studentId))
    ensures r.body.timestamp == now
  {
    var student := StudentModel.FindById(students, studentId);
    var week := WeekOf(sessions, studentId, now);
    assert SessionModel.AllValid(sessions) ==> SessionModel.AllValid(week) by {
      if SessionModel.AllValid(sessions) {
        SessionModel.OfStudentSinceValid(sessions, studentId, now - WeekMs);
      }
    }
    Reply(200, WeeklyReport(
      if student.Some? then Some(student.value.name) else None,
      |week|,
      SessionModel.SumDuration(week),
      SessionAverage(week),
      Breakdown(GameProgressModel.OfStudent(progress, studentId)),
      now))
  }

  /** The report's counts and sums add over a log split in two. */
  lemma {:induction false} WeekTotalsAdd(studentId: Id, students: seq<StudentModel.Student>,
                                         a: seq<SessionModel.Session>, b: seq<SessionModel.Session>,
                                         progress: seq<GameProgressModel.GameProgress>, now: int)
    ensures var whole := GenerateWeeklyReport(studentId, students, a + b, progress, now).body;
      var x := GenerateWeeklyReport(studentId, students, a, progress, now).body;
      var y := GenerateWeeklyReport(studentId, students, b, progress, now).body;
      && whole.sessionsThisWeek == x.sessionsThisWeek + y.sessionsThisWeek
      && whole.totalMinutes == x.totalMinutes + y.totalMinutes
      && SessionModel.SumAccuracy(WeekOf(a + b, studentId, now))
         == SessionModel.SumAccuracy(WeekOf(a, studentId, now)) + SessionModel.SumAccuracy(WeekOf(b, studentId, now))
  {
    SessionModel.OfStudentSinceAppend(a, b, studentId, now - WeekMs);
    SessionModel.SumsAppend(WeekOf(a, studentId, now), WeekOf(b, studentId, now));
  }

  /** A session of another student, or one older than a week, leaves the report unchanged. */
  lemma OtherSessionsIgnored(studentId: Id, students: seq<StudentModel.Student>, sessions: seq<SessionModel.Session>,
                             s: SessionModel.Session, progress: seq<GameProgressModel.GameProgress>, now: int)
    requires s.studentId != studentId || s.createdAt < now - WeekMs
    ensures GenerateWeeklyReport(studentId, students, sessions + [s], progress, now)
         == GenerateWeeklyReport(studentId, students, sessions, progress, now)
  {
    SessionModel.OfStudentSinceAppend(sessions, [s], studentId, now - WeekMs);
    assert [s][1..] == [];
    assert SessionModel.OfStudentSince([s], studentId, now - WeekMs) == [];
    assert WeekOf(sessions, studentId, now) + [] == WeekOf(sessions, studentId, now);
    assert WeekOf(sessions + [s], studentId, now) == WeekOf(sessions, studentId, now);
  }

  /** A session of the student within the week counts once, with its minutes and its accuracy. */
  lemma NewSessionCounted(studentId: Id, students: seq<StudentModel.Student>, sessions: seq<SessionModel.Session>,
                          s: SessionModel.Session, progress: seq<GameProgressModel.GameProgress>, now: int)
    requires s.studentId == studentId && now - WeekMs <= s.createdAt
    ensures var before := GenerateWeeklyReport(studentId, students, sessions, progress, now).body;
      var after := GenerateWeeklyReport(studentId, students, sessions + [s], progress, now).body;
      && after.sessionsThisWeek == before.sessionsThisWeek + 1
      && after.totalMinutes == before.totalMinutes + s.duration
      && after.averageAccuracy
         == Mean(SessionModel.SumAccuracy(WeekOf(sessions, studentId, now)) + s.accuracy, before.sessionsThisWeek + 1)
  {
    WeekTotalsAdd(studentId, students, sessions, [s], progress, now);
    assert [s][1..] == [];
    assert WeekOf([s], studentId, now) == [s];
    assert SessionModel.SumDuration([s]) == s.duration + SessionModel.SumDuration([]);
    assert SessionModel.SumAccuracy([s]) == s.accuracy + SessionModel.SumAccuracy([]);
  }

  /** The window is inclusive: a session exactly a week old is counted, one a millisecond older is not. */
  lemma WeekBoundary(s: SessionModel.Session, students: seq<StudentModel.Student>,
                     progress: seq<GameProgressModel.GameProgress>, now: int)
    ensures s.createdAt == now - WeekMs ==>
      GenerateWeeklyReport(s.studentId, students, [s], progress, now).body.sessionsThisWeek == 1
    ensures s.createdAt == now - WeekMs - 1 ==>
      GenerateWeeklyReport(s.studentId, students, [s], progress, now).body.sessionsThisWeek == 0
  {
    assert [s][1..] == [];
  }

  /** Eight days ago is outside the report and six days ago inside it, whatever the session's content. */
  lemma EightDaysOutSixDaysIn(old8: SessionModel.Session, new6: SessionModel.Session,
                              students: seq<StudentModel.Student>, progress: seq<GameProgressModel.GameProgress>,
                              now: int)
    requires old8.studentId == new6.studentId
    requires old8.createdAt == now - 8 * 24 * 60 * 60 * 1000
    requires new6.createdAt == now - 6 * 24 * 60 * 60 * 1000
    ensures var r := GenerateWeeklyReport(old8.studentId, students, [old8, new6], progress, now).body;
      r.sessionsThisWeek == 1 && r.totalMinutes == new6.duration
  {
    var week := SessionModel.OfStudentSince([old8, new6], old8.studentId, now - WeekMs);
    assert [old8, new6][1..] == [new6];
    assert [new6][1..] == [];
    assert week == [new6];
    assert SessionModel.SumDuration([new6]) == new6.duration + SessionModel.SumDuration([]);
  }

  /** The module breakdown lists all of the student's records, whatever the window: it does not depend on the clock. */
  lemma BreakdownIgnoresWindow(studentId: Id, students: seq<StudentModel.Student>,
                               sessions: seq<SessionModel.Session>, progress: seq<GameProgressModel.GameProgress>,
                               t1: int, t2: int)
    ensures GenerateWeeklyReport(studentId, students, sessions, progress, t1).body.moduleBreakdown
         == GenerateWeeklyReport(studentId, students, sessions, progress, t2).body.moduleBreakdown
  {
  }
}
