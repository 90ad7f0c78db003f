/**
  The GameProgress schema (server/models/GameProgress.ts): one mutable summary
  per (student, module) pair, with its defaults, the 0..100 accuracy bound, the
  module enumeration and the composite unique index, plus the queries the
  handlers run against the collection.
 */
module GameProgressModel {
  import opened Common
  import opened ModuleEnum

  datatype GameProgress = GameProgress(
    studentId: Id,
    moduleId: ModuleId,
    completed: int,
    total: int,
    accuracy: int,
    timeSpent: int,
    lastPlayedAt: int)

  const DefaultCompleted := 0
  const DefaultTotal := 5
  const DefaultAccuracy := 0
  const DefaultTimeSpent := 0

  /** The `min: 0, max: 100` validators on accuracy. */
  predicate Valid(p: GameProgress)
  {
    0 <= p.accuracy <= 100
  }

  predicate AllValid(ps: seq<GameProgress>)
  {
    forall i :: 0 <= i < |ps| ==> Valid(ps[i])
  }

  /** The unique index on `{ studentId: 1, moduleId: 1 }`. */
  predicate UniquePairs(ps: seq<GameProgress>)
  {
    forall i, j :: 0 <= i < j < |ps| ==>
      ps[i].studentId != ps[j].studentId || ps[i].moduleId != ps[j].moduleId
  }

  /**
    `new GameProgress(fields)` followed by the validation `save()` performs:
    an absent field takes its schema default (`lastPlayedAt` defaults to the
    current time); studentId and moduleId are required, moduleId must be one of
    the enumeration's strings and accuracy must lie in 0..100.
   */
  function Create(studentId: Option<Id>, moduleId: Option<string>, completed: Option<int>,
                  total: Option<int>, accuracy: Option<int>, timeSpent: Option<int>, now: int)
    : (r: Checked<GameProgress>)
    ensures r.Accepted? <==>
      && studentId.Some?
      && moduleId.Some? && Parse(moduleId.value).Some?
      && (accuracy.Some? ==> 0 <= accuracy.value <= 100)
    ensures r.Accepted? ==>
      && Valid(r.value)
      && r.value.studentId == studentId.value
      && Name(r.value.moduleId) == moduleId.value
      && r.value.completed == (if completed.Some? then completed.value else DefaultCompleted)
      && r.value.total == (if total.Some? then total.value else DefaultTotal)
      && r.value.accuracy == (if accuracy.Some? then accuracy.value else DefaultAccuracy)
      && r.value.timeSpent == (if timeSpent.Some? then timeSpent.value else DefaultTimeSpent)
      && r.value.lastPlayedAt == now
  {
    if studentId.None? then Rejected("studentId")
    else if moduleId.None? || Parse(moduleId.value).None? then Rejected("moduleId")
    else
      var acc := if accuracy.Some? then accuracy.value else DefaultAccuracy;
      if !(0 <= acc <= 100) then Rejected("accuracy")
      else Accepted(GameProgress(
        studentId.value,
        Parse(moduleId.value).value,
        if completed.Some? then completed.value else DefaultCompleted,
        if total.Some? then total.value else DefaultTotal,
        acc,
        if timeSpent.Some? then timeSpent.value else DefaultTimeSpent,
        now))
  }

  /** The filter `{ studentId, moduleId }`: an absent moduleId matches no stored record. */
  predicate Matches(p: GameProgress, studentId: Id, moduleId: Option<string>)
  {
    moduleId.Some? && p.studentId == studentId && Name(p.moduleId) == moduleId.value
  }

  /** `findOne({ studentId, moduleId })`: the position of the first matching record. */
  function FindOne(ps: seq<GameProgress>, studentId: Id, moduleId: Option<string>): (r: Option<nat>)
    ensures r.Some? ==> r.value < |ps| && Matches(ps[r.value], studentId, moduleId)
    ensures r.Some? ==> forall k :: 0 <= k < r.value ==> !Matches(ps[k], studentId, moduleId)
    ensures r.None? <==> forall k :: 0 <= k < |ps| ==> !Matches(ps[k], studentId, moduleId)
  {
    if ps == [] then None
    else if Matches(ps[0], studentId, moduleId) then Some(0)
    else
      match FindOne(ps[1..], studentId, moduleId)
      case None => None
      case Some(k) => Some(k + 1)
  }

  /** `find({ studentId })`: that student's records, in storage order. */
  function OfStudent(ps: seq<GameProgress>, studentId: Id): (r: seq<GameProgress>)
    ensures |r| <= |ps|
    ensures forall p :: p in r <==> p in ps && p.studentId == studentId
  {
    if ps == [] then []
    else (if ps[0].studentId == studentId then [ps[0]] else []) + OfStudent(ps[1..], studentId)
  }

  /** Array `find(p => p.moduleId === m)`: the first record of module m. */
  function FindModule(ps: seq<GameProgress>, m: ModuleId): (r: Option<GameProgress>)
    ensures r.Some? ==> r.value in ps && r.value.moduleId == m
    ensures r.None? <==> forall p :: p in ps ==> p.moduleId != m
    ensures r.Some? ==> exists i :: 0 <= i < |ps| && ps[i] == r.value && forall k :: 0 <= k < i ==> ps[k].moduleId != m
  {
    if ps == [] then None
    else if ps[0].moduleId == m then Some(ps[0])
    else
      var rest := FindModule(ps[1..], m);
      assert rest.Some? ==> exists i :: 0 <= i < |ps| && ps[i] == rest.value && forall k :: 0 <= k < i ==> ps[k].moduleId != m by {
        if rest.Some? {
          var i :| 0 <= i < |ps| - 1 && ps[1..][i] == rest.value && forall k :: 0 <= k < i ==> ps[1..][k].moduleId != m;
          assert forall k :: 0 <= k < i + 1 ==> ps[k].moduleId != m by {
            forall k | 0 <= k < i + 1 ensures ps[k].moduleId != m {
              if k > 0 { assert ps[k] == ps[1..][k - 1]; }
            }
          }
        }
      }
      rest
  }

  /** `reduce((sum, p) => sum + p.accuracy, 0)`. */
  function SumAccuracy(ps: seq<GameProgress>): int
  {
    if ps == [] then 0 else ps[0].accuracy + SumAccuracy(ps[1..])
  }

  /** A sum of valid accuracies lies between 0 and 100 per record. */
  lemma {:induction false} SumAccuracyBounds(ps: seq<GameProgress>)
    requires AllValid(ps)
    ensures 0 <= SumAccuracy(ps) <= 100 * |ps|
  {
    if ps != [] {
      SumAccuracyBounds(ps[1..]);
    }
  }

  /** The student filter distributes over concatenation of collections. */
  lemma {:induction false} OfStudentAppend(a: seq<GameProgress>, b: seq<GameProgress>, studentId: Id)
    ensures OfStudent(a + b, studentId) == OfStudent(a, studentId) + OfStudent(b, studentId)
  {
    if a != [] {
      assert (a + b)[1..] == a[1..] + b;
      OfStudentAppend(a[1..], b, studentId);
    } else {
      assert a + b == b;
    }
  }

  /** The filtered records of a valid collection are valid. */
  lemma {:induction false} OfStudentValid(ps: seq<GameProgress>, studentId: Id)
    requires AllValid(ps)
    ensures AllValid(OfStudent(ps, studentId))
  {
    var r := OfStudent(ps, studentId);
    forall i | 0 <= i < |r| ensures Valid(r[i]) {
      assert r[i] in ps;
    }
  }
}
