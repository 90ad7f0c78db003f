/**
  The Student schema (server/models/Student.ts): the learner's identity record,
  its defaults and the 0..5 star bound, plus the lookups the handlers perform
  and the two projections that leave the credentials out of replies.
 */
module StudentModel {
  import opened Common

  datatype Student = Student(
    id: Id,
    name: string,
    avatar: string,
    password: string,
    pinCode: string,
    soundEnabled: bool,
    progressStars: int,
    totalSessions: int,
    totalHours: int,
    currentStreak: int)

  const DefaultAvatar := "🦁"
  const DefaultSoundEnabled := true
  const DefaultProgressStars := 0
  const MaxProgressStars := 5
  const DefaultTotalSessions := 0
  const DefaultTotalHours := 0
  const DefaultCurrentStreak := 0

  /** The schema's validators: name, password and pinCode are required, stars lie in 0..5. */
  predicate Valid(s: Student)
  {
    s.name != "" && s.password != "" && s.pinCode != "" && 0 <= s.progressStars <= MaxProgressStars
  }

  /**
    What every stored student keeps: the credentials and the star bound. The
    name is not included, because the profile update writes it without running
    validators.
   */
  predicate Stored(s: Student)
  {
    s.password != "" && s.pinCode != "" && 0 <= s.progressStars <= MaxProgressStars
  }

  /**
    `new Student({ name, avatar, pinCode, password })` followed by the validation
    of `save()`: an absent avatar takes the lion default, the fields the caller
    does not pass take theirs, and a missing or empty required string is refused.
   */
  function Create(id: Id, name: Option<string>, avatar: Option<string>, password: Option<string>,
                  pinCode: Option<string>)
    : (r: Checked<Student>)
    ensures r.Accepted? <==> TruthyText(name) && TruthyText(password) && TruthyText(pinCode)
    ensures r.Accepted? ==>
      && Valid(r.value)
      && r.value.id == id
      && r.value.name == name.value
      && r.value.avatar == (if avatar.Some? then avatar.value else DefaultAvatar)
      && r.value.password == password.value
      && r.value.pinCode == pinCode.value
      && r.value.soundEnabled == DefaultSoundEnabled
      && r.value.progressStars == DefaultProgressStars
      && r.value.totalSessions == DefaultTotalSessions
      && r.value.totalHours == DefaultTotalHours
      && r.value.currentStreak == DefaultCurrentStreak
  {
    if !TruthyText(name) then Rejected("name")
    else if !TruthyText(password) then Rejected("password")
    else if !TruthyText(pinCode) then Rejected("pinCode")
    else Accepted(Student(
      id, name.value, if avatar.Some? then avatar.value else DefaultAvatar,
      password.value, pinCode.value, DefaultSoundEnabled, DefaultProgressStars,
      DefaultTotalSessions, DefaultTotalHours, DefaultCurrentStreak))
  }

  /** The student object the authentication replies carry. */
  datatype StudentView = StudentView(id: Id, name: string, avatar: string, progressStars: int, soundEnabled: bool)

  function View(s: Student): StudentView
  {
    StudentView(s.id, s.name, s.avatar, s.progressStars, s.soundEnabled)
  }

  /** A stored student as `select("-password -pinCode")` returns it. */
  datatype Profile = Profile(
    id: Id,
    name: string,
    avatar: string,
    soundEnabled: bool,
    progressStars: int,
    totalSessions: int,
    totalHours: int,
    currentStreak: int)

  function ProfileOf(s: Student): Profile
  {
    Profile(s.id, s.name, s.avatar, s.soundEnabled, s.progressStars, s.totalSessions, s.totalHours, s.currentStreak)
  }

  /** Both projections are determined by the non-credential fields: changing the password or PIN changes neither. */
  lemma ProjectionsOmitCredentials(s: Student, password: string, pinCode: string)
    ensures View(s.(password := password, pinCode := pinCode)) == View(s)
    ensures ProfileOf(s.(password := password, pinCode := pinCode)) == ProfileOf(s)
  {
  }

  /** `findById`: the first student with that id. */
  function FindById(ss: seq<Student>, id: Id): (r: Option<Student>)
    ensures r.Some? ==> r.value in ss && r.value.id == id
    ensures r.None? <==> forall s :: s in ss ==> s.id != id
  {
    if ss == [] then None
    else if ss[0].id == id then Some(ss[0])
    else FindById(ss[1..], id)
  }

  /** `findOne({ pinCode })`: the PIN is compared in cleartext; the first match wins. */
  function FindByPin(ss: seq<Student>, pinCode: string): (r: Option<nat>)
    ensures r.Some? ==> r.value < |ss| && ss[r.value].pinCode == pinCode
    ensures r.Some? ==> forall k :: 0 <= k < r.value ==> ss[k].pinCode != pinCode
    ensures r.None? <==> forall k :: 0 <= k < |ss| ==> ss[k].pinCode != pinCode
  {
    if ss == [] then None
    else if ss[0].pinCode == pinCode then Some(0)
    else
      match FindByPin(ss[1..], pinCode)
      case None => None
      case Some(k) => Some(k + 1)
  }

  /** `findByIdAndUpdate`'s target: the position of the first student with that id. */
  function IndexOf(ss: seq<Student>, id: Id): (r: Option<nat>)
    ensures r.Some? ==> r.value < |ss| && ss[r.value].id == id
    ensures r.Some? ==> forall k :: 0 <= k < r.value ==> ss[k].id != id
    ensures r.None? <==> forall k :: 0 <= k < |ss| ==> ss[k].id != id
  {
    if ss == [] then None
    else if ss[0].id == id then Some(0)
    else
      match IndexOf(ss[1..], id)
      case None => None
      case Some(k) => Some(k + 1)
  }

  predicate UniqueIds(ss: seq<Student>)
  {
    forall i, j :: 0 <= i < j < |ss| ==> ss[i].id != ss[j].id
  }

  /** No two students share a PIN. The schema has no unique index on pinCode; only signup's check keeps this. */
  predicate UniquePins(ss: seq<Student>)
  {
    forall i, j :: 0 <= i < j < |ss| ==> ss[i].pinCode != ss[j].pinCode
  }

  /** A fresh id: larger than every stored one (stands for ObjectId generation). */
  function NextId(ss: seq<Student>): (r: Id)
    ensures forall i :: 0 <= i < |ss| ==> ss[i].id < r
  {
    if ss == [] then 0
    else
      var rest := NextId(ss[1..]);
      if ss[0].id + 1 > rest then ss[0].id + 1 else rest
  }
}
