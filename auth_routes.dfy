/**
  The four authentication handlers (server/routes/auth.ts). Sign-ups check that
  the credential is free and then append one record; logins are lookups. Replies
  carry a signed `{ id, type }` token and a projection of the record that leaves
  the password digest and the PIN out.

  As written, the student PIN is stored and looked up in cleartext; the digest
  of the PIN kept in `password` is never consulted by the student login.
 */
module AuthRoutes {
  import opened Common
  import opened Crypto
  import StudentModel
  import TherapistModel
  import opened Database

  datatype StudentAuth = StudentAuth(token: string, student: StudentModel.StudentView)

  datatype TherapistAuth = TherapistAuth(token: string, therapist: TherapistModel.TherapistView)

  /** The reply for a student found or created: a student token and the public fields. */
  function StudentReply(s: StudentModel.Student, ts: TokenService): StudentAuth
  {
    StudentAuth(ts.sign(Claims(s.id, StudentKind)), StudentModel.View(s))
  }

  function TherapistReply(t: TherapistModel.Therapist, ts: TokenService): TherapistAuth
  {
    TherapistAuth(ts.sign(Claims(t.id, TherapistKind)), TherapistModel.View(t))
  }

  /** `studentLogin`: the PIN alone identifies the student. */
  function StudentLogin(students: seq<StudentModel.Student>, pinCode: Option<string>, ts: TokenService)
    : (r: Response<StudentAuth>)
    ensures !TruthyText(pinCode) ==> r == Failure(400, "PIN code required")
    ensures TruthyText(pinCode) ==>
      (r.Reply? <==> exists k :: 0 <= k < |students| && students[k].pinCode == pinCode.value)
    ensures TruthyText(pinCode) && r.Failure? ==> r == Failure(401, "Invalid PIN code")
    ensures r.Reply? ==>
      && r.status == 200
      && exists k :: 0 <= k < |students| && students[k].pinCode == pinCode.value
           && r.body == StudentReply(students[k], ts)
  {
    if !TruthyText(pinCode) then Failure(400, "PIN code required")
    else
      match StudentModel.FindByPin(students, pinCode.value)
      case None => Failure(401, "Invalid PIN code")
      case Some(k) => Reply(200, StudentReply(students[k], ts))
  }

  /** With PINs unique, a login by a stored student's PIN answers for exactly that student. */
  lemma StudentLoginFindsOwner(students: seq<StudentModel.Student>, k: nat, ts: TokenService)
    requires StudentModel.UniquePins(students)
    requires k < |students| && students[k].pinCode != ""
    ensures StudentLogin(students, Some(students[k].pinCode), ts) == Reply(200, StudentReply(students[k], ts))
  {
    var found := StudentModel.FindByPin(students, students[k].pinCode);
    assert found.Some?;
  }

  /** Appending a stored student with a fresh id and an unused PIN keeps the collection's invariants. */
  lemma StudentAppended(before: seq<StudentModel.Student>, s: StudentModel.Student)
    requires StudentsOk(before) && StudentModel.Stored(s)
    requires forall i :: 0 <= i < |before| ==> before[i].id < s.id
    requires forall i :: 0 <= i < |before| ==> before[i].pinCode != s.pinCode
    ensures StudentsOk(before + [s])
    ensures (before + [s])[..|before|] == before
  {
    var after := before + [s];
    assert after[..|before|] == before;
    forall i | 0 <= i < |after| ensures StudentModel.Stored(after[i]) {
      if i < |before| {
        assert after[i] == before[i];
      }
    }
  }

  /** `studentSignup`. */
  method StudentSignup(db: Store, name: Option<string>, avatar: Option<string>, pinCode: Option<string>,
                       hasher: PasswordHasher, ts: TokenService)
    returns (r: Response<StudentAuth>)
    requires db.Valid()
    modifies db
    ensures db.Valid()
    ensures db.therapists == old(db.therapists) && db.progress == old(db.progress)
    ensures !TruthyText(name) || !TruthyText(pinCode) ==>
      r == Failure(400, "Name and PIN code required") && db.students == old(db.students)
    ensures TruthyText(name) && TruthyText(pinCode) && StudentModel.FindByPin(old(db.students), pinCode.value).Some? ==>
      r == Failure(400, "PIN code already in use") && db.students == old(db.students)
    ensures r.Failure? ==> db.students == old(db.students)
    ensures r.Reply? <==>
      TruthyText(name) && TruthyText(pinCode) && StudentModel.FindByPin(old(db.students), pinCode.value).None?
      && hasher.hash(pinCode.value) != ""
    ensures r.Reply? ==>
      && |db.students| == |old(db.students)| + 1
      && db.students[..|old(db.students)|] == old(db.students)
      && var s := db.students[|old(db.students)|];
      && s.name == name.value
      && s.pinCode == pinCode.value
      && s.password == hasher.hash(pinCode.value)
      && s.avatar == TextOr(avatar, StudentModel.DefaultAvatar)
      && s.progressStars == 0 && s.soundEnabled
      && r == Reply(201, StudentReply(s, ts))
      && StudentLogin(db.students, pinCode, ts) == Reply(200, StudentReply(s, ts))
  {
    if !TruthyText(name) || !TruthyText(pinCode) {
      return Failure(400, "Name and PIN code required");
    }
    if StudentModel.FindByPin(db.students, pinCode.value).Some? {
      return Failure(400, "PIN code already in use");
    }
    var id := StudentModel.NextId(db.students);
    var doc := StudentModel.Create(id, name, Some(TextOr(avatar, StudentModel.DefaultAvatar)),
                                   Some(hasher.hash(pinCode.value)), pinCode);
    if doc.Rejected? {
      return Failure(500, "Signup failed");
    }
    var student := doc.value;
    ghost var before := db.students;
    StudentAppended(before, student);
    db.students := db.students + [student];
    StudentLoginFindsOwner(db.students, |before|, ts);
    r := Reply(201, StudentReply(student, ts));
  }

  /** `therapistLogin`: an unknown address and a wrong password get the same reply. */
  function TherapistLogin(therapists: seq<TherapistModel.Therapist>, email: Option<string>, password: Option<string>,
                          hasher: PasswordHasher, ts: TokenService)
    : (r: Response<TherapistAuth>)
    ensures !TruthyText(email) || !TruthyText(password) ==> r == Failure(400, "Email and password required")
    ensures TruthyText(email) && TruthyText(password) && r.Failure? ==> r == Failure(401, "Invalid credentials")
    ensures TruthyText(email) && (forall t :: t in therapists ==> t.email != Lower(email.value)) ==> r.Failure?
    ensures TruthyText(email) && TruthyText(password) && TherapistModel.FindByEmail(therapists, email.value).Some?
            && hasher.compare(password.value, TherapistModel.FindByEmail(therapists, email.value).value.password) ==>
      r == Reply(200, TherapistReply(TherapistModel.FindByEmail(therapists, email.value).value, ts))
    ensures TruthyText(email) && TruthyText(password) ==>
      (r.Reply? <==> TherapistModel.FindByEmail(therapists, email.value).Some?
                     && hasher.compare(password.value, TherapistModel.FindByEmail(therapists, email.value).value.password))
    ensures r.Reply? ==>
      && r.status == 200
      && exists t :: t in therapists && t.email == Lower(email.value) && hasher.compare(password.value, t.password)
           && r.body == TherapistReply(t, ts)
  {
    if !TruthyText(email) || !TruthyText(password) then Failure(400, "Email and password required")
    else
      match TherapistModel.FindByEmail(therapists, email.value)
      case None => Failure(401, "Invalid credentials")
      case Some(t) =>
        if !hasher.compare(password.value, t.password) then Failure(401, "Invalid credentials")
        else Reply(200, TherapistReply(t, ts))
  }

  /** With addresses unique, the account holding an address is the one the login consults. */
  lemma FindByEmailUnique(therapists: seq<TherapistModel.Therapist>, k: nat, email: string)
    requires TherapistModel.UniqueEmails(therapists)
    requires k < |therapists| && therapists[k].email == Lower(email)
    ensures TherapistModel.FindByEmail(therapists, email) == Some(therapists[k])
    decreases k
  {
    if k > 0 {
      assert therapists[0].email != therapists[k].email;
      assert TherapistModel.UniqueEmails(therapists[1..]) by {
        forall i, j | 0 <= i < j < |therapists| - 1 ensures therapists[1..][i].email != therapists[1..][j].email {
          assert therapists[i + 1].email != therapists[j + 1].email;
        }
      }
      FindByEmailUnique(therapists[1..], k - 1, email);
    }
  }

  /** Appending a valid therapist with a fresh id and an unused address keeps the collection's invariants, and the address then leads to that record. */
  lemma TherapistAppended(before: seq<TherapistModel.Therapist>, t: TherapistModel.Therapist, email: string)
    requires TherapistsOk(before)
    requires TherapistModel.Valid(t) && t.assignedStudents == [] && t.email == Lower(email)
    requires forall i :: 0 <= i < |before| ==> before[i].id < t.id
    requires forall i :: 0 <= i < |before| ==> before[i].email != t.email
    ensures TherapistsOk(before + [t])
    ensures (before + [t])[..|before|] == before
    ensures TherapistModel.FindByEmail(before + [t], email) == Some(t)
  {
    var after := before + [t];
    assert after[..|before|] == before;
    forall i | 0 <= i < |after|
      ensures TherapistModel.Valid(after[i]) && TherapistModel.NoDuplicates(after[i].assignedStudents)
    {
      if i < |before| {
        assert after[i] == before[i];
      }
    }
    FindByEmailUnique(after, |before|, email);
  }

  /** `therapistSignup`. */
  method TherapistSignup(db: Store, name: Option<string>, email: Option<string>, password: Option<string>,
                         organization: Option<string>, hasher: PasswordHasher, ts: TokenService)
    returns (r: Response<TherapistAuth>)
    requires db.Valid()
    modifies db
    ensures db.Valid()
    ensures db.students == old(db.students) && db.progress == old(db.progress)
    ensures !TruthyText(name) || !TruthyText(email) || !TruthyText(password) ==>
      r == Failure(400, "Name, email, and password required") && db.therapists == old(db.therapists)
    ensures TruthyText(name) && TruthyText(email) && TruthyText(password)
            && TherapistModel.FindByEmail(old(db.therapists), email.value).Some? ==>
      r == Failure(400, "Email already in use") && db.therapists == old(db.therapists)
    ensures r.Failure? ==> db.therapists == old(db.therapists)
    ensures r.Reply? <==>
      TruthyText(name) && TruthyText(email) && TruthyText(password)
      && TherapistModel.FindByEmail(old(db.therapists), email.value).None?
      && hasher.hash(password.value) != ""
    ensures r.Reply? ==>
      && |db.therapists| == |old(db.therapists)| + 1
      && db.therapists[..|old(db.therapists)|] == old(db.therapists)
      && var t := db.therapists[|old(db.therapists)|];
      && t.name == name.value
      && t.email == Lower(email.value)
      && t.password == hasher.hash(password.value)
      && t.organization == TextOr(organization, TherapistModel.DefaultOrganization)
      && t.assignedStudents == []
      && r == Reply(201, TherapistReply(t, ts))
      && (HasherSound(hasher) ==>
            TherapistLogin(db.therapists, email, password, hasher, ts) == Reply(200, TherapistReply(t, ts)))
  {
    if !TruthyText(name) || !TruthyText(email) || !TruthyText(password) {
      return Failure(400, "Name, email, and password required");
    }
    if TherapistModel.FindByEmail(db.therapists, email.value).Some? {
      return Failure(400, "Email already in use");
    }
    var id := TherapistModel.NextId(db.therapists);
    var doc := TherapistModel.Create(id, name, email, Some(hasher.hash(password.value)),
                                     Some(TextOr(organization, TherapistModel.DefaultOrganization)));
    if doc.Rejected? {
      return Failure(500, "Signup failed");
    }
    var therapist := doc.value;
    TherapistAppended(db.therapists, therapist, email.value);
    db.therapists := db.therapists + [therapist];
    r := Reply(201, TherapistReply(therapist, ts));
  }
}
