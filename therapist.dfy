/**
  The Therapist schema (server/models/Therapist.ts): the supervisor's identity
  record with a unique, lower-cased e-mail address, the "Independent"
  organization default and the list of assigned students.
 */
module TherapistModel {
  import opened Common

  datatype Therapist = Therapist(
    id: Id,
    name: string,
    email: string,
    password: string,
    organization: string,
    assignedStudents: seq<Id>)

  const DefaultOrganization := "Independent"

  /** The schema's validators and the `lowercase` setter's effect on the stored address. */
  predicate Valid(t: Therapist)
  {
    t.name != "" && t.email != "" && IsLower(t.email) && t.password != ""
  }

  predicate NoDuplicates(xs: seq<Id>)
  {
    forall i, j :: 0 <= i < j < |xs| ==> xs[i] != xs[j]
  }

  /**
    `new Therapist({ name, email, password, organization })` followed by the
    validation of `save()`: the `lowercase` setter normalises the address, an
    absent organization becomes "Independent", the student list starts empty,
    and a missing or empty required string is refused.
   */
  function Create(id: Id, name: Option<string>, email: Option<string>, password: Option<string>,
                  organization: Option<string>)
    : (r: Checked<Therapist>)
    ensures r.Accepted? <==> TruthyText(name) && TruthyText(email) && TruthyText(password)
    ensures r.Accepted? ==>
      && Valid(r.value)
      && r.value.id == id
      && r.value.name == name.value
      && r.value.email == Lower(email.value)
      && r.value.password == password.value
      && r.value.organization == (if organization.Some? then organization.value else DefaultOrganization)
      && r.value.assignedStudents == []
  {
    if !TruthyText(name) then Rejected("name")
    else if !TruthyText(email) then Rejected("email")
    else if !TruthyText(password) then Rejected("password")
    else Accepted(Therapist(
      id, name.value, Lower(email.value), password.value,
      if organization.Some? then organization.value else DefaultOrganization, []))
  }

  /** The therapist object the authentication replies and the dashboard carry. */
  datatype TherapistView = TherapistView(id: Id, name: string, email: string)

  function View(t: Therapist): TherapistView
  {
    TherapistView(t.id, t.name, t.email)
  }

  /** `findOne({ email })`: the `lowercase` setter also applies to the query value. */
  function FindByEmail(ts: seq<Therapist>, email: string): (r: Option<Therapist>)
    ensures r.Some? ==> r.value in ts && r.value.email == Lower(email)
    ensures r.None? <==> forall t :: t in ts ==> t.email != Lower(email)
  {
    if ts == [] then None
    else if ts[0].email == Lower(email) then Some(ts[0])
    else FindByEmail(ts[1..], email)
  }

  /** `findById`: the position of the first therapist with that id. */
  function IndexOf(ts: seq<Therapist>, id: Id): (r: Option<nat>)
    ensures r.Some? ==> r.value < |ts| && ts[r.value].id == id
    ensures r.Some? ==> forall k :: 0 <= k < r.value ==> ts[k].id != id
    ensures r.None? <==> forall k :: 0 <= k < |ts| ==> ts[k].id != id
  {
    if ts == [] then None
    else if ts[0].id == id then Some(0)
    else
      match IndexOf(ts[1..], id)
      case None => None
      case Some(k) => Some(k + 1)
  }

  predicate UniqueIds(ts: seq<Therapist>)
  {
    forall i, j :: 0 <= i < j < |ts| ==> ts[i].id != ts[j].id
  }

  /** The `unique: true` index on email. */
  predicate UniqueEmails(ts: seq<Therapist>)
  {
    forall i, j :: 0 <= i < j < |ts| ==> ts[i].email != ts[j].email
  }

  /** A fresh id: larger than every stored one (stands for ObjectId generation). */
  function NextId(ts: seq<Therapist>): (r: Id)
    ensures forall i :: 0 <= i < |ts| ==> ts[i].id < r
  {
    if ts == [] then 0
    else
      var rest := NextId(ts[1..]);
      if ts[0].id + 1 > rest then ts[0].id + 1 else rest
  }

  /** Addresses differing only in ASCII letter case name the same account. */
  lemma EmailKeyIgnoresCase(ts: seq<Therapist>, a: string, b: string)
    requires Lower(a) == Lower(b)
    ensures FindByEmail(ts, a) == FindByEmail(ts, b)
  {
  }
}
