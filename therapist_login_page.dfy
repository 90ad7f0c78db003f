/**
  The therapist sign-in form (client/pages/TherapistLogin.tsx): its state cells
  and the submit handler, which checks the two fields on their own and then
  either shows the errors or navigates to the dashboard. The handler calls no
  server endpoint; the form's credentials never reach the login route.
 */
module TherapistLoginPage {
  const DashboardRoute := "/therapist-dashboard"
  const FormRoute := "/therapist-login"
  const MinPasswordLength := 4

  /** The `errors` cell: one message per field, "" meaning no error. */
  datatype FormErrors = FormErrors(email: string, password: string)

  const NoErrors := FormErrors("", "")

  /** The email rule: required, and must contain '@'. */
  function EmailError(email: string): (r: string)
    ensures r == "" <==> email != "" && '@' in email
    ensures email == "" ==> r == "Email is required"
    ensures email != "" && '@' !in email ==> r == "Please enter a valid email"
  {
    if email == "" then "Email is required"
    else if '@' !in email then "Please enter a valid email"
    else ""
  }

  /** `String.length`: UTF-16 code units, two for a character beyond U+FFFF. */
  function Utf16Length(s: string): (r: nat)
    ensures |s| <= r <= 2 * |s|
    ensures r == 0 <==> s == ""
  {
    if s == [] then 0 else (if s[0] as int >= 0x1_0000 then 2 else 1) + Utf16Length(s[1..])
  }

  /** Within the Basic Multilingual Plane the length is the number of characters. */
  lemma {:induction false} BmpLengthIsCount(s: string)
    requires forall i :: 0 <= i < |s| ==> s[i] as int < 0x1_0000
    ensures Utf16Length(s) == |s|
  {
    if s != [] {
      BmpLengthIsCount(s[1..]);
    }
  }

  /** Two emoji make a password of length four: they pass the rule. */
  lemma TwoEmojiPass()
    ensures Utf16Length("\U{1F600}\U{1F600}") == 4
    ensures PasswordError("\U{1F600}\U{1F600}") == ""
  {
    assert "\U{1F600}\U{1F600}"[1..] == "\U{1F600}";
    assert "\U{1F600}"[1..] == "";
  }

  /** The password rule: required, and `length` at least four. */
  function PasswordError(password: string): (r: string)
    ensures r == "" <==> Utf16Length(password) >= MinPasswordLength
    ensures password == "" ==> r == "Password is required"
    ensures password != "" && Utf16Length(password) < MinPasswordLength ==> r == "Password must be at least 4 characters"
  {
    if password == "" then "Password is required"
    else if Utf16Length(password) < MinPasswordLength then "Password must be at least 4 characters"
    else ""
  }

  /** The errors a submit computes. */
  function Validate(email: string, password: string): (r: FormErrors)
    ensures r == NoErrors <==> email != "" && '@' in email && Utf16Length(password) >= MinPasswordLength
  {
    FormErrors(EmailError(email), PasswordError(password))
  }

  /** Each field's message depends on that field alone. */
  lemma ErrorsIndependent(email: string, password: string, email': string, password': string)
    ensures Validate(email, password).email == Validate(email, password').email
    ensures Validate(email, password).password == Validate(email', password).password
  {
  }

  class Form {
    var email: string
    var password: string
    var errors: FormErrors
    /** The router's current path; `navigate` replaces it. */
    var route: string

    constructor()
      ensures email == "" && password == "" && errors == NoErrors && route == FormRoute
    {
      email := "";
      password := "";
      errors := NoErrors;
      route := FormRoute;
    }

    /** The onChange handlers. */
    method SetEmail(value: string)
      modifies this
      ensures email == value
      ensures password == old(password) && errors == old(errors) && route == old(route)
    {
      email := value;
    }

    method SetPassword(value: string)
      modifies this
      ensures password == value
      ensures email == old(email) && errors == old(errors) && route == old(route)
    {
      password := value;
    }

    /** `handleSubmit`: navigate exactly when both fields pass; otherwise show the errors and stay. */
    method HandleSubmit()
      modifies this
      ensures email == old(email) && password == old(password)
      ensures Validate(email, password) == NoErrors ==> route == DashboardRoute && errors == old(errors)
      ensures Validate(email, password) != NoErrors ==> errors == Validate(email, password) && route == old(route)
    {
      var newErrors := NoErrors;
      if email == "" {
        newErrors := newErrors.(email := "Email is required");
      } else if '@' !in email {
        newErrors := newErrors.(email := "Please enter a valid email");
      }
      if password == "" {
        newErrors := newErrors.(password := "Password is required");
      } else if Utf16Length(password) < MinPasswordLength {
        newErrors := newErrors.(password := "Password must be at least 4 characters");
      }
      if newErrors.email != "" || newErrors.password != "" {
        errors := newErrors;
      } else {
        route := DashboardRoute;
      }
    }
  }
}
