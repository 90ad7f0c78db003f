/**
  The authorization gate (server/middleware/auth.ts) as a decision function of
  the Authorization header, the token verifier and the required principal type.
  `Proceed(user)` stands for "attach the payload as req.user and call next()";
  `Deny` stands for "reply with this status and `{ error }`, never calling next()".
 */
module AuthMiddleware {
  import opened Common
  import opened Crypto

  const BearerPrefix := "Bearer "

  datatype Outcome = Deny(status: nat, error: string) | Proceed(user: Claims)

  /** `req.headers.authorization?.replace("Bearer ", "")`. */
  function ExtractToken(header: Option<string>): (r: Option<string>)
    ensures r.Some? <==> header.Some?
    ensures r.Some? ==> |r.value| <= |header.value|
  {
    match header
    case None => None
    case Some(h) => Some(RemoveFirst(h, BearerPrefix))
  }

  /** True when the request carries a non-empty token once the scheme is stripped. */
  predicate HasToken(header: Option<string>)
  {
    ExtractToken(header).Some? && ExtractToken(header).value != ""
  }

  /** `authMiddleware`. */
  function Authenticate(header: Option<string>, verify: string -> Option<Claims>): (r: Outcome)
    ensures !HasToken(header) ==> r == Deny(401, "No token provided")
    ensures HasToken(header) && verify(ExtractToken(header).value).None? ==> r == Deny(401, "Invalid token")
    ensures r.Proceed? <==> HasToken(header) && verify(ExtractToken(header).value).Some?
    ensures r.Proceed? ==> r.user == verify(ExtractToken(header).value).value
  {
    var token := ExtractToken(header);
    if token.None? || token.value == "" then Deny(401, "No token provided")
    else
      match verify(token.value)
      case None => Deny(401, "Invalid token")
      case Some(payload) => Proceed(payload)
  }

  /**
    The shape shared by `studentAuthMiddleware` and `therapistAuthMiddleware`:
    the type check runs only in the continuation authMiddleware calls, so an
    authentication failure is reported as it is and never as 403.
   */
  function RequireKind(header: Option<string>, verify: string -> Option<Claims>, kind: string, message: string)
    : (r: Outcome)
    ensures Authenticate(header, verify).Deny? ==> r == Authenticate(header, verify)
    ensures Authenticate(header, verify).Proceed? && Authenticate(header, verify).user.kind != kind
            ==> r == Deny(403, message)
    ensures r.Proceed? <==> Authenticate(header, verify).Proceed? && Authenticate(header, verify).user.kind == kind
    ensures r.Proceed? ==> r == Authenticate(header, verify)
  {
    match Authenticate(header, verify)
    case Deny(status, error) => Deny(status, error)
    case Proceed(user) => if user.kind != kind then Deny(403, message) else Proceed(user)
  }

  /** `studentAuthMiddleware`. */
  function StudentGate(header: Option<string>, verify: string -> Option<Claims>): (r: Outcome)
    ensures r.Proceed? ==> r.user.kind == StudentKind
    ensures r.Deny? ==> r.status == 401 || r == Deny(403, "Student access required")
  {
    RequireKind(header, verify, StudentKind, "Student access required")
  }

  /** `therapistAuthMiddleware`. */
  function TherapistGate(header: Option<string>, verify: string -> Option<Claims>): (r: Outcome)
    ensures r.Proceed? ==> r.user.kind == TherapistKind
    ensures r.Deny? ==> r.status == 401 || r == Deny(403, "Therapist access required")
  {
    RequireKind(header, verify, TherapistKind, "Therapist access required")
  }

  /** The client builds the header as "Bearer " + token; extraction gives the token back. */
  lemma BearerHeaderYieldsToken(t: string)
    ensures ExtractToken(Some(BearerPrefix + t)) == Some(t)
  {
    RemoveFirstOfPrefixed(BearerPrefix, t);
  }

  /** A header with no "Bearer " in it is taken as the token itself. */
  lemma BareHeaderIsToken(h: string)
    requires forall i :: !OccursAt(h, BearerPrefix, i)
    ensures ExtractToken(Some(h)) == Some(h)
  {
  }

  /** A header that is exactly "Bearer " carries no token. */
  lemma EmptyBearerHasNoToken(verify: string -> Option<Claims>)
    ensures Authenticate(Some(BearerPrefix), verify) == Deny(401, "No token provided")
  {
    BearerHeaderYieldsToken("");
    assert BearerPrefix + "" == BearerPrefix;
  }

  /** A token this server issued for a principal of the required kind passes its gate with the issued claims. */
  lemma IssuedTokenPasses(ts: TokenService, c: Claims, message: string)
    requires TokensSound(ts)
    ensures RequireKind(Some(BearerPrefix + ts.sign(c)), ts.verify, c.kind, message) == Proceed(c)
  {
    BearerHeaderYieldsToken(ts.sign(c));
  }

  /** Role isolation: a valid student token is refused by the therapist gate, and the reverse. */
  lemma RoleIsolation(ts: TokenService, id: Id)
    requires TokensSound(ts)
    ensures TherapistGate(Some(BearerPrefix + ts.sign(Claims(id, StudentKind))), ts.verify)
            == Deny(403, "Therapist access required")
    ensures StudentGate(Some(BearerPrefix + ts.sign(Claims(id, TherapistKind))), ts.verify)
            == Deny(403, "Student access required")
  {
    BearerHeaderYieldsToken(ts.sign(Claims(id, StudentKind)));
    BearerHeaderYieldsToken(ts.sign(Claims(id, TherapistKind)));
  }
}
