/**
  The token and password primitives the server consumes (JWT signing and
  verification, bcrypt hashing and comparison). Their internals are not part of
  this model: each is a function value supplied by the caller, and the only
  hypotheses about them are the soundness predicates below.
 */
module Crypto {
  import opened Common

  /** The token payload `{ id, type }`; `type` is reserved in Dafny, so the field is `kind`. */
  datatype Claims = Claims(id: Id, kind: string)

  const StudentKind := "student"
  const TherapistKind := "therapist"

  /** `generateToken` and `verifyToken`; verification returns None instead of throwing. */
  datatype TokenService = TokenService(sign: Claims -> string, verify: string -> Option<Claims>)

  /** `hashPassword` and `comparePasswords` (the salt is part of the opaque hash). */
  datatype PasswordHasher = PasswordHasher(hash: string -> string, compare: (string, string) -> bool)

  /** Within the validity window, a token this server signed verifies to its own claims and is never empty. */
  ghost predicate TokensSound(ts: TokenService)
  {
    forall c :: ts.sign(c) != "" && ts.verify(ts.sign(c)) == Some(c)
  }

  /** A password matches its own digest. */
  ghost predicate HasherSound(h: PasswordHasher)
  {
    forall p :: h.compare(p, h.hash(p))
  }
}
