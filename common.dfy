/**
  Shared vocabulary of the server model: optional request fields, HTTP replies,
  schema-validation outcomes, and the two string operations the handlers rely on
  (ASCII lower-casing for e-mail addresses, and JavaScript's `String.replace`
  with a string pattern, which removes the first occurrence only).
 */
module Common {

  /** Record identifiers (MongoDB object ids, abstracted to naturals). */
  type Id = nat

  /** A request-body field that may be absent (`undefined` in the source). */
  datatype Option<+T> = None | Some(value: T)

  /** A JSON reply: a status code with a body, or a status code with `{ error }`. */
  datatype Response<+T> = Reply(status: nat, body: T) | Failure(status: nat, error: string)

  /** The outcome of building a document against its schema (defaults, then validators). */
  datatype Checked<+T> = Accepted(value: T) | Rejected(path: string)

  /** JavaScript truthiness of an optional string: absent and "" are falsy. */
  predicate TruthyText(o: Option<string>)
  {
    o.Some? && o.value != ""
  }

  /** JavaScript truthiness of an optional number: absent and 0 are falsy. */
  predicate TruthyNumber(o: Option<int>)
  {
    o.Some? && o.value != 0
  }

  /** `o || d` for an optional number. */
  function NumberOr(o: Option<int>, d: int): (r: int)
    ensures TruthyNumber(o) ==> r == o.value
    ensures !TruthyNumber(o) ==> r == d
  {
    if TruthyNumber(o) then o.value else d
  }

  /** `o || d` for an optional string. */
  function TextOr(o: Option<string>, d: string): (r: string)
    ensures TruthyText(o) ==> r == o.value
    ensures !TruthyText(o) ==> r == d
  {
    if TruthyText(o) then o.value else d
  }

  /** Absent numbers and 0 collapse to 0: `o || 0` is the supplied value or 0. */
  lemma NumberOrZero(o: Option<int>)
    ensures NumberOr(o, 0) == (if o.Some? then o.value else 0)
  {
  }

  function LowerChar(c: char): char
  {
    if 'A' <= c <= 'Z' then (c as int - 'A' as int + 'a' as int) as char else c
  }

  predicate IsLower(s: string)
  {
    forall i :: 0 <= i < |s| ==> !('A' <= s[i] <= 'Z')
  }

  /** Lower-casing of the ASCII letters, character by character. */
  function Lower(s: string): (r: string)
    ensures |r| == |s|
    ensures forall i :: 0 <= i < |s| ==> r[i] == LowerChar(s[i])
    ensures IsLower(r)
  {
    if s == [] then [] else [LowerChar(s[0])] + Lower(s[1..])
  }

  /** Lower-casing is idempotent, so a stored (lower-cased) address is its own key. */
  lemma LowerIdempotent(s: string)
    ensures Lower(Lower(s)) == Lower(s)
  {
    assert Lower(Lower(s)) == Lower(s) by {
      forall i | 0 <= i < |s| ensures Lower(Lower(s))[i] == Lower(s)[i] {
      }
    }
  }

  /** True when `p` occurs in `s` starting at position `i`. */
  predicate OccursAt(s: string, p: string, i: int)
  {
    0 <= i && i + |p| <= |s| && s[i..i + |p|] == p
  }

  /** The first position at or after `from` where `p` occurs in `s`, if any. */
  function FirstOccurrence(s: string, p: string, from: nat): (r: Option<nat>)
    ensures r.Some? ==> from <= r.value && OccursAt(s, p, r.value)
    ensures r.Some? ==> forall j :: from <= j < r.value ==> !OccursAt(s, p, j)
    ensures r.None? ==> forall j :: from <= j ==> !OccursAt(s, p, j)
    decreases |s| - from
  {
    if from + |p| > |s| then None
    else if s[from..from + |p|] == p then Some(from)
    else FirstOccurrence(s, p, from + 1)
  }

  /**
    `s.replace(p, "")`: the first occurrence of `p` is removed; when there is none,
    `s` is returned unchanged.
   */
  function RemoveFirst(s: string, p: string): (r: string)
    ensures (forall i :: !OccursAt(s, p, i)) ==> r == s
    ensures (exists i :: OccursAt(s, p, i)) ==>
      exists i :: OccursAt(s, p, i) && (forall j :: 0 <= j < i ==> !OccursAt(s, p, j))
        && r == s[..i] + s[i + |p|..]
  {
    match FirstOccurrence(s, p, 0)
    case None => s
    case Some(i) => s[..i] + s[i + |p|..]
  }

  /** A string that starts with `p` loses exactly that prefix. */
  lemma RemoveFirstOfPrefixed(p: string, t: string)
    ensures RemoveFirst(p + t, p) == t
  {
    assert (p + t)[..|p|] == p;
    assert (p + t)[|p|..] == t;
  }
}
