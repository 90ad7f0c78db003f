/**
  The closed enumeration of learning modules shared by the GameProgress and
  Session schemas (server/models/GameProgress.ts and server/models/Session.ts
  list the same four strings).
 */
module ModuleEnum {
  import opened Common

  datatype ModuleId = EmotionalRecognition | TheoryOfMind | ExecutiveFunction | SocialCommunication

  /** The schema's enum order. */
  const AllModules: seq<ModuleId> := [EmotionalRecognition, TheoryOfMind, ExecutiveFunction, SocialCommunication]

  /** The string stored in the `moduleId` field. */
  function Name(m: ModuleId): string
  {
    match m
    case EmotionalRecognition => "emotional-recognition"
    case TheoryOfMind => "theory-of-mind"
    case ExecutiveFunction => "executive-function"
    case SocialCommunication => "social-communication"
  }

  /** The enum validator: a string is accepted exactly when it names a module. */
  function Parse(s: string): (r: Option<ModuleId>)
    ensures r.Some? ==> Name(r.value) == s
    ensures r.None? <==> forall m: ModuleId :: Name(m) != s
  {
    if s == "emotional-recognition" then Some(EmotionalRecognition)
    else if s == "theory-of-mind" then Some(TheoryOfMind)
    else if s == "executive-function" then Some(ExecutiveFunction)
    else if s == "social-communication" then Some(SocialCommunication)
    else None
  }

  /** Every module appears exactly once in the enumeration, and names are distinct. */
  lemma EnumerationComplete(m: ModuleId)
    ensures m in AllModules
    ensures Parse(Name(m)) == Some(m)
  {
  }
}
