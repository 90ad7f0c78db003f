/**
  The client's module catalogue (client/services/gameService.ts): a constant
  list of the four therapy games and the two lookups over it.
 */
module GameService {
  import opened Common
  import opened ModuleEnum

  datatype Category = Emotional | Cognitive | Executive | Social

  datatype GameModule = GameModule(
    id: string,
    title: string,
    emoji: string,
    description: string,
    color: string,
    icon: string,
    category: Category)

  /** `gameModules`. */
  const GameModules: seq<GameModule> := [
    GameModule("emotional-recognition", "Emotional Recognition", "🎭", "Identify and understand emotions",
               "from-rose-200 to-pink-200", "😊", Emotional),
    GameModule("theory-of-mind", "Theory of Mind", "🧠", "Understand thoughts and perspectives",
               "from-blue-200 to-cyan-200", "💭", Cognitive),
    GameModule("executive-function", "Executive Function", "📋", "Planning and organization skills",
               "from-amber-200 to-yellow-200", "✅", Executive),
    GameModule("social-communication", "Social Communication", "👥", "Social interaction and reciprocity",
               "from-green-200 to-emerald-200", "💬", Social)
  ]

  /** Array `find(m => m.id === id)`. */
  function FindById(ms: seq<GameModule>, id: string): (r: Option<GameModule>)
    ensures r.Some? ==> r.value in ms && r.value.id == id
    ensures r.None? <==> forall m :: m in ms ==> m.id != id
  {
    if ms == [] then None
    else if ms[0].id == id then Some(ms[0])
    else FindById(ms[1..], id)
  }

  /** Array `filter(m => m.category === c)`, keeping order. */
  function FilterByCategory(ms: seq<GameModule>, c: Category): (r: seq<GameModule>)
    ensures |r| <= |ms|
    ensures forall m :: m in r <==> m in ms && m.category == c
  {
    if ms == [] then []
    else (if ms[0].category == c then [ms[0]] else []) + FilterByCategory(ms[1..], c)
  }

  /** `getGameModuleById`. */
  function GetGameModuleById(id: string): (r: Option<GameModule>)
    ensures r.Some? ==> r.value in GameModules && r.value.id == id
    ensures r.None? <==> forall m :: m in GameModules ==> m.id != id
  {
    FindById(GameModules, id)
  }

  /** `getGamesByCategory`. */
  function GetGamesByCategory(c: Category): (r: seq<GameModule>)
    ensures forall m :: m in r <==> m in GameModules && m.category == c
  {
    FilterByCategory(GameModules, c)
  }

  /** The catalogue lists the server's four module ids, in the enumeration's order. */
  lemma CatalogueMatchesEnum()
    ensures |GameModules| == |AllModules|
    ensures forall k :: 0 <= k < |GameModules| ==> GameModules[k].id == Name(AllModules[k])
  {
  }

  /** Every module of the server's enumeration has its game in the catalogue. */
  lemma EveryModuleHasGame(m: ModuleId)
    ensures GetGameModuleById(Name(m)).Some?
  {
    var k := match m
      case EmotionalRecognition => 0
      case TheoryOfMind => 1
      case ExecutiveFunction => 2
      case SocialCommunication => 3;
    CatalogueMatchesEnum();
    assert AllModules[k] == m;
    assert GameModules[k] in GameModules;
  }

  /** Ids are pairwise distinct, and so are categories. */
  lemma CatalogueDistinct()
    ensures forall i, j :: 0 <= i < j < |GameModules| ==> GameModules[i].id != GameModules[j].id
    ensures forall i, j :: 0 <= i < j < |GameModules| ==> GameModules[i].category != GameModules[j].category
  {
  }

  /** A lookup by an id in the catalogue gives that entry back. */
  lemma LookupFindsEntry(k: nat)
    requires k < |GameModules|
    ensures GetGameModuleById(GameModules[k].id) == Some(GameModules[k])
  {
    CatalogueDistinct();
  }

  /** Each category yields exactly one module. */
  lemma EachCategoryHasOneGame(c: Category)
    ensures |GetGamesByCategory(c)| == 1
    ensures GetGamesByCategory(c)[0].category == c
  {
    var ms := GameModules;
    assert ms[1..][1..][1..][1..] == [];
    match c
    case Emotional =>
      assert GetGamesByCategory(c) == [ms[0]];
    case Cognitive =>
      assert GetGamesByCategory(c) == [ms[1]];
    case Executive =>
      assert GetGamesByCategory(c) == [ms[2]];
    case Social =>
      assert GetGamesByCategory(c) == [ms[3]];
  }
}
