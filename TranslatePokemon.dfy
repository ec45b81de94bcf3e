/**
 * The Japanese display tables: type and stat names, generation labels and
 * game titles, and the colour of each type. Every lookup falls back to its
 * input (or to a default colour) for a name the table does not list.
 */
module TranslatePokemon {
  import opened Wrappers
  import opened Seqs

  /** The Japanese name of each of the 18 types. */
  const TYPE_TRANSLATIONS: map<string, string> := map[
    "normal" := "ノーマル", "fire" := "ほのお", "water" := "みず",
    "electric" := "でんき", "grass" := "くさ", "ice" := "こおり",
    "fighting" := "かくとう", "poison" := "どく", "ground" := "じめん",
    "flying" := "ひこう", "psychic" := "エスパー", "bug" := "むし",
    "rock" := "いわ", "ghost" := "ゴースト", "dragon" := "ドラゴン",
    "dark" := "あく", "steel" := "はがね", "fairy" := "フェアリー"]

  /** The Japanese name of each of the six stats. */
  const STAT_TRANSLATIONS: map<string, string> := map[
    "hp" := "HP", "attack" := "こうげき", "defense" := "ぼうぎょ",
    "special-attack" := "とくこう", "special-defense" := "とくぼう", "speed" := "すばやさ"]

  /** The badge colour of each of the 18 types. */
  const TYPE_COLORS: map<string, string> := map[
    "normal" := "#A8A878", "fire" := "#F08030", "water" := "#6890F0",
    "electric" := "#F8D030", "grass" := "#78C850", "ice" := "#98D8D8",
    "fighting" := "#C03028", "poison" := "#A040A0", "ground" := "#E0C068",
    "flying" := "#A890F0", "psychic" := "#F85888", "bug" := "#A8B820",
    "rock" := "#B8A038", "ghost" := "#705898", "dragon" := "#7038F8",
    "dark" := "#705848", "steel" := "#B8B8D0", "fairy" := "#EE99AC"]

  /** The colour of a type the table does not list. */
  const DEFAULT_TYPE_COLOR: string := "#68A090"

  /** `table[key] || key`: the listed value, else the key itself. */
  function LookupOr(table: map<string, string>, key: string, fallback: string): (r: string)
    ensures key in table && |table[key]| > 0 ==> r == table[key]
    ensures key !in table ==> r == fallback
  {
    if key in table && |table[key]| > 0 then table[key] else fallback
  }

  /** `translateType(englishType)`. */
  function TranslateType(englishType: string): string {
    LookupOr(TYPE_TRANSLATIONS, englishType, englishType)
  }

  /** `translateStat(englishStat)`. */
  function TranslateStat(englishStat: string): string {
    LookupOr(STAT_TRANSLATIONS, englishStat, englishStat)
  }

  /** `getTypeColor(typeName)`. */
  function GetTypeColor(typeName: string): string {
    LookupOr(TYPE_COLORS, typeName, DEFAULT_TYPE_COLOR)
  }

  /** No listed value is empty, so a listed key always gets its value. */
  predicate AllValuesNonEmpty(table: map<string, string>) {
    forall k :: k in table ==> |table[k]| > 0
  }

  /** No listed value is itself a key of the table. */
  predicate ValuesAreNotKeys(table: map<string, string>) {
    forall k :: k in table ==> table[k] !in table
  }

  lemma TypeTablesShape()
    ensures TYPE_TRANSLATIONS.Keys == TYPE_COLORS.Keys
    ensures AllValuesNonEmpty(TYPE_TRANSLATIONS) && AllValuesNonEmpty(TYPE_COLORS)
  {
  }

  /**
   * The type table lists the same types as the colour table; a listed type
   * gets its Japanese name and its colour, any other name is returned
   * unchanged and gets the default colour.
   */
  lemma TypeTables(t: string)
    ensures t in TYPE_TRANSLATIONS <==> t in TYPE_COLORS
    ensures t in TYPE_TRANSLATIONS ==> TranslateType(t) == TYPE_TRANSLATIONS[t] && GetTypeColor(t) == TYPE_COLORS[t]
    ensures t !in TYPE_TRANSLATIONS ==> TranslateType(t) == t && GetTypeColor(t) == DEFAULT_TYPE_COLOR
  {
    TypeTablesShape();
  }

  lemma StatTableShape()
    ensures AllValuesNonEmpty(STAT_TRANSLATIONS)
  {
  }

  /** A listed stat gets its Japanese name, any other is unchanged. */
  lemma StatTable(s: string)
    ensures s in STAT_TRANSLATIONS ==> TranslateStat(s) == STAT_TRANSLATIONS[s]
    ensures s !in STAT_TRANSLATIONS ==> TranslateStat(s) == s
  {
    StatTableShape();
  }

  lemma TypeValuesAreNotKeys()
    ensures ValuesAreNotKeys(TYPE_TRANSLATIONS)
  {
  }

  lemma StatValuesAreNotKeys()
    ensures ValuesAreNotKeys(STAT_TRANSLATIONS)
  {
  }

  /** Translating a name that is already translated changes nothing. */
  lemma TranslationsIdempotent(t: string, s: string)
    ensures TranslateType(TranslateType(t)) == TranslateType(t)
    ensures TranslateStat(TranslateStat(s)) == TranslateStat(s)
  {
    TypeTablesShape();
    StatTableShape();
    TypeValuesAreNotKeys();
    StatValuesAreNotKeys();
  }

  // ---------------------------------------------------------------------
  // Generations and games
  // ---------------------------------------------------------------------

  /** A generation entry: its key, label, and its games in English and Japanese. */
  datatype Generation = Generation(key: string, title: string, games: seq<string>, gamesJa: seq<string>)

  /** The generation table, in declaration order. */
  const GENERATION_TRANSLATIONS: seq<Generation> := [
    Generation("generation-i", "第1世代: 赤・緑・青・ピカチュウ",
      ["red", "green", "blue", "yellow"], ["赤", "緑", "青", "ピカチュウ"]),
    Generation("generation-ii", "第2世代: 金・銀・クリスタル",
      ["gold", "silver", "crystal"], ["金", "銀", "クリスタル"]),
    Generation("generation-iii", "第3世代: ルビー・サファイア・エメラルド",
      ["ruby", "sapphire", "emerald", "firered", "leafgreen"],
      ["ルビー", "サファイア", "エメラルド", "ファイアレッド", "リーフグリーン"]),
    Generation("generation-iv", "第4世代: ダイヤモンド・パール・プラチナ",
      ["diamond", "pearl", "platinum", "heartgold", "soulsilver"],
      ["ダイヤモンド", "パール", "プラチナ", "ハートゴールド", "ソウルシルバー"]),
    Generation("generation-v", "第5世代: ブラック・ホワイト",
      ["black", "white", "black-2", "white-2"], ["ブラック", "ホワイト", "ブラック2", "ホワイト2"]),
    Generation("generation-vi", "第6世代: X・Y",
      ["x", "y", "omega-ruby", "alpha-sapphire"], ["X", "Y", "オメガルビー", "アルファサファイア"]),
    Generation("generation-vii", "第7世代: サン・ムーン",
      ["sun", "moon", "ultra-sun", "ultra-moon"], ["サン", "ムーン", "ウルトラサン", "ウルトラムーン"]),
    Generation("generation-viii", "第8世代: ソード・シールド",
      ["sword", "shield", "brilliant-diamond", "shining-pearl", "legends-arceus"],
      ["ソード", "シールド", "ブリリアントダイヤモンド", "シャイニングパール", "LEGENDS アルセウス"]),
    Generation("generation-ix", "第9世代: スカーレット・バイオレット",
      ["scarlet", "violet"], ["スカーレット", "バイオレット"])
  ]

  /** In every entry the English and Japanese game lists line up. */
  predicate Aligned(gens: seq<Generation>) {
    forall i :: 0 <= i < |gens| ==> |gens[i].games| == |gens[i].gamesJa|
  }

  /** The generation table has nine entries, each with aligned game lists. */
  lemma GenerationTableAligned()
    ensures |GENERATION_TRANSLATIONS| == 9 && Aligned(GENERATION_TRANSLATIONS)
  {
  }

  predicate HasKey(key: string, g: Generation) {
    g.key == key
  }

  /** `GENERATION_TRANSLATIONS[generationName]?.label || generationName` over a table (`title` is the label). */
  function LabelIn(gens: seq<Generation>, generationName: string): (r: string)
    ensures (forall i :: 0 <= i < |gens| ==> gens[i].key != generationName) ==> r == generationName
    ensures forall i :: (0 <= i < |gens| && gens[i].key == generationName && |gens[i].title| > 0
      && (forall j :: 0 <= j < i ==> gens[j].key != generationName)) ==> r == gens[i].title
  {
    match FirstIndex(gens, g => HasKey(generationName, g))
    case None => generationName
    case Some(k) => if |gens[k].title| > 0 then gens[k].title else generationName
  }

  /** `getGenerationLabel(generationName)`. */
  function GetGenerationLabel(generationName: string): string {
    LabelIn(GENERATION_TRANSLATIONS, generationName)
  }

  /** The position of the first occurrence of `x`: `indexOf`, with `None` for -1. */
  function IndexOf(s: seq<string>, x: string): (r: Option<nat>)
    ensures r.Some? ==> r.value < |s| && s[r.value] == x && x !in s[..r.value]
    ensures r.None? <==> x !in s
    decreases |s|
  {
    if s == [] then None
    else if s[0] == x then Some(0)
    else match IndexOf(s[1..], x)
      case None => None
      case Some(k) =>
        assert s[..k + 1] == [s[0]] + s[1..][..k];
        Some(k + 1)
  }

  /**
   * `translateGameName` over a table: the Japanese title at the same
   * position in the first generation that lists the game, else the input.
   */
  function GameNameIn(gens: seq<Generation>, gameName: string): (r: string)
    requires Aligned(gens)
    ensures (forall i :: 0 <= i < |gens| ==> gameName !in gens[i].games) ==> r == gameName
    decreases |gens|
  {
    if gens == [] then gameName
    else match IndexOf(gens[0].games, gameName)
      case Some(k) => gens[0].gamesJa[k]
      case None => GameNameIn(gens[1..], gameName)
  }

  /** The first generation listing a game decides its title. */
  lemma {:induction false} GameNameFirstMatch(gens: seq<Generation>, gameName: string, i: nat)
    requires Aligned(gens) && i < |gens| && gameName in gens[i].games
    requires forall j :: 0 <= j < i ==> gameName !in gens[j].games
    ensures IndexOf(gens[i].games, gameName).Some?
    ensures GameNameIn(gens, gameName) == gens[i].gamesJa[IndexOf(gens[i].games, gameName).value]
    decreases i
  {
    if i > 0 {
      assert Aligned(gens[1..]);
      GameNameFirstMatch(gens[1..], gameName, i - 1);
    }
  }

  /** `translateGameName(gameName)`. */
  function TranslateGameName(gameName: string): string {
    GenerationTableAligned();
    GameNameIn(GENERATION_TRANSLATIONS, gameName)
  }

  /** A game no generation lists keeps its name. */
  lemma UnlistedGameUnchanged(gameName: string)
    requires forall i :: 0 <= i < |GENERATION_TRANSLATIONS| ==> gameName !in GENERATION_TRANSLATIONS[i].games
    ensures TranslateGameName(gameName) == gameName
  {
  }

  /** The games of entry `i` appear in no earlier entry and not earlier in its own list. */
  predicate NewGames(gens: seq<Generation>, i: nat)
    requires i < |gens|
  {
    forall b :: 0 <= b < |gens[i].games| ==>
      gens[i].games[b] !in gens[i].games[..b]
      && forall j :: 0 <= j < i ==> gens[i].games[b] !in gens[j].games
  }

  /** No game appears twice, in one generation or across two. */
  predicate DistinctGames(gens: seq<Generation>) {
    forall i :: 0 <= i < |gens| ==> NewGames(gens, i)
  }

  /** With distinct games, every game is translated to the title at its own position. */
  lemma DistinctGamesTranslate(gens: seq<Generation>, i: nat, k: nat)
    requires Aligned(gens) && DistinctGames(gens)
    requires i < |gens| && k < |gens[i].games|
    ensures GameNameIn(gens, gens[i].games[k]) == gens[i].gamesJa[k]
  {
    var name := gens[i].games[k];
    assert NewGames(gens, i);
    GameNameFirstMatch(gens, name, i);
  }

  /** The generation table lists every game once. */
  lemma GenerationGamesDistinct()
    ensures DistinctGames(GENERATION_TRANSLATIONS)
  {
    var g := GENERATION_TRANSLATIONS;
    forall i | 0 <= i < |g| ensures NewGames(g, i) {
      OwnGamesDistinct(i);
      forall b, j | 0 <= b < |g[i].games| && 0 <= j < i ensures g[i].games[b] !in g[j].games {
        if j < 3 {
          GameNotInFirstThree(i, b, j);
        } else if j < 6 {
          GameNotInMiddleThree(i, b, j);
        } else {
          GameNotInLastThree(i, b, j);
        }
      }
    }
  }

  lemma OwnGamesDistinct(i: nat)
    requires i < |GENERATION_TRANSLATIONS|
    ensures forall b :: 0 <= b < |GENERATION_TRANSLATIONS[i].games| ==>
      GENERATION_TRANSLATIONS[i].games[b] !in GENERATION_TRANSLATIONS[i].games[..b]
  {
  }

  /** A later entry's game is not among the games of the first three entries. */
  lemma GameNotInFirstThree(i: nat, b: nat, j: nat)
    requires j < i < |GENERATION_TRANSLATIONS| && b < |GENERATION_TRANSLATIONS[i].games| && j < 3
    ensures GENERATION_TRANSLATIONS[i].games[b] !in GENERATION_TRANSLATIONS[j].games
  {
  }

  /** A later entry's game is not among the games of entries four to six. */
  lemma GameNotInMiddleThree(i: nat, b: nat, j: nat)
    requires j < i < |GENERATION_TRANSLATIONS| && b < |GENERATION_TRANSLATIONS[i].games| && 3 <= j < 6
    ensures GENERATION_TRANSLATIONS[i].games[b] !in GENERATION_TRANSLATIONS[j].games
  {
  }

  /** A later entry's game is not among the games of entries seven and eight. */
  lemma GameNotInLastThree(i: nat, b: nat, j: nat)
    requires j < i < |GENERATION_TRANSLATIONS| && b < |GENERATION_TRANSLATIONS[i].games| && 6 <= j
    ensures GENERATION_TRANSLATIONS[i].games[b] !in GENERATION_TRANSLATIONS[j].games
  {
  }

  /** Every listed game gets the Japanese title beside it. */
  lemma ListedGameTranslated(i: nat, k: nat)
    requires i < |GENERATION_TRANSLATIONS| && k < |GENERATION_TRANSLATIONS[i].games|
    ensures TranslateGameName(GENERATION_TRANSLATIONS[i].games[k]) == GENERATION_TRANSLATIONS[i].gamesJa[k]
  {
    GenerationTableAligned();
    GenerationGamesDistinct();
    DistinctGamesTranslate(GENERATION_TRANSLATIONS, i, k);
  }
}
