/** The records shared by every screen of the game: the settings toggles,
    a player, the whole game state, and the state the mode menu starts from. */
module Types {

  datatype Option<T> = None | Some(value: T)

  datatype Result<T, E> = Success(value: T) | Failure(error: E)

  datatype GameMode = Classic | Sports

  datatype Screen = Menu | Setup | Game | Reveal

  /** The seven independent toggles of the settings panel. */
  datatype GameSettings = GameSettings(
    showCategoryToImposters: bool,
    giveHintToImposters: bool,
    impostersKnowEachOther: bool,
    randomFirstSpeaker: bool,
    hardMode: bool,
    showWordLength: bool,
    soundEffects: bool)

  datatype Player = Player(name: string, isImposter: bool, hasChecked: bool)

  datatype GameState = GameState(
    mode: GameMode,
    playerCount: int,
    imposterCount: int,
    category: string,
    selectedSports: seq<string>,
    settings: GameSettings,
    players: seq<Player>,
    currentWord: string,
    currentHint: string,
    currentSpeaker: int)

  /** What the word pool returns for one round: the secret, its hint and its category. */
  datatype Entry = Entry(word: string, hint: string, category: string)

  const ClassicDefaultCategory: string := "All Categories"
  const AthleteCategory: string := "Professional Athlete"
  const AllSports: seq<string> := ["NFL", "NBA", "MLB"]

  /** The bounds the setup form keeps on the two counters. */
  predicate ValidConfig(g: GameState) {
    3 <= g.playerCount <= 20 && 1 <= g.imposterCount <= g.playerCount - 1
  }

  /** The seats that hold an imposter. */
  function ImposterIndices(ps: seq<Player>): set<int> {
    set i | 0 <= i < |ps| && ps[i].isImposter
  }

  /** A game state as it stands once a round has been dealt. */
  predicate InRound(g: GameState) {
    && ValidConfig(g)
    && |g.players| == g.playerCount
    && |ImposterIndices(g.players)| == g.imposterCount
    && 0 <= g.currentSpeaker < g.playerCount
  }

  /** The settings a fresh game starts with. */
  function DefaultSettings(): (s: GameSettings)
    ensures s.showCategoryToImposters && s.giveHintToImposters && s.randomFirstSpeaker
    ensures !s.impostersKnowEachOther && !s.hardMode && !s.showWordLength && !s.soundEffects
  {
    GameSettings(
      showCategoryToImposters := true,
      giveHintToImposters := true,
      impostersKnowEachOther := false,
      randomFirstSpeaker := true,
      hardMode := false,
      showWordLength := false,
      soundEffects := false)
  }

  /** The state chosen on the mode menu: six players, one imposter, no round yet. */
  function InitialState(mode: GameMode): (g: GameState)
    ensures ValidConfig(g) && g.mode == mode
    ensures g.playerCount == 6 && g.imposterCount == 1
    ensures g.category == (if mode == Classic then ClassicDefaultCategory else "")
    ensures g.selectedSports == (if mode == Sports then AllSports else [])
    ensures g.settings == DefaultSettings()
    ensures g.players == [] && g.currentWord == "" && g.currentHint == "" && g.currentSpeaker == 0
  {
    GameState(
      mode := mode,
      playerCount := 6,
      imposterCount := 1,
      category := if mode == Classic then ClassicDefaultCategory else "",
      selectedSports := if mode == Sports then AllSports else [],
      settings := DefaultSettings(),
      players := [],
      currentWord := "",
      currentHint := "",
      currentSpeaker := 0)
  }
}
