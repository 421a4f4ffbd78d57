/** The game records of src/game.rs: the status codec that the persistence
    code writes with `to_string` and reads back with `Status::from`, and the
    constructors that fix the initial state of a game, its settings and a round. */
module Game {
  import opened Base
  import opened Theory

  datatype Status = Init | Playing | RoundOver | GameOver | NoPlayers

  /** The five spellings the codec knows, in declaration order. */
  const StatusNames: seq<string> := ["Init", "Playing", "RoundOver", "GameOver", "NoPlayers"]

  /** `impl Display for Status`: the derived `Debug` text, which is the variant name. */
  function StatusName(s: Status): (r: string)
    ensures r in StatusNames
  {
    match s
    case Init => "Init"
    case Playing => "Playing"
    case RoundOver => "RoundOver"
    case GameOver => "GameOver"
    case NoPlayers => "NoPlayers"
  }

  /** `Status::from`: exact, case-sensitive match on the five names; anything
      else is `None`. Whatever it accepts is printed back unchanged. */
  function StatusFrom(t: string): (r: Option<Status>)
    ensures r.Some? <==> t in StatusNames
    ensures r.Some? ==> StatusName(r.value) == t
  {
    match t
    case "Init" => Some(Init)
    case "Playing" => Some(Playing)
    case "RoundOver" => Some(RoundOver)
    case "GameOver" => Some(GameOver)
    case "NoPlayers" => Some(NoPlayers)
    case _ => None
  }

  /** Writing a status and reading it back gives the same status. */
  lemma StatusRoundTrip(s: Status)
    ensures StatusFrom(StatusName(s)) == Some(s)
  {
  }

  /** Reading a string that parses and printing the result gives the string
      back; together with the round trip, the codec is a bijection between the
      five statuses and the five names. */
  lemma StatusParsePrint(t: string, s: Status)
    ensures StatusFrom(t) == Some(s) <==> StatusName(s) == t
  {
  }

  /** Distinct statuses are printed differently. */
  lemma StatusNameInjective(s: Status, u: Status)
    ensures StatusName(s) == StatusName(u) ==> s == u
  {
  }

  /** Case matters: the lower-case spellings are rejected. */
  lemma StatusFromIsCaseSensitive()
    ensures StatusFrom("init") == None && StatusFrom("playing") == None
    ensures StatusFrom("roundover") == None && StatusFrom("gameover") == None
    ensures StatusFrom("noplayers") == None && StatusFrom("") == None
  {
  }

  datatype Settings = Settings(
    id: Option<i64>,
    gameId: Option<i64>,
    numRounds: i32,
    startFret: i32,
    endFret: i32)

  /** Settings describe at least one round over a non-empty fret range. */
  predicate ValidSettings(s: Settings) {
    s.numRounds > 0 && 0 <= s.startFret <= s.endFret
  }

  /** `Settings::default`: not yet stored, four rounds over frets 0 to 4. */
  function DefaultSettings(): (s: Settings)
    ensures s.id.None? && s.gameId.None?
    ensures s.numRounds == 4 && s.startFret == 0 && s.endFret == 4
    ensures ValidSettings(s)
  {
    Settings(None, None, 4, 0, 4)
  }

  datatype Guess = Guess(
    id: Option<i64>,
    userId: Option<i64>,
    roundId: i64,
    clickedFretCoord: FretCoord,
    isCorrect: bool)

  datatype Round = Round(id: Option<i64>, noteToGuess: Note, guesses: seq<Guess>)

  /** `Round::new`: an unsaved round asking for middle C (C in octave 4, no
      accidental) that nobody has guessed yet. */
  function NewRound(): (r: Round)
    ensures r.id.None? && r.guesses == []
    ensures r.noteToGuess.whiteKey == C && r.noteToGuess.octave == 4
    ensures r.noteToGuess.accidental.None?
    ensures HalfStepsFromC(r.noteToGuess.whiteKey) == 0
  {
    Round(None, Note(C, None, 4), [])
  }

  datatype Game = Game(
    id: Option<i64>,
    hostId: Option<i64>,
    status: Status,
    settings: Settings,
    rounds: seq<Round>)

  /** `Game::new`: an unsaved game hosted by `hostId`, in status `Init`, with
      default settings and no rounds; its status survives the store's text
      column. */
  function NewGame(hostId: i64): (g: Game)
    ensures g.id.None? && g.hostId == Some(hostId)
    ensures g.status == Init && g.rounds == []
    ensures g.settings == DefaultSettings() && ValidSettings(g.settings)
    ensures StatusFrom(StatusName(g.status)) == Some(Init)
  {
    Game(None, Some(hostId), Init, DefaultSettings(), [])
  }
}
