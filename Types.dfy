/** Value types shared by the live game, the replay and the record:
    the two players, the game result and the game settings. */
module Types {

  datatype Option<+T> = None | Some(value: T)

  /** The colour of a player (and of a chip). */
  datatype Player = Red | Yellow

  /** The other player. */
  function Opponent(p: Player): (q: Player)
    ensures q != p
  {
    if p == Red then Yellow else Red
  }

  /** How a game ended; `Unknown` means the game is still in progress. */
  datatype GameResult =
    | RedWonConnect
    | YellowWonConnect
    | RedWonOnTime
    | YellowWonOnTime
    | RedWonByForfeit
    | YellowWonByForfeit
    | Draw
    | Unknown

  /** The player a result names as winner, if any. */
  function Winner(r: GameResult): (w: Option<Player>)
    ensures w.None? <==> r == Draw || r == Unknown
    ensures w == Some(Red) <==> r == RedWonConnect || r == RedWonOnTime || r == RedWonByForfeit
    ensures w == Some(Yellow) <==> r == YellowWonConnect || r == YellowWonOnTime || r == YellowWonByForfeit
  {
    match r
    case RedWonConnect | RedWonOnTime | RedWonByForfeit => Some(Red)
    case YellowWonConnect | YellowWonOnTime | YellowWonByForfeit => Some(Yellow)
    case Draw | Unknown => None
  }

  /** Result of `p` completing four in a row. */
  function ConnectWin(p: Player): (r: GameResult)
    ensures Winner(r) == Some(p) && (r == RedWonConnect || r == YellowWonConnect)
  {
    match p
    case Red => RedWonConnect
    case Yellow => YellowWonConnect
  }

  /** Result of `p` winning because the opponent's clock ran out. */
  function TimeWin(p: Player): (r: GameResult)
    ensures Winner(r) == Some(p) && (r == RedWonOnTime || r == YellowWonOnTime)
  {
    match p
    case Red => RedWonOnTime
    case Yellow => YellowWonOnTime
  }

  /** Result of `p` winning because the opponent forfeited. */
  function ForfeitWin(p: Player): (r: GameResult)
    ensures Winner(r) == Some(p) && (r == RedWonByForfeit || r == YellowWonByForfeit)
  {
    match p
    case Red => RedWonByForfeit
    case Yellow => YellowWonByForfeit
  }

  /** Settings of one game session; `baseTimeMinutes == -1` (any value <= 0)
      means the game has no time limit. */
  datatype GameSettings = GameSettings(
    redPlayerName: string,
    yellowPlayerName: string,
    startingPlayer: Player,
    baseTimeMinutes: int,
    incrementSeconds: int)

  /** The settings a fresh settings object holds. */
  function DefaultSettings(): (s: GameSettings)
    ensures s.baseTimeMinutes <= 0 && s.incrementSeconds == 0 && s.startingPlayer == Red
    ensures s.redPlayerName != s.yellowPlayerName
  {
    GameSettings("Red", "Yellow", Red, -1, 0)
  }

  /** The name the settings give player `p`. */
  function PlayerName(s: GameSettings, p: Player): string {
    match p
    case Red => s.redPlayerName
    case Yellow => s.yellowPlayerName
  }
}
