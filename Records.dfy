/** A finished game as stored in the game history: its settings, its column
    log and its result, with the two texts the history list shows. */
module Records {
  import opened Types
  import opened Text

  /** A stored game. */
  datatype GameRecord = GameRecord(settings: GameSettings, moves: seq<int>, result: GameResult)

  /** "<red name> vs <yellow name>". */
  function PlayersText(s: GameSettings): (t: string)
    ensures |t| == |s.redPlayerName| + 4 + |s.yellowPlayerName|
    ensures t[..|s.redPlayerName|] == s.redPlayerName
    ensures t[|s.redPlayerName|..|s.redPlayerName| + 4] == " vs "
    ensures t[|t| - |s.yellowPlayerName|..] == s.yellowPlayerName
  {
    s.redPlayerName + " vs " + s.yellowPlayerName
  }

  /** The fixed wording that follows the winner's name (or stands alone for
      a draw or an unfinished game). */
  function ResultWording(r: GameResult): string {
    match r
    case RedWonConnect | YellowWonConnect => " won"
    case RedWonOnTime | YellowWonOnTime => " won on time"
    case RedWonByForfeit | YellowWonByForfeit => " won by forfeit"
    case Draw => "Draw"
    case Unknown => "Unknown result"
  }

  /** The winner's name, or nothing for a draw or an unfinished game. */
  function WinnerName(s: GameSettings, r: GameResult): string {
    match Winner(r)
    case Some(p) => PlayerName(s, p)
    case None => ""
  }

  /** The history list's description of a result. */
  function ResultText(s: GameSettings, r: GameResult): string {
    match r
    case RedWonConnect => s.redPlayerName + " won"
    case YellowWonConnect => s.yellowPlayerName + " won"
    case RedWonOnTime => s.redPlayerName + " won on time"
    case YellowWonOnTime => s.yellowPlayerName + " won on time"
    case RedWonByForfeit => s.redPlayerName + " won by forfeit"
    case YellowWonByForfeit => s.yellowPlayerName + " won by forfeit"
    case Draw => "Draw"
    case Unknown => "Unknown result"
  }

  /** The result text depends on the settings only through the two
      player names. */
  lemma ResultTextUsesOnlyNames(s1: GameSettings, s2: GameSettings, r: GameResult)
    requires s1.redPlayerName == s2.redPlayerName && s1.yellowPlayerName == s2.yellowPlayerName
    ensures ResultText(s1, r) == ResultText(s2, r)
  {
  }

  /** A result text is the winner's name (if any) followed by a wording
      that says how the game ended. */
  lemma ResultTextShape(s: GameSettings, r: GameResult)
    ensures ResultText(s, r) == WinnerName(s, r) + ResultWording(r)
    ensures Winner(r).None? ==> ResultText(s, r) == ResultWording(r)
  {
  }

  /** The five wordings end differently, so the last two characters of a
      wording tell which one it is. */
  lemma WordingsDiffer(r1: GameResult, r2: GameResult)
    requires ResultWording(r1)[|ResultWording(r1)| - 2..] == ResultWording(r2)[|ResultWording(r2)| - 2..]
    ensures ResultWording(r1) == ResultWording(r2)
  {
  }

  /** Two results of one game get the same text only when they are the same
      result, provided the two players have different names. */
  lemma ResultTextInjective(s: GameSettings, r1: GameResult, r2: GameResult)
    requires s.redPlayerName != s.yellowPlayerName
    ensures ResultText(s, r1) == ResultText(s, r2) <==> r1 == r2
  {
    if ResultText(s, r1) == ResultText(s, r2) {
      ResultTextShape(s, r1);
      ResultTextShape(s, r2);
      var w1, w2 := ResultWording(r1), ResultWording(r2);
      SameEnding(WinnerName(s, r1), w1, WinnerName(s, r2), w2);
      WordingsDiffer(r1, r2);
      CancelEnding(WinnerName(s, r1), WinnerName(s, r2), w1);
    }
  }
}
