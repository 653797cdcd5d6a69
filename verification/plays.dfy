/** The play-by-play records the scoring pipeline reads. The data provider's
    objects are taken as immutable values; only the fields the script reads
    are kept. */
module Plays {

  /** One play: its free-text description and the situational fields
      `yrdln`, `ydstogo`, `qtr`, `time` and `posteam`. */
  datatype Play = Play(
    desc: string,        // free-text description of what happened
    yardLine: string,    // "50", or a team code and a yard number such as "NE 35"
    yardsToGo: int,      // yards needed for a first down
    quarter: int,        // 1-4, 5 for overtime
    clock: string,       // time remaining in the quarter, "MM:SS"
    posTeam: string      // code of the team in possession
  )

  /** A game: the two team codes and every play in chronological order. */
  datatype Game = Game(home: string, away: string, plays: seq<Play>)

  /** A play with the game it belongs to (the play's `drive.game` back-reference). */
  datatype GamePlay = GamePlay(play: Play, game: Game)
}
