/** The small pure decisions `main.py` makes while drawing its screens:
    the theme shown for a difficulty, the rounds-left note after a round,
    and the winner of a two-player game. */
module Summary {

  const UnknownTheme := "Unknown Theme"

  /** `get_theme_name`: a fixed table with a fallback for any other key. */
  function ThemeName(difficulty: string): (t: string)
    ensures difficulty == "easy" ==> t == "Food Theme"
    ensures difficulty == "medium" ==> t == "Movie Theme"
    ensures difficulty == "hard" ==> t == "CS Theme"
    ensures t == UnknownTheme <==> difficulty !in {"easy", "medium", "hard"}
  {
    var themes := map["easy" := "Food Theme", "medium" := "Movie Theme", "hard" := "CS Theme"];
    if difficulty in themes then themes[difficulty] else UnknownTheme
  }

  /** Distinct known difficulties show distinct themes. */
  lemma ThemeNameInjective(d1: string, d2: string)
    requires d1 in {"easy", "medium", "hard"} && d2 in {"easy", "medium", "hard"}
    requires ThemeName(d1) == ThemeName(d2)
    ensures d1 == d2
  {
  }

  datatype RoundsLeftNote = NoMoreRounds | MoreRounds(count: int)

  /** The note of `display_end_round_message`: `total - current` rounds
      remain, and none at all once that is zero or below. */
  function RoundsLeft(totalRounds: int, currentRound: int): (n: RoundsLeftNote)
    ensures n == NoMoreRounds <==> currentRound >= totalRounds
    ensures n.MoreRounds? ==> n.count > 0 && currentRound + n.count == totalRounds
  {
    var gamesLeft := totalRounds - currentRound;
    if gamesLeft <= 0 then NoMoreRounds else MoreRounds(gamesLeft)
  }

  datatype Outcome = Player1Wins | Player2Wins | Tie

  /** The winner line of `display_game_over_two_players`: the higher score
      wins and equal scores tie. */
  function Winner(score1: int, score2: int): (o: Outcome)
    ensures o == Player1Wins <==> score1 > score2
    ensures o == Player2Wins <==> score2 > score1
    ensures o == Tie <==> score1 == score2
  {
    if score1 > score2 then Player1Wins
    else if score2 > score1 then Player2Wins
    else Tie
  }

  function Mirror(o: Outcome): Outcome {
    match o
    case Player1Wins => Player2Wins
    case Player2Wins => Player1Wins
    case Tie => Tie
  }

  /** Swapping the two scores swaps the winner; no player is favoured. */
  lemma WinnerSymmetric(score1: int, score2: int)
    ensures Winner(score2, score1) == Mirror(Winner(score1, score2))
  {
  }
}
