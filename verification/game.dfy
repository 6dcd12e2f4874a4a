/** The round and session state machine of `HangmanGame` in `main.py`:
    letter and hint clicks while playing, the end-of-round check, scoring,
    round advance, the per-round reset, the handoff from the first to the
    second player, and the end-of-game buttons. Each operation is a pure
    function from one session to the next. */
module Game {
  import opened Common
  import opened Players
  import opened Rounds
  import opened Summary

  /** `self.total_rounds`: each player plays three rounds. */
  const TotalRounds := 3
  /** The bonus for winning a round without a hint. */
  const NoHintBonus := 10

  /** The values of `self.game_state`. */
  datatype Phase =
    | Playing
    | EndOfRound
    | EndOfGameSinglePlayer
    | EndOfGameTwoPlayersFirst
    | EndOfGameTwoPlayersSecond

  datatype Session = Session(
    players: seq<Player>,
    currentPlayerIndex: int,
    currentRound: int,
    difficulty: string,
    clues: Clues,
    round: RoundState,
    hintActive: bool,
    hintMessage: string,
    phase: Phase)

  /** What a click while playing lands on. */
  datatype Target = LetterButtonAt(index: int) | HintButton | Elsewhere

  /** What a click on an end-of-game screen lands on. */
  datatype Button = ExitButton | ContinueButton | NoButton

  /** The result of a click on an end-of-game screen: the game goes on, the
      process exits, or `main()` starts a brand-new game. */
  datatype ClickOutcome = Stay(session: Session) | Exit | NewGame

  datatype StartError = UnknownDifficulty | NoWords

  /** `word` is a word the random choice over the session's difficulty may return. */
  predicate CanDraw(s: Session, word: string) {
    s.difficulty in s.clues && word in s.clues[s.difficulty]
  }

  /** The terminal phase `handle_end_of_round` selects after a player's last round. */
  function GameOverPhase(totalPlayers: int, index: int): Phase {
    if totalPlayers == 1 then EndOfGameSinglePlayer
    else if index + 1 == totalPlayers then EndOfGameTwoPlayersSecond
    else EndOfGameTwoPlayersFirst
  }

  /** The session invariant. The `end_of_round` state is never entered. */
  predicate Valid(s: Session) {
    && |s.players| >= 1
    && 0 <= s.currentPlayerIndex < |s.players|
    && 1 <= s.currentRound <= TotalRounds
    && CanDraw(s, s.round.word)
    && RoundValid(s.round)
    && (forall j | 0 <= j < |s.players| :: LedgerValid(s.players[j]))
    && s.phase != EndOfRound
    && (s.phase != Playing ==>
          s.currentRound == TotalRounds &&
          s.phase == GameOverPhase(|s.players|, s.currentPlayerIndex))
  }

  /** `HangmanGame.__init__` followed by `start(difficulty)`; the word map
      lookup raises KeyError for an unknown difficulty and `random.choice`
      raises IndexError on an empty word map. */
  function Start(players: seq<Player>, index: int, difficulty: string, clues: Clues, word: string)
    : (r: Result<Session, StartError>)
    requires difficulty in clues && clues[difficulty] != map[] ==> word in clues[difficulty]
    ensures difficulty !in clues ==> r == Failure(UnknownDifficulty)
    ensures difficulty in clues && clues[difficulty] == map[] ==> r == Failure(NoWords)
    ensures r.Success? ==>
      && r.value.round == NewRound(word) && r.value.phase == Playing
      && r.value.currentRound == 1 && r.value.players == players && !r.value.hintActive
    ensures r.Success? ==>
      && r.value.currentPlayerIndex == index && r.value.difficulty == difficulty
      && r.value.clues == clues && r.value.hintMessage == ""
    ensures (&& r.Success? && |players| >= 1 && 0 <= index < |players|
             && (forall j | 0 <= j < |players| :: LedgerValid(players[j]))) ==> Valid(r.value)
  {
    if difficulty !in clues then Failure(UnknownDifficulty)
    else if clues[difficulty] == map[] then Failure(NoWords)
    else Success(Session(players, index, 1, difficulty, clues, NewRound(word), false, "", Playing))
  }

  /** `reset_game_state`: a fresh round on `word`, the hint display cleared,
      the phase back to playing and the current player's per-round hint flag
      cleared. Scores, hint budgets, the round counter and the player index
      are untouched. */
  function ResetGameState(s: Session, word: string): (r: Session)
    requires 0 <= s.currentPlayerIndex < |s.players|
    requires CanDraw(s, word)
    ensures r.round == NewRound(word) && r.round.guessed == {} && r.round.status == 0
    ensures !r.hintActive && r.hintMessage == "" && r.phase == Playing
    ensures r.currentRound == s.currentRound && r.currentPlayerIndex == s.currentPlayerIndex
    ensures r.difficulty == s.difficulty && r.clues == s.clues
    ensures |r.players| == |s.players|
    ensures forall j | 0 <= j < |s.players| ::
      r.players[j].score == s.players[j].score && r.players[j].hintsLeft == s.players[j].hintsLeft
    ensures !r.players[s.currentPlayerIndex].hintsUsed
    ensures r.players[s.currentPlayerIndex] == s.players[s.currentPlayerIndex].(hintsUsed := false)
    ensures forall j | 0 <= j < |s.players| && j != s.currentPlayerIndex :: r.players[j] == s.players[j]
  {
    var current := s.players[s.currentPlayerIndex];
    s.(round := NewRound(word), hintActive := false, hintMessage := "", phase := Playing,
       players := s.players[s.currentPlayerIndex := current.(hintsUsed := false)])
  }

  /** `provide_hint` of the game plus the hint branch of `_handle_events`:
      the current player's ledger answers and the answer is put on screen. */
  function RequestHint(s: Session): (r: Session)
    requires 0 <= s.currentPlayerIndex < |s.players|
    ensures r.hintActive
    ensures r.hintMessage ==
      ProvideHint(s.players[s.currentPlayerIndex], s.clues, s.difficulty, s.round.word).message
    ensures r == s.(players := r.players, hintActive := true, hintMessage := r.hintMessage)
    ensures |r.players| == |s.players|
    ensures forall j | 0 <= j < |s.players| && j != s.currentPlayerIndex :: r.players[j] == s.players[j]
    ensures r.players[s.currentPlayerIndex] ==
      ProvideHint(s.players[s.currentPlayerIndex], s.clues, s.difficulty, s.round.word).player
  {
    var reply := ProvideHint(s.players[s.currentPlayerIndex], s.clues, s.difficulty, s.round.word);
    s.(players := s.players[s.currentPlayerIndex := reply.player],
       hintMessage := reply.message, hintActive := true)
  }

  /** `_handle_events` while playing: a visible letter button makes a guess,
      the hint button asks for a hint, anything else changes nothing. */
  function HandleClick(s: Session, t: Target): (r: Session)
    requires 0 <= s.currentPlayerIndex < |s.players|
    ensures r.phase == s.phase && r.currentRound == s.currentRound
    ensures r.currentPlayerIndex == s.currentPlayerIndex
    ensures r.difficulty == s.difficulty && r.clues == s.clues
    ensures t.LetterButtonAt? ==> r.players == s.players && r.round.word == s.round.word
    ensures t.LetterButtonAt? ==> s.round.guessed <= r.round.guessed && |r.round.guessed - s.round.guessed| <= 1
    ensures !t.LetterButtonAt? ==> r.round == s.round
    ensures t.HintButton? ==> r.hintActive
    ensures t.Elsewhere? ==> r == s
    ensures t.LetterButtonAt? ==> r == s.(round := ClickLetter(s.round, t.index))
    ensures t.HintButton? ==> r == RequestHint(s)
  {
    match t
    case LetterButtonAt(i) => s.(round := ClickLetter(s.round, i))
    case HintButton => RequestHint(s)
    case Elsewhere => s
  }

  /** The points a finished round is worth: the remaining lives, plus the
      bonus when no hint was taken, and nothing unless the word is complete
      and the player was not hanged. */
  function RoundPoints(r: RoundState, hintsUsed: bool): (p: int)
    ensures p > 0 <==> r.status < MaxWrong && IsWordGuessed(r.word, r.guessed)
    ensures p <= 0 ==> p == 0
    ensures 0 <= r.status ==> p <= MaxWrong + NoHintBonus
  {
    if IsWordGuessed(r.word, r.guessed) && r.status < MaxWrong then
      (MaxWrong - r.status) + (if hintsUsed then 0 else NoHintBonus)
    else 0
  }

  /** Winning "cat" after two wrong guesses scores 15 without a hint and 5 with one. */
  lemma ScoringExample(letters: seq<LetterButton>)
    ensures RoundPoints(RoundState("cat", {'c', 'a', 't', 'b', 'd'}, 2, letters), false) == 15
    ensures RoundPoints(RoundState("cat", {'c', 'a', 't', 'b', 'd'}, 2, letters), true) == 5
  {
    assert !IsSpace("cat"[0]);
    assert forall i | 0 <= i < 3 :: "cat"[i] in {'c', 'a', 't', 'b', 'd'};
  }

  /** `update_scores`: two `update_score` calls on the current player, the
      remaining lives and then the no-hint bonus. */
  function UpdateScores(s: Session): (r: Session)
    requires 0 <= s.currentPlayerIndex < |s.players|
    ensures r == s.(players := r.players)
    ensures |r.players| == |s.players|
    ensures forall j | 0 <= j < |s.players| && j != s.currentPlayerIndex :: r.players[j] == s.players[j]
    ensures var before := s.players[s.currentPlayerIndex];
      r.players[s.currentPlayerIndex] ==
        before.(score := before.score + RoundPoints(s.round, before.hintsUsed))
  {
    var current := s.players[s.currentPlayerIndex];
    if IsWordGuessed(s.round.word, s.round.guessed) && s.round.status < MaxWrong then
      var lives := UpdateScore(current, 7 - s.round.status);
      var withBonus := if !lives.hintsUsed then UpdateScore(lives, 10) else lives;
      s.(players := s.players[s.currentPlayerIndex := withBonus])
    else
      s
  }

  /** `handle_end_of_round`, with its three-way split on the player count
      and position kept as written. Before the last round it advances the
      round and resets; after it, it selects the terminal phase. */
  function HandleEndOfRound(s: Session, word: string): (r: Session)
    requires 0 <= s.currentPlayerIndex < |s.players|
    requires CanDraw(s, word)
    ensures r.currentPlayerIndex == s.currentPlayerIndex
    ensures s.currentRound < TotalRounds ==>
      r == ResetGameState(s.(currentRound := s.currentRound + 1), word)
    ensures s.currentRound >= TotalRounds ==>
      r == s.(phase := GameOverPhase(|s.players|, s.currentPlayerIndex))
  {
    if |s.players| == 1 then
      if s.currentRound < TotalRounds then ResetGameState(s.(currentRound := s.currentRound + 1), word)
      else s.(phase := EndOfGameSinglePlayer)
    else if s.currentPlayerIndex + 1 == |s.players| then
      if s.currentRound < TotalRounds then ResetGameState(s.(currentRound := s.currentRound + 1), word)
      else s.(phase := EndOfGameTwoPlayersSecond)
    else
      if s.currentRound < TotalRounds then ResetGameState(s.(currentRound := s.currentRound + 1), word)
      else s.(phase := EndOfGameTwoPlayersFirst)
  }

  /** The end-of-round check of `run`: once a guess exists, a hanged player
      loses first, otherwise a complete word wins; either way the scores
      are updated and the round ends. `word` is the next round's word. */
  function CheckRoundEnd(s: Session, word: string): (r: Session)
    requires 0 <= s.currentPlayerIndex < |s.players|
    requires CanDraw(s, word)
    ensures RoundVerdict(s.round) == Undecided ==> r == s
    ensures RoundVerdict(s.round) != Undecided ==> r == HandleEndOfRound(UpdateScores(s), word)
  {
    if s.round.guessed != {} then
      if s.round.status >= MaxWrong then HandleEndOfRound(UpdateScores(s), word)
      else if IsWordGuessed(s.round.word, s.round.guessed) then HandleEndOfRound(UpdateScores(s), word)
      else s
    else s
  }

  /** One click while playing, then the end-of-round check. */
  function PlayTurn(s: Session, t: Target, word: string): (r: Session)
    requires 0 <= s.currentPlayerIndex < |s.players|
    requires CanDraw(s, word)
    ensures Valid(s) && s.phase == Playing ==> Valid(r)
  {
    var s1 := HandleClick(s, t);
    assert Valid(s) && s.phase == Playing ==> Valid(CheckRoundEnd(s1, word)) by {
      if Valid(s) && s.phase == Playing {
        HandleClickPreservesValid(s, t);
        CheckRoundEndPreservesValid(s1, word);
      }
    }
    CheckRoundEnd(s1, word)
  }

  /** `handle_button_click`: Exit quits from every end screen; Continue
      resets after `end_of_round`, starts a new game after the last player's
      game over, and hands over to the next player after the first player's
      game over. Clicks while playing are not handled here. */
  function HandleButtonClick(s: Session, b: Button, word: string): (o: ClickOutcome)
    requires 0 <= s.currentPlayerIndex < |s.players|
    requires CanDraw(s, word)
    ensures b == NoButton || s.phase == Playing ==> o == Stay(s)
    ensures b == ExitButton && s.phase != Playing ==> o == Exit
    ensures b == ContinueButton && s.phase in {EndOfGameSinglePlayer, EndOfGameTwoPlayersSecond} ==>
      o == NewGame
    ensures b == ContinueButton && s.phase == EndOfRound ==> o == Stay(ResetGameState(s, word))
    ensures b == ContinueButton && s.phase == EndOfGameTwoPlayersFirst ==>
      o.Stay? && o.session.phase == Playing && o.session.currentRound == 1 &&
      o.session.currentPlayerIndex == (s.currentPlayerIndex + 1) % |s.players|
  {
    match s.phase
    case EndOfRound =>
      if b == ExitButton then Exit
      else if b == ContinueButton then Stay(ResetGameState(s, word))
      else Stay(s)
    case EndOfGameSinglePlayer | EndOfGameTwoPlayersSecond =>
      if b == ExitButton then Exit
      else if b == ContinueButton then NewGame
      else Stay(s)
    case EndOfGameTwoPlayersFirst =>
      if b == ContinueButton then
        var next := s.(currentPlayerIndex := (s.currentPlayerIndex + 1) % |s.players|, currentRound := 1);
        Stay(ResetGameState(next, word))
      else if b == ExitButton then Exit
      else Stay(s)
    case Playing => Stay(s)
  }

  /** `handle_end_of_game`: the next player's index, only after the first
      player's game over. */
  function HandleEndOfGame(s: Session): (r: Option<int>)
    requires s.phase == EndOfGameTwoPlayersFirst ==> |s.players| > 0
    ensures r.Some? <==> s.phase == EndOfGameTwoPlayersFirst
    ensures r.Some? ==> 0 <= r.value < |s.players|
  {
    if s.phase == EndOfGameTwoPlayersFirst then Some((s.currentPlayerIndex + 1) % |s.players|) else None
  }

  /** The rounds-left note is shown before the round advances, so "no more
      rounds" is shown exactly when the round ends the player's game. */
  function RoundsLeftNow(s: Session): (n: RoundsLeftNote) {
    RoundsLeft(TotalRounds, s.currentRound)
  }

  // ---------------------------------------------------------------------
  // Properties of the state machine
  // ---------------------------------------------------------------------

  /** Guessing keeps a valid session valid; a hint request too. */
  lemma HandleClickPreservesValid(s: Session, t: Target)
    requires Valid(s)
    ensures Valid(HandleClick(s, t))
    ensures s.round.status <= HandleClick(s, t).round.status
  {
    match t
    case LetterButtonAt(i) => ClickPreservesValid(s.round, i);
    case HintButton =>
      var r := RequestHint(s);
      assert LedgerValid(r.players[s.currentPlayerIndex]);
    case Elsewhere =>
  }

  /** The end-of-round check keeps a valid session valid. */
  lemma CheckRoundEndPreservesValid(s: Session, word: string)
    requires Valid(s) && s.phase == Playing && CanDraw(s, word)
    ensures Valid(CheckRoundEnd(s, word))
  {
  }

  /** A handoff or any other end-screen click that keeps the game going
      leaves a valid session valid. */
  lemma ButtonClickPreservesValid(s: Session, b: Button, word: string)
    requires Valid(s) && CanDraw(s, word)
    requires HandleButtonClick(s, b, word).Stay?
    ensures Valid(HandleButtonClick(s, b, word).session)
  {
  }

  /** A session started on valid players is valid. */
  lemma StartValid(players: seq<Player>, index: int, difficulty: string, clues: Clues, word: string)
    requires |players| >= 1 && 0 <= index < |players|
    requires forall j | 0 <= j < |players| :: LedgerValid(players[j])
    requires difficulty in clues && word in clues[difficulty]
    ensures Start(players, index, difficulty, clues, word).Success?
    ensures Valid(Start(players, index, difficulty, clues, word).value)
  {
  }

  /** A turn never lowers a score and never raises a hint budget. */
  lemma PlayTurnMonotone(s: Session, t: Target, word: string, j: int)
    requires Valid(s) && s.phase == Playing && CanDraw(s, word)
    requires 0 <= j < |s.players|
    ensures |PlayTurn(s, t, word).players| == |s.players|
    ensures PlayTurn(s, t, word).players[j].score >= s.players[j].score
    ensures PlayTurn(s, t, word).players[j].hintsLeft <= s.players[j].hintsLeft
  {
  }

  /** The guess-counter cap is never exceeded in a valid session. */
  lemma StatusCapped(s: Session)
    requires Valid(s)
    ensures 0 <= s.round.status <= MaxWrong
  {
    StatusBounded(s.round);
  }

  /** A lost round awards nothing, even when the word is also complete. */
  lemma LossAwardsNothing(s: Session, word: string)
    requires Valid(s) && CanDraw(s, word)
    requires RoundVerdict(s.round) == Lost
    ensures |CheckRoundEnd(s, word).players| == |s.players|
    ensures forall j | 0 <= j < |s.players| ::
      CheckRoundEnd(s, word).players[j].score == s.players[j].score
  {
  }

  /** A won round awards the current player between 1 and 17 points: the
      remaining lives, plus 10 if no hint was taken this round. */
  lemma WinAwardsPoints(s: Session, word: string)
    requires Valid(s) && CanDraw(s, word)
    requires RoundVerdict(s.round) == Won
    ensures var i := s.currentPlayerIndex;
      var p := s.players[i];
      var gained := CheckRoundEnd(s, word).players[i].score - p.score;
      1 <= gained <= MaxWrong + NoHintBonus &&
      gained == (MaxWrong - s.round.status) + (if p.hintsUsed then 0 else NoHintBonus)
  {
  }

  /** Round advance: before the last round the round counter rises by one
      and play resumes; after it the phase is terminal, chosen by player
      count and position. The player index never changes. */
  lemma EndOfRoundAdvance(s: Session, word: string)
    requires Valid(s) && CanDraw(s, word) && s.phase == Playing
    ensures var r := HandleEndOfRound(s, word);
      && r.currentPlayerIndex == s.currentPlayerIndex
      && (s.currentRound < TotalRounds <==> r.phase == Playing)
      && (s.currentRound < TotalRounds ==> r.currentRound == s.currentRound + 1)
      && (s.currentRound == TotalRounds && |s.players| == 1 ==> r.phase == EndOfGameSinglePlayer)
      && ((s.currentRound == TotalRounds && |s.players| != 1 && s.currentPlayerIndex + 1 == |s.players|)
            ==> r.phase == EndOfGameTwoPlayersSecond)
      && ((s.currentRound == TotalRounds && |s.players| != 1 && s.currentPlayerIndex + 1 != |s.players|)
            ==> r.phase == EndOfGameTwoPlayersFirst)
  {
  }

  /** "No more rounds left" is shown exactly when the round that just ended
      finishes the player's game. */
  lemma RoundsLeftMatchesAdvance(s: Session, word: string)
    requires Valid(s) && CanDraw(s, word) && s.phase == Playing
    ensures RoundsLeftNow(s) == NoMoreRounds <==> HandleEndOfRound(s, word).phase != Playing
    ensures RoundsLeftNow(s).MoreRounds? ==>
      RoundsLeftNow(s).count == TotalRounds - s.currentRound
  {
  }

  /** `handle_end_of_game` names the player the Continue button hands over to. */
  lemma HandoffAgrees(s: Session, word: string)
    requires Valid(s) && CanDraw(s, word) && s.phase == EndOfGameTwoPlayersFirst
    ensures HandleEndOfGame(s).Some?
    ensures HandleButtonClick(s, ContinueButton, word).Stay?
    ensures HandleButtonClick(s, ContinueButton, word).session.currentPlayerIndex ==
      HandleEndOfGame(s).value
  {
  }

  /** The handoff gives the next player a fresh round 1 with their own hint
      budget intact and their per-round hint flag cleared; nobody's score
      changes. */
  lemma HandoffResetsRound(s: Session, word: string)
    requires Valid(s) && CanDraw(s, word) && s.phase == EndOfGameTwoPlayersFirst
    ensures var r := HandleButtonClick(s, ContinueButton, word).session;
      var next := (s.currentPlayerIndex + 1) % |s.players|;
      && r.round == NewRound(word)
      && !r.players[next].hintsUsed
      && r.players[next].hintsLeft == s.players[next].hintsLeft
      && (forall j | 0 <= j < |s.players| :: r.players[j].score == s.players[j].score)
  {
  }

  /** Two players: once the first player ends round 3, the phase is
      `end_of_game_two_players_first`; Continue then gives the second player
      round 1, independent of the first player's rounds. */
  lemma TwoPlayerHandoff(s: Session, t: Target, word: string, word2: string)
    requires Valid(s) && s.phase == Playing && CanDraw(s, word) && CanDraw(s, word2)
    requires |s.players| == 2 && s.currentPlayerIndex == 0 && s.currentRound == TotalRounds
    requires RoundVerdict(HandleClick(s, t).round) != Undecided
    ensures PlayTurn(s, t, word).phase == EndOfGameTwoPlayersFirst
    ensures var o := HandleButtonClick(PlayTurn(s, t, word), ContinueButton, word2);
      o.Stay? && o.session.currentPlayerIndex == 1 && o.session.currentRound == 1 &&
      o.session.phase == Playing
  {
  }

  /** At the last player's game over there are two players to compare. */
  lemma SecondGameOverHasTwoPlayers(s: Session)
    requires Valid(s) && s.phase == EndOfGameTwoPlayersSecond
    ensures |s.players| >= 2
    ensures Winner(s.players[0].score, s.players[1].score) == Tie <==>
      s.players[0].score == s.players[1].score
  {
  }
}
