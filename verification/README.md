# Hangman game logic in Dafny

This project models the game logic of a one- or two-player pygame hangman
game (`my-hangman-game`). All drawing, sound, and event polling are removed. Two parts are modelled:

- **The per-player ledger** (`Player` in `player.py`), in module `Players`:
  - the letters a player has guessed;
  - the score;
  - the hint budget: three hints per game, plus a per-round "hint used" flag.
- **The round and session state machine** (`HangmanGame` in `main.py`). It is split across three modules:
  - `Rounds` holds one round's word, its guessed letters and the wrong-guess counter `hangman_status`. The counter is capped at `len(IMAGES) - 1 = 7`. The module also holds the letter board, the word-completion test and the masked word.
  - `Game` holds the session: the players, the current player index, the round counter and the phase (`playing`, `end_of_round`, `end_of_game_single_player`, `end_of_game_two_players_first`, `end_of_game_two_players_second`). It also holds the transitions: guessing, hints, the end-of-round check, scoring, round advance, the per-round reset, the handoff to the second player and the end-screen buttons.
  - `Summary` holds the pure screen decisions: the theme name, the rounds-left note and the winner.

`Common` provides ASCII stand-ins for `str.isalpha`, `str.isspace`/`strip` and `str.lower`, as well as `Option`/`Result`.

Every operation is a pure function on immutable datatypes. The invariant `Game.Valid` is shown to be established by `Start` and preserved by every transition. It covers:

- the wrong-guess counter equals min(7, number of wrong letters);
- the board shows exactly the unguessed letters;
- hint budgets stay in [0, 3] and scores stay non-negative;
- the round counter stays in [1, 3];
- the phase agrees with the round counter and the player position;
- the `end_of_round` phase is never entered.

Parameters stand in for what the game gets from outside:

- The secret word picked by `random.choice` is a parameter `word`. A `requires` demands that it be a key of the clue map for the session's difficulty.
- The clue map (loaded from JSON) is a parameter of type `Clues`.
- The mouse position is reduced to what it hits: a letter button index, the hint button, the Exit or Continue button, or nothing.

Points about the code worth knowing, all of them modelled as written:

- A word that is not blank but has no letters counts as guessed: `main.py:389-391` only rejects blank words, and `all(...)` over no letters is true.
- A guess is lower-cased and then compared case-sensitively with the word (`main.py:256-259`).
- Round points use the literal `7 - hangman_status` (`main.py:281`). This equals `len(IMAGES) - 1 - hangman_status`.
- `handle_button_click` has an `end_of_round` branch, but no code ever enters that phase. The phase is modelled; the invariant shows it is unreachable.
- A failed start is a `Failure(UnknownDifficulty)`, the KeyError of the word-map lookup in `start` (`main.py:145`), or a `Failure(NoWords)`, the IndexError of `random.choice` on an empty word list (`main.py:146`).

## Model

| member | source | states |
|---|---|---|
| Common.Lower | my-hangman-game/main.py:256 | upper-case ASCII letters map to their lower-case letter; every other character is unchanged |
| Players.NewPlayer | my-hangman-game/player.py:11-16 | a new player has score 0, three hints, the hint flag false and no guessed letters |
| Players.MakeGuess | my-hangman-game/player.py:18-24 | the letter joins the guessed letters; nothing else changes |
| Players.MakeGuessIdempotent | my-hangman-game/player.py:24 | recording the same letter twice is the same as once |
| Players.Reset | my-hangman-game/player.py:26-29 | guessed letters emptied and score set to 0; hints left and hint flag kept |
| Players.ResetKeepsLedger | my-hangman-game/player.py:26-29 | a reset keeps the hint budget valid, and resetting twice is the same as once |
| Players.UpdateScore | my-hangman-game/player.py:31-37 | the score grows by exactly the points given; no other field changes |
| Players.UpdateScoreAdditive | my-hangman-game/main.py:281-285 | two score updates equal one update by their sum |
| Players.UpdateScoreMonotone | my-hangman-game/player.py:37 | non-negative points never lower the score and keep the ledger valid |
| Players.ClueFor | my-hangman-game/player.py:52 | the stored clue when both difficulty and word are keys, otherwise "No clue available" |
| Players.ProvideHint | my-hangman-game/player.py:49-55 | with hints left: one fewer hint, flag set, clue returned; with none: "No hints left." and the player unchanged |
| Players.RequestHints | my-hangman-game/player.py:49-55 | over any series of requests, the number answered is min(requests, hints left) and the budget drops by exactly that many |
| Players.HintBudget | my-hangman-game/player.py:49-50 | the budget stays in [0, 3] and at most three requests are ever answered |
| Players.FreshPlayerHints | my-hangman-game/player.py:16 | a new player's fourth request gets "No hints left." |
| Players.HintIgnoresHintsUsed | my-hangman-game/player.py:49-53 | a hint already taken this round does not block another |
| Rounds.InitLetters | my-hangman-game/main.py:14-24 | 26 buttons, all visible, the i-th showing 'a' + i |
| Rounds.InitLettersCoversAlphabet | my-hangman-game/main.py:19-23 | every lower-case letter has exactly one button |
| Rounds.NewRound | my-hangman-game/main.py:158-164 | a new round has no guesses, a zero counter and satisfies the round invariant |
| Rounds.Guess | my-hangman-game/main.py:256-264 | repeat guess: no change; new letter: joins the set; the counter rises by one only for an absent letter below the cap |
| Rounds.GuessIdempotent | my-hangman-game/main.py:257 | guessing the same letter twice is the same as once |
| Rounds.WrongAfterGuess | my-hangman-game/main.py:259-264 | a new absent letter grows the wrong-letter count by one; a present one leaves it unchanged |
| Rounds.ClickLetter | my-hangman-game/main.py:252-265 | a visible button is hidden and its letter guessed; a hidden button or a miss changes nothing |
| Rounds.ClickPreservesValid | my-hangman-game/main.py:255-264 | the counter stays min(7, wrong letters) and the board stays in step with the guessed set |
| Rounds.RepeatClickIsNoop | my-hangman-game/main.py:254-257 | a second click on the same button changes nothing |
| Rounds.StatusBounded | my-hangman-game/main.py:263-264 | in a valid round 0 <= hangman_status <= 7 |
| Rounds.AllLettersGuessedMeaning | my-hangman-game/main.py:391 | the left-to-right `all` scan holds iff every alphabetic character is guessed |
| Rounds.IsWordGuessed | my-hangman-game/main.py:382-391 | true iff the word is not blank and every alphabetic character is guessed |
| Rounds.CatExample | my-hangman-game/main.py:382-391 | "cat" is complete with c, a and t guessed, but not without t |
| Rounds.WordGuessedMonotone | my-hangman-game/main.py:391 | more guessed letters never un-complete a word |
| Rounds.BlankNeverGuessed | my-hangman-game/main.py:389-390 | an empty or whitespace-only word is never guessed |
| Rounds.NoLettersVacuouslyGuessed | my-hangman-game/main.py:391 | a non-blank word with no letters counts as guessed |
| Rounds.RoundVerdict | my-hangman-game/main.py:191-198 | nothing is decided before the first guess; after it, a loss iff the counter has reached 7, and a win iff the counter is below 7 and the word is complete |
| Rounds.MaskedWord | my-hangman-game/main.py:564-569 | twice the word's length; slot i shows the character if guessed, else '_', and is followed by a space |
| Rounds.FullyGuessedIsShown | my-hangman-game/main.py:564-569 | once every character is guessed, the shown characters spell the word |
| Rounds.NonLettersStayMasked | my-hangman-game/main.py:564-569 | characters other than lower-case letters always show as '_' |
| Summary.ThemeName | my-hangman-game/main.py:542-556 | easy/medium/hard map to Food/Movie/CS Theme; the result is "Unknown Theme" iff the key is none of them |
| Summary.ThemeNameInjective | my-hangman-game/main.py:551-555 | distinct known difficulties have distinct themes |
| Summary.RoundsLeft | my-hangman-game/main.py:427-431 | "no more rounds" iff current >= total; otherwise a positive count that brings the current round to the total |
| Summary.Winner | my-hangman-game/main.py:462-467 | player 1 wins iff score1 > score2, player 2 iff score2 > score1, and a tie iff they are equal |
| Summary.WinnerSymmetric | my-hangman-game/main.py:462-467 | swapping the scores swaps the winner |
| Game.Start | my-hangman-game/main.py:135-149 | KeyError for an unknown difficulty and IndexError for an empty word map become failures; otherwise round 1 starts, in play, with a fresh round on the drawn word, the given players, index, difficulty and clue map, and no hint shown |
| Game.StartValid | my-hangman-game/main.py:101-149 | a start on valid players succeeds and satisfies the session invariant |
| Game.ResetGameState | my-hangman-game/main.py:151-167 | fresh round, hint display cleared, phase playing; the current player differs only by a cleared hint flag and every other player is unchanged; round and index untouched |
| Game.RequestHint | my-hangman-game/main.py:267-271 | the current player becomes the ledger's answer to `provide_hint` (one hint fewer and the flag set while hints last) and its message is shown; other players and the round unchanged |
| Game.HandleClick | my-hangman-game/main.py:251-274 | phase, round counter, player index and clue store stay fixed; a letter click is exactly the board click of `Rounds.ClickLetter` (at most one new guessed letter, no player touched, hint display unchanged); a hint click is exactly `Game.RequestHint`; a miss changes nothing |
| Game.HandleClickPreservesValid | my-hangman-game/main.py:251-271 | a click keeps the session invariant and never lowers the counter |
| Game.RoundPoints | my-hangman-game/main.py:279-285 | positive iff the word is complete and the counter is below 7; then at most 17 for a valid counter |
| Game.ScoringExample | my-hangman-game/main.py:279-285 | two wrong guesses score 15 without a hint and 5 with one |
| Game.UpdateScores | my-hangman-game/main.py:276-285 | only the current player's score changes, by the round's points |
| Game.WinAwardsPoints | my-hangman-game/main.py:279-285 | a won round adds (7 - counter) plus 10 if no hint was used: between 1 and 17 |
| Game.LossAwardsNothing | my-hangman-game/main.py:192-196 | a lost round leaves every score unchanged, even if the word is complete |
| Game.HandleEndOfRound | my-hangman-game/main.py:287-310 | before round 3: round + 1 and reset; at round 3: the terminal phase for the player count and position; index unchanged |
| Game.EndOfRoundAdvance | my-hangman-game/main.py:287-310 | the phase returns to playing iff the round was below 3; the terminal phase is single, second or first as the count and index say |
| Game.CheckRoundEnd | my-hangman-game/main.py:190-198 | an undecided round is untouched; a lost or won round is scored and then advanced |
| Game.CheckRoundEndPreservesValid | my-hangman-game/main.py:190-198 | the end-of-round check keeps the session invariant |
| Game.PlayTurn | my-hangman-game/main.py:181-198 | from a valid session in play, one click followed by the end-of-round check yields a valid session |
| Game.PlayTurnMonotone | my-hangman-game/main.py:181-198 | a turn never lowers any score and never raises any hint budget |
| Game.StatusCapped | my-hangman-game/main.py:263-264 | in a valid session the counter is in [0, 7] |
| Game.RoundsLeftMatchesAdvance | my-hangman-game/main.py:427-431 | "no more rounds left" is shown iff the ending round finishes the player's game |
| Game.HandleButtonClick | my-hangman-game/main.py:312-348 | Exit quits on end screens; Continue restarts after the last game over, resets after end_of_round, and hands over to the next player at round 1 after the first player's game over |
| Game.ButtonClickPreservesValid | my-hangman-game/main.py:338-344 | a click that keeps the game going keeps the session invariant |
| Game.HandleEndOfGame | my-hangman-game/main.py:350-359 | returns a next index exactly in the first player's game-over phase, and that index is in range |
| Game.HandoffAgrees | my-hangman-game/main.py:338-359 | the index Continue hands over to is the one `handle_end_of_game` returns |
| Game.HandoffResetsRound | my-hangman-game/main.py:338-344 | after the handoff, the next player starts a fresh round with their budget intact and hint flag cleared; no score changes |
| Game.TwoPlayerHandoff | my-hangman-game/main.py:297-344 | with two players, player 1 ending round 3 reaches the first-player game over, and Continue starts player 2 at round 1 |
| Game.SecondGameOverHasTwoPlayers | my-hangman-game/main.py:457-467 | the last game over has two players to compare, and the tie is exactly equal scores |

## Left out

- Drawing, fonts, images, sounds, `pygame.time.delay`, and every screen of `utils.py` are left out. These are presentation.
- The pixel geometry is left out: `Button.is_over`, the letter hit-test with `math.sqrt`, and the button coordinates of `_init_letters`. A click is reduced to the button it hits.
- Event polling is left out. `run` may process several clicks per frame before its end-of-round check; the model handles one click per turn (`PlayTurn`). `wait_for_user_input` is reduced to one button click.
- Loading the clue JSON, and falling back to an empty map when loading fails, are left out. The clue map is a parameter; an empty or incomplete map shows up as a `Start` failure.
- `random.choice` is left out. The drawn word is a parameter.
- Quitting (`pygame.quit()`, `quit()`) and the restart through `main()` are left out. They become the `Exit` and `NewGame` outcomes.
- The outer `main()` loop is left out, including its extra `current_round` increment on quit. It is process plumbing around `handle_end_of_round`.
- `guessed_word` is left out. It is only used to print the final word.
- The rounds-left, winner and theme texts are kept only as the decisions they encode. The surrounding f-string text is not modelled.
- Common.Lower: `str.lower`, `str.isalpha` and `str.isspace` are modelled on ASCII only, because the board only offers 'a'..'z'. Non-ASCII letters and whitespace in a word are treated as non-letters and non-space.
- `total_players` is modelled as the length of the player list. `main()` always creates them equal.
- The rules screen claims one hint per round. The code does not enforce it, and the model follows the code (`Players.HintIgnoresHintsUsed`).
