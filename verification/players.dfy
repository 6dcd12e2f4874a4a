/** The per-player ledger of `player.py`: the letters a player guessed,
    their score, and the hint budget. A hint budget is per game, not per
    round: `hintsUsed` is cleared by the controller at every round, while
    `hintsLeft` only ever goes down. */
module Players {
  import opened Common

  /** Every player starts a game with this many hints. */
  const InitialHints := 3

  const NoClueMessage := "No clue available"
  const NoHintsMessage := "No hints left."

  datatype Player = Player(
    name: string,
    guessedLetters: set<char>,
    score: int,
    hintsUsed: bool,
    hintsLeft: int)

  /** The clue store: difficulty -> (word -> clue). */
  type Clues = map<string, map<string, string>>

  /** What a hint request yields: the updated player and the text shown. */
  datatype HintReply = HintReply(player: Player, message: string)

  /** The ledger invariant every player of a running game keeps. */
  predicate LedgerValid(p: Player) {
    0 <= p.hintsLeft <= InitialHints && p.score >= 0
  }

  function NewPlayer(name: string): (p: Player)
    ensures p.name == name && p.guessedLetters == {}
    ensures p.score == 0 && !p.hintsUsed && p.hintsLeft == InitialHints
    ensures LedgerValid(p)
  {
    Player(name, {}, 0, false, InitialHints)
  }

  function MakeGuess(p: Player, letter: char): (q: Player)
    ensures letter in q.guessedLetters
    ensures q.guessedLetters == p.guessedLetters + {letter}
    ensures q.name == p.name && q.score == p.score
    ensures q.hintsUsed == p.hintsUsed && q.hintsLeft == p.hintsLeft
  {
    p.(guessedLetters := p.guessedLetters + {letter})
  }

  /** Clears the guessed letters and the score; the hint budget survives. */
  function Reset(p: Player): (q: Player)
    ensures q.guessedLetters == {} && q.score == 0
    ensures q.name == p.name
    ensures q.hintsUsed == p.hintsUsed && q.hintsLeft == p.hintsLeft
  {
    p.(guessedLetters := {}, score := 0)
  }

  /** A reset keeps the ledger valid and a second reset changes nothing. */
  lemma ResetKeepsLedger(p: Player)
    ensures LedgerValid(p) ==> LedgerValid(Reset(p))
    ensures Reset(Reset(p)) == Reset(p)
  {
  }

  function UpdateScore(p: Player, points: int): (q: Player)
    ensures q.score - p.score == points
    ensures q == p.(score := q.score)
  {
    p.(score := p.score + points)
  }

  /** `words_clues.get(difficulty, {}).get(word, "No clue available")` */
  function ClueFor(clues: Clues, difficulty: string, word: string): (s: string)
    ensures difficulty in clues && word in clues[difficulty] ==> s == clues[difficulty][word]
    ensures !(difficulty in clues && word in clues[difficulty]) ==> s == NoClueMessage
  {
    var table := if difficulty in clues then clues[difficulty] else map[];
    if word in table then table[word] else NoClueMessage
  }

  /** Gives a hint while the budget lasts. It never looks at `hintsUsed`,
      so several hints may be taken in one round. */
  function ProvideHint(p: Player, clues: Clues, difficulty: string, word: string): (r: HintReply)
    ensures p.hintsLeft > 0 ==> r.player.hintsLeft == p.hintsLeft - 1 && r.player.hintsUsed
    ensures p.hintsLeft > 0 ==> r.message == ClueFor(clues, difficulty, word)
    ensures p.hintsLeft <= 0 ==> r.player == p && r.message == NoHintsMessage
    ensures r.player.name == p.name && r.player.score == p.score
    ensures r.player.guessedLetters == p.guessedLetters
  {
    if p.hintsLeft > 0 then
      HintReply(p.(hintsLeft := p.hintsLeft - 1, hintsUsed := true), ClueFor(clues, difficulty, word))
    else
      HintReply(p, NoHintsMessage)
  }

  /** Makes one hint request per word of `words`, in order, and returns the
      final player together with how many requests received a clue. */
  function RequestHints(p: Player, clues: Clues, difficulty: string, words: seq<string>): (r: (Player, nat))
    ensures r.1 == Min(|words|, Max(p.hintsLeft, 0))
    ensures r.0.hintsLeft == p.hintsLeft - r.1
    ensures r.0.score == p.score && r.0.name == p.name
    ensures r.1 > 0 ==> r.0.hintsUsed
    ensures r.1 == 0 ==> r.0 == p
    decreases |words|
  {
    if words == [] then (p, 0)
    else
      var reply := ProvideHint(p, clues, difficulty, words[0]);
      var rest := RequestHints(reply.player, clues, difficulty, words[1..]);
      (rest.0, rest.1 + (if p.hintsLeft > 0 then 1 else 0))
  }

  /** Whatever the requests, the budget stays within [0, 3] and at most
      three requests are ever answered with a clue. */
  lemma HintBudget(p: Player, clues: Clues, difficulty: string, words: seq<string>)
    requires LedgerValid(p)
    ensures var r := RequestHints(p, clues, difficulty, words);
      LedgerValid(r.0) && r.1 <= InitialHints && r.1 <= p.hintsLeft
  {
  }

  /** A fresh player who asks for hints k times gets max(0, 3 - k) left, and
      every request after the third answers "No hints left.". */
  lemma {:induction false} FreshPlayerHints(name: string, clues: Clues, difficulty: string, words: seq<string>)
    requires |words| > InitialHints
    ensures var after := RequestHints(NewPlayer(name), clues, difficulty, words[..InitialHints]).0;
      after.hintsLeft == 0 &&
      ProvideHint(after, clues, difficulty, words[InitialHints]).message == NoHintsMessage
  {
  }

  /** A hint taken earlier in the round does not block another one. */
  lemma HintIgnoresHintsUsed(p: Player, clues: Clues, difficulty: string, word: string)
    requires p.hintsUsed && p.hintsLeft > 0
    ensures ProvideHint(p, clues, difficulty, word).message == ClueFor(clues, difficulty, word)
    ensures ProvideHint(p, clues, difficulty, word).player.hintsLeft == p.hintsLeft - 1
  {
  }

  lemma MakeGuessIdempotent(p: Player, letter: char)
    ensures MakeGuess(MakeGuess(p, letter), letter) == MakeGuess(p, letter)
  {
  }

  /** `update_scores` awards its points in two calls; that is one award of the sum. */
  lemma UpdateScoreAdditive(p: Player, a: int, b: int)
    ensures UpdateScore(UpdateScore(p, a), b) == UpdateScore(p, a + b)
  {
  }

  lemma UpdateScoreMonotone(p: Player, points: int)
    requires points >= 0
    ensures UpdateScore(p, points).score >= p.score
    ensures LedgerValid(p) ==> LedgerValid(UpdateScore(p, points))
  {
  }
}
