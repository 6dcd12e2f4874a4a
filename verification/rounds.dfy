/** One round's guessing state of `HangmanGame` in `main.py`: the secret
    word, the set of guessed letters, the wrong-guess counter
    `hangman_status` (which picks one of the eight gallows images), and the
    on-screen letter board whose buttons vanish once clicked. */
module Rounds {
  import opened Common

  /** `len(IMAGES)`: hangman0.png .. hangman7.png. */
  const ImageCount := 8
  /** The highest wrong-guess counter, `len(IMAGES) - 1`; reaching it loses the round. */
  const MaxWrong := ImageCount - 1
  const AlphabetSize := 26

  datatype LetterButton = LetterButton(ch: char, visible: bool)

  datatype RoundState = RoundState(
    word: string,
    guessed: set<char>,
    status: int,
    letters: seq<LetterButton>)

  datatype Verdict = Undecided | Lost | Won

  /** The letter of the i-th board button, 'a' + i. */
  function LetterAt(i: int): (c: char)
    requires 0 <= i < AlphabetSize
    ensures IsLowerLetter(c)
    ensures c as int - 'a' as int == i
  {
    ('a' as int + i) as char
  }

  /** `_init_letters`, without the pixel coordinates: the 26 lower-case
      letters in alphabetical order, all visible. */
  function InitLetters(): (b: seq<LetterButton>)
    ensures |b| == AlphabetSize
    ensures forall i | 0 <= i < |b| :: b[i].visible && b[i].ch == LetterAt(i)
  {
    seq(AlphabetSize, i requires 0 <= i < AlphabetSize => LetterButton(LetterAt(i), true))
  }

  /** Every lower-case letter has exactly one button on a fresh board. */
  lemma InitLettersCoversAlphabet(c: char)
    requires IsLowerLetter(c)
    ensures exists i | 0 <= i < AlphabetSize :: InitLetters()[i].ch == c
    ensures forall i, j | 0 <= i < j < AlphabetSize :: InitLetters()[i].ch != InitLetters()[j].ch
  {
    var i := c as int - 'a' as int;
    assert InitLetters()[i].ch == c;
  }

  /** The wrong guesses: letters guessed that do not occur in the word. */
  function Wrong(word: string, guessed: set<char>): set<char> {
    set c | c in guessed && c !in word
  }

  /** The board shows exactly the letters not yet guessed, and only board
      letters are ever guessed. */
  predicate BoardAgrees(letters: seq<LetterButton>, guessed: set<char>) {
    && |letters| == AlphabetSize
    && (forall i | 0 <= i < |letters| :: letters[i].ch == LetterAt(i))
    && (forall i | 0 <= i < |letters| :: letters[i].visible <==> letters[i].ch !in guessed)
    && (forall c | c in guessed :: IsLowerLetter(c))
  }

  /** The round invariant: the counter is the number of wrong guesses,
      capped at MaxWrong, and the board mirrors the guessed set. */
  predicate RoundValid(r: RoundState) {
    && r.status == Min(|Wrong(r.word, r.guessed)|, MaxWrong)
    && BoardAgrees(r.letters, r.guessed)
  }

  /** The state `reset_game_state` starts a round in. */
  function NewRound(word: string): (r: RoundState)
    ensures r.word == word && r.guessed == {} && r.status == 0
    ensures RoundValid(r)
  {
    assert Wrong(word, {}) == {};
    RoundState(word, {}, 0, InitLetters())
  }

  lemma StatusBounded(r: RoundState)
    requires RoundValid(r)
    ensures 0 <= r.status <= MaxWrong
  {
  }

  /** The letter-guess branch of `_handle_events`, after the button is hidden:
      the letter is lower-cased, a repeat is ignored, a new letter joins the
      guessed set, and a letter missing from the word (compared
      case-sensitively) raises the counter by one unless it is already at
      MaxWrong. */
  function Guess(r: RoundState, ltr: char): (r': RoundState)
    ensures r'.word == r.word && r'.letters == r.letters
    ensures Lower(ltr) in r.guessed ==> r' == r
    ensures Lower(ltr) !in r.guessed ==> r'.guessed == r.guessed + {Lower(ltr)}
    ensures Lower(ltr) !in r.guessed && Lower(ltr) in r.word ==> r'.status == r.status
    ensures Lower(ltr) !in r.guessed && Lower(ltr) !in r.word && r.status < MaxWrong ==>
      r'.status == r.status + 1
    ensures r.status >= MaxWrong ==> r'.status == r.status
  {
    var g := Lower(ltr);
    if g !in r.guessed then
      var status' := if g !in r.word && r.status < MaxWrong then r.status + 1 else r.status;
      r.(guessed := r.guessed + {g}, status := status')
    else
      r
  }

  lemma GuessIdempotent(r: RoundState, ltr: char)
    ensures Guess(Guess(r, ltr), ltr) == Guess(r, ltr)
  {
  }

  /** Adding one new letter changes the wrong set by that letter exactly
      when the letter is missing from the word. */
  lemma WrongAfterGuess(word: string, guessed: set<char>, g: char)
    requires g !in guessed
    ensures g in word ==> Wrong(word, guessed + {g}) == Wrong(word, guessed)
    ensures g !in word ==> |Wrong(word, guessed + {g})| == |Wrong(word, guessed)| + 1
  {
    if g !in word {
      assert Wrong(word, guessed + {g}) == Wrong(word, guessed) + {g};
    } else {
      assert Wrong(word, guessed + {g}) == Wrong(word, guessed);
    }
  }

  /** Clicking board button i. A hidden button, or a click beside the board,
      does nothing. */
  function ClickLetter(r: RoundState, i: int): (r': RoundState)
    ensures r'.word == r.word && |r'.letters| == |r.letters|
    ensures !(0 <= i < |r.letters| && r.letters[i].visible) ==> r' == r
    ensures 0 <= i < |r.letters| && r.letters[i].visible ==>
      r'.letters[i] == LetterButton(r.letters[i].ch, false) &&
      r'.guessed == r.guessed + {Lower(r.letters[i].ch)}
  {
    if 0 <= i < |r.letters| && r.letters[i].visible then
      var hidden := r.(letters := r.letters[i := r.letters[i].(visible := false)]);
      Guess(hidden, r.letters[i].ch)
    else
      r
  }

  /** Clicking preserves the round invariant, so 0 <= status <= MaxWrong
      holds throughout a round, and never lowers the counter. */
  lemma ClickPreservesValid(r: RoundState, i: int)
    requires RoundValid(r)
    ensures RoundValid(ClickLetter(r, i))
    ensures r.status <= ClickLetter(r, i).status <= MaxWrong
    ensures r.guessed <= ClickLetter(r, i).guessed
  {
    if 0 <= i < |r.letters| && r.letters[i].visible {
      var c := r.letters[i].ch;
      assert Lower(c) == c;
      WrongAfterGuess(r.word, r.guessed, c);
      var r' := ClickLetter(r, i);
      forall j | 0 <= j < |r'.letters|
        ensures r'.letters[j].visible <==> r'.letters[j].ch !in r'.guessed
      {
        if j != i {
          assert r.letters[j].ch == LetterAt(j) != LetterAt(i) == c;
        }
      }
    }
  }

  /** A second click on the same button is a no-op. */
  lemma RepeatClickIsNoop(r: RoundState, i: int)
    requires RoundValid(r)
    ensures ClickLetter(ClickLetter(r, i), i) == ClickLetter(r, i)
  {
  }

  /** The word-completion test, walked character by character as the
      `all(...)` of `_is_word_guessed` does. */
  function AllLettersGuessed(word: string, guessed: set<char>): bool {
    if word == [] then true
    else (!IsAlpha(word[0]) || word[0] in guessed) && AllLettersGuessed(word[1..], guessed)
  }

  lemma {:induction false} AllLettersGuessedMeaning(word: string, guessed: set<char>)
    ensures AllLettersGuessed(word, guessed) <==>
      forall i | 0 <= i < |word| && IsAlpha(word[i]) :: word[i] in guessed
  {
    if word != [] {
      AllLettersGuessedMeaning(word[1..], guessed);
      assert forall i | 1 <= i < |word| :: word[i] == word[1..][i - 1];
    }
  }

  /** `_is_word_guessed`: false for a blank word; otherwise true exactly when
      every alphabetic character is guessed. Characters that are not letters
      are ignored, so a non-blank word without letters counts as guessed. */
  function IsWordGuessed(word: string, guessed: set<char>): (b: bool)
    ensures b <==> (!IsBlank(word) &&
                    forall i | 0 <= i < |word| && IsAlpha(word[i]) :: word[i] in guessed)
  {
    AllLettersGuessedMeaning(word, guessed);
    !IsBlank(word) && AllLettersGuessed(word, guessed)
  }

  /** "cat" is complete once c, a and t are guessed, and not while t is missing. */
  lemma CatExample()
    ensures IsWordGuessed("cat", {'t', 'a', 'c'})
    ensures !IsWordGuessed("cat", {'c', 'a', 'b', 'd'})
  {
  }

  /** Guessing more letters never un-guesses a word. */
  lemma WordGuessedMonotone(word: string, g1: set<char>, g2: set<char>)
    requires g1 <= g2 && IsWordGuessed(word, g1)
    ensures IsWordGuessed(word, g2)
  {
  }

  lemma BlankNeverGuessed(word: string, guessed: set<char>)
    requires IsBlank(word)
    ensures !IsWordGuessed(word, guessed)
  {
  }

  lemma NoLettersVacuouslyGuessed(word: string, guessed: set<char>)
    requires !IsBlank(word)
    requires forall i | 0 <= i < |word| :: !IsAlpha(word[i])
    ensures IsWordGuessed(word, guessed)
  {
  }

  /** The end-of-round test of `run`: nothing is decided before the first
      guess, and a hanged player loses even if the word is also complete. */
  function RoundVerdict(r: RoundState): (v: Verdict)
    ensures r.guessed == {} ==> v == Undecided
    ensures v == Lost <==> r.guessed != {} && r.status >= MaxWrong
    ensures v == Won <==> r.guessed != {} && r.status < MaxWrong && IsWordGuessed(r.word, r.guessed)
  {
    if r.guessed != {} then
      if r.status >= MaxWrong then Lost
      else if IsWordGuessed(r.word, r.guessed) then Won
      else Undecided
    else Undecided
  }

  /** The word as drawn by `_draw`: each character followed by a space,
      shown if guessed and replaced by '_' otherwise. */
  function MaskedWord(word: string, guessed: set<char>): (m: string)
    ensures |m| == 2 * |word|
    ensures forall i | 0 <= i < |word| ::
      m[2 * i] == (if word[i] in guessed then word[i] else '_') && m[2 * i + 1] == ' '
  {
    if word == [] then ""
    else
      var last := word[|word| - 1];
      MaskedWord(word[..|word| - 1], guessed) + [if last in guessed then last else '_', ' ']
  }

  /** The characters a masked string shows, one per slot. */
  function Shown(m: string): (s: string)
    ensures |s| == |m| / 2
    ensures forall i | 0 <= i < |s| :: s[i] == m[2 * i]
  {
    if |m| < 2 then "" else [m[0]] + Shown(m[2..])
  }

  /** Once every character of the word is guessed, the mask shows the word. */
  lemma FullyGuessedIsShown(word: string, guessed: set<char>)
    requires forall i | 0 <= i < |word| :: word[i] in guessed
    ensures Shown(MaskedWord(word, guessed)) == word
  {
  }

  /** Characters that are not lower-case letters can never be guessed from
      the board, so they stay masked as '_' for the whole round. */
  lemma NonLettersStayMasked(r: RoundState, i: int)
    requires RoundValid(r) && 0 <= i < |r.word| && !IsLowerLetter(r.word[i])
    ensures MaskedWord(r.word, r.guessed)[2 * i] == '_'
  {
  }
}
