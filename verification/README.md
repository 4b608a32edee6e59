# Wordle rules engine, modelled in Dafny

This project models the rules engine of a browser Wordle clone (`game.js`) as
pure state transitions over an explicit game record, and proves properties of
it. The record holds:

- the current row (0..6) and column (0..5);
- the letters of the current row;
- one colour state per key, ordered Unmarked < Absent < Present < Correct;
- the dictionary and the secret word;
- the "used" flags of the two hint buttons.

Modules, one per file:

- `Letters` (`letters.dfy`): board size, capital letters, ASCII case mapping, the on-screen keyboard layout.
- `KeyStates` (`keystates.dfy`): the key colour lattice and the colouring of one scored row. It also models the key buttons' class lists and proves that one state per key is exact.
- `WordList` (`wordlist.dfy`): splitting the fetched text at `\r?\n`, the five-character filter, and the random choice of the secret.
- `Scoring` (`scoring.dfy`): the game's per-position scoring. It also holds the usual two-pass Wordle rule as a reference to compare against.
- `Engine` (`engine.dfy`): the key handler, row evaluation, and win/loss.
- `Hints` (`hints.dfy`): the vowel and consonant hint buttons.
- `Play` (`play.dfy`): runs of the game over sequences of inputs.

What the code does, and the model reproduces:

- **Single-pass scoring.** Scoring takes one pass with no letter counting. A position that is not an exact match is Present whenever its letter occurs anywhere in the secret, however often the guess repeats that letter. The usual Wordle rule is two-pass (exact matches use up letters first). This code does not implement it, and the model follows the code. `Scoring` proves how the two rules relate:
  - they agree on Correct;
  - the game's rule is never stricter;
  - they are equal on guesses without repeated letters;
  - CRANE/EERIE is a concrete guess where they differ.
- **No end-of-game guard.** After a win the cursor stays on the full winning row. Pressing Enter again re-scores the row and changes nothing (`Engine.WinIsStable`). After the sixth missed row, `row` is 6 and the tile lookups find no element. The model therefore requires `row < 6` for key presses.
- **Hint flag set even with no candidates.** A hint button becomes used on its first click even when the secret has no letter of its category.
- **Hints draw with repetition.** Candidates are the secret's letters with repetitions, so a letter that occurs twice is twice as likely to be drawn.
- **Empty word list.** `words` is assigned and then the secret lookup throws, so the secret stays `""`. Every row is then rejected by the dictionary.
- **Dictionary decides acceptance.** A row is accepted only if its lower-case form is in the dictionary. So a secret drawn from a line written with capitals can be accepted only if its lower-case form is also a line, and one drawn from a line holding a non-letter can never be typed. A line of five small letters always can (`Play.SmallWordSecretIsWinnable`).

Random draws (`Math.random()`) are a parameter `rand` with `0 <= rand < 1`. The drawn index is `floor(rand * n)`, and every index is reachable.

## Model

| member | source | states |
|---|---|---|
| `Letters.KeyboardIsTheCapitals` | game.js:36-40 | a key labelled with the single character c exists exactly when c is A–Z, so the key lookup for a typed letter always succeeds and the hint's `if (keyBtn)` holds exactly for capitals |
| `Letters.LowerUpper` | game.js:16 | upper-casing a word of small letters gives capitals only, and lower-casing gives the word back |
| `WordList.Lines` | game.js:15 | splitting at `\r?\n` always yields at least one line and no line contains a line feed |
| `WordList.LinesOfJoin` | game.js:15 | splitting undoes joining lines with "\n" or "\r\n", provided no line holds a line feed and, for "\n", no inner line ends in a carriage return |
| `WordList.Dictionary` | game.js:15 | a string is a dictionary entry exactly when it is one of the lines and has five characters |
| `WordList.PickIndex` | game.js:16 | `floor(rand * n)` is a valid index for every rand in [0, 1) |
| `WordList.PickReachesEveryIndex` | game.js:16 | every index i < n is the draw for rand = i/n, so any entry can become the secret |
| `WordList.Secret` | game.js:16 | the secret is the upper-case form of some dictionary entry, or "" when the dictionary is empty |
| `KeyStates.Repaint` | game.js:102-119 | scoring a row lowers no key, leaves keys of letters not in the row unchanged, and adds exactly the row's letters to the coloured keys |
| `KeyStates.RepaintIsBest` | game.js:102-119 | after a row each key shows the join of its old state and the best mark its letter got in that row |
| `KeyStates.RepaintCoversMarks` | game.js:106-117 | every guessed letter's key ends at least at the mark of each position holding that letter |
| `KeyStates.RepaintIdempotent` | game.js:102-119 | colouring the keys for the same row twice gives the same keys as colouring once |
| `KeyStates.MarkClassShowsJoin` | game.js:106-117 | with the source's add-class rules the highest class a key holds is the join of the previous one and the mark, so one state per key loses nothing |
| `KeyStates.HintClassShowsJoin` | game.js:177-179 | adding `present` for a hint makes the key show the join of its previous state and Present |
| `Scoring.Score` | game.js:106-117 | position i is Correct iff it matches the secret there; Present iff it does not but its letter occurs anywhere in the secret; Absent iff the letter does not occur in the secret |
| `Scoring.AllCorrectIffSecret` | game.js:106-121 | for a guess as long as the secret, all positions are Correct exactly when the guess is the secret |
| `Scoring.SinglePassIsNeverStricter` | game.js:106-117 | compared with two-pass scoring, the game gives the same Correct positions and marks Present every position the two-pass rule marks Present |
| `Scoring.RulesAgreeOnDistinctLetters` | game.js:106-117 | on a guess with no repeated letter, the game's scoring equals two-pass scoring |
| `Scoring.RepeatedLetterIsOverCredited` | game.js:109 | for secret CRANE and guess EERIE the game marks both leading E's Present, where two-pass scoring marks them Absent |
| `Engine.NewGame` | game.js:6-18 | a fresh game starts on row 0 with an empty row, no coloured key and unused hints; its dictionary is the five-character lines and its secret an upper-cased entry, or "" |
| `Engine.CheckGuess` | game.js:88-130 | a row not in the dictionary changes nothing. Otherwise the tiles get the per-position marks and keys are raised, never lowered. A row spelling the secret wins and keeps row and column. Any other row moves to the next row with column 0, and the game is lost exactly when that row is 6 |
| `Engine.HandleKey` | game.js:58-74 | the row stays valid (0 ≤ col ≤ 5, one capital per filled tile); a row is evaluated exactly for "Enter" on a full row, and then the press is the full row evaluation of `CheckGuess`; every other key touches only the cursor and the row's letters |
| `Engine.TypingAppends` | game.js:68-72 | a single capital is stored exactly when col < 5, at the cursor, which moves right |
| `Engine.DeleteRemovesLast` | game.js:59-63 | "Del" removes exactly the last letter when col > 0 and does nothing on an empty row |
| `Engine.IgnoredKeys` | game.js:64-73 | "Enter" on a row that is not full, and every key other than "Del", "Enter" or one capital, changes nothing |
| `Engine.DeleteUndoesTyping` | game.js:58-72 | typing a letter and deleting it restores the state |
| `Engine.TypingUndoesDelete` | game.js:58-72 | deleting the last letter and retyping it restores the state |
| `Engine.WinIsStable` | game.js:121-122 | after a winning row, pressing "Enter" again yields the same state and the same winning report |
| `Engine.SecretMustBeListed` | game.js:94-97 | a full row spelling the secret is rejected exactly when its lower-case form is not in the dictionary, and is otherwise a win |
| `Engine.MissedRowHasWrongTile` | game.js:106-125 | for a five-letter secret, a scored row that does not win has a tile that is not Correct |
| `Hints.Candidates` | game.js:155-163 | a character is a candidate exactly when it is a letter of the secret in the requested category |
| `Hints.CandidatesSplitSecret` | game.js:159-163 | vowel and consonant candidates together are the secret's letters with their multiplicities |
| `Hints.RevealHint` | game.js:153-183 | with no candidate nothing changes. Otherwise the revealed letter belongs to the secret and the category, its key (if a capital) is raised to at least Present, and no other key or field changes |
| `Hints.ClickHint` | game.js:186-199 | a used button does nothing; an unused one reveals a hint, reporting the letter `RevealHint` draws, and becomes used whatever the outcome; the other button's flag is untouched |
| `Hints.HintFiresOnce` | game.js:186-199 | a second click on the same button, whatever the draw, reports AlreadyUsed and changes nothing |
| `Hints.EmptyCategoryStillUsesButton` | game.js:166-191 | when the secret has no letter of the category, the first click reveals nothing and changes no key, but the button becomes used |
| `Hints.EveryCandidateCanBeRevealed` | game.js:172 | each candidate, counted with repetitions, is the revealed letter for some draw |
| `Hints.HintKeepsBoard` | game.js:153-199 | a hint click keeps row, column, buffer, dictionary and secret, keeps the state valid, and lowers no key |
| `Play.RunInvariants` | game.js:58-130 | along any run of key presses and hint clicks, every state is valid, no key is lowered, used hints stay used, the word list is fixed, and the row index counts the missed scored rows, so the game is lost exactly at the sixth miss |
| `Play.TypeLetters` | game.js:68-72 | typing a word of capitals into a row with room appends it and advances the cursor by its length |
| `Play.SmallWordSecretIsWinnable` | game.js:15-16 | when the drawn line is five small letters, typing the secret and pressing "Enter" wins |

## Left out

- Rendering is not modelled: building the board and keyboard, `setTile`, `shakeRow`, CSS classes on tiles, and the flip and shake animations. The tiles of the current row are the buffer; a rejected row's shake is the `Rejected` report.
- `fetch`, `alert`, `setTimeout` and `console.log` are left out: they are I/O. The fetched text is a parameter of `NewGame`, and alert messages are the reports.
- The keydown listener (game.js:142-147) is left out. It only upper-cases a key name and maps BACKSPACE and ENTER; keys are taken already named as `handleKey` receives them.
- Before the word list arrives the page plays with an empty dictionary and secret "". The model starts from the loaded list. An empty list gives the same state.
- `Math.random` is a parameter in [0, 1); floating-point rounding of `rand * n` is not modelled.
- `WordList.Dictionary`: the five-character filter counts characters as Unicode code points, while JavaScript's `length` and `split("")` count UTF-16 code units. A line holding a character outside the Basic Multilingual Plane is therefore measured, and split into letters for hints, differently from the source. Word lists of plain letters are unaffected.
- `Letters.LowerUpper`: upper- and lower-casing are modelled on ASCII letters only. JavaScript's full Unicode case mapping (which can change a word's length) is not modelled, because typed guesses are A–Z and the word list is assumed to be plain text.
- The commented-out theme toggle (game.js:202-214) is not part of the source's behaviour.
- No terminal-state guard is invented: `Engine.HandleKey` requires `row < 6`, the state after the sixth missed row, where the handlers' tile lookups fail.
