/** The rules engine of the game: the letter buffer of the current row, the
    evaluation of a full row, and the win/loss bookkeeping (game.js:4-18,
    58-74, 88-130). The board's tiles and the key buttons are represented by
    the buffer of the current row and one state per key. */
module Engine {
  import opened Letters
  import opened KeyStates
  import opened Scoring
  import opened WordList

  /** The whole state of a game. `row` and `col` are the current tile
      (game.js:6-7); `buffer` is the text of the current row's tiles; `words` and
      `secret` come from the word list (game.js:8-9); the two flags are the
      `used` classes of the hint buttons (game.js:187-197). */
  datatype Game = Game(
    row: nat,
    col: nat,
    buffer: string,
    keys: KeyMap,
    words: seq<string>,
    secret: string,
    vowelHintUsed: bool,
    consonantHintUsed: bool)

  /** What every reachable state satisfies: the buffer holds exactly the letters
      left of the cursor, all capitals, and the cursor stays on the board. */
  predicate Valid(g: Game) {
    && g.row <= Rows
    && g.col <= Cols
    && |g.buffer| == g.col
    && AllCapitals(g.buffer)
  }

  /** A state in which a row is still open for input. Once `row` reaches 6 the
      tile lookups of the handlers find no element. */
  predicate Playing(g: Game) {
    Valid(g) && g.row < Rows
  }

  datatype Outcome = Won | Continue | Lost

  /** What one key press produced: nothing to evaluate, a row rejected by the
      dictionary (the row shakes), or a scored row with its outcome. */
  datatype Report = NoGuess | Rejected | Scored(marks: seq<Mark>, outcome: Outcome)

  datatype Turn = Turn(game: Game, report: Report)

  /** The state after the word list has been loaded: the dictionary is the
      five-character lines of the text and the secret the upper-cased entry at
      the drawn index, or "" when there is none (game.js:12-18). */
  function NewGame(text: string, rand: real): (g: Game)
    requires 0.0 <= rand < 1.0
    ensures Playing(g) && g.row == 0 && g.col == 0 && g.buffer == []
    ensures forall c :: StateOf(g.keys, c) == Unmarked
    ensures !g.vowelHintUsed && !g.consonantHintUsed
    ensures forall w :: w in g.words <==> w in Lines(text) && |w| == Cols
    ensures |g.words| == 0 ==> g.secret == ""
    ensures |g.words| > 0 ==> exists i :: 0 <= i < |g.words| && g.secret == Upper(g.words[i])
  {
    var words := Dictionary(Lines(text));
    Game(0, 0, [], map[], words, Secret(words, rand), false, false)
  }

  /** Evaluating the full current row (game.js:88-130). A row the dictionary
      does not admit changes nothing. Otherwise every tile is scored, every key
      is raised to its letter's marks, and the row is won when it spells the
      secret; if not, play moves to the next row, and the game is lost when that
      was the last row. */
  function CheckGuess(g: Game): (t: Turn)
    requires Playing(g) && g.col == Cols
    ensures Valid(t.game)
    ensures t.report != NoGuess
    ensures t.report == Rejected <==> Lower(g.buffer) !in g.words
    ensures t.report == Rejected ==> t.game == g
    ensures t.report.Scored? ==>
              && t.report.marks == Score(g.secret, g.buffer)
              && t.game.keys == Repaint(g.keys, g.buffer, t.report.marks)
              && NoDowngrade(g.keys, t.game.keys)
              && (t.report.outcome == Won <==> g.buffer == g.secret)
              && (t.report.outcome == Lost <==> t.game.row == Rows)
    ensures t.report.Scored? && t.report.outcome == Won ==>
              t.game == g.(keys := t.game.keys)
    ensures t.report.Scored? && t.report.outcome != Won ==>
              t.game == g.(keys := t.game.keys, row := g.row + 1, col := 0, buffer := [])
  {
    var guess := g.buffer;
    if |guess| != Cols || Lower(guess) !in g.words then
      Turn(g, Rejected)
    else
      var marks := Score(g.secret, guess);
      var keys := Repaint(g.keys, guess, marks);
      if guess == g.secret then
        Turn(g.(keys := keys), Scored(marks, Won))
      else
        var next := g.(keys := keys, row := g.row + 1, col := 0, buffer := []);
        Turn(next, Scored(marks, if next.row == Rows then Lost else Continue))
  }

  /** One key press (game.js:58-74): "Del" clears the tile left of the cursor,
      "Enter" evaluates the row when it is full, a single capital is written at
      the cursor when the row has room, and any other key does nothing. Only
      "Enter" can change anything but the cursor and the buffer. */
  function HandleKey(g: Game, key: string): (t: Turn)
    requires Playing(g)
    ensures Valid(t.game)
    ensures t.report != NoGuess <==> key == "Enter" && g.col == Cols
    ensures key == "Enter" && g.col == Cols ==> t == CheckGuess(g)
    ensures key != "Enter" ==> t.game == g.(col := t.game.col, buffer := t.game.buffer)
  {
    if key == "Del" then
      if g.col > 0 then
        Turn(g.(col := g.col - 1, buffer := g.buffer[..g.col - 1]), NoGuess)
      else
        Turn(g, NoGuess)
    else if key == "Enter" then
      if g.col == Cols then CheckGuess(g) else Turn(g, NoGuess)
    else if IsLetterKey(key) then
      if g.col < Cols then
        Turn(g.(col := g.col + 1, buffer := g.buffer + key), NoGuess)
      else
        Turn(g, NoGuess)
    else
      Turn(g, NoGuess)
  }

  /** A letter is stored exactly when the row has room, and then lands at the
      cursor, which moves one tile right. */
  lemma TypingAppends(g: Game, key: string)
    requires Playing(g) && IsLetterKey(key)
    ensures var g' := HandleKey(g, key).game;
      && (g' != g <==> g.col < Cols)
      && (g.col < Cols ==> g'.col == g.col + 1 && g'.buffer[..g.col] == g.buffer && g'.buffer[g.col] == key[0])
  {
    var g' := HandleKey(g, key).game;
    if g.col < Cols {
      assert |g'.buffer| != |g.buffer|;
    }
  }

  /** "Del" removes exactly the last letter when there is one, and does nothing
      on an empty row. */
  lemma DeleteRemovesLast(g: Game)
    requires Playing(g)
    ensures var g' := HandleKey(g, "Del").game;
      && (g' != g <==> g.col > 0)
      && (g.col > 0 ==> g'.col == g.col - 1 && g'.buffer + [g.buffer[g.col - 1]] == g.buffer)
  {
    var g' := HandleKey(g, "Del").game;
    if g.col > 0 {
      assert |g'.buffer| != |g.buffer|;
      assert g.buffer == g.buffer[..g.col - 1] + [g.buffer[g.col - 1]];
    }
  }

  /** "Enter" on a row that is not full, and any key that is neither "Del",
      "Enter" nor a single capital, leave the state as it is. */
  lemma IgnoredKeys(g: Game, key: string)
    requires Playing(g)
    requires (key == "Enter" && g.col != Cols) || (key != "Del" && key != "Enter" && !IsLetterKey(key))
    ensures HandleKey(g, key) == Turn(g, NoGuess)
  {
  }

  /** Deleting undoes typing ... */
  lemma DeleteUndoesTyping(g: Game, key: string)
    requires Playing(g) && IsLetterKey(key) && g.col < Cols
    ensures HandleKey(HandleKey(g, key).game, "Del").game == g
  {
    assert (g.buffer + key)[..g.col] == g.buffer;
  }

  /** ... and retyping the deleted letter undoes deleting. */
  lemma TypingUndoesDelete(g: Game)
    requires Playing(g) && g.col > 0
    ensures HandleKey(HandleKey(g, "Del").game, [g.buffer[g.col - 1]]).game == g
  {
    assert g.buffer[..g.col - 1] + [g.buffer[g.col - 1]] == g.buffer;
  }

  /** The code has no end-of-game guard: after a win the cursor stays on the
      full, winning row, and pressing "Enter" again scores the same row the same
      way and changes nothing. */
  lemma WinIsStable(g: Game)
    requires Playing(g) && g.col == Cols
    requires CheckGuess(g).report.Scored? && CheckGuess(g).report.outcome == Won
    ensures HandleKey(CheckGuess(g).game, "Enter") == CheckGuess(g)
  {
    RepaintIdempotent(g.keys, g.buffer, Score(g.secret, g.buffer));
  }

  /** The dictionary alone decides whether a full row is scored: a row equal to
      the secret is still rejected when its lower-case form is not listed. */
  lemma SecretMustBeListed(g: Game)
    requires Playing(g) && g.col == Cols && g.buffer == g.secret
    ensures CheckGuess(g).report == Rejected <==> Lower(g.secret) !in g.words
    ensures CheckGuess(g).report != Rejected ==> CheckGuess(g).report.outcome == Won
  {
  }

  /** A scored row that does not spell the secret marks some position other
      than Correct, so the game only ends in a win by spelling the secret. */
  lemma MissedRowHasWrongTile(g: Game)
    requires Playing(g) && g.col == Cols && |g.secret| == Cols
    requires CheckGuess(g).report.Scored? && CheckGuess(g).report.outcome != Won
    ensures exists i :: 0 <= i < Cols && CheckGuess(g).report.marks[i] != Correct
  {
    AllCorrectIffSecret(g.secret, g.buffer);
  }
}
