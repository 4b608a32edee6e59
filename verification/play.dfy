/** Whole games: the page reacts to a sequence of key presses and hint clicks,
    each handled to completion before the next (game.js:50, 142-147, 186-199). */
module Play {
  import opened Letters
  import opened KeyStates
  import opened WordList
  import opened Engine
  import opened Hints

  /** One user action: a key named as the handlers name it, or a hint click
      together with the value the random draw produced. */
  datatype Input = Press(key: string) | Click(cat: Category, rand: real)

  predicate Allowed(g: Game, input: Input) {
    match input
    case Press(_) => Playing(g)
    case Click(_, rand) => Valid(g) && 0.0 <= rand < 1.0
  }

  function Apply(g: Game, input: Input): Turn
    requires Allowed(g, input)
  {
    match input
    case Press(key) => HandleKey(g, key)
    case Click(cat, rand) => Turn(ClickHint(g, cat, rand).game, NoGuess)
  }

  /** `states` is the run of the game on `inputs`: each state is the previous
      one with the next input applied. */
  predicate IsRun(states: seq<Game>, inputs: seq<Input>) {
    && |states| == |inputs| + 1
    && forall i :: 0 <= i < |inputs| ==>
         Allowed(states[i], inputs[i]) && states[i + 1] == Apply(states[i], inputs[i]).game
  }

  /** How many inputs of the run scored a row that was not the secret. */
  function Misses(states: seq<Game>, inputs: seq<Input>): nat
    requires IsRun(states, inputs)
    decreases |inputs|
  {
    if |inputs| == 0 then 0
    else
      var r := Apply(states[0], inputs[0]).report;
      (if r.Scored? && r.outcome != Won then 1 else 0) + Misses(states[1..], inputs[1..])
  }

  /** Along any run: every state is valid, no key is ever downgraded, a used
      hint button stays used, the word list never changes, and the row index
      counts exactly the scored rows that missed the secret, so the game is
      lost precisely when the sixth such row is scored. */
  lemma {:induction false} RunInvariants(states: seq<Game>, inputs: seq<Input>)
    requires IsRun(states, inputs)
    requires Valid(states[0])
    ensures forall i :: 0 <= i < |states| ==> Valid(states[i])
    ensures NoDowngrade(states[0].keys, states[|inputs|].keys)
    ensures states[0].vowelHintUsed ==> states[|inputs|].vowelHintUsed
    ensures states[0].consonantHintUsed ==> states[|inputs|].consonantHintUsed
    ensures states[|inputs|].words == states[0].words && states[|inputs|].secret == states[0].secret
    ensures states[|inputs|].row == states[0].row + Misses(states, inputs)
    decreases |inputs|
  {
    if |inputs| > 0 {
      var g, g' := states[0], states[1];
      match inputs[0] {
        case Press(key) =>
        case Click(cat, rand) =>
          HintKeepsBoard(g, cat, rand);
      }
      assert IsRun(states[1..], inputs[1..]);
      RunInvariants(states[1..], inputs[1..]);
      NoDowngradeTransitive(g.keys, g'.keys, states[|inputs|].keys);
    }
  }

  /** Typing a word of capitals into a row with room for it. */
  function TypeLetters(g: Game, s: string): (g': Game)
    requires Playing(g) && AllCapitals(s) && g.col + |s| <= Cols
    ensures g' == g.(col := g.col + |s|, buffer := g.buffer + s)
    decreases |s|
  {
    if |s| == 0 then
      assert g.buffer + s == g.buffer;
      g
    else
      var next := HandleKey(g, [s[0]]).game;
      assert next == g.(col := g.col + 1, buffer := g.buffer + [s[0]]);
      assert g.buffer + s == (g.buffer + [s[0]]) + s[1..];
      TypeLetters(next, s[1..])
  }

  /** When the drawn word is written in small letters, the game can be won:
      typing the secret and pressing "Enter" scores a winning row. */
  lemma SmallWordSecretIsWinnable(text: string, rand: real)
    requires 0.0 <= rand < 1.0
    requires var words := Dictionary(Lines(text));
      |words| > 0 && AllSmall(words[PickIndex(rand, |words|)])
    ensures var g := NewGame(text, rand);
      && AllCapitals(g.secret) && |g.secret| == Cols
      && var r := HandleKey(TypeLetters(g, g.secret), "Enter").report;
         r.Scored? && r.outcome == Won
  {
    var words := Dictionary(Lines(text));
    var w := words[PickIndex(rand, |words|)];
    var g := NewGame(text, rand);
    assert w in words;
    LowerUpper(w);
    assert g.secret == Upper(w);
    var typed := TypeLetters(g, g.secret);
    assert typed.buffer == g.secret;
  }
}
