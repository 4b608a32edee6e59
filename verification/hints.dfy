/** The two one-shot hint buttons (game.js:153-199). A hint draws one letter of
    the secret, counted with its repetitions, among the vowels or among the
    other letters, and colours its key Present. A button is marked used after
    its first click, whether or not a letter could be revealed. */
module Hints {
  import opened Letters
  import opened KeyStates
  import opened WordList
  import opened Engine

  datatype Category = Vowel | Consonant

  /** A consonant is any character that is not one of the five vowels. */
  predicate InCategory(c: char, cat: Category) {
    if cat == Vowel then IsVowel(c) else !IsVowel(c)
  }

  /** The letters of the secret in the category, in order, repeated as often as
      the secret repeats them (game.js:155-163). */
  function Candidates(secret: string, cat: Category): (cs: string)
    ensures forall c :: c in cs <==> c in secret && InCategory(c, cat)
    ensures |cs| <= |secret|
  {
    if |secret| == 0 then []
    else
      var rest := Candidates(secret[1..], cat);
      assert secret == [secret[0]] + secret[1..];
      if InCategory(secret[0], cat) then [secret[0]] + rest else rest
  }

  /** Each letter is a candidate as many times as it occurs in the secret, so
      the two categories split the secret's letters between them. */
  lemma {:induction false} CandidatesSplitSecret(secret: string)
    ensures multiset(Candidates(secret, Vowel)) + multiset(Candidates(secret, Consonant)) == multiset(secret)
  {
    if |secret| > 0 {
      CandidatesSplitSecret(secret[1..]);
      assert secret == [secret[0]] + secret[1..];
    }
  }

  datatype HintReport = AlreadyUsed | NoCandidates | Revealed(letter: char)

  datatype HintTurn = HintTurn(game: Game, report: HintReport)

  /** Revealing a hint letter (game.js:153-183): with no candidate nothing
      changes; otherwise the candidate at index floor(rand * n) is revealed and
      its key, when the keyboard has one, gets the `present` class. */
  function RevealHint(g: Game, cat: Category, rand: real): (t: HintTurn)
    requires 0.0 <= rand < 1.0
    ensures t.report != AlreadyUsed
    ensures t.report == NoCandidates <==> forall c :: c in g.secret ==> !InCategory(c, cat)
    ensures t.report == NoCandidates ==> t.game == g
    ensures t.report.Revealed? ==>
              && t.report.letter in g.secret
              && InCategory(t.report.letter, cat)
              && t.game == g.(keys := t.game.keys)
              && (forall d :: d != t.report.letter ==> StateOf(t.game.keys, d) == StateOf(g.keys, d))
              && StateOf(t.game.keys, t.report.letter) ==
                 (if IsCapital(t.report.letter) then Join(StateOf(g.keys, t.report.letter), Present)
                  else StateOf(g.keys, t.report.letter))
  {
    var cs := Candidates(g.secret, cat);
    if |cs| == 0 then
      HintTurn(g, NoCandidates)
    else
      var c := cs[PickIndex(rand, |cs|)];
      assert c in cs;
      KeyboardIsTheCapitals(c);
      var keys := if OnKeyboard(c) then Raise(g.keys, c, Present) else g.keys;
      HintTurn(g.(keys := keys), Revealed(c))
  }

  predicate Used(g: Game, cat: Category) {
    if cat == Vowel then g.vowelHintUsed else g.consonantHintUsed
  }

  /** A click on a hint button (game.js:186-199): ignored once the button is
      used; otherwise a hint is revealed and the button becomes used, even when
      there was no candidate to reveal. */
  function ClickHint(g: Game, cat: Category, rand: real): (t: HintTurn)
    requires 0.0 <= rand < 1.0
    ensures Used(g, cat) ==> t == HintTurn(g, AlreadyUsed)
    ensures !Used(g, cat) ==>
              && Used(t.game, cat)
              && t.report != AlreadyUsed
              && t.report == RevealHint(g, cat, rand).report
              && t.game.(vowelHintUsed := g.vowelHintUsed, consonantHintUsed := g.consonantHintUsed)
                 == RevealHint(g, cat, rand).game
    ensures Used(t.game, if cat == Vowel then Consonant else Vowel) == Used(g, if cat == Vowel then Consonant else Vowel)
  {
    if Used(g, cat) then
      HintTurn(g, AlreadyUsed)
    else
      var t := RevealHint(g, cat, rand);
      var g' := if cat == Vowel then t.game.(vowelHintUsed := true) else t.game.(consonantHintUsed := true);
      HintTurn(g', t.report)
  }

  /** Each button fires at most once: a second click, whatever the draw, is
      ignored. */
  lemma HintFiresOnce(g: Game, cat: Category, rand: real, rand': real)
    requires 0.0 <= rand < 1.0 && 0.0 <= rand' < 1.0
    ensures ClickHint(ClickHint(g, cat, rand).game, cat, rand').report == AlreadyUsed
    ensures ClickHint(ClickHint(g, cat, rand).game, cat, rand').game == ClickHint(g, cat, rand).game
  {
  }

  /** A button with no candidate is used up all the same, and no key changes. */
  lemma EmptyCategoryStillUsesButton(g: Game, cat: Category, rand: real)
    requires 0.0 <= rand < 1.0
    requires !Used(g, cat)
    requires forall c :: c in g.secret ==> !InCategory(c, cat)
    ensures ClickHint(g, cat, rand).report == NoCandidates
    ensures Used(ClickHint(g, cat, rand).game, cat)
    ensures ClickHint(g, cat, rand).game.keys == g.keys
  {
  }

  /** Every candidate can be the revealed letter: the draw at i/n picks the i-th. */
  lemma EveryCandidateCanBeRevealed(g: Game, cat: Category, i: nat)
    requires i < |Candidates(g.secret, cat)|
    ensures var n := |Candidates(g.secret, cat)|;
      && 0.0 <= i as real / n as real < 1.0
      && RevealHint(g, cat, i as real / n as real).report == Revealed(Candidates(g.secret, cat)[i])
  {
    PickReachesEveryIndex(i, |Candidates(g.secret, cat)|);
  }

  /** A hint never touches the board: row, cursor, buffer and word list stay. */
  lemma HintKeepsBoard(g: Game, cat: Category, rand: real)
    requires 0.0 <= rand < 1.0
    ensures var g' := ClickHint(g, cat, rand).game;
      g'.row == g.row && g'.col == g.col && g'.buffer == g.buffer && g'.words == g.words && g'.secret == g.secret
    ensures Valid(g) ==> Valid(ClickHint(g, cat, rand).game)
    ensures NoDowngrade(g.keys, ClickHint(g, cat, rand).game.keys)
  {
  }
}
