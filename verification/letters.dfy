/** Letters, ASCII case mapping and the on-screen keyboard of the game
    (game.js:36-40 for the layout, game.js:68 for the accepted letter keys). */
module Letters {

  /** Number of letters in a word, the board's column count (game.js:5). */
  const Cols := 5

  /** Number of attempts, the board's row count (game.js:4). */
  const Rows := 6

  /** A capital ASCII letter, the only single characters matching /^[A-Z]$/. */
  predicate IsCapital(c: char) {
    'A' <= c <= 'Z'
  }

  /** A lower-case ASCII letter. */
  predicate IsSmall(c: char) {
    'a' <= c <= 'z'
  }

  predicate AllCapitals(s: string) {
    forall i :: 0 <= i < |s| ==> IsCapital(s[i])
  }

  predicate AllSmall(s: string) {
    forall i :: 0 <= i < |s| ==> IsSmall(s[i])
  }

  /** A key name accepted as a letter by the input handler: exactly one capital. */
  predicate IsLetterKey(key: string) {
    |key| == 1 && IsCapital(key[0])
  }

  function UpperChar(c: char): (u: char)
    ensures IsSmall(c) ==> IsCapital(u)
    ensures !IsSmall(c) ==> u == c
  {
    if IsSmall(c) then (c as int - 'a' as int + 'A' as int) as char else c
  }

  function LowerChar(c: char): (l: char)
    ensures IsCapital(c) ==> IsSmall(l)
    ensures !IsCapital(c) ==> l == c
  {
    if IsCapital(c) then (c as int - 'A' as int + 'a' as int) as char else c
  }

  /** String upper-casing, as applied to the chosen word (game.js:16). */
  function Upper(s: string): (u: string)
    ensures |u| == |s|
    ensures forall i :: 0 <= i < |s| ==> u[i] == UpperChar(s[i])
  {
    seq(|s|, i requires 0 <= i < |s| => UpperChar(s[i]))
  }

  /** String lower-casing, as applied to a guess before the dictionary lookup (game.js:94). */
  function Lower(s: string): (l: string)
    ensures |l| == |s|
    ensures forall i :: 0 <= i < |s| ==> l[i] == LowerChar(s[i])
  {
    seq(|s|, i requires 0 <= i < |s| => LowerChar(s[i]))
  }

  /** Lower-casing undoes upper-casing on a word of small letters, and the result
      consists of capitals only. */
  lemma LowerUpper(s: string)
    requires AllSmall(s)
    ensures AllCapitals(Upper(s))
    ensures Lower(Upper(s)) == s
  {
    forall i | 0 <= i < |s|
      ensures Lower(Upper(s))[i] == s[i]
    {
      assert LowerChar(UpperChar(s[i])) == s[i];
    }
  }

  /** The vowels of the hint subsystem (game.js:154). */
  predicate IsVowel(c: char) {
    c in ['A', 'E', 'I', 'O', 'U']
  }

  /** The three rows of on-screen key labels (game.js:36-40). */
  const Layout: seq<seq<string>> := [
    ["Q", "W", "E", "R", "T", "Y", "U", "I", "O", "P"],
    ["A", "S", "D", "F", "G", "H", "J", "K", "L"],
    ["Enter", "Z", "X", "C", "V", "B", "N", "M", "Del"]
  ]

  /** Whether some key's label is the one-character text `[c]`, i.e. whether the
      lookup of a key button by its text finds one (game.js:104, 176). */
  predicate OnKeyboard(c: char) {
    exists r, k :: 0 <= r < |Layout| && 0 <= k < |Layout[r]| && Layout[r][k] == [c]
  }

  /** Every capital has a key of its own. */
  lemma CapitalHasKey(c: char)
    requires IsCapital(c)
    ensures OnKeyboard(c)
  {
    if c == 'A' {
      assert Layout[1][0] == [c];
    } else if c == 'B' {
      assert Layout[2][5] == [c];
    } else if c == 'C' {
      assert Layout[2][3] == [c];
    } else if c == 'D' {
      assert Layout[1][2] == [c];
    } else if c == 'E' {
      assert Layout[0][2] == [c];
    } else if c == 'F' {
      assert Layout[1][3] == [c];
    } else if c == 'G' {
      assert Layout[1][4] == [c];
    } else if c == 'H' {
      assert Layout[1][5] == [c];
    } else if c == 'I' {
      assert Layout[0][7] == [c];
    } else if c == 'J' {
      assert Layout[1][6] == [c];
    } else if c == 'K' {
      assert Layout[1][7] == [c];
    } else if c == 'L' {
      assert Layout[1][8] == [c];
    } else if c == 'M' {
      assert Layout[2][7] == [c];
    } else if c == 'N' {
      assert Layout[2][6] == [c];
    } else if c == 'O' {
      assert Layout[0][8] == [c];
    } else if c == 'P' {
      assert Layout[0][9] == [c];
    } else if c == 'Q' {
      assert Layout[0][0] == [c];
    } else if c == 'R' {
      assert Layout[0][3] == [c];
    } else if c == 'S' {
      assert Layout[1][1] == [c];
    } else if c == 'T' {
      assert Layout[0][4] == [c];
    } else if c == 'U' {
      assert Layout[0][6] == [c];
    } else if c == 'V' {
      assert Layout[2][4] == [c];
    } else if c == 'W' {
      assert Layout[0][1] == [c];
    } else if c == 'X' {
      assert Layout[2][2] == [c];
    } else if c == 'Y' {
      assert Layout[0][5] == [c];
    } else {
      assert Layout[2][1] == [c];
    }
  }

  /** Exactly the capitals have a key: the button lookup in checkGuess never fails
      for a typed letter, and the hint finds a key exactly for a capital. */
  lemma KeyboardIsTheCapitals(c: char)
    ensures OnKeyboard(c) <==> IsCapital(c)
  {
    if IsCapital(c) {
      CapitalHasKey(c);
    }
    if OnKeyboard(c) {
      var r, k :| 0 <= r < |Layout| && 0 <= k < |Layout[r]| && Layout[r][k] == [c];
      assert IsCapital(Layout[r][k][0]);
    }
  }
}
