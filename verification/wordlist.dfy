/** The word list: the fetched text is split into lines at `\r?\n`, the lines of
    exactly five characters form the dictionary, and the secret is the upper-case
    form of the entry at index floor(rand * n) (game.js:12-18). */
module WordList {
  import opened Letters

  /** The pieces of `text` between line breaks, where a line break is "\r\n" or
      a lone "\n", as `String.prototype.split(/\r?\n/)` yields them: an empty text
      gives one empty line and a trailing break gives a trailing empty line. */
  function Lines(text: string): (ls: seq<string>)
    ensures |ls| >= 1
    ensures forall i :: 0 <= i < |ls| ==> '\n' !in ls[i]
    decreases |text|
  {
    if |text| == 0 then [""]
    else if text[0] == '\n' then [""] + Lines(text[1..])
    else if text[0] == '\r' && |text| >= 2 && text[1] == '\n' then [""] + Lines(text[2..])
    else
      var rest := Lines(text[1..]);
      [[text[0]] + rest[0]] + rest[1..]
  }

  /** The inverse direction: lines joined with a separator. */
  function JoinLines(ls: seq<string>, sep: string): string
    requires |ls| >= 1
  {
    if |ls| == 1 then ls[0] else ls[0] + sep + JoinLines(ls[1..], sep)
  }

  predicate EndsWithCR(s: string) {
    |s| > 0 && s[|s| - 1] == '\r'
  }

  /** A piece of text without '\n' in front of some text is glued to the first
      line of that text, unless it ends in '\r' right before a '\n'. */
  lemma {:induction false} LinesOfPrefix(line: string, t: string)
    requires '\n' !in line
    requires !(EndsWithCR(line) && |t| > 0 && t[0] == '\n')
    ensures Lines(line + t) == [line + Lines(t)[0]] + Lines(t)[1..]
    decreases |line|
  {
    if |line| > 0 {
      var tail := line[1..];
      assert line + t == [line[0]] + (tail + t);
      LinesOfPrefix(tail, t);
      if |tail| == 0 {
        assert (line + t)[1..] == t;
      } else {
        assert (line + t)[1..] == tail + t;
        assert (tail + t)[0] == tail[0];
      }
      assert [line[0]] + (tail + Lines(t)[0]) == line + Lines(t)[0];
    } else {
      assert line + t == t;
      assert "" + Lines(t)[0] == Lines(t)[0];
      assert Lines(t) == [Lines(t)[0]] + Lines(t)[1..];
    }
  }

  /** Splitting undoes joining, with either kind of line break, as long as no line
      holds a '\n' and, for "\n" joins, no line but the last ends in '\r' (such a
      '\r' would merge with the following '\n' into one "\r\n" break). */
  lemma {:induction false} LinesOfJoin(ls: seq<string>, sep: string)
    requires |ls| >= 1
    requires sep == "\n" || sep == "\r\n"
    requires forall i :: 0 <= i < |ls| ==> '\n' !in ls[i]
    requires sep == "\n" ==> forall i :: 0 <= i < |ls| - 1 ==> !EndsWithCR(ls[i])
    ensures Lines(JoinLines(ls, sep)) == ls
    decreases |ls|
  {
    if |ls| == 1 {
      LinesOfPrefix(ls[0], "");
      assert ls[0] + "" == ls[0];
      assert Lines("") == [""];
    } else {
      var rest := JoinLines(ls[1..], sep);
      LinesOfJoin(ls[1..], sep);
      assert ls[0] + sep + rest == ls[0] + (sep + rest);
      LinesOfPrefix(ls[0], sep + rest);
      if sep == "\n" {
        assert (sep + rest)[1..] == rest;
      } else {
        assert (sep + rest)[2..] == rest;
      }
      assert Lines(sep + rest) == [""] + ls[1..];
      calc {
        Lines(JoinLines(ls, sep));
        Lines(ls[0] + (sep + rest));
        [ls[0] + ""] + ls[1..];
        { assert ls[0] + "" == ls[0]; }
        ls;
      }
    }
  }

  /** The dictionary: the lines of exactly five characters, in order (game.js:15). */
  function Dictionary(lines: seq<string>): (words: seq<string>)
    ensures |words| <= |lines|
    ensures forall w :: w in words <==> w in lines && |w| == Cols
  {
    if |lines| == 0 then []
    else
      var rest := Dictionary(lines[1..]);
      assert lines == [lines[0]] + lines[1..];
      if |lines[0]| == Cols then [lines[0]] + rest else rest
  }

  /** `Math.floor(rand * n)` for a random `rand` in [0, 1). */
  function PickIndex(rand: real, n: nat): (i: nat)
    requires 0.0 <= rand < 1.0
    requires n > 0
    ensures i < n
  {
    var x := rand * n as real;
    assert 0.0 <= x < n as real;
    x.Floor
  }

  /** Every index can be picked: the draw is a choice of any element. */
  lemma PickReachesEveryIndex(i: nat, n: nat)
    requires i < n
    ensures 0.0 <= i as real / n as real < 1.0
    ensures PickIndex(i as real / n as real, n) == i
  {
    var r := i as real / n as real;
    assert r * n as real == i as real;
  }

  /** The secret: the upper-cased dictionary entry at the drawn index. With an
      empty dictionary the lookup at game.js:16 throws before assigning, and the
      secret keeps its initial value "" (game.js:8). */
  function Secret(words: seq<string>, rand: real): (secret: string)
    requires 0.0 <= rand < 1.0
    ensures |words| == 0 ==> secret == ""
    ensures |words| > 0 ==> exists i :: 0 <= i < |words| && secret == Upper(words[i])
  {
    if |words| == 0 then ""
    else
      var i := PickIndex(rand, |words|);
      Upper(words[i])
  }
}
