/** The colouring of the on-screen keys. A key's class list only ever gains the
    classes `absent`, `present` and `correct` (game.js:107-116, 178); what the
    player sees is the highest of them, so the engine keeps one state per key,
    ordered Unmarked < Absent < Present < Correct. */
module KeyStates {

  datatype KeyState = Unmarked | Absent | Present | Correct

  /** The feedback a single tile receives: never Unmarked. */
  type Mark = k: KeyState | k != Unmarked witness Absent

  function Rank(k: KeyState): nat {
    match k
    case Unmarked => 0
    case Absent => 1
    case Present => 2
    case Correct => 3
  }

  /** The better of two states. */
  function Join(a: KeyState, b: KeyState): (r: KeyState)
    ensures Rank(r) == if Rank(a) >= Rank(b) then Rank(a) else Rank(b)
    ensures r == a || r == b
  {
    if Rank(a) >= Rank(b) then a else b
  }

  lemma RankInjective(a: KeyState, b: KeyState)
    ensures Rank(a) == Rank(b) ==> a == b
  {
  }

  /** Join is the least upper bound of the order by rank: a lattice join. */
  lemma JoinIsLeastUpperBound(a: KeyState, b: KeyState, c: KeyState)
    ensures Join(a, b) == Join(b, a)
    ensures Join(a, Join(b, c)) == Join(Join(a, b), c)
    ensures Join(a, a) == a && Join(a, Unmarked) == a
    ensures Rank(a) <= Rank(c) && Rank(b) <= Rank(c) <==> Rank(Join(a, b)) <= Rank(c)
  {
    RankInjective(Join(a, b), Join(b, a));
    RankInjective(Join(a, Join(b, c)), Join(Join(a, b), c));
  }

  /** Key states by letter; a letter without an entry has never been coloured. */
  type KeyMap = map<char, KeyState>

  function StateOf(keys: KeyMap, c: char): KeyState {
    if c in keys then keys[c] else Unmarked
  }

  /** Colour key `c` with mark `m` without ever lowering it. */
  function Raise(keys: KeyMap, c: char, m: KeyState): (r: KeyMap)
    ensures r.Keys == keys.Keys + {c}
    ensures StateOf(r, c) == Join(StateOf(keys, c), m)
    ensures forall d :: d != c ==> StateOf(r, d) == StateOf(keys, d)
  {
    keys[c := Join(StateOf(keys, c), m)]
  }

  /** No key of `keys` is ranked above its state in `keys'`. */
  predicate NoDowngrade(keys: KeyMap, keys': KeyMap) {
    forall c :: Rank(StateOf(keys, c)) <= Rank(StateOf(keys', c))
  }

  lemma NoDowngradeTransitive(k0: KeyMap, k1: KeyMap, k2: KeyMap)
    requires NoDowngrade(k0, k1) && NoDowngrade(k1, k2)
    ensures NoDowngrade(k0, k2)
  {
  }

  /** The best mark that letter `c` receives in a scored row: the join of
      `marks[i]` over the positions `i` where `guess[i] == c`. */
  function Best(guess: string, marks: seq<Mark>, c: char): (b: KeyState)
    requires |guess| == |marks|
    ensures c !in guess ==> b == Unmarked
    ensures forall i :: 0 <= i < |guess| && guess[i] == c ==> Rank(marks[i]) <= Rank(b)
    decreases |guess|
  {
    if |guess| == 0 then Unmarked
    else Join(if guess[0] == c then marks[0] else Unmarked, Best(guess[1..], marks[1..], c))
  }

  /** The key colouring of one scored row: position by position, left to right,
      each guessed letter's key is raised to that position's mark (game.js:102-119). */
  function Repaint(keys: KeyMap, guess: string, marks: seq<Mark>): (r: KeyMap)
    requires |guess| == |marks|
    ensures r.Keys == keys.Keys + (set c | c in guess)
    ensures NoDowngrade(keys, r)
    ensures forall c :: c !in guess ==> StateOf(r, c) == StateOf(keys, c)
    decreases |guess|
  {
    if |guess| == 0 then keys
    else
      var rest := Repaint(Raise(keys, guess[0], marks[0]), guess[1..], marks[1..]);
      assert guess == [guess[0]] + guess[1..];
      rest
  }

  /** After a row, every key shows the better of its old state and the best mark
      its letter got in the row. */
  lemma {:induction false} RepaintIsBest(keys: KeyMap, guess: string, marks: seq<Mark>, c: char)
    requires |guess| == |marks|
    ensures StateOf(Repaint(keys, guess, marks), c) == Join(StateOf(keys, c), Best(guess, marks, c))
    decreases |guess|
  {
    if |guess| == 0 {
      JoinIsLeastUpperBound(StateOf(keys, c), Unmarked, Unmarked);
    } else {
      var k1 := Raise(keys, guess[0], marks[0]);
      var here := if guess[0] == c then marks[0] else Unmarked;
      RepaintIsBest(k1, guess[1..], marks[1..], c);
      assert StateOf(k1, c) == Join(StateOf(keys, c), here) by {
        if guess[0] != c {
          JoinIsLeastUpperBound(StateOf(keys, c), Unmarked, Unmarked);
        }
      }
      JoinIsLeastUpperBound(StateOf(keys, c), here, Best(guess[1..], marks[1..], c));
    }
  }

  /** Every guessed letter's key ends at least at the mark of each of its positions. */
  lemma RepaintCoversMarks(keys: KeyMap, guess: string, marks: seq<Mark>)
    requires |guess| == |marks|
    ensures forall i :: 0 <= i < |guess| ==> Rank(marks[i]) <= Rank(StateOf(Repaint(keys, guess, marks), guess[i]))
  {
    forall i | 0 <= i < |guess|
      ensures Rank(marks[i]) <= Rank(StateOf(Repaint(keys, guess, marks), guess[i]))
    {
      RepaintIsBest(keys, guess, marks, guess[i]);
    }
  }

  /** Colouring the same row twice changes nothing the second time. */
  lemma RepaintIdempotent(keys: KeyMap, guess: string, marks: seq<Mark>)
    requires |guess| == |marks|
    ensures Repaint(Repaint(keys, guess, marks), guess, marks) == Repaint(keys, guess, marks)
  {
    var once := Repaint(keys, guess, marks);
    var twice := Repaint(once, guess, marks);
    forall c | c in once
      ensures twice[c] == once[c]
    {
      RepaintIsBest(keys, guess, marks, c);
      RepaintIsBest(once, guess, marks, c);
      JoinIsLeastUpperBound(StateOf(keys, c), Best(guess, marks, c), Best(guess, marks, c));
    }
  }

  // The class lists themselves. Each key button holds a set of the three
  // feedback classes; the rules below are the ones the source applies.

  /** Adding the class for a tile mark to a key (game.js:106-117): `correct`
      always, `present` unless `correct` is there, `absent` unless one of the
      two others is there. */
  function AddMarkClass(cls: set<Mark>, m: Mark): set<Mark> {
    match m
    case Correct => cls + {Correct}
    case Present => if Correct in cls then cls else cls + {Present}
    case Absent => if Correct in cls || Present in cls then cls else cls + {Absent}
  }

  /** Adding the class a hint adds: `present`, unconditionally (game.js:178). */
  function AddHintClass(cls: set<Mark>): set<Mark> {
    cls + {Present}
  }

  /** The highest class present, which is what the key shows. */
  function Shown(cls: set<Mark>): (k: KeyState)
    ensures k == Unmarked <==> cls == {}
    ensures k != Unmarked ==> k in cls
    ensures forall m :: m in cls ==> Rank(m) <= Rank(k)
  {
    if Correct in cls then Correct
    else if Present in cls then Present
    else if Absent in cls then Absent
    else
      assert forall m: Mark :: m !in cls by {
        forall m: Mark ensures m !in cls {
          assert m == Absent || m == Present || m == Correct;
        }
      }
      Unmarked
  }

  /** The engine's single state per key is exact: the class a key shows after a
      tile mark is the join of what it showed before and that mark. */
  lemma MarkClassShowsJoin(cls: set<Mark>, m: Mark)
    ensures Shown(AddMarkClass(cls, m)) == Join(Shown(cls), m)
  {
  }

  /** Likewise after a hint: the key shows the join of its old state and Present. */
  lemma HintClassShowsJoin(cls: set<Mark>)
    ensures Shown(AddHintClass(cls)) == Join(Shown(cls), Present)
  {
  }
}
