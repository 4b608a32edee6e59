/** Scoring a guess against the secret (game.js:102-117). The game scores in a
    single pass: a position is Correct when the secret has the same letter
    there, otherwise Present when the letter occurs anywhere in the secret
    (however often the guess repeats it), otherwise Absent.

    The module also holds the common two-pass rule, where exact matches use up
    their letters first and each remaining occurrence in the secret credits at
    most one Present, as a reference to compare the game's rule with. */
module Scoring {
  import opened KeyStates

  /** Whether position `i` of the guess matches the secret exactly; a position
      past the end of the secret never does (`targetArr[c]` is undefined there). */
  predicate Exact(secret: string, guess: string, i: nat)
    requires i < |guess|
  {
    i < |secret| && guess[i] == secret[i]
  }

  /** The mark of one position, as the game assigns it. */
  function MarkAt(secret: string, guess: string, i: nat): Mark
    requires i < |guess|
  {
    if Exact(secret, guess, i) then Correct
    else if guess[i] in secret then Present
    else Absent
  }

  /** The marks of a whole row, one per guessed letter. */
  function Score(secret: string, guess: string): (marks: seq<Mark>)
    ensures |marks| == |guess|
    ensures forall i :: 0 <= i < |guess| ==> (marks[i] == Correct <==> Exact(secret, guess, i))
    ensures forall i :: 0 <= i < |guess| ==>
              (marks[i] == Present <==> !Exact(secret, guess, i) && guess[i] in secret)
    ensures forall i :: 0 <= i < |guess| ==> (marks[i] == Absent <==> guess[i] !in secret)
  {
    seq(|guess|, i requires 0 <= i < |guess| => MarkAt(secret, guess, i))
  }

  /** Every position is Correct exactly when the guess is the secret. */
  lemma AllCorrectIffSecret(secret: string, guess: string)
    requires |guess| == |secret|
    ensures (forall i :: 0 <= i < |guess| ==> Score(secret, guess)[i] == Correct) <==> guess == secret
  {
    var marks := Score(secret, guess);
    if forall i :: 0 <= i < |guess| ==> marks[i] == Correct {
      assert forall i :: 0 <= i < |guess| ==> guess[i] == secret[i];
    }
  }

  // The two-pass reference rule.

  /** The letters of `secret[j..]` at positions the guess does not match exactly. */
  function Pool(secret: string, guess: string, j: nat): multiset<char>
    requires j <= |secret|
    decreases |secret| - j
  {
    if j == |secret| then multiset{}
    else if j < |guess| && guess[j] == secret[j] then Pool(secret, guess, j + 1)
    else multiset{secret[j]} + Pool(secret, guess, j + 1)
  }

  /** Second pass from position `i`: a position that is not an exact match is
      Present while `pool` still holds its letter, which it then uses up. */
  function PassTwo(secret: string, guess: string, i: nat, pool: multiset<char>): (ms: seq<Mark>)
    requires i <= |guess|
    ensures |ms| == |guess| - i
    decreases |guess| - i
  {
    if i == |guess| then []
    else if Exact(secret, guess, i) then [Correct] + PassTwo(secret, guess, i + 1, pool)
    else if pool[guess[i]] > 0 then [Present] + PassTwo(secret, guess, i + 1, pool - multiset{guess[i]})
    else [Absent] + PassTwo(secret, guess, i + 1, pool)
  }

  function TwoPassScore(secret: string, guess: string): (marks: seq<Mark>)
    ensures |marks| == |guess|
  {
    PassTwo(secret, guess, 0, Pool(secret, guess, 0))
  }

  lemma {:induction false} PoolWithinSecret(secret: string, guess: string, j: nat)
    requires j <= |secret|
    ensures Pool(secret, guess, j) <= multiset(secret[j..])
    decreases |secret| - j
  {
    if j < |secret| {
      PoolWithinSecret(secret, guess, j + 1);
      assert secret[j..] == [secret[j]] + secret[j + 1..];
    }
  }

  /** Position `k` of the second pass started at `i`, given a pool drawn from the
      secret: Correct exactly at exact matches, and Present only for letters of
      the secret. */
  lemma {:induction false} PassTwoWithinSingle(secret: string, guess: string, i: nat, pool: multiset<char>, k: nat)
    requires i <= k < |guess|
    requires forall c :: pool[c] > 0 ==> c in secret
    ensures PassTwo(secret, guess, i, pool)[k - i] == Correct <==> Exact(secret, guess, k)
    ensures PassTwo(secret, guess, i, pool)[k - i] == Present ==> guess[k] in secret
    decreases k - i
  {
    var here := !Exact(secret, guess, i) && pool[guess[i]] > 0;
    var pool' := if here then pool - multiset{guess[i]} else pool;
    var m: Mark := if Exact(secret, guess, i) then Correct else if here then Present else Absent;
    var rest := PassTwo(secret, guess, i + 1, pool');
    assert PassTwo(secret, guess, i, pool) == [m] + rest;
    if k > i {
      assert forall c :: pool'[c] > 0 ==> pool[c] > 0;
      PassTwoWithinSingle(secret, guess, i + 1, pool', k);
      assert ([m] + rest)[k - i] == rest[k - (i + 1)];
    }
  }

  /** The game's rule agrees with the two-pass rule on Correct, and it is never
      stricter: every position the two-pass rule calls Present, the game calls
      Present too. */
  lemma SinglePassIsNeverStricter(secret: string, guess: string)
    ensures forall i :: 0 <= i < |guess| ==>
              (TwoPassScore(secret, guess)[i] == Correct <==> Score(secret, guess)[i] == Correct)
    ensures forall i :: 0 <= i < |guess| && TwoPassScore(secret, guess)[i] == Present ==>
              Score(secret, guess)[i] == Present
  {
    PoolWithinSecret(secret, guess, 0);
    assert secret[0..] == secret;
    var two := TwoPassScore(secret, guess);
    forall i | 0 <= i < |guess|
      ensures two[i] == Correct <==> Exact(secret, guess, i)
      ensures two[i] == Present ==> guess[i] in secret
    {
      forall c | Pool(secret, guess, 0)[c] > 0
        ensures c in secret
      {
        assert c in multiset(secret);
      }
      PassTwoWithinSingle(secret, guess, 0, Pool(secret, guess, 0), i);
    }
  }

  predicate DistinctLetters(s: string) {
    forall i, j :: 0 <= i < j < |s| ==> s[i] != s[j]
  }

  /** When no exact match uses up letter `c` from `j` on, the pool holds every
      occurrence of `c` in `secret[j..]`. */
  lemma {:induction false} PoolCount(secret: string, guess: string, j: nat, c: char)
    requires j <= |secret|
    requires forall k :: j <= k < |secret| && k < |guess| ==> !(guess[k] == secret[k] == c)
    ensures Pool(secret, guess, j)[c] == multiset(secret[j..])[c]
    decreases |secret| - j
  {
    if j < |secret| {
      PoolCount(secret, guess, j + 1, c);
      assert secret[j..] == [secret[j]] + secret[j + 1..];
    }
  }

  /** The second pass matches the game's rule on the rest of the row as long as,
      at every later inexact position, the pool holds that position's letter
      exactly when the secret does. */
  lemma {:induction false} PassTwoMatchesSingle(secret: string, guess: string, i: nat, pool: multiset<char>)
    requires i <= |guess|
    requires DistinctLetters(guess)
    requires forall k :: i <= k < |guess| && !Exact(secret, guess, k) ==>
               (pool[guess[k]] > 0 <==> guess[k] in secret)
    ensures PassTwo(secret, guess, i, pool) == Score(secret, guess)[i..]
    decreases |guess| - i
  {
    if i < |guess| {
      var pool' := if !Exact(secret, guess, i) && pool[guess[i]] > 0 then pool - multiset{guess[i]} else pool;
      forall k | i + 1 <= k < |guess| && !Exact(secret, guess, k)
        ensures pool'[guess[k]] > 0 <==> guess[k] in secret
      {
        assert guess[k] != guess[i];
      }
      PassTwoMatchesSingle(secret, guess, i + 1, pool');
      assert Score(secret, guess)[i..] == [Score(secret, guess)[i]] + Score(secret, guess)[i + 1..];
    }
  }

  /** On a guess without repeated letters the two rules agree: the game's rule
      differs from the two-pass rule only on guesses that repeat a letter. */
  lemma RulesAgreeOnDistinctLetters(secret: string, guess: string)
    requires DistinctLetters(guess)
    ensures TwoPassScore(secret, guess) == Score(secret, guess)
  {
    var pool := Pool(secret, guess, 0);
    forall k | 0 <= k < |guess| && !Exact(secret, guess, k)
      ensures pool[guess[k]] > 0 <==> guess[k] in secret
    {
      PoolCount(secret, guess, 0, guess[k]);
      assert secret[0..] == secret;
    }
    PassTwoMatchesSingle(secret, guess, 0, pool);
  }

  /** A repeated letter shows the difference: against CRANE, the guess EERIE has
      both leading E's marked Present by the game, although CRANE has a single E
      that the final exact match already uses; the two-pass rule marks them Absent. */
  lemma RepeatedLetterIsOverCredited()
    ensures Score("CRANE", "EERIE") == [Present, Present, Present, Absent, Correct]
    ensures TwoPassScore("CRANE", "EERIE") == [Absent, Absent, Present, Absent, Correct]
  {
    var s, g := "CRANE", "EERIE";
    assert 'E' in s && 'R' in s && 'I' !in s;
    assert Pool(s, g, 0) == multiset{'C', 'R', 'A', 'N'};
  }
}
