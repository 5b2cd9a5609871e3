/** Levenshtein distance (`levenshtein_distance` and its module-level row
    buffer `dp`) and the two ways a guess is judged against the secret word:
    the `edit` command's score and the correctness check. */
module Levenshtein {
  import opened PyStr

  /** `min(a, b, c)` */
  function Min3(a: int, b: int, c: int): int {
    if a <= b && a <= c then a else if b <= c then b else c
  }

  function Abs(x: int): int { if x < 0 then -x else x }

  /** The cost of matching two characters: 0 when equal, 1 for a substitution. */
  function Cost(a: char, b: char): int { if a != b then 1 else 0 }

  /** The unit-cost edit distance between the first `i` characters of `a` and
      the first `j` characters of `b`: the fewest single-character
      insertions, deletions and substitutions turning one into the other, by
      recursion on the last characters. */
  function Dist(a: string, b: string, i: int, j: int): int
    requires 0 <= i <= |a| && 0 <= j <= |b|
    decreases i + j
  {
    if i == 0 || j == 0 then i + j
    else Min3(Dist(a, b, i - 1, j) + 1,
              Dist(a, b, i, j - 1) + 1,
              Dist(a, b, i - 1, j - 1) + Cost(a[i - 1], b[j - 1]))
  }

  /** The distance is at least the difference of the lengths and at most the
      longer length; so it is never negative, and it is `j` when `i == 0`. */
  lemma DistBounds(a: string, b: string, i: int, j: int)
    requires 0 <= i <= |a| && 0 <= j <= |b|
    ensures Abs(i - j) <= Dist(a, b, i, j) <= Max(i, j)
  {
    DistLower(a, b, i, j);
    DistUpper(a, b, i, j);
  }

  /** The lower half of DistBounds, by induction on the table. */
  lemma {:induction false} DistLower(a: string, b: string, i: int, j: int)
    requires 0 <= i <= |a| && 0 <= j <= |b|
    ensures Abs(i - j) <= Dist(a, b, i, j)
    decreases i + j
  {
    if i > 0 && j > 0 {
      DistLower(a, b, i - 1, j);
      DistLower(a, b, i, j - 1);
      DistLower(a, b, i - 1, j - 1);
    }
  }

  /** The upper half of DistBounds: along the diagonal, then straight down or across. */
  lemma {:induction false} DistUpper(a: string, b: string, i: int, j: int)
    requires 0 <= i <= |a| && 0 <= j <= |b|
    ensures Dist(a, b, i, j) <= Max(i, j)
    decreases i + j
  {
    if i > 0 && j > 0 {
      DistUpper(a, b, i - 1, j - 1);
    }
  }

  /** `|len(s) - len(t)| <= d(s, t) <= max(len(s), len(t))`, and
      `d("", t) == len(t)`. */
  lemma EditDistanceBounds(s: string, t: string)
    ensures Abs(|s| - |t|) <= EditDistance(s, t) <= Max(|s|, |t|)
    ensures |s| == 0 ==> EditDistance(s, t) == |t|
  {
    DistBounds(s, t, |s|, |t|);
  }

  /** The recurrence for one inner cell of the table. */
  lemma DistCell(a: string, b: string, i: int, j: int)
    requires 0 <= i < |a| && 0 <= j < |b|
    ensures Dist(a, b, i + 1, j + 1)
         == Min3(Dist(a, b, i, j + 1) + 1, Dist(a, b, i + 1, j) + 1, Dist(a, b, i, j) + Cost(a[i], b[j]))
  {
  }

  /** The edit distance between two whole strings. */
  function EditDistance(s: string, t: string): int {
    Dist(s, t, |s|, |t|)
  }

  /** The distance between prefixes does not depend on the order of the operands. */
  lemma {:induction false} DistSymmetric(a: string, b: string, i: int, j: int)
    requires 0 <= i <= |a| && 0 <= j <= |b|
    ensures Dist(a, b, i, j) == Dist(b, a, j, i)
    decreases i + j
  {
    if i > 0 && j > 0 {
      DistSymmetric(a, b, i - 1, j);
      DistSymmetric(a, b, i, j - 1);
      DistSymmetric(a, b, i - 1, j - 1);
    }
  }

  /** `levenshtein_distance(s, t) == levenshtein_distance(t, s)`. */
  lemma EditDistanceSymmetric(s: string, t: string)
    ensures EditDistance(s, t) == EditDistance(t, s)
  {
    DistSymmetric(s, t, |s|, |t|);
  }

  /** The distance between two prefixes is 0 exactly when they are equal. */
  lemma DistZeroIff(a: string, b: string, i: int, j: int)
    requires 0 <= i <= |a| && 0 <= j <= |b|
    ensures Dist(a, b, i, j) == 0 <==> a[..i] == b[..j]
  {
    if Dist(a, b, i, j) == 0 {
      DistZeroEqual(a, b, i, j);
    }
    if a[..i] == b[..j] {
      EqualDistZero(a, b, i, j);
    }
  }

  /** A zero distance can only come from the diagonal with equal characters. */
  lemma {:induction false} DistZeroEqual(a: string, b: string, i: int, j: int)
    requires 0 <= i <= |a| && 0 <= j <= |b|
    requires Dist(a, b, i, j) == 0
    ensures a[..i] == b[..j]
    decreases i + j
  {
    if i > 0 && j > 0 {
      DistLower(a, b, i - 1, j);
      DistLower(a, b, i, j - 1);
      DistLower(a, b, i - 1, j - 1);
      assert Dist(a, b, i - 1, j - 1) == 0 && a[i - 1] == b[j - 1];
      DistZeroEqual(a, b, i - 1, j - 1);
      PrefixExtend(a, b, i, j);
    }
  }

  /** Equal prefixes followed by equal characters are equal prefixes. */
  lemma PrefixExtend(a: string, b: string, i: int, j: int)
    requires 0 < i <= |a| && 0 < j <= |b|
    requires a[..i - 1] == b[..j - 1] && a[i - 1] == b[j - 1]
    ensures a[..i] == b[..j]
  {
    assert a[..i] == a[..i - 1] + [a[i - 1]];
    assert b[..j] == b[..j - 1] + [b[j - 1]];
  }

  /** Equal prefixes have the same length and distance 0. */
  lemma {:induction false} EqualDistZero(a: string, b: string, i: int, j: int)
    requires 0 <= i <= |a| && 0 <= j <= |b|
    requires a[..i] == b[..j]
    ensures Dist(a, b, i, j) == 0
    decreases i + j
  {
    assert i == |a[..i]| == |b[..j]| == j;
    if i > 0 {
      assert a[..i - 1] == a[..i][..i - 1] == b[..j][..j - 1] == b[..j - 1];
      assert a[i - 1] == a[..i][i - 1] == b[..j][j - 1] == b[j - 1];
      EqualDistZero(a, b, i - 1, j - 1);
      DistBounds(a, b, i, j);
    }
  }

  /** The distance is 0 exactly between equal strings; in particular `d(s, s) == 0`. */
  lemma EditDistanceZeroIff(s: string, t: string)
    ensures EditDistance(s, t) == 0 <==> s == t
  {
    DistZeroIff(s, t, |s|, |t|);
    assert s[..|s|] == s && t[..|t|] == t;
  }

  /** The expected distance the distance tests check, in both orders, by its table. */
  lemma HorseRos()
    ensures EditDistance("horse", "ros") == 3
    ensures EditDistance("ros", "horse") == 3
  {
    EditDistanceSymmetric("horse", "ros");
    var a, b := "horse", "ros";
    assert Dist(a, b, 1, 1) == 1;
    assert Dist(a, b, 1, 2) == 2;
    assert Dist(a, b, 1, 3) == 3;
    assert Dist(a, b, 2, 1) == 2;
    assert Dist(a, b, 2, 2) == 1;
    assert Dist(a, b, 2, 3) == 2;
    assert Dist(a, b, 3, 1) == 2;
    assert Dist(a, b, 3, 2) == 2;
    assert Dist(a, b, 3, 3) == 2;
    assert Dist(a, b, 4, 1) == 3;
    assert Dist(a, b, 4, 2) == 3;
    assert Dist(a, b, 4, 3) == 2;
    assert Dist(a, b, 5, 1) == 4;
    assert Dist(a, b, 5, 2) == 4;
    assert Dist(a, b, 5, 3) == 3;
  }

  /** Another expected distance from the tests' list of cases, by its table. */
  lemma KittenSitting()
    ensures EditDistance("kitten", "sitting") == 3
  {
    var a, b := "kitten", "sitting";
    assert Dist(a, b, 1, 1) == 1;
    assert Dist(a, b, 1, 2) == 2;
    assert Dist(a, b, 1, 3) == 3;
    assert Dist(a, b, 1, 4) == 4;
    assert Dist(a, b, 1, 5) == 5;
    assert Dist(a, b, 1, 6) == 6;
    assert Dist(a, b, 1, 7) == 7;
    assert Dist(a, b, 2, 1) == 2;
    assert Dist(a, b, 2, 2) == 1;
    assert Dist(a, b, 2, 3) == 2;
    assert Dist(a, b, 2, 4) == 3;
    assert Dist(a, b, 2, 5) == 4;
    assert Dist(a, b, 2, 6) == 5;
    assert Dist(a, b, 2, 7) == 6;
    assert Dist(a, b, 3, 1) == 3;
    assert Dist(a, b, 3, 2) == 2;
    assert Dist(a, b, 3, 3) == 1;
    assert Dist(a, b, 3, 4) == 2;
    assert Dist(a, b, 3, 5) == 3;
    assert Dist(a, b, 3, 6) == 4;
    assert Dist(a, b, 3, 7) == 5;
    assert Dist(a, b, 4, 1) == 4;
    assert Dist(a, b, 4, 2) == 3;
    assert Dist(a, b, 4, 3) == 2;
    assert Dist(a, b, 4, 4) == 1;
    assert Dist(a, b, 4, 5) == 2;
    assert Dist(a, b, 4, 6) == 3;
    assert Dist(a, b, 4, 7) == 4;
    assert Dist(a, b, 5, 1) == 5;
    assert Dist(a, b, 5, 2) == 4;
    assert Dist(a, b, 5, 3) == 3;
    assert Dist(a, b, 5, 4) == 2;
    assert Dist(a, b, 5, 5) == 2;
    assert Dist(a, b, 5, 6) == 3;
    assert Dist(a, b, 5, 7) == 4;
    assert Dist(a, b, 6, 1) == 6;
    assert Dist(a, b, 6, 2) == 5;
    assert Dist(a, b, 6, 3) == 4;
    assert Dist(a, b, 6, 4) == 3;
    assert Dist(a, b, 6, 5) == 3;
    assert Dist(a, b, 6, 6) == 2;
    assert Dist(a, b, 6, 7) == 3;
  }

  /** The best score of `guess` over a non-empty list of spellings: some
      spelling attains it and none does better. */
  function MinDistance(guess: string, spellings: seq<string>): (d: int)
    requires |spellings| >= 1
    ensures exists k :: 0 <= k < |spellings| && d == EditDistance(guess, spellings[k])
    ensures forall k :: 0 <= k < |spellings| ==> d <= EditDistance(guess, spellings[k])
    decreases |spellings|
  {
    var last := EditDistance(guess, spellings[|spellings| - 1]);
    if |spellings| == 1 then last
    else Min(MinDistance(guess, spellings[..|spellings| - 1]), last)
  }

  /** Taking one more spelling into account lowers the best score to that
      spelling's distance when it is smaller. */
  lemma MinDistanceExtend(guess: string, spellings: seq<string>, k: int)
    requires 0 < k < |spellings|
    ensures MinDistance(guess, spellings[..k + 1])
         == Min(MinDistance(guess, spellings[..k]), EditDistance(guess, spellings[k]))
  {
    assert spellings[..k + 1][..k] == spellings[..k];
  }

  /** A guess is correct when it is literally one of the accepted spellings. */
  predicate IsCorrect(guess: string, spellings: seq<string>) {
    guess in spellings
  }

  /** The `edit` score is 0 exactly for the guesses the correctness check accepts. */
  lemma ScoreZeroIffCorrect(guess: string, spellings: seq<string>)
    requires |spellings| >= 1
    ensures MinDistance(guess, spellings) == 0 <==> IsCorrect(guess, spellings)
  {
    var d := MinDistance(guess, spellings);
    var k :| 0 <= k < |spellings| && d == EditDistance(guess, spellings[k]);
    EditDistanceZeroIff(guess, spellings[k]);
    DistBounds(guess, spellings[k], |guess|, |spellings[k]|);
    if guess in spellings {
      var i :| 0 <= i < |spellings| && spellings[i] == guess;
      EditDistanceZeroIff(guess, spellings[i]);
    }
  }

  /** The module-level row buffer `dp`, which persists and grows across calls. */
  class DistanceBuffer {
    var dp: array<int>

    /** `dp = []` */
    constructor ()
      ensures dp.Length == 0 && fresh(dp)
    {
      dp := new int[0];
    }

    /** Cells `0..m` of the buffer, `m` the shorter length, hold the last row
        of the table of the longer of `s` and `t` against the shorter. */
    ghost predicate HoldsLastRow(s: string, t: string)
      reads this, dp
    {
      var long, short := if |s| < |t| then t else s, if |s| < |t| then s else t;
      && |short| < dp.Length
      && forall j {:trigger dp[j]} :: 0 <= j <= |short| ==> dp[j] == Dist(long, short, |long|, j)
    }

    /** `levenshtein_distance(s, t)`: the rolling-row computation, with the
        shorter string sizing the row. It returns the edit distance; the row
        is grown to at least `m + 1` cells and never shrunk, where `m` is the
        shorter length; cells `0..m` end holding the last row of the table
        and the cells beyond `m` keep their old values. */
    method LevenshteinDistance(s: string, t: string) returns (d: int)
      modifies this, dp
      ensures d == EditDistance(s, t)
      ensures dp == old(dp) || fresh(dp)
      ensures dp.Length == Max(old(dp.Length), Min(|s|, |t|) + 1)
      ensures forall k :: Min(|s|, |t|) < k < dp.Length ==> dp[k] == old(dp[k])
      ensures HoldsLastRow(s, t)
    {
      var a, b := s, t;
      if |a| < |b| {
        a, b := t, s;
      }
      var n, m := |a|, |b|;
      ResetRow(m);
      for i := 0 to n
        invariant dp == old(dp) || fresh(dp)
        invariant dp.Length == Max(old(dp.Length), m + 1)
        invariant forall k :: m < k < dp.Length ==> dp[k] == old(dp[k])
        invariant forall k {:trigger dp[k]} :: 0 <= k <= m ==> dp[k] == Dist(a, b, i, k)
      {
        NextRow(a, b, i);
      }
      d := dp[m];
      EditDistanceSymmetric(s, t);
    }

    /** `dp.extend(range(m + 1 - len(dp)))` when the row is too short, then
        `dp[:m + 1] = range(m + 1)`: row 0 of the table. */
    method ResetRow(m: nat)
      modifies this, dp
      ensures dp == old(dp) || fresh(dp)
      ensures dp.Length == Max(old(dp.Length), m + 1)
      ensures forall k :: m < k < dp.Length ==> dp[k] == old(dp[k])
      ensures forall k :: 0 <= k <= m ==> dp[k] == k
    {
      if dp.Length < m + 1 {
        var grown := new int[m + 1];
        forall k | 0 <= k < m + 1 {
          grown[k] := if k < dp.Length then dp[k] else k - dp.Length;
        }
        dp := grown;
      }
      forall k | 0 <= k <= m {
        dp[k] := k;
      }
    }

    /** One pass of the outer loop: turns row `i` of the table for `a`
        against `b` into row `i + 1`, left to right, keeping the cell above
        and the diagonal cell in two scalars. */
    method NextRow(a: string, b: string, i: int)
      requires 0 <= i < |a| && |b| < dp.Length
      requires forall k {:trigger dp[k]} :: 0 <= k <= |b| ==> dp[k] == Dist(a, b, i, k)
      modifies dp
      ensures forall k :: |b| < k < dp.Length ==> dp[k] == old(dp[k])
      ensures forall k {:trigger dp[k]} :: 0 <= k <= |b| ==> dp[k] == Dist(a, b, i + 1, k)
    {
      var m := |b|;
      var prevAbove := dp[0];
      dp[0] := i + 1;
      for j := 0 to m
        invariant forall k :: m < k < dp.Length ==> dp[k] == old(dp[k])
        invariant forall k {:trigger dp[k]} :: 0 <= k <= j ==> dp[k] == Dist(a, b, i + 1, k)
        invariant forall k {:trigger dp[k]} :: j < k <= m ==> dp[k] == Dist(a, b, i, k)
        invariant prevAbove == Dist(a, b, i, j)
      {
        prevAbove := FillCell(a, b, i, j, prevAbove);
      }
    }

    /** One pass of the inner loop: cell `j + 1` of row `i + 1` from the cell
        above it, the cell to its left and the diagonal cell `diag`; it returns
        the old content of the cell, which is the next diagonal. */
    method FillCell(a: string, b: string, i: int, j: int, diag: int) returns (above: int)
      requires 0 <= i < |a| && 0 <= j < |b| && |b| < dp.Length
      requires dp[j] == Dist(a, b, i + 1, j) && dp[j + 1] == Dist(a, b, i, j + 1)
      requires diag == Dist(a, b, i, j)
      modifies dp
      ensures above == Dist(a, b, i, j + 1)
      ensures dp[j + 1] == Dist(a, b, i + 1, j + 1)
      ensures forall k :: 0 <= k < dp.Length && k != j + 1 ==> dp[k] == old(dp[k])
    {
      above := dp[j + 1];
      DistCell(a, b, i, j);
      dp[j + 1] := Min3(above + 1, dp[j] + 1, diag + Cost(a[i], b[j]));
    }

    /** The `edit` command: the least distance between the guess and any
        accepted spelling, computed as Python's `min` over a generator, one
        buffer-sharing distance call per spelling. The buffer never shrinks
        and ends holding the last row of the table for the last spelling. */
    method EditScore(guess: string, spellings: seq<string>) returns (score: int)
      requires |spellings| >= 1
      modifies this, dp
      ensures score == MinDistance(guess, spellings)
      ensures dp == old(dp) || fresh(dp)
      ensures dp.Length >= old(dp.Length)
      ensures HoldsLastRow(guess, spellings[|spellings| - 1])
    {
      score := LevenshteinDistance(guess, spellings[0]);
      assert spellings[..1] == [spellings[0]];
      for k := 1 to |spellings|
        invariant dp == old(dp) || fresh(dp)
        invariant dp.Length >= old(dp.Length)
        invariant HoldsLastRow(guess, spellings[k - 1])
        invariant score == MinDistance(guess, spellings[..k])
      {
        var d := LevenshteinDistance(guess, spellings[k]);
        MinDistanceExtend(guess, spellings, k);
        if d < score {
          score := d;
        }
      }
      assert spellings[..|spellings|] == spellings;
    }
  }

  /** A buffer a caller creates serves repeated distance calls, in either argument order. */
  method DistanceWithNewBuffer(s: string, t: string) returns (d1: int, d2: int)
    ensures d1 == EditDistance(s, t) && d2 == EditDistance(t, s) && d1 == d2
  {
    var buffer := new DistanceBuffer();
    d1 := buffer.LevenshteinDistance(s, t);
    d2 := buffer.LevenshteinDistance(t, s);
    EditDistanceSymmetric(s, t);
  }
}
