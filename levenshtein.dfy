/** Unit-cost edit distance (insert, delete, substitute), as `levenshteinDistance`
    computes it with a dynamic-programming table. */
module Levenshtein {
  import opened Maths

  function Min3(x: nat, y: nat, z: nat): nat {
    if x <= y && x <= z then x else if y <= z then y else z
  }

  /** The distance between the prefixes `a[..i]` and `b[..j]`: the recurrence that
      defines entry `[i][j]` of the table. */
  function Lev(a: string, b: string, i: nat, j: nat): nat
    requires i <= |a| && j <= |b|
    decreases i + j
  {
    if i == 0 then j
    else if j == 0 then i
    else if a[i - 1] == b[j - 1] then Lev(a, b, i - 1, j - 1)
    else 1 + Min3(Lev(a, b, i - 1, j - 1), Lev(a, b, i, j - 1), Lev(a, b, i - 1, j))
  }

  function EditDistance(a: string, b: string): nat {
    Lev(a, b, |a|, |b|)
  }

  lemma {:induction false} LevSymmetric(a: string, b: string, i: nat, j: nat)
    requires i <= |a| && j <= |b|
    decreases i + j
    ensures Lev(a, b, i, j) == Lev(b, a, j, i)
  {
    if i > 0 && j > 0 {
      LevSymmetric(a, b, i - 1, j - 1);
      if a[i - 1] != b[j - 1] {
        LevSymmetric(a, b, i, j - 1);
        LevSymmetric(a, b, i - 1, j);
      }
    }
  }

  /** The distance does not depend on the order of its arguments. */
  lemma EditDistanceSymmetric(a: string, b: string)
    ensures EditDistance(a, b) == EditDistance(b, a)
  {
    LevSymmetric(a, b, |a|, |b|);
  }

  /** No more edits than the longer prefix has characters. */
  lemma {:induction false} LevUpper(a: string, b: string, i: nat, j: nat)
    requires i <= |a| && j <= |b|
    decreases i + j
    ensures Lev(a, b, i, j) <= Max(i, j)
  {
    if i > 0 && j > 0 {
      LevUpper(a, b, i - 1, j - 1);
    }
  }

  /** At least as many edits as the prefixes differ in length. */
  lemma {:induction false} LevLower(a: string, b: string, i: nat, j: nat)
    requires i <= |a| && j <= |b|
    decreases i + j
    ensures i <= j ==> j - i <= Lev(a, b, i, j)
    ensures j <= i ==> i - j <= Lev(a, b, i, j)
  {
    if i > 0 && j > 0 {
      LevLower(a, b, i - 1, j - 1);
      if a[i - 1] != b[j - 1] {
        LevLower(a, b, i, j - 1);
        LevLower(a, b, i - 1, j);
      }
    }
  }

  /** The distance is at least the difference of the lengths and at most the
      longer length; against the empty string it is the other string's length. */
  lemma EditDistanceBounds(a: string, b: string)
    ensures EditDistance(a, b) <= Max(|a|, |b|)
    ensures |a| <= |b| ==> |b| - |a| <= EditDistance(a, b)
    ensures |b| <= |a| ==> |a| - |b| <= EditDistance(a, b)
    ensures EditDistance(a, []) == |a| && EditDistance([], a) == |a|
  {
    LevUpper(a, b, |a|, |b|);
    LevLower(a, b, |a|, |b|);
  }

  lemma {:induction false} LevZero(a: string, b: string, i: nat, j: nat)
    requires i <= |a| && j <= |b|
    decreases i + j
    ensures Lev(a, b, i, j) == 0 <==> a[..i] == b[..j]
  {
    if i == 0 || j == 0 {
      assert |a[..i]| == i && |b[..j]| == j;
    } else {
      LevZero(a, b, i - 1, j - 1);
      assert a[..i] == a[..i - 1] + [a[i - 1]];
      assert b[..j] == b[..j - 1] + [b[j - 1]];
      if a[..i] == b[..j] {
        assert a[i - 1] == a[..i][i - 1] == b[..j][j - 1] == b[j - 1];
        assert a[..i - 1] == a[..i][..i - 1] == b[..j][..j - 1] == b[..j - 1];
      }
    }
  }

  /** The distance is zero exactly for equal strings. */
  lemma EditDistanceZeroIff(a: string, b: string)
    ensures EditDistance(a, b) == 0 <==> a == b
  {
    LevZero(a, b, |a|, |b|);
    assert a[..|a|] == a && b[..|b|] == b;
  }

  /** The recurrence at an inner cell, as the inner loop of the table applies it. */
  lemma LevStep(a: string, b: string, i: nat, j: nat)
    requires 0 < i <= |a| && 0 < j <= |b|
    ensures Lev(a, b, i, j) ==
      if a[i - 1] == b[j - 1] then Lev(a, b, i - 1, j - 1)
      else Min3(Lev(a, b, i - 1, j - 1) + 1, Lev(a, b, i, j - 1) + 1, Lev(a, b, i - 1, j) + 1)
  {
  }

  /** `levenshteinDistance(str1, str2)`: row `i` of the table belongs to `str2[..i]`
      and column `j` to `str1[..j]`; the answer is the bottom-right entry. */
  method LevenshteinDistance(str1: string, str2: string) returns (d: nat)
    ensures d == EditDistance(str2, str1)
    ensures d == EditDistance(str1, str2)
  {
    var rows, cols := |str2| + 1, |str1| + 1;
    var matrix := new nat[rows, cols];

    for i := 0 to rows
      invariant forall r :: 0 <= r < i ==> matrix[r, 0] == r
    {
      matrix[i, 0] := i;
    }

    for j := 0 to cols
      invariant forall r :: 0 <= r < rows ==> matrix[r, 0] == r
      invariant forall c :: 0 <= c < j ==> matrix[0, c] == c
    {
      matrix[0, j] := j;
    }

    for i := 1 to rows
      invariant forall r, c :: 0 <= r < i && 0 <= c < cols ==> matrix[r, c] == Lev(str2, str1, r, c)
      invariant forall r :: i <= r < rows ==> matrix[r, 0] == r
    {
      FillRow(matrix, str1, str2, i);
    }

    d := matrix[rows - 1, cols - 1];
    EditDistanceSymmetric(str2, str1);
  }

  /** One pass of the inner loop: fills row `i` from row `i - 1`. */
  method FillRow(matrix: array2<nat>, str1: string, str2: string, i: nat)
    requires matrix.Length0 == |str2| + 1 && matrix.Length1 == |str1| + 1
    requires 0 < i <= |str2|
    requires forall r, c :: 0 <= r < i && 0 <= c < matrix.Length1 ==> matrix[r, c] == Lev(str2, str1, r, c)
    requires forall r :: i <= r < matrix.Length0 ==> matrix[r, 0] == r
    modifies matrix
    ensures forall r, c :: 0 <= r <= i && 0 <= c < matrix.Length1 ==> matrix[r, c] == Lev(str2, str1, r, c)
    ensures forall r, c :: 0 <= r < matrix.Length0 && 0 <= c < matrix.Length1 && r != i ==> matrix[r, c] == old(matrix[r, c])
  {
    for j := 1 to matrix.Length1
      invariant forall r, c :: 0 <= r < matrix.Length0 && 0 <= c < matrix.Length1 && (r != i || c >= j) ==> matrix[r, c] == old(matrix[r, c])
      invariant forall c :: 0 <= c < j ==> matrix[i, c] == Lev(str2, str1, i, c)
    {
      LevStep(str2, str1, i, j);
      if str2[i - 1] == str1[j - 1] {
        matrix[i, j] := matrix[i - 1, j - 1];
      } else {
        matrix[i, j] := Min3(matrix[i - 1, j - 1] + 1, matrix[i, j - 1] + 1, matrix[i - 1, j] + 1);
      }
    }
  }
}
