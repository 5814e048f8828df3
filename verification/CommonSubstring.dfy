/**
 `string_lcs`: the longest common substring by dynamic programming.
 */
module CommonSubstring {

  /** The `n` characters before position `i` of `a` are the `n` characters before position `j` of `b`. */
  predicate CommonAt(a: string, b: string, i: nat, j: nat, n: nat) {
    n <= i <= |a| && n <= j <= |b| && a[i - n..i] == b[j - n..j]
  }

  /** The cell `dp[i][j]`. */
  function SuffixLen(a: string, b: string, i: nat, j: nat): (n: nat)
    requires i <= |a| && j <= |b|
    ensures n <= i && n <= j
  {
    if i == 0 || j == 0 || a[i - 1] != b[j - 1] then 0 else 1 + SuffixLen(a, b, i - 1, j - 1)
  }

  /** The cell is the length of the longest common suffix of the two prefixes. */
  lemma {:induction false} SuffixLenIsLongest(a: string, b: string, i: nat, j: nat, n: nat)
    requires i <= |a| && j <= |b|
    ensures CommonAt(a, b, i, j, n) <==> n <= SuffixLen(a, b, i, j)
  {
    if n > 0 {
      if i > 0 && j > 0 {
        SuffixLenIsLongest(a, b, i - 1, j - 1, n - 1);
        if n <= i && n <= j {
          LastAgrees(a, b, i, j, n);
        }
      }
    } else {
      assert a[i..i] == b[j..j];
    }
  }

  lemma LastAgrees(a: string, b: string, i: nat, j: nat, n: nat)
    requires 0 < n <= i <= |a| && n <= j <= |b|
    ensures a[i - n..i] == b[j - n..j] <==> a[i - 1] == b[j - 1] && a[i - n..i - 1] == b[j - n..j - 1]
  {
    assert a[i - n..i] == a[i - n..i - 1] + [a[i - 1]];
    assert b[j - n..j] == b[j - n..j - 1] + [b[j - 1]];
    assert a[i - n..i][n - 1] == a[i - 1] && b[j - n..j][n - 1] == b[j - 1];
    assert a[i - n..i][..n - 1] == a[i - n..i - 1] && b[j - n..j][..n - 1] == b[j - n..j - 1];
  }

  /** No cell up to column `j` of row `i` beats `best`, and none in a row before `end` reaches it. */
  ghost predicate BestSoFar(a: string, b: string, i: nat, j: nat, best: nat, end: nat) {
    forall p, q | 0 <= p <= |a| && 0 <= q <= |b| && (p < i || (p == i && q <= j)) ::
      SuffixLen(a, b, p, q) <= best && (p < end ==> SuffixLen(a, b, p, q) < best)
  }

  /**
   `s` is a longest common substring and, among those, one that ends first in `a`.
   */
  ghost predicate IsFirstLongest(a: string, b: string, s: string) {
    exists i: nat, j: nat ::
      CommonAt(a, b, i, j, |s|) && s == a[i - |s|..i] &&
      forall p: nat, q: nat, n: nat | CommonAt(a, b, p, q, n) :: n < |s| || (n == |s| && i <= p)
  }

  /** The cells up to column `j` of row `i` are computed, the others still zero. */
  ghost predicate Filled(dp: array2<nat>, a: string, b: string, i: nat, j: nat)
    reads dp
  {
    dp.Length0 == |a| + 1 && dp.Length1 == |b| + 1 &&
    forall p, q | 0 <= p <= |a| && 0 <= q <= |b| ::
      dp[p, q] == if p < i || (p == i && q <= j) then SuffixLen(a, b, p, q) else 0
  }

  /** The next cell in the order of the loops. */
  lemma NextCell(a: string, b: string, i: nat, j: nat, best: nat, end: nat)
    requires 1 <= i <= |a| && 1 <= j <= |b| && end <= i && BestSoFar(a, b, i, j - 1, best, end)
    ensures var n := SuffixLen(a, b, i, j);
            n == (if a[i - 1] == b[j - 1] then SuffixLen(a, b, i - 1, j - 1) + 1 else 0) &&
            if n > best then BestSoFar(a, b, i, j, n, i) else BestSoFar(a, b, i, j, best, end)
  {
  }

  method StringLcs(a: string, b: string) returns (s: string)
    ensures IsFirstLongest(a, b, s)
  {
    if a == "" || b == "" {
      assert CommonAt(a, b, 0, 0, 0);
      return "";
    }
    var dp := new nat[|a| + 1, |b| + 1]((i, j) => 0);
    var best, end := 0, 0;
    ghost var endB := 0;
    for i := 1 to |a| + 1
      invariant end < i && endB <= |b| && SuffixLen(a, b, end, endB) == best
      invariant Filled(dp, a, b, i - 1, |b|)
      invariant BestSoFar(a, b, i - 1, |b|, best, end)
    {
      for j := 1 to |b| + 1
        invariant end <= i && endB <= |b| && SuffixLen(a, b, end, endB) == best
        invariant Filled(dp, a, b, i, j - 1)
        invariant BestSoFar(a, b, i, j - 1, best, end)
      {
        NextCell(a, b, i, j, best, end);
        if a[i - 1] == b[j - 1] {
          assert dp[i - 1, j - 1] == SuffixLen(a, b, i - 1, j - 1);
          dp[i, j] := dp[i - 1, j - 1] + 1;
          if dp[i, j] > best {
            best := dp[i, j];
            end := i;
            endB := j;
          }
        }
      }
    }
    s := a[end - best..end];
    Longest(a, b, best, end, endB);
  }

  lemma Longest(a: string, b: string, best: nat, end: nat, endB: nat)
    requires end <= |a| && endB <= |b| && SuffixLen(a, b, end, endB) == best
    requires BestSoFar(a, b, |a|, |b|, best, end)
    ensures IsFirstLongest(a, b, a[end - best..end])
  {
    var s := a[end - best..end];
    SuffixLenIsLongest(a, b, end, endB, best);
    forall p: nat, q: nat, n: nat | CommonAt(a, b, p, q, n) ensures n < |s| || (n == |s| && end <= p) {
      SuffixLenIsLongest(a, b, p, q, n);
    }
  }
}
