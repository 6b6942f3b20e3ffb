/**
 Finite sums over index ranges, and the rows of a matrix.

 Only what flows need: sums that agree term by term, that differ in one term, that
 are bounded term by term, and the exchange of the two sums over a matrix.
 A matrix is a function of two indices, so that rows and columns need no bounds.
 */
module Sums {

  ghost function Sum(n: nat, f: int -> int): int {
    if n == 0 then 0 else Sum(n - 1, f) + f(n - 1)
  }

  lemma {:induction false} SumSame(n: nat, f: int -> int, g: int -> int)
    requires forall i :: 0 <= i < n ==> f(i) == g(i)
    ensures Sum(n, f) == Sum(n, g)
  {
    if n > 0 { SumSame(n - 1, f, g); }
  }

  lemma {:induction false} SumAdd(n: nat, f: int -> int, g: int -> int, h: int -> int)
    requires forall i :: 0 <= i < n ==> h(i) == f(i) + g(i)
    ensures Sum(n, h) == Sum(n, f) + Sum(n, g)
  {
    if n > 0 { SumAdd(n - 1, f, g, h); }
  }

  lemma {:induction false} SumNegate(n: nat, f: int -> int, g: int -> int)
    requires forall i :: 0 <= i < n ==> g(i) == -f(i)
    ensures Sum(n, g) == -Sum(n, f)
  {
    if n > 0 { SumNegate(n - 1, f, g); }
  }

  lemma {:induction false} SumZero(n: nat, f: int -> int)
    requires forall i :: 0 <= i < n ==> f(i) == 0
    ensures Sum(n, f) == 0
  {
    if n > 0 { SumZero(n - 1, f); }
  }

  /** Everything but the term at `k` vanishes. */
  lemma {:induction false} SumOne(n: nat, f: int -> int, k: int)
    requires 0 <= k < n && forall i :: 0 <= i < n && i != k ==> f(i) == 0
    ensures Sum(n, f) == f(k)
  {
    if k == n - 1 { SumZero(n - 1, f); } else { SumOne(n - 1, f, k); }
  }

  /** Two sums that differ in one term. */
  lemma {:induction false} SumChange(n: nat, f: int -> int, g: int -> int, k: int)
    requires 0 <= k < n && forall i :: 0 <= i < n && i != k ==> f(i) == g(i)
    ensures Sum(n, g) == Sum(n, f) + g(k) - f(k)
  {
    if k == n - 1 { SumSame(n - 1, f, g); } else { SumChange(n - 1, f, g, k); }
  }

  lemma {:induction false} SumBound(n: nat, f: int -> int, g: int -> int)
    requires forall i :: 0 <= i < n ==> f(i) <= g(i)
    ensures Sum(n, f) <= Sum(n, g)
  {
    if n > 0 { SumBound(n - 1, f, g); }
  }

  /** If no term exceeds its bound and the totals agree, every term meets its bound. */
  lemma {:induction false} SumTight(n: nat, f: int -> int, g: int -> int, k: int)
    requires forall i :: 0 <= i < n ==> f(i) <= g(i)
    requires Sum(n, f) == Sum(n, g) && 0 <= k < n
    ensures f(k) == g(k)
  {
    SumBound(n - 1, f, g);
    if k < n - 1 { SumTight(n - 1, f, g, k); }
  }

  /** Splitting a range; `g` is `f` from `m` on. */
  lemma {:induction false} SumSplit(m: nat, n: nat, f: int -> int, g: int -> int)
    requires forall i :: 0 <= i < n ==> g(i) == f(m + i)
    ensures Sum(m + n, f) == Sum(m, f) + Sum(n, g)
  {
    if n > 0 {
      SumSplit(m, n - 1, f, g);
      assert g(n - 1) == f(m + n - 1);
    }
  }

  /** Row and column totals of a matrix of `n` columns, respectively `m` rows. */
  ghost function Rows(n: nat, f: (int, int) -> int): int -> int {
    i => Sum(n, j => f(i, j))
  }

  ghost function Cols(m: nat, f: (int, int) -> int): int -> int {
    j => Sum(m, i => f(i, j))
  }

  lemma RowIs(n: nat, f: (int, int) -> int, i: int, row: int -> int)
    requires forall j :: 0 <= j < n ==> row(j) == f(i, j)
    ensures Rows(n, f)(i) == Sum(n, row)
  {
    SumSame(n, row, j => f(i, j));
  }

  lemma ColIs(m: nat, f: (int, int) -> int, j: int, col: int -> int)
    requires forall i :: 0 <= i < m ==> col(i) == f(i, j)
    ensures Cols(m, f)(j) == Sum(m, col)
  {
    SumSame(m, col, i => f(i, j));
  }

  lemma RowBound(n: nat, f: (int, int) -> int, g: (int, int) -> int, i: int)
    requires forall j :: 0 <= j < n ==> f(i, j) <= g(i, j)
    ensures Rows(n, f)(i) <= Rows(n, g)(i)
  {
    SumBound(n, j => f(i, j), j => g(i, j));
  }

  lemma RowZero(n: nat, f: (int, int) -> int, i: int)
    requires forall j :: 0 <= j < n ==> f(i, j) == 0
    ensures Rows(n, f)(i) == 0
  {
    SumZero(n, j => f(i, j));
  }

  /** The order of summation does not matter. */
  lemma {:induction false} SumSwap(m: nat, n: nat, f: (int, int) -> int)
    ensures Sum(m, Rows(n, f)) == Sum(n, Cols(m, f))
  {
    if m == 0 {
      SumZero(n, Cols(0, f));
    } else {
      SumSwap(m - 1, n, f);
      SumAdd(n, Cols(m - 1, f), j => f(m - 1, j), Cols(m, f));
    }
  }

  /** A matrix and its transpose have the same total. */
  lemma SumTranspose(n: nat, f: (int, int) -> int, g: (int, int) -> int)
    requires forall i, j :: 0 <= i < n && 0 <= j < n ==> g(i, j) == f(j, i)
    ensures Sum(n, Rows(n, g)) == Sum(n, Rows(n, f))
  {
    SumSwap(n, n, f);
    forall i | 0 <= i < n ensures Rows(n, g)(i) == Cols(n, f)(i) {
      SumSame(n, j => g(i, j), j => f(j, i));
    }
    SumSame(n, Rows(n, g), Cols(n, f));
  }
}
