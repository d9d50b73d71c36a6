/** The numbers of the computation: A[i][k] = 1+i+k, B[k][j] = 2+k+j, and their
    inner products. */
module Products {

  const INT_MAX := 0x7FFF_FFFF

  /** initValue + i + j. */
  function Entry(initValue: nat, i: nat, j: nat): nat {
    initValue + i + j
  }

  const INIT_A: nat := 1
  const INIT_B: nat := 2

  /** The variable `sum` of worker_compute after k rounds. */
  function PartialSum(i: nat, j: nat, k: nat): nat {
    if k == 0 then 0 else PartialSum(i, j, k - 1) + Term(i, j, k - 1)
  }

  function Term(i: nat, j: nat, k: nat): nat {
    Entry(INIT_A, i, k) * Entry(INIT_B, k, j)
  }

  /** Cell (i, j) of the product of the two n by n matrices. */
  function Product(n: nat, i: nat, j: nat): nat {
    PartialSum(i, j, n)
  }

  lemma TermExpanded(i: nat, j: nat, k: nat)
    ensures Term(i, j, k) == (1 + i) * (2 + j) + k * (3 + i + j) + k * k
  {
    assert (1 + i + k) * (2 + k + j) == (1 + i) * (2 + j) + (1 + i) * k + k * (2 + j) + k * k;
  }

  /** Six times the closed form, as a function of p = (1+i)(2+j) and s = 3+i+j. */
  function Closed(p: int, s: int, n: int): int {
    6 * (n * p) + 3 * (s * (n * (n - 1))) + (n - 1) * n * (2 * n - 1)
  }

  lemma ClosedStep(p: int, s: int, k: int)
    ensures Closed(p, s, k + 1) == Closed(p, s, k) + 6 * (p + k * s + k * k)
  {
    assert (k + 1) * p == k * p + p;
    var a, b := (k + 1) * k, k * (k - 1);
    assert a == b + 2 * k;
    assert s * a == s * b + s * (2 * k);
    assert k * (k + 1) * (2 * (k + 1) - 1) == (k - 1) * k * (2 * k - 1) + 6 * (k * k);
  }

  /** The inner-product loop computes the closed form. */
  lemma {:induction false} ClosedForm(i: nat, j: nat, n: nat)
    ensures 6 * PartialSum(i, j, n) == Closed((1 + i) * (2 + j), 3 + i + j, n)
  {
    if n > 0 {
      ClosedForm(i, j, n - 1);
      ClosedStep((1 + i) * (2 + j), 3 + i + j, n - 1);
      TermExpanded(i, j, n - 1);
    }
  }

  lemma TermMono(i: nat, j: nat, i': nat, j': nat, k: nat)
    requires i <= i' && j <= j'
    ensures Term(i, j, k) <= Term(i', j', k)
    ensures i == i' && j < j' ==> Term(i, j, k) < Term(i', j', k)
  {
    var a, b, a', b' := 1 + i + k, 2 + k + j, 1 + i' + k, 2 + k + j';
    assert a * b <= a * b' by { assert a * (b' - b) >= 0; }
    assert a * b' <= a' * b' by { assert (a' - a) * b' >= 0; }
    if j < j' { assert a * b < a * b' by { assert a * (b' - b) > 0; } }
  }

  /** Partial sums grow with the row, the column and the number of rounds. */
  lemma {:induction false} SumMono(i: nat, j: nat, k: nat, i': nat, j': nat, k': nat)
    requires i <= i' && j <= j' && k <= k'
    ensures PartialSum(i, j, k) <= PartialSum(i', j', k')
  {
    if k < k' {
      SumMono(i, j, k, i', j', k' - 1);
    } else if k > 0 {
      SumMono(i, j, k - 1, i', j', k' - 1);
      TermMono(i, j, i', j', k - 1);
    }
  }

  /** Different columns of a row have different products. */
  lemma {:induction false} ColumnsDiffer(n: nat, i: nat, j: nat, j': nat)
    requires n > 0 && j < j'
    ensures Product(n, i, j) < Product(n, i, j')
  {
    SumMono(i, j, n - 1, i, j', n - 1);
    TermMono(i, j, i, j', n - 1);
  }

  lemma LargestCell(n: nat)
    requires n > 0
    ensures 3 * Product(n, n - 1, n - 1) == 7 * (n * n * n) - n
  {
    ClosedForm(n - 1, n - 1, n);
    var p, s := n * (n + 1), 2 * n + 1;
    assert (1 + (n - 1)) * (2 + (n - 1)) == p && 3 + (n - 1) + (n - 1) == s;
    LargestClosed(n);
  }

  lemma LargestClosed(n: int)
    ensures Closed(n * (n + 1), 2 * n + 1, n) == 14 * (n * n * n) - 2 * n
  {
    var sq, cu := n * n, n * n * n;
    assert n * (n * (n + 1)) == cu + sq;
    assert (2 * n + 1) * (n * (n - 1)) == 2 * cu - sq - n;
    assert (n - 1) * n * (2 * n - 1) == 2 * cu - 3 * sq + n;
  }

  lemma {:induction false} CubeMono(a: nat, b: nat)
    requires a <= b
    ensures 7 * (a * a * a) - a <= 7 * (b * b * b) - b
  {
    if a < b {
      var c := b - 1;
      CubeMono(a, c);
      assert b * b == c * c + 2 * c + 1;
      assert b * b * b == c * c * c + 3 * (c * c) + 3 * c + 1;
    }
  }

  /** Every partial sum of every cell is a 32-bit int iff N <= 972. */
  lemma FitsInt(n: nat)
    ensures (forall i: nat, j: nat, k: nat | i < n && j < n && k <= n :: PartialSum(i, j, k) <= INT_MAX) <==> n <= 972
  {
    if n > 0 {
      LargestCell(n);
      assert PartialSum(n - 1, n - 1, n) == Product(n, n - 1, n - 1);
      if n <= 972 {
        CubeMono(n, 972);
        forall i: nat, j: nat, k: nat | i < n && j < n && k <= n
          ensures PartialSum(i, j, k) <= INT_MAX
        {
          SumMono(i, j, k, n - 1, n - 1, n);
        }
      } else {
        CubeMono(973, n);
        assert PartialSum(n - 1, n - 1, n) > INT_MAX;
      }
    }
  }
}
