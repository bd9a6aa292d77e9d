/** Two-dimensional value tables (numpy arrays in the source) as sequences of
    rows, with the argmax and max used to read them. */
module Tables {

  type Table = seq<seq<real>>

  predicate Shaped(t: Table, rows: nat, cols: nat)
  {
    |t| == rows && forall i :: 0 <= i < rows ==> |t[i]| == cols
  }

  predicate NonNegative(t: Table)
  {
    forall i, j :: 0 <= i < |t| && 0 <= j < |t[i]| ==> t[i][j] >= 0.0
  }

  /** `np.zeros((rows, cols))`. */
  function Zeros(rows: nat, cols: nat): (t: Table)
    ensures Shaped(t, rows, cols)
    ensures forall i, j :: 0 <= i < rows && 0 <= j < cols ==> t[i][j] == 0.0
  {
    seq(rows, _ => seq(cols, _ => 0.0))
  }

  /** The assignment `t[i, j] = v`. */
  function Set2(t: Table, i: int, j: int, v: real): Table
    requires 0 <= i < |t| && 0 <= j < |t[i]|
  {
    t[i := t[i][j := v]]
  }

  /** `Set2` writes cell (i, j) and nothing else, and keeps the shape. */
  lemma Set2Cells(t: Table, i: int, j: int, v: real)
    requires 0 <= i < |t| && 0 <= j < |t[i]|
    ensures var t' := Set2(t, i, j, v);
            && |t'| == |t|
            && (forall x :: 0 <= x < |t| ==> |t'[x]| == |t[x]|)
            && (forall x, y :: 0 <= x < |t| && 0 <= y < |t[x]| ==>
                  t'[x][y] == (if x == i && y == j then v else t[x][y]))
  {
  }

  /** `k` is the first index holding the largest value of `row`. */
  predicate IsFirstMax(row: seq<real>, k: int)
  {
    && 0 <= k < |row|
    && (forall j :: 0 <= j < |row| ==> row[j] <= row[k])
    && (forall j :: 0 <= j < k ==> row[j] < row[k])
  }

  /** The first maximising index among `row[..n]`, scanning left to right
      and moving only on a strictly larger value. */
  function ArgmaxUpTo(row: seq<real>, n: nat): (k: nat)
    requires 0 < n <= |row|
    ensures k < n
  {
    if n == 1 then 0
    else
      var k := ArgmaxUpTo(row, n - 1);
      if row[n - 1] > row[k] then n - 1 else k
  }

  /** `np.argmax(row)`: the first maximising index. */
  function Argmax(row: seq<real>): nat
    requires |row| > 0
  {
    ArgmaxUpTo(row, |row|)
  }

  lemma {:induction false} ArgmaxUpToIsFirstMax(row: seq<real>, n: nat)
    requires 0 < n <= |row|
    ensures IsFirstMax(row[..n], ArgmaxUpTo(row, n))
  {
    if n > 1 {
      ArgmaxUpToIsFirstMax(row, n - 1);
      var k := ArgmaxUpTo(row, n - 1);
      assert forall j :: 0 <= j < n - 1 ==> row[..n - 1][j] == row[j] == row[..n][j];
    }
  }

  /** `Argmax` returns the first maximising index. */
  lemma ArgmaxIsFirstMax(row: seq<real>)
    requires |row| > 0
    ensures IsFirstMax(row, Argmax(row))
  {
    ArgmaxUpToIsFirstMax(row, |row|);
    assert row[..|row|] == row;
  }

  /** The first maximising index is unique, so `Argmax` is fully determined
      by its contract. */
  lemma FirstMaxUnique(row: seq<real>, k1: int, k2: int)
    requires IsFirstMax(row, k1) && IsFirstMax(row, k2)
    ensures k1 == k2
  {
    assert row[k1] == row[k2];
  }

  /** `np.max(row)`. */
  function RowMax(row: seq<real>): (m: real)
    requires |row| > 0
    ensures exists j :: 0 <= j < |row| && row[j] == m
    ensures forall j :: 0 <= j < |row| ==> row[j] <= m
  {
    ArgmaxIsFirstMax(row);
    row[Argmax(row)]
  }

  /** `v` lies in the closed interval spanned by `a` and `b`. */
  predicate Between(v: real, a: real, b: real)
  {
    (a <= v <= b) || (b <= v <= a)
  }

  lemma NonNegProduct(a: real, b: real)
    requires a >= 0.0 && b >= 0.0
    ensures a * b >= 0.0
  {
  }

  /** A step of size `lam` in [0, 1] from `x` toward `y` stays between them,
      lands on `x` exactly when it does not move, and on `y` when `lam` is 1. */
  lemma ConvexStep(x: real, y: real, lam: real)
    requires 0.0 <= lam <= 1.0
    ensures Between(x + lam * (y - x), x, y)
    ensures lam == 1.0 ==> x + lam * (y - x) == y
    ensures lam > 0.0 ==> (x + lam * (y - x) == x <==> x == y)
  {
    var d := y - x;
    NonNegProduct(lam, if d >= 0.0 then d else -d);
    NonNegProduct(1.0 - lam, if d >= 0.0 then d else -d);
    assert lam * d + (1.0 - lam) * d == d;
    if lam > 0.0 && x + lam * (y - x) == x {
      assert lam * (y - x) == 0.0;
    }
  }
}
