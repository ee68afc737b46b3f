/** Small definitions several modules share. */
module Common {

  function Min(a: int, b: int): (m: int)
    ensures m <= a && m <= b && (m == a || m == b)
  {
    if a <= b then a else b
  }

  function Repeat<T>(v: T, n: nat): (vs: seq<T>)
    ensures |vs| == n
  {
    seq(n, _ => v)
  }

  lemma ProductOfNats(a: nat, b: nat)
    ensures a * b >= 0
  {
  }

  lemma MulLessOrEqual(a: nat, b: int, c: int)
    requires b <= c
    ensures a * b <= a * c && b * a <= c * a
  {
  }

  lemma QuotientOfNats(a: nat, b: nat)
    requires b > 0
    ensures a / b >= 0
  {
  }

  /** Column c of row r is inside a grid counted row by row. */
  lemma InsideGrid(c: nat, r: nat, cols: nat, rows: nat)
    requires c < cols && r < rows
    ensures r * cols + c < rows * cols
  {
    assert rows * cols == (r + 1) * cols + (rows - r - 1) * cols;
    ProductOfNats(rows - r - 1, cols);
  }
}
