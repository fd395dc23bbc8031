/** The collage grid chosen by `cronHandler` in cmd/main.go for the images fetched for a chat. */
module Layout {
  import opened Basics

  const MaxCols: nat := 5

  datatype Grid = Grid(rows: nat, cols: nat)

  /**
   * `cols := min(5, n)`, `rows := n / cols`, plus one when `n % cols != 0`. For `n == 0` the
   * division panics (integer divide by zero); that outcome is `None`.
   */
  function GridFor(n: nat): (g: Option<Grid>)
    ensures g.None? <==> n == 0
    ensures g.Some? ==> g.value.cols == Min(MaxCols, n) && 1 <= g.value.cols
    ensures g.Some? ==> g.value.rows * g.value.cols >= n > (g.value.rows - 1) * g.value.cols
  {
    if n == 0 then None
    else
      var cols := Min(MaxCols, n);
      var rows := if n % cols != 0 then n / cols + 1 else n / cols;
      CeilBounds(n, cols);
      Some(Grid(rows, cols))
  }

  /** The rounded-up quotient is the least row count whose rows hold `n` cells. */
  lemma CeilBounds(n: nat, cols: nat)
    requires cols > 0
    ensures var rows := if n % cols != 0 then n / cols + 1 else n / cols;
            rows * cols >= n > (rows - 1) * cols
  {
    var q, r := n / cols, n % cols;
    assert n == q * cols + r;
    assert (q + 1) * cols == q * cols + cols;
    assert (q - 1) * cols == q * cols - cols;
  }

  /** At most five images go to a row, and up to five images fit in a single row. */
  lemma GridShape(n: nat)
    requires n > 0
    ensures var g := GridFor(n).value;
            && g.cols <= MaxCols
            && g.rows * g.cols < n + g.cols
            && (n <= MaxCols ==> g.rows == 1 && g.cols == n)
  {
  }
}
