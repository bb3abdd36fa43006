/** Cells and rectangular blocks of cells, shared by the three simulators.
    Every simulator keys its state by `(row, column)` pairs. */
module Grid {

  /** A cell, as (row, column). */
  type Coord = (int, int)

  /** The cell `off` away from `c`. */
  function Shift(c: Coord, off: (int, int)): Coord
  {
    (c.0 + off.0, c.1 + off.1)
  }

  /** The cells of the `rows` × `cols` block whose corner is (0, 0): the keys
      that the nested `for l in range(rows): for c in range(cols)` loops of
      the sources write. */
  function Rect(rows: int, cols: int): set<Coord>
  {
    set l: int, c: int | 0 <= l < rows && 0 <= c < cols :: (l, c)
  }

  /** The first `cols` cells of row `l`. */
  function RowPrefix(l: int, cols: int): set<Coord>
  {
    set c: int | 0 <= c < cols :: (l, c)
  }

  lemma {:induction false} RowPrefixCard(l: int, cols: nat)
    ensures |RowPrefix(l, cols)| == cols
  {
    if cols == 0 {
      assert RowPrefix(l, 0) == {};
    } else {
      RowPrefixCard(l, cols - 1);
      assert RowPrefix(l, cols) == RowPrefix(l, cols - 1) + {(l, cols - 1)};
    }
  }

  /** A rows × cols block holds exactly rows * cols cells. */
  lemma {:induction false} RectCard(rows: nat, cols: nat)
    ensures |Rect(rows, cols)| == rows * cols
  {
    if rows == 0 {
      assert Rect(0, cols) == {};
    } else {
      var above, row := Rect(rows - 1, cols), RowPrefix(rows - 1, cols);
      RectCard(rows - 1, cols);
      RowPrefixCard(rows - 1, cols);
      GrowRect(rows - 1, cols);
      assert above !! row by {
        forall p | p in row ensures p !in above {
        }
      }
      assert |above + row| == |above| + |row|;
      MulSucc(rows - 1, cols);
    }
  }

  lemma MulSucc(a: int, b: int)
    ensures a * b + b == (a + 1) * b
  {
  }

  /** One more cell of row `l`, as written by one turn of an inner `for c` loop. */
  lemma GrowRow(l: int, c: int, cols: int)
    requires 0 <= l && 0 <= c
    ensures Rect(l, cols) + RowPrefix(l, c + 1) == Rect(l, cols) + RowPrefix(l, c) + {(l, c)}
  {
    assert RowPrefix(l, c + 1) == RowPrefix(l, c) + {(l, c)};
  }

  /** One more full row, as written by one turn of an outer `for l` loop. */
  lemma GrowRect(l: int, cols: int)
    requires 0 <= l
    ensures Rect(l + 1, cols) == Rect(l, cols) + RowPrefix(l, cols)
  {
  }
}
