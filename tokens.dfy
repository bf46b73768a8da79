/**
 * The saved-world format as a stream of integer tokens: width, height, then
 * every cell row by row as 0 or 1. `save` writes it; `load` reads it back in
 * the same loop order, taking any token other than 1 as a dead cell.
 */
module Tokens {
  import opened Wrappers
  import opened Grids

  /** One row as `save` writes it: 1 for alive, 0 for dead. */
  function RowTokens(row: seq<bool>): (r: seq<int>)
    ensures |r| == |row|
  {
    if row == [] then [] else [if row[0] then 1 else 0] + RowTokens(row[1..])
  }

  /** All rows, top to bottom. */
  function CellTokens(g: Grid): seq<int>
  {
    if g == [] then [] else RowTokens(g[0]) + CellTokens(g[1..])
  }

  /** The token stream `save` produces. */
  function Encode(width: int, height: int, g: Grid): (ts: seq<int>)
    ensures |ts| >= 2 && ts[0] == width && ts[1] == height
    ensures width >= 0 && height >= 0 && IsGrid(g, width, height) ==> |ts| == 2 + width * height
  {
    var ts := [width, height] + CellTokens(g);
    if width >= 0 && height >= 0 && IsGrid(g, width, height) then CellTokensLength(g, width, height); ts
    else ts
  }

  /** One row as `load` reads it: a cell is alive only for the token 1. */
  function ReadRow(ts: seq<int>): (row: seq<bool>)
    ensures |row| == |ts|
  {
    if ts == [] then [] else [ts[0] == 1] + ReadRow(ts[1..])
  }

  /** `height` rows of `width` tokens each. */
  function ReadRows(ts: seq<int>, width: nat, height: nat): (g: Grid)
    requires |ts| >= width * height
    ensures IsGrid(g, width, height)
    decreases height
  {
    if height == 0 then []
    else
      assert width * height == width + width * (height - 1);
      [ReadRow(ts[..width])] + ReadRows(ts[width..], width, height - 1)
  }

  /** What `load` reconstructs. */
  datatype Loaded = Loaded(width: int, height: int, cells: Grid)

  /**
   * `load` on a token stream: None when the stream does not hold positive
   * dimensions followed by enough cell tokens.
   */
  function Decode(ts: seq<int>): (r: Option<Loaded>)
    ensures r.Some? ==> r.value.width > 0 && r.value.height > 0 &&
                        IsGrid(r.value.cells, r.value.width, r.value.height)
  {
    if |ts| < 2 || ts[0] <= 0 || ts[1] <= 0 || |ts| - 2 < ts[0] * ts[1] then None
    else Some(Loaded(ts[0], ts[1], ReadRows(ts[2..], ts[0], ts[1])))
  }

  lemma {:induction false} RowTokensAppend(a: seq<bool>, b: seq<bool>)
    ensures RowTokens(a + b) == RowTokens(a) + RowTokens(b)
    decreases |a|
  {
    if a == [] {
      assert a + b == b;
    } else {
      assert (a + b)[1..] == a[1..] + b;
      RowTokensAppend(a[1..], b);
    }
  }

  lemma {:induction false} CellTokensAppend(a: Grid, b: Grid)
    ensures CellTokens(a + b) == CellTokens(a) + CellTokens(b)
    decreases |a|
  {
    if a == [] {
      assert a + b == b;
    } else {
      assert (a + b)[1..] == a[1..] + b;
      CellTokensAppend(a[1..], b);
    }
  }

  /** Writing one more cell of a row appends its token. */
  lemma RowTokensSnoc(row: seq<bool>, x: int)
    requires 0 <= x < |row|
    ensures RowTokens(row[..x + 1]) == RowTokens(row[..x]) + [if row[x] then 1 else 0]
  {
    RowTokensAppend(row[..x], [row[x]]);
    assert row[..x + 1] == row[..x] + [row[x]];
  }

  /** Writing one more row appends its tokens. */
  lemma CellTokensSnoc(g: Grid, y: int)
    requires 0 <= y < |g|
    ensures CellTokens(g[..y + 1]) == CellTokens(g[..y]) + RowTokens(g[y])
  {
    CellTokensAppend(g[..y], [g[y]]);
    assert g[..y + 1] == g[..y] + [g[y]];
  }

  /** A `width` by `height` grid is saved as exactly `width * height` cell tokens. */
  lemma {:induction false} CellTokensLength(g: Grid, width: nat, height: nat)
    requires IsGrid(g, width, height)
    ensures |CellTokens(g)| == width * height
    decreases height
  {
    if height > 0 {
      CellTokensLength(g[1..], width, height - 1);
      assert width * height == width + width * (height - 1);
    }
  }

  /** Reading a saved row gives the row back. */
  lemma {:induction false} ReadRowTokens(row: seq<bool>)
    ensures ReadRow(RowTokens(row)) == row
    decreases |row|
  {
    if row != [] {
      ReadRowTokens(row[1..]);
    }
  }

  lemma {:induction false} ReadRowsTokens(g: Grid, width: nat, height: nat)
    requires IsGrid(g, width, height)
    ensures |CellTokens(g)| == width * height
    ensures ReadRows(CellTokens(g), width, height) == g
    decreases height
  {
    CellTokensLength(g, width, height);
    if height > 0 {
      var ts := CellTokens(g);
      assert ts == RowTokens(g[0]) + CellTokens(g[1..]);
      assert ts[..width] == RowTokens(g[0]);
      assert ts[width..] == CellTokens(g[1..]);
      ReadRowTokens(g[0]);
      ReadRowsTokens(g[1..], width, height - 1);
    }
  }

  /** Save then load reproduces the width, the height and every cell. */
  lemma SaveLoadRoundTrip(width: int, height: int, g: Grid)
    requires width > 0 && height > 0 && IsGrid(g, width, height)
    ensures Decode(Encode(width, height, g)) == Some(Loaded(width, height, g))
  {
    ReadRowsTokens(g, width, height);
    assert Encode(width, height, g)[2..] == CellTokens(g);
  }

  /** Within a row, cell `x` is read from token `x`. */
  lemma {:induction false} ReadRowCell(ts: seq<int>, x: int)
    requires 0 <= x < |ts|
    ensures ReadRow(ts)[x] == (ts[x] == 1)
    decreases |ts|
  {
    if x > 0 {
      ReadRowCell(ts[1..], x - 1);
    }
  }

  /** Cell `(x, y)` is read from token `i = y * width + x`: row-major order. */
  lemma {:induction false} ReadRowsCell(ts: seq<int>, width: nat, height: nat, x: int, y: int, i: int)
    requires |ts| >= width * height && InBounds(width, height, x, y) && i == y * width + x
    ensures 0 <= i < |ts|
    ensures ReadRows(ts, width, height)[y][x] == (ts[i] == 1)
    decreases height
  {
    RowMajorArithmetic(width, height, x, y);
    var first, rest := ts[..width], ts[width..];
    assert ReadRows(ts, width, height) == [ReadRow(first)] + ReadRows(rest, width, height - 1);
    if y == 0 {
      ReadRowCell(first, x);
    } else {
      ReadRowsCell(rest, width, height - 1, x, y - 1, i - width);
    }
  }

  /** The index arithmetic behind row-major order. */
  lemma RowMajorArithmetic(width: nat, height: nat, x: int, y: int)
    requires InBounds(width, height, x, y)
    ensures width * height == width + width * (height - 1) && width * (height - 1) >= 0
    ensures 0 <= y * width && y * width + x < width * height
    ensures y == 0 ==> y * width == 0
    ensures y > 0 ==> (y - 1) * width + x + width == y * width + x
  {
    assert y * width <= (height - 1) * width;
  }

  /** A loaded cell is alive exactly when its token is 1; every other token reads dead. */
  lemma LoadedCell(ts: seq<int>, x: int, y: int)
    requires Decode(ts).Some? && InBounds(Decode(ts).value.width, Decode(ts).value.height, x, y)
    ensures 2 + y * ts[0] + x < |ts|
    ensures Decode(ts).value.cells[y][x] == (ts[2 + y * ts[0] + x] == 1)
  {
    ReadRowsCell(ts[2..], ts[0], ts[1], x, y, y * ts[0] + x);
  }
}
