/**
 * The toroidal world as a value: a `height`-by-`width` matrix of cells,
 * C++ integer division and remainder, and the bounds-checked cell accessors
 * of the Game of Life engine (2-D and linear-index forms).
 */
module Grids {

  /** One generation: `g[y][x]` is the cell in column `x` of row `y`, true = alive. */
  type Grid = seq<seq<bool>>

  /** A displacement of `dx` columns and `dy` rows. */
  datatype Offset = Offset(dx: int, dy: int)

  /** The grid is `height` rows of `width` cells each; never ragged. */
  predicate IsGrid(g: Grid, width: int, height: int)
  {
    |g| == height && forall y :: 0 <= y < |g| ==> |g[y]| == width
  }

  /** The bounds test shared by every cell accessor. */
  predicate InBounds(width: int, height: int, x: int, y: int)
  {
    0 <= x < width && 0 <= y < height
  }

  /** An all-dead grid, as `resize(height, vector<bool>(width, false))` builds it. */
  function Dead(width: nat, height: nat): (g: Grid)
    ensures IsGrid(g, width, height)
    ensures forall y, x :: 0 <= y < height && 0 <= x < width ==> !g[y][x]
  {
    seq(height, _ => seq(width, _ => false))
  }

  /** C++ `a % b` for `b > 0`: truncating, so the remainder takes the sign of `a`. */
  function CMod(a: int, b: int): (r: int)
    requires b > 0
    ensures a >= 0 ==> 0 <= r < b
    ensures a < 0 ==> -b < r <= 0
  {
    if a >= 0 then a % b else -((-a) % b)
  }

  /** C++ `a / b` for `b > 0`: the quotient is rounded toward zero. */
  function CDiv(a: int, b: int): (q: int)
    requires b > 0
    ensures a >= 0 ==> 0 <= q
    ensures a < 0 ==> q <= 0
  {
    if a >= 0 then a / b else -((-a) / b)
  }

  /** Truncating division and remainder recombine to the dividend. */
  lemma DivModRecombine(a: int, b: int)
    requires b > 0
    ensures CDiv(a, b) * b + CMod(a, b) == a
  {
    if a < 0 {
      var q, r := (-a) / b, (-a) % b;
      assert q * b + r == -a;
      assert CDiv(a, b) * b + CMod(a, b) == -(q * b) - r;
    }
  }

  /** `getCell(x, y)`: an out-of-range read is a dead cell, never an error. */
  function Get(g: Grid, width: int, height: int, x: int, y: int): (alive: bool)
    requires IsGrid(g, width, height)
    ensures alive <==> InBounds(width, height, x, y) && g[y][x]
  {
    if x < 0 || x >= width || y < 0 || y >= height then false else g[y][x]
  }

  /** `setCell(x, y, state)`: an out-of-range write is silently dropped. */
  function SetAt(g: Grid, width: int, height: int, x: int, y: int, state: bool): (r: Grid)
    requires IsGrid(g, width, height)
    ensures IsGrid(r, width, height)
    ensures forall b, a :: 0 <= b < height && 0 <= a < width ==>
              r[b][a] == if a == x && b == y then state else g[b][a]
  {
    if x < 0 || x >= width || y < 0 || y >= height then g else g[y := g[y][x := state]]
  }

  /** A successful write is seen by the next read; every other cell keeps its state. */
  lemma SetThenGet(g: Grid, width: int, height: int, x: int, y: int, state: bool, a: int, b: int)
    requires IsGrid(g, width, height)
    ensures Get(SetAt(g, width, height, x, y, state), width, height, a, b)
         == if a == x && b == y && InBounds(width, height, x, y) then state else Get(g, width, height, a, b)
  {
  }

  /** An out-of-range write leaves the whole grid as it was. */
  lemma SetOutOfRange(g: Grid, width: int, height: int, x: int, y: int, state: bool)
    requires IsGrid(g, width, height)
    requires !InBounds(width, height, x, y)
    ensures SetAt(g, width, height, x, y, state) == g
  {
  }

  /** `getCell(position)`: column `position % width`, row `position / width`, in C++ arithmetic. */
  function GetPos(g: Grid, width: int, height: int, position: int): (alive: bool)
    requires width > 0 && IsGrid(g, width, height)
    ensures alive <==> 0 <= position < width * height && Get(g, width, height, position % width, position / width)
  {
    LinearInBounds(width, height, position);
    Get(g, width, height, CMod(position, width), CDiv(position, width))
  }

  /** `setCell(position, state)`: the same decomposition, then the 2-D write. */
  function SetPos(g: Grid, width: int, height: int, position: int, state: bool): (r: Grid)
    requires width > 0 && IsGrid(g, width, height)
    ensures IsGrid(r, width, height)
    ensures 0 <= position < width * height ==>
              r == SetAt(g, width, height, position % width, position / width, state)
    ensures !(0 <= position < width * height) ==> r == g
  {
    var x, y := CMod(position, width), CDiv(position, width);
    LinearInBounds(width, height, position);
    if InBounds(width, height, x, y) then SetAt(g, width, height, x, y, state)
    else SetOutOfRange(g, width, height, x, y, state); SetAt(g, width, height, x, y, state)
  }

  /**
   * The linear index addresses a cell exactly when it lies in [0, width*height):
   * a negative index never wraps into the grid (the truncating remainder is
   * negative or the quotient is), and an index past the end has a row >= height.
   */
  lemma LinearInBounds(width: int, height: int, position: int)
    requires width > 0 && height >= 0
    ensures InBounds(width, height, CMod(position, width), CDiv(position, width))
        <==> 0 <= position < width * height
  {
    var x, y := CMod(position, width), CDiv(position, width);
    DivModRecombine(position, width);
    if position >= 0 {
      if y >= height {
        MulMonotone(height, y, width);
      } else {
        MulMonotone(y, height - 1, width);
      }
    } else if x == 0 {
      MulAwayFromZero(y, width);
    }
  }

  /** Multiplying by a positive number keeps the order. */
  lemma MulMonotone(a: int, b: int, c: int)
    requires a <= b && c > 0
    ensures a * c <= b * c
  {
    assert b * c - a * c == (b - a) * c;
  }

  /** Row-major addressing: index `y*width + x` decomposes back into `(x, y)`. */
  lemma RowMajor(width: int, height: int, x: int, y: int)
    requires width > 0 && InBounds(width, height, x, y)
    ensures CMod(y * width + x, width) == x && CDiv(y * width + x, width) == y
  {
    var p := y * width + x;
    DivModRecombine(p, width);
    UniqueQuotient(width, CDiv(p, width), CMod(p, width), y, x);
  }

  /** Quotient and remainder are unique once the remainder lies in [0, b). */
  lemma UniqueQuotient(b: int, q1: int, r1: int, q2: int, r2: int)
    requires b > 0 && 0 <= r1 < b && 0 <= r2 < b
    requires q1 * b + r1 == q2 * b + r2
    ensures q1 == q2 && r1 == r2
  {
    var d := q1 - q2;
    assert d * b == r2 - r1;
    MulAwayFromZero(d, b);
  }

  /** A nonzero multiple of `b` is at least `b` away from zero. */
  lemma MulAwayFromZero(d: int, b: int)
    requires b > 0
    ensures d >= 1 ==> d * b >= b
    ensures d <= -1 ==> d * b <= -b
  {
  }

  /** The linear accessors agree with the 2-D ones on every valid cell. */
  lemma LinearMatches2D(g: Grid, width: int, height: int, x: int, y: int, state: bool)
    requires width > 0 && IsGrid(g, width, height) && InBounds(width, height, x, y)
    ensures GetPos(g, width, height, y * width + x) == Get(g, width, height, x, y)
    ensures SetPos(g, width, height, y * width + x, state) == SetAt(g, width, height, x, y, state)
  {
    RowMajor(width, height, x, y);
  }

  /** A linear index outside [0, width*height) reads dead and writes nothing. */
  lemma LinearOutside(g: Grid, width: int, height: int, position: int, state: bool)
    requires width > 0 && height > 0 && IsGrid(g, width, height)
    requires position < 0 || position >= width * height
    ensures !GetPos(g, width, height, position)
    ensures SetPos(g, width, height, position, state) == g
  {
    LinearInBounds(width, height, position);
  }
}
