/**
 * The `GameOfLife` engine object: a `width` by `height` grid `current`, the
 * scratch grid `next` that `evolve` writes before copying it back, and the
 * window of the last three generations used by the stability test.
 */
module Engine {
  import opened Wrappers
  import opened Grids
  import opened Rules
  import opened Stamps
  import opened Tokens

  class GameOfLife {
    var width: int
    var height: int
    var current: Grid
    var next: Grid
    var history: seq<Grid>

    /** Both grids and every remembered snapshot have the world's dimensions. */
    ghost predicate Valid()
      reads this
    {
      width > 0 && height > 0 &&
      IsGrid(current, width, height) && IsGrid(next, width, height) &&
      1 <= |history| <= 3 &&
      forall k :: 0 <= k < |history| ==> IsGrid(history[k], width, height)
    }

    /** The part of the object that evolution reads and writes. */
    ghost function Snapshot(): State
      reads this
    {
      State(current, history)
    }

    /** `GameOfLife(w, h)`: an all-dead world whose history is the initial grid. */
    constructor (w: int, h: int)
      requires w > 0 && h > 0
      ensures Valid() && width == w && height == h
      ensures current == Dead(w, h) && next == Dead(w, h) && history == [current]
    {
      width, height := w, h;
      current := Dead(w, h);
      next := Dead(w, h);
      history := [Dead(w, h)];
    }

    /**
     * `GameOfLife(filename)` on a file that opens: `load` reads the
     * dimensions, then every cell in row-major order, and resets the history.
     */
    constructor FromFile(tokens: seq<int>)
      requires Decode(tokens).Some?
      ensures Valid()
      ensures width == tokens[0] && height == tokens[1]
      ensures current == Decode(tokens).value.cells
      ensures next == Dead(width, height) && history == [current]
    {
      var w, h := tokens[0], tokens[1];
      ghost var rows := Decode(tokens).value.cells;
      assert Decode(tokens).value == Loaded(w, h, rows);
      var cells := Dead(w, h);
      var pos := 2;
      var y := 0;
      while y < h
        invariant 0 <= y <= h
        invariant pos == 2 + y * w
        invariant IsGrid(cells, w, h)
        invariant forall r :: 0 <= r < y ==> cells[r] == rows[r]
      {
        var row := cells[y];
        var x := 0;
        while x < w
          invariant 0 <= x <= w
          invariant pos == 2 + y * w + x
          invariant |row| == w
          invariant forall c :: 0 <= c < x ==> row[c] == rows[y][c]
        {
          LoadedCell(tokens, x, y);
          var state := tokens[pos];
          row := row[x := state == 1];
          pos := pos + 1;
          x := x + 1;
        }
        assert row == rows[y];
        cells := cells[y := row];
        assert pos == 2 + (y + 1) * w;
        y := y + 1;
      }
      width, height := w, h;
      current := cells;
      next := Dead(w, h);
      history := [cells];
    }

    /** `countNeighbors(x, y)`: counts the live cells among the eight wrapped neighbours. */
    method CountNeighbors(x: int, y: int) returns (count: int)
      requires Valid() && InBounds(width, height, x, y)
      ensures count == Neighbours(current, width, height, x, y)
      ensures 0 <= count <= 8
    {
      var w, h, g := width, height, current;
      count := 0;
      var i := -1;
      while i <= 1
        invariant -1 <= i <= 2
        invariant 0 <= AroundIndex(i, -1) <= |Around| && count == LiveBefore(g, w, h, x, y, AroundIndex(i, -1))
      {
        var j := -1;
        while j <= 1
          invariant -1 <= j <= 2
          invariant 0 <= AroundIndex(i, j) <= |Around| && count == LiveBefore(g, w, h, x, y, AroundIndex(i, j))
        {
          CountStep(g, w, h, x, y, i, j);
          if i == 0 && j == 0 {
            j := j + 1;
            continue;
          }
          var nx := CMod(x + i + w, w);
          var ny := CMod(y + j + h, h);
          count := count + if g[ny][nx] then 1 else 0;
          j := j + 1;
        }
        AroundNextColumn(i);
        i := i + 1;
      }
    }

    /**
     * `evolve()`: computes every cell of `next` from `current` alone, copies
     * `next` into `current`, and remembers the new generation.
     */
    method Evolve()
      requires Valid()
      modifies this`current, this`next, this`history
      ensures Valid()
      ensures current == NextGen(old(current), width, height) && next == current
      ensures Snapshot() == Step(old(Snapshot()), width, height)
    {
      var y := 0;
      while y < height
        invariant 0 <= y <= height
        invariant Valid()
        invariant forall r, c :: 0 <= r < y && 0 <= c < width ==> next[r][c] == Rule(current[r][c], Neighbours(current, width, height, c, r))
        modifies this`next
      {
        var row := next[y];
        var x := 0;
        while x < width
          invariant 0 <= x <= width && |row| == width
          invariant forall c :: 0 <= c < x ==> row[c] == Rule(current[y][c], Neighbours(current, width, height, c, y))
          modifies {}
        {
          var neighbors := CountNeighbors(x, y);
          var isAlive := current[y][x];
          var state: bool;
          if isAlive && (neighbors < 2 || neighbors > 3) {
            state := false;
          } else if !isAlive && neighbors == 3 {
            state := true;
          } else {
            state := isAlive;
          }
          row := row[x := state];
          x := x + 1;
        }
        next := next[y := row];
        y := y + 1;
      }
      NextGenByCells(current, next, width, height);
      current := next;
      history := history + [current];
      if |history| > 3 {
        history := history[1..];
      }
    }

    /** `isStable()`: the window is full and its newest snapshot repeats one of the two before it. */
    predicate IsStable(): (stable: bool)
      reads this
      requires Valid()
      ensures stable <==> |history| == 3 && history[2] in history[..2]
    {
      Stable(history)
    }

    /**
     * `save`: the tokens written, width and height first and then every cell
     * row by row.
     */
    method Save() returns (tokens: seq<int>)
      requires Valid()
      ensures tokens == Encode(width, height, current)
      ensures Decode(tokens) == Some(Loaded(width, height, current))
    {
      tokens := [width, height];
      var y := 0;
      while y < height
        invariant 0 <= y <= height
        invariant tokens == [width, height] + CellTokens(current[..y])
      {
        ghost var before := tokens;
        var row := current[y];
        var x := 0;
        while x < width
          invariant 0 <= x <= width
          invariant tokens == before + RowTokens(row[..x])
        {
          RowTokensSnoc(row, x);
          tokens := tokens + [if row[x] then 1 else 0];
          x := x + 1;
        }
        CellTokensSnoc(current, y);
        assert row[..width] == row;
        y := y + 1;
      }
      assert current[..height] == current;
      SaveLoadRoundTrip(width, height, current);
    }

    /** `getCell(x, y)`: alive exactly when `(x, y)` is in range and that cell is alive; out of range reads dead. */
    function GetCell(x: int, y: int): (alive: bool)
      reads this
      requires Valid()
      ensures alive <==> InBounds(width, height, x, y) && current[y][x]
    {
      Get(current, width, height, x, y)
    }

    /**
     * `getCell(position)`: the row-major cell `position` when it lies in
     * [0, width*height); any other position reads dead, never an aliased cell.
     */
    function GetCellAt(position: int): (alive: bool)
      reads this
      requires Valid()
      ensures alive <==> 0 <= position < width * height && current[position / width][position % width]
    {
      LinearInBounds(width, height, position);
      GetPos(current, width, height, position)
    }

    /** `setCell(x, y, state)`: writes one in-range cell, drops an out-of-range write. */
    method SetCell(x: int, y: int, state: bool)
      requires Valid()
      modifies this`current
      ensures Valid()
      ensures current == SetAt(old(current), width, height, x, y, state)
    {
      if x < 0 || x >= width || y < 0 || y >= height {
        return;
      }
      current := current[y := current[y][x := state]];
    }

    /** `setCell(position, state)`: C++ `%` and `/` split the position, then the 2-D write. */
    method SetCellAt(position: int, state: bool)
      requires Valid()
      modifies this`current
      ensures Valid()
      ensures current == SetPos(old(current), width, height, position, state)
    {
      var x := CMod(position, width);
      var y := CDiv(position, width);
      SetCell(x, y, state);
    }

    /** `addGlider(x, y)`. */
    method AddGlider(x: int, y: int)
      requires Valid()
      modifies this`current
      ensures Valid()
      ensures current == Stamp(old(current), width, height, x, y, Cells(Glider))
    {
      ghost var cells := Cells(Glider);
      ghost var goal := Stamp(current, width, height, x, y, cells);
      SetCell(CMod(x + 1, width), CMod(y, height), true);
      assert goal == Stamp(current, width, height, x, y, cells[1..]);
      SetCell(CMod(x + 2, width), CMod(y + 1, height), true);
      assert goal == Stamp(current, width, height, x, y, cells[2..]);
      SetCell(CMod(x, width), CMod(y + 2, height), true);
      assert goal == Stamp(current, width, height, x, y, cells[3..]);
      SetCell(CMod(x + 1, width), CMod(y + 2, height), true);
      assert goal == Stamp(current, width, height, x, y, cells[4..]);
      SetCell(CMod(x + 2, width), CMod(y + 2, height), true);
      assert goal == Stamp(current, width, height, x, y, cells[5..]);
    }

    /** `addToad(x, y)`. */
    method AddToad(x: int, y: int)
      requires Valid()
      modifies this`current
      ensures Valid()
      ensures current == Stamp(old(current), width, height, x, y, Cells(Toad))
    {
      ghost var cells := Cells(Toad);
      ghost var goal := Stamp(current, width, height, x, y, cells);
      SetCell(CMod(x + 1, width), CMod(y + 1, height), true);
      assert goal == Stamp(current, width, height, x, y, cells[1..]);
      SetCell(CMod(x + 2, width), CMod(y + 1, height), true);
      assert goal == Stamp(current, width, height, x, y, cells[2..]);
      SetCell(CMod(x + 3, width), CMod(y + 1, height), true);
      assert goal == Stamp(current, width, height, x, y, cells[3..]);
      SetCell(CMod(x, width), CMod(y + 2, height), true);
      assert goal == Stamp(current, width, height, x, y, cells[4..]);
      SetCell(CMod(x + 1, width), CMod(y + 2, height), true);
      assert goal == Stamp(current, width, height, x, y, cells[5..]);
      SetCell(CMod(x + 2, width), CMod(y + 2, height), true);
      assert goal == Stamp(current, width, height, x, y, cells[6..]);
    }

    /** `addBeacon(x, y)`. */
    method AddBeacon(x: int, y: int)
      requires Valid()
      modifies this`current
      ensures Valid()
      ensures current == Stamp(old(current), width, height, x, y, Cells(Beacon))
    {
      ghost var cells := Cells(Beacon);
      ghost var goal := Stamp(current, width, height, x, y, cells);
      SetCell(CMod(x, width), CMod(y, height), true);
      assert goal == Stamp(current, width, height, x, y, cells[1..]);
      SetCell(CMod(x + 1, width), CMod(y, height), true);
      assert goal == Stamp(current, width, height, x, y, cells[2..]);
      SetCell(CMod(x, width), CMod(y + 1, height), true);
      assert goal == Stamp(current, width, height, x, y, cells[3..]);
      SetCell(CMod(x + 1, width), CMod(y + 1, height), true);
      assert goal == Stamp(current, width, height, x, y, cells[4..]);
      SetCell(CMod(x + 2, width), CMod(y + 2, height), true);
      assert goal == Stamp(current, width, height, x, y, cells[5..]);
      SetCell(CMod(x + 3, width), CMod(y + 2, height), true);
      assert goal == Stamp(current, width, height, x, y, cells[6..]);
      SetCell(CMod(x + 2, width), CMod(y + 3, height), true);
      assert goal == Stamp(current, width, height, x, y, cells[7..]);
      SetCell(CMod(x + 3, width), CMod(y + 3, height), true);
      assert goal == Stamp(current, width, height, x, y, cells[8..]);
    }

    /** `addMethuselah(x, y)`: the R-pentomino. */
    method AddMethuselah(x: int, y: int)
      requires Valid()
      modifies this`current
      ensures Valid()
      ensures current == Stamp(old(current), width, height, x, y, Cells(Methuselah))
    {
      ghost var cells := Cells(Methuselah);
      ghost var goal := Stamp(current, width, height, x, y, cells);
      SetCell(CMod(x + 1, width), CMod(y, height), true);
      assert goal == Stamp(current, width, height, x, y, cells[1..]);
      SetCell(CMod(x + 2, width), CMod(y, height), true);
      assert goal == Stamp(current, width, height, x, y, cells[2..]);
      SetCell(CMod(x, width), CMod(y + 1, height), true);
      assert goal == Stamp(current, width, height, x, y, cells[3..]);
      SetCell(CMod(x + 1, width), CMod(y + 1, height), true);
      assert goal == Stamp(current, width, height, x, y, cells[4..]);
      SetCell(CMod(x + 1, width), CMod(y + 2, height), true);
      assert goal == Stamp(current, width, height, x, y, cells[5..]);
    }

    /**
     * `addRandomPatterns(count)`, with the random draws given as `picks`:
     * anchors in range and one of the four patterns each, stamped in order.
     */
    method AddRandomPatterns(count: int, picks: seq<Pick>)
      requires Valid()
      requires count == |picks| && AnchorsInRange(picks, width, height)
      modifies this`current
      ensures Valid()
      ensures current == StampAll(old(current), width, height, picks)
    {
      var i := 0;
      while i < count
        invariant 0 <= i <= count
        invariant Valid()
        invariant StampAll(old(current), width, height, picks) == StampAll(current, width, height, picks[i..])
      {
        var p := picks[i];
        StampAllFrom(current, width, height, picks, i);
        match p.pattern {
          case Glider => AddGlider(p.x, p.y);
          case Toad => AddToad(p.x, p.y);
          case Beacon => AddBeacon(p.x, p.y);
          case Methuselah => AddMethuselah(p.x, p.y);
        }
        i := i + 1;
      }
    }

    /** `getWidth()`: the length of every row. */
    function GetWidth(): (w: int)
      reads this
      requires Valid()
      ensures w > 0 && forall r :: 0 <= r < |current| ==> |current[r]| == w
    {
      width
    }

    /** `getHeight()`: the number of rows. */
    function GetHeight(): (h: int)
      reads this
      requires Valid()
      ensures h > 0 && |current| == h
    {
      height
    }
  }
}
