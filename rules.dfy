/**
 * The evolution rule of the engine: toroidal neighbour counting, the
 * birth/survival rule, one generation, the three-entry history window and
 * the stability test built on it.
 */
module Rules {
  import opened Grids

  /**
   * The eight neighbour offsets in the order `countNeighbors` visits them:
   * `i` (columns) in the outer loop, `j` (rows) in the inner one, the cell itself skipped.
   */
  const Around: seq<Offset> := [Offset(-1, -1), Offset(-1, 0), Offset(-1, 1), Offset(0, -1),
                                Offset(0, 1), Offset(1, -1), Offset(1, 0), Offset(1, 1)]

  /** How many entries of `Around` come before offset `(i, j)` in `countNeighbors`' loop order. */
  function AroundIndex(i: int, j: int): int
  {
    3 * (i + 1) + (j + 1) - (if i > 0 || (i == 0 && j > 0) then 1 else 0)
  }

  /** `Around` lists the offsets in exactly the loop's order. */
  lemma AroundInLoopOrder(i: int, j: int)
    requires -1 <= i <= 1 && -1 <= j <= 1 && !(i == 0 && j == 0)
    ensures 0 <= AroundIndex(i, j) < |Around| && Around[AroundIndex(i, j)] == Offset(i, j)
    ensures AroundIndex(i, j + 1) == AroundIndex(i, j) + 1
  {
  }

  /** Finishing column `i` of the loop leaves the count where column `i + 1` starts; after the last, all of `Around`. */
  lemma AroundNextColumn(i: int)
    requires -1 <= i <= 1
    ensures 0 <= AroundIndex(i, 2) == AroundIndex(i + 1, -1) <= |Around|
    ensures i == 1 ==> AroundIndex(i + 1, -1) == |Around|
  {
  }

  /** Toroidal wrap of a coordinate one step outside the grid: C++ `(v + n) % n`. */
  function Wrap(v: int, n: int): int
    requires n > 0
  {
    CMod(v + n, n)
  }

  /** A coordinate one step from `v`, moved back across the edge it fell off, if any. */
  function Near(v: int, d: int, n: int): int
  {
    if v + d < 0 then v + d + n else if v + d >= n then v + d - n else v + d
  }

  /** Near an in-range coordinate, wrapping moves only the coordinates that fell off an edge. */
  lemma WrapNear(v: int, d: int, n: int)
    requires 0 <= v < n && -1 <= d <= 1
    ensures Wrap(v + d, n) == Near(v, d, n)
  {
    var a := v + d + n;
    var e := Near(v, d, n);
    var q := if v + d < 0 then 0 else if v + d >= n then 2 else 1;
    assert a == q * n + e;
    UniqueQuotient(n, a / n, a % n, q, e);
  }

  /** Where offset `o` from `(x, y)` lands on the torus. */
  function Neighbour(width: int, height: int, x: int, y: int, o: Offset): (int, int)
    requires width > 0 && height > 0
  {
    (Wrap(x + o.dx, width), Wrap(y + o.dy, height))
  }

  /** The number of live cells at the wrapped positions of the first `k` offsets of `Around`. */
  function LiveBefore(g: Grid, width: int, height: int, x: int, y: int, k: int): (n: nat)
    requires width > 0 && height > 0 && IsGrid(g, width, height) && 0 <= k <= |Around|
    ensures n <= k
  {
    if k == 0 then 0
    else
      var p := Neighbour(width, height, x, y, Around[k - 1]);
      LiveBefore(g, width, height, x, y, k - 1) + (if Get(g, width, height, p.0, p.1) then 1 else 0)
  }

  /**
   * One pass of `countNeighbors`' inner loop: offset `(i, j)` adds the cell at
   * `((x + i + width) % width, (y + j + height) % height)`, and `(0, 0)` adds nothing.
   */
  lemma CountStep(g: Grid, width: int, height: int, x: int, y: int, i: int, j: int)
    requires width > 0 && height > 0 && IsGrid(g, width, height) && InBounds(width, height, x, y)
    requires -1 <= i <= 1 && -1 <= j <= 1
    ensures 0 <= AroundIndex(i, j) <= AroundIndex(i, j + 1) <= |Around|
    ensures var nx, ny := CMod(x + i + width, width), CMod(y + j + height, height);
            InBounds(width, height, nx, ny) &&
            LiveBefore(g, width, height, x, y, AroundIndex(i, j + 1))
              == LiveBefore(g, width, height, x, y, AroundIndex(i, j))
                 + (if i == 0 && j == 0 then 0 else if g[ny][nx] then 1 else 0)
  {
    WrapNear(x, i, width);
    WrapNear(y, j, height);
    if !(i == 0 && j == 0) {
      AroundInLoopOrder(i, j);
    }
  }

  /** `countNeighbors(x, y)`: the live cells among the eight wrapped neighbours. */
  function Neighbours(g: Grid, width: int, height: int, x: int, y: int): (n: nat)
    requires width > 0 && height > 0 && IsGrid(g, width, height)
    ensures n <= 8
  {
    LiveBefore(g, width, height, x, y, |Around|)
  }

  /** An offset within one step in each direction. */
  predicate Adjacent(o: Offset)
  {
    -1 <= o.dx <= 1 && -1 <= o.dy <= 1
  }

  /** `Around` is the ring of eight adjacent offsets, each once, without `(0, 0)`. */
  lemma AroundIsRing()
    ensures forall k :: 0 <= k < |Around| ==> Adjacent(Around[k]) && Around[k] != Offset(0, 0)
    ensures forall k, l :: 0 <= k < l < |Around| ==> Around[k] != Around[l]
  {
  }

  /** On a ring of at least three, two coordinates one step from `v` coincide only for equal steps. */
  lemma WrapInjective(v: int, d1: int, d2: int, n: int)
    requires n >= 3 && 0 <= v < n && -1 <= d1 <= 1 && -1 <= d2 <= 1
    ensures 0 <= Wrap(v + d1, n) < n
    ensures Wrap(v + d1, n) == Wrap(v + d2, n) <==> d1 == d2
  {
    WrapNear(v, d1, n);
    WrapNear(v, d2, n);
  }

  /**
   * On a grid at least 3 by 3, adjacent offsets from an in-range cell land in
   * range, and on the same cell only when they are the same offset.
   */
  lemma NeighbourInjective(width: int, height: int, x: int, y: int, o1: Offset, o2: Offset)
    requires width >= 3 && height >= 3 && InBounds(width, height, x, y)
    requires Adjacent(o1) && Adjacent(o2)
    ensures var p := Neighbour(width, height, x, y, o1); InBounds(width, height, p.0, p.1)
    ensures Neighbour(width, height, x, y, o1) == Neighbour(width, height, x, y, o2) <==> o1 == o2
  {
    WrapInjective(x, o1.dx, o2.dx, width);
    WrapInjective(y, o1.dy, o2.dy, height);
  }

  /** From an in-range cell an adjacent offset lands in range on any grid. */
  lemma NeighbourInRange(width: int, height: int, x: int, y: int, o: Offset)
    requires width > 0 && height > 0 && InBounds(width, height, x, y) && Adjacent(o)
    ensures var p := Neighbour(width, height, x, y, o); InBounds(width, height, p.0, p.1)
  {
    WrapNear(x, o.dx, width);
    WrapNear(y, o.dy, height);
  }

  /**
   * The grid is a torus: from an in-range cell every neighbour offset lands
   * in range, and on a grid at least 3 by 3 the eight neighbours are eight
   * distinct cells, none of them the cell itself.
   */
  lemma EightNeighbours(width: int, height: int, x: int, y: int)
    requires width > 0 && height > 0 && InBounds(width, height, x, y)
    ensures forall k :: 0 <= k < |Around| ==>
              var p := Neighbour(width, height, x, y, Around[k]); InBounds(width, height, p.0, p.1)
    ensures width >= 3 && height >= 3 ==>
              forall k :: 0 <= k < |Around| ==> Neighbour(width, height, x, y, Around[k]) != (x, y)
    ensures width >= 3 && height >= 3 ==>
              forall k, l :: 0 <= k < l < |Around| ==>
                Neighbour(width, height, x, y, Around[k]) != Neighbour(width, height, x, y, Around[l])
  {
    AroundIsRing();
    forall k | 0 <= k < |Around|
      ensures var p := Neighbour(width, height, x, y, Around[k]); InBounds(width, height, p.0, p.1)
    {
      NeighbourInRange(width, height, x, y, Around[k]);
    }
    if width >= 3 && height >= 3 {
      assert Neighbour(width, height, x, y, Offset(0, 0)) == (x, y) by {
        WrapNear(x, 0, width);
        WrapNear(y, 0, height);
      }
      forall k | 0 <= k < |Around|
        ensures Neighbour(width, height, x, y, Around[k]) != (x, y)
      {
        NeighbourInjective(width, height, x, y, Around[k], Offset(0, 0));
      }
      forall k, l | 0 <= k < l < |Around|
        ensures Neighbour(width, height, x, y, Around[k]) != Neighbour(width, height, x, y, Around[l])
      {
        NeighbourInjective(width, height, x, y, Around[k], Around[l]);
      }
    }
  }

  /** Adding a multiple of `n` before reducing modulo `n` changes nothing. */
  lemma ModAddMod(p: int, q: int, n: int)
    requires n > 0
    ensures (p % n + q) % n == (p + q) % n
  {
    var m := p % n + q;
    var k := p / n;
    assert p == k * n + p % n;
    assert (m / n + k) * n + m % n == p + q;
    UniqueQuotient(n, (p + q) / n, (p + q) % n, m / n + k, m % n);
  }

  /** Rotating an in-range coordinate back by `a`, then forward by `a`, returns it. */
  lemma RotateBack(v: int, a: int, n: int)
    requires 0 <= v < n
    ensures 0 <= (v - a) % n < n && ((v - a) % n + a) % n == v
  {
    var r, q := (v - a) % n, (v - a) / n;
    assert v - a == q * n + r;
    assert (-q) * n == -(q * n);
    UniqueQuotient(n, (r + a) / n, (r + a) % n, -q, v);
  }

  /**
   * The torus rotated by `(a, b)`: the cell at `(x, y)` moves to
   * `((x + a) mod width, (y + b) mod height)`.
   */
  function Shift(g: Grid, width: int, height: int, a: int, b: int): (r: Grid)
    requires width > 0 && height > 0 && IsGrid(g, width, height)
    ensures IsGrid(r, width, height)
    ensures forall y, x :: 0 <= y < height && 0 <= x < width ==>
              r[y][x] == g[(y - b) % height][(x - a) % width]
  {
    seq(height, y requires 0 <= y < height =>
      seq(width, x requires 0 <= x < width => g[(y - b) % height][(x - a) % width]))
  }

  /**
   * One step from a rotated coordinate, wrapped as `countNeighbors` wraps it
   * and rotated back, is the same step from the original coordinate.
   */
  lemma WrapShifted(v: int, a: int, d: int, n: int)
    requires 0 <= v < n && -1 <= d <= 1
    ensures var u := (v + a) % n;
            0 <= Wrap(u + d, n) < n && (Wrap(u + d, n) - a) % n == Wrap(v + d, n)
  {
    var u := (v + a) % n;
    var s := d + n - a;
    assert (Wrap(u + d, n) - a) % n == (u + s) % n by {
      assert Wrap(u + d, n) == (u + d + n) % n;
      ModAddMod(u + d + n, -a, n);
      assert u + d + n + -a == u + s;
    }
    assert (u + s) % n == Wrap(v + d, n) by {
      ModAddMod(v + a, s, n);
      assert v + a + s == v + d + n;
    }
  }

  /** Rotating the grid and the cell alike, one neighbour offset reads the same state. */
  lemma ShiftOffset(g: Grid, width: int, height: int, a: int, b: int, x: int, y: int, o: Offset)
    requires width > 0 && height > 0 && IsGrid(g, width, height) && InBounds(width, height, x, y)
    requires Adjacent(o)
    ensures var p := Neighbour(width, height, x, y, o);
            var q := Neighbour(width, height, (x + a) % width, (y + b) % height, o);
            Get(Shift(g, width, height, a, b), width, height, q.0, q.1) == Get(g, width, height, p.0, p.1)
  {
    WrapShifted(x, a, o.dx, width);
    WrapShifted(y, b, o.dy, height);
    NeighbourInRange(width, height, x, y, o);
  }

  /** Rotating the grid and the cell alike leaves the first `k` neighbour contributions as they were. */
  lemma {:induction false} ShiftLiveBefore(g: Grid, width: int, height: int, a: int, b: int, x: int, y: int, k: int)
    requires width > 0 && height > 0 && IsGrid(g, width, height) && InBounds(width, height, x, y)
    requires 0 <= k <= |Around|
    ensures LiveBefore(Shift(g, width, height, a, b), width, height, (x + a) % width, (y + b) % height, k)
            == LiveBefore(g, width, height, x, y, k)
    decreases k
  {
    if k > 0 {
      ShiftLiveBefore(g, width, height, a, b, x, y, k - 1);
      AroundIsRing();
      ShiftOffset(g, width, height, a, b, x, y, Around[k - 1]);
    }
  }

  /**
   * The neighbour count is symmetric under rotations of the torus: rotating
   * the grid and the cell by the same offset leaves the count unchanged.
   */
  lemma ShiftNeighbours(g: Grid, width: int, height: int, a: int, b: int, x: int, y: int)
    requires width > 0 && height > 0 && IsGrid(g, width, height) && InBounds(width, height, x, y)
    ensures Neighbours(Shift(g, width, height, a, b), width, height, (x + a) % width, (y + b) % height)
            == Neighbours(g, width, height, x, y)
  {
    ShiftLiveBefore(g, width, height, a, b, x, y, |Around|);
  }

  /** The rule as `evolve` writes it: under- and overpopulation kill, three neighbours give birth. */
  function Rule(alive: bool, neighbours: int): (next: bool)
    ensures next <==> neighbours == 3 || (alive && neighbours == 2)
  {
    if alive && (neighbours < 2 || neighbours > 3) then false
    else if !alive && neighbours == 3 then true
    else alive
  }

  /** `evolve`'s pass: every new cell is computed from the old grid only. */
  function NextGen(g: Grid, width: int, height: int): (r: Grid)
    requires width > 0 && height > 0 && IsGrid(g, width, height)
    ensures IsGrid(r, width, height)
  {
    seq(height, y requires 0 <= y < height =>
      seq(width, x requires 0 <= x < width => Rule(g[y][x], Neighbours(g, width, height, x, y))))
  }

  /** One cell of a rotated world evolves as the cell it came from. */
  lemma ShiftNextGenCell(g: Grid, width: int, height: int, a: int, b: int, x': int, y': int)
    requires width > 0 && height > 0 && IsGrid(g, width, height) && InBounds(width, height, x', y')
    ensures NextGen(Shift(g, width, height, a, b), width, height)[y'][x']
            == Shift(NextGen(g, width, height), width, height, a, b)[y'][x']
  {
    var sg := Shift(g, width, height, a, b);
    var x, y := (x' - a) % width, (y' - b) % height;
    RotateBack(x', a, width);
    RotateBack(y', b, height);
    assert Neighbours(sg, width, height, x', y') == Neighbours(g, width, height, x, y) by {
      ShiftNeighbours(g, width, height, a, b, x, y);
    }
    assert sg[y'][x'] == g[y][x];
  }

  /** Evolution commutes with rotations of the torus: a rotated world evolves into the rotated next generation. */
  lemma ShiftNextGen(g: Grid, width: int, height: int, a: int, b: int)
    requires width > 0 && height > 0 && IsGrid(g, width, height)
    ensures NextGen(Shift(g, width, height, a, b), width, height)
            == Shift(NextGen(g, width, height), width, height, a, b)
  {
    var l := NextGen(Shift(g, width, height, a, b), width, height);
    var r := Shift(NextGen(g, width, height), width, height, a, b);
    forall y' | 0 <= y' < height
      ensures l[y'] == r[y']
    {
      forall x' | 0 <= x' < width
        ensures l[y'][x'] == r[y'][x']
      {
        ShiftNextGenCell(g, width, height, a, b, x', y');
      }
    }
  }

  /** A grid that follows the rule in every cell is the next generation. */
  lemma NextGenByCells(g: Grid, r: Grid, width: int, height: int)
    requires width > 0 && height > 0 && IsGrid(g, width, height) && IsGrid(r, width, height)
    requires forall y, x :: 0 <= y < height && 0 <= x < width ==>
               r[y][x] == Rule(g[y][x], Neighbours(g, width, height, x, y))
    ensures r == NextGen(g, width, height)
  {
    var n := NextGen(g, width, height);
    forall y | 0 <= y < height ensures r[y] == n[y] {
      assert forall x :: 0 <= x < width ==> r[y][x] == n[y][x];
    }
  }

  /**
   * The rule in its usual B3/S23 form: a cell is alive in the next generation
   * exactly when it has three live neighbours, or two and is alive now.
   */
  lemma NextGenIsB3S23(g: Grid, width: int, height: int, x: int, y: int)
    requires width > 0 && height > 0 && IsGrid(g, width, height) && InBounds(width, height, x, y)
    ensures var n := Neighbours(g, width, height, x, y);
            NextGen(g, width, height)[y][x] <==> n == 3 || (g[y][x] && n == 2)
  {
  }

  /** No live cell has a live neighbour on an all-dead grid. */
  lemma {:induction false} DeadHasNoNeighbours(width: int, height: int, x: int, y: int, k: int)
    requires width > 0 && height > 0 && 0 <= k <= |Around|
    ensures LiveBefore(Dead(width, height), width, height, x, y, k) == 0
    decreases k
  {
    if k > 0 {
      DeadHasNoNeighbours(width, height, x, y, k - 1);
      var p := Neighbour(width, height, x, y, Around[k - 1]);
      assert !Get(Dead(width, height), width, height, p.0, p.1);
    }
  }

  /** The all-dead grid is a still life: nothing is ever born from nothing. */
  lemma DeadStaysDead(width: int, height: int)
    requires width > 0 && height > 0
    ensures NextGen(Dead(width, height), width, height) == Dead(width, height)
  {
    var d := Dead(width, height);
    forall y, x | 0 <= y < height && 0 <= x < width
      ensures d[y][x] == Rule(d[y][x], Neighbours(d, width, height, x, y))
    {
      DeadHasNoNeighbours(width, height, x, y, |Around|);
    }
    NextGenByCells(d, d, width, height);
  }

  /** `n` generations from `g`. */
  function Iterate(g: Grid, width: int, height: int, n: nat): (r: Grid)
    requires width > 0 && height > 0 && IsGrid(g, width, height)
    ensures IsGrid(r, width, height)
    decreases n
  {
    if n == 0 then g else Iterate(NextGen(g, width, height), width, height, n - 1)
  }

  /**
   * `history.push_back(g)` followed by dropping the oldest entry when there are
   * more than three: the result is the last `min(3, |history| + 1)` snapshots.
   */
  function Remember(history: seq<Grid>, g: Grid): (r: seq<Grid>)
    requires |history| <= 3
    ensures |r| == if |history| < 3 then |history| + 1 else 3
    ensures r == (history + [g])[|history| + 1 - |r|..]
  {
    var h := history + [g];
    if |h| > 3 then h[1..] else h
  }

  /**
   * `isStable()`: with three snapshots, the newest equals the one before it
   * (a still life) or the oldest (a period-2 oscillator).
   */
  predicate Stable(history: seq<Grid>): (stable: bool)
    ensures stable <==> |history| >= 3 && (history[2] == history[0] || history[2] == history[1])
  {
    if |history| < 3 then false
    else history[1] == history[2] || history[0] == history[2]
  }

  /** Every snapshot is the next generation of the one before it. */
  ghost predicate Chained(history: seq<Grid>, width: int, height: int)
    requires width > 0 && height > 0
  {
    (forall k :: 0 <= k < |history| ==> IsGrid(history[k], width, height)) &&
    forall k :: 0 < k < |history| ==> history[k] == NextGen(history[k - 1], width, height)
  }

  /** The engine's state as far as evolution is concerned: the grid and its history window. */
  datatype State = State(current: Grid, history: seq<Grid>)

  /** One `evolve`: the next generation becomes current and is remembered. */
  function Step(s: State, width: int, height: int): (r: State)
    requires width > 0 && height > 0 && IsGrid(s.current, width, height) && |s.history| <= 3
    ensures IsGrid(r.current, width, height) && 1 <= |r.history| <= 3
    ensures r.current == NextGen(s.current, width, height)
  {
    var g := NextGen(s.current, width, height);
    State(g, Remember(s.history, g))
  }

  /** `n` calls of `evolve`. */
  function Steps(s: State, width: int, height: int, n: nat): (r: State)
    requires width > 0 && height > 0 && IsGrid(s.current, width, height) && |s.history| <= 3
    ensures IsGrid(r.current, width, height) && |r.history| <= 3
    decreases n
  {
    if n == 0 then s else Steps(Step(s, width, height), width, height, n - 1)
  }

  /** A state reached by evolution alone: the history window ends in the current grid and is chained. */
  ghost predicate Evolved(s: State, width: int, height: int)
    requires width > 0 && height > 0
  {
    IsGrid(s.current, width, height) && 1 <= |s.history| <= 3 &&
    s.history[|s.history| - 1] == s.current && Chained(s.history, width, height)
  }

  /** Appending the next generation of the newest snapshot keeps a history chained. */
  lemma ChainedSnoc(history: seq<Grid>, g: Grid, width: int, height: int)
    requires width > 0 && height > 0 && Chained(history, width, height) && |history| > 0
    requires g == NextGen(history[|history| - 1], width, height)
    ensures Chained(history + [g], width, height)
  {
    var h := history + [g];
    forall k | 0 < k < |h| ensures h[k] == NextGen(h[k - 1], width, height) {
      if k < |history| {
        assert h[k] == history[k] && h[k - 1] == history[k - 1];
      }
    }
  }

  /** Dropping the oldest snapshot keeps a history chained. */
  lemma ChainedDrop(history: seq<Grid>, width: int, height: int)
    requires width > 0 && height > 0 && Chained(history, width, height) && |history| > 0
    ensures Chained(history[1..], width, height)
  {
    var h := history[1..];
    forall k | 0 < k < |h| ensures h[k] == NextGen(h[k - 1], width, height) {
      assert h[k] == history[k + 1] && h[k - 1] == history[k];
    }
  }

  /** `evolve` keeps a history of pure evolution chained. */
  lemma StepKeepsEvolved(s: State, width: int, height: int)
    requires width > 0 && height > 0 && Evolved(s, width, height)
    ensures Evolved(Step(s, width, height), width, height)
  {
    var g := NextGen(s.current, width, height);
    var h := s.history + [g];
    ChainedSnoc(s.history, g, width, height);
    if |h| > 3 {
      ChainedDrop(h, width, height);
      assert Remember(s.history, g) == h[1..];
    } else {
      assert Remember(s.history, g) == h;
    }
  }

  /**
   * What `isStable()` detects on a history of pure evolution: the newest
   * generation is a still life, or the oldest comes back after two steps.
   */
  lemma StableMeansPeriodAtMostTwo(s: State, width: int, height: int)
    requires width > 0 && height > 0 && Evolved(s, width, height) && |s.history| == 3
    ensures Stable(s.history) <==>
              NextGen(s.history[1], width, height) == s.history[1] ||
              Iterate(s.history[0], width, height, 2) == s.history[0]
  {
    var a := s.history[0];
    assert Iterate(a, width, height, 2) == NextGen(NextGen(a, width, height), width, height) by {
      assert Iterate(NextGen(NextGen(a, width, height), width, height), width, height, 0)
          == NextGen(NextGen(a, width, height), width, height);
    }
  }

  /** Once pure evolution is stable, the grid repeats with period at most two. */
  lemma StableRepeats(s: State, width: int, height: int)
    requires width > 0 && height > 0 && Evolved(s, width, height) && Stable(s.history)
    ensures NextGen(NextGen(s.current, width, height), width, height) == s.current
  {
    var a, b, c := s.history[0], s.history[1], s.history[2];
    assert b == NextGen(a, width, height) && c == NextGen(b, width, height);
  }

  /** Stability, once reached by pure evolution, is never lost by evolving further. */
  lemma {:induction false} StableForever(s: State, width: int, height: int, n: nat)
    requires width > 0 && height > 0 && Evolved(s, width, height) && Stable(s.history)
    ensures Evolved(Steps(s, width, height, n), width, height)
    ensures Stable(Steps(s, width, height, n).history)
    decreases n
  {
    if n > 0 {
      var r := Step(s, width, height);
      StepKeepsEvolved(s, width, height);
      StableRepeats(s, width, height);
      var a, b, c := s.history[0], s.history[1], s.history[2];
      assert r.history == [b, c, r.current];
      assert b == NextGen(a, width, height) && c == NextGen(b, width, height);
      if b == c {
        assert r.current == c;
      } else {
        assert r.current == b;
      }
      StableForever(r, width, height, n - 1);
    }
  }
}
