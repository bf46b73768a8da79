/**
 * The documented small patterns on an empty 6-by-6 torus: a toad or a beacon
 * stamped alone flips to its second phase and back, so `isStable()` sees a
 * period-2 cycle; a 2-by-2 block is a still life; a lone live cell dies at
 * once and leaves an all-dead, stable world.
 */
module Oscillators {
  import opened Grids
  import opened Rules
  import opened Stamps
  import opened Session

  /** A 6-by-6 grid drawn from a cell predicate: cell `(x, y)` is `alive(x, y)`. */
  function Draw(alive: (int, int) -> bool): (g: Grid)
    ensures IsGrid(g, 6, 6)
    ensures forall y, x :: 0 <= y < 6 && 0 <= x < 6 ==> g[y][x] == alive(x, y)
  {
    seq(6, y => seq(6, x => alive(x, y)))
  }

  /** 1 when the neighbour `(dx, dy)` of `(x, y)` on the 6-by-6 torus is alive, read without `%`. */
  function LiveAt(alive: (int, int) -> bool, x: int, y: int, dx: int, dy: int): int
  {
    if alive(Near(x, dx, 6), Near(y, dy, 6)) then 1 else 0
  }

  /** The eight neighbours added up, in `Around`'s order. */
  function Count(alive: (int, int) -> bool, x: int, y: int): int
  {
    LiveAt(alive, x, y, -1, -1) + LiveAt(alive, x, y, -1, 0) + LiveAt(alive, x, y, -1, 1) +
    LiveAt(alive, x, y, 0, -1) + LiveAt(alive, x, y, 0, 1) +
    LiveAt(alive, x, y, 1, -1) + LiveAt(alive, x, y, 1, 0) + LiveAt(alive, x, y, 1, 1)
  }

  /** One more offset of `Around` adds that neighbour's state. */
  lemma LiveBeforeNext(alive: (int, int) -> bool, x: int, y: int, k: int)
    requires 0 <= x < 6 && 0 <= y < 6 && 0 <= k < |Around|
    ensures LiveBefore(Draw(alive), 6, 6, x, y, k + 1)
         == LiveBefore(Draw(alive), 6, 6, x, y, k) + LiveAt(alive, x, y, Around[k].dx, Around[k].dy)
  {
    AroundIsRing();
    WrapNear(x, Around[k].dx, 6);
    WrapNear(y, Around[k].dy, 6);
  }

  /** `countNeighbors` on a drawn grid is the plain sum of the eight neighbours' states. */
  lemma NeighboursByCount(alive: (int, int) -> bool, x: int, y: int)
    requires 0 <= x < 6 && 0 <= y < 6
    ensures Neighbours(Draw(alive), 6, 6, x, y) == Count(alive, x, y)
  {
    LiveBeforeNext(alive, x, y, 0);
    LiveBeforeNext(alive, x, y, 1);
    LiveBeforeNext(alive, x, y, 2);
    LiveBeforeNext(alive, x, y, 3);
    LiveBeforeNext(alive, x, y, 4);
    LiveBeforeNext(alive, x, y, 5);
    LiveBeforeNext(alive, x, y, 6);
    LiveBeforeNext(alive, x, y, 7);
  }

  /** A drawn grid whose every cell follows the rule from `a` is the next generation of `a`. */
  lemma EvolvesTo(a: (int, int) -> bool, b: (int, int) -> bool)
    requires forall x, y :: 0 <= x < 6 && 0 <= y < 6 ==> b(x, y) == Rule(a(x, y), Count(a, x, y))
    ensures NextGen(Draw(a), 6, 6) == Draw(b)
  {
    forall y, x | 0 <= y < 6 && 0 <= x < 6
      ensures Draw(b)[y][x] == Rule(Draw(a)[y][x], Neighbours(Draw(a), 6, 6, x, y))
    {
      NeighboursByCount(a, x, y);
    }
    NextGenByCells(Draw(a), Draw(b), 6, 6);
  }

  /** Two 6-by-6 grids that agree cell by cell are equal. */
  lemma SameCells(g: Grid, r: Grid)
    requires IsGrid(g, 6, 6) && IsGrid(r, 6, 6)
    requires forall y, x :: 0 <= y < 6 && 0 <= x < 6 ==> g[y][x] == r[y][x]
    ensures g == r
  {
    forall y | 0 <= y < 6 ensures g[y] == r[y] {
      assert forall x :: 0 <= x < 6 ==> g[y][x] == r[y][x];
    }
  }

  /**
   * On an empty 6-by-6 torus, a stencil that fits from the anchor `(x0, y0)`
   * draws exactly the cells that are the anchor plus one of its offsets.
   */
  lemma StampDraws(cells: seq<Offset>, x0: int, y0: int, r: (int, int) -> bool)
    requires Fits(6, 6, x0, y0, cells)
    requires forall x, y :: 0 <= x < 6 && 0 <= y < 6 ==> (r(x, y) <==> Offset(x - x0, y - y0) in cells)
    ensures Stamp(Dead(6, 6), 6, 6, x0, y0, cells) == Draw(r)
  {
    var g := Stamp(Dead(6, 6), 6, 6, x0, y0, cells);
    forall y, x | 0 <= y < 6 && 0 <= x < 6 ensures g[y][x] == Draw(r)[y][x] {
      StampFits(6, 6, x0, y0, cells, x, y);
    }
    SameCells(g, Draw(r));
  }

  /** The toad as `addToad(1, 1)` draws it: rows 2 and 3. */
  predicate ToadOn1(x: int, y: int)
  {
    (y == 2 && 2 <= x <= 4) || (y == 3 && 1 <= x <= 3)
  }

  /** The toad's other phase. */
  predicate ToadOn2(x: int, y: int)
  {
    (y == 1 && x == 3) || (2 <= y <= 3 && (x == 1 || x == 4)) || (y == 4 && x == 2)
  }

  /** The beacon as `addBeacon(1, 1)` draws it: two 2-by-2 blocks touching at a corner. */
  predicate BeaconOn1(x: int, y: int)
  {
    (1 <= x <= 2 && 1 <= y <= 2) || (3 <= x <= 4 && 3 <= y <= 4)
  }

  /** The beacon's other phase: the two touching corners are dead. */
  predicate BeaconOn2(x: int, y: int)
  {
    BeaconOn1(x, y) && !(x == 2 && y == 2) && !(x == 3 && y == 3)
  }

  // The two phases of each oscillator as 6-by-6 grids.
  function ToadPhase1(): Grid { Draw(ToadOn1) }
  function ToadPhase2(): Grid { Draw(ToadOn2) }
  function BeaconPhase1(): Grid { Draw(BeaconOn1) }
  function BeaconPhase2(): Grid { Draw(BeaconOn2) }

  /** The rule takes each cell of the first toad phase to the second. */
  lemma ToadPhase1Cell(x: int, y: int)
    requires 0 <= x < 6 && 0 <= y < 6
    ensures ToadOn2(x, y) == Rule(ToadOn1(x, y), Count(ToadOn1, x, y))
  {
  }

  /** The rule takes each cell of the second toad phase to the first. */
  lemma ToadPhase2Cell(x: int, y: int)
    requires 0 <= x < 6 && 0 <= y < 6
    ensures ToadOn1(x, y) == Rule(ToadOn2(x, y), Count(ToadOn2, x, y))
  {
  }

  /** The rule takes each cell of the first beacon phase to the second. */
  lemma BeaconPhase1Cell(x: int, y: int)
    requires 0 <= x < 6 && 0 <= y < 6
    ensures BeaconOn2(x, y) == Rule(BeaconOn1(x, y), Count(BeaconOn1, x, y))
  {
  }

  /** The rule takes each cell of the second beacon phase to the first. */
  lemma BeaconPhase2Cell(x: int, y: int)
    requires 0 <= x < 6 && 0 <= y < 6
    ensures BeaconOn1(x, y) == Rule(BeaconOn2(x, y), Count(BeaconOn2, x, y))
  {
  }

  /** One generation takes each toad phase to the other. */
  lemma ToadFlips()
    ensures NextGen(ToadPhase1(), 6, 6) == ToadPhase2()
    ensures NextGen(ToadPhase2(), 6, 6) == ToadPhase1()
  {
    forall x, y | 0 <= x < 6 && 0 <= y < 6
      ensures ToadOn2(x, y) == Rule(ToadOn1(x, y), Count(ToadOn1, x, y))
      ensures ToadOn1(x, y) == Rule(ToadOn2(x, y), Count(ToadOn2, x, y))
    {
      ToadPhase1Cell(x, y);
      ToadPhase2Cell(x, y);
    }
    EvolvesTo(ToadOn1, ToadOn2);
    EvolvesTo(ToadOn2, ToadOn1);
  }

  /** One generation takes each beacon phase to the other. */
  lemma BeaconFlips()
    ensures NextGen(BeaconPhase1(), 6, 6) == BeaconPhase2()
    ensures NextGen(BeaconPhase2(), 6, 6) == BeaconPhase1()
  {
    forall x, y | 0 <= x < 6 && 0 <= y < 6
      ensures BeaconOn2(x, y) == Rule(BeaconOn1(x, y), Count(BeaconOn1, x, y))
      ensures BeaconOn1(x, y) == Rule(BeaconOn2(x, y), Count(BeaconOn2, x, y))
    {
      BeaconPhase1Cell(x, y);
      BeaconPhase2Cell(x, y);
    }
    EvolvesTo(BeaconOn1, BeaconOn2);
    EvolvesTo(BeaconOn2, BeaconOn1);
  }

  /** `addToad(1, 1)` on an empty 6-by-6 world draws the first toad phase. */
  lemma ToadStamped()
    ensures Stamp(Dead(6, 6), 6, 6, 1, 1, Cells(Toad)) == ToadPhase1()
  {
    forall x, y | 0 <= x < 6 && 0 <= y < 6
      ensures ToadOn1(x, y) <==> Offset(x - 1, y - 1) in Cells(Toad)
    {
    }
    StampDraws(Cells(Toad), 1, 1, ToadOn1);
  }

  /** `addBeacon(1, 1)` on an empty 6-by-6 world draws the first beacon phase. */
  lemma BeaconStamped()
    ensures Stamp(Dead(6, 6), 6, 6, 1, 1, Cells(Beacon)) == BeaconPhase1()
  {
    forall x, y | 0 <= x < 6 && 0 <= y < 6
      ensures BeaconOn1(x, y) <==> Offset(x - 1, y - 1) in Cells(Beacon)
    {
    }
    StampDraws(Cells(Beacon), 1, 1, BeaconOn1);
  }

  /** Two grids that evolve into each other form a period-2 cycle; if they differ, not a still life. */
  lemma PeriodTwo(a: Grid, b: Grid, width: int, height: int)
    requires width > 0 && height > 0 && IsGrid(a, width, height) && IsGrid(b, width, height)
    requires NextGen(a, width, height) == b && NextGen(b, width, height) == a && a != b
    ensures NextGen(a, width, height) != a && Iterate(a, width, height, 2) == a
  {
    assert Iterate(a, width, height, 2) == Iterate(b, width, height, 1) == Iterate(a, width, height, 0);
  }

  /**
   * From a grid `a` of period one or two, with any window `h` of up to three
   * earlier snapshots, a checked run stops after three generations: the
   * window then holds `b, a, b`.
   */
  lemma PeriodTwoRunStops(a: Grid, b: Grid, h: seq<Grid>, width: int, height: int, n: int)
    requires width > 0 && height > 0 && IsGrid(a, width, height) && IsGrid(b, width, height)
    requires NextGen(a, width, height) == b && NextGen(b, width, height) == a && n >= 3
    requires |h| <= 3
    ensures Simulate(State(a, h), width, height, n, true) == Outcome(State(b, [b, a, b]), 3, true)
  {
    var s0 := State(a, h);
    var s1 := Step(s0, width, height);
    var s2 := Step(s1, width, height);
    var s3 := Step(s2, width, height);
    RememberThree(h, b, a, b);
    assert s3 == State(b, [b, a, b]);
    assert RunFrom(s2, width, height, n, true, 2) == Outcome(s3, 3, true);
    assert RunFrom(s1, width, height, n, true, 1) == RunFrom(s2, width, height, n, true, 2);
    assert RunFrom(s0, width, height, n, true, 0) == RunFrom(s1, width, height, n, true, 1);
  }

  /** The two toad phases are different grids. */
  lemma ToadPhasesDiffer()
    ensures ToadPhase1() != ToadPhase2()
  {
    assert ToadPhase2()[2][2] != ToadPhase1()[2][2];
  }

  /** The two beacon phases are different grids. */
  lemma BeaconPhasesDiffer()
    ensures BeaconPhase1() != BeaconPhase2()
  {
    assert BeaconPhase2()[2][2] != BeaconPhase1()[2][2];
  }

  /**
   * The toad is a period-2 oscillator: stamped alone, with room around it,
   * it is not a still life and two generations restore it.
   */
  lemma ToadOscillates()
    ensures var g := Stamp(Dead(6, 6), 6, 6, 1, 1, Cells(Toad));
            NextGen(g, 6, 6) != g && Iterate(g, 6, 6, 2) == g
  {
    ToadStamped();
    ToadFlips();
    ToadPhasesDiffer();
    PeriodTwo(ToadPhase1(), ToadPhase2(), 6, 6);
  }

  /** The beacon is a period-2 oscillator in the same sense. */
  lemma BeaconOscillates()
    ensures var g := Stamp(Dead(6, 6), 6, 6, 1, 1, Cells(Beacon));
            NextGen(g, 6, 6) != g && Iterate(g, 6, 6, 2) == g
  {
    BeaconStamped();
    BeaconFlips();
    BeaconPhasesDiffer();
    PeriodTwo(BeaconPhase1(), BeaconPhase2(), 6, 6);
  }

  /**
   * `toad 1 1` on a fresh 6-by-6 world, then `run n` with the stability check
   * on: the third generation completes the cycle in the history window, and the
   * run stops there, reporting it, however many generations were asked for.
   */
  lemma ToadRunStops(n: int)
    requires n >= 3
    ensures var s := State(Stamp(Dead(6, 6), 6, 6, 1, 1, Cells(Toad)), [Dead(6, 6)]);
            Simulate(s, 6, 6, n, true)
              == Outcome(State(ToadPhase2(), [ToadPhase2(), ToadPhase1(), ToadPhase2()]), 3, true)
  {
    ToadStamped();
    ToadFlips();
    PeriodTwoRunStops(ToadPhase1(), ToadPhase2(), [Dead(6, 6)], 6, 6, n);
  }

  /**
   * `beacon 1 1` on a fresh 6-by-6 world, then `run n` with the stability
   * check on: the run stops after three generations, the window holding the
   * two beacon phases.
   */
  lemma BeaconRunStops(n: int)
    requires n >= 3
    ensures var s := State(Stamp(Dead(6, 6), 6, 6, 1, 1, Cells(Beacon)), [Dead(6, 6)]);
            Simulate(s, 6, 6, n, true)
              == Outcome(State(BeaconPhase2(), [BeaconPhase2(), BeaconPhase1(), BeaconPhase2()]), 3, true)
  {
    BeaconStamped();
    BeaconFlips();
    PeriodTwoRunStops(BeaconPhase1(), BeaconPhase2(), [Dead(6, 6)], 6, 6, n);
  }

  /** A 2-by-2 block of live cells at columns and rows 2 and 3. */
  predicate BlockOn(x: int, y: int)
  {
    2 <= x <= 3 && 2 <= y <= 3
  }

  function Block(): Grid { Draw(BlockOn) }

  /** Every cell of the block keeps its state under the rule. */
  lemma BlockCell(x: int, y: int)
    requires 0 <= x < 6 && 0 <= y < 6
    ensures BlockOn(x, y) == Rule(BlockOn(x, y), Count(BlockOn, x, y))
  {
  }

  /** The block is a still life: one generation leaves it as it is. */
  lemma BlockStillLife()
    ensures NextGen(Block(), 6, 6) == Block()
  {
    forall x, y | 0 <= x < 6 && 0 <= y < 6
      ensures BlockOn(x, y) == Rule(BlockOn(x, y), Count(BlockOn, x, y))
    {
      BlockCell(x, y);
    }
    EvolvesTo(BlockOn, BlockOn);
  }

  /**
   * A block drawn with `set` on a fresh 6-by-6 world, then `run n` with the
   * check on: the window fills with the block and the run stops after three
   * generations as a still life.
   */
  lemma BlockRunStops(n: int)
    requires n >= 3
    ensures Simulate(State(Block(), [Dead(6, 6)]), 6, 6, n, true)
              == Outcome(State(Block(), [Block(), Block(), Block()]), 3, true)
    ensures Stable([Block(), Block(), Block()])
  {
    BlockStillLife();
    PeriodTwoRunStops(Block(), Block(), [Dead(6, 6)], 6, 6, n);
  }

  /** A single live cell at `(2, 2)`, as `set 2 2 1` makes it on a fresh world. */
  predicate LonelyOn(x: int, y: int)
  {
    x == 2 && y == 2
  }

  function Lonely(): Grid { Draw(LonelyOn) }

  /** No cell alive. */
  predicate NoneOn(x: int, y: int)
  {
    false
  }

  /** `set 2 2 1` on a fresh 6-by-6 world gives the lone cell. */
  lemma LonelyIsSet()
    ensures SetAt(Dead(6, 6), 6, 6, 2, 2, true) == Lonely()
  {
    SameCells(SetAt(Dead(6, 6), 6, 6, 2, 2, true), Lonely());
  }

  /** No cell of the lone-cell grid is alive in the next generation. */
  lemma LonelyCell(x: int, y: int)
    requires 0 <= x < 6 && 0 <= y < 6
    ensures NoneOn(x, y) == Rule(LonelyOn(x, y), Count(LonelyOn, x, y))
  {
  }

  /** A lone cell has no live neighbour and dies in one step; nothing is born. */
  lemma LonelyDies()
    ensures NextGen(Lonely(), 6, 6) == Dead(6, 6)
  {
    forall x, y | 0 <= x < 6 && 0 <= y < 6
      ensures NoneOn(x, y) == Rule(LonelyOn(x, y), Count(LonelyOn, x, y))
    {
      LonelyCell(x, y);
    }
    EvolvesTo(LonelyOn, NoneOn);
    SameCells(Draw(NoneOn), Dead(6, 6));
  }

  /**
   * `run n` from the lone cell with the check on: the world is empty after
   * the first generation, and the run stops after the third with a window of
   * three empty grids.
   */
  lemma LonelyRunStops(n: int)
    requires n >= 3
    ensures var d := Dead(6, 6);
            Simulate(State(Lonely(), [d]), 6, 6, n, true) == Outcome(State(d, [d, d, d]), 3, true)
  {
    var d := Dead(6, 6);
    LonelyDies();
    DeadStaysDead(6, 6);
    var s0 := State(Lonely(), [d]);
    var s1 := Step(s0, 6, 6);
    assert s1 == State(d, [d, d]);
    var s2 := Step(s1, 6, 6);
    assert s2 == State(d, [d, d, d]);
    var s3 := Step(s2, 6, 6);
    assert s3 == State(d, [d, d, d]);
    assert RunFrom(s2, 6, 6, n, true, 2) == Outcome(s3, 3, true);
    assert RunFrom(s1, 6, 6, n, true, 1) == RunFrom(s2, 6, 6, n, true, 2);
    assert RunFrom(s0, 6, 6, n, true, 0) == RunFrom(s1, 6, 6, n, true, 1);
  }
}
