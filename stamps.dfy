/**
 * The pattern stampers: each writes a fixed list of cells alive at offsets
 * from an anchor, every coordinate reduced by C++ `%` on its own, and never
 * clears a cell. `addRandomPatterns` stamps a sequence of such choices.
 */
module Stamps {
  import opened Grids

  datatype Pattern = Glider | Toad | Beacon | Methuselah

  /** The offsets each stamper sets, in the order it sets them. */
  function Cells(p: Pattern): (cells: seq<Offset>)
    ensures |cells| == match p case Glider => 5 case Toad => 6 case Beacon => 8 case Methuselah => 5
    ensures forall k :: 0 <= k < |cells| ==> 0 <= cells[k].dx <= 3 && 0 <= cells[k].dy <= 3
    ensures forall k, l :: 0 <= k < l < |cells| ==> cells[k] != cells[l]
  {
    match p
    case Glider => [Offset(1, 0), Offset(2, 1), Offset(0, 2), Offset(1, 2), Offset(2, 2)]
    case Toad => [Offset(1, 1), Offset(2, 1), Offset(3, 1), Offset(0, 2), Offset(1, 2), Offset(2, 2)]
    case Beacon => [Offset(0, 0), Offset(1, 0), Offset(0, 1), Offset(1, 1),
                    Offset(2, 2), Offset(3, 2), Offset(2, 3), Offset(3, 3)]
    case Methuselah => [Offset(1, 0), Offset(2, 0), Offset(0, 1), Offset(1, 1), Offset(1, 2)]
  }

  /** The cell a stamper writes for offset `o`: `((x + dx) % width, (y + dy) % height)`. */
  function Target(width: int, height: int, x: int, y: int, o: Offset): (int, int)
    requires width > 0 && height > 0
  {
    (CMod(x + o.dx, width), CMod(y + o.dy, height))
  }

  /** The grid after the stamper's `setCell(..., true)` calls for `cells`, in order. */
  function Stamp(g: Grid, width: int, height: int, x: int, y: int, cells: seq<Offset>): (r: Grid)
    requires width > 0 && height > 0 && IsGrid(g, width, height)
    ensures IsGrid(r, width, height)
    decreases |cells|
  {
    if cells == [] then g
    else
      var t := Target(width, height, x, y, cells[0]);
      Stamp(SetAt(g, width, height, t.0, t.1, true), width, height, x, y, cells[1..])
  }

  /** Some offset of `cells` targets the cell `(a, b)`. */
  ghost predicate Covers(width: int, height: int, x: int, y: int, cells: seq<Offset>, a: int, b: int)
    requires width > 0 && height > 0
  {
    exists k :: 0 <= k < |cells| && Target(width, height, x, y, cells[k]) == (a, b)
  }

  /**
   * Stamping is an OR of the stencil into the grid: an in-range cell is alive
   * afterwards exactly when it was alive before or some offset targets it.
   * So no cell is ever cleared and only targeted cells change.
   */
  lemma {:induction false} StampExact(g: Grid, width: int, height: int, x: int, y: int,
                                      cells: seq<Offset>, a: int, b: int)
    requires width > 0 && height > 0 && IsGrid(g, width, height) && InBounds(width, height, a, b)
    ensures Stamp(g, width, height, x, y, cells)[b][a] <==> g[b][a] || Covers(width, height, x, y, cells, a, b)
    decreases |cells|
  {
    if cells != [] {
      var t := Target(width, height, x, y, cells[0]);
      var g' := SetAt(g, width, height, t.0, t.1, true);
      StampExact(g', width, height, x, y, cells[1..], a, b);
      assert g'[b][a] <==> g[b][a] || t == (a, b);
      if Covers(width, height, x, y, cells[1..], a, b) {
        var k :| 0 <= k < |cells[1..]| && Target(width, height, x, y, cells[1..][k]) == (a, b);
        assert Target(width, height, x, y, cells[k + 1]) == (a, b);
      }
      if Covers(width, height, x, y, cells, a, b) && t != (a, b) {
        var k :| 0 <= k < |cells| && Target(width, height, x, y, cells[k]) == (a, b);
        assert k > 0 && cells[1..][k - 1] == cells[k];
      }
    }
  }

  /** Every offset of `cells` from the anchor `(x, y)` lands in range without wrapping. */
  predicate Fits(width: int, height: int, x: int, y: int, cells: seq<Offset>)
  {
    forall k :: 0 <= k < |cells| ==>
      0 <= x + cells[k].dx < width && 0 <= y + cells[k].dy < height
  }

  /** An offset that fits targets the plain sum of anchor and offset. */
  lemma TargetFits(width: int, height: int, x: int, y: int, cells: seq<Offset>, k: int)
    requires width > 0 && height > 0 && Fits(width, height, x, y, cells) && 0 <= k < |cells|
    ensures Target(width, height, x, y, cells[k]) == (x + cells[k].dx, y + cells[k].dy)
  {
    UniqueQuotient(width, (x + cells[k].dx) / width, (x + cells[k].dx) % width, 0, x + cells[k].dx);
    UniqueQuotient(height, (y + cells[k].dy) / height, (y + cells[k].dy) % height, 0, y + cells[k].dy);
  }

  /**
   * A pattern that fits is drawn as its own shape: on an empty grid, cell
   * `(a, b)` is alive exactly when `(a - x, b - y)` is one of the offsets.
   */
  lemma StampFits(width: int, height: int, x: int, y: int, cells: seq<Offset>, a: int, b: int)
    requires width > 0 && height > 0 && InBounds(width, height, a, b) && Fits(width, height, x, y, cells)
    ensures Stamp(Dead(width, height), width, height, x, y, cells)[b][a] <==> Offset(a - x, b - y) in cells
  {
    StampExact(Dead(width, height), width, height, x, y, cells, a, b);
    assert !Dead(width, height)[b][a];
    if Offset(a - x, b - y) in cells {
      var k :| 0 <= k < |cells| && cells[k] == Offset(a - x, b - y);
      TargetFits(width, height, x, y, cells, k);
      assert Covers(width, height, x, y, cells, a, b);
    }
    if Covers(width, height, x, y, cells, a, b) {
      var k :| 0 <= k < |cells| && Target(width, height, x, y, cells[k]) == (a, b);
      TargetFits(width, height, x, y, cells, k);
      assert cells[k] == Offset(a - x, b - y);
    }
  }

  /**
   * With a non-negative anchor every offset of a pattern lands in range, so
   * all 5, 6, 8 or 5 of its cells are alive afterwards.
   */
  lemma StampNonNegativeAnchor(g: Grid, width: int, height: int, x: int, y: int, p: Pattern)
    requires width > 0 && height > 0 && IsGrid(g, width, height) && x >= 0 && y >= 0
    ensures forall k :: 0 <= k < |Cells(p)| ==>
              var t := Target(width, height, x, y, Cells(p)[k]);
              InBounds(width, height, t.0, t.1) && Stamp(g, width, height, x, y, Cells(p))[t.1][t.0]
  {
    var cells := Cells(p);
    forall k | 0 <= k < |cells|
      ensures var t := Target(width, height, x, y, cells[k]);
              InBounds(width, height, t.0, t.1) && Stamp(g, width, height, x, y, cells)[t.1][t.0]
    {
      var t := Target(width, height, x, y, cells[k]);
      assert cells[k].dx >= 0 && cells[k].dy >= 0;
      StampExact(g, width, height, x, y, cells, t.0, t.1);
    }
  }

  /**
   * A negative anchor is not wrapped: C++ `-1 % 5` is -1, so the glider's
   * bottom-left cell is dropped instead of landing in column 4.
   */
  lemma GliderAtNegativeAnchor()
    ensures Target(5, 5, -1, 0, Cells(Glider)[2]) == (-1, 2)
    ensures !Stamp(Dead(5, 5), 5, 5, -1, 0, Cells(Glider))[2][4]
  {
    var cells := Cells(Glider);
    StampExact(Dead(5, 5), 5, 5, -1, 0, cells, 4, 2);
    assert forall k :: 0 <= k < |cells| ==> Target(5, 5, -1, 0, cells[k]).0 != 4;
  }

  /** One draw of `addRandomPatterns`: an anchor and a pattern. */
  datatype Pick = Pick(x: int, y: int, pattern: Pattern)

  /** The grid after stamping every pick, in order. */
  function StampAll(g: Grid, width: int, height: int, picks: seq<Pick>): (r: Grid)
    requires width > 0 && height > 0 && IsGrid(g, width, height)
    ensures IsGrid(r, width, height)
    decreases |picks|
  {
    if picks == [] then g
    else
      var p := picks[0];
      StampAll(Stamp(g, width, height, p.x, p.y, Cells(p.pattern)), width, height, picks[1..])
  }

  /** Stamping the picks from `i` on is stamping pick `i`, then the rest. */
  lemma StampAllFrom(g: Grid, width: int, height: int, picks: seq<Pick>, i: int)
    requires width > 0 && height > 0 && IsGrid(g, width, height) && 0 <= i < |picks|
    ensures var p := picks[i];
            StampAll(g, width, height, picks[i..])
              == StampAll(Stamp(g, width, height, p.x, p.y, Cells(p.pattern)), width, height, picks[i + 1..])
  {
    assert picks[i..][0] == picks[i] && picks[i..][1..] == picks[i + 1..];
  }

  /** Stamping many patterns never clears a cell. */
  lemma {:induction false} StampAllKeeps(g: Grid, width: int, height: int, picks: seq<Pick>, a: int, b: int)
    requires width > 0 && height > 0 && IsGrid(g, width, height) && InBounds(width, height, a, b)
    requires g[b][a]
    ensures StampAll(g, width, height, picks)[b][a]
    decreases |picks|
  {
    if picks != [] {
      var p := picks[0];
      StampExact(g, width, height, p.x, p.y, Cells(p.pattern), a, b);
      StampAllKeeps(Stamp(g, width, height, p.x, p.y, Cells(p.pattern)), width, height, picks[1..], a, b);
    }
  }

  /** Anchors drawn in range, as the random distributions over [0, width) and [0, height) give. */
  predicate AnchorsInRange(picks: seq<Pick>, width: int, height: int)
  {
    forall i :: 0 <= i < |picks| ==> InBounds(width, height, picks[i].x, picks[i].y)
  }

  /**
   * After `addRandomPatterns`, every cell of every drawn pattern is alive, so
   * at least one random pattern leaves the grid with a live cell.
   */
  lemma {:induction false} RandomPatternsAllLive(g: Grid, width: int, height: int, picks: seq<Pick>)
    requires width > 0 && height > 0 && IsGrid(g, width, height) && AnchorsInRange(picks, width, height)
    ensures forall i, k :: 0 <= i < |picks| && 0 <= k < |Cells(picks[i].pattern)| ==>
              var t := Target(width, height, picks[i].x, picks[i].y, Cells(picks[i].pattern)[k]);
              InBounds(width, height, t.0, t.1) && StampAll(g, width, height, picks)[t.1][t.0]
    ensures |picks| > 0 ==> exists b, a :: InBounds(width, height, a, b) && StampAll(g, width, height, picks)[b][a]
    decreases |picks|
  {
    if picks != [] {
      var p := picks[0];
      var g' := Stamp(g, width, height, p.x, p.y, Cells(p.pattern));
      assert AnchorsInRange(picks[1..], width, height) by {
        forall i | 0 <= i < |picks[1..]| ensures InBounds(width, height, picks[1..][i].x, picks[1..][i].y) {
          assert picks[1..][i] == picks[i + 1];
        }
      }
      RandomPatternsAllLive(g', width, height, picks[1..]);
      StampNonNegativeAnchor(g, width, height, p.x, p.y, p.pattern);
      forall i, k | 0 <= i < |picks| && 0 <= k < |Cells(picks[i].pattern)|
        ensures var t := Target(width, height, picks[i].x, picks[i].y, Cells(picks[i].pattern)[k]);
                InBounds(width, height, t.0, t.1) && StampAll(g, width, height, picks)[t.1][t.0]
      {
        if i == 0 {
          var t := Target(width, height, p.x, p.y, Cells(p.pattern)[k]);
          StampAllKeeps(g', width, height, picks[1..], t.0, t.1);
        } else {
          assert picks[i] == picks[1..][i - 1];
        }
      }
      var t := Target(width, height, p.x, p.y, Cells(p.pattern)[0]);
      assert InBounds(width, height, t.0, t.1) && StampAll(g, width, height, picks)[t.1][t.0];
    }
  }
}
