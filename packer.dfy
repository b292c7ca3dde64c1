/**
 * calculateLayout: row-major first-fit packing of the items' patterns into a
 * grid of `cols` columns, the pixel boxes of the placed items and the content
 * height of the container.
 */
module Packer {
  import opened Wrappers
  import opened Catalog
  import opened Grid

  /** The occupancy grid: a cell is occupied when it is stamped with an item id. */
  type Occupancy = map<Cell, ItemId>

  /** `Math.floor(containerWidth / (baseUnit + gap))`: the number of whole cells the container holds. */
  function Cols(containerWidth: int, unit: int, gap: int): (cols: int)
    requires unit + gap > 0
    ensures cols * (unit + gap) <= containerWidth < (cols + 1) * (unit + gap)
  {
    containerWidth / (unit + gap)
  }

  /** A pattern covers at least one cell. */
  predicate NonEmpty(p: Pattern) {
    p.width >= 1 && p.height >= 1
  }

  /** Every item's pattern is non-empty and no wider than the grid. */
  predicate PatternsFit(items: seq<Item>, cols: int) {
    forall i :: 0 <= i < |items| ==> NonEmpty(items[i].pattern) && items[i].pattern.width <= cols
  }

  /** Item `i` may be placed at `at`: inside the columns and clear of the footprints of items 0..i-1. */
  ghost predicate FitsAfter(items: seq<Item>, starts: seq<Cell>, i: int, at: Cell, cols: int)
    requires 0 <= i < |items| && i <= |starts|
  {
    0 <= at.x && at.x + items[i].pattern.width <= cols && 0 <= at.y &&
    forall j {:trigger starts[j]} :: 0 <= j < i ==> Disjoint(starts[j], items[j].pattern, at, items[i].pattern)
  }

  /** Where the search for item `i` starts: the cell of item i-1, or the origin for the first item. */
  function ScanStart(starts: seq<Cell>, i: int): Cell
    requires 0 <= i <= |starts|
  {
    if i == 0 then Cell(0, 0) else starts[i - 1]
  }

  /**
   * The first |starts| items are placed by row-major first fit in `cols`
   * columns: item i sits at the first cell, scanning from the cell of item i-1,
   * where it fits beside the items placed before it.
   */
  ghost predicate FirstFitPrefix(items: seq<Item>, starts: seq<Cell>, cols: int)
    requires |starts| <= |items|
  {
    (forall i {:trigger FitsAfter(items, starts, i, starts[i], cols)} :: 0 <= i < |starts| ==>
      FitsAfter(items, starts, i, starts[i], cols) && !Before(starts[i], ScanStart(starts, i))) &&
    (forall i, c: Cell {:trigger FitsAfter(items, starts, i, c, cols)} :: 0 <= i < |starts| && 0 <= c.x < cols && !Before(c, ScanStart(starts, i)) && Before(c, starts[i]) ==>
      !FitsAfter(items, starts, i, c, cols))
  }

  /** `starts` is the row-major first-fit placement of all of `items` in `cols` columns. */
  ghost predicate FirstFit(items: seq<Item>, starts: seq<Cell>, cols: int) {
    |starts| == |items| && FirstFitPrefix(items, starts, cols)
  }

  /** Cell `c` is covered by one of the footprints placed so far. */
  ghost predicate Covered(items: seq<Item>, starts: seq<Cell>, c: Cell)
    requires |starts| <= |items|
  {
    exists j {:trigger starts[j]} :: 0 <= j < |starts| && InFootprint(c, starts[j], items[j].pattern)
  }

  /** No cell of the footprint of `p` at `at` is occupied. */
  predicate Free(grid: Occupancy, at: Cell, p: Pattern) {
    forall c: Cell :: InFootprint(c, at, p) ==> c !in grid
  }

  /** The positions map: each placed item's id bound to its pixel box (a later equal id overwrites). */
  function Boxes(items: seq<Item>, starts: seq<Cell>, unit: int, gap: int): map<ItemId, Position>
    requires |starts| <= |items|
  {
    if starts == [] then map[]
    else
      var n := |starts| - 1;
      Boxes(items, starts[..n], unit, gap)[items[n].id := PixelBox(starts[n], items[n].pattern, unit, gap)]
  }

  /** The bottom edge the content-height computation reads for `item`; 0 when it has no position. */
  function Bottom(item: Item, positions: map<ItemId, Position>): int {
    if item.id in positions then positions[item.id].top + positions[item.id].height else 0
  }

  /** `Math.max` over the items' bottoms. */
  function MaxBottom(items: seq<Item>, positions: map<ItemId, Position>): (m: int)
    requires |items| > 0
    ensures forall i :: 0 <= i < |items| ==> Bottom(items[i], positions) <= m
    ensures exists i :: 0 <= i < |items| && Bottom(items[i], positions) == m
  {
    var n := |items| - 1;
    var last := Bottom(items[n], positions);
    if n == 0 then last
    else
      var m := MaxBottom(items[..n], positions);
      assert forall i :: 0 <= i < n ==> items[..n][i] == items[i];
      if m < last then last else m
  }

  /**
   * The container height `maxY + gap`. With no items `Math.max()` is -Infinity
   * and the height is not a number: None.
   */
  function ContentHeight(items: seq<Item>, positions: map<ItemId, Position>, gap: int): (r: Option<int>)
    ensures r.None? <==> |items| == 0
    ensures r.Some? ==> forall i :: 0 <= i < |items| ==> Bottom(items[i], positions) + gap <= r.value
    ensures r.Some? ==> exists i :: 0 <= i < |items| && Bottom(items[i], positions) + gap == r.value
  {
    if |items| == 0 then None else Some(MaxBottom(items, positions) + gap)
  }

  /** The fit test's nested loops: scan the footprint row by row and stop at the first occupied cell. */
  method CheckFree(grid: Occupancy, at: Cell, p: Pattern) returns (fits: bool)
    ensures fits <==> Free(grid, at, p)
  {
    fits := true;
    var y := at.y;
    while y < at.y + p.height
      invariant fits
      invariant forall c: Cell :: at.x <= c.x < at.x + p.width && at.y <= c.y < y ==> c !in grid
    {
      var x := at.x;
      while x < at.x + p.width
        invariant fits
        invariant forall c: Cell :: at.x <= c.x < at.x + p.width && at.y <= c.y < y ==> c !in grid
        invariant forall c: Cell :: at.x <= c.x < x && c.y == y ==> c !in grid
      {
        if Cell(x, y) in grid {
          fits := false;
          assert InFootprint(Cell(x, y), at, p);
          return;
        }
        x := x + 1;
      }
      y := y + 1;
    }
  }

  /** The stamping loops: every cell of the footprint gets `id`, every other cell keeps its stamp. */
  method Stamp(grid: Occupancy, at: Cell, p: Pattern, id: ItemId) returns (g: Occupancy)
    ensures forall c: Cell :: c in g <==> c in grid || InFootprint(c, at, p)
    ensures forall c: Cell :: c in g ==> g[c] == if InFootprint(c, at, p) then id else grid[c]
  {
    g := grid;
    var y := at.y;
    while y < at.y + p.height
      invariant at.y <= y && (y <= at.y + p.height || y == at.y)
      invariant forall c: Cell :: c in g <==> c in grid || (at.x <= c.x < at.x + p.width && at.y <= c.y < y)
      invariant forall c: Cell :: c in g ==> g[c] == if at.x <= c.x < at.x + p.width && at.y <= c.y < y then id else grid[c]
    {
      var x := at.x;
      while x < at.x + p.width
        invariant at.x <= x && (x <= at.x + p.width || x == at.x)
        invariant forall c: Cell :: c in g <==>
          c in grid || (at.x <= c.x < at.x + p.width && at.y <= c.y < y) || (at.x <= c.x < x && c.y == y)
        invariant forall c: Cell :: c in g ==>
          g[c] == if (at.x <= c.x < at.x + p.width && at.y <= c.y < y) || (at.x <= c.x < x && c.y == y) then id else grid[c]
      {
        g := g[Cell(x, y) := id];
        x := x + 1;
      }
      y := y + 1;
    }
  }

  lemma CoveredExtend(items: seq<Item>, starts: seq<Cell>, at: Cell, c: Cell)
    requires |starts| < |items|
    ensures Covered(items, starts + [at], c) <==> Covered(items, starts, c) || InFootprint(c, at, items[|starts|].pattern)
  {
    var s := starts + [at];
    if Covered(items, s, c) {
      var j :| 0 <= j < |s| && InFootprint(c, s[j], items[j].pattern);
      if j < |starts| {
        assert InFootprint(c, starts[j], items[j].pattern);
      }
    }
    if Covered(items, starts, c) {
      var j :| 0 <= j < |starts| && InFootprint(c, starts[j], items[j].pattern);
      assert s[j] == starts[j];
    }
    if InFootprint(c, at, items[|starts|].pattern) {
      assert s[|starts|] == at;
    }
  }

  /** With the grid stamped by the items placed so far, a free footprint is one clear of all of them. */
  lemma FreeIffClear(items: seq<Item>, starts: seq<Cell>, grid: Occupancy, at: Cell)
    requires |starts| < |items|
    requires forall i :: 0 <= i <= |starts| ==> NonEmpty(items[i].pattern)
    requires forall c: Cell :: c in grid <==> Covered(items, starts, c)
    ensures Free(grid, at, items[|starts|].pattern) <==>
      forall j :: 0 <= j < |starts| ==> Disjoint(starts[j], items[j].pattern, at, items[|starts|].pattern)
  {
    var p := items[|starts|].pattern;
    if Free(grid, at, p) {
      forall j | 0 <= j < |starts|
        ensures Disjoint(starts[j], items[j].pattern, at, p)
      {
        DisjointIffNoSharedCell(starts[j], items[j].pattern, at, p);
      }
    } else {
      var c :| InFootprint(c, at, p) && c in grid;
      var j :| 0 <= j < |starts| && InFootprint(c, starts[j], items[j].pattern);
      DisjointIffNoSharedCell(starts[j], items[j].pattern, at, p);
    }
  }

  lemma FitsAfterSamePrefix(items: seq<Item>, s1: seq<Cell>, s2: seq<Cell>, i: int, c: Cell, cols: int)
    requires 0 <= i < |items| && i <= |s1| && i <= |s2|
    requires forall j :: 0 <= j < i ==> s1[j] == s2[j]
    ensures FitsAfter(items, s1, i, c, cols) == FitsAfter(items, s2, i, c, cols)
  {
  }

  /** Item i keeps its fitting, unscanned-before cell when the next placement is appended. */
  lemma ExtendKeepsPlaced(items: seq<Item>, starts: seq<Cell>, at: Cell, cols: int, i: int)
    requires |starts| < |items| && 0 <= i <= |starts|
    requires FirstFitPrefix(items, starts, cols)
    requires FitsAfter(items, starts, |starts|, at, cols) && !Before(at, ScanStart(starts, |starts|))
    ensures FitsAfter(items, starts + [at], i, (starts + [at])[i], cols)
    ensures !Before((starts + [at])[i], ScanStart(starts + [at], i))
  {
    var s := starts + [at];
    FitsAfterSamePrefix(items, s, starts, i, s[i], cols);
    assert ScanStart(s, i) == ScanStart(starts, i);
    if i < |starts| {
      assert s[i] == starts[i];
      assert FitsAfter(items, starts, i, starts[i], cols);
    } else {
      assert s[i] == at;
    }
  }

  /** Cells the scan of item i passed over still do not fit it when the next placement is appended. */
  lemma ExtendKeepsMinimal(items: seq<Item>, starts: seq<Cell>, at: Cell, cols: int, i: int, c: Cell)
    requires |starts| < |items| && 0 <= i <= |starts|
    requires FirstFitPrefix(items, starts, cols)
    requires forall c: Cell :: 0 <= c.x < cols && !Before(c, ScanStart(starts, |starts|)) && Before(c, at) ==>
      !FitsAfter(items, starts, |starts|, c, cols)
    requires 0 <= c.x < cols && !Before(c, ScanStart(starts + [at], i)) && Before(c, (starts + [at])[i])
    ensures !FitsAfter(items, starts + [at], i, c, cols)
  {
    var s := starts + [at];
    FitsAfterSamePrefix(items, s, starts, i, c, cols);
    assert ScanStart(s, i) == ScanStart(starts, i);
    if i < |starts| {
      assert s[i] == starts[i];
    } else {
      assert s[i] == at;
    }
  }

  /** Placing item k where the scan first finds room extends a first-fit prefix. */
  lemma FirstFitPrefixExtend(items: seq<Item>, starts: seq<Cell>, at: Cell, cols: int)
    requires |starts| < |items|
    requires FirstFitPrefix(items, starts, cols)
    requires FitsAfter(items, starts, |starts|, at, cols) && !Before(at, ScanStart(starts, |starts|))
    requires forall c: Cell :: 0 <= c.x < cols && !Before(c, ScanStart(starts, |starts|)) && Before(c, at) ==>
      !FitsAfter(items, starts, |starts|, c, cols)
    ensures FirstFitPrefix(items, starts + [at], cols)
  {
    var s := starts + [at];
    forall i | 0 <= i < |s|
      ensures FitsAfter(items, s, i, s[i], cols) && !Before(s[i], ScanStart(s, i))
    {
      ExtendKeepsPlaced(items, starts, at, cols, i);
    }
    forall i, c: Cell | 0 <= i < |s| && 0 <= c.x < cols && !Before(c, ScanStart(s, i)) && Before(c, s[i])
      ensures !FitsAfter(items, s, i, c, cols)
    {
      ExtendKeepsMinimal(items, starts, at, cols, i, c);
    }
  }

  /** A cell found by the scan on the stamped grid is the next first-fit placement. */
  lemma ScanExtends(items: seq<Item>, starts: seq<Cell>, grid: Occupancy, at: Cell, cols: int)
    requires |starts| < |items| && PatternsFit(items, cols)
    requires forall c: Cell :: c in grid <==> Covered(items, starts, c)
    requires FirstFitPrefix(items, starts, cols)
    requires 0 <= at.x && at.x + items[|starts|].pattern.width <= cols && Free(grid, at, items[|starts|].pattern)
    requires 0 <= at.y && !Before(at, ScanStart(starts, |starts|))
    requires forall c: Cell :: 0 <= c.x < cols && !Before(c, ScanStart(starts, |starts|)) && Before(c, at) ==>
      !(c.x + items[|starts|].pattern.width <= cols && Free(grid, c, items[|starts|].pattern))
    ensures FirstFitPrefix(items, starts + [at], cols)
  {
    var k := |starts|;
    FreeIffClear(items, starts, grid, at);
    forall c: Cell | 0 <= c.x < cols && !Before(c, ScanStart(starts, k)) && Before(c, at)
      ensures !FitsAfter(items, starts, k, c, cols)
    {
      FreeIffClear(items, starts, grid, c);
    }
    FirstFitPrefixExtend(items, starts, at, cols);
  }

  /** Stamping the new footprint keeps the grid equal to the cells covered by the placements. */
  lemma StampCovers(items: seq<Item>, starts: seq<Cell>, grid: Occupancy, g: Occupancy, at: Cell)
    requires |starts| < |items|
    requires forall c: Cell :: c in grid <==> Covered(items, starts, c)
    requires forall c: Cell :: c in g <==> c in grid || InFootprint(c, at, items[|starts|].pattern)
    ensures forall c: Cell :: c in g <==> Covered(items, starts + [at], c)
  {
    forall c: Cell ensures c in g <==> Covered(items, starts + [at], c) {
      CoveredExtend(items, starts, at, c);
    }
  }

  /**
   * The `while (!placed)` scan for one item: from the cursor, step cell by cell
   * in row-major order until the footprint is inside the columns and free.
   * Every occupied cell lies above row `bound`, so the scan stops by the first
   * free row.
   */
  method FindSlot(grid: Occupancy, cur: Cell, p: Pattern, cols: int, ghost bound: int) returns (at: Cell)
    requires NonEmpty(p) && p.width <= cols
    requires 0 <= cur.x < cols && 0 <= cur.y <= bound
    requires forall c: Cell :: c in grid ==> c.y < bound
    ensures at.x + p.width <= cols && Free(grid, at, p)
    ensures 0 <= at.x < cols && cur.y <= at.y <= bound + 1
    ensures !Before(at, cur)
    ensures forall c: Cell :: 0 <= c.x < cols && !Before(c, cur) && Before(c, at) ==>
      !(c.x + p.width <= cols && Free(grid, c, p))
  {
    at := cur;
    var placed := false;
    while !placed
      invariant 0 <= at.x < cols && cur.y <= at.y <= bound + 1 && (at.y == bound + 1 ==> at.x == 0)
      invariant !Before(at, cur)
      invariant forall c: Cell :: 0 <= c.x < cols && !Before(c, cur) && Before(c, at) ==>
        !(c.x + p.width <= cols && Free(grid, c, p))
      invariant placed ==> at.x + p.width <= cols && Free(grid, at, p)
      decreases if placed then 0 else 1, bound + 1 - at.y, cols - at.x
    {
      if at.x + p.width <= cols {
        placed := CheckFree(grid, at, p);
      }
      if !placed {
        assert at.y <= bound;
        at := Advance(at, cols);
      }
    }
  }

  /**
   * The body of calculateLayout's forEach for item k = |starts|: scan from the
   * cursor for the first cell where the item fits, then stamp its footprint.
   * Every occupied cell lies above row `bound`; afterwards, above `newBound`.
   */
  method PlaceItem(items: seq<Item>, starts: seq<Cell>, grid: Occupancy, cur: Cell, cols: int, ghost bound: int)
    returns (at: Cell, g: Occupancy, ghost newBound: int)
    requires |starts| < |items| && PatternsFit(items, cols)
    requires FirstFitPrefix(items, starts, cols)
    requires forall c: Cell :: c in grid <==> Covered(items, starts, c)
    requires forall c: Cell :: c in grid ==> c.y < bound
    requires cur == ScanStart(starts, |starts|) && 0 <= cur.x < cols && 0 <= cur.y <= bound
    ensures FirstFitPrefix(items, starts + [at], cols)
    ensures forall c: Cell :: c in g <==> Covered(items, starts + [at], c)
    ensures forall c: Cell :: c in g ==> c.y < newBound
    ensures 0 <= at.x < cols && 0 <= at.y <= newBound
  {
    var p := items[|starts|].pattern;
    at := FindSlot(grid, cur, p, cols, bound);
    ScanExtends(items, starts, grid, at, cols);
    g := Stamp(grid, at, p, items[|starts|].id);
    StampCovers(items, starts, grid, g, at);
    newBound := if bound < at.y + p.height then at.y + p.height else bound;
  }

  /**
   * The packing loop of calculateLayout: the cursor starts at the origin and
   * stays on each placed item's cell; each item gets the cell PlaceItem finds,
   * and its pixel box is recorded under its id.
   */
  method Pack(items: seq<Item>, cols: int, unit: int, gap: int) returns (positions: map<ItemId, Position>, starts: seq<Cell>)
    requires PatternsFit(items, cols)
    ensures FirstFit(items, starts, cols)
    ensures positions == Boxes(items, starts, unit, gap)
  {
    var grid: Occupancy := map[];
    positions := map[];
    starts := [];
    var cur := Cell(0, 0);
    ghost var bound := 0;
    var k := 0;
    while k < |items|
      invariant 0 <= k <= |items| && |starts| == k
      invariant forall c: Cell :: c in grid <==> Covered(items, starts, c)
      invariant forall c: Cell :: c in grid ==> c.y < bound
      invariant cur == ScanStart(starts, k) && 0 <= cur.y <= bound
      invariant k > 0 ==> 0 <= cur.x < cols
      invariant FirstFitPrefix(items, starts, cols)
      invariant positions == Boxes(items, starts, unit, gap)
    {
      assert NonEmpty(items[k].pattern) && items[k].pattern.width <= cols;
      var at;
      at, grid, bound := PlaceItem(items, starts, grid, cur, cols, bound);
      positions := positions[items[k].id := PixelBox(at, items[k].pattern, unit, gap)];
      assert (starts + [at])[..k] == starts;
      starts := starts + [at];
      cur := at;
      k := k + 1;
    }
  }

  /**
   * calculateLayout as written: the column count from the container width, the
   * packing, and the content height. The source loops forever when a pattern is
   * wider than the grid, so that is excluded here (see NarrowContainerStalls).
   */
  method CalculateLayout(items: seq<Item>, containerWidth: int, unit: int, gap: int)
    returns (positions: map<ItemId, Position>, starts: seq<Cell>, contentHeight: Option<int>)
    requires unit + gap > 0
    requires PatternsFit(items, Cols(containerWidth, unit, gap))
    ensures FirstFit(items, starts, Cols(containerWidth, unit, gap))
    ensures positions == Boxes(items, starts, unit, gap)
    ensures contentHeight == ContentHeight(items, positions, gap)
  {
    var cols := containerWidth / (unit + gap);
    positions, starts := Pack(items, cols, unit, gap);
    contentHeight := ContentHeight(items, positions, gap);
  }

  /**
   * With the default base unit and gap a 400px container has one column, and the
   * first catalog pattern (two cells wide) fits at no cell at all: the scan of
   * calculateLayout never ends.
   */
  lemma NarrowContainerStalls(item: Item, starts: seq<Cell>, at: Cell)
    requires item.pattern == Patterns[0]
    ensures Cols(400, 200, 10) == 1
    ensures !FitsAfter([item], starts, 0, at, Cols(400, 200, 10))
  {
    assert 400 / 210 == 1;
  }

  /** The grid width actually used by the corrected layout: at least one column. */
  function EffectiveCols(containerWidth: int, unit: int, gap: int): (cols: int)
    requires unit + gap > 0
    ensures cols >= 1
    ensures Cols(containerWidth, unit, gap) >= 1 ==> cols == Cols(containerWidth, unit, gap)
  {
    var c := Cols(containerWidth, unit, gap);
    if c < 1 then 1 else c
  }

  /** The item with its pattern narrowed to at most `cols` cells. */
  function Clamp(item: Item, cols: int): (r: Item)
    requires cols >= 1 && item.pattern.width >= 1
    ensures 1 <= r.pattern.width <= cols && r.pattern.height == item.pattern.height
    ensures r.id == item.id
    ensures item.pattern.width <= cols ==> r == item
  {
    if item.pattern.width <= cols then item
    else item.(pattern := Pattern(cols, item.pattern.height))
  }

  function ClampAll(items: seq<Item>, cols: int): (r: seq<Item>)
    requires cols >= 1
    requires forall i :: 0 <= i < |items| ==> items[i].pattern.width >= 1
  {
    seq(|items|, i requires 0 <= i < |items| => Clamp(items[i], cols))
  }

  /**
   * calculateLayout with the stall removed: at least one column, and patterns
   * wider than the grid narrowed to the grid. When every pattern already fits it
   * is the first-fit packing of the items themselves, in the source's column count.
   */
  method CalculateLayoutClamped(items: seq<Item>, containerWidth: int, unit: int, gap: int)
    returns (positions: map<ItemId, Position>, starts: seq<Cell>, contentHeight: Option<int>)
    requires unit + gap > 0
    requires forall i :: 0 <= i < |items| ==> items[i].pattern.width >= 1 && items[i].pattern.height >= 1
    ensures FirstFit(ClampAll(items, EffectiveCols(containerWidth, unit, gap)), starts, EffectiveCols(containerWidth, unit, gap))
    ensures PatternsFit(items, Cols(containerWidth, unit, gap)) ==> FirstFit(items, starts, Cols(containerWidth, unit, gap))
    ensures positions == Boxes(ClampAll(items, EffectiveCols(containerWidth, unit, gap)), starts, unit, gap)
    ensures contentHeight == ContentHeight(items, positions, gap)
  {
    var cols := containerWidth / (unit + gap);
    if cols < 1 {
      cols := 1;
    }
    var fitted := ClampAll(items, cols);
    positions, starts := Pack(fitted, cols, unit, gap);
    if PatternsFit(items, Cols(containerWidth, unit, gap)) {
      assert fitted == items;
    }
    contentHeight := ContentHeight(items, positions, gap);
  }

  /** No two placed items share a cell: their footprints are pairwise separated. */
  lemma {:induction false} FirstFitNoOverlap(items: seq<Item>, starts: seq<Cell>, cols: int, i: int, j: int)
    requires FirstFit(items, starts, cols)
    requires 0 <= i < |items| && 0 <= j < |items| && i != j
    ensures Disjoint(starts[i], items[i].pattern, starts[j], items[j].pattern)
    ensures PatternsFit(items, cols) ==>
      forall c: Cell :: !(InFootprint(c, starts[i], items[i].pattern) && InFootprint(c, starts[j], items[j].pattern))
  {
    if i < j {
      assert FitsAfter(items, starts, j, starts[j], cols);
    } else {
      assert FitsAfter(items, starts, i, starts[i], cols);
    }
    if PatternsFit(items, cols) {
      DisjointIffNoSharedCell(starts[i], items[i].pattern, starts[j], items[j].pattern);
    }
  }

  /** Every footprint lies inside the grid's columns, below the top row. */
  lemma {:induction false} FirstFitInBounds(items: seq<Item>, starts: seq<Cell>, cols: int, i: int)
    requires FirstFit(items, starts, cols)
    requires 0 <= i < |items|
    ensures 0 <= starts[i].x && starts[i].x + items[i].pattern.width <= cols && 0 <= starts[i].y
  {
    assert FitsAfter(items, starts, i, starts[i], cols);
  }

  /** The cells of successive items strictly increase in row-major order: the cursor never moves back. */
  lemma {:induction false} FirstFitInOrder(items: seq<Item>, starts: seq<Cell>, cols: int, i: int)
    requires FirstFit(items, starts, cols) && PatternsFit(items, cols)
    requires 0 < i < |items|
    ensures Before(starts[i - 1], starts[i])
  {
    assert FitsAfter(items, starts, i, starts[i], cols);
    assert !Before(starts[i], ScanStart(starts, i));
    assert Disjoint(starts[i - 1], items[i - 1].pattern, starts[i], items[i].pattern);
    assert starts[i] != starts[i - 1];
  }

  /** A cell in item n's scan range where it fits is not before the cell it was given. */
  lemma FirstFitMinimal(items: seq<Item>, starts: seq<Cell>, cols: int, n: int, c: Cell)
    requires FirstFit(items, starts, cols)
    requires 0 <= n < |items| && 0 <= c.x < cols
    requires !Before(c, ScanStart(starts, n)) && FitsAfter(items, starts, n, c, cols)
    ensures !Before(c, starts[n])
  {
  }

  /** Packing is deterministic: the same items in the same number of columns get the same cells. */
  lemma {:induction false} FirstFitUnique(items: seq<Item>, s1: seq<Cell>, s2: seq<Cell>, cols: int)
    requires PatternsFit(items, cols)
    requires FirstFit(items, s1, cols) && FirstFit(items, s2, cols)
    ensures s1 == s2
  {
    var n := 0;
    while n < |items|
      invariant 0 <= n <= |items|
      invariant forall j :: 0 <= j < n ==> s1[j] == s2[j]
    {
      var a, b := s1[n], s2[n];
      FitsAfterSamePrefix(items, s1, s2, n, a, cols);
      FitsAfterSamePrefix(items, s1, s2, n, b, cols);
      assert ScanStart(s1, n) == ScanStart(s2, n);
      assert FitsAfter(items, s1, n, a, cols) && FitsAfter(items, s2, n, b, cols);
      FirstFitMinimal(items, s2, cols, n, a);
      FirstFitMinimal(items, s1, cols, n, b);
      n := n + 1;
    }
  }

  /** Every placed item has a position, whatever its id. */
  lemma {:induction false} BoxesKeys(items: seq<Item>, starts: seq<Cell>, unit: int, gap: int)
    requires |starts| <= |items|
    ensures forall i :: 0 <= i < |starts| ==> items[i].id in Boxes(items, starts, unit, gap)
  {
    if starts != [] {
      BoxesKeys(items, starts[..|starts| - 1], unit, gap);
    }
  }

  /** After packing the clamped items, every item has a position. */
  lemma ClampedAllPlaced(items: seq<Item>, cols: int, starts: seq<Cell>, unit: int, gap: int)
    requires cols >= 1
    requires forall i :: 0 <= i < |items| ==> items[i].pattern.width >= 1
    requires |starts| == |items|
    ensures forall i :: 0 <= i < |items| ==> items[i].id in Boxes(ClampAll(items, cols), starts, unit, gap)
  {
    var fitted := ClampAll(items, cols);
    BoxesKeys(fitted, starts, unit, gap);
    assert forall i :: 0 <= i < |items| ==> fitted[i].id == items[i].id;
  }

  /** After packing the clamped items, an item with a unique id is found at the box of its own cell. */
  lemma ClampedLookup(items: seq<Item>, cols: int, starts: seq<Cell>, unit: int, gap: int)
    requires cols >= 1
    requires forall i :: 0 <= i < |items| ==> items[i].pattern.width >= 1
    requires forall i, j :: 0 <= i < j < |items| ==> items[i].id != items[j].id
    requires |starts| == |items|
    ensures forall i :: 0 <= i < |items| ==> items[i].id in Boxes(ClampAll(items, cols), starts, unit, gap)
    ensures forall i :: 0 <= i < |items| ==>
      Boxes(ClampAll(items, cols), starts, unit, gap)[items[i].id] == PixelBox(starts[i], Clamp(items[i], cols).pattern, unit, gap)
  {
    var fitted := ClampAll(items, cols);
    assert forall i :: 0 <= i < |items| ==> fitted[i] == Clamp(items[i], cols);
    ClampedAllPlaced(items, cols, starts, unit, gap);
    BoxesLookup(fitted, starts, unit, gap);
  }

  /** With distinct ids, the positions map holds exactly the items' ids, each bound to its own box. */
  lemma {:induction false} BoxesLookup(items: seq<Item>, starts: seq<Cell>, unit: int, gap: int)
    requires |starts| <= |items|
    requires forall i, j :: 0 <= i < j < |starts| ==> items[i].id != items[j].id
    ensures forall id :: id in Boxes(items, starts, unit, gap) <==> exists i :: 0 <= i < |starts| && items[i].id == id
    ensures forall i :: 0 <= i < |starts| ==>
      Boxes(items, starts, unit, gap)[items[i].id] == PixelBox(starts[i], items[i].pattern, unit, gap)
  {
    if starts != [] {
      var n := |starts| - 1;
      var prev := starts[..n];
      BoxesLookup(items, prev, unit, gap);
      var b := Boxes(items, starts, unit, gap);
      assert b == Boxes(items, prev, unit, gap)[items[n].id := PixelBox(starts[n], items[n].pattern, unit, gap)];
      forall id ensures id in b <==> exists i :: 0 <= i < |starts| && items[i].id == id {
        if id in Boxes(items, prev, unit, gap) {
          var i :| 0 <= i < |prev| && items[i].id == id;
        }
      }
      forall i | 0 <= i < |starts|
        ensures b[items[i].id] == PixelBox(starts[i], items[i].pattern, unit, gap)
      {
        if i < n {
          assert prev[i] == starts[i] && items[i].id != items[n].id;
        }
      }
    }
  }
}
