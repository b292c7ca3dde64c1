/**
 * Grid cells, the row-major scan order of the packer's cursor, pattern
 * footprints and the pixel boxes calculateLayout records.
 */
module Grid {
  import opened Catalog

  /** A grid cell: column `x`, row `y`. */
  datatype Cell = Cell(x: int, y: int)

  /** A pixel box, as stored in the positions map. */
  datatype Position = Position(left: int, top: int, width: int, height: int)

  /** `a` is scanned strictly before `b` in row-major order. */
  predicate Before(a: Cell, b: Cell) {
    a.y < b.y || (a.y == b.y && a.x < b.x)
  }

  /** One step of the scan cursor: next column, wrapping to column 0 of the next row at `cols`. */
  function Advance(c: Cell, cols: int): (n: Cell)
    requires 0 <= c.x < cols
    ensures 0 <= n.x < cols && Before(c, n)
    ensures forall d: Cell :: 0 <= d.x < cols && Before(d, n) ==> Before(d, c) || d == c
  {
    if c.x + 1 >= cols then Cell(0, c.y + 1) else Cell(c.x + 1, c.y)
  }

  /** Cell `c` lies in the footprint of pattern `p` placed with its top-left cell at `at`. */
  predicate InFootprint(c: Cell, at: Cell, p: Pattern) {
    at.x <= c.x < at.x + p.width && at.y <= c.y < at.y + p.height
  }

  /** The footprints of `p` at `a` and of `q` at `b` are separated along some axis. */
  predicate Disjoint(a: Cell, p: Pattern, b: Cell, q: Pattern) {
    a.x + p.width <= b.x || b.x + q.width <= a.x || a.y + p.height <= b.y || b.y + q.height <= a.y
  }

  /** For non-empty patterns, being separated is the same as sharing no cell. */
  lemma DisjointIffNoSharedCell(a: Cell, p: Pattern, b: Cell, q: Pattern)
    requires p.width >= 1 && p.height >= 1 && q.width >= 1 && q.height >= 1
    ensures Disjoint(a, p, b, q) <==> forall c: Cell :: !(InFootprint(c, a, p) && InFootprint(c, b, q))
  {
    if !Disjoint(a, p, b, q) {
      var c := Cell(if a.x < b.x then b.x else a.x, if a.y < b.y then b.y else a.y);
      assert InFootprint(c, a, p) && InFootprint(c, b, q);
    }
  }

  /** The pixel box of pattern `p` at cell `at`: cells are `unit` wide, with `gap` between them. */
  function PixelBox(at: Cell, p: Pattern, unit: int, gap: int): Position {
    Position(at.x * (unit + gap), at.y * (unit + gap),
             p.width * unit + (p.width - 1) * gap, p.height * unit + (p.height - 1) * gap)
  }

  lemma MulMonotone(a: int, b: int, k: int)
    requires a <= b && k >= 0
    ensures a * k <= b * k
  {
  }

  /**
   * A box starts on the left/top edge of its first cell and ends exactly one
   * gap short of the edge of the cell just past its footprint.
   */
  lemma PixelBoxEdges(at: Cell, p: Pattern, unit: int, gap: int)
    ensures var box := PixelBox(at, p, unit, gap);
      box.left + box.width + gap == (at.x + p.width) * (unit + gap) &&
      box.top + box.height + gap == (at.y + p.height) * (unit + gap)
  {
    var box := PixelBox(at, p, unit, gap);
    calc {
      box.left + box.width + gap;
      at.x * (unit + gap) + p.width * unit + (p.width - 1) * gap + gap;
      at.x * (unit + gap) + p.width * (unit + gap);
      (at.x + p.width) * (unit + gap);
    }
    calc {
      box.top + box.height + gap;
      at.y * (unit + gap) + p.height * unit + (p.height - 1) * gap + gap;
      at.y * (unit + gap) + p.height * (unit + gap);
      (at.y + p.height) * (unit + gap);
    }
  }

  /** Boxes `b1` and `b2` are at least `gap` pixels apart horizontally or vertically. */
  predicate PixelApart(b1: Position, b2: Position, gap: int) {
    b1.left + b1.width + gap <= b2.left || b2.left + b2.width + gap <= b1.left ||
    b1.top + b1.height + gap <= b2.top || b2.top + b2.height + gap <= b1.top
  }

  /** Footprints that share no cell give pixel boxes that do not overlap, with at least a gap between them. */
  lemma DisjointBoxesApart(a: Cell, p: Pattern, b: Cell, q: Pattern, unit: int, gap: int)
    requires unit + gap > 0
    requires Disjoint(a, p, b, q)
    ensures PixelApart(PixelBox(a, p, unit, gap), PixelBox(b, q, unit, gap), gap)
  {
    PixelBoxEdges(a, p, unit, gap);
    PixelBoxEdges(b, q, unit, gap);
    if a.x + p.width <= b.x {
      MulMonotone(a.x + p.width, b.x, unit + gap);
    } else if b.x + q.width <= a.x {
      MulMonotone(b.x + q.width, a.x, unit + gap);
    } else if a.y + p.height <= b.y {
      MulMonotone(a.y + p.height, b.y, unit + gap);
    } else {
      MulMonotone(b.y + q.height, a.y, unit + gap);
    }
  }
}
