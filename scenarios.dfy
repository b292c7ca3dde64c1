/**
 * Worked layouts: the first four slots of page 0 (the catalog patterns in
 * order) with the default base unit (200) and gap (10), in a four-column and
 * in a three-column container.
 */
module Scenarios {
  import opened Catalog
  import opened Grid
  import opened Packer
  import opened Batch
  import opened Pagination

  function FirstFour(): seq<Item> {
    [NewItem(0, 0, 24, 200), NewItem(0, 1, 24, 200), NewItem(0, 2, 24, 200), NewItem(0, 3, 24, 200)]
  }

  /** Four items whose patterns are the catalog's, in catalog order. */
  predicate CatalogOrder(items: seq<Item>) {
    |items| == 4 && items[0].pattern == Pattern(2, 1) && items[1].pattern == Pattern(1, 2) &&
    items[2].pattern == Pattern(2, 2) && items[3].pattern == Pattern(1, 1)
  }

  /** The first four slots of a page take the catalog's patterns in order. */
  lemma FirstFourInOrder()
    ensures CatalogOrder(FirstFour())
  {
  }

  /**
   * In three or four columns the first three tiles go to (0, 0), (2, 0) and
   * (0, 1): the 2x2 tile does not fit beside the 1x2 tile in row 0.
   */
  lemma FirstThreePlaced(items: seq<Item>, cols: int)
    requires CatalogOrder(items)
    requires cols == 3 || cols == 4
    ensures FirstFitPrefix(items, [Cell(0, 0), Cell(2, 0), Cell(0, 1)], cols)
  {
    var s0: seq<Cell> := [];
    FirstFitPrefixExtend(items, s0, Cell(0, 0), cols);
    var s1 := s0 + [Cell(0, 0)];
    forall c: Cell | 0 <= c.x < cols && !Before(c, Cell(0, 0)) && Before(c, Cell(2, 0))
      ensures !FitsAfter(items, s1, 1, c, cols)
    {
      assert !Disjoint(s1[0], items[0].pattern, c, items[1].pattern);
    }
    FirstFitPrefixExtend(items, s1, Cell(2, 0), cols);
    var s2 := s1 + [Cell(2, 0)];
    forall c: Cell | 0 <= c.x < cols && !Before(c, Cell(2, 0)) && Before(c, Cell(0, 1))
      ensures !FitsAfter(items, s2, 2, c, cols)
    {
      if c.x == 2 {
        assert !Disjoint(s2[1], items[1].pattern, c, items[2].pattern);
      }
    }
    FirstFitPrefixExtend(items, s2, Cell(0, 1), cols);
    assert s2 + [Cell(0, 1)] == [Cell(0, 0), Cell(2, 0), Cell(0, 1)];
  }

  /** In four columns the 1x1 tile fills the last column of row 1. */
  lemma FourColumnPlacement(items: seq<Item>)
    requires CatalogOrder(items)
    ensures FirstFit(items, [Cell(0, 0), Cell(2, 0), Cell(0, 1), Cell(3, 1)], 4)
  {
    FirstThreePlaced(items, 4);
    var s3 := [Cell(0, 0), Cell(2, 0), Cell(0, 1)];
    forall c: Cell | 0 <= c.x < 4 && !Before(c, Cell(0, 1)) && Before(c, Cell(3, 1))
      ensures !FitsAfter(items, s3, 3, c, 4)
    {
      if c.x < 2 {
        assert !Disjoint(s3[2], items[2].pattern, c, items[3].pattern);
      } else {
        assert !Disjoint(s3[1], items[1].pattern, c, items[3].pattern);
      }
    }
    FirstFitPrefixExtend(items, s3, Cell(3, 1), 4);
    assert s3 + [Cell(3, 1)] == [Cell(0, 0), Cell(2, 0), Cell(0, 1), Cell(3, 1)];
  }

  /** In three columns row 1 is full, and the 1x1 tile goes to (2, 2). */
  lemma ThreeColumnPlacement(items: seq<Item>)
    requires CatalogOrder(items)
    ensures FirstFit(items, [Cell(0, 0), Cell(2, 0), Cell(0, 1), Cell(2, 2)], 3)
  {
    FirstThreePlaced(items, 3);
    var s3 := [Cell(0, 0), Cell(2, 0), Cell(0, 1)];
    forall c: Cell | 0 <= c.x < 3 && !Before(c, Cell(0, 1)) && Before(c, Cell(2, 2))
      ensures !FitsAfter(items, s3, 3, c, 3)
    {
      if c.x == 2 {
        assert !Disjoint(s3[1], items[1].pattern, c, items[3].pattern);
      } else {
        assert !Disjoint(s3[2], items[2].pattern, c, items[3].pattern);
      }
    }
    FirstFitPrefixExtend(items, s3, Cell(2, 2), 3);
    assert s3 + [Cell(2, 2)] == [Cell(0, 0), Cell(2, 0), Cell(0, 1), Cell(2, 2)];
  }

  /**
   * 840px holds four columns. The 2x1 tile takes the origin, the 1x2 tile the
   * next free cell of row 0, the 2x2 tile wraps to row 1, and the 1x1 tile
   * fills the last column of row 1. By FirstFitUnique this is the only
   * first-fit packing.
   */
  lemma FourColumnGolden()
    ensures Cols(840, 200, 10) == 4
    ensures FirstFit(FirstFour(), [Cell(0, 0), Cell(2, 0), Cell(0, 1), Cell(3, 1)], 4)
  {
    FirstFourInOrder();
    FourColumnPlacement(FirstFour());
  }

  /**
   * 820px holds only three columns (floor(820 / 210) = 3); after the resize
   * the same items repack and the 1x1 tile moves from (3, 1) to (2, 2).
   */
  lemma ThreeColumnGolden()
    ensures Cols(820, 200, 10) == 3
    ensures FirstFit(FirstFour(), [Cell(0, 0), Cell(2, 0), Cell(0, 1), Cell(2, 2)], 3)
  {
    FirstFourInOrder();
    ThreeColumnPlacement(FirstFour());
  }

  /** The pixel boxes of the four-column layout. */
  lemma FourColumnGoldenBoxes()
    ensures PixelBox(Cell(0, 0), Pattern(2, 1), 200, 10) == Position(0, 0, 410, 200)
    ensures PixelBox(Cell(2, 0), Pattern(1, 2), 200, 10) == Position(420, 0, 200, 410)
    ensures PixelBox(Cell(0, 1), Pattern(2, 2), 200, 10) == Position(0, 210, 410, 410)
    ensures PixelBox(Cell(3, 1), Pattern(1, 1), 200, 10) == Position(630, 210, 200, 200)
  {
  }

  /**
   * A resize from 840px to 820px re-derives the column count and repacks from
   * scratch: whatever first-fit packing each width has, the last tile lands in
   * a different cell.
   */
  lemma ResizeRepacks(s4: seq<Cell>, s3: seq<Cell>)
    requires FirstFit(FirstFour(), s4, Cols(840, 200, 10))
    requires FirstFit(FirstFour(), s3, Cols(820, 200, 10))
    ensures s4[3] == Cell(3, 1) && s3[3] == Cell(2, 2)
  {
    FourColumnGolden();
    ThreeColumnGolden();
    FirstFitUnique(FirstFour(), s4, [Cell(0, 0), Cell(2, 0), Cell(0, 1), Cell(3, 1)], 4);
    FirstFitUnique(FirstFour(), s3, [Cell(0, 0), Cell(2, 0), Cell(0, 1), Cell(2, 2)], 3);
  }

  /**
   * The probe of a ten-slot first page on which slots 3 and 7 find nothing:
   * images 4.png and 8.png (slot n shows image n + 1) are missing.
   */
  function TwoMissing(index: int): Probe {
    if index == 3 || index == 7 then NotOk else Found
  }

  /** Slot n of the first page adds one item unless n is 3 or 7. */
  lemma TwoMissingStep(unit: int, n: nat)
    requires n < 10
    ensures |Kept(0, 10, unit, TwoMissing, n + 1)| ==
      |Kept(0, 10, unit, TwoMissing, n)| + (if n == 3 || n == 7 then 0 else 1)
  {
    assert ImageIndex(0, 10, n) == n;
  }

  /** Ten slots of which slots 3 and 7 (images 4.png and 8.png) are missing give eight items. */
  lemma ShortFirstPage(unit: int)
    ensures |Kept(0, 10, unit, TwoMissing, 10)| == 8
  {
    var n := 0;
    while n < 10
      invariant 0 <= n <= 10
      invariant |Kept(0, 10, unit, TwoMissing, n)| == n - (if n > 7 then 2 else if n > 3 then 1 else 0)
    {
      TwoMissingStep(unit, n);
      n := n + 1;
    }
  }

  /** The first load completed with a short batch: page 1, just that batch, exhausted. */
  lemma ShortFirstLoad(batch: seq<Item>, pageSize: int)
    requires |batch| < pageSize
    ensures Complete(Request(Initial), pageSize, Success(batch)) == PageState(batch, 1, false, false)
  {
    assert [] + batch == batch;
  }

  /**
   * Completing the first load with the eight-item page advances to page 1,
   * keeps its items and marks the source exhausted.
   */
  lemma ShortFirstPageExhausts(unit: int)
    ensures var batch := Kept(0, 10, unit, TwoMissing, 10);
      Complete(Request(Initial), 10, Success(batch)) == PageState(batch, 1, false, false)
  {
    ShortFirstPage(unit);
    ShortFirstLoad(Kept(0, 10, unit, TwoMissing, 10), 10);
  }
}
