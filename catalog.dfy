/**
 * The tiles the layout arranges: the fixed pattern catalog set up by the
 * MasonryLayout constructor and the item records built by fetchItems.
 */
module Catalog {
  /** A tile footprint, in grid cells (multiples of the base unit). */
  datatype Pattern = Pattern(width: int, height: int)

  /** The item id `${page}-${slot}`: the page it was fetched on and its slot within that page. */
  datatype ItemId = ItemId(page: nat, slot: nat)

  /**
   * One tile. `width` and `height` are pixels, `image` is the number n of the
   * image `/images/n.png` the tile shows.
   */
  datatype Item = Item(id: ItemId, width: int, height: int, pattern: Pattern, image: int)

  /** Horizontal rectangle, vertical rectangle, large square, small square. */
  const Patterns: seq<Pattern> := [Pattern(2, 1), Pattern(1, 2), Pattern(2, 2), Pattern(1, 1)]

  /** The pattern of slot `slot` of a page: the catalog is used round-robin. */
  function PatternFor(slot: nat): (p: Pattern)
    ensures p in Patterns
    ensures 1 <= p.width <= 2 && 1 <= p.height <= 2
  {
    Patterns[slot % |Patterns|]
  }

  /** Every catalog pattern is non-empty and at most two cells wide. */
  lemma CatalogFits(cols: int)
    requires cols >= 2
    ensures forall p :: p in Patterns ==> 1 <= p.width <= cols && 1 <= p.height
  {
  }
}
