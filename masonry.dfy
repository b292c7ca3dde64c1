/**
 * The MasonryLayout object: its configuration, the pattern catalog, and the
 * four fields loadNextPage updates in place (items, currentPage, isLoading,
 * hasMore). Each method is proved against the pagination transitions, the
 * fetch specification and the layout specification.
 */
module Masonry {
  import opened Wrappers
  import opened Catalog
  import opened Grid
  import opened Packer
  import opened Batch
  import opened Pagination
  import opened Viewport

  /** Constructor options; an absent option, or 0, takes the default (`options.x || default`). */
  datatype Options = Options(virtualizeBuffer: Option<int>, baseUnit: Option<int>, gap: Option<int>, pageSize: Option<int>)

  function OrDefault(v: Option<int>, default: int): (r: int)
    ensures v.Some? && v.value != 0 ==> r == v.value
    ensures v.None? || v.value == 0 ==> r == default
  {
    if v.Some? && v.value != 0 then v.value else default
  }

  /**
   * What fetchItems returns for page `page`: items built from the catalog, all
   * with ids on that page, no two with the same id.
   */
  predicate BatchOf(batch: seq<Item>, page: nat) {
    (forall k :: 0 <= k < |batch| ==> batch[k].pattern in Patterns && batch[k].id.page == page) &&
    forall k, l :: 0 <= k < l < |batch| ==> batch[k].id != batch[l].id
  }

  /** Every batch fetchItems returns for the current page has that shape. */
  lemma KeptIsBatch(page: nat, pageSize: int, unit: int, probe: int -> Probe)
    ensures BatchOf(Kept(page, pageSize, unit, probe, pageSize), page)
  {
    var batch := Kept(page, pageSize, unit, probe, pageSize);
    KeptShape(page, pageSize, unit, probe, pageSize);
    KeptFromCatalog(page, pageSize, unit, probe, pageSize);
    forall k | 0 <= k < |batch| ensures batch[k].pattern in Patterns && batch[k].id.page == page {
      assert batch[k] in batch;
      assert batch[k] == NewItem(page, batch[k].id.slot, pageSize, unit);
    }
    forall k, l | 0 <= k < l < |batch| ensures batch[k].id != batch[l].id {
      assert batch[k].id.slot < batch[l].id.slot;
    }
  }

  class MasonryLayout {
    const virtualizeBuffer: int
    const baseUnit: int
    const gap: int
    const pageSize: int
    const patterns: seq<Pattern>

    var items: seq<Item>
    var currentPage: nat
    var isLoading: bool
    var hasMore: bool

    /**
     * The catalog is the fixed one, every item was built from it, and the item
     * ids `${page}-${slot}` are pairwise distinct and name pages already fetched.
     */
    ghost predicate Valid()
      reads this
    {
      patterns == Patterns &&
      (forall i :: 0 <= i < |items| ==> items[i].pattern in Patterns && items[i].id.page < currentPage) &&
      forall i, j :: 0 <= i < j < |items| ==> items[i].id != items[j].id
    }

    /** The pagination fields as one value. */
    function State(): PageState
      reads this
    {
      PageState(items, currentPage, isLoading, hasMore)
    }

    /**
     * The constructor sets the options and the empty state, then init() calls
     * loadNextPage, which runs up to its await: the first page is in flight.
     */
    constructor (options: Options)
      ensures virtualizeBuffer == OrDefault(options.virtualizeBuffer, 2000)
      ensures baseUnit == OrDefault(options.baseUnit, 200)
      ensures gap == OrDefault(options.gap, 10)
      ensures pageSize == OrDefault(options.pageSize, 24)
      ensures Valid()
      ensures State() == Request(Initial)
    {
      virtualizeBuffer := OrDefault(options.virtualizeBuffer, 2000);
      baseUnit := OrDefault(options.baseUnit, 200);
      gap := OrDefault(options.gap, 10);
      pageSize := OrDefault(options.pageSize, 24);
      patterns := Patterns;
      items := [];
      currentPage := 0;
      isLoading := false;
      hasMore := true;
      new;
      var _ := BeginLoad();
    }

    /** loadNextPage up to its await: a call while loading or after exhaustion changes nothing. */
    method BeginLoad() returns (started: bool)
      requires Valid()
      modifies this
      ensures Valid()
      ensures started == Starts(old(State()))
      ensures State() == Request(old(State()))
    {
      if isLoading || !hasMore {
        return false;
      }
      isLoading := true;
      started := true;
    }

    /** loadNextPage after its await, with the `finally` that always clears isLoading. */
    method CompleteLoad(outcome: Outcome)
      requires Valid() && isLoading
      requires outcome.Success? ==> BatchOf(outcome.batch, currentPage)
      modifies this
      ensures Valid()
      ensures State() == Complete(old(State()), pageSize, outcome)
    {
      match outcome {
        case Success(newItems) =>
          ghost var old_items := items;
          assert forall i :: 0 <= i < |old_items| ==> old_items[i].id.page < currentPage;
          currentPage := currentPage + 1;
          items := items + newItems;
          if |newItems| < pageSize {
            hasMore := false;
          }
        case Failure =>
      }
      isLoading := false;
    }

    /**
     * A whole loadNextPage whose fetch completes: when it starts, the batch is
     * the current page's fetchItems result under `probe`.
     */
    method LoadNextPage(probe: int -> Probe) returns (started: bool)
      requires Valid()
      modifies this
      ensures Valid()
      ensures started == Starts(old(State()))
      ensures State() ==
        if started then Complete(Request(old(State())), pageSize, Success(Kept(old(currentPage), pageSize, baseUnit, probe, pageSize)))
        else old(State())
    {
      started := BeginLoad();
      if started {
        var newItems := FetchItems(currentPage, pageSize, baseUnit, probe);
        KeptIsBatch(currentPage, pageSize, baseUnit, probe);
        CompleteLoad(Success(newItems));
      }
    }

    /** onScroll: near the bottom of the container, a call of loadNextPage (up to its await). */
    method OnScroll(scrollY: int, innerHeight: int, containerBottom: int) returns (started: bool)
      requires Valid()
      modifies this
      ensures Valid()
      ensures started == (ShouldLoadMore(scrollY, innerHeight, containerBottom) && Starts(old(State())))
      ensures State() == if ShouldLoadMore(scrollY, innerHeight, containerBottom) then Request(old(State())) else old(State())
    {
      started := false;
      if containerBottom - (scrollY + innerHeight) < LoadThreshold {
        started := BeginLoad();
      }
    }

    /**
     * layoutItems: pack all items (with the narrow-container stall removed),
     * then decide for each item whether it is rendered in the buffered viewport.
     */
    method LayoutItems(containerWidth: int, scrollY: int, innerHeight: int)
      returns (starts: seq<Cell>, positions: map<ItemId, Position>, contentHeight: Option<int>, actions: seq<RenderAction>)
      requires Valid() && baseUnit + gap > 0
      ensures var cols := EffectiveCols(containerWidth, baseUnit, gap);
        FirstFit(ClampAll(items, cols), starts, cols) && positions == Boxes(ClampAll(items, cols), starts, baseUnit, gap)
      ensures PatternsFit(items, Cols(containerWidth, baseUnit, gap)) ==> FirstFit(items, starts, Cols(containerWidth, baseUnit, gap))
      ensures contentHeight == ContentHeight(items, positions, gap)
      ensures |actions| == |items|
      ensures forall i :: 0 <= i < |items| ==> items[i].id in positions
      ensures forall i :: 0 <= i < |items| ==> actions[i].id == items[i].id && !actions[i].Skip?
      ensures forall i :: 0 <= i < |items| ==>
        positions[items[i].id] == PixelBox(starts[i], Clamp(items[i], EffectiveCols(containerWidth, baseUnit, gap)).pattern, baseUnit, gap)
      ensures forall i :: 0 <= i < |items| ==>
        (actions[i].Render? <==> ShouldRender(positions[items[i].id], scrollY, innerHeight, virtualizeBuffer))
    {
      CatalogFits(2);
      positions, starts, contentHeight := CalculateLayoutClamped(items, containerWidth, baseUnit, gap);
      ClampedLookup(items, EffectiveCols(containerWidth, baseUnit, gap), starts, baseUnit, gap);
      actions := PlanRender(items, positions, scrollY, innerHeight, virtualizeBuffer);
    }
  }
}
