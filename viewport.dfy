/**
 * The viewport filter of layoutItems and the load trigger of onScroll: pure
 * comparisons of pixel positions against the scroll offset.
 */
module Viewport {
  import opened Catalog
  import opened Grid

  /** onScroll loads the next page once less than this many pixels are left below the viewport. */
  const LoadThreshold: int := 1000

  /**
   * layoutItems' `shouldRender`: the box starts above the buffered viewport's
   * bottom and ends below its top.
   */
  predicate ShouldRender(pos: Position, scrollY: int, innerHeight: int, buffer: int) {
    pos.top < scrollY + innerHeight + buffer && pos.top + pos.height > scrollY - buffer
  }

  /** Pixel row `py` is one of the box's rows [top, top + height). */
  predicate CoversRow(pos: Position, py: int) {
    pos.top <= py < pos.top + pos.height
  }

  /** Pixel row `py` lies in the buffered window [scrollY - buffer, scrollY + innerHeight + buffer). */
  predicate InWindow(py: int, scrollY: int, innerHeight: int, buffer: int) {
    scrollY - buffer <= py < scrollY + innerHeight + buffer
  }

  /**
   * A box with some height is rendered exactly when its rows
   * [top, top + height) meet the buffered window
   * [scrollY - buffer, scrollY + innerHeight + buffer).
   */
  lemma ShouldRenderIffOverlaps(pos: Position, scrollY: int, innerHeight: int, buffer: int)
    requires pos.height > 0 && innerHeight + 2 * buffer > 0
    ensures ShouldRender(pos, scrollY, innerHeight, buffer) <==>
      exists py {:trigger CoversRow(pos, py)} :: CoversRow(pos, py) && InWindow(py, scrollY, innerHeight, buffer)
  {
    if ShouldRender(pos, scrollY, innerHeight, buffer) {
      var py := if pos.top < scrollY - buffer then scrollY - buffer else pos.top;
      assert CoversRow(pos, py) && InWindow(py, scrollY, innerHeight, buffer);
    }
  }

  /** What layoutItems does with one item. */
  datatype RenderAction =
    | Skip(id: ItemId)                   // no position was computed: warn and move on
    | Render(id: ItemId, pos: Position)  // create or reposition its element
    | Remove(id: ItemId)                 // remove its element, if there is one

  /** The render loop of layoutItems: one action per item, in item order. */
  method PlanRender(items: seq<Item>, positions: map<ItemId, Position>, scrollY: int, innerHeight: int, buffer: int)
    returns (actions: seq<RenderAction>)
    ensures |actions| == |items|
    ensures forall i :: 0 <= i < |items| ==> actions[i].id == items[i].id
    ensures forall i :: 0 <= i < |items| ==> (actions[i].Skip? <==> items[i].id !in positions)
    ensures forall i :: 0 <= i < |items| ==>
      (actions[i].Render? <==> items[i].id in positions && ShouldRender(positions[items[i].id], scrollY, innerHeight, buffer))
    ensures forall i :: 0 <= i < |items| && actions[i].Render? ==> actions[i].pos == positions[items[i].id]
  {
    actions := [];
    var i := 0;
    while i < |items|
      invariant 0 <= i <= |items| && |actions| == i
      invariant forall k :: 0 <= k < i ==> actions[k].id == items[k].id
      invariant forall k :: 0 <= k < i ==> (actions[k].Skip? <==> items[k].id !in positions)
      invariant forall k :: 0 <= k < i ==>
        (actions[k].Render? <==> items[k].id in positions && ShouldRender(positions[items[k].id], scrollY, innerHeight, buffer))
      invariant forall k :: 0 <= k < i && actions[k].Render? ==> actions[k].pos == positions[items[k].id]
    {
      var item := items[i];
      if item.id !in positions {
        actions := actions + [Skip(item.id)];
      } else {
        var position := positions[item.id];
        if ShouldRender(position, scrollY, innerHeight, buffer) {
          actions := actions + [Render(item.id, position)];
        } else {
          actions := actions + [Remove(item.id)];
        }
      }
      i := i + 1;
    }
  }

  /** onScroll's test: the container's bottom is less than the threshold below the viewport's bottom. */
  predicate ShouldLoadMore(scrollY: int, innerHeight: int, containerBottom: int) {
    containerBottom - (scrollY + innerHeight) < LoadThreshold
  }

  /** Scrolling further down never turns the trigger off. */
  lemma LoadTriggerMonotone(y1: int, y2: int, innerHeight: int, containerBottom: int)
    requires y1 <= y2
    ensures ShouldLoadMore(y1, innerHeight, containerBottom) ==> ShouldLoadMore(y2, innerHeight, containerBottom)
  {
  }
}
