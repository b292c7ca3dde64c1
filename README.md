# MasonryLayout in Dafny

A model of the core of `MasonryLayout`, a browser image gallery. It fetches
images page by page and arranges them as tiles on a grid. Each tile's footprint
comes from a fixed catalog of four patterns: 2x1, 1x2, 2x2 and 1x1 cells.

The model covers:

- **the pattern catalog** set up by the constructor (`catalog.dfy`);
- **calculateLayout**, the row-major first-fit packer (`grid.dfy`, `packer.dfy`).
  Its occupancy grid is a `map<Cell, ItemId>`. Its nested fit-test and stamping
  loops and its `while (!placed)` scan are methods with loop invariants. It is
  proved against `FirstFit`, a declarative description of the placement. Each
  item sits at the first cell, scanning from the previous item's cell, where it
  is inside the columns and clear of every earlier item. The pixel boxes
  (`Boxes`) and the container height (`ContentHeight`) are functions of that
  placement;
- **fetchItems** (`batch.dfy`). The HEAD request for each image is an oracle,
  `probe: int -> Probe`. The loop is proved against `Kept`, the items of the
  slots whose probe found the image;
- **loadNextPage** (`pagination.dfy`). It is a state machine in two steps,
  because of its `await`: `Request` is the guard plus `isLoading = true`, and
  `Complete` applies the batch and then the `finally`. Traces of calls and
  completions, in any interleaving, are run by `Run`;
- **the viewport filter of layoutItems and the onScroll trigger**
  (`viewport.dfy`);
- **the `MasonryLayout` object** (`masonry.dfy`). Its four pagination fields
  are updated in place by methods, each proved to perform the corresponding
  `Pagination` transition;
- **worked layouts** (`scenarios.dfy`). These are the first page's four tiles
  in a 4-column and a 3-column container, plus a short first page.

Facts about the code that the model keeps:

- With no items, `Math.max()` of nothing is `-Infinity`, and the container's
  style height becomes the invalid value `"-Infinitypx"`. The model has no
  height in that case: `ContentHeight` is `None`.
- The column count is `Math.floor(containerWidth / (baseUnit + gap))` and is
  never raised to 1. See Findings.
- A page is short when fewer images were found. A probe that throws counts the
  same as one that answers "not found". Either way, a short page clears
  `hasMore`.
- With the default unit (200) and gap (10), 840px is the narrowest container
  with four columns; 820px gives floor(820 / 210) = 3
  (`Scenarios.FourColumnGolden`, `Scenarios.ThreeColumnGolden`).
- Slot n of page p probes image index p * pageSize + n and shows
  `/images/(index + 1).png`.

## Model

| member | source | states |
|---|---|---|
| Catalog.PatternFor | MasonryLayout.js:45 | the pattern of slot i is a catalog pattern (used round-robin), 1 or 2 cells wide and high |
| Catalog.CatalogFits | MasonryLayout.js:11-16 | every catalog pattern is non-empty and fits any grid of at least 2 columns |
| Grid.Advance | MasonryLayout.js:165-170 | the cursor step moves strictly forward in row-major order within the columns and skips no cell |
| Grid.DisjointIffNoSharedCell | MasonryLayout.js:137-145 | two non-empty footprints are separated along an axis iff no cell lies in both (both directions) |
| Grid.PixelBox | MasonryLayout.js:155-160 | the box of a pattern at a cell: left/top are the cell's coordinates times (unit + gap), width/height span the pattern's cells plus the gaps between them; its properties are stated by Grid.PixelBoxEdges and Grid.DisjointBoxesApart |
| Grid.PixelBoxEdges | MasonryLayout.js:155-160 | a box's right/bottom edge plus one gap is exactly the pixel edge of the cell just past its footprint |
| Grid.DisjointBoxesApart | MasonryLayout.js:155-160 | footprints that share no cell give pixel boxes at least one gap apart (no visual overlap) |
| Packer.Cols | MasonryLayout.js:125 | the column count is the largest c with c*(unit+gap) <= containerWidth (the floor) |
| Packer.Bottom | MasonryLayout.js:176-177 | an item's bottom edge, top + height, or 0 when it has no position; Packer.MaxBottom and Packer.ContentHeight state what is done with it |
| Packer.MaxBottom | MasonryLayout.js:175-178 | the result is an upper bound of every item's bottom edge (0 without a position) and is attained by some item |
| Packer.ContentHeight | MasonryLayout.js:175-179 | no height exactly when there are no items; otherwise the largest bottom edge plus one gap, which bounds every item |
| Packer.CheckFree | MasonryLayout.js:136-145 | the early-exit scan reports fits exactly when no cell of the footprint is occupied |
| Packer.Stamp | MasonryLayout.js:148-153 | afterwards exactly the old cells plus the footprint are occupied; the footprint holds the id, other cells keep their stamp |
| Packer.CoveredExtend | MasonryLayout.js:148-153 | after one more placement, a cell is covered iff it was covered before or is in the new footprint |
| Packer.FreeIffClear | MasonryLayout.js:136-153 | on the grid stamped so far, a footprint is free iff it is separated from every earlier item's footprint |
| Packer.FitsAfterSamePrefix | MasonryLayout.js:134-145 | whether item i fits at a cell depends only on where items 0..i-1 were placed |
| Packer.FirstFitPrefixExtend | MasonryLayout.js:130-173 | placing the next item at the first fitting cell from the cursor extends a first-fit placement |
| Packer.FindSlot | MasonryLayout.js:134-172 | the scan ends (ghost row bound) at a cell inside the columns whose footprint is free, not before the cursor, and every earlier scanned cell does not fit |
| Packer.FirstFitMinimal | MasonryLayout.js:134-171 | a cell in an item's scan range where the item fits is never before the cell it was given |
| Packer.PlaceItem | MasonryLayout.js:130-173 | one forEach step: the item goes to the first-fit cell after the cursor, the grid then holds exactly the cells of all placed footprints, and every occupied cell stays above the new row bound |
| Packer.Pack | MasonryLayout.js:127-173 | the placement is the first-fit placement of all items, and positions is the map of their pixel boxes |
| Packer.CalculateLayout | MasonryLayout.js:121-182 | as written: with every pattern fitting the floor column count, first-fit placement, pixel boxes and content height |
| Packer.NarrowContainerStalls | MasonryLayout.js:125-171 | a 400px container gives 1 column, and a 2-wide pattern fits at no cell, so the scan never ends |
| Packer.EffectiveCols | MasonryLayout.js:125 | at least one column, and equal to the floor column count whenever that is positive |
| Packer.Clamp | MasonryLayout.js:131 | the pattern is narrowed to at most cols cells, keeping the id and the height; it is unchanged when it already fits |
| Packer.CalculateLayoutClamped | MasonryLayout.js:121-182 | corrected: first-fit placement of the clamped items in at least one column; when every pattern fits, the first-fit placement of the items themselves in the source's column count |
| Packer.FirstFitNoOverlap | MasonryLayout.js:134-153 | any two placed items are separated, and with non-empty patterns they share no cell |
| Packer.FirstFitInBounds | MasonryLayout.js:135 | every footprint lies within columns [0, cols) and rows >= 0 |
| Packer.FirstFitInOrder | MasonryLayout.js:127-171 | successive items sit at strictly increasing cells in row-major order (item order is kept) |
| Packer.FirstFitUnique | MasonryLayout.js:121-173 | determinism: the same items and the same column count allow exactly one first-fit placement |
| Packer.Boxes | MasonryLayout.js:155-160 | the positions map built by the `positions.set` calls, one per placed item in item order; Packer.BoxesKeys, Packer.BoxesLookup and Packer.ClampedLookup state its keys and values |
| Packer.BoxesKeys | MasonryLayout.js:155 | every placed item's id has a position |
| Packer.ClampedAllPlaced | MasonryLayout.js:193-198 | after the corrected packing every item has a position, so layoutItems never takes the missing-position branch |
| Packer.ClampedLookup | MasonryLayout.js:155-160 | after the corrected packing, an item with a unique id has a position, and it is the box of its own cell and (narrowed) pattern |
| Packer.BoxesLookup | MasonryLayout.js:155-160 | with distinct ids, the positions map has exactly the placed ids, each bound to its own pixel box |
| Batch.ImageIndex | MasonryLayout.js:48 | the image index page * pageSize + slot; Batch.ImageIndexInjective states that no two slots share one |
| Batch.ImageIndexInjective | MasonryLayout.js:48 | for slots below pageSize, two (page, slot) pairs probe the same image index iff they are equal (both directions) |
| Batch.NewItem | MasonryLayout.js:45-60 | the item of a slot: id (page, slot), the slot's catalog pattern, pixel size pattern times base unit, image index + 1; Batch.KeptShape and Batch.KeptFromCatalog state its properties |
| Batch.Kept | MasonryLayout.js:44-67 | the items the fetchItems loop keeps from the first n slots, in slot order; Batch.FetchItems is proved equal to it and Batch.KeptShape and Batch.KeptShortIffMissing state its properties |
| Batch.FetchItems | MasonryLayout.js:41-70 | the loop returns exactly Kept: the items of the slots whose probe found the image, in slot order |
| Batch.KeptShape | MasonryLayout.js:44-60 | each kept item is its own slot's item (catalog pattern, pixel size, image number) with a found probe; slots strictly increase; every found slot is kept |
| Batch.KeptShortIffMissing | MasonryLayout.js:44-66 | a batch has at most pageSize items, and fewer exactly when some slot's probe did not find its image |
| Batch.KeptFromCatalog | MasonryLayout.js:45-47 | every kept item has a catalog pattern and a pixel size of pattern times base unit |
| Pagination.Request | MasonryLayout.js:272-277 | items, page and hasMore are unchanged; isLoading becomes set unless the source is exhausted; a guarded call changes nothing |
| Pagination.Complete | MasonryLayout.js:278-300 | isLoading is cleared; on success the page advances by one, the batch is appended and hasMore stays true only for a full batch; an error changes nothing else |
| Pagination.HasMoreNeverReturns | MasonryLayout.js:290-293 | once hasMore is false it stays false over any sequence of calls and completions |
| Pagination.ExhaustedIsFinal | MasonryLayout.js:272-275 | an exhausted, idle state is never changed by any events |
| Pagination.ItemsAppendOnly | MasonryLayout.js:286-287 | the old items stay a prefix, the page never decreases, and the items change only together with the page |
| Pagination.OneFetchInFlight | MasonryLayout.js:272-277 | fetches started plus the initial one in flight equal fetches finished plus the one in flight: never two at once |
| Pagination.SecondCallIsNoOp | MasonryLayout.js:272-277 | two calls in the same turn have the effect of one and start one fetch |
| Viewport.ShouldRender | MasonryLayout.js:193-201 | `shouldRender`: the box's top is above the buffered viewport's bottom and its bottom edge below the buffered top; Viewport.ShouldRenderIffOverlaps states what it means |
| Viewport.ShouldRenderIffOverlaps | MasonryLayout.js:189-201 | a box with height is rendered iff one of its pixel rows lies in the buffered window (both directions) |
| Viewport.PlanRender | MasonryLayout.js:193-219 | one action per item in order: skipped iff it has no position, rendered at its position iff shouldRender holds, removed otherwise |
| Viewport.ShouldLoadMore | MasonryLayout.js:304-315 | `remainingScroll < 1000`: the container's bottom is less than 1000px below the viewport's bottom; Viewport.LoadTriggerMonotone and Masonry.MasonryLayout.OnScroll use it |
| Viewport.LoadTriggerMonotone | MasonryLayout.js:303-315 | scrolling further down never turns the load trigger off |
| Masonry.OrDefault | MasonryLayout.js:3-7 | an option that is absent or 0 takes the default value, and any other value is kept |
| Masonry.KeptIsBatch | MasonryLayout.js:44-60 | every fetchItems batch for a page has catalog patterns, ids on that page and no two equal ids |
| Masonry.MasonryLayout.constructor | MasonryLayout.js:2-38 | the defaults 2000/200/10/24, the fixed catalog, the empty state, and then the first loadNextPage up to its await (isLoading set) |
| Masonry.MasonryLayout.BeginLoad | MasonryLayout.js:263-277 | starts iff not loading and not exhausted; the new state is Request of the old one |
| Masonry.MasonryLayout.CompleteLoad | MasonryLayout.js:278-300 | the new state is Complete of the old one for the batch or the error; the items keep catalog patterns and pairwise distinct ids, all on pages already fetched |
| Masonry.MasonryLayout.LoadNextPage | MasonryLayout.js:263-301 | when it starts, the new state is Complete(Request(old)) with the current page's fetchItems batch; otherwise nothing changes |
| Masonry.MasonryLayout.OnScroll | MasonryLayout.js:303-318 | calls loadNextPage exactly when less than 1000px is left below the viewport; the new state is Request of the old one or unchanged |
| Masonry.MasonryLayout.LayoutItems | MasonryLayout.js:184-220 | corrected first-fit packing (the source's when every pattern fits), content height, every item's position is the box of its own cell and pattern, and an item is rendered iff shouldRender holds for it |
| Scenarios.FirstFourInOrder | MasonryLayout.js:44-47 | the first four slots of a page carry the catalog's four patterns in catalog order |
| Scenarios.FirstThreePlaced | MasonryLayout.js:130-173 | in 3 or 4 columns, tiles 2x1, 1x2, 2x2 in that order go to (0,0), (2,0), (0,1) |
| Scenarios.FourColumnPlacement | MasonryLayout.js:130-173 | in 4 columns the catalog-order tiles go to (0,0), (2,0), (0,1), (3,1) |
| Scenarios.ThreeColumnPlacement | MasonryLayout.js:130-173 | in 3 columns the catalog-order tiles go to (0,0), (2,0), (0,1), (2,2) |
| Scenarios.FourColumnGolden | MasonryLayout.js:121-173 | an 840px container has 4 columns, and the first page's four tiles sit at (0,0), (2,0), (0,1), (3,1) |
| Scenarios.ThreeColumnGolden | MasonryLayout.js:121-173 | an 820px container has 3 columns, and the first page's four tiles sit at (0,0), (2,0), (0,1), (2,2) |
| Scenarios.FourColumnGoldenBoxes | MasonryLayout.js:155-160 | the four-column tiles' pixel boxes are 410x200 at (0,0), 200x410 at (420,0), 410x410 at (0,210), 200x200 at (630,210) |
| Scenarios.ResizeRepacks | MasonryLayout.js:121-173 | after a resize from 840px to 820px, any first-fit packing moves the last tile from (3,1) to (2,2) |
| Scenarios.TwoMissingStep | MasonryLayout.js:44-66 | on the first ten-slot page, slot n adds one item unless n is 3 or 7 |
| Scenarios.ShortFirstPage | MasonryLayout.js:41-70 | ten slots of which slots 3 and 7 (images 4.png and 8.png) are missing give eight items, for any base unit |
| Scenarios.ShortFirstLoad | MasonryLayout.js:286-299 | completing the first load with a short batch gives page 1, exactly that batch, hasMore false and isLoading false |
| Scenarios.ShortFirstPageExhausts | MasonryLayout.js:279-299 | completing the first load with the eight-item page advances to page 1 and clears hasMore |

## Left out

- Rendering: renderItem (`MasonryLayout.js:72-119`) creates and styles DOM elements. The model stops at the decision of what to render, remove or skip (`RenderAction`).
- The image modal (`MasonryLayout.js:222-261`): openModal, initializeModal and closeModal only touch the DOM.
- The network: the HEAD request of fetchItems is the `probe` oracle. The image URL is reduced to the image number.
- Event listeners, the 150 ms debounce of onResize, and destroy (`MasonryLayout.js:24-37`, `320-339`): these are timers and browser wiring. A resize is `LayoutItems` with a new container width.
- Console logging and style assignments such as `container.style.height`. `ContentHeight` is the value written there.
- Asynchronous interleaving is modelled only through `isLoading`. Between `Request` and `Complete` any events may arrive (`Run`), but the class methods run one step at a time.
- Masonry.MasonryLayout.LoadNextPage: the relayout at `MasonryLayout.js:295` is not performed inside it. Layout is the separate `LayoutItems`.
- Masonry.MasonryLayout.LoadNextPage: assumes the fetch ends with a batch. A failed load is `CompleteLoad(Failure)`.
- Grid stamps: the grid stores the item id in each cell, but only occupancy is ever read. The model stamps ids too but states only what packing reads.
- Packer.CalculateLayout: requires every pattern to fit the floor column count. Otherwise the source's scan never ends, as the finding below shows.
- Packer.Boxes: with duplicate item ids, a later item's box overwrites an earlier one, as `Map.set` does. `BoxesLookup` states the exact lookup for distinct ids; the object's items have distinct ids (`MasonryLayout.Valid`, kept by `CompleteLoad`).
- Masonry.MasonryLayout.CompleteLoad: requires a successful batch to have the shape fetchItems gives for the current page (`BatchOf`, proved of every fetchItems result by `KeptIsBatch`).
- Numbers are unbounded integers. Floating-point widths (`Math.round` of pattern size times a fractional base unit) are not modelled.
- Options are modelled as integers. Non-numeric or negative option values are not.

## Findings

| source | as written | input that shows it | evidently intended | confidence | as-written member | corrected member |
|---|---|---|---|---|---|---|
| MasonryLayout.js:125-171 | the column count is not clamped, and the `while (!placed)` scan retries forever when a pattern is wider than the grid | containerWidth = 400 with the default unit 200 and gap 10 gives cols = 1, and the first tile is 2x1, so no cell fits and layout hangs (below 210px, cols = 0 hangs for every tile) | at least one column, with each pattern narrowed to the grid so every item gets a cell | not executed | Packer.NarrowContainerStalls | Packer.CalculateLayoutClamped |
