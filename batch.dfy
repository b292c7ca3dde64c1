/**
 * fetchItems: one page of `pageSize` candidate slots, each probed for an
 * existing image; the slots whose probe succeeds become items, in slot order.
 */
module Batch {
  import opened Catalog

  /** What the HEAD request for one image gives: an ok response, a non-ok response, or a thrown error. */
  datatype Probe = Found | NotOk | Error

  /** The zero-based image index probed for slot `slot` of page `page`. */
  function ImageIndex(page: nat, pageSize: int, slot: nat): int {
    page * pageSize + slot
  }

  /** Different slots, of the same page or of different pages, probe different images. */
  lemma ImageIndexInjective(p1: nat, s1: nat, p2: nat, s2: nat, pageSize: int)
    requires s1 < pageSize && s2 < pageSize
    ensures ImageIndex(p1, pageSize, s1) == ImageIndex(p2, pageSize, s2) <==> p1 == p2 && s1 == s2
  {
    if p1 < p2 {
      PageStartsAfter(p1, p2, pageSize);
    } else if p2 < p1 {
      PageStartsAfter(p2, p1, pageSize);
    }
  }

  /** A later page's first image index lies past every slot of an earlier page. */
  lemma {:induction false} PageStartsAfter(a: nat, b: nat, pageSize: int)
    requires a < b && pageSize > 0
    ensures a * pageSize + pageSize <= b * pageSize
    decreases b - a
  {
    if a + 1 < b {
      PageStartsAfter(a + 1, b, pageSize);
    }
    assert (a + 1) * pageSize == a * pageSize + pageSize;
  }

  /** The item built for slot `slot` of page `page`: its pattern comes from the slot within the page. */
  function NewItem(page: nat, slot: nat, pageSize: int, unit: int): Item {
    var p := PatternFor(slot);
    Item(ItemId(page, slot), p.width * unit, p.height * unit, p, ImageIndex(page, pageSize, slot) + 1)
  }

  /** The items kept from the first `n` slots of the page, in slot order. */
  function Kept(page: nat, pageSize: int, unit: int, probe: int -> Probe, n: int): seq<Item>
    decreases n
  {
    if n <= 0 then []
    else
      var slot := n - 1;
      Kept(page, pageSize, unit, probe, n - 1) +
        (if probe(ImageIndex(page, pageSize, slot)) == Found then [NewItem(page, slot, pageSize, unit)] else [])
  }

  /**
   * The loop of fetchItems, with the HEAD request replaced by `probe`: a slot
   * is kept only on an ok response; a non-ok response or an error skips it.
   */
  method FetchItems(page: nat, pageSize: int, unit: int, probe: int -> Probe) returns (items: seq<Item>)
    ensures items == Kept(page, pageSize, unit, probe, pageSize)
  {
    items := [];
    var i := 0;
    while i < pageSize
      invariant 0 <= i && (i <= pageSize || i == 0)
      invariant items == Kept(page, pageSize, unit, probe, i)
    {
      var response := probe(ImageIndex(page, pageSize, i));
      if response == Found {
        items := items + [NewItem(page, i, pageSize, unit)];
      }
      i := i + 1;
    }
  }

  /**
   * Every kept item is the item of its own slot, that slot's probe found the
   * image, the slots strictly increase, and every found slot is kept.
   */
  lemma {:induction false} KeptShape(page: nat, pageSize: int, unit: int, probe: int -> Probe, n: int)
    ensures forall k :: 0 <= k < |Kept(page, pageSize, unit, probe, n)| ==>
      var it := Kept(page, pageSize, unit, probe, n)[k];
      it.id.slot < n && it == NewItem(page, it.id.slot, pageSize, unit) &&
      probe(ImageIndex(page, pageSize, it.id.slot)) == Found
    ensures forall k, l :: 0 <= k < l < |Kept(page, pageSize, unit, probe, n)| ==>
      Kept(page, pageSize, unit, probe, n)[k].id.slot < Kept(page, pageSize, unit, probe, n)[l].id.slot
    ensures forall slot: nat :: slot < n && probe(ImageIndex(page, pageSize, slot)) == Found ==>
      exists k :: 0 <= k < |Kept(page, pageSize, unit, probe, n)| && Kept(page, pageSize, unit, probe, n)[k].id.slot == slot
  {
    if n > 0 {
      KeptShape(page, pageSize, unit, probe, n - 1);
      var prev := Kept(page, pageSize, unit, probe, n - 1);
      var items := Kept(page, pageSize, unit, probe, n);
      if probe(ImageIndex(page, pageSize, n - 1)) == Found {
        assert items == prev + [NewItem(page, n - 1, pageSize, unit)];
        assert items[|prev|].id.slot == n - 1;
        forall k | 0 <= k < |items|
          ensures items[k].id.slot < n && items[k] == NewItem(page, items[k].id.slot, pageSize, unit)
          ensures probe(ImageIndex(page, pageSize, items[k].id.slot)) == Found
        {
          if k < |prev| {
            assert items[k] == prev[k];
          }
        }
        forall k, l | 0 <= k < l < |items| ensures items[k].id.slot < items[l].id.slot {
          assert items[k] == prev[k] && prev[k].id.slot < n - 1;
          if l < |prev| {
            assert items[l] == prev[l];
          }
        }
        forall slot: nat | slot < n && probe(ImageIndex(page, pageSize, slot)) == Found
          ensures exists k :: 0 <= k < |items| && items[k].id.slot == slot
        {
          if slot < n - 1 {
            var k :| 0 <= k < |prev| && prev[k].id.slot == slot;
            assert items[k] == prev[k];
          } else {
            assert items[|prev|].id.slot == slot;
          }
        }
      } else {
        assert items == prev;
      }
    }
  }

  /**
   * A page comes back short, fewer items than `pageSize`, exactly when some
   * slot's probe did not find its image; it never has more.
   */
  lemma {:induction false} KeptShortIffMissing(page: nat, pageSize: int, unit: int, probe: int -> Probe, n: int)
    requires 0 <= n
    ensures |Kept(page, pageSize, unit, probe, n)| <= n
    ensures |Kept(page, pageSize, unit, probe, n)| < n <==>
      exists slot: nat :: slot < n && probe(ImageIndex(page, pageSize, slot)) != Found
  {
    if n > 0 {
      KeptShortIffMissing(page, pageSize, unit, probe, n - 1);
      if probe(ImageIndex(page, pageSize, n - 1)) != Found {
        var last: nat := n - 1;
        assert last < n && probe(ImageIndex(page, pageSize, last)) != Found;
      } else {
        if exists slot: nat :: slot < n && probe(ImageIndex(page, pageSize, slot)) != Found {
          var slot: nat :| slot < n && probe(ImageIndex(page, pageSize, slot)) != Found;
          assert slot < n - 1;
        }
      }
    }
  }

  /** Every kept item has a catalog pattern, scaled to pixels by the base unit. */
  lemma {:induction false} KeptFromCatalog(page: nat, pageSize: int, unit: int, probe: int -> Probe, n: int)
    ensures forall it :: it in Kept(page, pageSize, unit, probe, n) ==>
      it.pattern in Patterns && it.width == it.pattern.width * unit && it.height == it.pattern.height * unit
  {
    if n > 0 {
      KeptFromCatalog(page, pageSize, unit, probe, n - 1);
    }
  }
}
