/**
 * The arithmetic of MrCore's inventory GUIs: builders that collect elements by
 * slot, the page slots of a multi-page GUI, the page a player is shown, and the
 * click classification.
 *
 * An element stands for the item it shows (GUIElement.getItem is a callback and
 * is not part of this model), so an inventory is a map from slot to element.
 * Java `int` values are Int32; the elements a supplier produces are a parameter.
 */
module GUI {
  import opened Wrappers

  type Int32 = x: int | -0x8000_0000 <= x < 0x8000_0000

  const MaxInt32: Int32 := 0x7fff_ffff
  const MinInt32: Int32 := -0x8000_0000

  /** Java `int` arithmetic: the value congruent to `x` modulo 2^32 in the Int32 range. */
  function Wrap(x: int): (r: Int32)
    ensures (r - x) % 0x1_0000_0000 == 0
    ensures MinInt32 <= x <= MaxInt32 ==> r == x
  {
    (x + 0x8000_0000) % 0x1_0000_0000 - 0x8000_0000
  }

  // ---------------------------------------------------------------------
  // Builders

  /** GUIBuilder for a chest GUI with a number of rows. */
  class GUIBuilder<E> {
    const title: string
    var size: Int32
    var elements: map<Int32, E>

    /** size = rows * 9 slots (in Java int arithmetic); no element yet. */
    constructor(title: string, rows: Int32)
      ensures this.title == title && size == Wrap(rows * 9) && elements == map[]
      ensures 0 <= rows <= 6 ==> size == rows * 9
    {
      this.title := title;
      size := Wrap(rows * 9);
      elements := map[];
    }

    /** addElement: puts `e` at `slot`, replacing what was there; other slots keep theirs. */
    method AddElement(slot: Int32, e: E)
      modifies this
      ensures elements == old(elements)[slot := e]
      ensures slot in elements && elements[slot] == e
      ensures forall s :: s != slot && s in old(elements) ==> s in elements && elements[s] == old(elements)[s]
      ensures elements.Keys == old(elements).Keys + {slot}
      ensures size == old(size)
    {
      elements := elements[slot := e];
    }
  }

  /** `from`, `from + 1`, ..., `to`; empty when from > to. */
  function SlotRange(from: int, to: int): (r: seq<int>)
    ensures |r| == if from <= to then to - from + 1 else 0
    ensures forall k :: 0 <= k < |r| ==> r[k] == from + k
    decreases 1 + to - from
  {
    if from > to then [] else [from] + SlotRange(from + 1, to)
  }

  /** The range holds exactly the numbers between its bounds, in ascending order. */
  lemma SlotRangeMembers(from: int, to: int, x: int)
    ensures x in SlotRange(from, to) <==> from <= x <= to
    ensures forall i, j :: 0 <= i < j < |SlotRange(from, to)| ==>
      SlotRange(from, to)[i] < SlotRange(from, to)[j]
  {
    if from <= x <= to {
      assert SlotRange(from, to)[x - from] == x;
    }
  }

  /** GUIBuilderMultiPage: a GUIBuilder with the slots that show the supplied items. */
  class GUIBuilderMultiPage<E> {
    const base: GUIBuilder<E>
    var customItemSlots: seq<Int32>

    constructor(title: string, rows: Int32)
      ensures fresh(base) && base.title == title && base.size == Wrap(rows * 9) && base.elements == map[]
      ensures customItemSlots == []
    {
      base := new GUIBuilder(title, rows);
      customItemSlots := [];
    }

    /** addElement of the multi-page builder: the single-page one on the same elements. */
    method AddElement(slot: Int32, e: E)
      modifies base
      ensures base.elements == old(base.elements)[slot := e] && base.size == old(base.size)
    {
      base.AddElement(slot, e);
    }

    /** addPageSlots: appends the slots in the order given. */
    method AddPageSlots(slots: seq<Int32>)
      modifies this
      ensures customItemSlots == old(customItemSlots) + slots
    {
      customItemSlots := customItemSlots + slots;
    }

    /**
     * addPageSlotsInRange: appends from..to, both inclusive, in ascending order;
     * nothing when from > to. The counter is unbounded here: see RangeAsWritten for
     * the Java `int` counter.
     */
    method AddPageSlotsInRange(from: Int32, to: Int32)
      modifies this
      ensures customItemSlots == old(customItemSlots) + SlotRange(from, to)
    {
      var slots: seq<Int32> := [];
      var i: int := from;
      while i <= to
        invariant from <= i <= to + 1 || (i == from && from > to)
        invariant slots == SlotRange(from, i - 1)
        decreases 1 + to - i
      {
        slots := slots + [i];
        i := i + 1;
        assert SlotRange(from, i - 1) == SlotRange(from, i - 2) + [i - 1];
      }
      customItemSlots := customItemSlots + slots;
    }
  }

  /** Appending one number to a range extends the range by one. */
  lemma {:induction false} SlotRangeSnoc(from: int, to: int)
    requires from <= to + 1
    ensures SlotRange(from, to + 1) == SlotRange(from, to) + [to + 1]
  {
    var a := SlotRange(from, to + 1);
    var b := SlotRange(from, to) + [to + 1];
    assert |a| == |b|;
    forall k | 0 <= k < |a| ensures a[k] == b[k] {
    }
  }

  // ---------------------------------------------------------------------
  // The range loop with a Java `int` counter

  /** `from++` on a Java int. */
  function NextAsWritten(i: Int32): (r: Int32)
    ensures i < MaxInt32 ==> r == i + 1
    ensures i == MaxInt32 ==> r == MinInt32
  {
    Wrap(i + 1)
  }

  /** The first `fuel` turns of `while (from <= to) { slots.add(from); from++; }` on Java ints. */
  function RangeAsWritten(from: Int32, to: Int32, fuel: nat): seq<Int32>
    decreases fuel
  {
    if fuel == 0 || from > to then [] else [from] + RangeAsWritten(NextAsWritten(from), to, fuel - 1)
  }

  /** With `to` the largest int the loop never ends: every bound on its turns is reached. */
  lemma {:induction false} RangeToMaxNeverEnds(from: Int32, fuel: nat)
    ensures |RangeAsWritten(from, MaxInt32, fuel)| == fuel
    decreases fuel
  {
    if fuel > 0 {
      RangeToMaxNeverEnds(NextAsWritten(from), fuel - 1);
    }
  }

  /** Past the largest int the counter wraps, and the list goes on with the smallest. */
  lemma RangeToMaxWraps()
    ensures RangeAsWritten(MaxInt32, MaxInt32, 2) == [MaxInt32, MinInt32]
  {
    assert RangeAsWritten(MinInt32, MaxInt32, 1) == [MinInt32];
  }

  /** Below the largest int the Java loop appends exactly SlotRange(from, to). */
  lemma {:induction false} RangeAsWrittenBelowMax(from: Int32, to: Int32, fuel: nat)
    requires to < MaxInt32 && fuel > to - from
    ensures RangeAsWritten(from, to, fuel) == SlotRange(from, to)
    decreases fuel
  {
    if from <= to {
      RangeAsWrittenBelowMax(NextAsWritten(from), to, fuel - 1);
    }
  }

  // ---------------------------------------------------------------------
  // Pages

  /** An inventory shown to a player, with its holder's "page" and "page-elements" properties. */
  datatype Page<E> = Page(contents: map<Int32, E>, page: Int32, pageElements: map<Int32, E>)

  /** The slot -> element map after putting `els[k]` at `slots[k]` in order; a later put wins. */
  function Placed<E>(slots: seq<Int32>, els: seq<E>): (m: map<Int32, E>)
    requires |els| <= |slots|
  {
    if |els| == 0 then map[]
    else Placed(slots, els[..|els| - 1])[slots[|els| - 1] := els[|els| - 1]]
  }

  /** One more put, as the placing loop does it. */
  lemma PlacedSnoc<E>(slots: seq<Int32>, els: seq<E>, e: E)
    requires |els| < |slots|
    ensures Placed(slots, els + [e]) == Placed(slots, els)[slots[|els|] := e]
  {
    assert (els + [e])[..|els|] == els;
  }

  /** The slots that hold an element are exactly the first |els| page slots. */
  lemma {:induction false} PlacedKeys<E>(slots: seq<Int32>, els: seq<E>)
    requires |els| <= |slots|
    ensures forall s :: s in Placed(slots, els) ==> s in slots[..|els|]
    ensures forall k :: 0 <= k < |els| ==> slots[k] in Placed(slots, els)
  {
    if |els| > 0 {
      var n := |els| - 1;
      var prev := Placed(slots, els[..n]);
      var m := Placed(slots, els);
      assert m == prev[slots[n] := els[n]];
      PlacedKeys(slots, els[..n]);
      forall s | s in m
        ensures s in slots[..|els|]
      {
        if s != slots[n] {
          assert s in slots[..n];
          var j :| 0 <= j < n && slots[j] == s;
          assert slots[..|els|][j] == s;
        } else {
          assert slots[..|els|][n] == s;
        }
      }
      forall k | 0 <= k < |els|
        ensures slots[k] in m
      {
        if k < n {
          assert slots[k] in prev;
        }
      }
    }
  }

  /** `slots[k]` holds `els[k]` unless a later put used the same slot. */
  lemma {:induction false} PlacedValues<E>(slots: seq<Int32>, els: seq<E>, k: nat)
    requires k < |els| <= |slots| && LastPut(slots, |els|, k)
    ensures slots[k] in Placed(slots, els) && Placed(slots, els)[slots[k]] == els[k]
  {
    var n := |els| - 1;
    var prev := Placed(slots, els[..n]);
    assert Placed(slots, els) == prev[slots[n] := els[n]];
    if k < n {
      assert LastPut(slots, n, k) && slots[k] != slots[n];
      PlacedValues(slots, els[..n], k);
      assert els[..n][k] == els[k];
    }
  }

  /** No put after the k-th among the first n uses slot `slots[k]`. */
  predicate LastPut(slots: seq<Int32>, n: nat, k: nat)
    requires k < n <= |slots|
  {
    forall j :: k < j < n ==> slots[j] != slots[k]
  }

  /** The start of a page that exists lies within the items. */
  lemma PageStartWithin(size: nat, nSlots: nat, page: nat)
    requires nSlots > 0 && page <= size / nSlots
    ensures page * nSlots <= size
  {
    assert page * nSlots <= (size / nSlots) * nSlots by {
      MulMono(page, size / nSlots, nSlots);
    }
  }

  lemma MulMono(a: nat, b: nat, c: nat)
    requires a <= b
    ensures a * c <= b * c
  {
  }

  /** The end of the items shown on the page starting at `start`. */
  function PageEnd(size: nat, start: nat, nSlots: nat): (end: nat)
    requires start <= size
    ensures start <= end <= size && end - start <= nSlots
    ensures end - start == nSlots || end == size
  {
    if size <= start + nSlots then size else start + nSlots
  }

  /**
   * What getForPlayer(p, page) yields: an error (division by zero) without page
   * slots; null for a page outside 0..items/slots; otherwise the base elements with
   * the page's items placed over them on the page slots.
   */
  function PageFor<E>(elements: map<Int32, E>, slots: seq<Int32>, items: seq<E>, page: Int32): (r: Result<Option<Page<E>>, string>)
    ensures r.Err? <==> |slots| == 0
    ensures r.Ok? ==> (r.value.Some? <==> 0 <= page <= |items| / |slots|)
    ensures r.Ok? && r.value.Some? ==> r.value.value.page == page
  {
    if |slots| == 0 then Err("/ by zero")
    else if page <= |items| / |slots| && page >= 0 then
      PageStartWithin(|items|, |slots|, page);
      var start := page * |slots|;
      var placed := Placed(slots, items[start..PageEnd(|items|, start, |slots|)]);
      Ok(Some(Page(elements + placed, page, placed)))
    else Ok(None)
  }

  /** GUIMultiPage: the GUI a multi-page builder builds. */
  class GUIMultiPage<E> {
    const builder: GUIBuilderMultiPage<E>

    constructor(builder: GUIBuilderMultiPage<E>)
      ensures this.builder == builder
    {
      this.builder := builder;
    }

    /** getForPlayer(p, page), with `items` the elements the supplier makes for the player. */
    method GetForPlayer(page: Int32, items: seq<E>) returns (r: Result<Option<Page<E>>, string>)
      ensures r == PageFor(builder.base.elements, builder.customItemSlots, items, page)
    {
      var contents := builder.base.elements;
      var slots := builder.customItemSlots;
      var nSlots := |slots|;
      if nSlots == 0 {
        return Err("/ by zero");
      }
      var pages := |items| / nSlots;
      if page <= pages && page >= 0 {
        PageStartWithin(|items|, nSlots, page);
        var start := page * nSlots;
        var end := if |items| <= start + nSlots then |items| else start + nSlots;
        var elSlots: map<Int32, E> := map[];
        for i := start to end
          invariant elSlots == Placed(slots, items[start..i])
          invariant contents == builder.base.elements + elSlots
        {
          var el := items[i];
          var slot := slots[i - start];
          assert items[start..i + 1] == items[start..i] + [el];
          PlacedSnoc(slots, items[start..i], el);
          UnionPut(builder.base.elements, elSlots, slot, el);
          contents := contents[slot := el];
          elSlots := elSlots[slot := el];
        }
        r := Ok(Some(Page(contents, page, elSlots)));
      } else {
        r := Ok(None);
      }
    }
  }

  lemma UnionPut<E>(m: map<Int32, E>, e: map<Int32, E>, k: Int32, v: E)
    ensures (m + e)[k := v] == m + e[k := v]
  {
  }

  /**
   * On a page that exists, with distinct page slots: the k-th slot shows item
   * start + k, for every k below the page's item count, which is at most the
   * number of slots, and no other slot shows a page item.
   */
  lemma PageShowsItems<E>(elements: map<Int32, E>, slots: seq<Int32>, items: seq<E>, page: Int32, pg: Page<E>)
    requires PageFor(elements, slots, items, page) == Ok(Some(pg))
    requires forall i, j :: 0 <= i < j < |slots| ==> slots[i] != slots[j]
    ensures page * |slots| <= |items|
    ensures PageEnd(|items|, page * |slots|, |slots|) - page * |slots| <= |slots|
    ensures forall s :: s in pg.pageElements ==> s in slots[..PageEnd(|items|, page * |slots|, |slots|) - page * |slots|]
    ensures forall k :: 0 <= k < PageEnd(|items|, page * |slots|, |slots|) - page * |slots| ==>
      slots[k] in pg.pageElements && pg.pageElements[slots[k]] == items[page * |slots| + k]
  {
    PageStartWithin(|items|, |slots|, page);
    var start := page * |slots|;
    var shown := items[start..PageEnd(|items|, start, |slots|)];
    assert pg.pageElements == Placed(slots, shown);
    DistinctPlaced(slots, shown);
  }

  /** With distinct slots, the k-th element placed is found in the k-th slot. */
  lemma DistinctPlaced<E>(slots: seq<Int32>, els: seq<E>)
    requires |els| <= |slots|
    requires forall i, j :: 0 <= i < j < |slots| ==> slots[i] != slots[j]
    ensures forall s :: s in Placed(slots, els) ==> s in slots[..|els|]
    ensures forall k :: 0 <= k < |els| ==> slots[k] in Placed(slots, els) && Placed(slots, els)[slots[k]] == els[k]
  {
    PlacedKeys(slots, els);
    forall k | 0 <= k < |els|
      ensures slots[k] in Placed(slots, els) && Placed(slots, els)[slots[k]] == els[k]
    {
      PlacedValues(slots, els, k);
    }
  }

  /** The inventory shows the page elements over the builder's elements. */
  lemma PageContents<E>(elements: map<Int32, E>, slots: seq<Int32>, items: seq<E>, page: Int32, pg: Page<E>)
    requires PageFor(elements, slots, items, page) == Ok(Some(pg))
    ensures pg.contents == elements + pg.pageElements
    ensures forall s :: s in pg.pageElements ==> s in pg.contents && pg.contents[s] == pg.pageElements[s]
    ensures forall s :: s in elements && s !in pg.pageElements ==> s in pg.contents && pg.contents[s] == elements[s]
    ensures forall s :: s in pg.contents ==> s in elements || s in pg.pageElements
  {
  }

  /** Item i lies on page i / n, at offset i % n from the page's start. */
  lemma PageOfItem(i: nat, size: nat, n: nat)
    requires n > 0 && i < size
    ensures 0 <= i / n <= size / n <= size
    ensures (i / n) * n + i % n == i && 0 <= i % n < n
  {
    DivMono(i, size, n);
    DivAtMost(size, n);
  }

  lemma DivAtMost(a: nat, n: nat)
    requires n > 0
    ensures a / n <= a
  {
    var q := a / n;
    MulMono(1, n, q);
    assert q <= q * n <= a;
  }

  /** Every item is shown on page i / slots, in slot i % slots, when the page slots are distinct. */
  lemma EveryItemShown<E>(elements: map<Int32, E>, slots: seq<Int32>, items: seq<E>, i: nat)
    requires |slots| > 0 && i < |items| && |items| <= MaxInt32
    requires forall a, b :: 0 <= a < b < |slots| ==> slots[a] != slots[b]
    ensures PageFor(elements, slots, items, i / |slots|).Ok?
    ensures PageFor(elements, slots, items, i / |slots|).value.Some?
    ensures slots[i % |slots|] in PageFor(elements, slots, items, i / |slots|).value.value.pageElements
    ensures PageFor(elements, slots, items, i / |slots|).value.value.pageElements[slots[i % |slots|]] == items[i]
  {
    var n := |slots|;
    var page := i / n;
    var offset := i % n;
    PageOfItem(i, |items|, n);
    var r := PageFor(elements, slots, items, page);
    assert 0 <= page <= |items| / n;
    assert r.Ok? && r.value.Some?;
    var pg := r.value.value;
    PageShowsItems(elements, slots, items, page, pg);
    var start := page * n;
    assert start + offset == i;
    assert offset < PageEnd(|items|, start, n) - start;
    assert pg.pageElements[slots[offset]] == items[start + offset];
  }

  lemma DivMono(a: nat, b: nat, n: nat)
    requires n > 0 && a <= b
    ensures a / n <= b / n
  {
    var qa, qb := a / n, b / n;
    if qa > qb {
      MulMono(qb + 1, qa, n);
      assert false;
    }
  }

  /**
   * When the item count is a multiple of the slot count the last page that exists
   * is empty: page items/slots shows no item.
   */
  lemma LastPageEmpty<E>(elements: map<Int32, E>, slots: seq<Int32>, items: seq<E>)
    requires |slots| > 0 && |items| % |slots| == 0 && |items| <= MaxInt32
    ensures var r := PageFor(elements, slots, items, |items| / |slots|);
      r == Ok(Some(Page(elements, |items| / |slots|, map[])))
  {
    var page := |items| / |slots|;
    assert page * |slots| == |items|;
    assert elements + map[] == elements;
  }

  // ---------------------------------------------------------------------
  // Clicks

  datatype ClickAction = LeftClick | ShiftLeftClick | RightClick | ShiftRightClick

  /**
   * getFromEvent, given the event's isLeftClick, isRightClick and isShiftClick;
   * null (None) for a click that is neither left nor right.
   */
  function FromEvent(left: bool, right: bool, shift: bool): (r: Option<ClickAction>)
    ensures r.None? <==> !left && !right
    ensures r == Some(ShiftLeftClick) <==> left && shift
    ensures r == Some(LeftClick) <==> left && !shift
    ensures r == Some(ShiftRightClick) <==> !left && right && shift
    ensures r == Some(RightClick) <==> !left && right && !shift
  {
    if left then
      if shift then Some(ShiftLeftClick) else Some(LeftClick)
    else if right then
      if shift then Some(ShiftRightClick) else Some(RightClick)
    else None
  }
}
