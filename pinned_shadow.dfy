/**
 * The pinned shadow: the one active slot holding the view that stands in for
 * a section header (with its position and stable id), the one recycle slot,
 * and the vertical translation. Create, Destroy and ScrollStep say what
 * createPinnedShadow, destroyPinnedShadow and the scroll handler do to them.
 */
module PinnedShadow {
  import opened Platform
  import opened SectionLocator

  /** MeasureSpec modes, as the value of the two high bits of an Android measure spec. */
  const UNSPECIFIED: int := 0
  const EXACTLY: int := 1
  const AT_MOST: int := 2

  /** 1 << 30: the weight of the lowest mode bit; sizes live below it. */
  const MODE_UNIT: int := 0x4000_0000

  /** LayoutParams.WRAP_CONTENT, the height of the default layout parameters. */
  const WRAP_CONTENT: int := -2

  datatype MeasureSpec = MeasureSpec(mode: int, size: int)

  /** MeasureSpec.getMode on a 32-bit int: its two high bits. */
  function ModeOf(spec: int): (m: int)
    ensures 0 <= m < 4
  {
    (spec % 0x1_0000_0000) / MODE_UNIT
  }

  /** MeasureSpec.getSize on a 32-bit int: its thirty low bits. */
  function SizeOf(spec: int): (s: int)
    ensures 0 <= s < MODE_UNIT
  {
    (spec % 0x1_0000_0000) % MODE_UNIT
  }

  /**
   * The height spec createPinnedShadow derives from the layout parameters'
   * height: an UNSPECIFIED mode becomes EXACTLY, any other mode is kept, and
   * the size is clamped to the list's content height.
   */
  function HeightSpecFor(layoutHeight: int, maxHeight: int): (hs: MeasureSpec)
    ensures hs.mode != UNSPECIFIED
    ensures hs.mode == if ModeOf(layoutHeight) == UNSPECIFIED then EXACTLY else ModeOf(layoutHeight)
    ensures hs.size <= maxHeight && hs.size <= SizeOf(layoutHeight)
    ensures hs.size == maxHeight || hs.size == SizeOf(layoutHeight)
  {
    var mode := ModeOf(layoutHeight);
    var size := SizeOf(layoutHeight);
    MeasureSpec(if mode == UNSPECIFIED then EXACTLY else mode,
                if size > maxHeight then maxHeight else size)
  }

  /** A fixed pixel height in layout parameters is measured EXACTLY, clamped to the content height. */
  lemma FixedHeightIsExact(h: int, maxHeight: int)
    requires 0 <= h < MODE_UNIT
    ensures HeightSpecFor(h, maxHeight) == MeasureSpec(EXACTLY, Min(h, maxHeight))
  {
  }

  /**
   * The default layout parameters (WRAP_CONTENT) carry both mode bits, so
   * the view is measured with that mode and the content height as size.
   */
  lemma WrapContentSpec(maxHeight: int)
    requires maxHeight < MODE_UNIT - 2
    ensures HeightSpecFor(WRAP_CONTENT, maxHeight) == MeasureSpec(3, maxHeight)
  {
  }

  /** The pinned view: its identity, the height spec it was measured with, and its laid-out size. */
  datatype View = View(handle: int, heightSpec: MeasureSpec, width: int, height: int)

  /** PinnedViewShadow: the pinned view with the position and stable id of its row. */
  datatype Shadow = Shadow(view: View, position: int, id: int)

  /** The fields mPinnedShadow, mRecycleShadow and mTranslateY. */
  datatype PinState = PinState(pinned: Option<Shadow>, recycle: Option<Shadow>, translateY: int)

  /** The result of a measure pass. */
  datatype Size = Size(width: int, height: int)

  /**
   * The list as laid out when a callback runs: its size and padding, the
   * top and height of each visible child (index 0 is the first visible
   * position), and the toolkit's measure pass for a view handle.
   */
  datatype ListLayout = ListLayout(
    width: int, height: int,
    paddingLeft: int, paddingTop: int, paddingRight: int, paddingBottom: int,
    childTops: seq<int>, childHeights: seq<int>,
    measure: (int, MeasureSpec, MeasureSpec) -> Size)

  /** getHeight() - getListPaddingTop() - getListPaddingBottom(). */
  function MaxHeight(lay: ListLayout): int
  {
    lay.height - lay.paddingTop - lay.paddingBottom
  }

  /** The view a recycled shadow offers the adapter for reuse. */
  function ConvertView(recycle: Option<Shadow>): Option<int>
  {
    if recycle.Some? then Some(recycle.value.view.handle) else None
  }

  /** The height of a view's layout parameters; WRAP_CONTENT when it has none. */
  function LayoutHeight(item: ItemView): int
  {
    if item.layoutHeight.Some? then item.layoutHeight.value else WRAP_CONTENT
  }

  /**
   * createPinnedShadow(position, translateY): refused (nothing changes) for a
   * negative position or while a shadow is pinned; otherwise the recycled
   * shadow's view is offered to getView, the view is measured with the
   * clamped height spec, and the new shadow records the position and that
   * row's id, the recycle slot is emptied and the translation is set.
   */
  function Create(p: PinState, a: Adapter, lay: ListLayout, position: int, translateY: int): (r: PinState)
    requires position < |a.rows|
    ensures position < 0 || p.pinned.Some? ==> r == p
    ensures position >= 0 && p.pinned.None? ==>
              && r.pinned.Some?
              && r.pinned.value.position == position
              && r.pinned.value.id == a.rows[position].id
              && r.pinned.value.view.handle == a.getView(position, ConvertView(p.recycle)).handle
              && r.pinned.value.view.heightSpec.size <= MaxHeight(lay)
              && r.pinned.value.view.heightSpec.mode != UNSPECIFIED
              && r.pinned.value.view.heightSpec ==
                   HeightSpecFor(LayoutHeight(a.getView(position, ConvertView(p.recycle))), MaxHeight(lay))
              && r.recycle.None?
              && r.translateY == translateY
  {
    if position < 0 || p.pinned.Some? then p
    else
      var item := a.getView(position, ConvertView(p.recycle));
      var hs := HeightSpecFor(LayoutHeight(item), MaxHeight(lay));
      var ws := MeasureSpec(EXACTLY, lay.width - lay.paddingLeft - lay.paddingRight);
      var size := lay.measure(item.handle, ws, hs);
      var view := View(item.handle, hs, size.width, size.height);
      PinState(Some(Shadow(view, position, a.rows[position].id)), None, translateY)
  }

  /** destroyPinnedShadow: no shadow is pinned and the former one (possibly none) is kept for recycling. */
  function Destroy(p: PinState): (r: PinState)
    ensures r.pinned.None? && r.recycle == p.pinned && r.translateY == p.translateY
  {
    PinState(None, p.pinned, p.translateY)
  }

  /** The scroll callback's arguments fit the laid-out children. */
  predicate FitsLayout(count: int, lay: ListLayout)
  {
    count <= |lay.childTops| && count <= |lay.childHeights|
  }

  /**
   * The test before pinning the first visible section: pin it unless the
   * next visible section starts within that section's height of it.
   */
  function RoomBeforeNextSection(a: Adapter, first: int, count: int, section: int, lay: ListLayout): (b: bool)
    requires FitsLayout(count, lay)
    requires first <= section < first + count
  {
    var next := FindSectionPositionInScreen(a, first, count, section + 1);
    next == -1 ||
    lay.childTops[next - first] - lay.childTops[section - first] > lay.childHeights[section - first]
  }

  /** `section` is the first section in the visible window [first, first + count). */
  predicate FirstVisibleSection(a: Adapter, first: int, count: int, section: int, lay: ListLayout)
  {
    FitsLayout(count, lay) && section != -1 && section == FindFirstSectionPositionInScreen(a, first, count)
  }

  /**
   * onScroll with no section visible: pin the section enclosing the first
   * visible row, keeping the shadow if it is the pinned one already.
   */
  function EnclosingStep(p: PinState, a: Adapter, first: int, lay: ListLayout): (r: PinState)
    ensures var current := FindCurrentSectionPosition(a, first);
            && (current == -1 ==> r == p)
            && (current != -1 && p.pinned.Some? && p.pinned.value.position == current ==>
                  r == p.(translateY := 0))
            && (current != -1 && (p.pinned.None? || p.pinned.value.position != current) ==>
                  && r.pinned.Some?
                  && r.pinned.value.position == current
                  && r.pinned.value.id == a.rows[current].id
                  && r.pinned.value.view.handle ==
                       a.getView(current, ConvertView(if p.pinned.Some? then p.pinned else p.recycle)).handle
                  && r.recycle.None?
                  && r.translateY == 0)
    ensures r.translateY == p.translateY || r.translateY <= 0
  {
    var current := FindCurrentSectionPosition(a, first);
    if current == -1 then p
    else if p.pinned.Some? && p.pinned.value.position == current then p.(translateY := 0)
    else Create(if p.pinned.Some? then Destroy(p) else p, a, lay, current, 0)
  }

  /**
   * onScroll with nothing pinned and `section` the first visible section:
   * pin it once it has passed the top border (and the next section leaves
   * room), or pin the enclosing section with a negative translation while
   * `section` is about to push it out.
   */
  function UnpinnedStep(p: PinState, a: Adapter, first: int, count: int, section: int, lay: ListLayout): (r: PinState)
    requires FirstVisibleSection(a, first, count, section, lay) && count > 0
    requires p.pinned.None?
    ensures var top := lay.childTops[section - first];
            var height := lay.childHeights[section - first];
            var border := lay.paddingTop;
            var current := FindCurrentSectionPosition(a, first);
            var pushed := border < top < border + height && !IsPinned(a, first) && lay.childHeights[0] > 0;
            && (r.pinned.Some? <==>
                  (top < border && RoomBeforeNextSection(a, first, count, section, lay)) || (pushed && current != -1))
            && (r.pinned.None? ==> r == p)
            && (top < border && r.pinned.Some? ==>
                  && r.pinned.value.position == section
                  && r.pinned.value.id == a.rows[section].id
                  && r.recycle.None?
                  && r.translateY == 0)
            && (top > border && r.pinned.Some? ==>
                  && r.pinned.value.position == current
                  && r.pinned.value.id == a.rows[current].id
                  && r.recycle.None?
                  && r.translateY == top - (border + height) < 0)
  {
    var top := lay.childTops[section - first];
    var height := lay.childHeights[section - first];
    var border := lay.paddingTop;
    if top < border then
      if RoomBeforeNextSection(a, first, count, section, lay) then Create(p, a, lay, section, 0) else p
    else if top > border && top < border + height && !IsPinned(a, first) && lay.childHeights[0] > 0 then
      var current := FindCurrentSectionPosition(a, first);
      if current > -1 then Create(p, a, lay, current, top - (border + height)) else p
    else p
  }

  /**
   * onScroll while the first visible section is the pinned one: when it
   * moved back below the top border, pin the section above it instead,
   * translated so that it sits right above the visible one (never below 0).
   */
  function SamePinnedStep(p: PinState, a: Adapter, first: int, count: int, section: int, lay: ListLayout): (r: PinState)
    requires FirstVisibleSection(a, first, count, section, lay)
    requires p.pinned.Some? && p.pinned.value.position == section
    ensures var top := lay.childTops[section - first];
            var border := lay.paddingTop;
            var prev := FindCurrentSectionPosition(a, section - 1);
            && (top <= border ==> r == p.(translateY := 0))
            && (top > border && prev == -1 ==> r == Destroy(p))
            && (top > border && prev != -1 ==>
                  && r.pinned.Some?
                  && r.pinned.value.position == prev
                  && r.pinned.value.id == a.rows[prev].id
                  && r.pinned.value.view.handle == a.getView(prev, ConvertView(p.pinned)).handle
                  && r.recycle.None?
                  && r.translateY == Min(0, top - border - r.pinned.value.view.height))
    ensures r.translateY == p.translateY || r.translateY <= 0
  {
    var top := lay.childTops[section - first];
    var border := lay.paddingTop;
    if top > border then
      var gone := Destroy(p);
      var prev := FindCurrentSectionPosition(a, section - 1);
      if prev > -1 then
        var made := Create(gone, a, lay, prev, 0);
        made.(translateY := Min(0, top - border - made.pinned.value.view.height))
      else gone
    else p.(translateY := 0)
  }

  /**
   * onScroll while another section is pinned and `section` is the first
   * visible one: once `section` passed the top border it replaces the pinned
   * one; while it overlaps the pinned one it pushes it up (re-pinning the
   * section right above `section` if that is not the pinned one).
   */
  function OtherPinnedStep(p: PinState, a: Adapter, first: int, count: int, section: int, lay: ListLayout): (r: PinState)
    requires FirstVisibleSection(a, first, count, section, lay)
    requires p.pinned.Some? && p.pinned.value.position != section
    ensures var top := lay.childTops[section - first];
            var height := lay.childHeights[section - first];
            var border := lay.paddingTop;
            var current := FindCurrentSectionPosition(a, section - 1);
            && (top >= border + height ==> r == p.(translateY := 0))
            && (top < border + height && top < border && RoomBeforeNextSection(a, first, count, section, lay) ==>
                  && r.pinned.Some?
                  && r.pinned.value.position == section
                  && r.pinned.value.id == a.rows[section].id
                  && r.pinned.value.view.handle == a.getView(section, ConvertView(p.pinned)).handle
                  && r.recycle.None?
                  && r.translateY == 0)
            && (top < border + height && top < border && !RoomBeforeNextSection(a, first, count, section, lay) ==>
                  r == Destroy(p))
            && (border <= top < border + height && current == p.pinned.value.position ==>
                  r == p.(translateY := top - (border + height)))
            && (border <= top < border + height && current != p.pinned.value.position && current != -1 ==>
                  && r.pinned.Some?
                  && r.pinned.value.position == current
                  && r.pinned.value.id == a.rows[current].id
                  && r.pinned.value.view.handle == a.getView(current, ConvertView(p.pinned)).handle
                  && r.recycle.None?
                  && r.translateY == top - (border + height))
            && (border <= top < border + height && current != p.pinned.value.position && current == -1 ==>
                  r == Destroy(p).(translateY := top - (border + height)))
    ensures r.translateY == p.translateY || r.translateY <= 0
  {
    var top := lay.childTops[section - first];
    var height := lay.childHeights[section - first];
    var border := lay.paddingTop;
    if top < border + height then
      if top < border then
        var gone := Destroy(p);
        if RoomBeforeNextSection(a, first, count, section, lay) then Create(gone, a, lay, section, 0) else gone
      else
        var pushed := p.(translateY := top - (border + height));
        var current := FindCurrentSectionPosition(a, section - 1);
        if p.pinned.value.position != current then
          Create(Destroy(pushed), a, lay, current, pushed.translateY)
        else pushed
    else p.(translateY := 0)
  }

  /**
   * onScroll(first, count): what the scroll handler does to the pinned shadow,
   * the recycle slot and the translation. Nothing happens without an adapter
   * or without visible rows, and a translation it sets is never positive.
   */
  function ScrollStep(p: PinState, adapter: Option<Adapter>, first: int, count: int, lay: ListLayout): (r: PinState)
    requires FitsLayout(count, lay)
    ensures adapter.None? || count == 0 ==> r == p
    ensures r.translateY == p.translateY || r.translateY <= 0
  {
    if adapter.None? || count == 0 then p
    else
      var a := adapter.value;
      var section := FindFirstSectionPositionInScreen(a, first, count);
      if section == -1 then EnclosingStep(p, a, first, lay)
      else if p.pinned.None? then UnpinnedStep(p, a, first, count, section, lay)
      else if section == p.pinned.value.position then SamePinnedStep(p, a, first, count, section, lay)
      else OtherPinnedStep(p, a, first, count, section, lay)
  }
  /**
   * The list's own relation between the shadow and the adapter: a pinned
   * shadow stands for a pinned row and carries that row's stable id.
   */
  ghost predicate ShadowMatches(p: PinState, a: Adapter)
  {
    p.pinned.Some? ==>
      IsPinned(a, p.pinned.value.position) && p.pinned.value.id == a.rows[p.pinned.value.position].id
  }

  /** Every shadow the scroll handler pins stands for a pinned row and carries its id. */
  lemma ScrollPinsOnlySections(p: PinState, a: Adapter, first: int, count: int, lay: ListLayout)
    requires FitsLayout(count, lay)
    requires ShadowMatches(p, a)
    ensures ShadowMatches(ScrollStep(p, Some(a), first, count, lay), a)
  {
  }

  /**
   * With no visible section and the enclosing section already pinned, the
   * handler keeps the shadow (no destroy, no create) and resets the
   * translation to 0.
   */
  lemma ScrollKeepsEnclosingSection(p: PinState, a: Adapter, first: int, count: int, lay: ListLayout)
    requires FitsLayout(count, lay) && count != 0
    requires FindFirstSectionPositionInScreen(a, first, count) == -1
    requires p.pinned.Some? && p.pinned.value.position >= 0
    requires FindCurrentSectionPosition(a, first) == p.pinned.value.position
    ensures ScrollStep(p, Some(a), first, count, lay) == p.(translateY := 0)
  {
  }

  /** An adapter without pinned rows never gets a shadow pinned by scrolling. */
  lemma ScrollWithoutSectionsNeverPins(p: PinState, a: Adapter, first: int, count: int, lay: ListLayout)
    requires FitsLayout(count, lay)
    requires forall i :: 0 <= i < |a.rows| ==> !a.rows[i].pinned
    requires p.pinned.None?
    ensures ScrollStep(p, Some(a), first, count, lay).pinned.None?
  {
    NoSectionsNoPosition(a, first, count, first);
  }

  /** The second of two identical scroll notifications keeps the shadow and the recycle slot. */
  ghost predicate NoChurn(p: PinState, a: Adapter, first: int, count: int, lay: ListLayout)
    requires FitsLayout(count, lay)
  {
    var once := ScrollStep(p, Some(a), first, count, lay);
    var twice := ScrollStep(once, Some(a), first, count, lay);
    twice.pinned == once.pinned && twice.recycle == once.recycle
  }

  /**
   * Delivering the same scroll notification twice causes no churn: the
   * second delivery neither destroys nor creates a shadow, it can only
   * recompute the translation. This holds when the enclosing section is the
   * one the backward scan finds (always so without an indexer).
   */
  lemma {:induction false} ScrollIdempotent(p: PinState, a: Adapter, first: int, count: int, lay: ListLayout)
    requires FitsLayout(count, lay)
    requires AgreesWithScan(a)
    ensures NoChurn(p, a, first, count, lay)
  {
    if count != 0 {
      var section := FindFirstSectionPositionInScreen(a, first, count);
      if section == -1 {
        IdempotentWithoutVisibleSection(p, a, first, count, lay);
      } else {
        assert FindCurrentSectionPosition(a, section - 1) == ScanBackward(a, section - 1);
        assert FindCurrentSectionPosition(a, first) == ScanBackward(a, first);
        if first < section {
          ScanBackwardSkips(a, first, section - 1);
        }
        if p.pinned.None? {
          IdempotentFromNothingPinned(p, a, first, count, lay, section);
        } else if p.pinned.value.position == section {
          IdempotentWhileSectionPinned(p, a, first, count, lay, section);
        } else {
          IdempotentWhileOtherPinned(p, a, first, count, lay, section);
        }
      }
    }
  }

  lemma IdempotentWithoutVisibleSection(p: PinState, a: Adapter, first: int, count: int, lay: ListLayout)
    requires FitsLayout(count, lay) && count != 0
    requires FindFirstSectionPositionInScreen(a, first, count) == -1
    ensures NoChurn(p, a, first, count, lay)
  {
  }

  lemma IdempotentFromNothingPinned(p: PinState, a: Adapter, first: int, count: int, lay: ListLayout, section: int)
    requires FitsLayout(count, lay) && count != 0
    requires section == FindFirstSectionPositionInScreen(a, first, count) && section != -1
    requires p.pinned.None?
    requires FindCurrentSectionPosition(a, section - 1) == ScanBackward(a, section - 1)
    requires FindCurrentSectionPosition(a, first) == ScanBackward(a, first)
    requires first < section ==> ScanBackward(a, section - 1) == ScanBackward(a, first)
    ensures NoChurn(p, a, first, count, lay)
  {
  }

  lemma IdempotentWhileSectionPinned(p: PinState, a: Adapter, first: int, count: int, lay: ListLayout, section: int)
    requires FitsLayout(count, lay) && count != 0
    requires section == FindFirstSectionPositionInScreen(a, first, count) && section != -1
    requires p.pinned.Some? && p.pinned.value.position == section
    requires FindCurrentSectionPosition(a, section - 1) == ScanBackward(a, section - 1)
    requires FindCurrentSectionPosition(a, first) == ScanBackward(a, first)
    requires first < section ==> ScanBackward(a, section - 1) == ScanBackward(a, first)
    ensures NoChurn(p, a, first, count, lay)
  {
  }

  lemma IdempotentWhileOtherPinned(p: PinState, a: Adapter, first: int, count: int, lay: ListLayout, section: int)
    requires FitsLayout(count, lay) && count != 0
    requires section == FindFirstSectionPositionInScreen(a, first, count) && section != -1
    requires p.pinned.Some? && p.pinned.value.position != section
    requires FindCurrentSectionPosition(a, section - 1) == ScanBackward(a, section - 1)
    requires FindCurrentSectionPosition(a, first) == ScanBackward(a, first)
    requires first < section ==> ScanBackward(a, section - 1) == ScanBackward(a, first)
    ensures NoChurn(p, a, first, count, lay)
  {
  }
}
