/**
 * The scroll handler on a small concrete list: a section "A" at row 0, two
 * items, a section "B" at row 3 and one more item, every row 40 pixels high,
 * in a list 480 by 800 pixels without padding.
 */
module ScrollScenarios {
  import opened Platform
  import opened SectionLocator
  import opened PinnedShadow

  /** Rows A, item, item, B, item; every view has a fixed 40-pixel layout height. */
  function TwoSections(): Adapter
  {
    Adapter(1, true, 2,
            [Row(true, 100), Row(false, 101), Row(false, 102), Row(true, 103), Row(false, 104)],
            None,
            (position: int, convertView: Option<int>) => ItemView(50 + position, Some(40)))
  }

  /** The visible children's tops (heights are all 40); measuring yields the specs' sizes. */
  function Laid(tops: seq<int>): ListLayout
  {
    ListLayout(480, 800, 0, 0, 0, 0, tops, seq(|tops|, _ => 40),
               (handle: int, ws: MeasureSpec, hs: MeasureSpec) => Size(ws.size, hs.size))
  }

  /** Section B scrolled 20 pixels past the top, nothing pinned yet: B is pinned flush at the top. */
  lemma PinsSectionScrolledPastTop()
    ensures var r := ScrollStep(PinState(None, None, 0), Some(TwoSections()), 3, 2, Laid([-20, 20]));
            && r.pinned.Some? && r.pinned.value.position == 3 && r.pinned.value.id == 103
            && r.recycle.None? && r.translateY == 0
  {
  }

  /** Only the item below B is visible: the backward scan finds B and pins it. */
  lemma PinsEnclosingSection()
    ensures var r := ScrollStep(PinState(None, None, 0), Some(TwoSections()), 4, 1, Laid([-10]));
            && r.pinned.Some? && r.pinned.value.position == 3 && r.pinned.value.id == 103
            && r.translateY == 0
  {
  }

  /**
   * B is pinned and moves back 10 pixels below the top: B's shadow is
   * recycled into A's (the recycle slot ends up empty), and A is pinned
   * shifted up by 30 so that it sits right above B.
   */
  lemma RepinsPreviousSection(b: Shadow)
    requires b.position == 3
    ensures var r := ScrollStep(PinState(Some(b), None, 0), Some(TwoSections()), 3, 2, Laid([10, 50]));
            && r.pinned.Some? && r.pinned.value.position == 0 && r.pinned.value.id == 100
            && r.pinned.value.view.handle == 50
            && r.recycle.None? && r.translateY == -30
  {
  }
}
