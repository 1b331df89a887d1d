# Pinned section list view, modelled in Dafny

`PinnedSectionListView` is an Android `ListView` that keeps the header of the
current section pinned at the top of the list. The header is a "shadow": a
second copy of the section row's view, drawn over the list. With the
toolkit stripped away, what remains is a small integer state machine. This
project models it and proves properties about it.

- **Section locator** (`section_locator.dfy`, module `SectionLocator`).
  - The forward scan finds the first pinned row in the visible window.
  - The enclosing-section lookup asks an optional `SectionIndexer` first. It
    accepts the indexer's answer only when that row is pinned, and otherwise
    scans backwards to row 0.
  - The adapter is a value: its rows (pinned-ness and stable id), its
    view-type count, whether it implements the pinned-section adapter
    interface, the optional indexer, and `getView` as a function.
- **Shadow lifecycle and scroll handler** (`pinned_shadow.dfy`, module
  `PinnedShadow`).
  - There is one active slot, one recycle slot, and the vertical translation
    `mTranslateY`.
  - `Create` and `Destroy` specify `createPinnedShadow` and
    `destroyPinnedShadow`.
  - `ScrollStep` specifies `onScroll`. It dispatches to one function per
    branch of the handler.
  - The height measure spec is modelled with Android's 32-bit
    `MeasureSpec` bit layout.
- **Touch redirector** (`touch_redirect.dfy`, module `TouchRedirect`).
  - `Dispatch` specifies one `dispatchTouchEvent` call. It returns the new
    IDLE/TRACKING state, the deliveries in order, and whether the event was
    consumed.
  - `Run` folds `Dispatch` over a gesture.
- **The view** (`pinned_section_list_view.dfy`, module `PinnedSectionList`).
  - The class `PinnedSectionListView` has the source's fields and its
    methods.
  - Each method that changes state is proved against the specification
    functions above.
  - The listener calls, touch deliveries and item clicks the view produces
    are appended to a `log` field.
- **Scenarios** (`scroll_scenarios.dfy`, module `ScrollScenarios`). The scroll
  handler on a concrete five-row list.

The toolkit side is passed in as values:
- the visible children's tops and heights, the list size and padding, and
  the measure pass are a `ListLayout`;
- the touch slop is a constructor argument;
- the answer of the underlying list's `dispatchTouchEvent` is a parameter.

Where the code departs from what a sticky header is commonly expected to do,
the model follows the code:
- `destroyPinnedShadow` does not end a touch gesture that is being tracked.
  Only UP, CANCEL and an over-slop MOVE clear the touch target.
- When no section is visible and none encloses the first visible row, the
  current shadow is kept. It is not destroyed.
- With nothing pinned, a section whose top is exactly at the top padding is
  not pinned. Only the strict `<` and `>` branches act.
- The touch hit rectangle is the pinned view's own rectangle shifted by the
  translation. The list padding is not added.

## Model

| member | source | states |
|---|---|---|
| SectionLocator.ScanForward | library/src/com/hb/views/PinnedSectionListView.java:347-352 | the forward loop: -1 exactly when no row in [from, end) is pinned; otherwise the first pinned row there |
| SectionLocator.FindSectionPositionInScreen | library/src/com/hb/views/PinnedSectionListView.java:341-353 | -1 when fromPosition is outside [first, first+count); otherwise the smallest pinned position in [fromPosition, first+count), and -1 exactly when there is none |
| SectionLocator.FindFirstSectionPositionInScreen | library/src/com/hb/views/PinnedSectionListView.java:335-338 | the first pinned row of the visible window, and -1 exactly when the window holds none |
| SectionLocator.ScanBackward | library/src/com/hb/views/PinnedSectionListView.java:371-376 | the backward loop: the largest pinned position <= from, and -1 exactly when rows 0..from hold none |
| SectionLocator.FindCurrentSectionPosition | library/src/com/hb/views/PinnedSectionListView.java:356-377 | the result is -1 or a pinned position; the indexer's candidate is returned when it is pinned; otherwise the largest pinned position <= fromPosition, and -1 exactly when none exists |
| SectionLocator.IndexerAgreesWithScan | library/src/com/hb/views/PinnedSectionListView.java:359-376 | when the indexer's pinned candidate is the nearest section at or above the position, the fast path agrees with the backward scan |
| SectionLocator.NoIndexerAgreesWithScan | library/src/com/hb/views/PinnedSectionListView.java:359-376 | without an indexer the lookup is the backward scan for every position |
| SectionLocator.ScanBackwardSkips | library/src/com/hb/views/PinnedSectionListView.java:371-375 | scanning back from hi or from a lower lo gives the same section when no row in (lo, hi] is pinned |
| SectionLocator.NoSectionsNoPosition | library/src/com/hb/views/PinnedSectionListView.java:341-377 | an adapter without pinned rows yields -1 from both lookups, whatever its indexer answers |
| PinnedShadow.ModeOf | library/src/com/hb/views/PinnedSectionListView.java:297 | MeasureSpec.getMode of a 32-bit value is one of the four two-bit modes |
| PinnedShadow.SizeOf | library/src/com/hb/views/PinnedSectionListView.java:298 | MeasureSpec.getSize of a 32-bit value lies in [0, 2^30) |
| PinnedShadow.HeightSpecFor | library/src/com/hb/views/PinnedSectionListView.java:297-305 | the mode is never UNSPECIFIED: UNSPECIFIED becomes EXACTLY and other modes are kept; the size is the requested size clamped to the content height |
| PinnedShadow.FixedHeightIsExact | library/src/com/hb/views/PinnedSectionListView.java:297-305 | a fixed pixel height is measured EXACTLY with min(height, content height) |
| PinnedShadow.WrapContentSpec | library/src/com/hb/views/PinnedSectionListView.java:291-305 | default layout parameters (WRAP_CONTENT) give mode bits 3 and the content height as size |
| PinnedShadow.Create | library/src/com/hb/views/PinnedSectionListView.java:274-323 | a negative position or an existing shadow changes nothing; otherwise the shadow has that position and the row's id, its view comes from getView offered the recycled view, its height spec is HeightSpecFor of that view's layout height and the content height (so clamped and never UNSPECIFIED), the recycle slot is empty and the translation is the requested one |
| PinnedShadow.Destroy | library/src/com/hb/views/PinnedSectionListView.java:326-332 | no shadow is pinned, the former one (possibly none) is in the recycle slot, and the translation is kept |
| PinnedShadow.EnclosingStep | library/src/com/hb/views/PinnedSectionListView.java:131-154 | no visible section: without an enclosing section nothing changes; an enclosing section that is already pinned is kept with translation 0; otherwise it replaces the pinned one (whose view is offered for reuse) at translation 0, with its id and an empty recycle slot |
| PinnedShadow.UnpinnedStep | library/src/com/hb/views/PinnedSectionListView.java:160-191 | nothing pinned: a shadow is pinned exactly when the section passed the top border with room before the next section, or the section overlaps the top and the enclosing section of a non-section first row exists; the first is pinned at translation 0, the second with the negative translation top - (border + height); otherwise nothing changes |
| PinnedShadow.SamePinnedStep | library/src/com/hb/views/PinnedSectionListView.java:195-211 | the visible section is the pinned one: at or above the top the translation is reset to 0; moved below the top, the shadow is destroyed and the section before it, when found, is pinned (reusing the old view) with translation min(0, top - border - its height) |
| PinnedShadow.OtherPinnedStep | library/src/com/hb/views/PinnedSectionListView.java:213-248 | another section is pinned: below the overlap the translation is reset to 0; past the top it is destroyed and the visible section is pinned at 0 when the next section leaves room; while overlapping, the shadow is pushed up by top - (border + height), kept when it is the enclosing section and otherwise replaced by it (or just destroyed when there is none) |
| PinnedShadow.ScrollStep | library/src/com/hb/views/PinnedSectionListView.java:115-250 | without an adapter or with no visible rows nothing changes; every translation the handler sets is <= 0 |
| PinnedShadow.ScrollPinsOnlySections | library/src/com/hb/views/PinnedSectionListView.java:131-248 | every shadow the handler pins stands for a pinned row and carries that row's id |
| PinnedShadow.ScrollKeepsEnclosingSection | library/src/com/hb/views/PinnedSectionListView.java:131-143 | with no visible section and the enclosing one already pinned, the shadow is kept (no destroy, no create) and the translation becomes 0 |
| PinnedShadow.ScrollWithoutSectionsNeverPins | library/src/com/hb/views/PinnedSectionListView.java:131-191 | an adapter without pinned rows never gets a shadow pinned by scrolling |
| PinnedShadow.ScrollIdempotent | library/src/com/hb/views/PinnedSectionListView.java:115-250 | when the enclosing-section lookup agrees with the backward scan, a repeated identical scroll notification neither destroys nor creates a shadow |
| PinnedShadow.IdempotentWithoutVisibleSection | library/src/com/hb/views/PinnedSectionListView.java:131-154 | the no-visible-section case of ScrollIdempotent |
| PinnedShadow.IdempotentFromNothingPinned | library/src/com/hb/views/PinnedSectionListView.java:160-191 | the nothing-pinned case of ScrollIdempotent |
| PinnedShadow.IdempotentWhileSectionPinned | library/src/com/hb/views/PinnedSectionListView.java:195-211 | the visible-section-pinned case of ScrollIdempotent |
| PinnedShadow.IdempotentWhileOtherPinned | library/src/com/hb/views/PinnedSectionListView.java:213-248 | the other-section-pinned case of ScrollIdempotent |
| ScrollScenarios.PinsSectionScrolledPastTop | library/src/com/hb/views/PinnedSectionListView.java:160-176 | a section 20 pixels past the top, with nothing pinned and no next section visible, is pinned with its id at translation 0 |
| ScrollScenarios.PinsEnclosingSection | library/src/com/hb/views/PinnedSectionListView.java:131-153 | with only an item visible, the section above it is found by the backward scan and pinned |
| ScrollScenarios.RepinsPreviousSection | library/src/com/hb/views/PinnedSectionListView.java:195-206 | a pinned section moving 10 pixels below the top is recycled and the previous section is pinned, shifted up by 30 |
| TouchRedirect.IsPinnedViewTouched | library/src/com/hb/views/PinnedSectionListView.java:388-393 | the point is inside the view's width and its height shifted down by the translation |
| TouchRedirect.PinnedItemClick | library/src/com/hb/views/PinnedSectionListView.java:540-555 | at most one click; a click exactly when a shadow and an item-click listener exist, carrying the shadow's position and id |
| TouchRedirect.Cleared | library/src/com/hb/views/PinnedSectionListView.java:532-538 | no touch target and no kept DOWN event; the touch point is unchanged |
| TouchRedirect.Dispatch | library/src/com/hb/views/PinnedSectionListView.java:473-530 | a touch target is tracked exactly while its DOWN event is kept |
| TouchRedirect.TrackingStartsOnlyOnPinnedDown | library/src/com/hb/views/PinnedSectionListView.java:479-490 | while idle, tracking starts exactly on a DOWN inside the shifted rectangle of a pinned shadow, and then targets that view and keeps the DOWN and its point |
| TouchRedirect.IdlePassesThrough | library/src/com/hb/views/PinnedSectionListView.java:528-529 | an event that does not start tracking while idle goes to the list only, and the list's answer is returned |
| TouchRedirect.TrackingConsumes | library/src/com/hb/views/PinnedSectionListView.java:492-526 | while tracking every event is consumed, and it is delivered to the target first exactly when it lies inside the shifted rectangle |
| TouchRedirect.StartingDownBypassesList | library/src/com/hb/views/PinnedSectionListView.java:479-496 | the DOWN that starts tracking goes to the pinned view only and is consumed; the list does not receive it |
| TouchRedirect.TrackedEventsBypassList | library/src/com/hb/views/PinnedSectionListView.java:492-525 | while tracking, an event that is neither an UP nor an over-slop MOVE goes to the target exactly when inside the shifted rectangle, nowhere else, and is consumed |
| TouchRedirect.UpClicksOnce | library/src/com/hb/views/PinnedSectionListView.java:493-502 | an UP while tracking produces exactly: the UP to the target when inside its shifted rectangle, then the UP to the list, then the pinned item's click; tracking ends |
| TouchRedirect.OverSlopHandsOff | library/src/com/hb/views/PinnedSectionListView.java:493-521 | an over-slop MOVE produces exactly: the MOVE to the target when inside its shifted rectangle, then CANCEL to the target, the kept DOWN to the list and the MOVE to the list, in that order; tracking ends |
| TouchRedirect.TrackingEnds | library/src/com/hb/views/PinnedSectionListView.java:498-523 | while tracking, UP, CANCEL and an over-slop MOVE end tracking, and every other event keeps the target, the point and the DOWN |
| TouchRedirect.Run | library/src/com/hb/views/PinnedSectionListView.java:473-530 | successive dispatches keep the target tracked exactly while the DOWN is kept |
| TouchRedirect.ClicksAppend | library/src/com/hb/views/PinnedSectionListView.java:540-555 | clicks in two runs of effects add up |
| TouchRedirect.SteadyKeepsTracking | library/src/com/hb/views/PinnedSectionListView.java:492-526 | while tracking, events that are neither UP, CANCEL, DOWN nor over-slop MOVE keep the state and report no click |
| TouchRedirect.TapClicksOnce | library/src/com/hb/views/PinnedSectionListView.java:479-526 | a DOWN on the pinned view, steady events and an UP report exactly one click when a listener is set (none otherwise) and leave the handler idle |
| TouchRedirect.IdleWithoutDownPasses | library/src/com/hb/views/PinnedSectionListView.java:528-529 | while idle, events without a DOWN all go to the list in order and report no click |
| TouchRedirect.DragNeverClicks | library/src/com/hb/views/PinnedSectionListView.java:479-529 | a gesture handed off by an over-slop MOVE never reports a click and leaves the handler idle |
| TouchRedirect.NoClickEffects | library/src/com/hb/views/PinnedSectionListView.java:540-555 | effects without an item click count no click |
| TouchRedirect.RunAppend | library/src/com/hb/views/PinnedSectionListView.java:473-530 | dispatching two event sequences one after the other is dispatching their concatenation |
| PinnedSectionList.PinnedSectionListView.constructor | library/src/com/hb/views/PinnedSectionListView.java:255-267 | the internal listener is registered with the list; nothing is pinned or tracked and no delegate is set |
| PinnedSectionList.PinnedSectionListView.SetOnScrollListener | library/src/com/hb/views/PinnedSectionListView.java:380-386 | the internal listener goes to the underlying list; any other listener, or none, only becomes the delegate; the view's invariant is kept |
| PinnedSectionList.PinnedSectionListView.SetAdapter | library/src/com/hb/views/PinnedSectionListView.java:426-450 | an adapter not implementing the interface, or with fewer than 2 view types, is refused and nothing changes; otherwise the observer moves to the new adapter, which is installed, and the shadow is destroyed exactly when the adapter is a different one |
| PinnedSectionList.PinnedSectionListView.DestroyPinnedShadow | library/src/com/hb/views/PinnedSectionListView.java:326-332 | the new pin state is Destroy of the old one |
| PinnedSectionList.PinnedSectionListView.CreatePinnedShadow | library/src/com/hb/views/PinnedSectionListView.java:269-323 | the new pin state is Create of the old one |
| PinnedSectionList.PinnedSectionListView.OnChanged | library/src/com/hb/views/PinnedSectionListView.java:70-73 | a data-set change destroys the shadow |
| PinnedSectionList.PinnedSectionListView.OnInvalidated | library/src/com/hb/views/PinnedSectionListView.java:75-78 | a data-set invalidation destroys the shadow |
| PinnedSectionList.PinnedSectionListView.OnScrollStateChanged | library/src/com/hb/views/PinnedSectionListView.java:106-111 | the scroll state is forwarded to the delegate, when one is set |
| PinnedSectionList.PinnedSectionListView.OnScroll | library/src/com/hb/views/PinnedSectionListView.java:114-250 | the callback is forwarded to the delegate with unchanged arguments, the new pin state is ScrollStep of the old one, the translation is <= 0 or unchanged, and the view's invariant is kept |
| PinnedSectionList.PinnedSectionListView.PinEnclosingSection | library/src/com/hb/views/PinnedSectionListView.java:131-154 | the new pin state is EnclosingStep of the old one |
| PinnedSectionList.PinnedSectionListView.ScrollWhileUnpinned | library/src/com/hb/views/PinnedSectionListView.java:155-191 | the new pin state is UnpinnedStep of the old one |
| PinnedSectionList.PinnedSectionListView.ScrollWhileSectionPinned | library/src/com/hb/views/PinnedSectionListView.java:195-211 | the new pin state is SamePinnedStep of the old one |
| PinnedSectionList.PinnedSectionListView.ScrollWhileOtherPinned | library/src/com/hb/views/PinnedSectionListView.java:213-248 | the new pin state is OtherPinnedStep of the old one |
| PinnedSectionList.PinnedSectionListView.ClearTouchTarget | library/src/com/hb/views/PinnedSectionListView.java:532-538 | the new touch state is Cleared of the old one |
| PinnedSectionList.PinnedSectionListView.PerformPinnedItemClick | library/src/com/hb/views/PinnedSectionListView.java:540-555 | appends the pinned item's click when a shadow and a listener exist, and returns true exactly then |
| PinnedSectionList.PinnedSectionListView.DispatchTouchEvent | library/src/com/hb/views/PinnedSectionListView.java:472-530 | the new touch state and the deliveries are those of Dispatch, and the result is true when consumed, otherwise the list's answer |

## Left out

- Drawing (`dispatchDraw`, the canvas clip and translate) is rendering and is not modelled.
- The toolkit's `measure` and `layout` are a function parameter of `ListLayout`. Only the height-spec clamp is modelled.
- `onRestoreInstanceState` defers its work to the UI thread through `post(Runnable)` and is not modelled.
- The click sound and the accessibility event of `performPinnedItemClick` are platform side effects. The click is recorded as an `ItemClick` effect.
- Touch coordinates are floats in the toolkit. They are modelled as the ints the hit test truncates them to, so the slop comparison is on ints too.
- Java's 32-bit `int` overflow in the scroll and clamp arithmetic is not modelled; positions and pixels are unbounded integers. Only `MeasureSpec`'s bit extraction is taken modulo 2^32.
- Object identity is modelled by handles. Adapters are compared by `handle`, and views by `handle` for deliveries. The shadow object being reused when it is recycled, and views aliasing each other, are not modelled.
- `getItemViewType` of a position outside the adapter's rows counts as not pinned; only an indexer can produce such a position.
- The item-click listener is fixed when the view is constructed; `setOnItemClickListener` is not modelled, so `PerformPinnedItemClick` reads that listener rather than whichever one is current.
- `HeaderViewListAdapter` wrapping and the cast of `getAdapter()` are not modelled. The adapter is the `PinnedSectionListAdapter` itself.
- Registering and unregistering the data-set observer is modelled as the set of adapter handles it observes. The notifications themselves arrive as calls to `OnChanged` and `OnInvalidated`.
- The example activity is demo code and is not part of this model.
- TouchRedirect.Run: the pinned shadow, the translation and the click listener stay fixed for the whole gesture; scrolling in between is not modelled.
- PinnedShadow.ScrollIdempotent: proved only for adapters whose enclosing-section lookup agrees with the backward scan (always so without an indexer). An indexer that disagrees can make the handler re-pin on each notification.
