/**
 * The list view itself: the fields it updates in place and the methods that
 * update them (shadow creation and destruction, the scroll handler, listener
 * chaining, the adapter guards, the data-set observer and touch dispatch).
 * Each method is proved against the specification functions of
 * PinnedShadow and TouchRedirect.
 */
module PinnedSectionList {
  import opened Platform
  import opened SectionLocator
  import opened PinnedShadow
  import opened TouchRedirect

  /** The two IllegalArgumentExceptions setAdapter throws. */
  datatype AdapterError = NotPinnedSectionAdapter | TooFewViewTypes

  /** The identity of an adapter reference (null is None). */
  function HandleOf(adapter: Option<Adapter>): Option<int>
  {
    if adapter.Some? then Some(adapter.value.handle) else None
  }

  /** The adapters an observer registered with exactly `adapter` is attached to. */
  function HandleSet(adapter: Option<Adapter>): set<int>
  {
    if adapter.Some? then {adapter.value.handle} else {}
  }

  /** The delegate scroll-listener call for one onScroll, if a delegate is set. */
  function DelegatedScroll(delegate: Option<ScrollListener>, first: int, count: int, total: int): seq<Effect>
    requires delegate.Some? ==> delegate.value.External?
  {
    if delegate.Some? then [ScrollDelegated(delegate.value.id, first, count, total)] else []
  }

  class PinnedSectionListView {
    /** The adapter the underlying list holds (getAdapter()). */
    var adapter: Option<Adapter>
    /** The scroll listener registered with the underlying list. */
    var scrollListener: Option<ScrollListener>
    /** The item-click listener of the underlying list. */
    var itemClickListener: Option<int>
    /** ViewConfiguration's scaled touch slop. */
    const touchSlop: int

    /** The adapters mDataSetObserver is registered with. */
    var observing: set<int>

    var delegate: Option<ScrollListener>
    var recycleShadow: Option<Shadow>
    var pinnedShadow: Option<Shadow>
    var translateY: int

    var touchTarget: Option<View>
    var touchPoint: Point
    var downEvent: Option<MotionEvent>

    /** Everything the list has delivered to listeners, views and the list underneath, in order. */
    var log: seq<Effect>

    /**
     * The internal listener is the one registered with the underlying list
     * and is never its own delegate; a touch target is tracked exactly while
     * the DOWN event is kept; the observer is registered with the current
     * adapter only.
     */
    ghost predicate Valid()
      reads this
    {
      && scrollListener == Some(Internal)
      && (delegate.Some? ==> delegate.value.External?)
      && TouchValid(Touch())
      && observing == HandleSet(adapter)
    }

    function Pinning(): PinState
      reads this
    {
      PinState(pinnedShadow, recycleShadow, translateY)
    }

    function Touch(): TouchState
      reads this
    {
      TouchState(touchTarget, touchPoint, downEvent)
    }

    function Env(): TouchEnv
      reads this
    {
      TouchEnv(pinnedShadow, translateY, itemClickListener, touchSlop)
    }

    /** The constructors and initView: the internal listener is registered with the underlying list. */
    constructor (touchSlop: int, itemClickListener: Option<int>)
      ensures Valid()
      ensures adapter.None? && delegate.None? && this.itemClickListener == itemClickListener
      ensures this.touchSlop == touchSlop
      ensures Pinning() == PinState(None, None, 0) && touchTarget.None? && log == []
    {
      this.touchSlop := touchSlop;
      this.itemClickListener := itemClickListener;
      adapter := None;
      scrollListener := None;
      observing := {};
      delegate := None;
      recycleShadow := None;
      pinnedShadow := None;
      translateY := 0;
      touchTarget := None;
      touchPoint := Point(0, 0);
      downEvent := None;
      log := [];
      new;
      SetOnScrollListener(Some(Internal));
    }

    /**
     * setOnScrollListener: the internal listener goes to the underlying
     * list; any other listener (or null) only becomes the delegate.
     */
    method SetOnScrollListener(listener: Option<ScrollListener>)
      modifies this`scrollListener, this`delegate
      ensures listener == Some(Internal) ==> scrollListener == listener && delegate == old(delegate)
      ensures listener != Some(Internal) ==> delegate == listener && scrollListener == old(scrollListener)
      ensures old(Valid()) ==> Valid()
    {
      if listener == Some(Internal) {
        scrollListener := listener;
      } else {
        delegate := listener;
      }
    }

    /**
     * setAdapter: a non-null adapter must implement the pinned-section
     * adapter interface and report at least two view types, otherwise
     * nothing changes and the error is returned. An accepted adapter gets
     * the data-set observer (moved from the old one), and the shadow is
     * destroyed when the adapter is a different one.
     */
    method SetAdapter(newAdapter: Option<Adapter>) returns (error: Option<AdapterError>)
      requires Valid()
      modifies this`adapter, this`observing, this`pinnedShadow, this`recycleShadow
      ensures Valid()
      ensures newAdapter.Some? && !newAdapter.value.implementsPinned ==>
                error == Some(NotPinnedSectionAdapter)
      ensures newAdapter.Some? && newAdapter.value.implementsPinned && newAdapter.value.viewTypeCount < 2 ==>
                error == Some(TooFewViewTypes)
      ensures error.None? <==>
                newAdapter.None? || (newAdapter.value.implementsPinned && newAdapter.value.viewTypeCount >= 2)
      ensures error.Some? ==> unchanged(this)
      ensures error.None? ==> adapter == newAdapter && observing == HandleSet(newAdapter)
      ensures error.None? ==>
                Pinning() == if HandleOf(old(adapter)) != HandleOf(newAdapter) then Destroy(old(Pinning()))
                             else old(Pinning())
    {
      if newAdapter.Some? {
        if !newAdapter.value.implementsPinned {
          return Some(NotPinnedSectionAdapter);
        }
        if newAdapter.value.viewTypeCount < 2 {
          return Some(TooFewViewTypes);
        }
      }
      var current := adapter;
      if current.Some? {
        observing := observing - {current.value.handle};
      }
      if newAdapter.Some? {
        observing := observing + {newAdapter.value.handle};
      }
      if HandleOf(current) != HandleOf(newAdapter) {
        DestroyPinnedShadow();
      }
      adapter := newAdapter;
      error := None;
    }

    /** destroyPinnedShadow: the pinned shadow moves to the recycle slot. */
    method DestroyPinnedShadow()
      modifies this`pinnedShadow, this`recycleShadow
      ensures Pinning() == Destroy(old(Pinning()))
    {
      recycleShadow := pinnedShadow;
      pinnedShadow := None;
    }

    /**
     * createPinnedShadow(position, translateY): refused for a negative
     * position or while a shadow is pinned; otherwise pins a shadow built
     * from the recycled one.
     */
    method CreatePinnedShadow(position: int, translation: int, lay: ListLayout)
      requires adapter.Some? && position < |adapter.value.rows|
      modifies this`pinnedShadow, this`recycleShadow, this`translateY
      ensures Pinning() == Create(old(Pinning()), adapter.value, lay, position, translation)
    {
      if position < 0 || pinnedShadow.Some? {
        return;
      }
      // try to recycle the shadow
      var reused := recycleShadow;
      recycleShadow := None;
      // ask for a view, offering the recycled one
      var item := adapter.value.getView(position, ConvertView(reused));
      var layoutHeight := if item.layoutHeight.Some? then item.layoutHeight.value else WRAP_CONTENT;
      var heightMode := ModeOf(layoutHeight);
      var heightSize := SizeOf(layoutHeight);
      if heightMode == UNSPECIFIED {
        heightMode := EXACTLY;
      }
      var maxHeight := lay.height - lay.paddingTop - lay.paddingBottom;
      if heightSize > maxHeight {
        heightSize := maxHeight;
      }
      var ws := MeasureSpec(EXACTLY, lay.width - lay.paddingLeft - lay.paddingRight);
      var hs := MeasureSpec(heightMode, heightSize);
      var size := lay.measure(item.handle, ws, hs);
      var view := View(item.handle, hs, size.width, size.height);
      pinnedShadow := Some(Shadow(view, position, adapter.value.rows[position].id));
      translateY := translation;
    }

    /** The data-set observer's onChanged: the shadow is destroyed. */
    method OnChanged()
      modifies this`pinnedShadow, this`recycleShadow
      ensures Pinning() == Destroy(old(Pinning()))
    {
      DestroyPinnedShadow();
    }

    /** The data-set observer's onInvalidated: the shadow is destroyed. */
    method OnInvalidated()
      modifies this`pinnedShadow, this`recycleShadow
      ensures Pinning() == Destroy(old(Pinning()))
    {
      DestroyPinnedShadow();
    }

    /** The internal listener's onScrollStateChanged: forwarded to the delegate. */
    method OnScrollStateChanged(scrollState: int)
      requires Valid()
      modifies this`log
      ensures log == old(log) + if delegate.Some? then [ScrollStateDelegated(delegate.value.id, scrollState)] else []
    {
      if delegate.Some? {
        log := log + [ScrollStateDelegated(delegate.value.id, scrollState)];
      }
    }

    /**
     * The internal listener's onScroll: forwarded to the delegate with the
     * same arguments, then the shadow and translation are updated as
     * ScrollStep says.
     */
    method OnScroll(first: int, count: int, total: int, lay: ListLayout)
      requires Valid() && FitsLayout(count, lay)
      modifies this`pinnedShadow, this`recycleShadow, this`translateY, this`log
      ensures Valid()
      ensures log == old(log) + DelegatedScroll(delegate, first, count, total)
      ensures Pinning() == ScrollStep(old(Pinning()), adapter, first, count, lay)
      ensures translateY <= 0 || translateY == old(translateY)
    {
      if delegate.Some? {
        log := log + [ScrollDelegated(delegate.value.id, first, count, total)];
      }
      if adapter.None? || count == 0 {
        return;
      }
      var a := adapter.value;
      var section := FindFirstSectionPositionInScreen(a, first, count);
      if section == -1 {
        // no section is visible: find the enclosing one
        PinEnclosingSection(a, first, lay);
      } else if pinnedShadow.None? {
        ScrollWhileUnpinned(a, first, count, section, lay);
      } else if section == pinnedShadow.value.position {
        ScrollWhileSectionPinned(a, first, count, section, lay);
      } else {
        ScrollWhileOtherPinned(a, first, count, section, lay);
      }
    }

    /** onScroll with no visible section: the section enclosing the first visible row is pinned. */
    method PinEnclosingSection(a: Adapter, first: int, lay: ListLayout)
      requires adapter == Some(a)
      modifies this`pinnedShadow, this`recycleShadow, this`translateY
      ensures Pinning() == EnclosingStep(old(Pinning()), a, first, lay)
    {
      var current := FindCurrentSectionPosition(a, first);
      if current == -1 {
        return;
      }
      if pinnedShadow.Some? {
        if pinnedShadow.value.position == current {
          translateY := 0;
          return;
        } else {
          DestroyPinnedShadow();
        }
      }
      CreatePinnedShadow(current, 0, lay);
    }

    /** onScroll with `section` the first visible section and nothing pinned. */
    method ScrollWhileUnpinned(a: Adapter, first: int, count: int, section: int, lay: ListLayout)
      requires adapter == Some(a) && FirstVisibleSection(a, first, count, section, lay) && count > 0
      requires pinnedShadow.None?
      modifies this`pinnedShadow, this`recycleShadow, this`translateY
      ensures Pinning() == UnpinnedStep(old(Pinning()), a, first, count, section, lay)
    {
      var top := lay.childTops[section - first];
      var height := lay.childHeights[section - first];
      var border := lay.paddingTop;
      if top < border {
        if RoomBeforeNextSection(a, first, count, section, lay) {
          CreatePinnedShadow(section, 0, lay);
        }
      } else if top > border {
        var bottom := border + height;
        if top < bottom {
          if !IsPinned(a, first) && lay.childHeights[0] > 0 {
            var current := FindCurrentSectionPosition(a, first);
            if current > -1 {
              CreatePinnedShadow(current, top - bottom, lay);
            }
          }
        }
      }
    }

    /** onScroll while the first visible section `section` is the pinned one. */
    method ScrollWhileSectionPinned(a: Adapter, first: int, count: int, section: int, lay: ListLayout)
      requires adapter == Some(a) && FirstVisibleSection(a, first, count, section, lay)
      requires pinnedShadow.Some? && pinnedShadow.value.position == section
      modifies this`pinnedShadow, this`recycleShadow, this`translateY
      ensures Pinning() == SamePinnedStep(old(Pinning()), a, first, count, section, lay)
    {
      var top := lay.childTops[section - first];
      var border := lay.paddingTop;
      if top > border {
        DestroyPinnedShadow();
        var prev := FindCurrentSectionPosition(a, section - 1);
        if prev > -1 {
          CreatePinnedShadow(prev, 0, lay);
          var t := top - border - pinnedShadow.value.view.height;
          if t > 0 {
            t := 0;
          }
          translateY := t;
        }
      } else {
        translateY := 0;
      }
    }

    /** onScroll while another section than the first visible one, `section`, is pinned. */
    method ScrollWhileOtherPinned(a: Adapter, first: int, count: int, section: int, lay: ListLayout)
      requires adapter == Some(a) && FirstVisibleSection(a, first, count, section, lay)
      requires pinnedShadow.Some? && pinnedShadow.value.position != section
      modifies this`pinnedShadow, this`recycleShadow, this`translateY
      ensures Pinning() == OtherPinnedStep(old(Pinning()), a, first, count, section, lay)
    {
      var top := lay.childTops[section - first];
      var height := lay.childHeights[section - first];
      var border := lay.paddingTop;
      var bottom := border + height;
      if top < bottom {
        if top < border {
          var recreate := RoomBeforeNextSection(a, first, count, section, lay);
          DestroyPinnedShadow();
          if recreate {
            CreatePinnedShadow(section, 0, lay);
          }
        } else {
          translateY := top - bottom;
          var current := FindCurrentSectionPosition(a, section - 1);
          if pinnedShadow.value.position != current {
            DestroyPinnedShadow();
            CreatePinnedShadow(current, translateY, lay);
          }
        }
      } else {
        translateY := 0;
      }
    }

    /** clearTouchTarget: tracking ends and the kept DOWN event is released. */
    method ClearTouchTarget()
      modifies this`touchTarget, this`downEvent
      ensures Touch() == Cleared(old(Touch()))
    {
      touchTarget := None;
      if downEvent.Some? {
        downEvent := None;
      }
    }

    /**
     * performPinnedItemClick: reports a click with the pinned shadow's
     * position and id when a shadow and an item-click listener exist.
     */
    method PerformPinnedItemClick() returns (clicked: bool)
      modifies this`log
      ensures log == old(log) + PinnedItemClick(Env())
      ensures clicked <==> pinnedShadow.Some? && itemClickListener.Some?
    {
      if pinnedShadow.None? {
        return false;
      }
      if itemClickListener.Some? {
        log := log + [ItemClick(itemClickListener.value, pinnedShadow.value.position, pinnedShadow.value.id)];
        return true;
      }
      return false;
    }

    /**
     * dispatchTouchEvent(ev). `superAnswer` is what the underlying list's
     * dispatchTouchEvent returns for the event; it is returned when the
     * event is not consumed here.
     */
    method DispatchTouchEvent(ev: MotionEvent, superAnswer: bool) returns (handled: bool)
      requires Valid()
      modifies this`touchTarget, this`touchPoint, this`downEvent, this`log
      ensures Valid()
      ensures var step := Dispatch(old(Touch()), old(Env()), ev);
              && Touch() == step.touch
              && log == old(log) + step.effects
              && handled == (step.consumed || superAnswer)
    {
      var x, y := ev.x, ev.y;
      if ev.action == Down && touchTarget.None? && pinnedShadow.Some?
         && IsPinnedViewTouched(pinnedShadow.value.view, translateY, x, y)
      {
        // the user touched the pinned view
        touchTarget := Some(pinnedShadow.value.view);
        touchPoint := Point(x, y);
        downEvent := Some(ev);
      }

      if touchTarget.Some? {
        var target := touchTarget.value;
        if IsPinnedViewTouched(target, translateY, x, y) {
          log := log + [ToTarget(target.handle, ev)];
        }
        if ev.action == Up {
          log := log + [ToSuper(ev)];
          var clicked := PerformPinnedItemClick();
          ClearTouchTarget();
        } else if ev.action == Cancel {
          ClearTouchTarget();
        } else if ev.action == Move {
          if Abs(y - touchPoint.y) > touchSlop {
            // cancel the sequence on the target and replay it to the list
            log := log + [ToTarget(target.handle, MotionEvent(Cancel, x, y))];
            log := log + [ToSuper(downEvent.value)];
            log := log + [ToSuper(ev)];
            ClearTouchTarget();
          }
        }
        return true;
      }

      log := log + [ToSuper(ev)];
      return superAnswer;
    }
  }
}
