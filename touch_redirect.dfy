/**
 * Touch redirection: a gesture that starts on the pinned view is tracked and
 * delivered to that view (IDLE/TRACKING over mTouchTarget, mTouchPoint and
 * mDownEvent); every other event goes to the list underneath.
 */
module TouchRedirect {
  import opened Platform
  import opened PinnedShadow

  datatype Point = Point(x: int, y: int)

  /** The fields mTouchTarget, mTouchPoint and mDownEvent. */
  datatype TouchState = TouchState(target: Option<View>, point: Point, down: Option<MotionEvent>)

  /** A touch target is tracked exactly while a copy of its DOWN event is kept. */
  predicate TouchValid(t: TouchState)
  {
    t.target.Some? <==> t.down.Some?
  }

  /**
   * What the touch handler reads but does not change: the pinned shadow, the
   * translation, the item-click listener and the touch slop.
   */
  datatype TouchEnv = TouchEnv(pinned: Option<Shadow>, translateY: int, clickListener: Option<int>, slop: int)

  /**
   * One dispatchTouchEvent call: the new touch state, the effects in order,
   * and whether the handler consumed the event itself (true) or returned
   * whatever the list underneath answered (false).
   */
  datatype TouchStep = TouchStep(touch: TouchState, effects: seq<Effect>, consumed: bool)

  datatype Rect = Rect(left: int, top: int, right: int, bottom: int)

  /** Rect.contains(x, y): a non-empty rectangle, left and top edges inclusive. */
  predicate Contains(r: Rect, x: int, y: int)
  {
    r.left < r.right && r.top < r.bottom && r.left <= x < r.right && r.top <= y < r.bottom
  }

  /** getHitRect of the pinned view, which is laid out at (0, 0) with its measured size. */
  function HitRect(v: View): Rect
  {
    Rect(0, 0, v.width, v.height)
  }

  /**
   * isPinnedViewTouched: the point lies in the view's hit rectangle moved
   * down by translateY (the list padding is not added).
   */
  predicate IsPinnedViewTouched(v: View, translateY: int, x: int, y: int)
    ensures IsPinnedViewTouched(v, translateY, x, y) <==>
              0 <= x < v.width && translateY <= y < translateY + v.height
  {
    var r := HitRect(v);
    Contains(Rect(r.left, r.top + translateY, r.right, r.bottom + translateY), x, y)
  }

  /**
   * performPinnedItemClick: one click with the shadow's position and id when
   * a shadow is pinned and an item-click listener is set, otherwise nothing.
   */
  function PinnedItemClick(env: TouchEnv): (r: seq<Effect>)
    ensures |r| <= 1
    ensures r != [] <==> env.pinned.Some? && env.clickListener.Some?
    ensures r != [] ==>
              r[0] == ItemClick(env.clickListener.value, env.pinned.value.position, env.pinned.value.id)
  {
    if env.pinned.Some? && env.clickListener.Some? then
      [ItemClick(env.clickListener.value, env.pinned.value.position, env.pinned.value.id)]
    else []
  }

  /** clearTouchTarget: no target and no kept DOWN event; the touch point stays. */
  function Cleared(t: TouchState): (r: TouchState)
    ensures r.target.None? && r.down.None? && r.point == t.point
  {
    TouchState(None, t.point, None)
  }

  /** Tracking begins: a DOWN, with no target yet, on a pinned shadow's view. */
  predicate StartsTracking(t: TouchState, env: TouchEnv, ev: MotionEvent)
  {
    ev.action == Down && t.target.None? && env.pinned.Some? &&
    IsPinnedViewTouched(env.pinned.value.view, env.translateY, ev.x, ev.y)
  }

  /** A MOVE that has left the slop around the DOWN point vertically. */
  predicate OverSlop(point: Point, env: TouchEnv, ev: MotionEvent)
  {
    ev.action == Move && Abs(ev.y - point.y) > env.slop
  }

  /**
   * dispatchTouchEvent. While tracking, the event goes to the target when
   * it is inside the target's (translated) rectangle; an UP also goes to the
   * list and reports a click; an UP or CANCEL ends tracking; an over-slop
   * MOVE cancels the target and replays the kept DOWN and the MOVE to the
   * list, ending tracking. While idle, the event goes to the list.
   */
  function Dispatch(t: TouchState, env: TouchEnv, ev: MotionEvent): (r: TouchStep)
    requires TouchValid(t)
    ensures TouchValid(r.touch)
  {
    var t1 := if StartsTracking(t, env, ev)
              then TouchState(Some(env.pinned.value.view), Point(ev.x, ev.y), Some(ev))
              else t;
    if t1.target.None? then TouchStep(t1, [ToSuper(ev)], false)
    else
      var target := t1.target.value;
      var forwarded := if IsPinnedViewTouched(target, env.translateY, ev.x, ev.y)
                       then [ToTarget(target.handle, ev)] else [];
      if ev.action == Up then
        TouchStep(Cleared(t1), forwarded + [ToSuper(ev)] + PinnedItemClick(env), true)
      else if ev.action == Cancel then
        TouchStep(Cleared(t1), forwarded, true)
      else if OverSlop(t1.point, env, ev) then
        var cancel := MotionEvent(Cancel, ev.x, ev.y);
        TouchStep(Cleared(t1),
                  forwarded + [ToTarget(target.handle, cancel), ToSuper(t1.down.value), ToSuper(ev)],
                  true)
      else TouchStep(t1, forwarded, true)
  }

  /** Tracking begins only on a DOWN on the pinned view while idle, and then targets that view. */
  lemma TrackingStartsOnlyOnPinnedDown(t: TouchState, env: TouchEnv, ev: MotionEvent)
    requires TouchValid(t) && t.target.None?
    ensures Dispatch(t, env, ev).touch.target.Some? <==>
              StartsTracking(t, env, ev) && ev.action == Down
    ensures Dispatch(t, env, ev).touch.target.Some? ==>
              Dispatch(t, env, ev).touch == TouchState(Some(env.pinned.value.view), Point(ev.x, ev.y), Some(ev))
  {
  }

  /** While idle and not starting, the event passes to the list untouched and the list answers. */
  lemma IdlePassesThrough(t: TouchState, env: TouchEnv, ev: MotionEvent)
    requires TouchValid(t) && t.target.None? && !StartsTracking(t, env, ev)
    ensures Dispatch(t, env, ev) == TouchStep(t, [ToSuper(ev)], false)
  {
  }

  /**
   * While tracking, every event is consumed, and it reaches the target
   * first exactly when it lies inside the target's translated rectangle.
   */
  lemma TrackingConsumes(t: TouchState, env: TouchEnv, ev: MotionEvent)
    requires TouchValid(t) && t.target.Some?
    ensures var r := Dispatch(t, env, ev);
            && r.consumed
            && (IsPinnedViewTouched(t.target.value, env.translateY, ev.x, ev.y) <==>
                 |r.effects| > 0 && r.effects[0] == ToTarget(t.target.value.handle, ev))
  {
  }

  /**
   * The DOWN that starts tracking is delivered to the pinned view only and
   * consumed: the list does not see it until a hand-off replays it.
   */
  lemma StartingDownBypassesList(t: TouchState, env: TouchEnv, ev: MotionEvent)
    requires TouchValid(t) && StartsTracking(t, env, ev)
    ensures Dispatch(t, env, ev).effects == [ToTarget(env.pinned.value.view.handle, ev)]
    ensures Dispatch(t, env, ev).consumed
  {
  }

  /**
   * While tracking, every event other than an UP or an over-slop MOVE (a
   * CANCEL, another DOWN, a MOVE within the slop, any other action) reaches
   * at most the target, and the list receives nothing.
   */
  lemma TrackedEventsBypassList(t: TouchState, env: TouchEnv, ev: MotionEvent)
    requires TouchValid(t) && t.target.Some? && ev.action != Up && !OverSlop(t.point, env, ev)
    ensures Dispatch(t, env, ev).effects ==
              if IsPinnedViewTouched(t.target.value, env.translateY, ev.x, ev.y)
              then [ToTarget(t.target.value.handle, ev)] else []
    ensures Dispatch(t, env, ev).consumed
  {
  }

  /**
   * An UP while tracking: exactly the event to the target when inside its
   * rectangle, then the UP to the list, then the pinned item's click; and
   * tracking ends.
   */
  lemma UpClicksOnce(t: TouchState, env: TouchEnv, ev: MotionEvent)
    requires TouchValid(t) && t.target.Some? && ev.action == Up
    ensures var r := Dispatch(t, env, ev);
            && r.touch == Cleared(t)
            && r.effects ==
                 (if IsPinnedViewTouched(t.target.value, env.translateY, ev.x, ev.y)
                  then [ToTarget(t.target.value.handle, ev)] else [])
                 + [ToSuper(ev)] + PinnedItemClick(env)
  {
  }

  /**
   * An over-slop MOVE while tracking: exactly the MOVE to the target when
   * inside its rectangle, then CANCEL to the target, then the kept DOWN and
   * the MOVE itself to the list, and nothing else; tracking ends.
   */
  lemma OverSlopHandsOff(t: TouchState, env: TouchEnv, ev: MotionEvent)
    requires TouchValid(t) && t.target.Some? && OverSlop(t.point, env, ev)
    ensures var r := Dispatch(t, env, ev);
            && r.touch == Cleared(t)
            && r.effects ==
                 (if IsPinnedViewTouched(t.target.value, env.translateY, ev.x, ev.y)
                  then [ToTarget(t.target.value.handle, ev)] else [])
                 + [ToTarget(t.target.value.handle, MotionEvent(Cancel, ev.x, ev.y)),
                    ToSuper(t.down.value), ToSuper(ev)]
  {
  }

  /** UP, CANCEL and an over-slop MOVE end tracking; every other event keeps the same target and DOWN. */
  lemma TrackingEnds(t: TouchState, env: TouchEnv, ev: MotionEvent)
    requires TouchValid(t) && t.target.Some?
    ensures Dispatch(t, env, ev).touch.target.None? <==>
              ev.action == Up || ev.action == Cancel || OverSlop(t.point, env, ev)
    ensures Dispatch(t, env, ev).touch.target.Some? ==> Dispatch(t, env, ev).touch == t
  {
  }

  /** A sequence of events delivered one after another: the final state and all effects in order. */
  function Run(t: TouchState, env: TouchEnv, events: seq<MotionEvent>): (r: (TouchState, seq<Effect>))
    requires TouchValid(t)
    ensures TouchValid(r.0)
    decreases |events|
  {
    if events == [] then (t, [])
    else
      var step := Dispatch(t, env, events[0]);
      var rest := Run(step.touch, env, events[1..]);
      (rest.0, step.effects + rest.1)
  }

  /** The number of item clicks among some effects. */
  function Clicks(effects: seq<Effect>): nat
  {
    if effects == [] then 0
    else (if effects[0].ItemClick? then 1 else 0) + Clicks(effects[1..])
  }

  lemma {:induction false} ClicksAppend(e1: seq<Effect>, e2: seq<Effect>)
    ensures Clicks(e1 + e2) == Clicks(e1) + Clicks(e2)
    decreases |e1|
  {
    if e1 != [] {
      assert (e1 + e2)[0] == e1[0];
      assert (e1 + e2)[1..] == e1[1..] + e2;
      ClicksAppend(e1[1..], e2);
    } else {
      assert e1 + e2 == e2;
    }
  }

  /** Events that neither end a tracked gesture nor start a new one. */
  predicate Steady(point: Point, env: TouchEnv, ev: MotionEvent)
  {
    ev.action != Up && ev.action != Cancel && ev.action != Down && !OverSlop(point, env, ev)
  }

  /** While tracking, steady events keep the tracking state and report no click. */
  lemma {:induction false} SteadyKeepsTracking(t: TouchState, env: TouchEnv, events: seq<MotionEvent>)
    requires TouchValid(t) && t.target.Some?
    requires forall i :: 0 <= i < |events| ==> Steady(t.point, env, events[i])
    ensures Run(t, env, events).0 == t
    ensures Clicks(Run(t, env, events).1) == 0
    decreases |events|
  {
    if events != [] {
      var step := Dispatch(t, env, events[0]);
      assert step.touch == t;
      assert Clicks(step.effects) == 0;
      SteadyKeepsTracking(t, env, events[1..]);
      ClicksAppend(step.effects, Run(t, env, events[1..]).1);
    }
  }

  /**
   * A tap on the pinned view: a DOWN inside it, any steady events, then an
   * UP. Exactly one click is reported (when an item-click listener is set)
   * and the handler is idle again afterwards.
   */
  lemma {:induction false} TapClicksOnce(t: TouchState, env: TouchEnv, down: MotionEvent,
                                         middle: seq<MotionEvent>, up: MotionEvent)
    requires TouchValid(t) && t.target.None?
    requires StartsTracking(t, env, down)
    requires up.action == Up
    requires forall i :: 0 <= i < |middle| ==> Steady(Point(down.x, down.y), env, middle[i])
    ensures var r := Run(t, env, [down] + middle + [up]);
            r.0.target.None? && Clicks(r.1) == if env.clickListener.Some? then 1 else 0
  {
    var events := [down] + middle + [up];
    var first := Dispatch(t, env, down);
    var tracking := first.touch;
    assert tracking == TouchState(Some(env.pinned.value.view), Point(down.x, down.y), Some(down));
    assert Clicks(first.effects) == 0;
    SteadyKeepsTracking(tracking, env, middle);
    var mid := Run(tracking, env, middle);
    var last := Dispatch(tracking, env, up);
    UpClicksOnce(tracking, env, up);
    var fwd: seq<Effect> := if IsPinnedViewTouched(tracking.target.value, env.translateY, up.x, up.y)
                            then [ToTarget(tracking.target.value.handle, up)] else [];
    assert Clicks(fwd) == 0;
    ClicksAppend(fwd, [ToSuper(up)]);
    ClicksAppend(fwd + [ToSuper(up)], PinnedItemClick(env));
    assert Clicks(last.effects) == if env.clickListener.Some? then 1 else 0;
    assert [up][1..] == [];
    assert Run(tracking, env, [up]) == (last.touch, last.effects + []);
    assert last.effects + [] == last.effects;
    RunAppend(tracking, env, middle, [up]);
    assert Run(tracking, env, middle + [up]) == (last.touch, mid.1 + last.effects);
    ClicksAppend(mid.1, last.effects);
    assert events[0] == down;
    assert events[1..] == middle + [up];
    assert Run(t, env, events) == (last.touch, first.effects + (mid.1 + last.effects));
    ClicksAppend(first.effects, mid.1 + last.effects);
  }

  /** While idle, events that are not a DOWN all pass to the list, in order, and report no click. */
  lemma {:induction false} IdleWithoutDownPasses(t: TouchState, env: TouchEnv, events: seq<MotionEvent>)
    requires TouchValid(t) && t.target.None?
    requires forall i :: 0 <= i < |events| ==> events[i].action != Down
    ensures Run(t, env, events).0 == t
    ensures Run(t, env, events).1 == seq(|events|, i requires 0 <= i < |events| => ToSuper(events[i]))
    ensures Clicks(Run(t, env, events).1) == 0
    decreases |events|
  {
    if events != [] {
      IdleWithoutDownPasses(t, env, events[1..]);
      var rest := Run(t, env, events[1..]);
      assert Run(t, env, events) == (t, [ToSuper(events[0])] + rest.1);
      assert Clicks([ToSuper(events[0])]) == 0;
      ClicksAppend([ToSuper(events[0])], rest.1);
    }
  }

  /**
   * A gesture reclassified as a drag never clicks: a DOWN on the pinned
   * view, steady events, an over-slop MOVE and then any events without a new
   * DOWN report no click, and everything after the hand-off goes to the list.
   */
  lemma {:induction false} DragNeverClicks(t: TouchState, env: TouchEnv, down: MotionEvent,
                                           middle: seq<MotionEvent>, move: MotionEvent, after: seq<MotionEvent>)
    requires TouchValid(t) && t.target.None?
    requires StartsTracking(t, env, down)
    requires forall i :: 0 <= i < |middle| ==> Steady(Point(down.x, down.y), env, middle[i])
    requires OverSlop(Point(down.x, down.y), env, move)
    requires forall i :: 0 <= i < |after| ==> after[i].action != Down
    ensures var r := Run(t, env, [down] + middle + [move] + after);
            r.0.target.None? && Clicks(r.1) == 0
  {
    var first := Dispatch(t, env, down);
    var tracking := first.touch;
    assert Clicks(first.effects) == 0;
    SteadyKeepsTracking(tracking, env, middle);
    var mid := Run(tracking, env, middle);
    var handOff := Dispatch(tracking, env, move);
    OverSlopHandsOff(tracking, env, move);
    assert handOff.touch == Cleared(tracking);
    var n := |handOff.effects|;
    assert forall i :: 0 <= i < n ==> !handOff.effects[i].ItemClick?;
    NoClickEffects(handOff.effects);
    IdleWithoutDownPasses(handOff.touch, env, after);
    var tail := Run(handOff.touch, env, after);
    assert Run(tracking, env, [move] + after) == (tail.0, handOff.effects + tail.1) by {
      assert ([move] + after)[0] == move;
      assert ([move] + after)[1..] == after;
    }
    ClicksAppend(handOff.effects, tail.1);
    RunAppend(tracking, env, middle, [move] + after);
    ClicksAppend(mid.1, handOff.effects + tail.1);
    var events := [down] + middle + [move] + after;
    assert events[0] == down;
    assert events[1..] == middle + ([move] + after);
    assert Run(t, env, events) == (tail.0, first.effects + (mid.1 + (handOff.effects + tail.1)));
    ClicksAppend(first.effects, mid.1 + (handOff.effects + tail.1));
  }

  lemma {:induction false} NoClickEffects(effects: seq<Effect>)
    requires forall i :: 0 <= i < |effects| ==> !effects[i].ItemClick?
    ensures Clicks(effects) == 0
    decreases |effects|
  {
    if effects != [] {
      NoClickEffects(effects[1..]);
    }
  }

  /** Running two event sequences one after the other is running their concatenation. */
  lemma {:induction false} RunAppend(t: TouchState, env: TouchEnv, e1: seq<MotionEvent>, e2: seq<MotionEvent>)
    requires TouchValid(t)
    ensures var r1 := Run(t, env, e1);
            var r2 := Run(r1.0, env, e2);
            Run(t, env, e1 + e2) == (r2.0, r1.1 + r2.1)
    decreases |e1|
  {
    if e1 == [] {
      assert e1 + e2 == e2;
      assert [] + Run(t, env, e2).1 == Run(t, env, e2).1;
    } else {
      assert (e1 + e2)[0] == e1[0];
      assert (e1 + e2)[1..] == e1[1..] + e2;
      var step := Dispatch(t, env, e1[0]);
      RunAppend(step.touch, env, e1[1..], e2);
      var tail1 := Run(step.touch, env, e1[1..]);
      var tail2 := Run(tail1.0, env, e2);
      assert Run(t, env, e1) == (tail1.0, step.effects + tail1.1);
      assert step.effects + (tail1.1 + tail2.1) == (step.effects + tail1.1) + tail2.1;
    }
  }
}
