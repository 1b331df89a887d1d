/**
 * The toolkit-facing values the pinned-section list works with: nullable
 * references, motion events, the views an adapter hands out, scroll
 * listeners, and the externally visible effects the list produces.
 */
module Platform {

  /** A nullable reference. */
  datatype Option<T> = None | Some(value: T)

  /** MotionEvent.getAction(): the four actions the list tells apart, and any other code. */
  datatype Action = Down | Up | Move | Cancel | OtherAction(code: int)

  /**
   * A motion event. The toolkit delivers float coordinates; the hit test
   * truncates them to int, so the model keeps them as ints.
   */
  datatype MotionEvent = MotionEvent(action: Action, x: int, y: int)

  /**
   * What an adapter's getView returns: the view's identity and the height of
   * its layout parameters (None when the view carries no layout parameters).
   */
  datatype ItemView = ItemView(handle: int, layoutHeight: Option<int>)

  /** A scroll listener: the list's own internal one, or one registered by a client. */
  datatype ScrollListener = Internal | External(id: int)

  /**
   * The externally observable effects of the list, in the order they happen:
   * callbacks forwarded to the delegate scroll listener, touch events
   * delivered to the pinned view or to the underlying list, and item clicks
   * reported to the item-click listener.
   */
  datatype Effect =
    | ScrollDelegated(listener: int, first: int, visible: int, total: int)
    | ScrollStateDelegated(listener: int, state: int)
    | ToTarget(view: int, ev: MotionEvent)
    | ToSuper(ev: MotionEvent)
    | ItemClick(listener: int, position: int, id: int)

  function Abs(x: int): (r: nat)
    ensures r == x || r == -x
  {
    if x < 0 then -x else x
  }

  function Min(x: int, y: int): (r: int)
    ensures r <= x && r <= y && (r == x || r == y)
  {
    if x < y then x else y
  }
}
