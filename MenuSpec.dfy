/**
 * The state of a paging-menu controller as a value, and one function per
 * operation that says what the operation makes of it. The controller class
 * in PagingMenuViewController.dfy is proved to follow these functions; the
 * lemmas here state what the operations promise.
 */
module MenuSpec {
  import opened Wrappers
  import opened Geometry

  /** Calls the controller makes to the outside world, in order. */
  datatype Event =
    | DidSelect(page: int, previousPage: int)   // delegate: an item was tapped
    | FocusViewDidEndTransition                 // delegate: the focus indicator settled
    | ReloadCompletion(finish: bool)            // the caller's reload completion handler

  /**
   * What the controller can ask the item strip: the laid-out frame of each
   * item (an index is absent when the strip has no frame for it), the strip's
   * bounds and its content size.
   */
  datatype Strip = Strip(frames: map<int, Rect>, bounds: Size, contentSize: Size) {
    function RectForItem(index: int): (r: Option<Rect>)
      ensures r.Some? <==> index in frames
      ensures r.Some? ==> r.value == frames[index]
    {
      if index in frames then Some(frames[index]) else None
    }
  }

  /** The deferred action installed before a size change: re-settle on `captured ?? 0`. */
  datatype LayoutHandler = Resettle(captured: Option<int>)

  datatype MenuState = MenuState(
    strip: Strip,
    focusSize: Size,                       // focusView.frame.size
    focusCenter: Point,                    // focusView.center
    selectedIndex: Option<int>,            // focusView.selectedIndex
    contentOffset: Point,                  // the offset last requested of the strip
    offsetAnimated: bool,                  // whether that request was animated
    layoutHandler: Option<LayoutHandler>,
    hasDelegate: bool,                     // the weak delegate is still set
    events: seq<Event>)

  /** A fresh controller: the focus view has frame `.zero` and nothing is selected. */
  function Initial(strip: Strip, hasDelegate: bool): (t: MenuState)
    ensures FocusFrame(t) == Rect(Point(0.0, 0.0), Size(0.0, 0.0))
    ensures t.selectedIndex.None? && t.layoutHandler.None? && t.events == []
    ensures t.strip == strip && t.hasDelegate == hasDelegate
  {
    MenuState(strip, Size(0.0, 0.0), Point(0.0, 0.0), None, Point(0.0, 0.0), false, None, hasDelegate, [])
  }

  /** The focus view's frame, derived from its centre and size. */
  function FocusFrame(s: MenuState): (r: Rect)
    ensures r.size == s.focusSize
    ensures MidX(r) == s.focusCenter.x && MidY(r) == s.focusCenter.y
  {
    Rect(Point(s.focusCenter.x - s.focusSize.width / 2.0, s.focusCenter.y - s.focusSize.height / 2.0), s.focusSize)
  }

  /** A delegate call: recorded only while the delegate is set (`delegate?.…`). */
  function Notify(s: MenuState, e: Event): (t: MenuState)
    ensures t.(events := s.events) == s
    ensures s.hasDelegate ==> t.events == s.events + [e]
    ensures !s.hasDelegate ==> t == s
  {
    if s.hasDelegate then s.(events := s.events + [e]) else s
  }

  /** Number of occurrences of `e` in a call log. */
  function Count(events: seq<Event>, e: Event): (n: nat) {
    if events == [] then 0 else (if events[0] == e then 1 else 0) + Count(events[1..], e)
  }

  lemma {:induction false} CountAppend(a: seq<Event>, b: seq<Event>, e: Event)
    ensures Count(a + b, e) == Count(a, e) + Count(b, e)
  {
    if a == [] {
      assert a + b == b;
    } else {
      assert (a + b)[1..] == a[1..] + b;
      CountAppend(a[1..], b, e);
    }
  }

  /** Appending one call adds one occurrence of it and leaves every other count alone. */
  lemma CountAppendOne(a: seq<Event>, x: Event)
    ensures Count(a + [x], x) == Count(a, x) + 1
    ensures forall e :: e != x ==> Count(a + [x], e) == Count(a, e)
  {
    CountAppend(a, [x], x);
    forall e | e != x ensures Count(a + [x], e) == Count(a, e) {
      CountAppend(a, [x], e);
    }
  }

  predicate Laid(s: MenuState, index: int) { index in s.strip.frames }

  /**
   * `scroll(index:percent:animated:)`: move the focus indicator `percent` of
   * the way from item `index` to item `index + 1` and scroll the strip to
   * centre it; a no-op unless both items have frames.
   */
  function Scroll(s: MenuState, index: int, percent: real, animated: bool): (t: MenuState)
    ensures !(Laid(s, index) && Laid(s, index + 1)) ==> t == s
    ensures Laid(s, index) && Laid(s, index + 1) ==> t.selectedIndex == Some(index) && t.offsetAnimated == animated
    ensures t.strip == s.strip && t.layoutHandler == s.layoutHandler && t.hasDelegate == s.hasDelegate
  {
    var left := s.strip.RectForItem(index);
    var right := s.strip.RectForItem(index + 1);
    if left.None? || right.None? then s
    else
      var center := InterpolatedCenter(left.value, right.value, percent);
      var moved := s.(
        focusSize := InterpolatedSize(left.value, right.value, percent),
        focusCenter := center,
        contentOffset := ScrollOffset(center, s.strip.bounds, s.strip.contentSize),
        offsetAnimated := animated,
        selectedIndex := Some(index));
      if percent == 0.0 && !animated then Notify(moved, FocusViewDidEndTransition) else moved
  }

  /**
   * The geometry `scroll` leaves behind: at `percent == 0` the focus indicator
   * covers the left item's size and centre, at `percent == 1` the right
   * item's, and in between its centre lies on the segment joining the two
   * midpoints at fraction `percent`.
   */
  lemma ScrollFocusGeometry(s: MenuState, index: int, percent: real, animated: bool)
    requires Laid(s, index) && Laid(s, index + 1)
    ensures var t := Scroll(s, index, percent, animated);
      var left, right := s.strip.frames[index], s.strip.frames[index + 1];
      && t.focusSize == InterpolatedSize(left, right, percent)
      && (percent == 0.0 ==> t.focusSize == StandardSize(left) && t.focusCenter == Center(left))
      && (percent == 1.0 ==> t.focusSize == StandardSize(right) && t.focusCenter == Center(right))
      && t.focusCenter.x - MidX(left) == percent * (MidX(right) - MidX(left))
      && t.focusCenter.y - MidY(left) == percent * (MidY(right) - MidY(left))
  {
    CenterOnSegment(s.strip.frames[index], s.strip.frames[index + 1], percent);
  }

  /**
   * The offset `scroll` requests is the clamped offset that centres the new
   * focus centre: it lies in [0, max(0, content - bounds)] on each axis, and
   * is exactly 0 on an axis where the content fits the viewport.
   */
  lemma ScrollOffsetInRange(s: MenuState, index: int, percent: real, animated: bool)
    requires Laid(s, index) && Laid(s, index + 1)
    ensures var t := Scroll(s, index, percent, animated);
      var b, c := s.strip.bounds, s.strip.contentSize;
      && t.contentOffset == ScrollOffset(t.focusCenter, b, c)
      && 0.0 <= t.contentOffset.x <= Max(0.0, c.width - b.width)
      && 0.0 <= t.contentOffset.y <= Max(0.0, c.height - b.height)
      && (c.width <= b.width ==> t.contentOffset.x == 0.0)
      && (c.height <= b.height ==> t.contentOffset.y == 0.0)
  {
  }

  /**
   * Transition-end fires from `scroll` exactly once, synchronously, if and
   * only if the item frames exist, `percent == 0`, the move is not animated
   * and a delegate is set; no other call is made.
   */
  lemma ScrollTransitionEnd(s: MenuState, index: int, percent: real, animated: bool)
    ensures var t := Scroll(s, index, percent, animated);
      var fires := Laid(s, index) && Laid(s, index + 1) && percent == 0.0 && !animated && s.hasDelegate;
      && t.events == s.events + (if fires then [FocusViewDidEndTransition] else [])
      && Count(t.events, FocusViewDidEndTransition)
         == Count(s.events, FocusViewDidEndTransition) + (if fires then 1 else 0)
      && (forall e :: e != FocusViewDidEndTransition ==> Count(t.events, e) == Count(s.events, e))
  {
    var fires := Laid(s, index) && Laid(s, index + 1) && percent == 0.0 && !animated && s.hasDelegate;
    if fires {
      CountAppendOne(s.events, FocusViewDidEndTransition);
    } else {
      assert s.events + [] == s.events;
    }
  }

  /**
   * A layout handler is pending whose re-settling `scroll` will take effect:
   * the captured index (or 0) and its right neighbour both have frames.
   */
  predicate PendingResettles(s: MenuState) {
    && s.layoutHandler.Some?
    && Laid(s, s.layoutHandler.value.captured.GetOr(0))
    && Laid(s, s.layoutHandler.value.captured.GetOr(0) + 1)
  }

  /**
   * What a layout pass adds to the log: one transition-end exactly when a
   * pending handler re-settles and a delegate is set, and nothing else.
   */
  lemma LayoutPassEvents(s: MenuState)
    ensures var t := DidLayoutSubviews(s);
      var fires := PendingResettles(s) && s.hasDelegate;
      && t.events == s.events + (if fires then [FocusViewDidEndTransition] else [])
      && Count(t.events, FocusViewDidEndTransition)
         == Count(s.events, FocusViewDidEndTransition) + (if fires then 1 else 0)
      && (forall e :: e != FocusViewDidEndTransition ==> Count(t.events, e) == Count(s.events, e))
  {
    match s.layoutHandler
    case None =>
      assert s.events + [] == s.events;
    case Some(handler) =>
      ScrollTransitionEnd(s, handler.captured.GetOr(0), 0.0, false);
  }

  /**
   * The tap's own steps, before its animation block forces a layout pass:
   * report the selection against the previous index (0 when none), select
   * the item, scroll horizontally towards it and give the focus indicator
   * the item's frame.
   */
  function TapMoved(s: MenuState, index: int, item: Rect): (t: MenuState) {
    Notify(s, DidSelect(index, s.selectedIndex.GetOr(0))).(
      selectedIndex := Some(index),
      contentOffset := TapOffset(item, s.strip.bounds, s.strip.contentSize),
      offsetAnimated := true,
      focusSize := StandardSize(item),
      focusCenter := Center(item))
  }

  /**
   * `pagingMenuView(_:didSelectItemAt:)`: a no-op when the tapped item has no
   * frame; otherwise the tap's own steps, then the layout pass that the
   * animation block forces (`setNeedsLayout` and `layoutIfNeeded`), which runs
   * and clears any pending layout handler. When that handler re-settles, its
   * `scroll` overrides the tap's selection and geometry.
   */
  function DidSelectItem(s: MenuState, index: int): (t: MenuState)
    ensures !Laid(s, index) ==> t == s
    ensures Laid(s, index) && !PendingResettles(s) ==>
      var item := s.strip.frames[index];
      && t.selectedIndex == Some(index)
      && t.focusSize == StandardSize(item) && t.focusCenter == Center(item)
      && (item.size.width >= 0.0 && item.size.height >= 0.0 ==> FocusFrame(t) == item)
      && t.contentOffset == TapOffset(item, s.strip.bounds, s.strip.contentSize)
      && t.offsetAnimated
    ensures Laid(s, index) ==> t.layoutHandler.None?
    ensures t.strip == s.strip && t.hasDelegate == s.hasDelegate
  {
    match s.strip.RectForItem(index)
    case None => s
    case Some(item) => DidLayoutSubviews(TapMoved(s, index, item))
  }

  /**
   * A tap while a size change is pending: the forced layout pass re-settles
   * on the captured index (or 0) without animation, so that item ends up
   * selected and focused, and the handler is gone.
   */
  lemma DidSelectRunsPendingLayout(s: MenuState, index: int)
    requires Laid(s, index) && PendingResettles(s)
    ensures var c := s.layoutHandler.value.captured.GetOr(0);
      var t := DidSelectItem(s, index);
      && t.selectedIndex == Some(c)
      && t.focusSize == StandardSize(s.strip.frames[c])
      && t.focusCenter == Center(s.strip.frames[c])
      && t.contentOffset == ScrollOffset(Center(s.strip.frames[c]), s.strip.bounds, s.strip.contentSize)
      && !t.offsetAnimated
      && t.layoutHandler.None?
  {
    var c := s.layoutHandler.value.captured.GetOr(0);
    ScrollFocusGeometry(TapMoved(s, index, s.strip.frames[index]), c, 0.0, false);
  }

  /**
   * A tap on a laid-out item makes exactly one `didSelect(index, previous)`
   * call, where `previous` is the index selected before the tap or 0 when
   * there was none. The only other call it can make is the transition-end of
   * a pending handler's re-settling.
   */
  lemma DidSelectNotifiesOnce(s: MenuState, index: int)
    requires Laid(s, index) && s.hasDelegate
    ensures var t := DidSelectItem(s, index);
      var call := DidSelect(index, s.selectedIndex.GetOr(0));
      && t.events == s.events + [call] + (if PendingResettles(s) then [FocusViewDidEndTransition] else [])
      && Count(t.events, call) == Count(s.events, call) + 1
      && Count(t.events, FocusViewDidEndTransition)
         == Count(s.events, FocusViewDidEndTransition) + (if PendingResettles(s) then 1 else 0)
      && (forall e :: e != call && e != FocusViewDidEndTransition ==> Count(t.events, e) == Count(s.events, e))
      && (s.selectedIndex.None? ==> call.previousPage == 0)
  {
    var call := DidSelect(index, s.selectedIndex.GetOr(0));
    var u := TapMoved(s, index, s.strip.frames[index]);
    assert PendingResettles(u) == PendingResettles(s);
    CountAppendOne(s.events, call);
    LayoutPassEvents(u);
  }

  /** Without a delegate a tap still moves the selection but calls nobody. */
  lemma DidSelectWithoutDelegate(s: MenuState, index: int)
    requires !s.hasDelegate
    ensures DidSelectItem(s, index).events == s.events
  {
    if Laid(s, index) {
      LayoutPassEvents(TapMoved(s, index, s.strip.frames[index]));
    }
  }

  /**
   * With no re-settling pending, the tap path gives the focus indicator the
   * geometry `scroll` reaches at `percent == 1` from the item to its left
   * (though `scroll` then marks the left item selected), and the same
   * horizontal offset whenever the content is at least as wide as the
   * viewport.
   */
  lemma TapIsScrollEndpoint(s: MenuState, index: int, animated: bool)
    requires Laid(s, index - 1) && Laid(s, index)
    ensures var tap, sc := DidSelectItem(s, index), Scroll(s, index - 1, 1.0, animated);
      !PendingResettles(s) ==>
      && tap.focusSize == sc.focusSize
      && tap.focusCenter == sc.focusCenter
      && tap.selectedIndex == Some(index) && sc.selectedIndex == Some(index - 1)
      && (s.strip.contentSize.width >= s.strip.bounds.width ==> tap.contentOffset.x == sc.contentOffset.x)
  {
    assert index - 1 + 1 == index;
    TapOffsetVersusScrollOffset(s.strip.frames[index], s.strip.bounds, s.strip.contentSize);
  }

  /**
   * When the content is narrower than the viewport a tap (with no
   * re-settling pending) asks for the negative offset `content - bounds`,
   * whereas `scroll` would ask for 0.
   */
  lemma TapOffsetNegativeWhenNarrow(s: MenuState, index: int)
    requires Laid(s, index)
    requires s.strip.contentSize.width < s.strip.bounds.width
    ensures !PendingResettles(s) ==>
      && DidSelectItem(s, index).contentOffset.x == s.strip.contentSize.width - s.strip.bounds.width < 0.0
      && DidSelectItem(s, index).contentOffset.y == 0.0
  {
  }

  /** The completion of the tap animation: transition-end only when it finished. */
  function SelectAnimationFinished(s: MenuState, finish: bool): (t: MenuState)
    ensures t.(events := s.events) == s
    ensures t.events == if finish && s.hasDelegate then s.events + [FocusViewDidEndTransition] else s.events
  {
    if finish then Notify(s, FocusViewDidEndTransition) else s
  }

  /**
   * Selecting item `k` while `j` is selected makes one `didSelect(k, j)` call
   * and then, once the move animation finishes, one transition-end call; an
   * interrupted animation makes no transition-end call. A pending handler's
   * re-settling adds one more transition-end and takes the selection.
   */
  lemma TapThenAnimation(s: MenuState, k: int, j: int, finish: bool)
    requires Laid(s, k) && s.hasDelegate && s.selectedIndex == Some(j)
    ensures var t := SelectAnimationFinished(DidSelectItem(s, k), finish);
      && Count(t.events, DidSelect(k, j)) == Count(s.events, DidSelect(k, j)) + 1
      && Count(t.events, FocusViewDidEndTransition)
         == Count(s.events, FocusViewDidEndTransition)
            + (if PendingResettles(s) then 1 else 0) + (if finish then 1 else 0)
      && (PendingResettles(s) ==> t.selectedIndex == Some(s.layoutHandler.value.captured.GetOr(0)))
      && (!PendingResettles(s) ==>
            && t.selectedIndex == Some(k)
            && t.events == s.events + [DidSelect(k, j)] + (if finish then [FocusViewDidEndTransition] else []))
  {
    var u := DidSelectItem(s, k);
    DidSelectNotifiesOnce(s, k);
    if finish {
      CountAppendOne(u.events, FocusViewDidEndTransition);
    } else {
      assert u.events + [] == u.events;
    }
  }

  /** `scrollViewDidEndDecelerating`: the strip came to rest, so the focus settled. */
  function DidEndDecelerating(s: MenuState): (t: MenuState)
    ensures t.(events := s.events) == s
    ensures t.events == if s.hasDelegate then s.events + [FocusViewDidEndTransition] else s.events
    ensures Count(t.events, FocusViewDidEndTransition)
         == Count(s.events, FocusViewDidEndTransition) + (if s.hasDelegate then 1 else 0)
  {
    CountAppendOne(s.events, FocusViewDidEndTransition);
    Notify(s, FocusViewDidEndTransition)
  }

  /** `scrollViewDidEndDragging(_:willDecelerate:)`: settles only when no deceleration follows. */
  function DidEndDragging(s: MenuState, decelerate: bool): (t: MenuState)
    ensures decelerate ==> t == s
    ensures !decelerate ==> t == DidEndDecelerating(s)
  {
    if !decelerate then Notify(s, FocusViewDidEndTransition) else s
  }

  /**
   * `viewWillTransition(to:with:)`: capture the index under the focus centre
   * now and defer re-settling to the next layout pass. `indexForItem` is the
   * strip's point-to-index query.
   */
  function WillTransition(s: MenuState, indexForItem: Point -> Option<int>): (t: MenuState)
    ensures t.layoutHandler == Some(Resettle(indexForItem(s.focusCenter)))
    ensures t.(layoutHandler := s.layoutHandler) == s
  {
    s.(layoutHandler := Some(Resettle(indexForItem(s.focusCenter))))
  }

  /** `viewDidLayoutSubviews`: run the pending handler, if any; the handler clears itself. */
  function DidLayoutSubviews(s: MenuState): (t: MenuState)
    ensures s.layoutHandler.None? ==> t == s
    ensures t.layoutHandler.None?
  {
    match s.layoutHandler
    case None => s
    case Some(Resettle(captured)) => Scroll(s, captured.GetOr(0), 0.0, false).(layoutHandler := None)
  }

  /** The handler is one-shot: a second layout pass does nothing. */
  lemma LayoutHandlerIsOneShot(s: MenuState)
    ensures DidLayoutSubviews(DidLayoutSubviews(s)) == DidLayoutSubviews(s)
  {
  }

  /**
   * A size change followed by a layout pass (with the strip laid out afresh
   * as `relaid`) re-settles the focus indicator on the captured index, or 0
   * when none was captured, without animation: the indicator takes that
   * item's frame and transition-end fires once. When that item or its right
   * neighbour has no frame nothing but the handler changes. Either way the
   * handler is gone afterwards.
   */
  lemma RotationResettles(s: MenuState, indexForItem: Point -> Option<int>, relaid: Strip)
    ensures var i := indexForItem(s.focusCenter).GetOr(0);
      var s2 := DidLayoutSubviews(WillTransition(s, indexForItem).(strip := relaid));
      && s2.layoutHandler.None?
      && DidLayoutSubviews(s2) == s2
      && (i in relaid.frames && i + 1 in relaid.frames ==>
            && s2.selectedIndex == Some(i)
            && s2.focusSize == StandardSize(relaid.frames[i])
            && s2.focusCenter == Center(relaid.frames[i])
            && !s2.offsetAnimated
            && Count(s2.events, FocusViewDidEndTransition)
               == Count(s.events, FocusViewDidEndTransition) + (if s.hasDelegate then 1 else 0))
      && (!(i in relaid.frames && i + 1 in relaid.frames) ==>
            s2 == s.(strip := relaid, layoutHandler := None))
  {
    var i := indexForItem(s.focusCenter).GetOr(0);
    var s1 := WillTransition(s, indexForItem).(strip := relaid);
    assert DidLayoutSubviews(s1) == Scroll(s1, i, 0.0, false).(layoutHandler := None);
    ScrollTransitionEnd(s1, i, 0.0, false);
    if i in relaid.frames && i + 1 in relaid.frames {
      ScrollFocusGeometry(s1, i, 0.0, false);
    }
  }

  /**
   * The completion of `reloadDate(startingOn:completionHandler:)`, after the
   * strip has reloaded: with a starting index, re-settle on it without
   * animation and then call the completion handler (if one was given) with
   * `finish`; without a starting index do nothing, not even call the handler.
   */
  function ReloadCompleted(s: MenuState, index: Option<int>, hasCompletionHandler: bool, finish: bool): (t: MenuState)
    ensures index.None? ==> t == s
    ensures index.Some? && !(Laid(s, index.value) && Laid(s, index.value + 1)) ==>
      t == s.(events := s.events + (if hasCompletionHandler then [ReloadCompletion(finish)] else []))
    ensures t.strip == s.strip && t.layoutHandler == s.layoutHandler
  {
    match index
    case None => s
    case Some(i) =>
      var settled := Scroll(s, i, 0.0, false);
      if hasCompletionHandler then settled.(events := settled.events + [ReloadCompletion(finish)]) else settled
  }

  /**
   * Reloading with a starting index whose frames exist puts the focus
   * indicator exactly on that item with no animation, fires transition-end
   * once (when a delegate is set) and then calls the completion handler once
   * (when one was given).
   */
  lemma ReloadResettles(s: MenuState, i: int, hasCompletionHandler: bool, finish: bool)
    requires Laid(s, i) && Laid(s, i + 1)
    ensures var t := ReloadCompleted(s, Some(i), hasCompletionHandler, finish);
      && t.selectedIndex == Some(i)
      && t.focusSize == StandardSize(s.strip.frames[i])
      && t.focusCenter == Center(s.strip.frames[i])
      && !t.offsetAnimated
      && t.events == s.events + (if s.hasDelegate then [FocusViewDidEndTransition] else [])
                              + (if hasCompletionHandler then [ReloadCompletion(finish)] else [])
      && Count(t.events, ReloadCompletion(finish))
         == Count(s.events, ReloadCompletion(finish)) + (if hasCompletionHandler then 1 else 0)
  {
    var settled := Scroll(s, i, 0.0, false);
    ScrollFocusGeometry(s, i, 0.0, false);
    ScrollTransitionEnd(s, i, 0.0, false);
    if hasCompletionHandler {
      CountAppendOne(settled.events, ReloadCompletion(finish));
    } else {
      assert settled.events + [] == settled.events;
    }
  }
}
