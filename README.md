# PagingKit paging-menu focus indicator, modelled in Dafny

PagingKit's `PagingMenuViewController` drives a horizontally scrolling strip
of menu cells and a focus indicator that slides between them. This project
models its geometry and its state rules:

- `Geometry.dfy`: the arithmetic. The focus indicator's size and centre are
  interpolated linearly between the frame of item `index` and the frame of
  item `index + 1`. The strip is then scrolled to centre that point, with the
  offset clamped to `[0, max(0, contentSize - boundsSize)]` on each axis. The
  tap path clamps its horizontal offset to `[0, contentWidth - boundsWidth]`
  with no `max(0, …)` guard, so it asks for a negative offset when the
  content is narrower than the viewport. The model keeps that behaviour as
  written. `CGFloat` is `real`, so `percent == 0` is an exact comparison.
- `MenuSpec.dfy`: the controller's state as a value `MenuState` and one
  function per operation. The state holds the strip, the focus size and
  centre, `selectedIndex` (absent at first), the last requested content
  offset, the one-shot layout handler, whether a delegate is set, and a log
  of the calls made to the outside. The lemmas state what each operation
  promises: no-ops on missing frames, exact counts of calls, one-shot
  re-settling after a size change.
- `PagingMenuViewController.dfy`: the controller as a class whose fields are
  that state. Each operation's method is written step by step like its
  Swift original, and its postcondition says the new state is the matching
  `MenuSpec` function of the old one.

The item strip (`PagingMenuView`) is not part of this model. It is
abstracted as the `Strip` value: a map from item index to laid-out frame
(an index without an entry has no frame), the bounds and the content size.
`setContentOffset` only records the requested offset and its `animated`
flag. The strip's point-to-index query `indexForItem(at:)` is a function
parameter of `ViewWillTransition`. The weak delegate is a flag: while it is
unset, `delegate?.…` calls are not logged. The data source is an optional
value giving an item count and a width per item. The transition-end call
passes the focus view itself; the logged call omits it, because the view's
frame at that moment is the state's focus frame.

Behaviours of the code that the model keeps as written:
- the tap path's upper bound `contentWidth - boundsWidth` has no `max(0, …)`
  guard;
- the reload completion handler runs only when a starting index was given;
- the tap's animation block forces a layout pass (`setNeedsLayout`,
  `layoutIfNeeded`), which runs and clears a pending rotation handler, so a
  tap during a size change ends with the re-settled index selected;
- `scroll` needs frames for both `index` and `index + 1`, so reloading or
  rotating onto the last item leaves the focus where it was and fires no
  transition-end (the reload completion handler is still called).

## Model

| member | source | states |
|---|---|---|
| Geometry.Width | PagingKit/PagingMenuViewController.swift:59-60 | a frame's reported width is non-negative and equals its width when that is already non-negative |
| Geometry.Height | PagingKit/PagingMenuViewController.swift:60 | a frame's reported height is non-negative and equals its height when that is already non-negative |
| Geometry.MidX | PagingKit/PagingMenuViewController.swift:63 | `midX` is the smaller horizontal edge plus half the standardized width |
| Geometry.MidY | PagingKit/PagingMenuViewController.swift:68 | `midY` is the smaller vertical edge plus half the standardized height |
| Geometry.Lerp | PagingKit/PagingMenuViewController.swift:59-63 | interpolation gives the left value at 0 and the right value at 1, and has moved `t` of the difference |
| Geometry.LerpBetween | PagingKit/PagingMenuViewController.swift:59-68 | for `t` in [0, 1] the interpolated value lies between the two ends |
| Geometry.InterpolatedSize | PagingKit/PagingMenuViewController.swift:59-61 | the focus size equals the left frame's width and height at percent 0 and the right frame's at percent 1 |
| Geometry.InterpolatedCenter | PagingKit/PagingMenuViewController.swift:63-74 | the focus centre is the left frame's midpoint at percent 0 and the right frame's at percent 1 |
| Geometry.CenterOnSegment | PagingKit/PagingMenuViewController.swift:63-74 | both coordinates of the centre move the same fraction `percent` of the way, so the centre lies on the line through the two midpoints |
| Geometry.InterpolationWithinEnds | PagingKit/PagingMenuViewController.swift:59-74 | for percent in [0, 1] centre and size lie between the two frames' values, and the size is non-negative |
| Geometry.ClampedOffset | PagingKit/PagingMenuViewController.swift:64-71 | the offset on one axis lies in [0, max(0, content - viewport)], is 0 when the content fits, and centres the viewport when that is admissible |
| Geometry.ClampedOffsetIsNearest | PagingKit/PagingMenuViewController.swift:64-66 | the clamped offset is the admissible offset nearest to the centring one |
| Geometry.ScrollOffset | PagingKit/PagingMenuViewController.swift:64-72 | the requested offset is in range on x and on y, and 0 on an axis where the content fits |
| Geometry.TapOffset | PagingKit/PagingMenuViewController.swift:202-205 | the tap offset has y = 0; x is in [0, content - bounds] when the content is wide enough and equals the negative content - bounds otherwise |
| Geometry.TapOffsetVersusScrollOffset | PagingKit/PagingMenuViewController.swift:202-205 | tap and scroll agree horizontally when the content is wide enough; when it is narrower the tap offset is below scroll's 0 |
| Geometry.HalfWayFocus | PagingKit/PagingMenuViewController.swift:59-74 | items 100 and 120 wide at x 280 and 380 give, half way, width 110 and centre x 385 |
| Geometry.HalfWayOffset | PagingKit/PagingMenuViewController.swift:64-66 | that centre in a 300-point viewport over 1000 points of content gives offset x 235 |
| MenuSpec.Strip.RectForItem | PagingKit/PagingMenuViewController.swift:56-57 | an item has a frame exactly when the strip has laid it out, and that frame is the laid-out one |
| MenuSpec.Initial | PagingKit/PagingMenuViewController.swift:43 | a fresh state has focus frame `.zero`, nothing selected, no handler and an empty log |
| MenuSpec.Notify | PagingKit/PagingMenuViewController.swift:80 | a delegate call is appended to the log when a delegate is set and is dropped otherwise; nothing else changes |
| MenuSpec.FocusFrame | PagingKit/PagingMenuViewController.swift:61-74 | the focus frame has the stored size and its midpoint at the stored centre |
| MenuSpec.CountAppendOne | PagingKit/PagingMenuViewController.swift:80 | logging one call adds one occurrence of it and leaves every other count unchanged |
| MenuSpec.Scroll | PagingKit/PagingMenuViewController.swift:53-82 | without frames for `index` and `index + 1` nothing changes; otherwise `selectedIndex == index` and the offset request carries `animated`; strip, handler and delegate are untouched |
| MenuSpec.ScrollFocusGeometry | PagingKit/PagingMenuViewController.swift:59-74 | after a scroll the focus size is the interpolated size, matches the left item at 0 and the right item at 1, and its centre is at fraction `percent` between the midpoints |
| MenuSpec.ScrollOffsetInRange | PagingKit/PagingMenuViewController.swift:64-76 | the offset a scroll requests is the clamped offset centring the new focus centre, in [0, max(0, content - bounds)] on both axes and 0 where the content fits |
| MenuSpec.ScrollTransitionEnd | PagingKit/PagingMenuViewController.swift:77-81 | transition-end is logged exactly once iff frames exist, percent is 0, the move is not animated and a delegate is set; otherwise the log is unchanged |
| MenuSpec.DidSelectItem | PagingKit/PagingMenuViewController.swift:195-211 | no-op when the tapped item has no frame; otherwise, unless the forced layout pass re-settles a pending handler, the item is selected, the focus frame becomes the item's frame and the tap offset is requested with animation; no handler is left afterwards |
| MenuSpec.DidSelectRunsPendingLayout | PagingKit/PagingMenuViewController.swift:208-211 | a tap while a re-settling handler is pending ends with the captured index selected and focused, its scroll offset requested unanimated, and the handler gone |
| MenuSpec.LayoutPassEvents | PagingKit/PagingMenuViewController.swift:165-179 | a layout pass logs one transition-end exactly when a pending handler re-settles and a delegate is set, and nothing else |
| MenuSpec.DidSelectNotifiesOnce | PagingKit/PagingMenuViewController.swift:196-211 | a tap logs exactly one `didSelect(index, previous)` with `previous` the old selection or 0, followed only by the transition-end of a pending re-settling |
| MenuSpec.DidSelectWithoutDelegate | PagingKit/PagingMenuViewController.swift:198 | without a delegate a tap logs nothing |
| MenuSpec.TapIsScrollEndpoint | PagingKit/PagingMenuViewController.swift:195-209 | with no re-settling pending, a tap leaves the focus where a scroll from the left neighbour reaches at percent 1, with the same x offset when the content is wide enough |
| MenuSpec.TapOffsetNegativeWhenNarrow | PagingKit/PagingMenuViewController.swift:202-205 | when content is narrower than the viewport a tap (with no re-settling pending) requests x = content - bounds < 0 and y = 0 |
| MenuSpec.SelectAnimationFinished | PagingKit/PagingMenuViewController.swift:212-215 | the tap animation's completion logs transition-end only when it finished and a delegate is set, and changes nothing else |
| MenuSpec.TapThenAnimation | PagingKit/PagingMenuViewController.swift:195-215 | selecting k while j is selected logs one `didSelect(k, j)` and then one transition-end if the animation finished, plus one for a pending re-settling, which then also takes the selection (the captured index, or 0) |
| MenuSpec.DidEndDecelerating | PagingKit/PagingMenuViewController.swift:185-187 | the end of deceleration appends exactly one transition-end to the log when a delegate is set and changes nothing else |
| MenuSpec.DidEndDragging | PagingKit/PagingMenuViewController.swift:189-193 | the end of a drag is a no-op if deceleration follows, and the same as the end of deceleration otherwise |
| MenuSpec.WillTransition | PagingKit/PagingMenuViewController.swift:172-180 | a size change installs a handler capturing the index under the focus centre and changes nothing else |
| MenuSpec.DidLayoutSubviews | PagingKit/PagingMenuViewController.swift:165-179 | a layout pass without a handler is a no-op, and no handler is left after any layout pass |
| MenuSpec.LayoutHandlerIsOneShot | PagingKit/PagingMenuViewController.swift:176-179 | a second layout pass changes nothing |
| MenuSpec.RotationResettles | PagingKit/PagingMenuViewController.swift:165-180 | size change then layout re-settles on the captured index (or 0) without animation and logs one transition-end; without frames only the handler goes |
| MenuSpec.ReloadCompleted | PagingKit/PagingMenuViewController.swift:121-135 | reload completion without a starting index changes nothing; with a starting index lacking frames for it or the next item only the completion handler (if given) is called; strip and handler are never touched |
| MenuSpec.ReloadResettles | PagingKit/PagingMenuViewController.swift:127-132 | reload with a laid-out starting index puts the focus on it unanimated, logs transition-end (with a delegate) and then calls the completion handler once (when given) |
| PagingMenu.PagingMenuViewController.constructor | PagingKit/PagingMenuViewController.swift:39-43 | a new controller has a zero focus frame, nothing selected, no handler and an empty log |
| PagingMenu.PagingMenuViewController.NotifyDelegate | PagingKit/PagingMenuViewController.swift:80 | the new state is `MenuSpec.Notify` of the old one |
| PagingMenu.PagingMenuViewController.SetContentOffset | PagingKit/PagingMenuViewController.swift:76 | the recorded offset and `animated` flag are the requested ones |
| PagingMenu.PagingMenuViewController.Scroll | PagingKit/PagingMenuViewController.swift:53-82 | the new state is `MenuSpec.Scroll` of the old one |
| PagingMenu.PagingMenuViewController.DidSelectItemAt | PagingKit/PagingMenuViewController.swift:195-211 | the new state is `MenuSpec.DidSelectItem` of the old one |
| PagingMenu.PagingMenuViewController.SelectAnimationCompleted | PagingKit/PagingMenuViewController.swift:212-215 | the new state is `MenuSpec.SelectAnimationFinished` of the old one |
| PagingMenu.PagingMenuViewController.ScrollViewDidEndDecelerating | PagingKit/PagingMenuViewController.swift:185-187 | the new state is `MenuSpec.DidEndDecelerating` of the old one |
| PagingMenu.PagingMenuViewController.ScrollViewDidEndDragging | PagingKit/PagingMenuViewController.swift:189-193 | the new state is `MenuSpec.DidEndDragging` of the old one |
| PagingMenu.PagingMenuViewController.ViewWillTransition | PagingKit/PagingMenuViewController.swift:172-180 | the new state is `MenuSpec.WillTransition` of the old one |
| PagingMenu.PagingMenuViewController.ViewDidLayoutSubviews | PagingKit/PagingMenuViewController.swift:165-168 | the new state is `MenuSpec.DidLayoutSubviews` of the old one |
| PagingMenu.PagingMenuViewController.ReloadDateCompleted | PagingKit/PagingMenuViewController.swift:127-133 | the new state is `MenuSpec.ReloadCompleted` of the old one |
| PagingMenu.PagingMenuViewController.NumberOfItemForPagingMenuView | PagingKit/PagingMenuViewController.swift:220-222 | the item count is the data source's, or 0 without a data source |
| PagingMenu.PagingMenuViewController.WidthForItemAt | PagingKit/PagingMenuViewController.swift:224-227 | an item's width is the data source's area for it, or 0 without a data source |
| PagingMenu.RotationScenario | PagingKit/PagingMenuViewController.swift:165-180 | on a controller, a size change and two layout passes select the captured index and log exactly one transition-end |

## Left out

- The UIKit view hierarchy, `viewDidLoad`, autoresizing masks, `didReceiveMemoryWarning`, `registerFocusView` and nib loading: toolkit plumbing. `viewDidLoad` also sets the focus frame to the strip's bounds; the model's initial state is the controller before its view loads, with the `.zero` focus frame.
- Cell registration, dequeueing and `cellForItemAt` with its force-unwrapped data source: these belong to the strip's reuse queue, which is not part of this model.
- `visibleCells`, `currentFocusedCell`, `currentFocusedIndex`, `cellForItem(at:)` and `focusPointerOffset`: each only forwards a query to the strip or reads the focus centre.
- `percentOffset`: a bare division, undefined when the content width is 0, with no stated contract.
- Animation: `UIView.animate`/`UIView.perform` timing and interruption belong to the toolkit. The tap animation's frame change is applied at once, and its completion is the separate step `SelectAnimationCompleted(finish)`. The reload completion is the step `ReloadDateCompleted`, taken after the strip has reloaded; the strip's `reloadData` itself is external, and its effect is a new `Strip` value.
- Weak `self` in closures: a deallocated controller runs no completion; the model has no deallocation.
- The strip's own relayout: frames, bounds and content size change by assigning the `strip` field, which the real `PagingMenuView` does on its own.
- IEEE rounding: exact reals are used throughout.
- Integer overflow: Swift's `index + 1` traps when `index` is `Int.max`; the model's `int` is unbounded, so that trap is not modelled.
