/**
 * The paging-menu controller as an object: its fields are the focus view's
 * state, the offset last requested of the strip, the one-shot layout handler
 * and the log of calls it has made. Each method is proved to take the
 * controller's state exactly where the matching function of MenuSpec says.
 */
module PagingMenu {
  import opened Wrappers
  import opened Geometry
  import MenuSpec

  /** What the data source answers: the item count and each item's width. */
  datatype DataSource = DataSource(numberOfItems: int, areaForItem: int -> real)

  class PagingMenuViewController {
    var strip: MenuSpec.Strip                    // the item strip, as the controller can query it
    var focusSize: Size                          // focusView.frame.size
    var focusCenter: Point                       // focusView.center
    var selectedIndex: Option<int>               // focusView.selectedIndex
    var contentOffset: Point                     // last offset passed to setContentOffset
    var offsetAnimated: bool                     // and its `animated` flag
    var layoutHandler: Option<MenuSpec.LayoutHandler>
    var hasDelegate: bool
    var dataSource: Option<DataSource>
    var events: seq<MenuSpec.Event>

    function State(): MenuSpec.MenuState
      reads this
    {
      MenuSpec.MenuState(strip, focusSize, focusCenter, selectedIndex, contentOffset,
                         offsetAnimated, layoutHandler, hasDelegate, events)
    }

    constructor (strip: MenuSpec.Strip, hasDelegate: bool, dataSource: Option<DataSource>)
      ensures State() == MenuSpec.Initial(strip, hasDelegate)
      ensures this.dataSource == dataSource
    {
      this.strip := strip;
      focusSize := Size(0.0, 0.0);
      focusCenter := Point(0.0, 0.0);
      selectedIndex := None;
      contentOffset := Point(0.0, 0.0);
      offsetAnimated := false;
      layoutHandler := None;
      this.hasDelegate := hasDelegate;
      this.dataSource := dataSource;
      events := [];
    }

    /** `delegate?.…`: the call is logged only while a delegate is set. */
    method NotifyDelegate(e: MenuSpec.Event)
      modifies this`events
      ensures State() == MenuSpec.Notify(old(State()), e)
    {
      if hasDelegate {
        events := events + [e];
      }
    }

    /** The strip's `setContentOffset(_:animated:)`, which only records the request. */
    method SetContentOffset(offset: Point, animated: bool)
      modifies this`contentOffset, this`offsetAnimated
      ensures contentOffset == offset && offsetAnimated == animated
    {
      contentOffset, offsetAnimated := offset, animated;
    }

    method Scroll(index: int, percent: real := 0.0, animated: bool := true)
      modifies this
      ensures State() == MenuSpec.Scroll(old(State()), index, percent, animated)
      ensures dataSource == old(dataSource)
    {
      var rightIndex := index + 1;
      var leftFrame := strip.RectForItem(index);
      var rightFrame := strip.RectForItem(rightIndex);
      if leftFrame.None? || rightFrame.None? {
        return;
      }
      var left, right := leftFrame.value, rightFrame.value;

      var width := (Width(right) - Width(left)) * percent + Width(left);
      var height := (Height(right) - Height(left)) * percent + Height(left);
      focusSize := Size(width, height);

      var centerPointX := MidX(left) + (MidX(right) - MidX(left)) * percent;
      var offsetX := centerPointX - strip.bounds.width / 2.0;
      var maxOffsetX := Max(0.0, strip.contentSize.width - strip.bounds.width);
      var normalizedOffsetX := Min(Max(0.0, offsetX), maxOffsetX);

      var centerPointY := MidY(left) + (MidY(right) - MidY(left)) * percent;
      var offsetY := centerPointY - strip.bounds.height / 2.0;
      var maxOffsetY := Max(0.0, strip.contentSize.height - strip.bounds.height);
      var normalizedOffsetY := Min(Max(0.0, offsetY), maxOffsetY);

      focusCenter := Point(centerPointX, centerPointY);
      SetContentOffset(Point(normalizedOffsetX, normalizedOffsetY), animated);
      selectedIndex := Some(index);

      if percent == 0.0 && !animated {
        NotifyDelegate(MenuSpec.FocusViewDidEndTransition);
      }
    }

    /** `pagingMenuView(_:didSelectItemAt:)`, up to the end of its animation block. */
    method DidSelectItemAt(index: int)
      modifies this
      ensures State() == MenuSpec.DidSelectItem(old(State()), index)
      ensures dataSource == old(dataSource)
    {
      var found := strip.RectForItem(index);
      if found.None? {
        return;
      }
      var itemFrame := found.value;

      NotifyDelegate(MenuSpec.DidSelect(index, selectedIndex.GetOr(0)));

      selectedIndex := Some(index);

      var offsetX := MidX(itemFrame) - strip.bounds.width / 2.0;
      var maxOffsetX := strip.contentSize.width - strip.bounds.width;
      SetContentOffset(Point(Min(Max(0.0, offsetX), maxOffsetX), 0.0), true);

      // the animation block: the focus view takes the item's frame, then
      // `setNeedsLayout` and `layoutIfNeeded` force a layout pass
      focusSize := StandardSize(itemFrame);
      focusCenter := Center(itemFrame);
      ViewDidLayoutSubviews();
    }

    /** The completion block of the animation started by a tap. */
    method SelectAnimationCompleted(finish: bool)
      modifies this
      ensures State() == MenuSpec.SelectAnimationFinished(old(State()), finish)
      ensures dataSource == old(dataSource)
    {
      if !finish {
        return;
      }
      NotifyDelegate(MenuSpec.FocusViewDidEndTransition);
    }

    method ScrollViewDidEndDecelerating()
      modifies this
      ensures State() == MenuSpec.DidEndDecelerating(old(State()))
      ensures dataSource == old(dataSource)
    {
      NotifyDelegate(MenuSpec.FocusViewDidEndTransition);
    }

    method ScrollViewDidEndDragging(decelerate: bool)
      modifies this
      ensures State() == MenuSpec.DidEndDragging(old(State()), decelerate)
      ensures dataSource == old(dataSource)
    {
      if !decelerate {
        NotifyDelegate(MenuSpec.FocusViewDidEndTransition);
      }
    }

    /** `viewWillTransition(to:with:)`; `indexForItem` is the strip's point-to-index query. */
    method ViewWillTransition(indexForItem: Point -> Option<int>)
      modifies this
      ensures State() == MenuSpec.WillTransition(old(State()), indexForItem)
      ensures dataSource == old(dataSource)
    {
      var index := indexForItem(focusCenter);
      layoutHandler := Some(MenuSpec.Resettle(index));
    }

    /** `viewDidLayoutSubviews`: run the pending handler, which then clears itself. */
    method ViewDidLayoutSubviews()
      modifies this
      ensures State() == MenuSpec.DidLayoutSubviews(old(State()))
      ensures dataSource == old(dataSource)
    {
      match layoutHandler
      case None =>
      case Some(handler) =>
        Scroll(handler.captured.GetOr(0), 0.0, false);
        layoutHandler := None;
    }

    /** The completion block of `reloadDate(startingOn:completionHandler:)`. */
    method ReloadDateCompleted(index: Option<int>, hasCompletionHandler: bool, finish: bool)
      modifies this
      ensures State() == MenuSpec.ReloadCompleted(old(State()), index, hasCompletionHandler, finish)
      ensures dataSource == old(dataSource)
    {
      if index.Some? {
        Scroll(index.value, 0.0, false);
        if hasCompletionHandler {
          events := events + [MenuSpec.ReloadCompletion(finish)];
        }
      }
    }

    /** `numberOfItemForPagingMenuView`: the data source's count, or 0 without one. */
    function NumberOfItemForPagingMenuView(): (n: int)
      reads this
      ensures dataSource.None? ==> n == 0
      ensures dataSource.Some? ==> n == dataSource.value.numberOfItems
    {
      match dataSource
      case None => 0
      case Some(ds) => ds.numberOfItems
    }

    /** `pagingMenuView(_:widthForItemAt:)`: the data source's area, or 0 without one. */
    function WidthForItemAt(index: int): (w: real)
      reads this
      ensures dataSource.None? ==> w == 0.0
      ensures dataSource.Some? ==> w == dataSource.value.areaForItem(index)
    {
      match dataSource
      case None => 0.0
      case Some(ds) => ds.areaForItem(index)
    }
  }

  /**
   * A client's view of rotation: after a size change and two layout passes,
   * transition-end has fired once from the first pass and not again.
   */
  method RotationScenario(c: PagingMenuViewController, indexForItem: Point -> Option<int>)
    modifies c
    requires c.hasDelegate
    requires var i := indexForItem(c.focusCenter).GetOr(0); i in c.strip.frames && i + 1 in c.strip.frames
    ensures c.layoutHandler.None?
    ensures c.selectedIndex == Some(indexForItem(old(c.focusCenter)).GetOr(0))
    ensures MenuSpec.Count(c.events, MenuSpec.FocusViewDidEndTransition)
         == MenuSpec.Count(old(c.events), MenuSpec.FocusViewDidEndTransition) + 1
  {
    ghost var s := c.State();
    c.ViewWillTransition(indexForItem);
    c.ViewDidLayoutSubviews();
    c.ViewDidLayoutSubviews();
    MenuSpec.RotationResettles(s, indexForItem, s.strip);
  }
}
