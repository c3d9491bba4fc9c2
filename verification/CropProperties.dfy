/** What every sequence of events keeps: the picture shown, the crop rectangle, and drags. */
module CropProperties {
  import opened CropGeometry

  // ----- the picture shown -----

  /** The picture shown is the clean original with one outline, at the current crop. */
  predicate ShowsCrop(a: Area) {
    a.shown == DrawOutline(a.original, Crop(a))
  }

  /** That is one outline and no more, as far from the picture's corner as in the widget. */
  lemma ShownIsOutlinedOnce(a: Area)
    requires a.original.Width() > 0 && a.original.Height() > 0
    ensures ShowsCrop(a) <==>
      && a.shown.Outlined? && a.shown.under == a.original
      && a.shown.rect.width == a.outline.width && a.shown.rect.height == a.outline.height
      && a.shown.rect.topLeft.x == a.outline.topLeft.x - a.origin.x
      && a.shown.rect.topLeft.y == a.outline.topLeft.y - a.origin.y
  {
  }

  /** The event moves the outline to a place of its own. */
  predicate Moves(a: Area, event: Event) {
    || event.LeftKey? || event.RightKey? || event.UpKey? || event.DownKey?
    || (event.MouseMove? && event.leftHeld && Dragging(a))
  }

  predicate Draws(a: Area, event: Event) {
    event.SetImage? || Moves(a, event)
  }

  predicate DrawsDuring(a: Area, events: seq<Event>)
    decreases |events|
  {
    events != [] && (Draws(a, events[0]) || DrawsDuring(Apply(a, events[0]), events[1..]))
  }

  lemma EventKeepsShown(a: Area, event: Event)
    ensures Draws(a, event) || ShowsCrop(a) ==> ShowsCrop(Apply(a, event))
    ensures !Draws(a, event) ==>
      Apply(a, event).shown == a.shown && Apply(a, event).original == a.original
  {
  }

  lemma {:induction false} RunKeepsShown(a: Area, events: seq<Event>)
    requires ShowsCrop(a)
    ensures ShowsCrop(Run(a, events))
    decreases |events|
  {
    if events != [] {
      EventKeepsShown(a, events[0]);
      RunKeepsShown(Apply(a, events[0]), events[1..]);
    }
  }

  function OutlineCount(picture: Picture): nat {
    if picture.Photo? then 0 else 1 + OutlineCount(picture.under)
  }

  lemma {:induction false} ShownIffDrawn(a: Area, events: seq<Event>)
    requires a.shown == a.original && a.original.Width() > 0 && a.original.Height() > 0
    ensures ShowsCrop(Run(a, events)) <==> DrawsDuring(a, events)
    decreases |events|
  {
    if events != [] {
      EventKeepsShown(a, events[0]);
      if Draws(a, events[0]) {
        RunKeepsShown(Apply(a, events[0]), events[1..]);
      } else {
        ShownIffDrawn(Apply(a, events[0]), events[1..]);
      }
    } else {
      assert OutlineCount(DrawOutline(a.original, Crop(a))) == OutlineCount(a.original) + 1;
    }
  }

  /**
   In every run of a new widget, the picture shown is the original outlined once at the current
   crop, if and only if an image has been set or the outline moved: outlines never pile up, and no
   later resize, press or save makes the picture stale.
   */
  lemma CropIsShownFromFirstDrawing(events: seq<Event>)
    ensures ShowsCrop(Run(INITIAL, events)) <==> DrawsDuring(INITIAL, events)
  {
    ShownIffDrawn(INITIAL, events);
  }

  // ----- the crop rectangle -----

  predicate AxisPlaced(offset: int, size: nat, room: nat) {
    if size <= room then 0 <= offset <= room - size else offset == room - size
  }

  /** Inside the original; along an axis where that is too small, flush with its right or bottom. */
  predicate Placed(a: Area) {
    && AxisPlaced(Crop(a).topLeft.x, a.outline.width, a.original.Width())
    && AxisPlaced(Crop(a).topLeft.y, a.outline.height, a.original.Height())
  }

  /** A stretch of `size` starting at `start` has its middle at `center`, or half a step behind it. */
  predicate IsCentred(start: int, size: nat, center: int) {
    0 <= 2 * start + size - 2 * center <= 1
  }

  /** There is one origin that centres a picture. */
  lemma OriginIsTheCentredOne(center: Point, picture: Picture, origin: Point)
    ensures origin == OriginFor(center, picture)
       <==> IsCentred(origin.x, picture.Width(), center.x) && IsCentred(origin.y, picture.Height(), center.y)
  {
  }

  lemma EventKeepsPlaced(a: Area, event: Event)
    ensures Moves(a, event) ==> Placed(Apply(a, event))
    ensures Placed(a) && !event.SetImage? ==> Placed(Apply(a, event))
  {
  }

  /** The outline has been moved since the original was set, or `before` held and neither happened. */
  predicate MovedSinceSet(a: Area, events: seq<Event>, before: bool)
    decreases |events|
  {
    if events == [] then before
    else
      var now := if events[0].SetImage? then false else before || Moves(a, events[0]);
      MovedSinceSet(Apply(a, events[0]), events[1..], now)
  }

  /** In every run, once the outline has been moved since the last new image, it stays placed. */
  lemma {:induction false} PlacedOnceMoved(a: Area, events: seq<Event>, before: bool)
    requires before ==> Placed(a)
    requires MovedSinceSet(a, events, before)
    ensures Placed(Run(a, events))
    decreases |events|
  {
    if events != [] {
      var event := events[0];
      EventKeepsPlaced(a, event);
      var now := if event.SetImage? then false else before || Moves(a, event);
      PlacedOnceMoved(Apply(a, event), events[1..], now);
    }
  }

  lemma {:induction false} OutlineKeepsSize(a: Area, events: seq<Event>)
    ensures Run(a, events).outline.width == a.outline.width
    ensures Run(a, events).outline.height == a.outline.height
    decreases |events|
  {
    if events != [] {
      OutlineKeepsSize(Apply(a, events[0]), events[1..]);
    }
  }

  /** What a new widget saves after such a run lies inside an original of at least 480 by 640. */
  lemma SavedCropIsInside(events: seq<Event>)
    requires MovedSinceSet(INITIAL, events, false)
    ensures var a := Run(INITIAL, events);
      var crop := Crop(a);
      && crop.width == 480 && crop.height == 640
      && (a.original.Width() >= 480 ==>
            0 <= crop.topLeft.x && crop.topLeft.x + crop.width <= a.original.Width())
      && (a.original.Height() >= 640 ==>
            0 <= crop.topLeft.y && crop.topLeft.y + crop.height <= a.original.Height())
  {
    PlacedOnceMoved(INITIAL, events, false);
    OutlineKeepsSize(INITIAL, events);
  }

  /** Resizing, any number of times, changes neither the crop nor the pictures; the last one counts. */
  lemma {:induction false} ResizesKeepCrop(a: Area, events: seq<Event>)
    requires forall i | 0 <= i < |events| :: events[i].Resize?
    ensures var b := Run(a, events);
      && Crop(b) == Crop(a) && b.shown == a.shown && b.original == a.original
      && b.origin == if events == [] then a.origin
                     else OriginFor(events[|events| - 1].center, a.original)
    decreases |events|
  {
    if events != [] {
      ResizesKeepCrop(Apply(a, events[0]), events[1..]);
    }
  }

  // ----- the clamp -----

  function Distance(m: int, n: int): nat {
    if m < n then n - m else m - n
  }

  /** The nearest allowed value, or the upper bound when nothing is allowed. */
  ghost predicate IsNearest(r: int, wanted: int, low: int, high: int) {
    if low <= high then
      low <= r <= high && forall v | low <= v <= high :: Distance(wanted, r) <= Distance(wanted, v)
    else r == high
  }

  lemma ClampAxisIsNearest(wanted: int, low: int, high: int)
    ensures IsNearest(ClampAxis(wanted, low, high), wanted, low, high)
  {
  }

  /** The outline stands as near to the place as the picture allows, along either axis. */
  ghost predicate StandsNearest(a: Area, x: int, y: int) {
    && IsNearest(a.outline.topLeft.x, x, a.origin.x, a.origin.x + a.original.Width() - a.outline.width)
    && IsNearest(a.outline.topLeft.y, y, a.origin.y, a.origin.y + a.original.Height() - a.outline.height)
  }

  lemma MoveStandsNearest(a: Area, wanted: Point)
    ensures StandsNearest(MoveOutline(a, wanted), wanted.x, wanted.y)
  {
    ClampAxisIsNearest(wanted.x, a.origin.x, a.origin.x + a.original.Width() - a.outline.width);
    ClampAxisIsNearest(wanted.y, a.origin.y, a.origin.y + a.original.Height() - a.outline.height);
  }

  /** Moving the outline to where a move has put it changes nothing, however small the picture. */
  lemma MovingTwiceIsMovingOnce(a: Area, wanted: Point)
    ensures var b := MoveOutline(a, wanted);
      MoveOutline(b, b.outline.topLeft) == b
  {
  }

  // ----- drags -----

  predicate IsHeldMove(event: Event) {
    event.MouseMove? && event.leftHeld
  }

  /** The last move that a drag follows: one that reports the position (-1, -1) ends it. */
  function LastEffective(moves: seq<Event>): (k: nat)
    requires moves != [] && forall i | 0 <= i < |moves| :: IsHeldMove(moves[i])
    ensures k < |moves|
  {
    assert IsHeldMove(moves[0]);
    if |moves| == 1 || moves[0].pos == NOT_DRAGGING then 0 else 1 + LastEffective(moves[1..])
  }

  lemma {:induction false} MovesWithoutDrag(a: Area, moves: seq<Event>)
    requires !Dragging(a) && forall i | 0 <= i < |moves| :: IsHeldMove(moves[i])
    ensures Run(a, moves) == a
    decreases |moves|
  {
    if moves != [] {
      MovesWithoutDrag(a, moves[1..]);
    }
  }

  /** A drag is path-independent: all its moves together are one jump to the last effective one. */
  lemma {:induction false} DragIsOneJump(a: Area, moves: seq<Event>)
    requires Dragging(a) && moves != [] && forall i | 0 <= i < |moves| :: IsHeldMove(moves[i])
    ensures Run(a, moves) == Apply(a, moves[LastEffective(moves)])
    decreases |moves|
  {
    var b, later := Apply(a, moves[0]), moves[1..];
    if later == [] {
      assert Run(b, later) == b;
    } else if moves[0].pos == NOT_DRAGGING {
      MovesWithoutDrag(b, later);
    } else {
      DragIsOneJump(b, later);
    }
  }

  /** A drag begun inside the outline takes it along with the cursor, as far as the clamp allows. */
  lemma DragFollowsCursor(a: Area, cursor: Point, pos: Point, moves: seq<Event>)
    requires Contains(a.outline, cursor) && pos != NOT_DRAGGING
    requires moves != [] && forall i | 0 <= i < |moves| :: IsHeldMove(moves[i])
    ensures var b := Run(a, [Press(true, cursor, pos)] + moves);
      var last := moves[LastEffective(moves)];
      && b.outline.topLeft == Clamp(a, Plus(a.outline.topLeft, Minus(last.cursor, cursor)))
      && ShowsCrop(b)
  {
    assert ([Press(true, cursor, pos)] + moves)[1..] == moves;
    DragIsOneJump(Apply(a, Press(true, cursor, pos)), moves);
  }

  /** Releasing the button, or pressing it outside the outline, leaves nothing for later moves to do. */
  lemma NoDragMovesNothing(a: Area, event: Event, moves: seq<Event>)
    requires event == Release(true)
      || (event.Press? && !Dragging(a) && !Contains(a.outline, event.cursor))
    requires forall i | 0 <= i < |moves| :: IsHeldMove(moves[i])
    ensures var b := Run(a, [event] + moves);
      b.outline == a.outline && b.shown == a.shown && !Dragging(b)
  {
    assert ([event] + moves)[1..] == moves;
    MovesWithoutDrag(Apply(a, event), moves);
  }

  function OnlyResizes(events: seq<Event>): seq<Event> {
    if events == [] then []
    else (if events[0].Resize? then [events[0]] else []) + OnlyResizes(events[1..])
  }

  /** Equal but for what a drag's next move overwrites. */
  predicate SameForDrag(a: Area, b: Area) {
    && a.original == b.original && a.origin == b.origin && a.grab == b.grab
    && a.outline.width == b.outline.width && a.outline.height == b.outline.height
    && Dragging(a) && Dragging(b)
  }

  lemma NextMoveOverwrites(a: Area, b: Area, move: Event)
    requires SameForDrag(a, b) && IsHeldMove(move)
    ensures Apply(a, move) == Apply(b, move)
  {
  }

  lemma {:induction false} MovesLeaveNoTrace(a: Area, b: Area, events: seq<Event>)
    requires SameForDrag(a, b)
    requires forall i | 0 <= i < |events| ::
      events[i].Resize? || (IsHeldMove(events[i]) && events[i].pos != NOT_DRAGGING)
    ensures SameForDrag(Run(a, events), Run(b, OnlyResizes(events)))
    decreases |events|
  {
    if events != [] {
      var event, later := events[0], events[1..];
      if event.Resize? {
        assert OnlyResizes(events)[1..] == OnlyResizes(later);
        MovesLeaveNoTrace(Apply(a, event), Apply(b, event), later);
      } else {
        assert OnlyResizes(events) == OnlyResizes(later);
        MovesLeaveNoTrace(Apply(a, event), b, later);
      }
    }
  }

  /** Even when the widget is resized during a drag, the next move undoes all trace of earlier ones. */
  lemma DragForgetsItsPath(a: Area, events: seq<Event>, move: Event)
    requires Dragging(a) && IsHeldMove(move)
    requires forall i | 0 <= i < |events| ::
      events[i].Resize? || (IsHeldMove(events[i]) && events[i].pos != NOT_DRAGGING)
    ensures Apply(Run(a, events), move) == Apply(Run(a, OnlyResizes(events)), move)
  {
    MovesLeaveNoTrace(a, a, events);
    NextMoveOverwrites(Run(a, events), Run(a, OnlyResizes(events)), move);
  }

  // ----- the arrow keys -----

  /**
   An arrow key leaves the other coordinate alone only in these places, or where the picture is too
   small for the outline to move at all.
   */
  lemma ArrowKeysKeepOtherAxisIff(a: Area)
    requires Placed(a)
    ensures var at := a.outline.topLeft;
      var left, top := a.origin.x, a.origin.y;
      var right := left + a.original.Width() - a.outline.width;
      var bottom := top + a.original.Height() - a.outline.height;
      && (Apply(a, LeftKey).outline.topLeft.y == at.y
          <==> top > bottom || at.y == 0 || (at.y > 0 && at.y == top) || (at.y < 0 && at.y == bottom))
      && (Apply(a, RightKey).outline.topLeft.y == at.y
          <==> top > bottom || at.y == 0 || (at.y > 0 && at.y == bottom) || (at.y < 0 && at.y == top))
      && (Apply(a, UpKey).outline.topLeft.x == at.x
          <==> left > right || at.x == 0 || (at.x > 0 && at.x == left) || (at.x < 0 && at.x == right))
      && (Apply(a, DownKey).outline.topLeft.x == at.x
          <==> left > right || at.x == 0 || (at.x > 0 && at.x == right) || (at.x < 0 && at.x == left))
  {
  }

  /** On a thousand-pixel square, the left key takes the outline from row 100 to row 0. */
  lemma LeftKeyJumpsToTop(a: Area)
    requires a.original.Width() == 1000 && a.original.Height() == 1000
    requires a.outline == Rect(Point(100, 100), 480, 640) && a.origin == Point(0, 0)
    ensures Apply(a, LeftKey).outline.topLeft == Point(95, 0)
  {
  }
}
