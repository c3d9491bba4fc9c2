/**
 The cropping widget, with the fields its event handlers update. Each handler's contract gives the
 new state, and what of the picture shown, the crop and the drag it establishes or keeps.
 */
module PaintArea {
  import opened CropGeometry
  import opened CropProperties

  class PaintArea {
    var theImage: Picture
    var originalImage: Picture
    var outlineRect: Rect
    var imageTopLeftPoint: Point
    var dragPosition: Point
    var lastPos: Point

    ghost function View(): Area
      reads this
    {
      Area(theImage, originalImage, outlineRect, imageTopLeftPoint, dragPosition, lastPos)
    }

    constructor ()
      ensures View() == INITIAL
    {
      theImage := Photo(0, 640, 480);
      originalImage := Photo(0, 640, 480);
      outlineRect := Rect(Point(0, 0), 480, 640);
      imageTopLeftPoint, dragPosition := Point(0, 0), Point(0, 0);
      lastPos := Point(-1, -1);
    }

    method SetImage(image: Picture)
      modifies this`theImage, this`originalImage
      ensures View() == Apply(old(View()), Event.SetImage(image))
      ensures ShowsCrop(View()) && originalImage == image && Crop(View()) == Crop(old(View()))
    {
      theImage := image;
      originalImage := theImage;
      PaintOutline();
    }

    /** Paints the outline on the image, shifted from widget to picture coordinates. */
    method PaintOutline()
      modifies this`theImage
      ensures theImage == DrawOutline(old(theImage), Crop(View()))
      ensures old(theImage) == originalImage ==> ShowsCrop(View())
      ensures old(theImage).Width() > 0 && old(theImage).Height() > 0 ==>
        OutlineCount(theImage) == OutlineCount(old(theImage)) + 1
    {
      var rect := outlineRect;
      rect := rect.(topLeft := Minus(outlineRect.topLeft, imageTopLeftPoint));
      theImage := DrawOutline(theImage, rect);
    }

    method MousePress(left: bool, cursor: Point, pos: Point)
      modifies this`dragPosition, this`lastPos
      ensures View() == Apply(old(View()), Press(left, cursor, pos))
      ensures left ==> Plus(outlineRect.topLeft, dragPosition) == cursor
      ensures var inside :=
          0 <= dragPosition.x < outlineRect.width && 0 <= dragPosition.y < outlineRect.height;
        if left && inside then lastPos == pos else lastPos == old(lastPos)
      ensures !left ==> dragPosition == old(dragPosition)
      ensures Placed(old(View())) ==> Placed(View())
    {
      if left {
        dragPosition := Minus(cursor, outlineRect.topLeft);
        if Contains(outlineRect, cursor) {
          lastPos := pos;
        }
      }
    }

    method MouseMoved(leftHeld: bool, cursor: Point, pos: Point)
      modifies this`theImage, this`outlineRect, this`lastPos
      ensures View() == Apply(old(View()), MouseMove(leftHeld, cursor, pos))
      ensures leftHeld && old(lastPos) != Point(-1, -1) ==>
        && ShowsCrop(View()) && Placed(View()) && lastPos == pos
        && StandsNearest(View(), cursor.x - dragPosition.x, cursor.y - dragPosition.y)
      ensures !leftHeld || old(lastPos) == Point(-1, -1) ==> View() == old(View())
    {
      if leftHeld && lastPos != Point(-1, -1) {
        var newTopLeft := Minus(cursor, dragPosition);
        MoveOutlineRect(newTopLeft);
        lastPos := pos;
      }
    }

    method MouseRelease(left: bool)
      modifies this`lastPos
      ensures View() == Apply(old(View()), Release(left))
      ensures lastPos == if left then Point(-1, -1) else old(lastPos)
    {
      if left && lastPos != Point(-1, -1) {
        lastPos := Point(-1, -1);
      }
    }

    /** The rectangle of the original that is written to the file. */
    method SaveTargetImage() returns (source: Picture, target: Rect)
      ensures View() == Apply(old(View()), Save)
      ensures source == View().original && target == Crop(View())
      ensures ShowsCrop(View()) ==> View().shown == DrawOutline(source, target)
    {
      source := originalImage;
      target := outlineRect;
      target := target.(topLeft := Minus(outlineRect.topLeft, imageTopLeftPoint));
    }

    method Resized(center: Point)
      modifies this`imageTopLeftPoint, this`outlineRect
      ensures View() == Apply(old(View()), Resize(center))
      ensures Crop(View()) == Crop(old(View()))
      ensures IsCentred(imageTopLeftPoint.x, originalImage.Width(), center.x)
      ensures IsCentred(imageTopLeftPoint.y, originalImage.Height(), center.y)
      ensures ShowsCrop(old(View())) ==> ShowsCrop(View())
      ensures Placed(old(View())) ==> Placed(View())
    {
      var offset := Minus(outlineRect.topLeft, imageTopLeftPoint);
      imageTopLeftPoint := Point(0, 0);
      CalculateImageTopLeft(center);
      OriginIsTheCentredOne(center, originalImage, imageTopLeftPoint);
      outlineRect := outlineRect.(topLeft := Plus(imageTopLeftPoint, offset));
    }

    /** Centres the picture, unless it has already been placed. */
    method CalculateImageTopLeft(center: Point)
      modifies this`imageTopLeftPoint
      ensures old(imageTopLeftPoint) != Point(0, 0) ==> imageTopLeftPoint == old(imageTopLeftPoint)
      ensures old(imageTopLeftPoint) == Point(0, 0) ==>
        && IsCentred(imageTopLeftPoint.x, originalImage.Width(), center.x)
        && IsCentred(imageTopLeftPoint.y, originalImage.Height(), center.y)
    {
      if imageTopLeftPoint == Point(0, 0) {
        var x := center.x - originalImage.Width() / 2;
        var y := center.y - originalImage.Height() / 2;
        imageTopLeftPoint := Point(x, y);
      }
    }

    method MoveOutlineRectToLeft()
      modifies this`theImage, this`outlineRect
      ensures View() == Apply(old(View()), LeftKey)
      ensures ShowsCrop(View()) && Placed(View())
      ensures var at := old(outlineRect.topLeft);
        StandsNearest(View(), at.x - 5, 0)
    {
      var at := outlineRect.topLeft;
      MoveOutlineRect(Minus(at, Point(5, at.y)));
    }

    method MoveOutlineRectToRight()
      modifies this`theImage, this`outlineRect
      ensures View() == Apply(old(View()), RightKey)
      ensures ShowsCrop(View()) && Placed(View())
      ensures var at := old(outlineRect.topLeft);
        StandsNearest(View(), at.x + 5, 2 * at.y)
    {
      var at := outlineRect.topLeft;
      MoveOutlineRect(Plus(at, Point(5, at.y)));
    }

    method MoveOutlineRectUp()
      modifies this`theImage, this`outlineRect
      ensures View() == Apply(old(View()), UpKey)
      ensures ShowsCrop(View()) && Placed(View())
      ensures var at := old(outlineRect.topLeft);
        StandsNearest(View(), 0, at.y - 5)
    {
      var at := outlineRect.topLeft;
      MoveOutlineRect(Minus(at, Point(at.x, 5)));
    }

    method MoveOutlineRectDown()
      modifies this`theImage, this`outlineRect
      ensures View() == Apply(old(View()), DownKey)
      ensures ShowsCrop(View()) && Placed(View())
      ensures var at := old(outlineRect.topLeft);
        StandsNearest(View(), 2 * at.x, at.y + 5)
    {
      var at := outlineRect.topLeft;
      MoveOutlineRect(Plus(at, Point(at.x, 5)));
    }

    method MoveOutlineRect(topLeft: Point)
      modifies this`theImage, this`outlineRect
      ensures View() == MoveOutline(old(View()), topLeft)
      ensures ShowsCrop(View()) && Placed(View())
      ensures StandsNearest(View(), topLeft.x, topLeft.y)
      ensures outlineRect.width == old(outlineRect.width) && outlineRect.height == old(outlineRect.height)
    {
      MoveStandsNearest(View(), topLeft);
      var newTopLeft := topLeft;
      if newTopLeft.x < imageTopLeftPoint.x {
        newTopLeft := newTopLeft.(x := imageTopLeftPoint.x);
      }
      if newTopLeft.y < imageTopLeftPoint.y {
        newTopLeft := newTopLeft.(y := imageTopLeftPoint.y);
      }
      var maxTopLeftX := imageTopLeftPoint.x + originalImage.Width() - outlineRect.width;
      if newTopLeft.x > maxTopLeftX {
        newTopLeft := newTopLeft.(x := maxTopLeftX);
      }
      var maxTopLeftY := imageTopLeftPoint.y + originalImage.Height() - outlineRect.height;
      if newTopLeft.y > maxTopLeftY {
        newTopLeft := newTopLeft.(y := maxTopLeftY);
      }
      outlineRect := outlineRect.(topLeft := newTopLeft);
      theImage := originalImage;
      PaintOutline();
    }
  }
}
