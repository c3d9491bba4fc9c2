/** What the conversions mean for the image that is made of their buffers. */
module PixelProperties {
  import opened PixelRaster

  /** Sources that agree on the first `count` bytes of each row, whatever their padding holds. */
  predicate SameVisible(a: seq<byte>, b: seq<byte>, widthStep: nat, count: nat, height: nat) {
    forall y, i | 0 <= y < height && 0 <= i < count ::
      GreyPlane(a, widthStep)(y, i) == GreyPlane(b, widthStep)(y, i)
  }

  /** The 8-bit conversions do not depend on row padding. */
  lemma PaddingIsIgnored(a: seq<byte>, b: seq<byte>, width: nat, height: nat, widthStep: nat)
    ensures SameVisible(a, b, widthStep, width, height) ==>
      Raster(GreyPlane(a, widthStep), width, height) == Raster(GreyPlane(b, widthStep), width, height)
    ensures SameVisible(a, b, widthStep, 3 * width, height) ==>
      Raster(ColourPlane(a, widthStep), 4 * width, height)
        == Raster(ColourPlane(b, widthStep), 4 * width, height)
  {
    if SameVisible(a, b, widthStep, width, height) {
      RasterDependsOnVisible(GreyPlane(a, widthStep), GreyPlane(b, widthStep), width, height);
    }
    if SameVisible(a, b, widthStep, 3 * width, height) {
      forall y, i | 0 <= y < height && 0 <= i < 4 * width
        ensures ColourPlane(a, widthStep)(y, i) == ColourPlane(b, widthStep)(y, i)
      {
        if i % 4 != 3 {
          var column := 3 * (i / 4) + i % 4;
          assert GreyPlane(a, widthStep)(y, column) == GreyPlane(b, widthStep)(y, column);
        }
      }
      RasterDependsOnVisible(ColourPlane(a, widthStep), ColourPlane(b, widthStep), 4 * width, height);
    }
  }

  // ----- the rows of the image -----

  /** Rows of 32-bit pixels need no padding. */
  lemma ColourRowsMatch(width: nat)
    ensures BytesPerLine(width, 32) == 4 * width
  {
  }

  /** So channel c of pixel (x, y) of the colour image is the source's, and the fourth byte is 0. */
  lemma ColourImageShowsSource(
    src: seq<byte>, width: nat, height: nat, widthStep: nat, y: nat, x: nat, c: nat)
    requires y < height && x < width && c < 4
    ensures At(Raster(ColourPlane(src, widthStep), 4 * width, height),
               y * BytesPerLine(width, 32) + (4 * x + c))
         == if c < 3 then At(src, y * widthStep + 3 * x + c) else 0
  {
    ColourRowsMatch(width);
    RasterAt(ColourPlane(src, widthStep), 4 * width, height, y, 4 * x + c);
    assert (4 * x + c) % 4 == c && (4 * x + c) / 4 == x;
  }

  /** The byte at which the grey image looks for pixel (x, y). */
  function GreyImageAt(src: seq<byte>, width: nat, height: nat, widthStep: nat, y: nat, x: nat): byte {
    At(Raster(GreyPlane(src, widthStep), width, height), y * BytesPerLine(width, 8) + x)
  }

  /** Every grey image of these dimensions shows the pixels of its source. */
  ghost predicate GreyImagesShowSource(width: nat, height: nat, widthStep: nat) {
    forall src: seq<byte>, y: nat, x: nat |
      |src| == height * widthStep && y < height && x < width ::
      GreyImageAt(src, width, height, widthStep, y, x) == At(src, y * widthStep + x)
  }

  lemma GreyRowsMatch(width: nat)
    ensures BytesPerLine(width, 8) == width <==> width % 4 == 0
    ensures width <= BytesPerLine(width, 8)
  {
  }

  /** A source that is dark but for one byte. */
  function OneBright(length: nat, at: nat): seq<byte> {
    seq(length, i => if i == at then 255 else 0)
  }

  /** The row and column at an index of a raster. */
  lemma {:induction false} RasterIndex(columns: nat, rows: nat, i: nat) returns (y: nat, x: nat)
    requires i < RowStart(rows, columns)
    ensures y < rows && x < columns && i == RowStart(y, columns) + x
  {
    if i >= RowStart(rows - 1, columns) {
      y, x := rows - 1, i - RowStart(rows - 1, columns);
    } else {
      y, x := RasterIndex(columns, rows - 1, i);
    }
  }

  /** What stands beyond the start of the second packed row is not from the start of the second source row. */
  lemma NotSecondRowStart(width: nat, widthStep: nat, y: nat, x: nat)
    requires width > 0 && width <= widthStep && x < width && RowStart(y, width) + x > width
    ensures y * widthStep + x != widthStep
  {
  }

  /** With only the second row's first pixel bright, the buffer is dark beyond the start of that row. */
  lemma DarkBeyondSecondRowStart(width: nat, height: nat, widthStep: nat, length: nat, i: nat)
    requires width > 0 && width <= widthStep && i > width
    ensures At(Raster(GreyPlane(OneBright(length, widthStep), widthStep), width, height), i) == 0
  {
    var src := OneBright(length, widthStep);
    var f := GreyPlane(src, widthStep);
    RasterLength(f, width, height);
    if i < RowStart(height, width) {
      var y, x := RasterIndex(width, height, i);
      RasterAtStart(f, width, height, y, x);
      NotSecondRowStart(width, widthStep, y, x);
      assert f(y, x) == At(src, y * widthStep + x);
    }
  }

  /** With padded rows, the first pixel of the second row is looked for too far on. */
  lemma GreyImageIsSkewed(width: nat, height: nat, widthStep: nat)
    requires width > 0 && width <= widthStep && width % 4 != 0 && height > 1
    ensures !GreyImagesShowSource(width, height, widthStep)
  {
    var length := height * widthStep;
    assert length > widthStep by {
      RowStartIsProduct(height, widthStep);
      RowFits(1, height, widthStep);
      assert RowStart(2, widthStep) == RowStart(1, widthStep) + widthStep == 2 * widthStep;
    }
    GreyRowsMatch(width);
    DarkBeyondSecondRowStart(width, height, widthStep, length, BytesPerLine(width, 8));
    var src := OneBright(length, widthStep);
    assert At(src, 1 * widthStep + 0) == 255;
    assert GreyImageAt(src, width, height, widthStep, 1, 0) == 0;
  }

  /** The grey image shows its source, whatever that holds, exactly when the packed rows need no padding. */
  lemma GreyImagesShowSourceIff(width: nat, height: nat, widthStep: nat)
    requires 0 < width <= widthStep
    ensures GreyImagesShowSource(width, height, widthStep) <==> width % 4 == 0 || height <= 1
  {
    GreyRowsMatch(width);
    if width % 4 == 0 || height <= 1 {
      forall src: seq<byte>, y: nat, x: nat |
        |src| == height * widthStep && y < height && x < width
        ensures GreyImageAt(src, width, height, widthStep, y, x) == At(src, y * widthStep + x)
      {
        RasterAt(GreyPlane(src, widthStep), width, height, y, x);
        assert y == 0 || BytesPerLine(width, 8) == width;
      }
    } else {
      GreyImageIsSkewed(width, height, widthStep);
    }
  }

  // ----- samples of more than one byte -----

  /** The byte at which the cursor over samples of `size` bytes stands for pixel (x, y). */
  function CursorByte(widthStep: nat, size: nat, y: nat, x: nat): nat
    requires size > 0
  {
    size * (y * (widthStep / size) + x)
  }

  /** The byte at which the sample of pixel (x, y) starts. */
  function PixelByte(widthStep: nat, size: nat, y: nat, x: nat): nat {
    y * widthStep + size * x
  }

  predicate CursorMeetsPixels(width: nat, height: nat, widthStep: nat, size: nat)
    requires size > 0
  {
    forall y, x | 0 <= y < height && 0 <= x < width ::
      CursorByte(widthStep, size, y, x) == PixelByte(widthStep, size, y, x)
  }

  /** Each row loses the bytes that do not make up a whole sample. */
  lemma RowsLoseRemainder(widthStep: nat, size: nat, y: nat, x: nat)
    requires size > 0
    ensures CursorByte(widthStep, size, y, x) + y * (widthStep % size) == PixelByte(widthStep, size, y, x)
  {
  }

  /** The cursor meets every pixel's own sample exactly when rows hold whole samples. */
  lemma CursorMeetsPixelsIff(width: nat, height: nat, widthStep: nat, size: nat)
    requires size > 0 && width > 0
    ensures CursorMeetsPixels(width, height, widthStep, size) <==> widthStep % size == 0 || height <= 1
  {
    forall y, x | 0 <= y < height && 0 <= x < width
      ensures CursorByte(widthStep, size, y, x) + y * (widthStep % size) == PixelByte(widthStep, size, y, x)
    {
      RowsLoseRemainder(widthStep, size, y, x);
    }
    if height > 1 {
      assert CursorByte(widthStep, size, 1, 0) + widthStep % size == PixelByte(widthStep, size, 1, 0);
    }
  }

  /** Larger samples come out no darker, over the whole image. */
  lemma ScalingIsMonotone(v: real, w: real, mini: real, maxi: real)
    requires mini < maxi && v <= w
    ensures Scaled(v, mini, maxi) <= Scaled(w, mini, maxi)
    ensures v <= mini ==> Scaled(v, mini, maxi) == 0
    ensures maxi <= w ==> Scaled(w, mini, maxi) == 255
  {
    var d := maxi - mini;
    QuotientGrows(255.0 * (v - mini), 255.0 * (w - mini), d);
    QuotientGrows(255.0 * (v - mini), 0.0, d);
    QuotientGrows(255.0 * d, 255.0 * (w - mini), d);
    QuotientCancels(255.0, d);
  }

  lemma QuotientCancels(a: real, d: real)
    requires d != 0.0
    ensures a * d / d == a
  {
  }

  lemma QuotientGrows(a: real, b: real, d: real)
    requires d > 0.0
    ensures a <= b ==> a / d <= b / d
  {
  }

  // ----- the 16-bit loop -----

  lemma WordsOfRows(height: nat, widthStep: nat)
    requires height > 0
    ensures 4 * ((height - 1) * (widthStep / 4)) + (height - 1) * (widthStep % 4) + widthStep
         == height * widthStep
  {
    var rows, q, r := height - 1, widthStep / 4, widthStep % 4;
    assert widthStep == 4 * q + r;
    assert height * widthStep == rows * widthStep + widthStep;
    assert rows * (4 * q + r) == rows * (4 * q) + rows * r;
  }

  /** When the 16-bit loop stays within the rows of the image, told from the dimensions. */
  lemma WordsAreInsideIff(width: nat, height: nat, widthStep: nat)
    requires width > 0 && height > 0
    ensures WordsAreInside(width, height, widthStep, height * widthStep)
       <==> 4 * width <= widthStep + (height - 1) * (widthStep % 4)
  {
    WordsOfRows(height, widthStep);
  }

  /** So it leaves every image of two pixels or more to a row whose rows are padded to whole words. */
  lemma AlignedImagesAreOverrun(width: nat, height: nat, widthStep: nat)
    requires width > 0 && height > 0
    requires widthStep % 4 == 0 && 2 * width <= widthStep < 2 * width + 4
    ensures WordsAreInside(width, height, widthStep, height * widthStep) <==> width == 1
  {
    WordsAreInsideIff(width, height, widthStep);
  }

  /** A camera frame among them. */
  lemma FrameIsOverrun()
    ensures !WordsAreInside(640, 480, 1280, 480 * 1280)
  {
    AlignedImagesAreOverrun(640, 480, 1280);
  }

  /** The high byte of a 16-bit sample, as division by 256 gives it. */
  lemma HighByteIsQuotient(src: seq<byte>, widthStep: nat, y: nat, x: nat)
    ensures var low: int, high: int := At(src, y * widthStep + 2 * x), At(src, y * widthStep + 2 * x + 1);
      HighBytePlane(src, widthStep)(y, x) == (low + 256 * high) / 256
  {
  }

  /** The 16-bit loop takes every pixel's high byte, whatever an image of these dimensions holds. */
  ghost predicate WordsGiveHighBytes(width: nat, height: nat, widthStep: nat) {
    forall src: seq<byte> | |src| == height * widthStep ::
      Raster(WordPlane(src, widthStep), width, height) == Raster(HighBytePlane(src, widthStep), width, height)
  }

  lemma OffsetsDiffer(width: nat, height: nat, widthStep: nat, y: nat, x: nat)
    requires y < height && x < width && 2 * width <= widthStep
    requires 4 * (y * (widthStep / 4) + x) != y * widthStep + 2 * x
    ensures !WordsGiveHighBytes(width, height, widthStep)
  {
    var at := y * widthStep + 2 * x + 1;
    RowStartIsProduct(y, widthStep);
    RowStartIsProduct(height, widthStep);
    RowFits(y, height, widthStep);
    var src := OneBright(height * widthStep, at);
    RasterAt(WordPlane(src, widthStep), width, height, y, x);
    RasterAt(HighBytePlane(src, widthStep), width, height, y, x);
    assert HighBytePlane(src, widthStep)(y, x) == 255;
    assert WordPlane(src, widthStep)(y, x) == 0;
  }

  /**
   It does so only for images a single pixel wide, of one row or with rows of whole words: for all
   others, a pixel is made from another pixel's bytes, or from what lies behind the image.
   */
  lemma WordsGiveHighBytesIff(width: nat, height: nat, widthStep: nat)
    requires width > 0 && height > 0 && 2 * width <= widthStep
    ensures WordsGiveHighBytes(width, height, widthStep)
       <==> width == 1 && (height == 1 || widthStep % 4 == 0)
  {
    if width > 1 {
      OffsetsDiffer(width, height, widthStep, 0, 1);
    } else if height > 1 && widthStep % 4 != 0 {
      OffsetsDiffer(width, height, widthStep, 1, 0);
    } else {
      forall src: seq<byte> | |src| == height * widthStep
        ensures Raster(WordPlane(src, widthStep), width, height)
             == Raster(HighBytePlane(src, widthStep), width, height)
      {
        WordsAreHighBytes(src, width, height, widthStep);
      }
    }
  }

  /** Where it is right and stays inside: one pixel to a row, in rows of whole words or one long enough. */
  lemma WordsAreRightIff(width: nat, height: nat, widthStep: nat)
    requires width > 0 && height > 0 && 2 * width <= widthStep
    ensures WordsGiveHighBytes(width, height, widthStep)
              && WordsAreInside(width, height, widthStep, height * widthStep)
       <==> width == 1 && (widthStep % 4 == 0 || (height == 1 && widthStep >= 4))
  {
    WordsGiveHighBytesIff(width, height, widthStep);
    WordsAreInsideIff(width, height, widthStep);
  }

  lemma WordsAreHighBytes(src: seq<byte>, width: nat, height: nat, widthStep: nat)
    requires width == 1 && (height == 1 || widthStep % 4 == 0)
    ensures Raster(WordPlane(src, widthStep), width, height)
         == Raster(HighBytePlane(src, widthStep), width, height)
  {
    forall y, x | 0 <= y < height && 0 <= x < width
      ensures WordPlane(src, widthStep)(y, x) == HighBytePlane(src, widthStep)(y, x)
    {
      if y > 0 {
        assert 4 * (y * (widthStep / 4)) == y * (4 * (widthStep / 4));
      }
    }
    RasterDependsOnVisible(WordPlane(src, widthStep), HighBytePlane(src, widthStep), width, height);
  }
}
