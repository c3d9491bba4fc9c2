/**
 The conversion loops: raw cursors walk padded source rows and fill a packed buffer. Each method
 does what one branch does; its inner loop over a row is a method of its own, which adds the row to
 what the buffer holds so far.
 */
module PixelConversion {
  import opened PixelRaster

  lemma InRow(y: nat, rows: nat, pitch: nat, x: nat)
    requires y < rows && x < pitch
    ensures y * pitch + x < rows * pitch
  {
    RowFits(y, rows, pitch);
    RowStartIsProduct(y, pitch);
    RowStartIsProduct(rows, pitch);
  }

  // ----- 8-bit grey -----

  /** The pixel's byte is the source's. */
  predicate IsCopied(dst: seq<byte>, src: seq<byte>, width: nat, widthStep: nat, y: nat, x: nat) {
    var i, j := y * width + x, y * widthStep + x;
    i < |dst| && j < |src| && dst[i] == src[j]
  }

  lemma GreyPixels(dst: seq<byte>, src: seq<byte>, width: nat, height: nat, widthStep: nat)
    requires dst == Raster(GreyPlane(src, widthStep), width, height)
    requires widthStep >= width && |src| >= height * widthStep
    ensures forall y: nat, x: nat | y < height && x < width :: IsCopied(dst, src, width, widthStep, y, x)
  {
    forall y: nat, x: nat | y < height && x < width
      ensures IsCopied(dst, src, width, widthStep, y, x)
    {
      RasterAt(GreyPlane(src, widthStep), width, height, y, x);
      InRow(y, height, widthStep, x);
    }
  }

  /** Copies a row of bytes behind those already `done`. */
  method CopyRow(
    src: array<byte>, from: nat, dst: array<byte>, to: nat, count: nat, ghost done: seq<byte>)
    requires src != dst && from + count <= src.Length && to + count <= dst.Length
    requires dst[..to] == done
    modifies dst
    ensures dst[..to + count] == done + src[from..from + count]
  {
    forall i | 0 <= i < count {
      dst[to + i] := src[from + i];
    }
  }

  lemma GreyRow(src: seq<byte>, widthStep: nat, y: nat, width: nat)
    requires RowStart(y, widthStep) + width <= |src|
    ensures Row(GreyPlane(src, widthStep), y, width)
         == src[RowStart(y, widthStep)..RowStart(y, widthStep) + width]
  {
    RowStartIsProduct(y, widthStep);
    var row, from := Row(GreyPlane(src, widthStep), y, width), RowStart(y, widthStep);
    forall x | 0 <= x < width
      ensures row[x] == src[from + x]
    {
      assert row[x] == At(src, from + x);
    }
  }

  /** Row by row. `from` and `to` are the cursors' final positions. */
  method ConvertGrey(src: array<byte>, width: nat, height: nat, widthStep: nat)
    returns (dst: array<byte>, ghost from: nat, ghost to: nat)
    requires widthStep >= width && src.Length >= height * widthStep
    ensures dst[..] == Raster(GreyPlane(src[..], widthStep), width, height)
    ensures from == height * widthStep && to == height * width == dst.Length
    ensures forall y: nat, x: nat | y < height && x < width ::
      IsCopied(dst[..], src[..], width, widthStep, y, x)
  {
    RowStartIsProduct(height, width);
    RowStartIsProduct(height, widthStep);
    dst := new byte[width * height];
    var dstPtr, srcPtr := 0, 0;
    for y := 0 to height
      invariant dstPtr == RowStart(y, width) && srcPtr == RowStart(y, widthStep)
      invariant dstPtr <= dst.Length
      invariant dst[..dstPtr] == Raster(GreyPlane(src[..], widthStep), width, y)
    {
      RowFits(y, height, width);
      RowFits(y, height, widthStep);
      GreyRow(src[..], widthStep, y, width);
      CopyRow(src, srcPtr, dst, dstPtr, width, dst[..dstPtr]);
      dstPtr := dstPtr + width;
      srcPtr := srcPtr + widthStep;
    }
    assert dst[..] == dst[..dstPtr];
    GreyPixels(dst[..], src[..], width, height, widthStep);
    from, to := srcPtr, dstPtr;
  }

  // ----- 3-channel colour -----

  /** The pixel's four bytes are the source's three and 0. */
  predicate IsColourCopied(dst: seq<byte>, src: seq<byte>, width: nat, widthStep: nat, y: nat, x: nat) {
    var i, j := y * (4 * width) + 4 * x, y * widthStep + 3 * x;
    && i + 3 < |dst| && j + 2 < |src|
    && dst[i] == src[j] && dst[i + 1] == src[j + 1] && dst[i + 2] == src[j + 2] && dst[i + 3] == 0
  }

  lemma ColourByte(
    dst: seq<byte>, src: seq<byte>, width: nat, height: nat, widthStep: nat, y: nat, x: nat, c: nat)
    requires dst == Raster(ColourPlane(src, widthStep), 4 * width, height)
    requires widthStep >= 3 * width && |src| >= height * widthStep
    requires y < height && x < width && c < 4
    ensures var i, j := y * (4 * width) + 4 * x + c, y * widthStep + 3 * x + c;
      i < |dst| && (if c == 3 then dst[i] == 0 else j < |src| && dst[i] == src[j])
  {
    var b := 4 * x + c;
    assert b % 4 == c && b / 4 == x;
    assert ColourPlane(src, widthStep)(y, b) == if c == 3 then 0 else At(src, y * widthStep + 3 * x + c);
    RasterAt(ColourPlane(src, widthStep), 4 * width, height, y, b);
    if c < 3 {
      InRow(y, height, widthStep, 3 * x + c);
    }
  }

  lemma ColourPixels(dst: seq<byte>, src: seq<byte>, width: nat, height: nat, widthStep: nat)
    requires dst == Raster(ColourPlane(src, widthStep), 4 * width, height)
    requires widthStep >= 3 * width && |src| >= height * widthStep
    ensures forall y: nat, x: nat | y < height && x < width ::
      IsColourCopied(dst, src, width, widthStep, y, x)
  {
    forall y: nat, x: nat | y < height && x < width
      ensures IsColourCopied(dst, src, width, widthStep, y, x)
    {
      ColourByte(dst, src, width, height, widthStep, y, x, 0);
      ColourByte(dst, src, width, height, widthStep, y, x, 1);
      ColourByte(dst, src, width, height, widthStep, y, x, 2);
      ColourByte(dst, src, width, height, widthStep, y, x, 3);
    }
  }

  /** A colour row from offset `p` on: three bytes and a zero for each pixel. */
  function ColourRow(src: seq<byte>, p: nat, width: nat): seq<byte> {
    if width == 0 then []
    else
      var q := p + 3 * (width - 1);
      ColourRow(src, p, width - 1) + [At(src, q), At(src, q + 1), At(src, q + 2), 0]
  }

  lemma ColourPixel(src: seq<byte>, widthStep: nat, y: nat, x: nat)
    ensures var f, q := ColourPlane(src, widthStep), RowStart(y, widthStep) + 3 * x;
      && f(y, 4 * x) == At(src, q) && f(y, 4 * x + 1) == At(src, q + 1)
      && f(y, 4 * x + 2) == At(src, q + 2) && f(y, 4 * x + 3) == 0
  {
    RowStartIsProduct(y, widthStep);
    var b := 4 * x;
    assert b % 4 == 0 && (b + 1) % 4 == 1 && (b + 2) % 4 == 2 && (b + 3) % 4 == 3;
    assert b / 4 == (b + 1) / 4 == (b + 2) / 4 == x;
  }

  lemma RowGrows<T>(f: Plane<T>, y: int, x: nat)
    ensures Row(f, y, x + 1) == Row(f, y, x) + [f(y, x)]
  {
  }

  lemma RowGrowsByFour<T>(f: Plane<T>, y: int, b: nat)
    ensures Row(f, y, b + 4) == Row(f, y, b) + [f(y, b), f(y, b + 1), f(y, b + 2), f(y, b + 3)]
  {
  }

  lemma {:induction false} ColourRowIsRow(src: seq<byte>, widthStep: nat, y: nat, width: nat)
    ensures Row(ColourPlane(src, widthStep), y, 4 * width)
         == ColourRow(src, RowStart(y, widthStep), width)
    decreases width
  {
    if width > 0 {
      ColourRowIsRow(src, widthStep, y, width - 1);
      ColourPixel(src, widthStep, y, width - 1);
      RowGrowsByFour(ColourPlane(src, widthStep), y, 4 * (width - 1));
    }
  }

  method ConvertColourRow(
    src: array<byte>, from: nat, dst: array<byte>, to: nat, width: nat, ghost done: seq<byte>)
    returns (srcPtr: nat, dstPtr: nat)
    requires src != dst && from + 3 * width <= src.Length && to + 4 * width <= dst.Length
    requires dst[..to] == done
    modifies dst
    ensures srcPtr == from + 3 * width && dstPtr == to + 4 * width
    ensures dst[..dstPtr] == done + ColourRow(src[..], from, width)
  {
    srcPtr, dstPtr := from, to;
    for x := 0 to width
      invariant srcPtr == from + 3 * x && dstPtr == to + 4 * x
      invariant dst[..dstPtr] == done + ColourRow(src[..], from, x)
    {
      ghost var before := dst[..dstPtr];
      dst[dstPtr] := src[srcPtr];
      dst[dstPtr + 1] := src[srcPtr + 1];
      dst[dstPtr + 2] := src[srcPtr + 2];
      dst[dstPtr + 3] := 0;
      assert dst[..dstPtr + 4] == before + [src[srcPtr], src[srcPtr + 1], src[srcPtr + 2], 0];
      dstPtr := dstPtr + 4;
      srcPtr := srcPtr + 3;
    }
  }

  /** Pixel by pixel, then over the padding of each row. */
  method ConvertColour(src: array<byte>, width: nat, height: nat, widthStep: nat)
    returns (dst: array<byte>, ghost from: nat, ghost to: nat)
    requires widthStep >= 3 * width && src.Length >= height * widthStep
    ensures dst[..] == Raster(ColourPlane(src[..], widthStep), 4 * width, height)
    ensures from == height * widthStep && to == height * (4 * width) == dst.Length
    ensures forall y: nat, x: nat | y < height && x < width ::
      IsColourCopied(dst[..], src[..], width, widthStep, y, x)
  {
    RowStartIsProduct(height, 4 * width);
    RowStartIsProduct(height, widthStep);
    assert width * height * 4 == height * (4 * width);
    dst := new byte[width * height * 4];
    var dstPtr, srcPtr := 0, 0;
    for y := 0 to height
      invariant dstPtr == RowStart(y, 4 * width) && srcPtr == RowStart(y, widthStep)
      invariant dstPtr <= dst.Length
      invariant dst[..dstPtr] == Raster(ColourPlane(src[..], widthStep), 4 * width, y)
    {
      RowFits(y, height, 4 * width);
      RowFits(y, height, widthStep);
      ColourRowIsRow(src[..], widthStep, y, width);
      srcPtr, dstPtr := ConvertColourRow(src, srcPtr, dst, dstPtr, width, dst[..dstPtr]);
      srcPtr := srcPtr + (widthStep - 3 * width);
    }
    assert dst[..] == dst[..dstPtr];
    ColourPixels(dst[..], src[..], width, height, widthStep);
    from, to := srcPtr, dstPtr;
  }

  // ----- 16-bit grey -----

  /** A little-endian word of four bytes. */
  function Word(src: seq<byte>, at: nat): nat
    requires at + 4 <= |src|
  {
    var b0: int, b1: int, b2: int, b3: int := src[at], src[at + 1], src[at + 2], src[at + 3];
    b0 + 0x100 * b1 + 0x1_0000 * b2 + 0x100_0000 * b3
  }

  /** Storing a number in a byte keeps its low byte. */
  function LowByte(n: nat): byte {
    n % 0x100
  }

  lemma WordShifted(src: seq<byte>, at: nat)
    requires at + 4 <= |src|
    ensures LowByte(Word(src, at) / 0x100) == At(src, at + 1)
  {
    var b0: int, b1: int, b2: int, b3: int := src[at], src[at + 1], src[at + 2], src[at + 3];
    var high := b2 + 0x100 * b3;
    assert Word(src, at) == b0 + 0x100 * (b1 + 0x100 * high);
    assert Word(src, at) / 0x100 == b1 + 0x100 * high;
  }

  /** Word by word from word `p` on, the second byte of each. */
  function WordRow(src: seq<byte>, p: nat, width: nat): seq<byte> {
    if width == 0 then [] else WordRow(src, p, width - 1) + [At(src, 4 * (p + width - 1) + 1)]
  }

  lemma {:induction false} WordRowIsRow(src: seq<byte>, widthStep: nat, y: nat, width: nat)
    ensures Row(WordPlane(src, widthStep), y, width)
         == WordRow(src, RowStart(y, widthStep / 4), width)
    decreases width
  {
    if width > 0 {
      WordRowIsRow(src, widthStep, y, width - 1);
      RowStartIsProduct(y, widthStep / 4);
      RowGrows(WordPlane(src, widthStep), y, width - 1);
    }
  }

  /** The pixel is the second byte of the word at which its cursor stands. */
  predicate IsSecondOfWord(dst: seq<byte>, src: seq<byte>, width: nat, widthStep: nat, y: nat, x: nat) {
    var i, j := y * width + x, 4 * (y * (widthStep / 4) + x) + 1;
    i < |dst| && j < |src| && dst[i] == src[j]
  }

  lemma WordPixels(dst: seq<byte>, src: seq<byte>, width: nat, height: nat, widthStep: nat)
    requires dst == Raster(WordPlane(src, widthStep), width, height)
    requires WordsAreInside(width, height, widthStep, |src|)
    ensures forall y: nat, x: nat | y < height && x < width ::
      IsSecondOfWord(dst, src, width, widthStep, y, x)
  {
    forall y: nat, x: nat | y < height && x < width
      ensures IsSecondOfWord(dst, src, width, widthStep, y, x)
    {
      RasterAt(WordPlane(src, widthStep), width, height, y, x);
      RowBeforeLast(y, height, widthStep / 4);
      RowStartIsProduct(y, widthStep / 4);
      RowStartIsProduct(height - 1, widthStep / 4);
    }
  }

  /** Stops before the first word that is not wholly within the source. */
  method ConvertWordRow(
    src: array<byte>, from: nat, dst: array<byte>, to: nat, width: nat, ghost done: seq<byte>)
    returns (srcPtr: nat, dstPtr: nat, inside: bool)
    requires src != dst && to + width <= dst.Length && dst[..to] == done
    modifies dst
    ensures inside <==> width == 0 || 4 * (from + width) <= src.Length
    ensures inside ==> srcPtr == from + width && dstPtr == to + width
    ensures inside ==> dst[..dstPtr] == done + WordRow(src[..], from, width)
  {
    srcPtr, dstPtr := from, to;
    for x := 0 to width
      invariant srcPtr == from + x && dstPtr == to + x
      invariant x > 0 ==> 4 * (from + x) <= src.Length
      invariant dst[..dstPtr] == done + WordRow(src[..], from, x)
    {
      if 4 * srcPtr + 4 > src.Length {
        return srcPtr, dstPtr, false;
      }
      ghost var before := dst[..dstPtr];
      WordShifted(src[..], 4 * srcPtr);
      dst[dstPtr] := LowByte(Word(src[..], 4 * srcPtr) / 0x100);
      assert dst[..dstPtr + 1] == before + [At(src[..], 4 * srcPtr + 1)];
      dstPtr := dstPtr + 1;
      srcPtr := srcPtr + 1;
    }
    inside := true;
  }

  lemma RowBeforeLast(y: nat, rows: nat, pitch: nat)
    requires y < rows
    ensures RowStart(y, pitch) <= RowStart(rows - 1, pitch)
  {
    if y < rows - 1 {
      RowFits(y, rows - 1, pitch);
    }
  }

  /**
   As it is written: the cursor steps through 4-byte words, widthStep / 4 of them to a row. Where it
   leaves the source, which the program does not notice, the model stops with `inside` false.
   */
  method ConvertWords(src: array<byte>, width: nat, height: nat, widthStep: nat)
    returns (dst: array<byte>, inside: bool)
    ensures inside <==> WordsAreInside(width, height, widthStep, src.Length)
    ensures inside ==> dst[..] == Raster(WordPlane(src[..], widthStep), width, height)
    ensures inside ==> forall y: nat, x: nat | y < height && x < width ::
      IsSecondOfWord(dst[..], src[..], width, widthStep, y, x)
  {
    RowStartIsProduct(height, width);
    if height > 0 {
      RowStartIsProduct(height - 1, widthStep / 4);
    }
    dst := new byte[width * height];
    var dstPtr: nat, srcPtr: int := 0, 0;
    for y := 0 to height
      invariant dstPtr == RowStart(y, width) && srcPtr == RowStart(y, widthStep / 4)
      invariant dstPtr <= dst.Length
      invariant y > 0 && width > 0 ==> 4 * (RowStart(y - 1, widthStep / 4) + width) <= src.Length
      invariant dst[..dstPtr] == Raster(WordPlane(src[..], widthStep), width, y)
    {
      RowFits(y, height, width);
      RowFits(y, height, widthStep / 4);
      RowBeforeLast(y, height, widthStep / 4);
      WordRowIsRow(src[..], widthStep, y, width);
      srcPtr, dstPtr, inside := ConvertWordRow(src, srcPtr, dst, dstPtr, width, dst[..dstPtr]);
      if !inside {
        return dst, false;
      }
      srcPtr := srcPtr + (widthStep / 4 - width);
    }
    assert dst[..] == dst[..dstPtr];
    WordPixels(dst[..], src[..], width, height, widthStep);
    inside := true;
  }

  // ----- floating-point grey -----

  function ScaledRow(src: seq<real>, p: nat, width: nat, mini: real, maxi: real): seq<byte>
    requires mini != maxi
  {
    if width == 0 then []
    else ScaledRow(src, p, width - 1, mini, maxi) + [Scaled(ElementAt(src, p + width - 1), mini, maxi)]
  }

  lemma {:induction false} ScaledRowIsRow(
    src: seq<real>, stride: nat, mini: real, maxi: real, y: nat, width: nat)
    requires mini != maxi
    ensures Row(ScaledPlane(src, stride, mini, maxi), y, width)
         == ScaledRow(src, RowStart(y, stride), width, mini, maxi)
    decreases width
  {
    if width > 0 {
      ScaledRowIsRow(src, stride, mini, maxi, y, width - 1);
      RowStartIsProduct(y, stride);
      RowGrows(ScaledPlane(src, stride, mini, maxi), y, width - 1);
    }
  }

  method ScaleSample(v: real, mini: real, maxi: real) returns (p: byte)
    requires mini != maxi
    ensures p == Scaled(v, mini, maxi)
    ensures IsScaled(p, v, mini, maxi)
  {
    var pf := 255.0 * (v - mini) / (maxi - mini);
    if pf < 0.0 {
      p := 0;
    } else if pf > 255.0 {
      p := 255;
    } else {
      p := pf.Floor;
    }
    ScaledIsIt(p, v, mini, maxi);
  }

  method ConvertScaledRow(
    src: array<real>, from: nat, dst: array<byte>, to: nat, width: nat, mini: real, maxi: real,
    ghost done: seq<byte>)
    returns (srcPtr: nat, dstPtr: nat)
    requires from + width <= src.Length && to + width <= dst.Length && dst[..to] == done
    requires mini != maxi
    modifies dst
    ensures srcPtr == from + width && dstPtr == to + width
    ensures dst[..dstPtr] == done + ScaledRow(src[..], from, width, mini, maxi)
  {
    srcPtr, dstPtr := from, to;
    for x := 0 to width
      invariant srcPtr == from + x && dstPtr == to + x
      invariant dst[..dstPtr] == done + ScaledRow(src[..], from, x, mini, maxi)
    {
      ghost var before := dst[..dstPtr];
      var p := ScaleSample(src[srcPtr], mini, maxi);
      dst[dstPtr] := p;
      assert dst[..dstPtr + 1] == before + [Scaled(ElementAt(src[..], srcPtr), mini, maxi)];
      dstPtr := dstPtr + 1;
      srcPtr := srcPtr + 1;
    }
  }

  /** The pixel is its own sample, scaled. */
  predicate IsScaledSample(
    dst: seq<byte>, src: seq<real>, width: nat, stride: nat, mini: real, maxi: real, y: nat, x: nat)
  {
    var i, j := y * width + x, y * stride + x;
    i < |dst| && j < |src| && IsScaled(dst[i], src[j], mini, maxi)
  }

  lemma ScaledPixels(
    dst: seq<byte>, src: seq<real>, width: nat, height: nat, stride: nat, mini: real, maxi: real)
    requires mini != maxi && dst == Raster(ScaledPlane(src, stride, mini, maxi), width, height)
    requires stride >= width && |src| >= height * stride
    ensures forall y: nat, x: nat | y < height && x < width ::
      IsScaledSample(dst, src, width, stride, mini, maxi, y, x)
  {
    forall y: nat, x: nat | y < height && x < width
      ensures IsScaledSample(dst, src, width, stride, mini, maxi, y, x)
    {
      RasterAt(ScaledPlane(src, stride, mini, maxi), width, height, y, x);
      InRow(y, height, stride, x);
      ScaledIsIt(dst[y * width + x], src[y * stride + x], mini, maxi);
    }
  }

  /** For samples of `size` bytes each; 4 and 8 are in use. */
  method ConvertSamples(
    src: array<real>, width: nat, height: nat, widthStep: nat, size: nat, mini: real, maxi: real)
    returns (dst: array<byte>)
    requires size > 0 && widthStep / size >= width && src.Length >= height * (widthStep / size)
    requires mini != maxi
    ensures dst[..] == Raster(ScaledPlane(src[..], widthStep / size, mini, maxi), width, height)
    ensures forall y: nat, x: nat | y < height && x < width ::
      IsScaledSample(dst[..], src[..], width, widthStep / size, mini, maxi, y, x)
  {
    var stride := widthStep / size;
    RowStartIsProduct(height, width);
    RowStartIsProduct(height, stride);
    dst := new byte[width * height];
    var dstPtr, srcPtr := 0, 0;
    for y := 0 to height
      invariant dstPtr == RowStart(y, width) && srcPtr == RowStart(y, stride)
      invariant dstPtr <= dst.Length
      invariant dst[..dstPtr] == Raster(ScaledPlane(src[..], stride, mini, maxi), width, y)
    {
      RowFits(y, height, width);
      RowFits(y, height, stride);
      ScaledRowIsRow(src[..], stride, mini, maxi, y, width);
      srcPtr, dstPtr := ConvertScaledRow(src, srcPtr, dst, dstPtr, width, mini, maxi, dst[..dstPtr]);
      srcPtr := srcPtr + (stride - width);
    }
    assert dst[..] == dst[..dstPtr];
    ScaledPixels(dst[..], src[..], width, height, stride, mini, maxi);
  }
}
