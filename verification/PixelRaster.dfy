/**
 Row-major buffers: what a conversion should leave in its buffer, given what each of its columns in
 each row should hold, and how an image over that buffer finds its pixels.
 */
module PixelRaster {

  type byte = x: int | 0 <= x < 256

  /** The value at each row and column. */
  type Plane<T> = (int, int) -> T

  function Row<T>(f: Plane<T>, y: int, columns: nat): seq<T> {
    seq(columns, x => f(y, x))
  }

  function Raster<T>(f: Plane<T>, columns: nat, rows: nat): seq<T> {
    if rows == 0 then [] else Raster(f, columns, rows - 1) + Row(f, rows - 1, columns)
  }

  /** Where row `y` starts when rows lie `pitch` apart: a cursor that has been advanced y times. */
  function RowStart(y: nat, pitch: nat): nat {
    if y == 0 then 0 else RowStart(y - 1, pitch) + pitch
  }

  lemma {:induction false} RowStartIsProduct(y: nat, pitch: nat)
    ensures RowStart(y, pitch) == y * pitch
  {
    if y > 0 {
      RowStartIsProduct(y - 1, pitch);
      assert y * pitch == (y - 1) * pitch + pitch;
    }
  }

  lemma {:induction false} RowFits(y: nat, rows: nat, pitch: nat)
    requires y < rows
    ensures RowStart(y, pitch) + pitch == RowStart(y + 1, pitch) <= RowStart(rows, pitch)
    decreases rows
  {
    if y + 1 < rows {
      RowFits(y, rows - 1, pitch);
    }
  }

  lemma {:induction false} RasterLength<T>(f: Plane<T>, columns: nat, rows: nat)
    ensures |Raster(f, columns, rows)| == RowStart(rows, columns)
  {
    if rows > 0 {
      RasterLength(f, columns, rows - 1);
    }
  }

  lemma {:induction false} RasterAtStart<T>(f: Plane<T>, columns: nat, rows: nat, y: nat, x: nat)
    requires y < rows && x < columns
    ensures RowStart(y, columns) + x < |Raster(f, columns, rows)|
    ensures Raster(f, columns, rows)[RowStart(y, columns) + x] == f(y, x)
  {
    RasterLength(f, columns, rows);
    RasterLength(f, columns, rows - 1);
    RowFits(y, rows, columns);
    if y < rows - 1 {
      RasterAtStart(f, columns, rows - 1, y, x);
    }
  }

  /** The value of row `y`, column `x` stands at index y * columns + x. */
  lemma RasterAt<T>(f: Plane<T>, columns: nat, rows: nat, y: nat, x: nat)
    requires y < rows && x < columns
    ensures 0 <= y * columns + x < |Raster(f, columns, rows)| == rows * columns
    ensures Raster(f, columns, rows)[y * columns + x] == f(y, x)
  {
    RasterLength(f, columns, rows);
    RasterAtStart(f, columns, rows, y, x);
    RowStartIsProduct(y, columns);
    RowStartIsProduct(rows, columns);
  }

  /** A raster depends on nothing but the values within its rows and columns. */
  lemma {:induction false} RasterDependsOnVisible<T>(f: Plane<T>, g: Plane<T>, columns: nat, rows: nat)
    requires forall y, x | 0 <= y < rows && 0 <= x < columns :: f(y, x) == g(y, x)
    ensures Raster(f, columns, rows) == Raster(g, columns, rows)
  {
    if rows > 0 {
      RasterDependsOnVisible(f, g, columns, rows - 1);
    }
  }

  /** Reading at an offset; outside the buffer there is nothing to see. */
  function At(s: seq<byte>, i: int): byte {
    if 0 <= i < |s| then s[i] else 0
  }

  // ----- what the conversions should compute -----

  /** One byte a pixel, copied. */
  function GreyPlane(src: seq<byte>, widthStep: nat): Plane<byte> {
    (y, x) => At(src, y * widthStep + x)
  }

  /** Four bytes a pixel: three copied, the fourth 0. The columns are bytes. */
  function ColourPlane(src: seq<byte>, widthStep: nat): Plane<byte> {
    (y, b) => if b % 4 == 3 then 0 else At(src, y * widthStep + 3 * (b / 4) + b % 4)
  }

  /** The high byte of every 16-bit sample, low byte first. */
  function HighBytePlane(src: seq<byte>, widthStep: nat): Plane<byte> {
    (y, x) => At(src, y * widthStep + 2 * x + 1)
  }

  /** What the 16-bit loop takes instead: the second byte of 4-byte words, widthStep / 4 to a row. */
  function WordPlane(src: seq<byte>, widthStep: nat): Plane<byte> {
    (y, x) => At(src, 4 * (y * (widthStep / 4) + x) + 1)
  }

  /** All words that the loop reads are within a source of `length` bytes. */
  predicate WordsAreInside(width: nat, height: nat, widthStep: nat, length: nat) {
    width > 0 && height > 0 ==> 4 * ((height - 1) * (widthStep / 4) + width) <= length
  }

  /** A sample scaled from mini..maxi to 0..255, cut off at the ends and rounded down. */
  function Scaled(v: real, mini: real, maxi: real): byte
    requires mini != maxi
  {
    var pf := 255.0 * (v - mini) / (maxi - mini);
    if pf < 0.0 then 0 else if pf > 255.0 then 255 else pf.Floor
  }

  /**
   What scaling means, without a division: the ends of the range and all beyond map to 0 and 255, and
   within the range p stands for the interval of p/255 to (p + 1)/255 of it.
   */
  predicate IsScaledUp(p: byte, v: real, mini: real, maxi: real) {
    if v < mini then p == 0
    else if v > maxi then p == 255
    else (p as real) * (maxi - mini) <= 255.0 * (v - mini) < (p as real + 1.0) * (maxi - mini)
  }

  /** The same for a range in either direction: one that runs down is turned around. */
  predicate IsScaled(p: byte, v: real, mini: real, maxi: real) {
    if mini < maxi then IsScaledUp(p, v, mini, maxi) else IsScaledUp(p, -v, -mini, -maxi)
  }

  lemma ProductOrder(r: real, q: real, d: real)
    requires d > 0.0
    ensures r <= q <==> r * d <= q * d
  {
    if r <= q {
      assert (q - r) * d >= 0.0;
    } else {
      assert (r - q) * d > 0.0;
    }
  }

  lemma QuotientOrder(a: real, d: real, r: real)
    requires d > 0.0
    ensures r <= a / d <==> r * d <= a
    ensures a / d <= r <==> a <= r * d
  {
    var q := a / d;
    assert q * d == a;
    ProductOrder(r, q, d);
    ProductOrder(q, r, d);
  }

  lemma ScaledUpIsIt(p: byte, v: real, mini: real, maxi: real)
    requires mini < maxi
    ensures IsScaledUp(p, v, mini, maxi) <==> p == Scaled(v, mini, maxi)
  {
    var a, d := 255.0 * (v - mini), maxi - mini;
    QuotientOrder(a, d, 0.0);
    QuotientOrder(a, d, 255.0);
    QuotientOrder(a, d, p as real);
    QuotientOrder(a, d, p as real + 1.0);
    assert v < mini <==> a < 0.0;
    assert v > maxi <==> a > 255.0 * d;
  }

  lemma QuotientOfNegatives(a: real, d: real)
    requires d != 0.0
    ensures (-a) / (-d) == a / d
  {
    var q := a / d;
    assert q * d == a && q * (-d) == -a;
  }

  /** The number computed is the one that is meant, and no other. */
  lemma ScaledIsIt(p: byte, v: real, mini: real, maxi: real)
    requires mini != maxi
    ensures IsScaled(p, v, mini, maxi) <==> p == Scaled(v, mini, maxi)
  {
    if mini < maxi {
      ScaledUpIsIt(p, v, mini, maxi);
    } else {
      ScaledUpIsIt(p, -v, -mini, -maxi);
      QuotientOfNegatives(255.0 * (v - mini), maxi - mini);
      assert 255.0 * (-v - -mini) == -(255.0 * (v - mini)) && -maxi - -mini == -(maxi - mini);
      assert Scaled(-v, -mini, -maxi) == Scaled(v, mini, maxi);
    }
  }

  function ElementAt(src: seq<real>, i: int): real {
    if 0 <= i < |src| then src[i] else 0.0
  }

  function ScaledPlane(src: seq<real>, stride: nat, mini: real, maxi: real): Plane<byte>
    requires mini != maxi
  {
    (y, x) => Scaled(ElementAt(src, y * stride + x), mini, maxi)
  }

  // ----- the image over the buffer -----

  /** Image rows are padded to a multiple of 32 bits. */
  function BytesPerLine(width: nat, depth: nat): nat {
    (width * depth + 31) / 32 * 4
  }
}
