/** The copy of a bitmap that the cache keeps: the pixels without the padding of the rows
    and, when there is no alpha channel, without the alpha bytes. */
module Thumbnails {
  import opened Arithmetic

  type Byte = b: int | 0 <= b < 256

  /** Four bytes for each pixel, alpha first, in rows that start `modulo` pixels apart. */
  datatype Bitmap = Bitmap(width: nat, height: nat, alpha: bool, modulo: nat, pixels: seq<Byte>)

  /** A copy, with what its header says. */
  datatype Packed = Packed(width: nat, height: nat, bpp: nat, pixels: seq<Byte>)

  function BytesPerPixel(b: Bitmap): (n: nat) {
    if b.alpha then 4 else 3
  }

  /** The bytes of a row of the copy. */
  function RowBytes(b: Bitmap): nat {
    b.width * BytesPerPixel(b)
  }

  lemma RowBytesIs(b: Bitmap)
    ensures RowBytes(b) == if b.alpha then 4 * b.width else 3 * b.width
  {
  }

  function RowStart(b: Bitmap, y: nat): nat {
    y * b.modulo * 4
  }

  /** Every row lies within the pixel array. */
  ghost predicate Readable(b: Bitmap) {
    forall y :: 0 <= y < b.height ==> RowStart(b, y) + 4 * b.width <= |b.pixels|
  }

  function Pixel(b: Bitmap, y: nat, x: nat): (p: seq<Byte>)
    requires Readable(b) && y < b.height && x < b.width
    ensures |p| == BytesPerPixel(b)
  {
    var at := RowStart(b, y) + 4 * x;
    if b.alpha then b.pixels[at..at + 4] else b.pixels[at + 1..at + 4]
  }

  /** The first `n` pixels of a row. */
  function Row(b: Bitmap, y: nat, n: nat): (p: seq<Byte>)
    requires Readable(b) && y < b.height && n <= b.width
    ensures |p| == n * BytesPerPixel(b)
  {
    if n == 0 then [] else Row(b, y, n - 1) + Pixel(b, y, n - 1)
  }

  /** The first `n` rows. */
  function Rows(b: Bitmap, n: nat): (p: seq<Byte>)
    requires Readable(b) && n <= b.height
    ensures |p| == n * RowBytes(b)
  {
    if n == 0 then []
    else
      NextMultiple(n - 1, RowBytes(b));
      Rows(b, n - 1) + Row(b, n - 1, b.width)
  }

  function Pack(b: Bitmap): Packed
    requires Readable(b)
  {
    Packed(b.width, b.height, BytesPerPixel(b), Rows(b, b.height))
  }

  // ----- Where the pixels go ---------------------------------------------------------------

  lemma {:induction false} PixelInRow(b: Bitmap, y: nat, x: nat, n: nat, c: nat)
    requires Readable(b) && y < b.height && x < n <= b.width && c < BytesPerPixel(b)
    ensures x * BytesPerPixel(b) + c < |Row(b, y, n)|
    ensures Row(b, y, n)[x * BytesPerPixel(b) + c] == Pixel(b, y, x)[c]
  {
    hide Pixel;
    MultipleAtMost(x, n, BytesPerPixel(b));
    if x < n - 1 {
      PixelInRow(b, y, x, n - 1, c);
    }
  }

  lemma {:induction false} RowInRows(b: Bitmap, y: nat, n: nat, i: nat)
    requires Readable(b) && y < n <= b.height && i < RowBytes(b)
    ensures y * RowBytes(b) + i < |Rows(b, n)|
    ensures Rows(b, n)[y * RowBytes(b) + i] == Row(b, y, b.width)[i]
  {
    hide Row;
    MultipleAtMost(y, n, RowBytes(b));
    NextMultiple(n - 1, RowBytes(b));
    if y < n - 1 {
      RowInRows(b, y, n - 1, i);
    }
  }

  lemma Offset(y: nat, w: nat, x: nat, bpp: nat, c: nat)
    ensures (y * w + x) * bpp + c == y * (w * bpp) + (x * bpp + c)
  {
  }

  /** Where a channel of a pixel is in a copy, and where it comes from. */
  function PackedOffset(b: Bitmap, y: nat, x: nat, c: nat): nat {
    (y * b.width + x) * BytesPerPixel(b) + c
  }

  function SourceOffset(b: Bitmap, y: nat, x: nat, c: nat): nat {
    (y * b.modulo + x) * 4 + (4 - BytesPerPixel(b)) + c
  }

  lemma OffsetsAre(b: Bitmap, y: nat, x: nat, c: nat)
    ensures PackedOffset(b, y, x, c) == y * RowBytes(b) + (x * BytesPerPixel(b) + c)
    ensures SourceOffset(b, y, x, c) == RowStart(b, y) + 4 * x + (4 - BytesPerPixel(b)) + c
  {
  }

  /** Each channel of each pixel, whatever the modulo, is where the reader of the copy looks
      for it; without alpha the channels move down by one. */
  lemma ChannelInPlace(b: Bitmap, y: nat, x: nat, c: nat)
    requires Readable(b) && y < b.height && x < b.width && c < BytesPerPixel(b)
    ensures |Pack(b).pixels| == b.height * RowBytes(b)
    ensures PackedOffset(b, y, x, c) < |Pack(b).pixels| && SourceOffset(b, y, x, c) < |b.pixels|
    ensures Pack(b).pixels[PackedOffset(b, y, x, c)] == b.pixels[SourceOffset(b, y, x, c)]
  {
    hide Row, Rows, RowStart, PackedOffset, SourceOffset, Pixel;
    OffsetsAre(b, y, x, c);
    PixelInRow(b, y, x, b.width, c);
    RowInRows(b, y, b.height, x * BytesPerPixel(b) + c);
    PixelFrom(b, y, x, c);
  }

  lemma PixelFrom(b: Bitmap, y: nat, x: nat, c: nat)
    requires Readable(b) && y < b.height && x < b.width && c < BytesPerPixel(b)
    ensures RowStart(b, y) + 4 * x + (4 - BytesPerPixel(b)) + c < |b.pixels|
    ensures Pixel(b, y, x)[c] == b.pixels[RowStart(b, y) + 4 * x + (4 - BytesPerPixel(b)) + c]
  {
  }

  /** No two channels share a byte. */
  lemma NoOverlap(w: nat, bpp: nat, y: nat, x: nat, c: nat, y': nat, x': nat, c': nat)
    requires x < w && x' < w && c < bpp && c' < bpp
    requires (y * w + x) * bpp + c == (y' * w + x') * bpp + c'
    ensures y == y' && x == x' && c == c'
  {
    SmallDigit(y * w + x, y' * w + x', c, c', bpp);
    SmallDigit(y, y', x, x', w);
  }

  lemma DigitBound(a: nat, x: nat, m: nat, n: nat)
    requires a * m + x < n * m
    ensures a < n
  {
  }

  lemma NoWidth(h: nat, w: nat, p: nat)
    requires p < h * w
    ensures w > 0
  {
  }

  /** Every byte of the copy is a channel of a pixel. */
  lemma FillsExactly(b: Bitmap, k: nat) returns (y: nat, x: nat, c: nat)
    requires Readable(b) && k < |Pack(b).pixels|
    ensures y < b.height && x < b.width && c < BytesPerPixel(b)
    ensures k == PackedOffset(b, y, x, c)
  {
    hide Quotient, Remainder, Rows;
    var bpp := BytesPerPixel(b);
    var p;
    p, c := Quotient(k, bpp), Remainder(k, bpp);
    Decompose(k, bpp);
    Offset(b.height, b.width, 0, bpp, 0);
    DigitBound(p, c, bpp, b.height * b.width);
    NoWidth(b.height, b.width, p);
    y, x := Quotient(p, b.width), Remainder(p, b.width);
    Decompose(p, b.width);
    DigitBound(y, x, b.width, b.height);
  }

  // ----- The copy loops ------------------------------------------------------------------------

  /** `memcpy` from one buffer to another. */
  method CopyBytes(source: seq<Byte>, start: nat, dest: array<Byte>, at: nat, n: nat)
    requires start + n <= |source| && at + n <= dest.Length
    modifies dest
    ensures dest[..at] == old(dest[..at])
    ensures dest[at..at + n] == source[start..start + n]
  {
    forall i | 0 <= i < n {
      dest[at + i] := source[start + i];
    }
  }

  /** Copies the three colour channels of a pixel. */
  method CopyPixel(b: Bitmap, y: nat, x: nat, dest: array<Byte>, at: nat)
    requires Readable(b) && !b.alpha && y < b.height && x < b.width && at + 3 <= dest.Length
    modifies dest
    ensures dest[..at] == old(dest[..at]) && dest[at..at + 3] == Pixel(b, y, x)
  {
    var from := y * b.modulo * 4 + 4 * x;
    assert from == RowStart(b, y) + 4 * x;
    dest[at] := b.pixels[from + 1];
    dest[at + 1] := b.pixels[from + 2];
    dest[at + 2] := b.pixels[from + 3];
  }

  lemma RowNone(b: Bitmap, y: nat, empty: seq<Byte>)
    requires Readable(b) && y < b.height && |empty| == 0
    ensures empty == Row(b, y, 0)
  {
  }

  lemma RowNext(b: Bitmap, y: nat, n: nat)
    requires Readable(b) && y < b.height && 0 < n <= b.width
    ensures Row(b, y, n) == Row(b, y, n - 1) + Pixel(b, y, n - 1)
  {
  }

  /** Copies one row; rows of pixels with alpha are copied as a block. */
  method CopyRow(b: Bitmap, y: nat, dest: array<Byte>, at: nat)
    requires Readable(b) && y < b.height && at + RowBytes(b) <= dest.Length
    modifies dest
    ensures dest[..at] == old(dest[..at])
    ensures dest[at..at + RowBytes(b)] == Row(b, y, b.width)
  {
    hide RowBytes;
    RowBytesIs(b);
    if b.alpha {
      CopyAlphaRow(b, y, dest, at);
    } else {
      CopyColourRow(b, y, dest, at);
    }
  }

  method CopyAlphaRow(b: Bitmap, y: nat, dest: array<Byte>, at: nat)
    requires Readable(b) && b.alpha && y < b.height && at + 4 * b.width <= dest.Length
    modifies dest
    ensures dest[..at] == old(dest[..at])
    ensures dest[at..at + 4 * b.width] == Row(b, y, b.width)
  {
    hide Row;
    var start := y * b.modulo * 4;
    assert start == RowStart(b, y);
    WholeRow(b, y, b.width);
    hide RowStart;
    CopyBytes(b.pixels, start, dest, at, 4 * b.width);
  }

  method CopyColourRow(b: Bitmap, y: nat, dest: array<Byte>, at: nat)
    requires Readable(b) && !b.alpha && y < b.height && at + 3 * b.width <= dest.Length
    modifies dest
    ensures dest[..at] == old(dest[..at])
    ensures dest[at..at + 3 * b.width] == Row(b, y, b.width)
  {
    hide Row, Pixel, RowStart, Readable;
    RowNone(b, y, dest[at..at]);
    var x := 0;
    while x < b.width
      invariant x <= b.width && dest[..at] == old(dest[..at])
      invariant dest[at..at + 3 * x] == Row(b, y, x)
    {
      ghost var before := dest[..at + 3 * x];
      assert before[..at] == dest[..at] && before[at..] == dest[at..at + 3 * x];
      CopyPixel(b, y, x, dest, at + 3 * x);
      RowNext(b, y, x + 1);
      assert dest[..at] == before[..at] && dest[at..at + 3 * x] == before[at..];
      assert dest[at..at + 3 * (x + 1)] == dest[at..at + 3 * x] + dest[at + 3 * x..at + 3 * (x + 1)];
      x := x + 1;
    }
  }

  lemma {:induction false} WholeRow(b: Bitmap, y: nat, n: nat)
    requires Readable(b) && b.alpha && y < b.height && n <= b.width
    ensures RowStart(b, y) + 4 * n <= |b.pixels|
    ensures Row(b, y, n) == b.pixels[RowStart(b, y)..RowStart(b, y) + 4 * n]
  {
    hide RowStart, Readable, Pixel, Row;
    RowFits(b, y);
    if n > 0 {
      WholeRow(b, y, n - 1);
      PixelBytes(b, y, n - 1);
      RowNext(b, y, n);
      Join4(b.pixels, RowStart(b, y), 4 * n);
    } else {
      RowNone(b, y, b.pixels[RowStart(b, y)..RowStart(b, y)]);
    }
  }

  lemma RowFits(b: Bitmap, y: nat)
    requires Readable(b) && y < b.height
    ensures RowStart(b, y) + 4 * b.width <= |b.pixels|
  {
  }

  lemma PixelBytes(b: Bitmap, y: nat, x: nat)
    requires Readable(b) && b.alpha && y < b.height && x < b.width
    ensures RowStart(b, y) + 4 * (x + 1) <= |b.pixels|
    ensures Pixel(b, y, x) == b.pixels[RowStart(b, y) + 4 * x..RowStart(b, y) + 4 * (x + 1)]
  {
  }

  lemma Join4(s: seq<Byte>, start: nat, n: nat)
    requires 4 <= n && start + n <= |s|
    ensures s[start..start + (n - 4)] + s[start + (n - 4)..start + n] == s[start..start + n]
  {
  }

  /** Copies a bitmap to a buffer of the computed size, which is filled exactly. */
  method CopyBitmap(b: Bitmap, dest: array<Byte>)
    requires Readable(b) && dest.Length == b.height * RowBytes(b)
    modifies dest
    ensures dest[..] == Pack(b).pixels
  {
    hide Row, RowStart, Readable;
    var w := RowBytes(b);
    var y := 0;
    while y < b.height
      invariant y <= b.height && y * w <= dest.Length
      invariant dest[..y * w] == Rows(b, y)
    {
      MultipleAtMost(y, b.height, w);
      NextMultiple(y, w);
      CopyRow(b, y, dest, y * w);
      assert dest[..(y + 1) * w] == dest[..y * w] + dest[y * w..y * w + w];
      y := y + 1;
    }
  }
}
