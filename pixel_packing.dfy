/**
 * The 24-bit packer of WM_PAINT in src/library/run_event_loop.c: the
 * planar red, green and blue channels of the viewport, row-major from the
 * top left, become rows of blue-green-red byte triples in a top-down
 * device-independent bitmap whose rows are `bytes_per_row` bytes apart.
 * The padding at the end of each row is skipped, never written.
 */
module PixelPacking {

  type Byte = x: int | 0 <= x < 256

  /**
   * `(uint8_t)(channel * 255.0f)`: for a channel in [0, 1] the product
   * truncated.  Single-precision rounding is not modelled, and a channel
   * outside [0, 1], for which C leaves the conversion undefined, is clamped.
   */
  function ToByte(channel: real): (b: Byte)
    ensures 0.0 <= channel <= 1.0 ==> b as real <= channel * 255.0 < b as real + 1.0
  {
    if channel <= 0.0 then 0
    else if channel >= 1.0 then 255
    else (channel * 255.0).Floor
  }

  /** Component 0, 1 and 2 of a packed pixel: blue, green, red. */
  function ChannelByte(reds: seq<real>, greens: seq<real>, blues: seq<real>, pixel: nat, component: nat): Byte
    requires pixel < |reds| && pixel < |greens| && pixel < |blues| && component < 3
  {
    if component == 0 then ToByte(blues[pixel])
    else if component == 1 then ToByte(greens[pixel])
    else ToByte(reds[pixel])
  }

  predicate PlanesFit(reds: seq<real>, greens: seq<real>, blues: seq<real>, rows: nat, columns: nat) {
    |reds| == rows * columns && |greens| == rows * columns && |blues| == rows * columns
  }

  lemma ZeroMultiple(k: int, d: int)
    requires d > 0 && -d < k * d < d
    ensures k == 0
  {
  }

  lemma MulLeft(a: nat, b: nat, c: nat)
    requires a <= b
    ensures a * c <= b * c
  {
  }

  /** Byte `offset` of row `row` is at `row * bytesPerRow + offset`, and that index determines row and offset. */
  lemma RowAndOffset(row: nat, bytesPerRow: nat, offset: nat)
    requires offset < bytesPerRow
    ensures (row * bytesPerRow + offset) / bytesPerRow == row
    ensures (row * bytesPerRow + offset) % bytesPerRow == offset
  {
    var i := row * bytesPerRow + offset;
    var q, m := i / bytesPerRow, i % bytesPerRow;
    assert (q - row) * bytesPerRow == offset - m;
    ZeroMultiple(q - row, bytesPerRow);
  }

  /** An index below `rows * stride` lies in one of the `rows` rows. */
  lemma RowInRange(i: nat, rows: nat, stride: nat)
    requires i < rows * stride
    ensures stride > 0 && i / stride < rows
  {
  }

  /** Row `row` of `rows` rows of `width` units ends no later than the last row does. */
  lemma NextRow(row: nat, rows: nat, width: nat)
    requires row < rows
    ensures 0 <= row * width && (row + 1) * width == row * width + width
    ensures row * width + width <= rows * width
  {
    MulLeft(row + 1, rows, width);
  }

  /** The bytes of `count` consecutive pixels from pixel `first` of the planes: blue, green, red for each. */
  function PixelTriples(reds: seq<real>, greens: seq<real>, blues: seq<real>, first: nat, count: nat): (bytes: seq<Byte>)
    requires first + count <= |reds| && first + count <= |greens| && first + count <= |blues|
    ensures |bytes| == 3 * count
  {
    if count == 0 then []
    else
      var pixel := first + count - 1;
      PixelTriples(reds, greens, blues, first, count - 1) + [ToByte(blues[pixel]), ToByte(greens[pixel]), ToByte(reds[pixel])]
  }

  /** One more pixel appends its blue, green and red bytes. */
  lemma PixelTriplesStep(reds: seq<real>, greens: seq<real>, blues: seq<real>, first: nat, count: nat)
    requires first + count < |reds| && first + count < |greens| && first + count < |blues|
    ensures PixelTriples(reds, greens, blues, first, count + 1) ==
      PixelTriples(reds, greens, blues, first, count) +
      [ToByte(blues[first + count]), ToByte(greens[first + count]), ToByte(reds[first + count])]
  {
  }

  /** Pixel `first + c` lands at bytes `3 * c`, `3 * c + 1` and `3 * c + 2` as blue, green, red. */
  lemma {:induction false} PixelTriplesAt(reds: seq<real>, greens: seq<real>, blues: seq<real>, first: nat, count: nat, c: nat)
    requires first + count <= |reds| && first + count <= |greens| && first + count <= |blues|
    requires c < count
    ensures var bytes := PixelTriples(reds, greens, blues, first, count);
      bytes[3 * c] == ToByte(blues[first + c]) &&
      bytes[3 * c + 1] == ToByte(greens[first + c]) &&
      bytes[3 * c + 2] == ToByte(reds[first + c])
  {
    if c < count - 1 {
      PixelTriplesAt(reds, greens, blues, first, count - 1, c);
    }
  }

  predicate ImageFits(before: seq<Byte>, reds: seq<real>, greens: seq<real>, blues: seq<real>,
                      rows: nat, columns: nat, bytesPerRow: nat) {
    3 * columns <= bytesPerRow && |before| == rows * bytesPerRow && PlanesFit(reds, greens, blues, rows, columns)
  }

  /** Row `row` after packing: the triples of its pixels, then its padding as it was before. */
  function PackedRow(before: seq<Byte>, reds: seq<real>, greens: seq<real>, blues: seq<real>,
                     rows: nat, columns: nat, bytesPerRow: nat, row: nat): (bytes: seq<Byte>)
    requires ImageFits(before, reds, greens, blues, rows, columns, bytesPerRow) && row < rows
    ensures |bytes| == bytesPerRow
  {
    NextRow(row, rows, columns);
    NextRow(row, rows, bytesPerRow);
    var start := row * bytesPerRow;
    PixelTriples(reds, greens, blues, row * columns, columns) + before[start + 3 * columns..start + bytesPerRow]
  }

  /** Within a row: the first `3 * columns` bytes are the pixel triples, the rest the old padding. */
  lemma PackedRowAt(before: seq<Byte>, reds: seq<real>, greens: seq<real>, blues: seq<real>,
                    rows: nat, columns: nat, bytesPerRow: nat, row: nat, offset: nat)
    requires ImageFits(before, reds, greens, blues, rows, columns, bytesPerRow) && row < rows
    requires offset < bytesPerRow
    ensures row * columns + columns <= rows * columns
    ensures row * bytesPerRow + offset < |before|
    ensures PackedRow(before, reds, greens, blues, rows, columns, bytesPerRow, row)[offset] ==
      if offset < 3 * columns then PixelTriples(reds, greens, blues, row * columns, columns)[offset]
      else before[row * bytesPerRow + offset]
  {
    NextRow(row, rows, columns);
    NextRow(row, rows, bytesPerRow);
  }

  /** The first `n` rows after packing. */
  function PackedRows(before: seq<Byte>, reds: seq<real>, greens: seq<real>, blues: seq<real>,
                      rows: nat, columns: nat, bytesPerRow: nat, n: nat): (bytes: seq<Byte>)
    requires ImageFits(before, reds, greens, blues, rows, columns, bytesPerRow) && n <= rows
    ensures |bytes| == n * bytesPerRow
  {
    if n == 0 then []
    else
      NextRow(n - 1, rows, bytesPerRow);
      PackedRows(before, reds, greens, blues, rows, columns, bytesPerRow, n - 1) +
      PackedRow(before, reds, greens, blues, rows, columns, bytesPerRow, n - 1)
  }

  /** The whole image after packing, given the image `before` it. */
  function Packed(before: seq<Byte>, reds: seq<real>, greens: seq<real>, blues: seq<real>,
                  rows: nat, columns: nat, bytesPerRow: nat): (after: seq<Byte>)
    requires ImageFits(before, reds, greens, blues, rows, columns, bytesPerRow)
    ensures |after| == |before|
  {
    PackedRows(before, reds, greens, blues, rows, columns, bytesPerRow, rows)
  }

  /** Byte `offset` of row `r` of the packed rows lies at `r * bytesPerRow + offset`. */
  lemma {:induction false} PackedRowsAt(before: seq<Byte>, reds: seq<real>, greens: seq<real>, blues: seq<real>,
                                        rows: nat, columns: nat, bytesPerRow: nat, n: nat, r: nat, offset: nat)
    requires ImageFits(before, reds, greens, blues, rows, columns, bytesPerRow) && n <= rows
    requires r < n && offset < bytesPerRow
    ensures r * bytesPerRow + offset < n * bytesPerRow
    ensures PackedRows(before, reds, greens, blues, rows, columns, bytesPerRow, n)[r * bytesPerRow + offset] ==
            PackedRow(before, reds, greens, blues, rows, columns, bytesPerRow, r)[offset]
  {
    NextRow(r, n, bytesPerRow);
    if r < n - 1 {
      PackedRowsAt(before, reds, greens, blues, rows, columns, bytesPerRow, n - 1, r, offset);
    } else {
      NextRow(n - 1, rows, bytesPerRow);
    }
  }

  /** Row `row` of the packed image, byte by byte: the pixel triples of that row, then the old padding. */
  lemma PackedRowBytes(before: seq<Byte>, reds: seq<real>, greens: seq<real>, blues: seq<real>,
                       rows: nat, columns: nat, bytesPerRow: nat, row: nat)
    requires ImageFits(before, reds, greens, blues, rows, columns, bytesPerRow) && row < rows
    ensures 0 <= row * columns && row * columns + columns <= rows * columns
    ensures row * bytesPerRow + bytesPerRow <= |before|
    ensures var start, after := row * bytesPerRow, Packed(before, reds, greens, blues, rows, columns, bytesPerRow);
      forall i :: start <= i < start + bytesPerRow ==>
        after[i] == if i - start < 3 * columns then PixelTriples(reds, greens, blues, row * columns, columns)[i - start]
                    else before[i]
  {
    NextRow(row, rows, columns);
    NextRow(row, rows, bytesPerRow);
    var start := row * bytesPerRow;
    forall i | start <= i < start + bytesPerRow
      ensures Packed(before, reds, greens, blues, rows, columns, bytesPerRow)[i] ==
        if i - start < 3 * columns then PixelTriples(reds, greens, blues, row * columns, columns)[i - start]
        else before[i]
    {
      PackedRowsAt(before, reds, greens, blues, rows, columns, bytesPerRow, rows, row, i - start);
      PackedRowAt(before, reds, greens, blues, rows, columns, bytesPerRow, row, i - start);
    }
  }

  /** Pixel (row, column) lands at `row * bytesPerRow + 3 * column` as blue, green, red. */
  lemma PackedPixel(before: seq<Byte>, reds: seq<real>, greens: seq<real>, blues: seq<real>,
                    rows: nat, columns: nat, bytesPerRow: nat, row: nat, column: nat)
    requires ImageFits(before, reds, greens, blues, rows, columns, bytesPerRow)
    requires row < rows && column < columns
    ensures var base, pixel := row * bytesPerRow + 3 * column, row * columns + column;
      var after := Packed(before, reds, greens, blues, rows, columns, bytesPerRow);
      base + 2 < |after| && pixel < rows * columns &&
      after[base] == ToByte(blues[pixel]) &&
      after[base + 1] == ToByte(greens[pixel]) &&
      after[base + 2] == ToByte(reds[pixel])
  {
    PackedRowsAt(before, reds, greens, blues, rows, columns, bytesPerRow, rows, row, 3 * column);
    PackedRowsAt(before, reds, greens, blues, rows, columns, bytesPerRow, rows, row, 3 * column + 1);
    PackedRowsAt(before, reds, greens, blues, rows, columns, bytesPerRow, rows, row, 3 * column + 2);
    PackedRowAt(before, reds, greens, blues, rows, columns, bytesPerRow, row, 3 * column);
    PackedRowAt(before, reds, greens, blues, rows, columns, bytesPerRow, row, 3 * column + 1);
    PackedRowAt(before, reds, greens, blues, rows, columns, bytesPerRow, row, 3 * column + 2);
    NextRow(row, rows, columns);
    PixelTriplesAt(reds, greens, blues, row * columns, columns, column);
  }

  /** The padding bytes at the end of every row keep their previous value. */
  lemma PackedPadding(before: seq<Byte>, reds: seq<real>, greens: seq<real>, blues: seq<real>,
                      rows: nat, columns: nat, bytesPerRow: nat, row: nat, offset: nat)
    requires ImageFits(before, reds, greens, blues, rows, columns, bytesPerRow)
    requires row < rows && 3 * columns <= offset < bytesPerRow
    ensures var i := row * bytesPerRow + offset;
      i < |before| && Packed(before, reds, greens, blues, rows, columns, bytesPerRow)[i] == before[i]
  {
    PackedRowsAt(before, reds, greens, blues, rows, columns, bytesPerRow, rows, row, offset);
    PackedRowAt(before, reds, greens, blues, rows, columns, bytesPerRow, row, offset);
  }

  /** Only pixel bytes change: every byte at or beyond `3 * columns` within its row keeps its value. */
  lemma PackedChangesOnlyPixels(before: seq<Byte>, reds: seq<real>, greens: seq<real>, blues: seq<real>,
                                rows: nat, columns: nat, bytesPerRow: nat)
    requires ImageFits(before, reds, greens, blues, rows, columns, bytesPerRow)
    ensures var after := Packed(before, reds, greens, blues, rows, columns, bytesPerRow);
      forall i :: 0 <= i < |before| && i % bytesPerRow >= 3 * columns ==> after[i] == before[i]
  {
    var after := Packed(before, reds, greens, blues, rows, columns, bytesPerRow);
    forall i | 0 <= i < |before| && i % bytesPerRow >= 3 * columns
      ensures after[i] == before[i]
    {
      var row, offset := RowAndColumnOf(i, rows, bytesPerRow);
      PackedPadding(before, reds, greens, blues, rows, columns, bytesPerRow, row, offset);
    }
  }

  /** Byte `i` of an image of `rows` rows of `stride` bytes is byte `i % stride` of row `i / stride`. */
  lemma RowAndColumnOf(i: nat, rows: nat, stride: nat) returns (row: nat, offset: nat)
    requires i < rows * stride
    ensures row < rows && offset < stride && offset == i % stride && i == row * stride + offset
  {
    RowInRange(i, rows, stride);
    row, offset := i / stride, i % stride;
  }
}
