/**
 * The single scratch allocation of src/library/run_event_loop.c and the
 * byte offsets at which its three areas start: the packed 24-bit image
 * (`rows` rows of `bytes_per_row` bytes), then `buffers` audio slots of
 * `2 * samples_per_tick` 4-byte floats, then `buffers` WAVEHDR records.
 * Also the number of audio buffers and the image row stride.
 */
module ScratchLayout {
  import opened AudioSlots

  /** sizeof(float). */
  const FLOAT_SIZE: int := 4

  /**
   * GDI_WIDTHBYTES is not part of this model.  It is taken to round a row
   * of `bits` bits up to a whole number of 32-bit units, in bytes: the
   * stride of a device-independent bitmap.
   */
  function WidthBytes(bits: int): int
    requires bits >= 0
  {
    ((bits + 31) / 32) * 4
  }

  /** The stride of one image row: `GDI_WIDTHBYTES(columns * 24)`. */
  function BytesPerRow(columns: int): int
    requires columns >= 0
  {
    WidthBytes(columns * 24)
  }

  /** The stride is a whole number of 4-byte units and pads each row by 0 to 3 bytes. */
  lemma RowStride(columns: int)
    requires columns >= 0
    ensures BytesPerRow(columns) % 4 == 0
    ensures 3 * columns <= BytesPerRow(columns) <= 3 * columns + 3
  {
  }

  /**
   * The number of audio buffers, `ceil(max(1, ticks_per_second / 10)) + 1`,
   * as the integer ceiling (the source computes it in double precision).
   */
  function BufferCount(ticksPerSecond: int): (buffers: int)
    ensures buffers >= 2
    ensures (buffers - 1) * 10 >= ticksPerSecond
    ensures ticksPerSecond <= 10 ==> buffers == 2
    ensures ticksPerSecond > 10 ==> (buffers - 2) * 10 < ticksPerSecond
  {
    if ticksPerSecond <= 10 then 2 else (ticksPerSecond + 9) / 10 + 1
  }

  /** The counts for 1, 60 and 600 ticks per second. */
  lemma BufferCountExamples()
    ensures BufferCount(1) == 2 && BufferCount(60) == 7 && BufferCount(600) == 61
  {
  }

  /** Bytes taken by the packed image. */
  function PixelBytes(rows: int, columns: int): int
    requires rows >= 0 && columns >= 0
  {
    rows * BytesPerRow(columns)
  }

  /** Byte offset of audio slot `k`: `start_of_buffers + samples_per_tick * 2 * k` floats. */
  function SlotOffset(rows: int, columns: int, samplesPerTick: nat, k: nat): int
    requires rows >= 0 && columns >= 0
  {
    PixelBytes(rows, columns) + FLOAT_SIZE * SlotStart(samplesPerTick, k)
  }

  /** Byte offset of WAVEHDR `k`, which follows the `buffers` audio slots. */
  function HeaderOffset(rows: int, columns: int, samplesPerTick: nat, buffers: nat, headerSize: nat, k: nat): int
    requires rows >= 0 && columns >= 0
  {
    SlotOffset(rows, columns, samplesPerTick, buffers) + headerSize * k
  }

  /** The size requested from malloc. */
  function ScratchSize(rows: int, columns: int, samplesPerTick: nat, buffers: nat, headerSize: nat): int
    requires rows >= 0 && columns >= 0
  {
    rows * BytesPerRow(columns) + FLOAT_SIZE * 2 * buffers * samplesPerTick + headerSize * buffers
  }

  /**
   * The three areas lie one after another inside the allocation: every slot
   * and every header is within it, slots are float-aligned, and a slot ends
   * before the headers begin.
   */
  lemma AreasWithinScratch(rows: int, columns: int, samplesPerTick: nat, buffers: nat, headerSize: nat, k: nat)
    requires rows >= 0 && columns >= 0 && k < buffers
    ensures PixelBytes(rows, columns) <= SlotOffset(rows, columns, samplesPerTick, k)
    ensures SlotOffset(rows, columns, samplesPerTick, k) % FLOAT_SIZE == 0
    ensures SlotOffset(rows, columns, samplesPerTick, k) + FLOAT_SIZE * 2 * samplesPerTick
      <= HeaderOffset(rows, columns, samplesPerTick, buffers, headerSize, 0)
    ensures HeaderOffset(rows, columns, samplesPerTick, buffers, headerSize, 0)
      <= HeaderOffset(rows, columns, samplesPerTick, buffers, headerSize, k)
    ensures HeaderOffset(rows, columns, samplesPerTick, buffers, headerSize, k) + headerSize
      <= ScratchSize(rows, columns, samplesPerTick, buffers, headerSize)
  {
    RowStride(columns);
    SlotBounds(samplesPerTick, k, buffers);
    var bytesPerRow := BytesPerRow(columns);
    assert (rows * bytesPerRow) % 4 == 0 by {
      assert rows * bytesPerRow == 4 * (rows * (bytesPerRow / 4));
    }
    assert FLOAT_SIZE * SlotStart(samplesPerTick, buffers) == FLOAT_SIZE * 2 * buffers * samplesPerTick;
    MulMonotone(headerSize, k + 1, buffers);
  }

  /** The header array starts on a 4-byte boundary: the image stride and every slot are whole floats. */
  lemma HeadersAligned(rows: int, columns: int, samplesPerTick: nat, buffers: nat, headerSize: nat)
    requires rows >= 0 && columns >= 0
    ensures HeaderOffset(rows, columns, samplesPerTick, buffers, headerSize, 0) % FLOAT_SIZE == 0
  {
    RowStride(columns);
    var bytesPerRow := BytesPerRow(columns);
    var units := rows * (bytesPerRow / 4) + SlotStart(samplesPerTick, buffers);
    assert HeaderOffset(rows, columns, samplesPerTick, buffers, headerSize, 0) == 4 * units by {
      assert rows * bytesPerRow == 4 * (rows * (bytesPerRow / 4));
    }
  }

  /**
   * Four bytes is all the alignment the headers get: with a one-pixel image
   * the header array starts 4 bytes past a multiple of 8.
   */
  lemma HeadersOnlyFourAligned(samplesPerTick: nat, buffers: nat, headerSize: nat)
    ensures HeaderOffset(1, 1, samplesPerTick, buffers, headerSize, 0) % 8 == 4
  {
    assert BytesPerRow(1) == 4;
    assert FLOAT_SIZE * SlotStart(samplesPerTick, buffers) == 8 * (samplesPerTick * buffers);
  }

  lemma MulMonotone(a: nat, b: nat, c: nat)
    requires b <= c
    ensures a * b <= a * c
  {
  }
}
