# A verified model of the win32 event loop of `run_event_loop`

`run_event_loop` opens a window and a stereo wave-out device. It then runs
the host through two callbacks:

- `tick` fills the left and right audio buffers, once per tick;
- `video` fills the red, green and blue planes of a `rows` x `columns` viewport.

The window procedure owns a `context` record and keeps it current:

- It keeps a ring of `buffers` audio slots playing. Each slot that the device
  hands back (`MM_WOM_DONE`) is refilled with a fresh tick and resubmitted.
- It records the sample position at which the current tick began, so that a
  repaint can tell the host how far into the tick the device has played.
- It packs the planes into a 24-bit top-down bitmap and stretches it into a
  letterbox centred in the client area. The letterbox is recomputed on
  `WM_SIZE`, and the window is kept to the viewport's aspect ratio on
  `WM_SIZING`.
- It tracks the virtual keys held down, for the host's `key_held` query.
- It stops at the first failing system call. The message is recorded in
  `error`, and from then on every message goes to `DefWindowProc`.

The model is in Dafny, one module per concern:

| module | file | contents |
|---|---|---|
| `Wrappers` | wrappers.dfy | `Option` and `Result` |
| `Failures` | failures.dfy | one constructor per error message the window procedure can record; `Text` maps each to the source's message |
| `Dword` | dword.dfy | DWORD wrap-around arithmetic of the playback clock. The tick progress handed to `video` and the errors `video` returns |
| `Geometry` | geometry.dfy | the WM_SIZE letterbox, the WM_PAINT border rectangles, the WM_SIZING edge and corner drags |
| `HeldKeys` | held_keys.dfy | the held-key array as a sequence: press, release, membership |
| `AudioSlots` | audio_slots.dfy | the audio area of the scratch block: slot positions, interleaving, overwriting one slot, priming |
| `ScratchLayout` | scratch_layout.dfy | the scratch allocation: image stride, buffer count, offsets of the three areas |
| `PixelPacking` | pixel_packing.dfy | the planar-to-BGR packer as a function on byte sequences, and its byte-by-byte properties |
| `EventLoop` | event_loop.dfy | the `context` record as the class `Context`, one method per handled message, priming, and the window procedure |

`Context` has the fields of `context` except `pointer_row` and
`pointer_column` (src/library/run_event_loop.c:700-701), which are dropped
with mouse input. The parts of the scratch block are
three arrays: the packed image `pixels`, the audio area `samples` and the
wave headers `headers`. The host's buffers are arrays the class refers to.
The held-key list is a nullable array plus its count. `WM_KEYDOWN` grows it
by reallocation. `WM_KEYUP` shifts it down (the memmove) and shrinks it, or
frees it when it empties.

Each operating-system call is an oracle. Its outcome arrives as a boolean
in the `Message`, or in `PaintOutcomes` for `WM_PAINT`. The callbacks
`tick` and `video` are methods (`HostTick`, `HostVideo`) that overwrite the
host's buffers with contents that also arrive in the message. `HostVideo`
also records the tick progress it is handed in the ghost field
`videoProgress`. The host may pass one buffer for two planes, or for both
channels. The contents that arrive in the message must then agree in the
planes or channels that share it (`PlanesFitImage`, `FrameFitsTick`).
Everything the loop computes from those inputs is modelled exactly, up to
the floating-point rounding listed under "## Left out":

- which rectangles are drawn;
- the tick progress handed to `video`;
- which bytes and floats are written;
- which error is kept;
- the new field values.

The window procedure's loops stay loops with invariants:

- `key_held`;
- the key-down search;
- the key-up search and memmove;
- the copy of a tick into a slot;
- the priming loop;
- the nested packing loop.

Each loop is proved against a specification function: `HeldKeys.Pressed`,
`HeldKeys.Released`, `AudioSlots.WithSlot`, `AudioSlots.Primed` or
`PixelPacking.Packed`. The lemmas beside each function prove what the source
promises about it.

## Model

| member | source | states |
|---|---|---|
| `EventLoop.Context.KeyHeld` | src/library/run_event_loop.c:63-78 | the linear search answers true exactly when the code is in the held-key array |
| `EventLoop.Context.HandleKeyDown` | src/library/run_event_loop.c:507-534 | the new held codes are `Pressed` of the old ones; the count is their length; an already held code leaves the array as it was, a new one gives a freshly allocated array; the list stays duplicate-free, null exactly when empty |
| `EventLoop.Context.HandleKeyUp` | src/library/run_event_loop.c:536-565 | the new held codes are `Released` of the old ones; the count is their length; releasing the last code leaves the pointer null; a code not held changes neither pointer nor count |
| `EventLoop.Context.Reallocate` | src/library/run_event_loop.c:519-521 | `realloc` as a fresh array of the new length whose common prefix holds the old codes |
| `EventLoop.Context.ShiftDown` | src/library/run_event_loop.c:548-551 | the memmove: the first `n - 1` codes become the old ones without position `index`, in order |
| `HeldKeys.Pressed` | src/library/run_event_loop.c:507-534 | what key-down makes of the held codes: the same codes when the key is already held, otherwise the new code appended; the loop of `HandleKeyDown` is proved against it |
| `HeldKeys.Released` | src/library/run_event_loop.c:536-565 | what key-up makes of the held codes: the first occurrence of the code dropped and the rest kept in order, or the same codes when it is not held; the loop of `HandleKeyUp` is proved against it |
| `HeldKeys.IndexOf` | src/library/run_event_loop.c:541-542 | the position the key-up search stops at: the first occurrence of the code, or the length when absent |
| `HeldKeys.IndexOfFindsMembers` | src/library/run_event_loop.c:541-542 | the search finds a position exactly when the code is held |
| `HeldKeys.PressedAddsKey` | src/library/run_event_loop.c:507-534 | pressing keeps the codes distinct, adds exactly the pressed code, and grows the count by one exactly when it was not held |
| `HeldKeys.ReleasedRemovesKey` | src/library/run_event_loop.c:536-565 | releasing keeps the codes distinct, removes exactly the released code, and shrinks the count by one exactly when it was held |
| `HeldKeys.RemovalKeepsOthers` | src/library/run_event_loop.c:548-551 | removing a position from a duplicate-free array removes exactly the code held there |
| `HeldKeys.RemovalKeepsDistinct` | src/library/run_event_loop.c:548-551 | removing a position keeps the codes distinct |
| `HeldKeys.PressTwiceIsPressOnce` | src/library/run_event_loop.c:512-516 | an auto-repeated key-down changes nothing |
| `HeldKeys.ReleaseAbsentIsNoOp` | src/library/run_event_loop.c:541-562 | releasing a code that is not held changes nothing |
| `HeldKeys.ReleaseUndoesPress` | src/library/run_event_loop.c:507-565 | pressing a code that was not held and then releasing it restores the array exactly |
| `Dword.Elapsed` | src/library/run_event_loop.c:101-106 | the elapsed-sample count is `(position - minimum) mod 2^32`, with the wrapped and unwrapped cases spelled out |
| `Dword.ElapsedAcrossWrapExample` | src/library/run_event_loop.c:104-106 | position 5 against minimum 4294967294 gives 7 |
| `Dword.NextMinimumPosition` | src/library/run_event_loop.c:212-220 | the advance of `minimum_position` after a resubmitted buffer, branch for branch, with the distance to the end reduced to a DWORD; what it amounts to is stated by the next two rows |
| `Dword.NextMinimumPositionIsModularSum` | src/library/run_event_loop.c:212-220 | the advance of `minimum_position` is `(previous + samples_per_tick) mod 2^32` for every previous value, including 0, where the distance to the end wraps to 0 |
| `Dword.NextMinimumPositionEdges` | src/library/run_event_loop.c:212-220 | previous 0 advances to `samples_per_tick`, previous 2^32 - 1 to `samples_per_tick - 1` |
| `Dword.ElapsedAfterAdvance` | src/library/run_event_loop.c:101-106 | the two computations are inverse: one advance after `previous`, exactly `samples_per_tick` samples have elapsed |
| `Dword.FractionOfTick` | src/library/run_event_loop.c:110 | the quotient elapsed / samples_per_tick is non-negative, times the divisor gives the elapsed count back, is at most 1 up to one tick and at least 1 beyond |
| `Dword.UnitClamp` | src/library/run_event_loop.c:110 | the clamp `max(0, min(1, x))` of the tick progress; that the clamped value lies in [0, 1] is stated by `TickProgress` |
| `Dword.PositionError` | src/library/run_event_loop.c:83-97 | `video` fails exactly when a device is open and the position query fails or is not in samples, with the matching message in each case |
| `Dword.TickProgress` | src/library/run_event_loop.c:80-114 | the value handed to `video` is 0 with no device; otherwise it is the elapsed fraction of a tick clamped to [0, 1] (exactly elapsed / samples_per_tick up to one tick, 1 beyond); it is an error exactly when `PositionError` says so |
| `ScratchLayout.WidthBytes` | src/library/run_event_loop.c:668 | `GDI_WIDTHBYTES` as this model reads it: `bits` rounded up to whole 32-bit units, in bytes |
| `ScratchLayout.BytesPerRow` | src/library/run_event_loop.c:668 | the image row stride `GDI_WIDTHBYTES(columns * 24)`; its properties are stated by `RowStride` |
| `ScratchLayout.RowStride` | src/library/run_event_loop.c:668-675 | the row stride is a whole number of 4-byte units, and `skipped_bytes_per_row` is between 0 and 3 |
| `ScratchLayout.BufferCount` | src/library/run_event_loop.c:664-666 | at least two buffers, and enough to hold a tenth of a second of ticks: `(buffers - 1) * 10 >= ticks_per_second`, and no more than that needs |
| `ScratchLayout.BufferCountExamples` | src/library/run_event_loop.c:666 | 1, 60 and 600 ticks per second give 2, 7 and 61 buffers |
| `ScratchLayout.PixelBytes` | src/library/run_event_loop.c:684 | the size of the image area, `rows * bytes_per_row` bytes, at the start of the scratch block |
| `ScratchLayout.SlotOffset` | src/library/run_event_loop.c:167-171 | the byte offset of audio slot `k`: the image area, then `samples_per_tick * 2 * k` floats |
| `ScratchLayout.HeaderOffset` | src/library/run_event_loop.c:175-177 | the byte offset of wave header `k`: after all `buffers` slots, then `k` headers |
| `ScratchLayout.ScratchSize` | src/library/run_event_loop.c:684-686 | the size requested from `malloc`: the image area, `2 * buffers * samples_per_tick` floats and `buffers` headers |
| `ScratchLayout.AreasWithinScratch` | src/library/run_event_loop.c:684-686 | every audio slot starts after the image, is float-aligned and ends before the first wave header; every header lies within the allocation |
| `ScratchLayout.HeadersAligned` | src/library/run_event_loop.c:684-686 | the wave-header array starts on a 4-byte boundary for every image size and slot count |
| `ScratchLayout.HeadersOnlyFourAligned` | src/library/run_event_loop.c:684-686 | with a one-pixel image the header array starts 4 bytes past a multiple of 8, so 4 bytes is all the alignment the layout guarantees |
| `AudioSlots.SlotStart` | src/library/run_event_loop.c:171 | the float index of slot `k`, the product `samples_per_tick * 2 * k` the source computes; how the slots lie is stated by the next three rows |
| `AudioSlots.SlotStartMonotone` | src/library/run_event_loop.c:171 | later slots start no earlier |
| `AudioSlots.SlotBounds` | src/library/run_event_loop.c:171-176 | consecutive slots abut, and slots below `buffers` end within the audio area |
| `AudioSlots.SlotsDisjoint` | src/library/run_event_loop.c:171-176 | distinct slots do not overlap |
| `AudioSlots.Interleave` | src/library/run_event_loop.c:189-197 | an interleaved tick is twice as long as one channel |
| `AudioSlots.InterleaveAt` | src/library/run_event_loop.c:189-197 | float `2i` of an interleaved tick is `left[i]`, float `2i + 1` is `right[i]` |
| `AudioSlots.Slot` | src/library/run_event_loop.c:171 | a slot holds `2 * samples_per_tick` floats |
| `AudioSlots.WithSlot` | src/library/run_event_loop.c:189-197 | overwriting one slot keeps the length of the audio area |
| `AudioSlots.WithSlotAt` | src/library/run_event_loop.c:189-197 | inside slot `k` the new contents, outside it every float as before |
| `AudioSlots.WithSlotChangesOnlyThatSlot` | src/library/run_event_loop.c:189-197 | overwriting slot `k` gives slot `k` the new contents and leaves every other slot unchanged |
| `AudioSlots.Primed` | src/library/run_event_loop.c:851-868 | priming keeps the length of the audio area |
| `AudioSlots.PrimedSlotStep` | src/library/run_event_loop.c:851-868 | one round of priming fills the next slot with its tick and keeps every other slot |
| `AudioSlots.PrimedSlots` | src/library/run_event_loop.c:851-868 | after `n` rounds, slot `j` holds tick `j` when `j < n` and is untouched otherwise |
| `EventLoop.FirstFailure` | src/library/run_event_loop.c:851-983 | the number of slots the priming loop gets through before a prepare or write fails; `FirstFailureSpec` states that it is the first failing slot |
| `EventLoop.FirstFailureSpec` | src/library/run_event_loop.c:870-983 | the slot at which priming stops is the first whose prepare or write fails: all earlier slots succeed |
| `EventLoop.Context.constructor` | src/library/run_event_loop.c:664-702 | the initial context: the given sizes and buffers, which may alias one another, the computed buffer count and padding, fresh scratch areas, no error, no device, slot 0 next, minimum position 0, no keys held, the image unscaled at the origin, no pointer, not paused |
| `EventLoop.Context.OpenDevice` | src/library/run_event_loop.c:772-773 | after waveOutOpen succeeds the device is open |
| `EventLoop.Context.HostTick` | src/library/run_event_loop.c:185-187 | the `tick` callback leaves the given frame in the left and right buffers |
| `EventLoop.Context.CopyTick` | src/library/run_event_loop.c:189-197 | the copy loop writes the interleaved tick into the `2 * samples_per_tick` floats from `start` and leaves every other float alone |
| `EventLoop.Context.FillSlot` | src/library/run_event_loop.c:167-197 | the audio area becomes `WithSlot` of the old one at slot `k` with the interleaved channel buffers |
| `EventLoop.Context.SlotHeader` | src/library/run_event_loop.c:854-858 | the header priming fills in for slot `k`: its data at the start of slot `k`, `samples_per_tick * 2 * sizeof(float)` bytes long |
| `EventLoop.Context.PrimeSlot` | src/library/run_event_loop.c:852-983 | one round of priming: the error is that of prepare, then of write; the state moves from `k` primed slots to `k + 1` |
| `EventLoop.Context.Prime` | src/library/run_event_loop.c:845-1085 | the priming loop stops at the first failing slot with its message, or fills all `buffers` slots; the audio area is `Primed` of the old one over the ticks made; every header up to the last is filled in and prepared (the last one only if its prepare succeeded); later headers are untouched; the channel buffers hold the last tick |
| `EventLoop.Context.Refill` | src/library/run_event_loop.c:179-203 | header `k` unprepared, tick, slot `k` overwritten with the tick, header `k` prepared as `prepared` says; no other header changes |
| `EventLoop.Context.HandleWaveDone` | src/library/run_event_loop.c:161-222 | MM_WOM_DONE: the error is that of the first failing call among unprepare, prepare and write; on success, `next_buffer` advances modulo `buffers` and `minimum_position` by one tick; on failure both keep their values; a failed unprepare changes no buffer, otherwise slot `next_buffer` holds the new tick and no other slot changes |
| `EventLoop.Context.HostVideo` | src/library/run_event_loop.c:83-110 | the `video` callback receives the given tick progress and leaves the given planes in the red, green and blue buffers |
| `PixelPacking.ToByte` | src/library/run_event_loop.c:262-264 | a channel in [0, 1] becomes the truncation of `channel * 255` |
| `PixelPacking.ChannelByte` | src/library/run_event_loop.c:262-264 | component 0, 1 and 2 of a packed pixel: the blue, green and red channel converted by `ToByte` |
| `PixelPacking.PixelTriples` | src/library/run_event_loop.c:261-266 | one row of pixels packs into three bytes per pixel |
| `PixelPacking.PixelTriplesStep` | src/library/run_event_loop.c:261-266 | one more pixel appends its blue, green and red bytes |
| `PixelPacking.PixelTriplesAt` | src/library/run_event_loop.c:261-266 | pixel `first + c` lands at bytes `3c`, `3c + 1`, `3c + 2` as blue, green, red |
| `PixelPacking.PackedRow` | src/library/run_event_loop.c:260-269 | a packed row is `bytes_per_row` bytes long |
| `PixelPacking.PackedRowAt` | src/library/run_event_loop.c:260-269 | within a row, the pixel triples come first and the old padding follows |
| `PixelPacking.PackedRows` | src/library/run_event_loop.c:260-269 | `n` packed rows are `n * bytes_per_row` bytes |
| `PixelPacking.Packed` | src/library/run_event_loop.c:257-269 | packing keeps the size of the image area |
| `PixelPacking.PackedRowsAt` | src/library/run_event_loop.c:260-269 | byte `offset` of row `r` lies at `r * bytes_per_row + offset` |
| `PixelPacking.PackedRowBytes` | src/library/run_event_loop.c:260-269 | row `row` of the packed image, byte by byte: its triples, then its old padding, all within the image area |
| `PixelPacking.PackedPixel` | src/library/run_event_loop.c:257-269 | pixel `(r, c)` is written to bytes `r * bytes_per_row + 3c + {0, 1, 2}` as blue, green, red, all below `rows * bytes_per_row` |
| `PixelPacking.PackedPadding` | src/library/run_event_loop.c:268 | the padding bytes of every row keep their value |
| `PixelPacking.PackedChangesOnlyPixels` | src/library/run_event_loop.c:257-269 | every byte at or beyond `3 * columns` in its row keeps its value |
| `EventLoop.Context.PackRow` | src/library/run_event_loop.c:261-266 | the inner loop writes the triples of `columns` pixels from byte `output` and touches no other byte |
| `EventLoop.Context.PackPlanes` | src/library/run_event_loop.c:257-269 | the nested loop leaves the image area equal to `Packed` of the old one |
| `EventLoop.Context.Pack` | src/library/run_event_loop.c:249-269 | the packer on the context's own planes and image area |
| `EventLoop.DrawFrame` | src/library/run_event_loop.c:285-341 | the drawing half of WM_PAINT: pen, brush, each border whose offset is positive, then StretchDIBits; the first failing call ends it with its own message; its properties are stated by `DrawFrameIsPrefixOfPaint` |
| `EventLoop.DrawFrameIsPrefixOfPaint` | src/library/run_event_loop.c:285-341 | the rectangles handed to GDI are always a prefix of the full paint; the paint fails exactly when a call that is made fails; a clean paint draws every border whose offset is positive and then the image; a failed pen or brush draws nothing |
| `EventLoop.PaintRefusal` | src/library/run_event_loop.c:226-247 | painting stops before drawing exactly when the restart of paused audio fails, BeginPaint fails, or `video` fails; the message is that of the first of these |
| `EventLoop.Context.Present` | src/library/run_event_loop.c:243-341 | once painting has begun and the device position is read: the host received `TickProgress` of that position against `minimum_position`, the planes hold the host's frame, the image area holds it packed, and the calls and the error are those of `DrawFrame`; the progress lies in [0, 1] and is 0 with no device; the reply is 0 exactly when no error is recorded |
| `EventLoop.Context.HandlePaint` | src/library/run_event_loop.c:225-345 | WM_PAINT: paused audio is resumed exactly when the restart succeeds; when painting stops early the error is the `PaintRefusal`, nothing is drawn, the host is not called and the planes and the image area are unchanged; otherwise the host is handed `TickProgress` of the device position against `minimum_position` (0 with no device, always in [0, 1]) and the frame is presented; the reply is 0 exactly when no error is recorded |
| `Geometry.CDiv` | src/library/run_event_loop.c:360-362 | C's integer division truncates toward zero: the remainder has the sign of the dividend and is smaller than the divisor |
| `Geometry.Truncate` | src/library/run_event_loop.c:356-358 | C's conversion to `int` truncates toward zero |
| `Geometry.Scale` | src/library/run_event_loop.c:353-355 | the smaller of `width / columns` and `height / rows`, the largest scale at which the viewport fits |
| `Geometry.ScaledWidth` | src/library/run_event_loop.c:356-357 | the image width WM_SIZE stores, `columns * scale` truncated; its bounds are stated by `WidthBound`, `HeightBound` and `ScaleFits` |
| `Geometry.ScaledHeight` | src/library/run_event_loop.c:358-359 | the image height WM_SIZE stores, `rows * scale` truncated; its bounds are stated by `WidthBound`, `HeightBound` and `ScaleFits` |
| `Geometry.ScaledTruncation` | src/library/run_event_loop.c:353-358 | `a * (b / c)` truncated is the integer quotient `a * b / c` |
| `Geometry.WidthBound` | src/library/run_event_loop.c:353-358 | when the width is the tighter constraint, the image fills the width and its height is `rows * width / columns` |
| `Geometry.HeightBound` | src/library/run_event_loop.c:353-358 | when the height is the tighter constraint, the image fills the height and its width is `columns * height / rows` |
| `Geometry.ScaleFits` | src/library/run_event_loop.c:353-358 | the scaled image never exceeds the client area, fills one of its dimensions, and keeps the aspect ratio to within one pixel on the other |
| `Geometry.CentredSplit` | src/library/run_event_loop.c:360-365 | the leading offset is half the slack, the trailing one the rest: `0 <= offset <= inverse <= offset + 1` |
| `Geometry.ComputeLetterbox` | src/library/run_event_loop.c:347-365 | the six WM_SIZE values are non-negative; the image fits, fills one dimension and keeps the aspect ratio; `x_offset + scaled_width + inverse_x_offset == width`, the same for the height; each inverse offset is the offset or one more |
| `Geometry.LetterboxExample` | src/library/run_event_loop.c:347-365 | a 400 x 100 client area with a 192 x 256 viewport gives a 133 x 100 image at offset 133, trailing offset 134 |
| `EventLoop.Context.HandleSize` | src/library/run_event_loop.c:347-371 | WM_SIZE stores `ComputeLetterbox` of the client size, so the offsets and the image fill the client width and height; a failed InvalidateRect records its error and still replies 0 |
| `Geometry.Destination` | src/library/run_event_loop.c:298-302 | the area WM_PAINT covers: `destination_width` by `destination_height` from the origin |
| `Geometry.LeftBorder` | src/library/run_event_loop.c:305 | the coordinates of the left border rectangle |
| `Geometry.RightBorder` | src/library/run_event_loop.c:312-313 | the coordinates of the right border rectangle |
| `Geometry.TopBorder` | src/library/run_event_loop.c:320-321 | the coordinates of the top border rectangle, between the left and right borders |
| `Geometry.BottomBorder` | src/library/run_event_loop.c:328-330 | the coordinates of the bottom border rectangle, between the left and right borders |
| `Geometry.ImageRect` | src/library/run_event_loop.c:336 | where StretchDIBits places the image: at the offsets, `scaled_width` by `scaled_height` |
| `Geometry.Borders` | src/library/run_event_loop.c:304-334 | the borders WM_PAINT fills, in order, each only when its offset is positive |
| `Geometry.PaintedRects` | src/library/run_event_loop.c:304-341 | everything a clean paint hands to GDI: the borders, then the image; how these tile the destination is stated by the next three rows |
| `Geometry.SkippedBordersAreEmpty` | src/library/run_event_loop.c:304-334 | a border whose offset is 0 covers no point, which is why it may be skipped |
| `Geometry.RegionsPartitionDestination` | src/library/run_event_loop.c:295-336 | each point of the destination lies in exactly one of the four borders and the image, and no point outside it lies in any |
| `Geometry.PaintedRectsTileDestination` | src/library/run_event_loop.c:295-336 | the coordinates WM_PAINT hands to GDI, read as half-open rectangles, are pairwise disjoint and together cover exactly `[0, destination_width) x [0, destination_height)` |
| `Geometry.Inner` | src/library/run_event_loop.c:429-433 | the client rectangle inside the dragged window rectangle, given the frame insets AdjustWindowRect reports |
| `Geometry.HalfSplit` | src/library/run_event_loop.c:443-444 | halving the width change with truncation loses at most one pixel, and loses one exactly when the change is odd |
| `Geometry.SizedVertically` | src/library/run_event_loop.c:436-446 | a top or bottom drag keeps the top and bottom edges and moves the left and right edges by the same amount; the client width is within one pixel of `height * columns / rows`, exactly that when the change is even |
| `Geometry.SizedHorizontally` | src/library/run_event_loop.c:448-457 | a left or right drag moves only the bottom edge, to a client height of `width * rows / columns` |
| `Geometry.CornerScale` | src/library/run_event_loop.c:463-466 | the larger of the two scale factors of a corner drag, the second on a tie as `max` gives it |
| `Geometry.CornerTarget` | src/library/run_event_loop.c:463-469 | for a non-negative client area, scaling by the larger factor never shrinks either dimension and keeps one of them exactly |
| `Geometry.ScaleKeepsOneSide` | src/library/run_event_loop.c:466-469 | scaling both dimensions by the larger of the two factors gives back the dimension it came from and at least the other |
| `Geometry.LargerFactorKeepsOneSide` | src/library/run_event_loop.c:466-469 | the same for each ordering of the two factors |
| `Geometry.SizedAtCorner` | src/library/run_event_loop.c:459-497 | a corner drag gives the client area `CornerTarget` and moves only the two edges that meet at the dragged corner |
| `Geometry.CornerDragGrows` | src/library/run_event_loop.c:459-497 | a corner drag never shrinks the client area and keeps one of its dimensions |
| `Geometry.Sized` | src/library/run_event_loop.c:435-498 | the rectangle WM_SIZING hands back, by the dragged edge: `SizedVertically`, `SizedHorizontally` or `SizedAtCorner`, whose rows state what each keeps |
| `EventLoop.Context.HandleSizing` | src/library/run_event_loop.c:423-505 | WM_SIZING replies 0 with the rectangle `Sized` for the dragged edge, or records the dimensions error and defers when AdjustWindowRect fails |
| `EventLoop.Context.HandleRedraw` | src/library/run_event_loop.c:373-377 | WM_APP replies 0 and records an error exactly when InvalidateRect fails |
| `EventLoop.Context.HandleMouseLeave` | src/library/run_event_loop.c:582-585 | WM_MOUSELEAVE sets the pointer state to none and replies 0 |
| `EventLoop.Context.HandleNonClientButtonDown` | src/library/run_event_loop.c:587-600 | a click on the caption or a caption button pauses running audio; the pause error is recorded exactly when that pause fails; the message always goes on to DefWindowProc |
| `EventLoop.Context.WindowProcedure` | src/library/run_event_loop.c:144-608 | once an error is recorded, or for a message it does not handle, the procedure defers and changes no field, no held code and no buffer; otherwise key-down and key-up update the held codes as `Pressed` and `Released` say, WM_SIZE stores `ComputeLetterbox`, and only WM_PAINT draws |
| `Failures.Text` | src/library/run_event_loop.c:92-595 | the message the source stores in `error` for each failure the model records |

`Failures.Text` pairs each `Failure` constructor with the message the source
stores in `error`. It carries no contract, since it is a table. The rows for
functions without a contract of their own name the lemma or method that
states their properties. `HandlePaint`
states the rectangles a paint draws through `DrawFrame`. That a paint with no
error draws exactly `Geometry.PaintedRects` is stated once, in
`DrawFrameIsPrefixOfPaint`.

## Left out

- Mouse input (`WM_LBUTTONDOWN`, `WM_MOUSEMOVE`, `WM_LBUTTONUP` and `handle_mouse_event`, src/library/run_event_loop.c:116-142, 567-580). The pointer row and column are single-precision divisions, and the rest is TrackMouseEvent and mouse capture. Only `WM_MOUSELEAVE` is modelled.
- `WM_CREATE` (src/library/run_event_loop.c:146-152). It records the context pointer with SetWindowLongPtr and takes the failure branch when that call returns 0. SetWindowLongPtr returns the previous value, which is 0 for a new window, so the branch is also taken on an ordinary creation. The branch then writes `error` through `lParam`, which points to the CREATESTRUCT and not to the context, and returns DefWindowProc's reply. The model starts from a context that is already recorded and leaves this message out, since what that write does depends on Win32 memory layout the model does not have.
- `WM_GETMINMAXINFO` (src/library/run_event_loop.c:379-421), which scales the track sizes in single precision.
- `WM_DESTROY`, which calls `exit(0)`.
- Window creation, class registration, the message pump, the vertical-sync thread and its critical section, and the teardown and error-message cascade of `run_event_loop` (src/library/run_event_loop.c:704-843, 870-1082 beyond the first failure message, 1087-1561). These are foreign calls and thread coordination. `Prime` models the priming loop up to the first failing prepare or write, with that failure's message; the reset, close, destroy and unregister calls that follow are not modelled.
- Memory allocation failure. The source checks the scratch `malloc` and returns "Failed to allocate scratch memory." when it fails (src/library/run_event_loop.c:704-706). The constructor leaves that failure path out and always allocates. The held-key `malloc` and `realloc` results (src/library/run_event_loop.c:519-521, 527, 552-554) are not checked by the source. Here those allocations always succeed.
- How GDI fills a rectangle. `Geometry.Rect` is the coordinates WM_PAINT hands to `Rectangle`, read as a half-open area, and `PaintedRectsTileDestination` is a statement about those coordinates. With the null pen that WM_PAINT selects, `Rectangle` fills one pixel less at the right and bottom. The pixels actually filled are not modelled.
- `EndPaint` is called only on the successful paint path (src/library/run_event_loop.c:343). The model does not track the paint structure, so this is not stated.
- `PixelPacking.ToByte`: single-precision rounding of `channel * 255.0f` is not modelled. A channel in [0, 1] is truncated exactly, and a channel outside [0, 1], for which the C conversion is undefined, is clamped.
- `ScratchLayout.BufferCount`: computed as the exact integer ceiling. The source's double-precision `1.0 / 10 / (1.0 / ticks_per_second)` can land just above a whole number and round up. At 70 ticks per second the double quotient is 7.000000000000001, which gives 9 buffers where the integer ceiling gives 8. That rounding is not modelled.
- `Dword.TickProgress`: the single-precision division `elapsed / (float)samples_per_tick` is modelled as exact real division.
- `Geometry.ComputeLetterbox`: the double-precision scale factors are exact reals, so rounding of the quotients is not modelled. The results can differ by one pixel. With 7 columns and a client width of 61 (and a client height large enough that the width is the tighter constraint), C computes `7 * (61.0 / 7)` as just under 61 and stores a `scaled_width` of 60. The model stores 61.
- `Geometry.CornerTarget`: the single-precision scale factors are exact reals, so rounding of the quotients is not modelled. With 7 columns, 3 rows and a client area 31 wide and at most 13 high, C computes `31.0f / 7 * 7` as just under 31, targets a width of 30, and shrinks the width. The model targets 31.
- `Geometry.Scale`: an exact real quotient, not the source's double-precision one (see `Geometry.ComputeLetterbox`).
- `Geometry.ScaledWidth` and `Geometry.ScaledHeight`: truncations of products with the exact `Geometry.Scale`, so they can exceed the source's values by one (see `Geometry.ComputeLetterbox`).
- `Geometry.WidthBound`, `Geometry.HeightBound` and `Geometry.ScaleFits`: proved of the exact-real letterbox. With the source's double-precision rounding, the image may fall one pixel short of the dimension it is said to fill.
- `Geometry.CornerScale`: an exact real quotient, not the source's single-precision one (see `Geometry.CornerTarget`).
- `Geometry.SizedAtCorner`: moves the edges by the exact-real `Geometry.CornerTarget`, which can be one pixel beyond the source's target.
- `Geometry.CornerDragGrows`: holds of the exact-real model only. In the source, single-precision rounding can shrink a side by one pixel, as in the example under `Geometry.CornerTarget`.
- `ScratchLayout.HeadersAligned`: the wave headers are only guaranteed 4-byte alignment (`HeadersOnlyFourAligned`), though a `WAVEHDR` holds pointers. Whether the platform tolerates that is not modelled.
- 32-bit `int` overflow in the geometry and layout arithmetic (`inner_height * columns`, `rows * bytes_per_row` and the like). All such arithmetic is on unbounded integers. `samples_per_tick` is bounded by `INT_MAX`, the one place the DWORD arithmetic depends on it.
- `GDI_WIDTHBYTES` is not part of this model. It is taken to round `columns * 24` bits up to a whole number of 32-bit units, in bytes.
- `EventLoop.Context.WindowProcedure`: only the guard, the key messages, WM_SIZE and the painting flag are restated. Each handler's own contract and `modifies` clause state the rest of its effect and its frame.
- The layered-window and opacity path does not appear in this version of `run_event_loop.c` and is not modelled. `src/example/main.c` is host demo code and is not modelled.
- The preconditions `rows, columns >= 1` and `samples_per_tick >= 1` come from src/library/run_event_loop.h:14-17 and 31-32. Behaviour for other values is undefined there and is excluded by `requires`.
