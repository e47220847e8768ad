/**
 * The window procedure of src/library/run_event_loop.c and the state it
 * updates: the `context` record becomes the class `Context`, each message
 * case a method.  Every operating-system call the procedure makes
 * (waveOut*, BeginPaint, SelectObject, Rectangle, StretchDIBits,
 * InvalidateRect, AdjustWindowRect) is an oracle: its outcome arrives in
 * the message.  The host's `tick` and `video` callbacks are methods that
 * overwrite the host's buffers with contents that also arrive in the
 * message.
 */
module EventLoop {
  import opened Wrappers
  import opened Failures
  import opened Dword
  import opened Geometry
  import opened HeldKeys
  import opened AudioSlots
  import opened ScratchLayout
  import opened PixelPacking

  /** POINTER_STATE_NONE, POINTER_STATE_HOVER and POINTER_STATE_SELECT. */
  datatype PointerState = PointerNone | PointerHover | PointerSelect

  /**
   * The fields of a WAVEHDR the loop relies on: the float index of its data
   * in the audio area, the length of that data in bytes, and whether the
   * header is currently prepared for the device.
   */
  datatype WaveHeader = WaveHeader(data: nat, bufferLength: nat, prepared: bool)

  /** What the host's `video` callback leaves in its red, green and blue planes. */
  datatype Planes = Planes(reds: seq<real>, greens: seq<real>, blues: seq<real>)

  /** The outcomes of the calls WM_PAINT makes, in the order it makes them. */
  datatype PaintOutcomes = PaintOutcomes(
    restartOk: bool,          // waveOutRestart, only called while paused
    beginPaintOk: bool,       // BeginPaint
    position: PositionQuery,  // waveOutGetPosition, only called with a device open
    planes: Planes,           // what `video` draws
    penOk: bool,              // SelectObject of NULL_PEN
    brushOk: bool,            // SelectObject of BLACK_BRUSH
    leftBorderOk: bool,       // each Rectangle, only called when its offset is positive
    rightBorderOk: bool,
    topBorderOk: bool,
    bottomBorderOk: bool,
    stretchOk: bool)          // StretchDIBits

  /** The rectangles WM_PAINT hands to GDI, in order, and the error it stops with, if any. */
  datatype Drawing = Drawing(calls: seq<Rect>, failure: Option<Failure>)

  /**
   * The drawing half of WM_PAINT: select the pen and brush, fill each border
   * whose offset is positive, then stretch the image into place.  The first
   * call that fails ends the paint with its own message; the rectangle of a
   * failing call is still listed, since it was attempted.
   */
  function DrawFrame(g: Letterbox, o: PaintOutcomes): Drawing
  {
    var left := if g.xOffset > 0 then [LeftBorder(g)] else [];
    var right := if g.inverseXOffset > 0 then [RightBorder(g)] else [];
    var top := if g.yOffset > 0 then [TopBorder(g)] else [];
    var bottom := if g.inverseYOffset > 0 then [BottomBorder(g)] else [];
    if !o.penOk then Drawing([], Some(PenNotSet))
    else if !o.brushOk then Drawing([], Some(BrushNotSet))
    else if g.xOffset > 0 && !o.leftBorderOk then Drawing(left, Some(LeftBorderNotDrawn))
    else if g.inverseXOffset > 0 && !o.rightBorderOk then Drawing(left + right, Some(RightBorderNotDrawn))
    else if g.yOffset > 0 && !o.topBorderOk then Drawing(left + right + top, Some(TopBorderNotDrawn))
    else if g.inverseYOffset > 0 && !o.bottomBorderOk then Drawing(left + right + top + bottom, Some(BottomBorderNotDrawn))
    else if !o.stretchOk then Drawing(left + right + top + bottom + [ImageRect(g)], Some(FramebufferNotPainted))
    else Drawing(left + right + top + bottom + [ImageRect(g)], None)
  }

  /** Every call sequence is a prefix of the full paint; the paint fails exactly when a call that is made fails; a clean paint draws every rectangle. */
  lemma DrawFrameIsPrefixOfPaint(g: Letterbox, o: PaintOutcomes)
    ensures DrawFrame(g, o).calls <= PaintedRects(g)
    ensures DrawFrame(g, o).failure.None? <==>
      o.penOk && o.brushOk &&
      (g.xOffset > 0 ==> o.leftBorderOk) && (g.inverseXOffset > 0 ==> o.rightBorderOk) &&
      (g.yOffset > 0 ==> o.topBorderOk) && (g.inverseYOffset > 0 ==> o.bottomBorderOk) &&
      o.stretchOk
    ensures DrawFrame(g, o).failure.None? ==> DrawFrame(g, o).calls == PaintedRects(g)
    ensures !o.penOk || !o.brushOk ==> DrawFrame(g, o).calls == []
  {
    var left := if g.xOffset > 0 then [LeftBorder(g)] else [];
    var right := if g.inverseXOffset > 0 then [RightBorder(g)] else [];
    var top := if g.yOffset > 0 then [TopBorder(g)] else [];
    var bottom := if g.inverseYOffset > 0 then [BottomBorder(g)] else [];
    assert Borders(g) == left + right + top + bottom;
    assert PaintedRects(g) == left + right + top + bottom + [ImageRect(g)];
  }

  /**
   * One message delivered to the window procedure, with the outcomes of the
   * calls its handler makes.
   */
  datatype Message =
    | WaveDone(unprepareOk: bool, frame: Frame, prepareOk: bool, writeOk: bool)  // MM_WOM_DONE
    | Paint(outcomes: PaintOutcomes)                                           // WM_PAINT
    | Size(width: int, height: int, invalidateOk: bool)                        // WM_SIZE: LOWORD and HIWORD of lParam
    | Redraw(invalidateOk: bool)                                               // WM_APP, sent on each vertical sync
    | Sizing(edge: SizingEdge, outer: Rect, insets: Option<Rect>)              // WM_SIZING; None when AdjustWindowRect fails
    | KeyDown(code: WParam)                                                    // WM_KEYDOWN
    | KeyUp(code: WParam)                                                      // WM_KEYUP
    | MouseLeave                                                               // WM_MOUSELEAVE
    | NonClientButtonDown(onCaptionOrButton: bool, pauseOk: bool)              // WM_NCLBUTTONDOWN, WM_NCRBUTTONDOWN
    | Unhandled                                                                // any other message

  /** What the window procedure does with the message: returns 0, defers to DefWindowProc, or returns 0 after rewriting the dragged rectangle. */
  datatype Reply = Handled | Defaulted | Resized(outer: Rect)

  /** The first slot whose prepare or write fails during priming, or the number of slots when none does. */
  function FirstFailure(prepareOk: seq<bool>, writeOk: seq<bool>): nat
    requires |prepareOk| == |writeOk|
  {
    if prepareOk == [] then 0
    else if !(prepareOk[0] && writeOk[0]) then 0
    else 1 + FirstFailure(prepareOk[1..], writeOk[1..])
  }

  /** `FirstFailure` is the index of the first failing slot: every earlier slot succeeds and that one does not. */
  lemma {:induction false} FirstFailureSpec(prepareOk: seq<bool>, writeOk: seq<bool>)
    requires |prepareOk| == |writeOk|
    ensures FirstFailure(prepareOk, writeOk) <= |prepareOk|
    ensures forall j :: 0 <= j < FirstFailure(prepareOk, writeOk) ==> prepareOk[j] && writeOk[j]
    ensures FirstFailure(prepareOk, writeOk) < |prepareOk| ==>
      !(prepareOk[FirstFailure(prepareOk, writeOk)] && writeOk[FirstFailure(prepareOk, writeOk)])
  {
    if prepareOk != [] && prepareOk[0] && writeOk[0] {
      FirstFailureSpec(prepareOk[1..], writeOk[1..]);
      assert forall j :: 1 <= j < |prepareOk| ==> prepareOk[1..][j - 1] == prepareOk[j] && writeOk[1..][j - 1] == writeOk[j];
    }
  }

  /**
   * Why WM_PAINT stops before drawing, if it does: wave out did not restart
   * after a pause, painting could not begin, or the tick progress could not
   * be read.
   */
  function PaintRefusal(paused: bool, o: PaintOutcomes, positionError: Option<Failure>): (refusal: Option<Failure>)
    ensures refusal.None? <==> (!paused || o.restartOk) && o.beginPaintOk && positionError.None?
    ensures paused && !o.restartOk ==> refusal == Some(RestartFailed)
    ensures (!paused || o.restartOk) && !o.beginPaintOk ==> refusal == Some(BeginPaintFailed)
    ensures (!paused || o.restartOk) && o.beginPaintOk ==> refusal == positionError
  {
    if paused && !o.restartOk then Some(RestartFailed)
    else if !o.beginPaintOk then Some(BeginPaintFailed)
    else positionError
  }

  /** The `context` record of the event loop. */
  class Context {
    const ticksPerSecond: int
    const rows: nat
    const columns: nat
    const skippedBytesPerRow: int
    const samplesPerTick: nat
    const buffers: nat
    // The host's buffers.
    const reds: array<real>
    const greens: array<real>
    const blues: array<real>
    const left: array<real>
    const right: array<real>
    // The three areas of the scratch block, in the order the block lays them out.
    const pixels: array<Byte>
    const samples: array<real>
    const headers: array<WaveHeader>

    var error: Option<Failure>
    var deviceOpen: bool
    var nextBuffer: int
    var minimumPosition: DWORD
    var heldKeyCodes: array?<WParam>
    var numberOfHeldKeyCodes: int
    var scaledWidth: int
    var scaledHeight: int
    var xOffset: int
    var yOffset: int
    var inverseXOffset: int
    var inverseYOffset: int
    var pointerState: PointerState
    var audioPaused: bool
    /** The tick progress the host's `video` callback last received. */
    ghost var videoProgress: real

    /** The held key codes, in array order. */
    ghost function HeldKeyCodes(): seq<WParam>
      reads this`heldKeyCodes, heldKeyCodes
    {
      if heldKeyCodes == null then [] else heldKeyCodes[..]
    }

    /** The six letterbox fields. */
    function Placement(): Letterbox
      reads this
    {
      Letterbox(scaledWidth, scaledHeight, xOffset, yOffset, inverseXOffset, inverseYOffset)
    }

    /**
     * A frame the host can leave in its channel buffers: one tick long, and
     * the same in both channels when the host passed one buffer for both.
     */
    predicate FrameFitsTick(f: Frame) {
      FrameFits(f, samplesPerTick) && (left == right ==> f.left == f.right)
    }

    /** Every frame the host leaves while priming fits a tick. */
    predicate FramesFitTicks(frames: seq<Frame>) {
      forall j :: 0 <= j < |frames| ==> FrameFitsTick(frames[j])
    }

    /**
     * Planes the host can leave in its colour buffers: one value per pixel,
     * and the same in any two planes the host passed as one buffer.
     */
    predicate PlanesFitImage(p: Planes) {
      PlanesFit(p.reds, p.greens, p.blues, rows, columns) &&
      (reds == greens ==> p.reds == p.greens) &&
      (reds == blues ==> p.reds == p.blues) &&
      (greens == blues ==> p.greens == p.blues)
    }

    /**
     * What the host and the system guarantee about a message: buffer contents
     * of the agreed sizes that agree wherever two buffers are one, and a client
     * size of 16-bit words.
     */
    predicate Accepts(m: Message) {
      match m
      case WaveDone(_, frame, _, _) => FrameFitsTick(frame)
      case Paint(o) => PlanesFitImage(o.planes)
      case Size(width, height, _) => 0 <= width < 0x1_0000 && 0 <= height < 0x1_0000
      case _ => true
    }

    /** The sizes fixed at initialisation: the scratch areas and the host planes agree with them. */
    ghost predicate Shape()
    {
      rows >= 1 && columns >= 1 && 1 <= samplesPerTick <= INT_MAX &&
      buffers == BufferCount(ticksPerSecond) &&
      skippedBytesPerRow == BytesPerRow(columns) - 3 * columns && 0 <= skippedBytesPerRow &&
      reds.Length == rows * columns && greens.Length == rows * columns && blues.Length == rows * columns &&
      left.Length == samplesPerTick && right.Length == samplesPerTick &&
      pixels.Length == PixelBytes(rows, columns) &&
      samples.Length == SlotStart(samplesPerTick, buffers) &&
      headers.Length == buffers
    }

    /** The held-key list: null exactly when empty, exactly as long as its count, free of duplicates. */
    ghost predicate KeysValid()
      reads this`heldKeyCodes, this`numberOfHeldKeyCodes, heldKeyCodes
    {
      (heldKeyCodes == null <==> numberOfHeldKeyCodes == 0) &&
      (heldKeyCodes != null ==> heldKeyCodes.Length == numberOfHeldKeyCodes) &&
      NoDuplicates(HeldKeyCodes())
    }

    ghost predicate Valid()
      reads this`nextBuffer, this`heldKeyCodes, this`numberOfHeldKeyCodes, heldKeyCodes
    {
      Shape() && 0 <= nextBuffer < buffers && KeysValid()
    }

    /**
     * The context as `run_event_loop` initialises it: no error, no device,
     * the first slot next, no keys held, the image unscaled at the origin.
     */
    constructor (ticksPerSecond: int, rows: int, columns: int, samplesPerTick: int,
                 reds: array<real>, greens: array<real>, blues: array<real>,
                 left: array<real>, right: array<real>)
      requires rows >= 1 && columns >= 1 && 1 <= samplesPerTick <= INT_MAX
      requires reds.Length == rows * columns && greens.Length == rows * columns && blues.Length == rows * columns
      requires left.Length == samplesPerTick && right.Length == samplesPerTick
      ensures Valid()
      ensures this.ticksPerSecond == ticksPerSecond && this.rows == rows && this.columns == columns
      ensures this.samplesPerTick == samplesPerTick && buffers == BufferCount(ticksPerSecond)
      ensures skippedBytesPerRow == BytesPerRow(columns) - 3 * columns
      ensures this.reds == reds && this.greens == greens && this.blues == blues
      ensures this.left == left && this.right == right
      ensures fresh(pixels) && fresh(samples) && fresh(headers)
      ensures error == None && !deviceOpen && nextBuffer == 0 && minimumPosition == 0
      ensures heldKeyCodes == null && HeldKeyCodes() == []
      ensures Placement() == Letterbox(columns, rows, 0, 0, 0, 0)
      ensures pointerState == PointerNone && !audioPaused
    {
      var bytesPerRow := BytesPerRow(columns);
      RowStride(columns);
      var buffers := BufferCount(ticksPerSecond);
      this.ticksPerSecond := ticksPerSecond;
      this.rows := rows;
      this.columns := columns;
      this.skippedBytesPerRow := bytesPerRow - columns * 3;
      this.reds := reds;
      this.greens := greens;
      this.blues := blues;
      this.samplesPerTick := samplesPerTick;
      this.left := left;
      this.right := right;
      this.buffers := buffers;
      this.pixels := new Byte[rows * bytesPerRow];
      this.samples := new real[2 * buffers * samplesPerTick];
      this.headers := new WaveHeader[buffers](_ => WaveHeader(0, 0, false));
      error := None;
      deviceOpen := false;
      nextBuffer := 0;
      minimumPosition := 0;
      heldKeyCodes := null;
      numberOfHeldKeyCodes := 0;
      scaledWidth := columns;
      scaledHeight := rows;
      xOffset := 0;
      yOffset := 0;
      inverseXOffset := 0;
      inverseYOffset := 0;
      pointerState := PointerNone;
      audioPaused := false;
      videoProgress := 0.0;
      new;
      assert SlotStart(samplesPerTick, buffers) == 2 * buffers * samplesPerTick;
    }

    // ----- Held keys -----

    /** `key_held`: a linear search of the held-key array. */
    method KeyHeld(code: WParam) returns (held: bool)
      requires Valid()
      ensures held <==> code in HeldKeyCodes()
    {
      var n := numberOfHeldKeyCodes;
      var codes := heldKeyCodes;
      var index := 0;
      while index < n
        invariant 0 <= index <= n
        invariant forall j :: 0 <= j < index ==> HeldKeyCodes()[j] != code
      {
        if codes[index] == code {
          return true;
        }
        index := index + 1;
      }
      return false;
    }

    /** `realloc` of a key-code array to `length` codes: a fresh array whose common prefix is copied over. */
    static method Reallocate(codes: array<WParam>, length: nat) returns (grown: array<WParam>)
      ensures fresh(grown) && grown.Length == length
      ensures forall j :: 0 <= j < length && j < codes.Length ==> grown[j] == codes[j]
    {
      grown := new WParam[length];
      var index := 0;
      while index < length && index < codes.Length
        invariant 0 <= index <= length
        invariant forall j :: 0 <= j < index && j < codes.Length ==> grown[j] == codes[j]
      {
        grown[index] := codes[index];
        index := index + 1;
      }
    }

    /** The `memmove` of WM_KEYUP: the codes after `index` move down by one; the last slot keeps its old code. */
    static method ShiftDown(codes: array<WParam>, index: nat)
      requires index < codes.Length
      modifies codes
      ensures codes[..codes.Length - 1] == old(codes[..index]) + old(codes[index + 1..])
      ensures codes[codes.Length - 1] == old(codes[codes.Length - 1])
    {
      var i := index;
      while i + 1 < codes.Length
        invariant index <= i < codes.Length
        invariant forall j :: 0 <= j < index ==> codes[j] == old(codes[j])
        invariant forall j :: index <= j < i ==> codes[j] == old(codes[j + 1])
        invariant forall j :: i <= j < codes.Length ==> codes[j] == old(codes[j])
      {
        codes[i] := codes[i + 1];
        i := i + 1;
      }
      assert forall j :: 0 <= j < codes.Length - 1 ==>
        codes[j] == (old(codes[..index]) + old(codes[index + 1..]))[j];
    }

    /** WM_KEYDOWN: a code not yet held is appended, in an array grown by one (allocated when none was held). */
    method HandleKeyDown(code: WParam) returns (reply: Reply)
      requires Valid()
      modifies this`heldKeyCodes, this`numberOfHeldKeyCodes
      ensures Valid() && reply == Handled
      ensures HeldKeyCodes() == Pressed(old(HeldKeyCodes()), code)
      ensures numberOfHeldKeyCodes == |HeldKeyCodes()|
      ensures code in old(HeldKeyCodes()) ==> heldKeyCodes == old(heldKeyCodes)
      ensures code !in old(HeldKeyCodes()) ==> fresh(heldKeyCodes)
    {
      var n := numberOfHeldKeyCodes;
      var codes := heldKeyCodes;
      ghost var before := HeldKeyCodes();
      var index := 0;
      while index < n
        invariant 0 <= index <= n
        invariant forall j :: 0 <= j < index ==> before[j] != code
      {
        if codes[index] == code {
          return Handled;
        }
        index := index + 1;
      }
      var grown: array<WParam>;
      if n != 0 {
        grown := Reallocate(codes, n + 1);
      } else {
        grown := new WParam[1];
      }
      grown[n] := code;
      assert grown[..] == before + [code];
      heldKeyCodes := grown;
      numberOfHeldKeyCodes := n + 1;
      PressedAddsKey(before, code);
      return Handled;
    }

    /** WM_KEYUP: a held code is removed, the others keep their order; the array is freed when it empties. */
    method HandleKeyUp(code: WParam) returns (reply: Reply)
      requires Valid()
      modifies this`heldKeyCodes, this`numberOfHeldKeyCodes, heldKeyCodes
      ensures Valid() && reply == Handled
      ensures HeldKeyCodes() == Released(old(HeldKeyCodes()), code)
      ensures numberOfHeldKeyCodes == |HeldKeyCodes()|
      ensures numberOfHeldKeyCodes == 0 ==> heldKeyCodes == null
      ensures code !in old(HeldKeyCodes()) ==> heldKeyCodes == old(heldKeyCodes) && numberOfHeldKeyCodes == old(numberOfHeldKeyCodes)
    {
      var n := numberOfHeldKeyCodes;
      var codes := heldKeyCodes;
      ghost var before := HeldKeyCodes();
      var index := 0;
      while index < n
        invariant 0 <= index <= n
        invariant forall j :: 0 <= j < index ==> before[j] != code
      {
        if codes[index] == code {
          IndexOfFindsMembers(before, code);
          assert IndexOf(before, code) == index;
          ReleasedRemovesKey(before, code);
          if n == 1 {
            heldKeyCodes := null;
            numberOfHeldKeyCodes := 0;
          } else {
            ShiftDown(codes, index);
            var shrunk := Reallocate(codes, n - 1);
            assert shrunk[..] == codes[..n - 1];
            heldKeyCodes := shrunk;
            numberOfHeldKeyCodes := n - 1;
          }
          return Handled;
        }
        index := index + 1;
      }
      ReleaseAbsentIsNoOp(before, code);
      return Handled;
    }

    // ----- Audio -----

    /**
     * The step of `run_event_loop` after a successful waveOutOpen, taken
     * before priming: from then on WM_PAINT reads the device position
     * instead of handing the host a progress of 0.
     */
    method OpenDevice()
      modifies this`deviceOpen
      ensures deviceOpen
    {
      deviceOpen := true;
    }

    /** The host's `tick` callback, which leaves `frame` in its left and right buffers. */
    method HostTick(frame: Frame)
      requires Shape() && FrameFitsTick(frame)
      modifies left, right
      ensures left[..] == frame.left && right[..] == frame.right
    {
      forall i | 0 <= i < left.Length {
        left[i] := frame.left[i];
      }
      forall i | 0 <= i < right.Length {
        right[i] := frame.right[i];
      }
    }

    /** The pointer-bumping copy: slot `k` of the audio area receives the left and right samples interleaved. */
    method FillSlot(k: nat)
      requires Shape() && k < buffers
      modifies samples
      ensures samples[..] == WithSlot(old(samples[..]), samplesPerTick, buffers, k, Interleave(left[..], right[..]))
    {
      SlotBounds(samplesPerTick, k, buffers);
      ghost var before := samples[..];
      CopyTick(samplesPerTick * 2 * k);
      forall i | 0 <= i < samples.Length
        ensures samples[i] == WithSlot(before, samplesPerTick, buffers, k, Interleave(left[..], right[..]))[i]
      {
        WithSlotAt(before, samplesPerTick, buffers, k, Interleave(left[..], right[..]), i);
      }
    }

    /** The copy loop of `FillSlot`: the tick, interleaved, into the floats from `start` on. */
    method CopyTick(start: nat)
      requires Shape() && start + 2 * samplesPerTick <= samples.Length
      modifies samples
      ensures forall i :: 0 <= i < samples.Length ==>
        samples[i] == if start <= i < start + 2 * samplesPerTick
                      then Interleave(left[..], right[..])[i - start] else old(samples[i])
    {
      ghost var before := samples[..];
      ghost var v := Interleave(left[..], right[..]);
      var output := start;
      var index := 0;
      while index < samplesPerTick
        invariant 0 <= index <= samplesPerTick
        invariant output == start + 2 * index
        invariant forall i :: 0 <= i < samples.Length ==>
          samples[i] == if start <= i < output then v[i - start] else before[i]
      {
        InterleaveAt(left[..], right[..], index);
        samples[output] := left[index];
        output := output + 1;
        samples[output] := right[index];
        output := output + 1;
        index := index + 1;
      }
    }

    /** The header of slot `k` as priming fills it in. */
    function SlotHeader(k: nat, prepared: bool): WaveHeader {
      WaveHeader(SlotStart(samplesPerTick, k), samplesPerTick * 2 * FLOAT_SIZE, prepared)
    }

    /**
     * One round of priming: tick, fill in the header of slot `k`, copy the
     * tick into the slot, prepare it and write it.  Given the audio area with
     * the first `k` slots primed, it leaves it with the first `k + 1` primed.
     */
    method PrimeSlot(k: nat, frames: seq<Frame>, prepareOk: bool, writeOk: bool, ghost before: seq<real>, ghost oldHeaders: seq<WaveHeader>)
      returns (failure: Option<Failure>)
      requires k < buffers && PrimedThrough(before, oldHeaders, frames, k, true)
      modifies left, right, samples, headers
      ensures failure == if !prepareOk then Some(PrepareFailed)
                         else if !writeOk then Some(WriteFailed)
                         else None
      ensures PrimedThrough(before, oldHeaders, frames, k + 1, prepareOk)
    {
      HostTick(frames[k]);
      headers[k] := SlotHeader(k, false);
      FillSlot(k);
      if !prepareOk {
        return Some(PrepareFailed);
      }
      headers[k] := SlotHeader(k, true);
      if !writeOk {
        return Some(WriteFailed);
      }
      return None;
    }

    /**
     * The state priming leaves after `n` rounds, starting from the audio area
     * `before` and the headers `oldHeaders`: the first `n` slots hold their
     * ticks, the headers of the first `n - 1` are prepared, that of slot
     * `n - 1` is prepared as `lastPrepared` says, the rest are untouched, and
     * the channel buffers hold the last tick made.
     */
    ghost predicate PrimedThrough(before: seq<real>, oldHeaders: seq<WaveHeader>, frames: seq<Frame>, n: nat, lastPrepared: bool)
      reads this, left, right, samples, headers
    {
      Shape() && n <= buffers && |frames| == buffers && FramesFit(frames, samplesPerTick) && FramesFitTicks(frames) &&
      |before| == samples.Length && |oldHeaders| == buffers &&
      samples[..] == Primed(before, samplesPerTick, buffers, frames, n) &&
      (forall j :: 0 <= j < buffers ==>
        headers[j] == if j < n - 1 then SlotHeader(j, true)
                      else if j == n - 1 then SlotHeader(j, lastPrepared)
                      else oldHeaders[j]) &&
      (n > 0 ==> left[..] == frames[n - 1].left && right[..] == frames[n - 1].right)
    }

    /**
     * The priming loop of `run_event_loop`: for every slot in turn, tick,
     * fill in its header, copy the tick into it, prepare it and write it.
     * `ticks` counts the ticks made, the failing one included.
     */
    method Prime(frames: seq<Frame>, prepareOk: seq<bool>, writeOk: seq<bool>) returns (failure: Option<Failure>, ticks: nat)
      requires Shape()
      requires |frames| == buffers && |prepareOk| == buffers && |writeOk| == buffers
      requires FramesFit(frames, samplesPerTick) && FramesFitTicks(frames)
      modifies left, right, samples, headers
      ensures var f := FirstFailure(prepareOk, writeOk);
        (failure.None? <==> f == buffers) &&
        (f < buffers ==> failure == Some(if !prepareOk[f] then PrepareFailed else WriteFailed)) &&
        ticks == (if f < buffers then f + 1 else buffers)
      ensures 1 <= ticks <= buffers
      ensures PrimedThrough(old(samples[..]), old(headers[..]), frames, ticks, failure.None? || prepareOk[ticks - 1])
    {
      FirstFailureSpec(prepareOk, writeOk);
      ghost var f := FirstFailure(prepareOk, writeOk);
      ghost var before, oldHeaders := samples[..], headers[..];
      failure := None;
      ticks := 0;
      while ticks < buffers && failure.None?
        invariant 0 <= ticks <= buffers
        invariant failure.None? ==> ticks <= f
        invariant failure.Some? ==>
          1 <= ticks && f == ticks - 1 && failure == Some(if !prepareOk[f] then PrepareFailed else WriteFailed)
        invariant PrimedThrough(before, oldHeaders, frames, ticks, failure.None? || prepareOk[ticks - 1])
      {
        failure := PrimeSlot(ticks, frames, prepareOk[ticks], writeOk[ticks], before, oldHeaders);
        ticks := ticks + 1;
      }
    }

    /**
     * MM_WOM_DONE: the device has finished playing slot `next_buffer`.
     * Unprepare it, tick, copy the tick into it, prepare it, write it, then
     * advance to the next slot and move the minimum position on by one tick.
     * The first device call that fails sets the error and stops the
     * handler there.
     */
    method HandleWaveDone(unprepareOk: bool, frame: Frame, prepareOk: bool, writeOk: bool) returns (reply: Reply)
      requires Valid() && error.None? && FrameFitsTick(frame)
      modifies this`error, this`nextBuffer, this`minimumPosition, left, right, samples, headers
      ensures Valid()
      ensures error.None? <==> unprepareOk && prepareOk && writeOk
      ensures error.Some? ==> error == Some(if !unprepareOk then UnprepareFailed
                                            else if !prepareOk then PrepareFailed
                                            else WriteFailed)
      ensures error.None? ==>
        reply == Handled &&
        nextBuffer == (old(nextBuffer) + 1) % buffers &&
        minimumPosition == NextMinimumPosition(old(minimumPosition), samplesPerTick)
      ensures error.Some? ==> reply == Defaulted && nextBuffer == old(nextBuffer) && minimumPosition == old(minimumPosition)
      ensures !unprepareOk ==> unchanged(left, right, samples, headers)
      ensures unprepareOk ==>
        left[..] == frame.left && right[..] == frame.right &&
        samples[..] == WithSlot(old(samples[..]), samplesPerTick, buffers, old(nextBuffer), Interleave(frame.left, frame.right)) &&
        headers[..] == old(headers[..])[old(nextBuffer) := old(headers[nextBuffer]).(prepared := prepareOk)]
    {
      if !unprepareOk {
        error := Some(UnprepareFailed);
        reply := Defaulted;
      } else {
        var k := nextBuffer;
        Refill(k, frame, prepareOk, samples[..], headers[..]);
        if !prepareOk {
          error := Some(PrepareFailed);
          reply := Defaulted;
        } else if !writeOk {
          error := Some(WriteFailed);
          reply := Defaulted;
        } else {
          nextBuffer := (k + 1) % buffers;
          var previousMinimumPosition := minimumPosition;
          minimumPosition := NextMinimumPosition(previousMinimumPosition, samplesPerTick);
          reply := Handled;
        }
      }
    }

    /**
     * The device side of MM_WOM_DONE once slot `k` is unprepared: tick,
     * copy the tick into the slot, and prepare it again (`prepared`
     * records whether that succeeded).
     */
    method Refill(k: nat, frame: Frame, prepared: bool, ghost before: seq<real>, ghost oldHeaders: seq<WaveHeader>)
      requires Shape() && k < buffers && FrameFitsTick(frame)
      requires before == samples[..] && oldHeaders == headers[..]
      modifies left, right, samples, headers
      ensures left[..] == frame.left && right[..] == frame.right
      ensures samples[..] == WithSlot(before, samplesPerTick, buffers, k, Interleave(frame.left, frame.right))
      ensures headers[..] == oldHeaders[k := oldHeaders[k].(prepared := prepared)]
    {
      headers[k] := headers[k].(prepared := false);
      HostTick(frame);
      FillSlot(k);
      headers[k] := headers[k].(prepared := prepared);
    }

    // ----- Painting -----

    /**
     * The host's `video` callback, handed the tick progress `progress`,
     * which leaves `planes` in the red, green and blue planes.
     */
    method HostVideo(progress: real, planes: Planes)
      requires Shape() && PlanesFitImage(planes)
      modifies this`videoProgress, reds, greens, blues
      ensures videoProgress == progress
      ensures reds[..] == planes.reds && greens[..] == planes.greens && blues[..] == planes.blues
    {
      videoProgress := progress;
      forall i | 0 <= i < reds.Length {
        reds[i] := planes.reds[i];
      }
      forall i | 0 <= i < greens.Length {
        greens[i] := planes.greens[i];
      }
      forall i | 0 <= i < blues.Length {
        blues[i] := planes.blues[i];
      }
    }

    /** The packer of WM_PAINT, run on the context's planes (equal to `planes`) and image area. */
    method Pack(ghost planes: Planes)
      requires Shape()
      requires reds[..] == planes.reds && greens[..] == planes.greens && blues[..] == planes.blues
      modifies pixels
      ensures pixels[..] == Packed(old(pixels[..]), planes.reds, planes.greens, planes.blues, rows, columns, BytesPerRow(columns))
    {
      PackPlanes(pixels, reds, greens, blues, rows, columns, skippedBytesPerRow);
    }

    /** The packer: one blue-green-red triple per pixel, row by row, stepping over each row's padding. */
    static method PackPlanes(pixels: array<Byte>, reds: array<real>, greens: array<real>, blues: array<real>,
                             rows: nat, columns: nat, skippedBytesPerRow: nat)
      requires pixels.Length == rows * (columns * 3 + skippedBytesPerRow)
      requires PlanesFit(reds[..], greens[..], blues[..], rows, columns)
      modifies pixels
      ensures pixels[..] == Packed(old(pixels[..]), reds[..], greens[..], blues[..], rows, columns, columns * 3 + skippedBytesPerRow)
    {
      var bytesPerRow := columns * 3 + skippedBytesPerRow;
      ghost var before := pixels[..];
      ghost var r, g, b := reds[..], greens[..], blues[..];
      assert ImageFits(before, r, g, b, rows, columns, bytesPerRow);
      ghost var target := Packed(before, r, g, b, rows, columns, bytesPerRow);
      var input := 0;
      var output := 0;
      var row := 0;
      while row < rows
        invariant 0 <= row <= rows
        invariant output == row * bytesPerRow && input == row * columns && output <= pixels.Length
        invariant forall i :: 0 <= i < output ==> pixels[i] == target[i]
        invariant forall i :: output <= i < pixels.Length ==> pixels[i] == before[i]
      {
        NextRow(row, rows, bytesPerRow);
        NextRow(row, rows, columns);
        PackedRowBytes(before, r, g, b, rows, columns, bytesPerRow, row);
        ghost var start := output;
        ghost var triples := PixelTriples(r, g, b, input, columns);
        output, input := PackRow(pixels, reds, greens, blues, columns, output, input, r, g, b);
        output := output + skippedBytesPerRow;
        forall i | start <= i < output
          ensures pixels[i] == target[i]
        {
          if i - start < 3 * columns {
            assert pixels[i] == triples[i - start];
          } else {
            assert pixels[i] == before[i];
          }
        }
        row := row + 1;
      }
      assert pixels[..] == target;
    }

    /** The inner loop of the packer: the `columns` pixels from plane index `input` become triples stored from byte `output`. */
    static method PackRow(pixels: array<Byte>, reds: array<real>, greens: array<real>, blues: array<real>,
                          columns: nat, output: nat, input: nat, ghost r: seq<real>, ghost g: seq<real>, ghost b: seq<real>)
      returns (output': nat, input': nat)
      requires output + 3 * columns <= pixels.Length
      requires r == reds[..] && g == greens[..] && b == blues[..]
      requires input + columns <= |r| && input + columns <= |g| && input + columns <= |b|
      modifies pixels
      ensures output' == output + 3 * columns && input' == input + columns
      ensures forall i :: 0 <= i < output ==> pixels[i] == old(pixels[i])
      ensures forall i :: output <= i < output' ==> pixels[i] == PixelTriples(r, g, b, input, columns)[i - output]
      ensures forall i :: output' <= i < pixels.Length ==> pixels[i] == old(pixels[i])
    {
      ghost var triples := PixelTriples(r, g, b, input, columns);
      output', input' := output, input;
      var column := 0;
      while column < columns
        invariant 0 <= column <= columns
        invariant output' == output + 3 * column && input' == input + column
        invariant forall i :: 0 <= i < output ==> pixels[i] == old(pixels[i])
        invariant forall i :: output <= i < output' ==> pixels[i] == triples[i - output]
        invariant forall i :: output' <= i < pixels.Length ==> pixels[i] == old(pixels[i])
      {
        PixelTriplesAt(r, g, b, input, columns, column);
        pixels[output'] := ToByte(blues[input']);
        output' := output' + 1;
        pixels[output'] := ToByte(greens[input']);
        output' := output' + 1;
        pixels[output'] := ToByte(reds[input']);
        output' := output' + 1;
        input' := input' + 1;
        column := column + 1;
      }
    }

    /**
     * The state after a frame is drawn from `o` at tick progress `progress`:
     * the host received that progress and its planes hold the frame, the
     * pixel area holds it packed over `before`, and the calls handed to GDI
     * and the error are those of `DrawFrame`.
     */
    ghost predicate Presented(o: PaintOutcomes, progress: real, before: seq<Byte>, drawn: seq<Rect>)
      reads this, reds, greens, blues, pixels
    {
      Shape() && PlanesFitImage(o.planes) && |before| == pixels.Length &&
      videoProgress == progress &&
      reds[..] == o.planes.reds && greens[..] == o.planes.greens && blues[..] == o.planes.blues &&
      pixels[..] == Packed(before, o.planes.reds, o.planes.greens, o.planes.blues, rows, columns, BytesPerRow(columns)) &&
      DrawFrame(Placement(), o) == Drawing(drawn, error)
    }

    /**
     * The part of WM_PAINT once the device position has been read: the host
     * draws the frame into the planes at the tick progress, the packer fills
     * the pixel area, and the borders and the stretched image go to GDI.
     */
    method Present(o: PaintOutcomes, ghost before: seq<Byte>) returns (reply: Reply, drawn: seq<Rect>)
      requires Shape() && PlanesFitImage(o.planes) && before == pixels[..]
      requires PositionError(deviceOpen, o.position).None?
      modifies this`error, this`videoProgress, reds, greens, blues, pixels
      ensures Presented(o, TickProgress(deviceOpen, o.position, minimumPosition, samplesPerTick).value, before, drawn)
      ensures 0.0 <= videoProgress <= 1.0 && (!deviceOpen ==> videoProgress == 0.0)
      ensures reply == if error.None? then Handled else Defaulted
    {
      var progress := TickProgress(deviceOpen, o.position, minimumPosition, samplesPerTick);
      HostVideo(progress.value, o.planes);
      Pack(o.planes);
      var drawing := DrawFrame(Placement(), o);
      drawn := drawing.calls;
      error := drawing.failure;
      reply := if error.None? then Handled else Defaulted;
    }

    /**
     * WM_PAINT: restart the audio if it was paused, begin painting, let the
     * host draw the frame with the current tick progress, pack it, and
     * draw the borders and the stretched image.  `drawn` lists the
     * rectangles handed to GDI.  The first call that fails sets the error.
     */
    method HandlePaint(o: PaintOutcomes) returns (reply: Reply, drawn: seq<Rect>)
      requires Valid() && error.None? && PlanesFitImage(o.planes)
      modifies this`error, this`audioPaused, this`videoProgress, reds, greens, blues, pixels
      ensures Valid()
      ensures audioPaused == (old(audioPaused) && !o.restartOk)
      ensures var refusal := PaintRefusal(old(audioPaused), o, PositionError(deviceOpen, o.position));
        refusal.Some? ==> error == refusal && drawn == [] && videoProgress == old(videoProgress) &&
                          unchanged(reds, greens, blues, pixels)
      ensures PaintRefusal(old(audioPaused), o, PositionError(deviceOpen, o.position)).None? ==>
        Presented(o, TickProgress(deviceOpen, o.position, minimumPosition, samplesPerTick).value, old(pixels[..]), drawn)
      ensures PaintRefusal(old(audioPaused), o, PositionError(deviceOpen, o.position)).None? ==>
        0.0 <= videoProgress <= 1.0 && (!deviceOpen ==> videoProgress == 0.0)
      ensures reply == if error.None? then Handled else Defaulted
    {
      ghost var before := pixels[..];
      var refusal := PaintRefusal(audioPaused, o, PositionError(deviceOpen, o.position));
      if audioPaused && o.restartOk {
        audioPaused := false;
      }
      if refusal.Some? {
        error := refusal;
        drawn := [];
        reply := Defaulted;
      } else {
        reply, drawn := Present(o, before);
      }
    }

    // ----- Window geometry -----

    /** WM_SIZE: the letterbox for the new client size, then a request to repaint. */
    method HandleSize(width: int, height: int, invalidateOk: bool) returns (reply: Reply)
      requires Valid() && error.None?
      requires 0 <= width < 0x1_0000 && 0 <= height < 0x1_0000
      modifies this`scaledWidth, this`scaledHeight, this`xOffset, this`yOffset,
               this`inverseXOffset, this`inverseYOffset, this`error
      ensures Valid() && reply == Handled
      ensures Placement() == ComputeLetterbox(width, height, rows, columns)
      ensures NonNegative(Placement())
      ensures xOffset + scaledWidth + inverseXOffset == width && yOffset + scaledHeight + inverseYOffset == height
      ensures error == if invalidateOk then None else Some(InvalidateFailed)
    {
      var g := ComputeLetterbox(width, height, rows, columns);
      scaledWidth := g.scaledWidth;
      scaledHeight := g.scaledHeight;
      xOffset := g.xOffset;
      yOffset := g.yOffset;
      inverseXOffset := g.inverseXOffset;
      inverseYOffset := g.inverseYOffset;
      if !invalidateOk {
        error := Some(InvalidateFailed);
      }
      return Handled;
    }

    /** WM_APP, posted on each vertical sync: a request to repaint. */
    method HandleRedraw(invalidateOk: bool) returns (reply: Reply)
      requires error.None?
      modifies this`error
      ensures reply == Handled
      ensures error == if invalidateOk then None else Some(InvalidateFailed)
    {
      if !invalidateOk {
        error := Some(InvalidateFailed);
      }
      return Handled;
    }

    /** WM_SIZING: the dragged rectangle rewritten to keep the aspect ratio, or an error when the frame insets are unknown. */
    method HandleSizing(edge: SizingEdge, outer: Rect, insets: Option<Rect>) returns (reply: Reply)
      requires Valid() && error.None?
      modifies this`error
      ensures insets.None? ==> error == Some(DimensionsFailed) && reply == Defaulted
      ensures insets.Some? ==> error == None && reply == Resized(Sized(edge, outer, insets.value, rows, columns))
    {
      if insets.None? {
        error := Some(DimensionsFailed);
        return Defaulted;
      }
      return Resized(Sized(edge, outer, insets.value, rows, columns));
    }

    // ----- Pointer and non-client clicks -----

    /** WM_MOUSELEAVE: the pointer is no longer over the window. */
    method HandleMouseLeave() returns (reply: Reply)
      modifies this`pointerState
      ensures pointerState == PointerNone && reply == Handled
    {
      pointerState := PointerNone;
      return Handled;
    }

    /** WM_NCLBUTTONDOWN and WM_NCRBUTTONDOWN: a click on the caption or a caption button pauses the audio, once. */
    method HandleNonClientButtonDown(onCaptionOrButton: bool, pauseOk: bool) returns (reply: Reply)
      requires error.None?
      modifies this`audioPaused, this`error
      ensures reply == Defaulted
      ensures audioPaused == (old(audioPaused) || (onCaptionOrButton && pauseOk))
      ensures error == if onCaptionOrButton && !old(audioPaused) && !pauseOk then Some(PauseFailed) else None
    {
      if onCaptionOrButton && !audioPaused {
        if pauseOk {
          audioPaused := true;
        } else {
          error := Some(PauseFailed);
        }
      }
      return Defaulted;
    }

    // ----- The window procedure -----

    /**
     * The window procedure: once an error is recorded every message is
     * passed to DefWindowProc untouched; otherwise the message goes to its
     * handler.  `drawn` lists the rectangles a WM_PAINT hands to GDI.
     */
    method WindowProcedure(m: Message) returns (reply: Reply, drawn: seq<Rect>)
      requires Valid() && Accepts(m)
      modifies this`error, this`nextBuffer, this`minimumPosition, this`heldKeyCodes, this`numberOfHeldKeyCodes,
               heldKeyCodes, this`scaledWidth, this`scaledHeight, this`xOffset, this`yOffset,
               this`inverseXOffset, this`inverseYOffset, this`pointerState, this`audioPaused, this`videoProgress,
               left, right, samples, headers, reds, greens, blues, pixels
      ensures Valid()
      ensures old(error).Some? || m.Unhandled? ==>
        reply == Defaulted && drawn == [] && unchanged(this) && HeldKeyCodes() == old(HeldKeyCodes()) &&
        unchanged(left, right, samples, headers, reds, greens, blues, pixels)
      ensures old(error).None? && m.KeyDown? ==> reply == Handled && HeldKeyCodes() == Pressed(old(HeldKeyCodes()), m.code)
      ensures old(error).None? && m.KeyUp? ==> reply == Handled && HeldKeyCodes() == Released(old(HeldKeyCodes()), m.code)
      ensures old(error).None? && m.Size? ==> Placement() == ComputeLetterbox(m.width, m.height, rows, columns)
      ensures drawn != [] ==> m.Paint?
    {
      drawn := [];
      if error.Some? {
        return Defaulted, drawn;
      }
      match m
      case WaveDone(unprepareOk, frame, prepareOk, writeOk) =>
        reply := HandleWaveDone(unprepareOk, frame, prepareOk, writeOk);
      case Paint(o) =>
        reply, drawn := HandlePaint(o);
      case Size(width, height, invalidateOk) =>
        reply := HandleSize(width, height, invalidateOk);
      case Redraw(invalidateOk) =>
        reply := HandleRedraw(invalidateOk);
      case Sizing(edge, outer, insets) =>
        reply := HandleSizing(edge, outer, insets);
      case KeyDown(code) =>
        reply := HandleKeyDown(code);
      case KeyUp(code) =>
        reply := HandleKeyUp(code);
      case MouseLeave =>
        reply := HandleMouseLeave();
      case NonClientButtonDown(onCaptionOrButton, pauseOk) =>
        reply := HandleNonClientButtonDown(onCaptionOrButton, pauseOk);
      case Unhandled =>
        reply := Defaulted;
    }
  }
}
