/**
 * The error conditions the event loop records.  The source keeps the
 * first failure as a pointer to a constant message; here each message is
 * a constructor, and `Text` gives the message the source stores.
 */
module Failures {

  datatype Failure =
    | PositionQueryFailed     // waveOutGetPosition fails
    | PositionNotInSamples    // waveOutGetPosition reports another time format
    | PenNotSet               // SelectObject(NULL_PEN) fails
    | BrushNotSet             // SelectObject(BLACK_BRUSH) fails
    | LeftBorderNotDrawn
    | RightBorderNotDrawn
    | TopBorderNotDrawn
    | BottomBorderNotDrawn
    | FramebufferNotPainted   // StretchDIBits fails
    | RestartFailed           // waveOutRestart fails
    | BeginPaintFailed
    | PrepareFailed           // waveOutPrepareHeader fails
    | WriteFailed             // waveOutWrite fails
    | UnprepareFailed         // waveOutUnprepareHeader fails
    | InvalidateFailed        // InvalidateRect fails
    | DimensionsFailed        // AdjustWindowRect fails during WM_SIZING
    | PauseFailed             // waveOutPause fails

  /** The message the source records for each failure. */
  function Text(f: Failure): string
  {
    match f
    case PositionQueryFailed => "Failed to get wave out position."
    case PositionNotInSamples => "Wave out position does not support sample time."
    case PenNotSet => "Failed to set the pen."
    case BrushNotSet => "Failed to set the brush."
    case LeftBorderNotDrawn => "Failed draw the left border."
    case RightBorderNotDrawn => "Failed draw the right border."
    case TopBorderNotDrawn => "Failed draw the top border."
    case BottomBorderNotDrawn => "Failed draw the bottom border."
    case FramebufferNotPainted => "Failed to paint the framebuffer."
    case RestartFailed => "Failed to restart wave out."
    case BeginPaintFailed => "Failed to begin painting."
    case PrepareFailed => "Failed to prepare wave out."
    case WriteFailed => "Failed to write wave out."
    case UnprepareFailed => "Failed to unprepare wave out."
    case InvalidateFailed => "Failed to invalidate the window."
    case DimensionsFailed => "Failed to calculate the dimensions of the window."
    case PauseFailed => "Failed to pause wave out."
  }
}
