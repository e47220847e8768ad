/**
 * The audio area of the scratch block of src/library/run_event_loop.c:
 * `buffers` consecutive slots of `2 * samples_per_tick` floats each, slot k
 * starting at float index `2 * samples_per_tick * k`.  A slot holds one
 * tick of stereo audio, the left and right samples interleaved.
 */
module AudioSlots {

  /** The float index at which slot `k` starts: `samples_per_tick * 2 * k`, as the source computes it. */
  function SlotStart(samplesPerTick: nat, k: nat): nat {
    samplesPerTick * 2 * k
  }

  /** Later slots start no earlier. */
  lemma SlotStartMonotone(samplesPerTick: nat, j: nat, k: nat)
    requires j <= k
    ensures SlotStart(samplesPerTick, j) <= SlotStart(samplesPerTick, k)
  {
    var width := samplesPerTick * 2;
    assert width * k == width * j + width * (k - j);
  }

  /** Consecutive slots abut, and slots below `buffers` end within `buffers` slots. */
  lemma SlotBounds(samplesPerTick: nat, k: nat, buffers: nat)
    requires k < buffers
    ensures SlotStart(samplesPerTick, k + 1) == SlotStart(samplesPerTick, k) + 2 * samplesPerTick
    ensures SlotStart(samplesPerTick, k + 1) <= SlotStart(samplesPerTick, buffers)
  {
    var width := samplesPerTick * 2;
    assert width * (k + 1) == width * k + width;
    SlotStartMonotone(samplesPerTick, k + 1, buffers);
  }

  /** Slots are disjoint: an earlier slot ends no later than a later one starts. */
  lemma SlotsDisjoint(samplesPerTick: nat, j: nat, k: nat)
    requires j < k
    ensures SlotStart(samplesPerTick, j + 1) <= SlotStart(samplesPerTick, k)
  {
    SlotStartMonotone(samplesPerTick, j + 1, k);
  }

  /** The left and right samples of one tick, interleaved as the device plays them. */
  function Interleave<T>(left: seq<T>, right: seq<T>): (s: seq<T>)
    requires |left| == |right|
    ensures |s| == 2 * |left|
  {
    if left == [] then [] else [left[0], right[0]] + Interleave(left[1..], right[1..])
  }

  /** Sample `i` of the left channel is float `2i` of the tick, sample `i` of the right channel float `2i + 1`. */
  lemma {:induction false} InterleaveAt<T>(left: seq<T>, right: seq<T>, i: nat)
    requires |left| == |right| && i < |left|
    ensures Interleave(left, right)[2 * i] == left[i] && Interleave(left, right)[2 * i + 1] == right[i]
  {
    if i > 0 {
      InterleaveAt(left[1..], right[1..], i - 1);
    }
  }

  /** The contents of slot `k` of an audio area of `buffers` slots. */
  function Slot<T>(s: seq<T>, samplesPerTick: nat, buffers: nat, k: nat): (slot: seq<T>)
    requires |s| == SlotStart(samplesPerTick, buffers) && k < buffers
    ensures |slot| == 2 * samplesPerTick
  {
    SlotBounds(samplesPerTick, k, buffers);
    s[SlotStart(samplesPerTick, k)..SlotStart(samplesPerTick, k + 1)]
  }

  /** The audio area with slot `k` overwritten by `v` and every other float kept. */
  function WithSlot<T>(s: seq<T>, samplesPerTick: nat, buffers: nat, k: nat, v: seq<T>): (r: seq<T>)
    requires |s| == SlotStart(samplesPerTick, buffers) && k < buffers
    requires |v| == 2 * samplesPerTick
    ensures |r| == |s|
  {
    SlotBounds(samplesPerTick, k, buffers);
    s[..SlotStart(samplesPerTick, k)] + v + s[SlotStart(samplesPerTick, k + 1)..]
  }

  /** Element by element: inside slot `k` the new contents, elsewhere the old ones. */
  lemma WithSlotAt<T>(s: seq<T>, samplesPerTick: nat, buffers: nat, k: nat, v: seq<T>, i: nat)
    requires |s| == SlotStart(samplesPerTick, buffers) && k < buffers
    requires |v| == 2 * samplesPerTick && i < |s|
    ensures SlotStart(samplesPerTick, k + 1) == SlotStart(samplesPerTick, k) + 2 * samplesPerTick
    ensures WithSlot(s, samplesPerTick, buffers, k, v)[i] ==
      if SlotStart(samplesPerTick, k) <= i < SlotStart(samplesPerTick, k + 1)
      then v[i - SlotStart(samplesPerTick, k)] else s[i]
  {
    SlotBounds(samplesPerTick, k, buffers);
  }

  /** Overwriting slot `k` gives slot `k` the new contents and leaves every other slot as it was. */
  lemma WithSlotChangesOnlyThatSlot<T>(s: seq<T>, samplesPerTick: nat, buffers: nat, k: nat, v: seq<T>, j: nat)
    requires |s| == SlotStart(samplesPerTick, buffers)
    requires k < buffers && j < buffers && |v| == 2 * samplesPerTick
    ensures Slot(WithSlot(s, samplesPerTick, buffers, k, v), samplesPerTick, buffers, j) ==
      if j == k then v else Slot(s, samplesPerTick, buffers, j)
  {
    SlotBounds(samplesPerTick, k, buffers);
    SlotBounds(samplesPerTick, j, buffers);
    if j < k {
      SlotsDisjoint(samplesPerTick, j, k);
    } else if k < j {
      SlotsDisjoint(samplesPerTick, k, j);
    }
  }

  /** What the host's tick callback leaves in its left and right buffers. */
  datatype Frame = Frame(left: seq<real>, right: seq<real>)

  predicate FrameFits(f: Frame, samplesPerTick: nat) {
    |f.left| == samplesPerTick && |f.right| == samplesPerTick
  }

  predicate FramesFit(frames: seq<Frame>, samplesPerTick: nat) {
    forall j :: 0 <= j < |frames| ==> FrameFits(frames[j], samplesPerTick)
  }

  /** The audio area after the first `n` slots have been filled with the first `n` ticks, in order. */
  function Primed(s: seq<real>, samplesPerTick: nat, buffers: nat, frames: seq<Frame>, n: nat): (r: seq<real>)
    requires |s| == SlotStart(samplesPerTick, buffers) && n <= buffers && n <= |frames|
    requires FramesFit(frames, samplesPerTick)
    ensures |r| == |s|
  {
    if n == 0 then s
    else
      var f := frames[n - 1];
      WithSlot(Primed(s, samplesPerTick, buffers, frames, n - 1), samplesPerTick, buffers, n - 1, Interleave(f.left, f.right))
  }

  /** One step of priming: slot `n - 1` receives tick `n - 1`, every other slot keeps what it had. */
  lemma PrimedSlotStep(s: seq<real>, samplesPerTick: nat, buffers: nat, frames: seq<Frame>, n: nat, j: nat)
    requires |s| == SlotStart(samplesPerTick, buffers) && 0 < n <= buffers && n <= |frames|
    requires FramesFit(frames, samplesPerTick) && j < buffers
    ensures Slot(Primed(s, samplesPerTick, buffers, frames, n), samplesPerTick, buffers, j) ==
      if j == n - 1 then Interleave(frames[n - 1].left, frames[n - 1].right)
      else Slot(Primed(s, samplesPerTick, buffers, frames, n - 1), samplesPerTick, buffers, j)
  {
    var previous := Primed(s, samplesPerTick, buffers, frames, n - 1);
    var tick := Interleave(frames[n - 1].left, frames[n - 1].right);
    WithSlotChangesOnlyThatSlot(previous, samplesPerTick, buffers, n - 1, tick, j);
  }

  /** After priming `n` slots, slot `j` holds tick `j` when `j < n` and is untouched otherwise. */
  lemma {:induction false} PrimedSlots(s: seq<real>, samplesPerTick: nat, buffers: nat, frames: seq<Frame>, n: nat, j: nat)
    requires |s| == SlotStart(samplesPerTick, buffers) && n <= buffers && n <= |frames|
    requires FramesFit(frames, samplesPerTick) && j < buffers
    ensures Slot(Primed(s, samplesPerTick, buffers, frames, n), samplesPerTick, buffers, j) ==
      if j < n then Interleave(frames[j].left, frames[j].right) else Slot(s, samplesPerTick, buffers, j)
  {
    if n == 0 {
      assert Primed(s, samplesPerTick, buffers, frames, n) == s;
    } else {
      PrimedSlotStep(s, samplesPerTick, buffers, frames, n, j);
      if j != n - 1 {
        PrimedSlots(s, samplesPerTick, buffers, frames, n - 1, j);
        assert (j < n - 1) == (j < n);
      }
    }
  }
}
