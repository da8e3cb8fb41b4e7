/**
 * Packing of a wheel nudge into the parameters of a WM_MOUSEWHEEL message: the
 * wheel delta in the high word of wParam, x in the low word and y in the high
 * word of lParam. Python's unbounded integers make `<< 16` a multiplication by
 * 65536, `& 0xFFFF` a floored remainder, and `|` of the two disjoint bit ranges
 * an addition.
 */
module WheelMessage {

  /** One notch of the wheel (WHEEL_DELTA). */
  const WHEEL_DELTA: int := 120
  const WORD: int := 0x1_0000
  const HALF_WORD: int := 0x8000

  datatype Message = Message(wParam: int, lParam: int)

  /** (WHEEL_DELTA * nudges) << 16: the delta sits in the high word, the low word is zero. */
  function WParam(nudges: int): (w: int)
    ensures w % WORD == 0
    ensures w / WORD == WHEEL_DELTA * nudges
  {
    WHEEL_DELTA * nudges * WORD
  }

  /** (y << 16) | (x & 0xFFFF): x's low sixteen bits below y. */
  function LParam(x: int, y: int): (l: int)
    ensures l % WORD == x % WORD
    ensures l / WORD == y
  {
    y * WORD + x % WORD
  }

  /** The message sent for a nudge count, attributed to the scroll position (x, y). */
  function Pack(nudges: int, x: int, y: int): Message
  {
    Message(WParam(nudges), LParam(x, y))
  }

  // The receiving side: LOWORD, HIWORD and the cast to a signed 16-bit value
  // behind GET_WHEEL_DELTA_WPARAM, GET_X_LPARAM and GET_Y_LPARAM.

  function LoWord(v: int): (r: int)
    ensures 0 <= r < WORD
  {
    v % WORD
  }

  function HiWord(v: int): (r: int)
    ensures 0 <= r < WORD
  {
    (v / WORD) % WORD
  }

  function AsShort(w: int): (r: int)
    requires 0 <= w < WORD
    ensures -HALF_WORD <= r < HALF_WORD
    ensures (r - w) % WORD == 0
  {
    if w >= HALF_WORD then w - WORD else w
  }

  function WheelDeltaOf(wParam: int): int
  {
    AsShort(HiWord(wParam))
  }

  function XOf(lParam: int): int
  {
    AsShort(LoWord(lParam))
  }

  function YOf(lParam: int): int
  {
    AsShort(HiWord(lParam))
  }

  /** A 16-bit signed value survives being stored as a word and read back. */
  lemma ShortRoundTrip(v: int)
    requires -HALF_WORD <= v < HALF_WORD
    ensures AsShort(v % WORD) == v
  {
    if v < 0 {
      assert v % WORD == v + WORD;
    }
  }

  /** The receiver reads back the delta of any nudge count whose delta fits in 16 signed bits. */
  lemma WheelDeltaRoundTrip(nudges: int)
    requires -HALF_WORD <= WHEEL_DELTA * nudges < HALF_WORD
    ensures WheelDeltaOf(WParam(nudges)) == WHEEL_DELTA * nudges
  {
    ShortRoundTrip(WHEEL_DELTA * nudges);
  }

  /** The receiver reads back both coordinates whenever each fits in 16 signed bits. */
  lemma PositionRoundTrip(x: int, y: int)
    requires -HALF_WORD <= x < HALF_WORD && -HALF_WORD <= y < HALF_WORD
    ensures XOf(LParam(x, y)) == x
    ensures YOf(LParam(x, y)) == y
  {
    ShortRoundTrip(x);
    ShortRoundTrip(y);
  }

  /** Every nudge the gesture emits (one notch either way) is read back unchanged. */
  lemma NudgeMessageRoundTrip(nudges: int, x: int, y: int)
    requires nudges == 1 || nudges == -1
    requires -HALF_WORD <= x < HALF_WORD && -HALF_WORD <= y < HALF_WORD
    ensures WheelDeltaOf(Pack(nudges, x, y).wParam) == WHEEL_DELTA * nudges
    ensures XOf(Pack(nudges, x, y).lParam) == x && YOf(Pack(nudges, x, y).lParam) == y
  {
    WheelDeltaRoundTrip(nudges);
    PositionRoundTrip(x, y);
  }
}
