/** How one encoder's value moves (encoders.c): detent, end zones, and clamped 16-bit arithmetic.

    Values are kept in hundredths of a controller step, 0 to 12700. `int` and `unsigned` are 16 bits wide. */
module EncoderValues {

  const RAW_MAX := 12700
  const DETENT_LOW := 6240
  const DETENT_HIGH := 6450
  const DETENT_SIZE := 8
  const DEAD_ZONE_SIZE := 2

  // encoder_midi_type
  const SEND_REL_ENC := 2
  const SEND_REL_ENC_MOUSE_EMU_DRAG := 4
  const SEND_REL_ENC_MOUSE_EMU_SCROLL := 5

  // switch_action_type
  const ENC_RESET_VALUE := 4
  const ENC_RESET_VALUE_INV := 5
  const ENC_FINE_ADJUST := 6
  const ENC_SHIFT_HOLD := 7
  const ENC_SHIFT_TOGGLE := 8

  // movement
  const DIRECT := 0
  const VELOCITY_SENSITIVE_ENC := 2

  /** The settings of one encoder that matter here. */
  datatype EncoderSettings = EncoderSettings(
    midiNumber: nat, midiType: nat, midiChannel: nat, shiftMidiChannel: nat,
    switchAction: nat, hasDetent: bool, movement: nat)
  {
    predicate IsRelative() {
      midiType == SEND_REL_ENC || midiType == SEND_REL_ENC_MOUSE_EMU_DRAG || midiType == SEND_REL_ENC_MOUSE_EMU_SCROLL
    }
  }

  predicate InRange(raw: int) {
    0 <= raw <= RAW_MAX
  }

  predicate IsInt8(x: int) {
    -128 <= x < 128
  }

  predicate IsInt16(x: int) {
    -0x8000 <= x < 0x8000
  }

  function Wrap8(x: int): (r: int)
    ensures IsInt8(r) && (IsInt8(x) ==> r == x)
  {
    (x + 128) % 256 - 128
  }

  function Wrap16(x: int): (r: int)
    ensures IsInt16(r) && (IsInt16(x) ==> r == x)
  {
    (x + 0x8000) % 0x1_0000 - 0x8000
  }

  function Clamp(raw: int): (r: int)
    ensures InRange(r) && (InRange(raw) ==> r == raw)
  {
    var atLeast := if raw < 0 then 0 else raw;
    if atLeast > RAW_MAX then RAW_MAX else atLeast
  }

  /** scale_encoder_value: the controller value sent for a raw value, rounded to nearest. */
  function Scaled(raw: int): int
    requires InRange(raw)
  {
    (raw + 50) / 100
  }

  predicate InDetent(raw: int) {
    DETENT_LOW < raw < DETENT_HIGH
  }

  predicate InDeadZone(raw: int) {
    raw > 12699 || raw < 1
  }

  /** The multiplier of an absolute movement. The velocity formula is left open: `velocity` is whatever it
      yields, and the firmware brings it into 25..255. */
  function Multiplier(s: EncoderSettings, fine: bool, velocity: nat): (m: nat)
    ensures 25 <= m <= 255
  {
    if s.movement == VELOCITY_SENSITIVE_ENC then
      if fine || velocity < 25 then 25 else if velocity > 255 then 255 else velocity
    else if fine then 25
    else if s.movement == DIRECT then 100
    else 178
  }

  /** `raw_encoder_value += new_value * multiplier`, then the clamp, in 16 bits. */
  function Moved(raw: int, delta: int, m: nat): int {
    Clamp(Wrap16(raw + Wrap16(delta * m)))
  }

  /** A value and its detent counter after `delta` ticks, and what the ring of lights is set to, if anything. */
  datatype Rotated = Rotated(raw: int, counter: int, indicator: int)

  const UNCHANGED := -1

  function RotatedInDetent(raw: int, counter: int, delta: int): Rotated {
    var c := Wrap8(counter + delta);
    if c > DETENT_SIZE then Rotated(DETENT_HIGH, c, UNCHANGED)
    else if c < -DETENT_SIZE then Rotated(DETENT_LOW, c, UNCHANGED)
    else Rotated(raw, c, 63)
  }

  function RotatedInDeadZone(raw: int, counter: int, delta: int): Rotated {
    var c := if (raw < 100 && delta > 0) || (raw > 12600 && delta < 0) then Wrap8(counter + delta) else counter;
    if c > DEAD_ZONE_SIZE && raw < 100 then Rotated(100, 0, UNCHANGED)
    else if c < -DEAD_ZONE_SIZE && raw > 12600 then Rotated(12600, 0, UNCHANGED)
    else Rotated(raw, c, UNCHANGED)
  }

  /** process_encoder_input_rotary for one encoder that has moved by `delta`. */
  function Rotate(s: EncoderSettings, raw: int, counter: int, delta: int, fine: bool, velocity: nat): Rotated
  {
    if s.hasDetent && InDetent(raw) then RotatedInDetent(raw, counter, delta)
    else if !s.IsRelative() && InDeadZone(raw) then RotatedInDeadZone(raw, counter, delta)
    else if s.IsRelative() then Rotated(raw, counter, UNCHANGED)
    else
      var raw' := Moved(raw, delta, Multiplier(s, fine, velocity));
      Rotated(raw', counter, Scaled(raw'))
  }

  /** Every movement keeps the value in range and every indicator value within seven bits, whatever the
      tick count and the velocity, even where the 16-bit sum wraps. */
  lemma RotateStaysInRange(s: EncoderSettings, raw: int, counter: int, delta: int, fine: bool, velocity: nat)
    requires InRange(raw) && IsInt8(counter)
    ensures var r := Rotate(s, raw, counter, delta, fine, velocity);
      InRange(r.raw) && IsInt8(r.counter) && -1 <= r.indicator <= 127
  {
    ScaledIsSevenBit(Moved(raw, delta, Multiplier(s, fine, velocity)));
  }

  lemma ScaledIsSevenBit(raw: int)
    requires InRange(raw)
    ensures 0 <= Scaled(raw) <= 127 && 0 <= raw / 100 <= 127
  {
  }

  /** Host feedback is stored as 100 times its value and reads back as exactly that value. */
  lemma FeedbackReadsBack(value: nat)
    requires value < 128
    ensures InRange(100 * value) && Scaled(100 * value) == value && 100 * value / 100 == value
  {
  }

  /** The values from which an absolute movement starts: at either end the dead zone takes the event. */
  predicate Movable(raw: int) {
    InRange(raw) && !InDeadZone(raw)
  }

  /** Product and 16-bit sum are exact for every value that can move and every multiplier exactly when an
      encoder is at most 78 ticks ahead. */
  lemma NoOverflowUpTo78(delta: int)
    requires IsInt8(delta)
    ensures (forall raw, m: nat {:trigger Movable(raw), delta * m} :: Movable(raw) && 25 <= m <= 255 ==>
               IsInt16(delta * m) && IsInt16(raw + delta * m))
       <==> delta <= 78
  {
    if delta <= 78 {
      forall raw, m: nat | Movable(raw) && 25 <= m <= 255
        ensures IsInt16(delta * m) && IsInt16(raw + delta * m) {
        ProductBounds(delta, m);
      }
    } else {
      assert Movable(12699);
      var m: nat := 255;
      assert delta * m >= 79 * 255;
      assert !IsInt16(12699 + delta * m);
    }
  }

  lemma ProductBounds(delta: int, m: nat)
    requires IsInt8(delta) && m <= 255
    ensures -128 * 255 <= delta * m <= 127 * 255
    ensures delta <= 78 ==> delta * m <= 78 * 255
    ensures delta >= 0 ==> delta * m >= 0
    ensures delta <= 0 ==> delta * m <= 0
  {
    if delta >= 0 {
      assert delta * m <= delta * 255;
    } else {
      assert delta * m >= delta * 255;
    }
  }

  /** A movement is saturated addition, and never goes against the turn, exactly when the sum fits in 16 bits;
      otherwise a turn up ends at zero. */
  lemma MovedIsSaturatedExactlyWhen(raw: int, delta: int, m: nat)
    requires Movable(raw) && IsInt8(delta) && 25 <= m <= 255
    ensures Moved(raw, delta, m) == Clamp(raw + delta * m) <==> raw + delta * m < 0x8000
    ensures raw + delta * m < 0x8000 ==>
              (delta >= 0 ==> raw <= Moved(raw, delta, m)) && (delta <= 0 ==> Moved(raw, delta, m) <= raw)
    ensures raw + delta * m >= 0x8000 ==> delta >= 79 && Moved(raw, delta, m) == 0
  {
    ProductBounds(delta, m);
    SumInSixteenBits(raw, delta * m);
  }

  lemma SumInSixteenBits(raw: int, change: int)
    requires Movable(raw) && -128 * 255 <= change <= 127 * 255
    ensures raw + change < 0x8000 ==> Wrap16(raw + Wrap16(change)) == raw + change
    ensures raw + change >= 0x8000 ==> change > 78 * 255 && Wrap16(raw + Wrap16(change)) < 0
  {
  }
}
