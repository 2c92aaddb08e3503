/** The encoder tables as values, what each event does to them, and what holds over every run. */
module EncoderRuns {
  import opened EncoderValues
  import opened EncoderBanks

  /** What the firmware keeps in RAM about its encoders. */
  datatype Tables = Tables(
    raw: seq<int>,            // raw_encoder_value: base values, then shifted values
    indicator: seq<int>,      // indicator_value_buffer, by banked index
    counters: seq<int>,       // encoder_detent_counter
    switches: seq<bool>,      // get_enc_switch_state, one flag per encoder
    toggles: seq<bool>,       // enc_switch_toggle_state, by banked index
    bank: nat)

  predicate IsTables(t: Tables) {
    && |t.raw| == 2 * BANKED_ENCODERS && |t.indicator| == BANKED_ENCODERS && |t.counters| == PHYSICAL_ENCODERS
    && |t.switches| == PHYSICAL_ENCODERS && |t.toggles| == BANKED_ENCODERS && t.bank < NUM_BANKS
  }

  /** All 256 values, all indicator values and all counters are within their bounds. */
  predicate Bounded(t: Tables)
    requires IsTables(t)
  {
    && (forall i :: 0 <= i < 2 * BANKED_ENCODERS ==> InRange(t.raw[i]))
    && (forall i :: 0 <= i < BANKED_ENCODERS ==> 0 <= t.indicator[i] <= 127)
    && (forall i :: 0 <= i < PHYSICAL_ENCODERS ==> IsInt8(t.counters[i]))
  }

  /** encoder_is_in_shift_state: whether the shifted value of banked encoder `i` is in use and on display. */
  predicate IsShifted(settings: AllSettings, switches: seq<bool>, toggles: seq<bool>, i: nat)
    requires |switches| == PHYSICAL_ENCODERS && |toggles| == BANKED_ENCODERS && i < BANKED_ENCODERS
  {
    || (settings[i].switchAction == ENC_SHIFT_HOLD && switches[i % 16])
    || (settings[i].switchAction == ENC_SHIFT_TOGGLE && toggles[i])
  }

  /** get_virtual_encoder_id, from the banked index: which value is in use. */
  function ValueInUse(settings: AllSettings, switches: seq<bool>, toggles: seq<bool>, i: nat): (v: nat)
    requires |switches| == PHYSICAL_ENCODERS && |toggles| == BANKED_ENCODERS && i < BANKED_ENCODERS
    ensures v < 2 * BANKED_ENCODERS
  {
    if IsShifted(settings, switches, toggles, i) then i + BANKED_ENCODERS else i
  }

  predicate Shifted(settings: AllSettings, t: Tables, i: nat)
    requires IsTables(t) && i < BANKED_ENCODERS
  {
    IsShifted(settings, t.switches, t.toggles, i)
  }

  function InUse(settings: AllSettings, t: Tables, i: nat): (v: nat)
    requires IsTables(t) && i < BANKED_ENCODERS
    ensures v < 2 * BANKED_ENCODERS
  {
    ValueInUse(settings, t.switches, t.toggles, i)
  }

  // ----- What each event does

  datatype Event =
    | Rotary(encoder: nat, delta: int, velocity: nat)
    | Switches(down: seq<bool>)
    | SwitchEdge(encoder: nat, pressed: bool)
    | Feedback(index: nat, value: nat, shifted: bool, active: bool)
    | ChangeBank(newBank: nat)

  /** An event that the hardware or the USB host can cause. The feedback value is any byte: the firmware does
      not mask what the packet carries. */
  predicate IsEvent(e: Event) {
    match e
    case Rotary(encoder, delta, _) => encoder < PHYSICAL_ENCODERS && IsInt8(delta) && delta != 0
    case Switches(down) => |down| == PHYSICAL_ENCODERS
    case SwitchEdge(encoder, _) => encoder < PHYSICAL_ENCODERS
    case Feedback(index, value, _, _) => index < BANKED_ENCODERS && value < 256
    case ChangeBank(newBank) => newBank < NUM_BANKS
  }

  /** An event that a host keeping to the MIDI protocol can cause: data bytes have seven bits. */
  predicate IsLegal(e: Event) {
    IsEvent(e) && (e.Feedback? ==> e.value < 128)
  }

  /** Encoder `i` of the current bank, whose value in use is number `v`, has rotated to `r`. */
  function HasRotated(t: Tables, i: nat, v: nat, r: Rotated): (t': Tables)
    requires IsTables(t) && i < PHYSICAL_ENCODERS && v < 2 * BANKED_ENCODERS
    ensures IsTables(t')
  {
    t.(raw := t.raw[v := r.raw], counters := t.counters[i := r.counter],
       indicator := if r.indicator == UNCHANGED then t.indicator else t.indicator[16 * t.bank + i := r.indicator])
  }

  /** Whether encoder `i` of the current bank is turned finely: its switch says so and is held. */
  predicate IsFine(settings: AllSettings, t: Tables, i: nat)
    requires IsTables(t) && i < PHYSICAL_ENCODERS
  {
    settings[16 * t.bank + i].switchAction == ENC_FINE_ADJUST && t.switches[i]
  }

  function AfterRotary(settings: AllSettings, t: Tables, i: nat, delta: int, velocity: nat): (t': Tables)
    requires IsTables(t) && i < PHYSICAL_ENCODERS
    ensures IsTables(t')
  {
    var b := 16 * t.bank + i;
    var v := InUse(settings, t, b);
    HasRotated(t, i, v, Rotate(settings[b], t.raw[v], t.counters[i], delta, IsFine(settings, t, i), velocity))
  }

  /** A reset by switch, to `value`. */
  function HasReset(t: Tables, i: nat, v: nat, value: int): (t': Tables)
    requires IsTables(t) && i < PHYSICAL_ENCODERS && v < 2 * BANKED_ENCODERS && InRange(value)
    ensures IsTables(t')
  {
    HasRotated(t, i, v, Rotated(value, 0, Scaled(value)))
  }

  /** The display of banked encoder `b` follows the value in use. */
  function HasShown(settings: AllSettings, t: Tables, b: nat): (t': Tables)
    requires IsTables(t) && b < BANKED_ENCODERS
    ensures IsTables(t')
  {
    t.(indicator := t.indicator[b := t.raw[InUse(settings, t, b)] / 100])
  }

  /** The switch of encoder `i` of the current bank goes down (`pressed`) or up. */
  function AfterSwitch(settings: AllSettings, t: Tables, i: nat, pressed: bool): (t': Tables)
    requires IsTables(t) && i < PHYSICAL_ENCODERS
    ensures IsTables(t')
  {
    var b := 16 * t.bank + i;
    var v, action := InUse(settings, t, b), settings[b].switchAction;
    if action == ENC_RESET_VALUE then HasReset(t, i, v, if settings[b].hasDetent then 6300 else 0)
    else if action == ENC_RESET_VALUE_INV then HasReset(t, i, v, if settings[b].hasDetent then 6300 else RAW_MAX)
    else if action == ENC_SHIFT_HOLD then HasShown(settings, t, b)
    else if action == ENC_SHIFT_TOGGLE && pressed then
      HasShown(settings, t.(toggles := t.toggles[b := !t.toggles[b]]), b)
    else t
  }

  /** Feedback is ignored for an encoder with a detent when the value is 0, and for an absolute encoder of
      the current bank while the user is turning it. */
  predicate Accepts(settings: AllSettings, t: Tables, idx: nat, value: nat, active: bool)
    requires IsTables(t) && idx < BANKED_ENCODERS
  {
    !(settings[idx].hasDetent && value == 0) && (idx / 16 != t.bank || !active || settings[idx].IsRelative())
  }

  /** The host sets the base or shifted value of banked encoder `idx`. */
  function AfterFeedback(settings: AllSettings, t: Tables, idx: nat, value: nat, shifted: bool, active: bool)
    : (t': Tables)
    requires IsTables(t) && idx < BANKED_ENCODERS
    ensures IsTables(t')
  {
    var v := if shifted then idx + BANKED_ENCODERS else idx;
    if !Accepts(settings, t, idx, value, active) then t
    else t.(raw := t.raw[v := 100 * value],
            indicator := if Shifted(settings, t, idx) == shifted then t.indicator[idx := value] else t.indicator)
  }

  /** The values handed to the other banks, then the displays of the old and the new bank brought up to date. */
  function AfterBankChange(settings: AllSettings, t: Tables, newBank: nat): (t': Tables)
    requires IsTables(t) && newBank < NUM_BANKS
    ensures IsTables(t')
  {
    var raw := Transferred(settings, false, t.raw[..BANKED_ENCODERS], t.bank)
             + Transferred(settings, true, t.raw[BANKED_ENCODERS..], t.bank);
    t.(bank := newBank, raw := raw,
       indicator := seq(BANKED_ENCODERS, i requires 0 <= i < BANKED_ENCODERS =>
         if i / 16 == t.bank || i / 16 == newBank then raw[InUse(settings, t, i)] / 100
         else Handed(settings, Shifted(settings, t, i), t.indicator, t.bank, i, PHYSICAL_ENCODERS)))
  }

  function Next(settings: AllSettings, t: Tables, e: Event): (t': Tables)
    requires IsTables(t) && IsEvent(e)
    ensures IsTables(t')
  {
    match e
    case Rotary(encoder, delta, velocity) => AfterRotary(settings, t, encoder, delta, velocity)
    case Switches(down) => t.(switches := down)
    case SwitchEdge(encoder, pressed) => AfterSwitch(settings, t, encoder, pressed)
    case Feedback(index, value, shifted, active) => AfterFeedback(settings, t, index, value, shifted, active)
    case ChangeBank(newBank) => AfterBankChange(settings, t, newBank)
  }

  // ----- Bounds

  lemma RotationKeepsBounds(t: Tables, i: nat, v: nat, r: Rotated)
    requires IsTables(t) && Bounded(t) && i < PHYSICAL_ENCODERS && v < 2 * BANKED_ENCODERS
    requires InRange(r.raw) && IsInt8(r.counter) && -1 <= r.indicator <= 127
    ensures Bounded(HasRotated(t, i, v, r))
  {
  }

  lemma BankChangeKeepsBounds(settings: AllSettings, t: Tables, newBank: nat)
    requires IsTables(t) && Bounded(t) && newBank < NUM_BANKS
    ensures Bounded(AfterBankChange(settings, t, newBank))
  {
    var t' := AfterBankChange(settings, t, newBank);
    forall i | 0 <= i < 2 * BANKED_ENCODERS ensures InRange(t'.raw[i]) {
    }
    forall i | 0 <= i < BANKED_ENCODERS ensures 0 <= t'.indicator[i] <= 127 {
      ScaledIsSevenBit(t'.raw[InUse(settings, t, i)]);
    }
  }

  lemma SwitchKeepsBounds(settings: AllSettings, t: Tables, i: nat, pressed: bool)
    requires IsTables(t) && Bounded(t) && i < PHYSICAL_ENCODERS
    ensures Bounded(AfterSwitch(settings, t, i, pressed))
  {
    forall j | 0 <= j < 2 * BANKED_ENCODERS ensures 0 <= t.raw[j] / 100 <= 127 {
      ScaledIsSevenBit(t.raw[j]);
    }
  }

  lemma FeedbackKeepsBoundsExactlyWhen(settings: AllSettings, t: Tables, idx: nat, value: nat, shifted: bool,
      active: bool)
    requires IsTables(t) && Bounded(t) && idx < BANKED_ENCODERS
    ensures Bounded(AfterFeedback(settings, t, idx, value, shifted, active))
       <==> value < 128 || !Accepts(settings, t, idx, value, active)
  {
    var t' := AfterFeedback(settings, t, idx, value, shifted, active);
    var v := if shifted then idx + BANKED_ENCODERS else idx;
    if value < 128 {
      FeedbackReadsBack(value);
    } else if Accepts(settings, t, idx, value, active) {
      assert t'.raw[v] == 100 * value && !InRange(t'.raw[v]);
    }
  }

  /** An event leaves the tables within bounds unless it is accepted feedback above 127, and only then. */
  lemma NextKeepsBoundsExactlyWhen(settings: AllSettings, t: Tables, e: Event)
    requires IsTables(t) && Bounded(t) && IsEvent(e)
    ensures Bounded(Next(settings, t, e))
       <==> (e.Feedback? ==> e.value < 128 || !Accepts(settings, t, e.index, e.value, e.active))
  {
    match e
    case Rotary(encoder, delta, velocity) =>
      var b := 16 * t.bank + encoder;
      var v := InUse(settings, t, b);
      var fine := IsFine(settings, t, encoder);
      RotateStaysInRange(settings[b], t.raw[v], t.counters[encoder], delta, fine, velocity);
      RotationKeepsBounds(t, encoder, v, Rotate(settings[b], t.raw[v], t.counters[encoder], delta, fine, velocity));
    case Switches(_) =>
    case SwitchEdge(encoder, pressed) => SwitchKeepsBounds(settings, t, encoder, pressed);
    case Feedback(index, value, shifted, active) =>
      FeedbackKeepsBoundsExactlyWhen(settings, t, index, value, shifted, active);
    case ChangeBank(newBank) => BankChangeKeepsBounds(settings, t, newBank);
  }

  predicate AreEvents(events: seq<Event>) {
    forall k :: 0 <= k < |events| ==> IsEvent(events[k])
  }

  predicate AreLegal(events: seq<Event>) {
    forall k :: 0 <= k < |events| ==> IsLegal(events[k])
  }

  /** The tables after a run. */
  function Ran(settings: AllSettings, t: Tables, events: seq<Event>): (t': Tables)
    requires IsTables(t) && AreEvents(events)
    ensures IsTables(t')
    decreases |events|
  {
    if events == [] then t else Ran(settings, Next(settings, t, events[0]), events[1..])
  }

  lemma {:induction false} RanOneMore(settings: AllSettings, t: Tables, events: seq<Event>, e: Event)
    requires IsTables(t) && AreEvents(events) && IsEvent(e)
    ensures Ran(settings, t, events + [e]) == Next(settings, Ran(settings, t, events), e)
    decreases |events|
  {
    if events == [] {
      assert events + [e] == [e] && [e][1..] == [];
    } else {
      assert (events + [e])[1..] == events[1..] + [e];
      RanOneMore(settings, Next(settings, t, events[0]), events[1..], e);
    }
  }

  /** No feedback of the run is above 127 and accepted at its turn. */
  predicate NoneTooHigh(settings: AllSettings, t: Tables, events: seq<Event>)
    requires IsTables(t) && AreEvents(events)
    decreases |events|
  {
    events == []
    || ((events[0].Feedback? ==>
           events[0].value < 128 || !Accepts(settings, t, events[0].index, events[0].value, events[0].active))
        && NoneTooHigh(settings, Next(settings, t, events[0]), events[1..]))
  }

  predicate AlwaysBounded(settings: AllSettings, t: Tables, events: seq<Event>)
    requires IsTables(t) && AreEvents(events)
    decreases |events|
  {
    Bounded(t) && (events == [] || AlwaysBounded(settings, Next(settings, t, events[0]), events[1..]))
  }

  /** Main result: a run keeps all 256 raw values in 0..12700, all indicator values in 0..127 and all counters
      in int8 throughout, exactly when it accepts no feedback above 127. */
  lemma {:induction false} RunStaysBoundedExactlyWhen(settings: AllSettings, t: Tables, events: seq<Event>)
    requires IsTables(t) && Bounded(t) && AreEvents(events)
    ensures AlwaysBounded(settings, t, events) <==> NoneTooHigh(settings, t, events)
    decreases |events|
  {
    if events == [] {
    } else {
      NextKeepsBoundsExactlyWhen(settings, t, events[0]);
      var next := Next(settings, t, events[0]);
      if Bounded(next) {
        RunStaysBoundedExactlyWhen(settings, next, events[1..]);
      }
    }
  }

  /** In particular every run of legal events does, from any state within bounds. */
  lemma {:induction false} LegalRunsStayBounded(settings: AllSettings, t: Tables, events: seq<Event>)
    requires IsTables(t) && Bounded(t) && AreLegal(events)
    ensures AlwaysBounded(settings, t, events) && Bounded(Ran(settings, t, events))
    decreases |events|
  {
    if events == [] {
    } else {
      NextKeepsBoundsExactlyWhen(settings, t, events[0]);
      LegalRunsStayBounded(settings, Next(settings, t, events[0]), events[1..]);
    }
  }

  function AllValues(t: Tables, shifted: bool): (r: seq<int>)
    requires IsTables(t)
    ensures |r| == BANKED_ENCODERS
  {
    if shifted then t.raw[BANKED_ENCODERS..] else t.raw[..BANKED_ENCODERS]
  }

  /** The values of bank `a`, base or shifted. */
  function BankValues(t: Tables, shifted: bool, a: nat): (r: seq<int>)
    requires IsTables(t) && a < NUM_BANKS
    ensures |r| == PHYSICAL_ENCODERS
  {
    AllValues(t, shifted)[16 * a..16 * a + 16]
  }

  /** Changing to another bank hands the values over and leaves those of the current bank alone. */
  lemma LeavingABank(settings: AllSettings, t: Tables, b: nat, shifted: bool)
    requires IsTables(t) && b < NUM_BANKS
    ensures var t' := AfterBankChange(settings, t, b);
      && AllValues(t', shifted) == Transferred(settings, shifted, AllValues(t, shifted), t.bank)
      && BankValues(t', shifted, t.bank) == BankValues(t, shifted, t.bank)
  {
    var t' := AfterBankChange(settings, t, b);
    assert AllValues(t', shifted) == Transferred(settings, shifted, AllValues(t, shifted), t.bank);
    forall e | 0 <= e < PHYSICAL_ENCODERS
      ensures BankValues(t', shifted, t.bank)[e] == BankValues(t, shifted, t.bank)[e]
    {
      ValuesAfterTransfer(settings, shifted, AllValues(t, shifted), t.bank, 16 * t.bank + e);
      assert (16 * t.bank + e) / 16 == t.bank;
      assert BankValues(t', shifted, t.bank)[e] == AllValues(t', shifted)[16 * t.bank + e];
    }
  }

  /** Changing there and back restores the values of the bank exactly when each of its encoders is settled. */
  lemma BanksThereAndBack(settings: AllSettings, t: Tables, b: nat, shifted: bool)
    requires IsTables(t) && b < NUM_BANKS && b != t.bank
    ensures var back := AfterBankChange(settings, AfterBankChange(settings, t, b), t.bank);
      BankValues(back, shifted, t.bank) == BankValues(t, shifted, t.bank)
      <==> forall e: nat :: e < PHYSICAL_ENCODERS ==> Settled(settings, shifted, AllValues(t, shifted), t.bank, b, e)
  {
    var there := AfterBankChange(settings, t, b);
    var back := AfterBankChange(settings, there, t.bank);
    assert AllValues(back, shifted)
        == Transferred(settings, shifted, Transferred(settings, shifted, AllValues(t, shifted), t.bank), b) by {
      LeavingABank(settings, t, b, shifted);
      LeavingABank(settings, there, t.bank, shifted);
    }
    RoundTripExactlyWhen(settings, shifted, AllValues(t, shifted), t.bank, b);
  }

  /** Accepted feedback is stored as 100 times its value and, if the value it is for is the one in use, shown
      as exactly that number; a seven-bit number also reads back. Refused feedback changes nothing. */
  lemma FeedbackIsShown(settings: AllSettings, t: Tables, idx: nat, value: nat, shifted: bool, active: bool)
    requires IsTables(t) && idx < BANKED_ENCODERS && value < 256
    ensures var t' := AfterFeedback(settings, t, idx, value, shifted, active);
      var v := if shifted then idx + BANKED_ENCODERS else idx;
      && (Accepts(settings, t, idx, value, active) ==>
            && t'.raw[v] == 100 * value
            && (value < 128 ==> InRange(t'.raw[v]) && Scaled(t'.raw[v]) == value)
            && (InUse(settings, t', idx) == v ==> t'.indicator[idx] == value))
      && (!Accepts(settings, t, idx, value, active) ==> t' == t)
  {
    if value < 128 {
      FeedbackReadsBack(value);
    }
  }

  /** An absolute movement of an encoder of the current bank: neither detent nor dead zone takes the event. */
  predicate MovesAbsolutely(settings: AllSettings, t: Tables, i: nat)
    requires IsTables(t) && i < PHYSICAL_ENCODERS
  {
    var b := 16 * t.bank + i;
    var raw := t.raw[InUse(settings, t, b)];
    !settings[b].IsRelative() && Movable(raw) && !(settings[b].hasDetent && InDetent(raw))
  }

  /** Over the routine as a whole: turning an encoder up lowers its value in exactly three situations. Inside
      the detent and at the top end a detent counter left over from earlier turns down pushes it out the
      wrong way; elsewhere the 16-bit sum wraps. */
  lemma TurningUpLowersExactlyWhen(settings: AllSettings, t: Tables, i: nat, delta: int, velocity: nat)
    requires IsTables(t) && Bounded(t) && i < PHYSICAL_ENCODERS && 0 < delta < 128
    ensures var b := 16 * t.bank + i;
      var v := InUse(settings, t, b);
      var m := Multiplier(settings[b], IsFine(settings, t, i), velocity);
      AfterRotary(settings, t, i, delta, velocity).raw[v] < t.raw[v]
      <==>
        if settings[b].hasDetent && InDetent(t.raw[v]) then Wrap8(t.counters[i] + delta) < -DETENT_SIZE
        else if settings[b].IsRelative() then false
        else if InDeadZone(t.raw[v]) then t.raw[v] == RAW_MAX && t.counters[i] < -DEAD_ZONE_SIZE
        else t.raw[v] + delta * m >= 0x8000
  {
    var b := 16 * t.bank + i;
    var v := InUse(settings, t, b);
    var m := Multiplier(settings[b], IsFine(settings, t, i), velocity);
    if MovesAbsolutely(settings, t, i) {
      ProductBounds(delta, m);
      MovedIsSaturatedExactlyWhen(t.raw[v], delta, m);
    }
  }

  /** The mirror: turning it down raises its value in exactly two situations, both by a leftover counter. A
      turn down never wraps. */
  lemma TurningDownRaisesExactlyWhen(settings: AllSettings, t: Tables, i: nat, delta: int, velocity: nat)
    requires IsTables(t) && Bounded(t) && i < PHYSICAL_ENCODERS && -128 <= delta < 0
    ensures var b := 16 * t.bank + i;
      var v := InUse(settings, t, b);
      AfterRotary(settings, t, i, delta, velocity).raw[v] > t.raw[v]
      <==>
        if settings[b].hasDetent && InDetent(t.raw[v]) then Wrap8(t.counters[i] + delta) > DETENT_SIZE
        else !settings[b].IsRelative() && t.raw[v] == 0 && t.counters[i] > DEAD_ZONE_SIZE
  {
    var b := 16 * t.bank + i;
    var v := InUse(settings, t, b);
    if MovesAbsolutely(settings, t, i) {
      var m := Multiplier(settings[b], IsFine(settings, t, i), velocity);
      ProductBounds(delta, m);
      MovedIsSaturatedExactlyWhen(t.raw[v], delta, m);
    }
  }

  /** Hence up to 78 ticks a turn up never lowers the value where it is an absolute movement. */
  lemma TurningUpNeverLowers(settings: AllSettings, t: Tables, i: nat, delta: int, velocity: nat)
    requires IsTables(t) && Bounded(t) && i < PHYSICAL_ENCODERS && 0 < delta <= 78
    requires MovesAbsolutely(settings, t, i)
    ensures var v := InUse(settings, t, 16 * t.bank + i);
      AfterRotary(settings, t, i, delta, velocity).raw[v] >= t.raw[v]
  {
    ProductBounds(delta, Multiplier(settings[16 * t.bank + i], IsFine(settings, t, i), velocity));
    TurningUpLowersExactlyWhen(settings, t, i, delta, velocity);
  }

  /** The encoder of the example below: velocity-sensitive, without detent, not relative. */
  predicate IsPlainVelocity(s: EncoderSettings) {
    s.movement == VELOCITY_SENSITIVE_ENC && !s.hasDetent && !s.IsRelative() && s.switchAction == ENC_RESET_VALUE
  }

  lemma PlainTurn(settings: AllSettings, t: Tables, i: nat, delta: int, velocity: nat)
    requires IsTables(t) && i < PHYSICAL_ENCODERS && IsPlainVelocity(settings[16 * t.bank + i])
    requires Movable(t.raw[16 * t.bank + i]) && 25 <= velocity <= 255 && IsInt8(delta) && delta != 0
    ensures var t', b := AfterRotary(settings, t, i, delta, velocity), 16 * t.bank + i;
      t'.bank == t.bank && t'.raw[b] == Moved(t.raw[b], delta, velocity)
  {
  }

  /** At 79 ticks it can drop to zero, by events that do happen: on such an encoder the host sets 126, a slow
      tick follows, then 79 fast ones. The values are 12600, 12625 and 0. */
  lemma SeventyNineTicksDrop(settings: AllSettings, t: Tables, i: nat)
    requires IsTables(t) && i < PHYSICAL_ENCODERS && IsPlainVelocity(settings[16 * t.bank + i])
    ensures var b := 16 * t.bank + i;
      var fed := AfterFeedback(settings, t, b, 126, false, false);
      var slow := AfterRotary(settings, fed, i, 1, 25);
      var fast := AfterRotary(settings, slow, i, 79, 255);
      fed.raw[b] == 12600 && slow.raw[b] == 12625 && fast.raw[b] == 0
  {
    var b := 16 * t.bank + i;
    FeedbackIsShown(settings, t, b, 126, false, false);
    var fed := AfterFeedback(settings, t, b, 126, false, false);
    assert fed.raw[b] == 12600;
    PlainTurn(settings, fed, i, 1, 25);
    var slow := AfterRotary(settings, fed, i, 1, 25);
    assert slow.raw[b] == Moved(12600, 1, 25) == 12625;
    PlainTurn(settings, slow, i, 79, 255);
  }

  /** The encoder of the next example: one step per tick, with a detent, not relative. */
  predicate IsPlainDetent(s: EncoderSettings) {
    s.movement == DIRECT && s.hasDetent && !s.IsRelative() && s.switchAction == ENC_RESET_VALUE
  }

  lemma DetentTurn(settings: AllSettings, t: Tables, i: nat, delta: int)
    requires IsTables(t) && i < PHYSICAL_ENCODERS && IsPlainDetent(settings[16 * t.bank + i])
    requires !InDeadZone(t.raw[16 * t.bank + i]) && IsInt8(delta) && delta != 0
    ensures var t', b := AfterRotary(settings, t, i, delta, 0), 16 * t.bank + i;
      && t'.bank == t.bank
      && t'.raw[b] == (if InDetent(t.raw[b]) then RotatedInDetent(t.raw[b], t.counters[i], delta).raw
                       else Moved(t.raw[b], delta, 100))
      && t'.counters[i] == if InDetent(t.raw[b]) then Wrap8(t.counters[i] + delta) else t.counters[i]
  {
  }

  /** An encoder with a detent that rests in the middle. */
  predicate RestsInTheMiddle(settings: AllSettings, t: Tables, i: nat)
    requires IsTables(t) && i < PHYSICAL_ENCODERS
  {
    IsPlainDetent(settings[16 * t.bank + i]) && t.raw[16 * t.bank + i] == 6300 && t.counters[i] == 0
  }

  /** The leftover counter, too, comes about by events that do happen: from the middle 20 ticks down, one up and
      one up again. The last turn up takes the value from 6340 to 6240. */
  lemma DetentPushesBack(settings: AllSettings, t: Tables, i: nat)
    requires IsTables(t) && i < PHYSICAL_ENCODERS && RestsInTheMiddle(settings, t, i)
    ensures var b := 16 * t.bank + i;
      var down := AfterRotary(settings, t, i, -20, 0);
      var up := AfterRotary(settings, down, i, 1, 0);
      var back := AfterRotary(settings, up, i, 1, 0);
      down.raw[b] == 6240 && up.raw[b] == 6340 && back.raw[b] == 6240
  {
    DetentTurn(settings, t, i, -20);
    var down := AfterRotary(settings, t, i, -20, 0);
    DetentTurn(settings, down, i, 1);
    assert Moved(6240, 1, 100) == 6340;
    DetentTurn(settings, AfterRotary(settings, down, i, 1, 0), i, 1);
  }

  /** And the other way: 20 ticks up, one down and one down again, which takes it from 6350 to 6450. */
  lemma DetentPushesForward(settings: AllSettings, t: Tables, i: nat)
    requires IsTables(t) && i < PHYSICAL_ENCODERS && RestsInTheMiddle(settings, t, i)
    ensures var b := 16 * t.bank + i;
      var up := AfterRotary(settings, t, i, 20, 0);
      var down := AfterRotary(settings, up, i, -1, 0);
      var back := AfterRotary(settings, down, i, -1, 0);
      up.raw[b] == 6450 && down.raw[b] == 6350 && back.raw[b] == 6450
  {
    DetentTurn(settings, t, i, 20);
    var up := AfterRotary(settings, t, i, 20, 0);
    DetentTurn(settings, up, i, -1);
    assert Moved(6450, -1, 100) == 6350;
    DetentTurn(settings, AfterRotary(settings, up, i, -1, 0), i, -1);
  }
}
