/** The encoder tables in RAM and everything that writes raw values (encoders.c). */
module EncoderState {
  import opened EncoderValues
  import opened EncoderBanks
  import opened EncoderRuns

  class Encoders {
    const raw: array<int>              // raw_encoder_value: base values, then shifted values
    const indicator: array<int>        // indicator_value_buffer, by banked index
    const detentCounter: array<int>
    var settings: AllSettings
    var switchState: seq<bool>         // get_enc_switch_state, one flag per encoder
    var toggleState: seq<bool>         // enc_switch_toggle_state, by banked index
    var bank: nat

    ghost predicate Valid()
      reads this
    {
      && raw.Length == 2 * BANKED_ENCODERS && indicator.Length == BANKED_ENCODERS
      && detentCounter.Length == PHYSICAL_ENCODERS
      && raw != indicator && raw != detentCounter && indicator != detentCounter
      && |switchState| == PHYSICAL_ENCODERS && |toggleState| == BANKED_ENCODERS && bank < NUM_BANKS
    }

    /** The tables as one value. */
    ghost function View(): (t: Tables)
      requires Valid()
      reads this, raw, indicator, detentCounter
      ensures IsTables(t)
    {
      Tables(raw[..], indicator[..], detentCounter[..], switchState, toggleState, bank)
    }

    constructor (settings: AllSettings)
      ensures Valid() && Bounded(View()) && fresh(raw) && fresh(indicator) && fresh(detentCounter)
      ensures this.settings == settings && bank == 0
    {
      this.settings := settings;
      raw := new int[2 * BANKED_ENCODERS](_ => 0);
      indicator := new int[BANKED_ENCODERS](_ => 0);
      detentCounter := new int[PHYSICAL_ENCODERS](_ => 0);
      switchState := seq(PHYSICAL_ENCODERS, _ => false);
      toggleState := seq(BANKED_ENCODERS, _ => false);
      bank := 0;
    }

    /** The value part of encoders_init: the middle for encoders with a detent, zero for the others. */
    method InitValues()
      requires Valid()
      modifies raw
      ensures forall i :: 0 <= i < BANKED_ENCODERS ==> raw[i] == if settings[i].hasDetent then 6300 else 0
      ensures forall i :: BANKED_ENCODERS <= i < 2 * BANKED_ENCODERS ==>
                raw[i] == if settings[i - BANKED_ENCODERS].hasDetent then 6300 else 0
    {
      for i := 0 to BANKED_ENCODERS
        invariant forall j :: 0 <= j < i ==> raw[j] == if settings[j].hasDetent then 6300 else 0
        invariant forall j :: BANKED_ENCODERS <= j < i + BANKED_ENCODERS ==>
                    raw[j] == if settings[j - BANKED_ENCODERS].hasDetent then 6300 else 0
      {
        var initial := if settings[i].hasDetent then 6300 else 0;
        raw[i], raw[i + BANKED_ENCODERS] := initial, initial;
      }
    }

    predicate InShiftState(i: nat)
      requires Valid() && i < BANKED_ENCODERS
      reads this
    {
      IsShifted(settings, switchState, toggleState, i)
    }

    function VirtualId(i: nat): nat
      requires Valid() && i < BANKED_ENCODERS
      reads this
    {
      ValueInUse(settings, switchState, toggleState, i)
    }

    // ----- Bank changes

    /** What banked encoder `this_` leaves at `i` once it has been compared with the encoders below `k`: its
        own entry of `values` if `i` was reached and matches, the old entry otherwise. */
    ghost function Given(this_: nat, k: nat, i: nat, shifted: bool, values: seq<int>): int
      requires this_ < BANKED_ENCODERS && i < BANKED_ENCODERS && |values| == BANKED_ENCODERS
      reads this
    {
      if i < k && i / 16 != this_ / 16 && Match(settings, this_, i, shifted) then values[this_] else values[i]
    }

    /** transfer_this_encoder_value_to_other_banks */
    method TransferThis(encoder: nat)
      requires Valid() && encoder < PHYSICAL_ENCODERS
      modifies raw, indicator
      ensures HandedOut(16 * bank + encoder, BANKED_ENCODERS,
                        old(raw[..BANKED_ENCODERS]), old(raw[BANKED_ENCODERS..]), old(indicator[..]))
    {
      ghost var base0, shifted0, indicator0 := raw[..BANKED_ENCODERS], raw[BANKED_ENCODERS..], indicator[..];
      var thisId := 16 * bank + encoder;
      for thatBank := 0 to NUM_BANKS
        invariant HandedOut(thisId, 16 * thatBank, base0, shifted0, indicator0)
      {
        if thatBank != bank {
          CompareWithBank(thisId, thatBank, base0, shifted0, indicator0);
        } else {
          SkipOwnBank(thisId, base0, shifted0, indicator0);
        }
      }
    }

    /** The inner loop. */
    method CompareWithBank(thisId: nat, thatBank: nat,
        ghost base0: seq<int>, ghost shifted0: seq<int>, ghost indicator0: seq<int>)
      requires Valid() && thisId < BANKED_ENCODERS && thatBank < NUM_BANKS && thatBank != thisId / 16
      requires |base0| == |shifted0| == |indicator0| == BANKED_ENCODERS
      requires HandedOut(thisId, 16 * thatBank, base0, shifted0, indicator0)
      modifies raw, indicator
      ensures HandedOut(thisId, 16 * (thatBank + 1), base0, shifted0, indicator0)
    {
      for thatEncoder := 0 to PHYSICAL_ENCODERS
        invariant HandedOut(thisId, 16 * thatBank + thatEncoder, base0, shifted0, indicator0)
      {
        CompareWith(thisId, 16 * thatBank + thatEncoder, base0, shifted0, indicator0);
      }
    }

    /** One turn of the inner loop. */
    method CompareWith(thisId: nat, thatId: nat, ghost base0: seq<int>, ghost shifted0: seq<int>,
        ghost indicator0: seq<int>)
      requires Valid() && thisId < BANKED_ENCODERS && thatId < BANKED_ENCODERS && thatId / 16 != thisId / 16
      requires |base0| == |shifted0| == |indicator0| == BANKED_ENCODERS
      requires HandedOut(thisId, thatId, base0, shifted0, indicator0)
      modifies raw, indicator
      ensures HandedOut(thisId, thatId + 1, base0, shifted0, indicator0)
    {
      assert raw[thisId + BANKED_ENCODERS] == shifted0[thisId];
      assert raw[thatId + BANKED_ENCODERS] == shifted0[thatId];
      HandOver(thisId, thatId);
    }

    /** The encoder's own bank is passed over. */
    lemma SkipOwnBank(thisId: nat, base0: seq<int>, shifted0: seq<int>, indicator0: seq<int>)
      requires Valid() && thisId < BANKED_ENCODERS
      requires |base0| == |shifted0| == |indicator0| == BANKED_ENCODERS
      requires HandedOut(thisId, 16 * (thisId / 16), base0, shifted0, indicator0)
      ensures HandedOut(thisId, 16 * (thisId / 16 + 1), base0, shifted0, indicator0)
    {
    }

    /** The tables once encoder `this_` has been compared with the banked encoders below `k`. */
    ghost predicate HandedOut(this_: nat, k: nat, base0: seq<int>, shifted0: seq<int>, indicator0: seq<int>)
      requires Valid() && this_ < BANKED_ENCODERS
      requires |base0| == |shifted0| == |indicator0| == BANKED_ENCODERS
      reads this, raw, indicator
    {
      && (forall i :: 0 <= i < BANKED_ENCODERS ==> raw[i] == Given(this_, k, i, false, base0))
      && (forall i :: BANKED_ENCODERS <= i < 2 * BANKED_ENCODERS ==>
            raw[i] == Given(this_, k, i - BANKED_ENCODERS, true, shifted0))
      && (forall i :: 0 <= i < BANKED_ENCODERS ==> indicator[i] == Given(this_, k, i, InShiftState(i), indicator0))
    }

    /** The body of the inner loop. */
    method HandOver(thisId: nat, thatId: nat)
      requires Valid() && thisId < BANKED_ENCODERS && thatId < BANKED_ENCODERS && thatId != thisId
      modifies raw, indicator
      ensures forall i :: 0 <= i < 2 * BANKED_ENCODERS && i != thatId && i != thatId + BANKED_ENCODERS ==>
                raw[i] == old(raw[i])
      ensures forall i :: 0 <= i < BANKED_ENCODERS && i != thatId ==> indicator[i] == old(indicator[i])
      ensures raw[thatId] == if Match(settings, thisId, thatId, false) then old(raw[thisId]) else old(raw[thatId])
      ensures raw[thatId + BANKED_ENCODERS] == if Match(settings, thisId, thatId, true)
                then old(raw[thisId + BANKED_ENCODERS]) else old(raw[thatId + BANKED_ENCODERS])
      ensures indicator[thatId] == if Match(settings, thisId, thatId, InShiftState(thatId))
                then old(indicator[thisId]) else old(indicator[thatId])
    {
      if EncoderMapsMatch(settings[thisId], settings[thatId]) {
        var currentShiftState := InShiftState(thatId);
        if settings[thisId].midiChannel == settings[thatId].midiChannel {
          raw[thatId] := raw[thisId];
          if !currentShiftState {
            indicator[thatId] := indicator[thisId];
          }
        }
        if settings[thisId].shiftMidiChannel == settings[thatId].shiftMidiChannel {
          raw[thatId + BANKED_ENCODERS] := raw[thisId + BANKED_ENCODERS];
          if currentShiftState {
            indicator[thatId] := indicator[thisId];
          }
        }
      }
    }

    /** transfer_encoder_values_to_other_banks */
    method TransferAll()
      requires Valid()
      modifies raw, indicator
      ensures AllHanded(PHYSICAL_ENCODERS, old(raw[..BANKED_ENCODERS]), old(raw[BANKED_ENCODERS..]), old(indicator[..]))
    {
      NothingHandedYet();
      TransferEach(raw[..BANKED_ENCODERS], raw[BANKED_ENCODERS..], indicator[..]);
    }

    /** Its loop. */
    method TransferEach(ghost base0: seq<int>, ghost shifted0: seq<int>, ghost indicator0: seq<int>)
      requires Valid() && |base0| == |shifted0| == |indicator0| == BANKED_ENCODERS
      requires AllHanded(0, base0, shifted0, indicator0)
      modifies raw, indicator
      ensures AllHanded(PHYSICAL_ENCODERS, base0, shifted0, indicator0)
    {
      for e := 0 to PHYSICAL_ENCODERS
        invariant AllHanded(e, base0, shifted0, indicator0)
      {
        TransferNext(e, base0, shifted0, indicator0);
      }
    }

    /** The turn of encoder `e`. */
    method TransferNext(e: nat, ghost base0: seq<int>, ghost shifted0: seq<int>, ghost indicator0: seq<int>)
      requires Valid() && e < PHYSICAL_ENCODERS
      requires |base0| == |shifted0| == |indicator0| == BANKED_ENCODERS
      requires AllHanded(e, base0, shifted0, indicator0)
      modifies raw, indicator
      ensures AllHanded(e + 1, base0, shifted0, indicator0)
    {
      ghost var base, shifted, shown := raw[..BANKED_ENCODERS], raw[BANKED_ENCODERS..], indicator[..];
      TransferThis(e);
      HandedSteps(false, base0, base, e, 16 * bank + e);
      HandedSteps(true, shifted0, shifted, e, 16 * bank + e);
      forall i | 0 <= i < BANKED_ENCODERS
        ensures indicator[i] == Handed(settings, InShiftState(i), indicator0, bank, i, e + 1)
      {
        HandedStep(InShiftState(i), indicator0, shown, e, i);
      }
    }

    lemma NothingHandedYet()
      requires Valid()
      ensures AllHanded(0, raw[..BANKED_ENCODERS], raw[BANKED_ENCODERS..], indicator[..])
    {
    }

    /** The tables once the first `n` encoders of the current bank have handed out their values. */
    ghost predicate AllHanded(n: nat, base0: seq<int>, shifted0: seq<int>, indicator0: seq<int>)
      requires Valid() && n <= PHYSICAL_ENCODERS
      requires |base0| == |shifted0| == |indicator0| == BANKED_ENCODERS
      reads this, raw, indicator
    {
      && (forall i :: 0 <= i < BANKED_ENCODERS ==> raw[i] == Handed(settings, false, base0, bank, i, n))
      && (forall i :: BANKED_ENCODERS <= i < 2 * BANKED_ENCODERS ==>
            raw[i] == Handed(settings, true, shifted0, bank, i - BANKED_ENCODERS, n))
      && (forall i :: 0 <= i < BANKED_ENCODERS ==>
            indicator[i] == Handed(settings, InShiftState(i), indicator0, bank, i, n))
    }

    lemma HandedStep(shifted: bool, values0: seq<int>, values: seq<int>, e: nat, i: nat)
      requires Valid() && e < PHYSICAL_ENCODERS && i < BANKED_ENCODERS
      requires |values0| == |values| == BANKED_ENCODERS
      requires values[i] == Handed(settings, shifted, values0, bank, i, e)
      requires values[16 * bank + e] == values0[16 * bank + e]
      ensures Given(16 * bank + e, BANKED_ENCODERS, i, shifted, values)
           == Handed(settings, shifted, values0, bank, i, e + 1)
    {
      assert (16 * bank + e) / 16 == bank;
    }

    lemma HandedSteps(shifted: bool, values0: seq<int>, values: seq<int>, e: nat, thisId: nat)
      requires Valid() && e < PHYSICAL_ENCODERS && thisId == 16 * bank + e
      requires |values0| == |values| == BANKED_ENCODERS
      requires forall i :: 0 <= i < BANKED_ENCODERS ==> values[i] == Handed(settings, shifted, values0, bank, i, e)
      ensures forall i :: 0 <= i < BANKED_ENCODERS ==>
                Given(thisId, BANKED_ENCODERS, i, shifted, values) == Handed(settings, shifted, values0, bank, i, e + 1)
    {
      assert Handed(settings, shifted, values0, bank, thisId, e) == values0[thisId];
      forall i | 0 <= i < BANKED_ENCODERS
        ensures Given(thisId, BANKED_ENCODERS, i, shifted, values) == Handed(settings, shifted, values0, bank, i, e + 1)
      {
        HandedStep(shifted, values0, values, e, i);
      }
    }

    /** change_encoder_bank */
    method ChangeEncoderBank(newBank: nat)
      requires Valid() && newBank < NUM_BANKS
      modifies this`bank, raw, indicator
      ensures Valid() && View() == AfterBankChange(settings, old(View()), newBank)
    {
      ghost var t := View();
      TransferAll();
      ShowBanks(newBank);
      bank := newBank;
      ghost var t' := AfterBankChange(settings, t, newBank);
      assert raw[..] == t'.raw;
      forall i | 0 <= i < BANKED_ENCODERS ensures indicator[i] == t'.indicator[i] {
        assert VirtualId(i) == InUse(settings, t, i);
      }
      assert indicator[..] == t'.indicator;
    }

    /** The loop of change_encoder_bank: the displays of the old and the new bank. */
    method ShowBanks(newBank: nat)
      requires Valid() && newBank < NUM_BANKS
      modifies indicator
      ensures forall i :: 0 <= i < BANKED_ENCODERS ==>
                indicator[i] == if i / 16 == bank || i / 16 == newBank then raw[VirtualId(i)] / 100
                                else old(indicator[i])
    {
      for i := 0 to PHYSICAL_ENCODERS
        invariant forall j :: 0 <= j < BANKED_ENCODERS ==>
                    indicator[j] == if (j / 16 == bank || j / 16 == newBank) && j % 16 < i then raw[VirtualId(j)] / 100
                                    else old(indicator[j])
      {
        ShowOne(16 * bank + i);
        ShowOne(16 * newBank + i);
      }
    }

    method ShowOne(i: nat)
      requires Valid() && i < BANKED_ENCODERS
      modifies indicator
      ensures indicator[i] == raw[VirtualId(i)] / 100
      ensures forall j :: 0 <= j < BANKED_ENCODERS && j != i ==> indicator[j] == old(indicator[j])
    {
      indicator[i] := raw[VirtualId(i)] / 100;
    }

    // ----- Movement, switches and host feedback

    /** process_encoder_input_rotary_detent */
    method RotaryDetent(i: nat, v: nat, delta: int) returns (handled: bool)
      requires Valid() && i < PHYSICAL_ENCODERS && v < 2 * BANKED_ENCODERS
      modifies raw, indicator, detentCounter
      ensures handled <==> settings[16 * bank + i].hasDetent && InDetent(old(raw[v]))
      ensures !handled ==> View() == old(View())
      ensures handled ==>
                View() == HasRotated(old(View()), i, v, RotatedInDetent(old(raw[v]), old(detentCounter[i]), delta))
    {
      if !settings[16 * bank + i].hasDetent {
        return false;
      } else if !InDetent(raw[v]) {
        return false;
      }
      detentCounter[i] := Wrap8(detentCounter[i] + delta);
      if detentCounter[i] > DETENT_SIZE {
        raw[v] := DETENT_HIGH;
      } else if detentCounter[i] < -DETENT_SIZE {
        raw[v] := DETENT_LOW;
      } else {
        indicator[16 * bank + i] := 63;
      }
      return true;
    }

    /** process_encoder_input_rotary_deadzone */
    method RotaryDeadZone(i: nat, v: nat, delta: int) returns (handled: bool)
      requires Valid() && i < PHYSICAL_ENCODERS && v < 2 * BANKED_ENCODERS
      modifies raw, detentCounter
      ensures handled <==> !settings[16 * bank + i].IsRelative() && InDeadZone(old(raw[v]))
      ensures !handled ==> View() == old(View())
      ensures handled ==>
                View() == HasRotated(old(View()), i, v, RotatedInDeadZone(old(raw[v]), old(detentCounter[i]), delta))
    {
      if settings[16 * bank + i].IsRelative() {
        return false;
      } else if !InDeadZone(raw[v]) {
        return false;
      }
      if (raw[v] < 100 && delta > 0) || (raw[v] > 12600 && delta < 0) {
        detentCounter[i] := Wrap8(detentCounter[i] + delta);
      }
      if detentCounter[i] > DEAD_ZONE_SIZE && raw[v] < 100 {
        raw[v] := 100;
        detentCounter[i] := 0;
      } else if detentCounter[i] < -DEAD_ZONE_SIZE && raw[v] > 12600 {
        raw[v] := 12600;
        detentCounter[i] := 0;
      }
      return true;
    }

    /** process_encoder_input_rotary_absolute; `sent` is the value that goes out. */
    method RotaryAbsolute(i: nat, v: nat, delta: int, velocity: nat) returns (sent: int)
      requires Valid() && i < PHYSICAL_ENCODERS && v < 2 * BANKED_ENCODERS
      modifies raw, indicator
      ensures var m := Multiplier(settings[16 * bank + i], IsFine(settings, old(View()), i), velocity);
        var moved := Moved(old(raw[v]), delta, m);
        && sent == Scaled(moved) && 0 <= sent <= 127
        && View() == HasRotated(old(View()), i, v, Rotated(moved, old(detentCounter[i]), sent))
    {
      var s := settings[16 * bank + i];
      var multiplier := Multiplier(s, s.switchAction == ENC_FINE_ADJUST && switchState[i], velocity);
      raw[v] := Moved(raw[v], delta, multiplier);
      sent := Scaled(raw[v]);
      ScaledIsSevenBit(raw[v]);
      indicator[16 * bank + i] := sent;
    }

    /** process_encoder_input_rotary for encoder `i` of the current bank, which has moved by `delta`. */
    method ProcessRotary(i: nat, delta: int, velocity: nat)
      requires Valid() && i < PHYSICAL_ENCODERS
      modifies raw, indicator, detentCounter
      ensures Valid() && View() == AfterRotary(settings, old(View()), i, delta, velocity)
    {
      var v := VirtualId(16 * bank + i);
      var inDetent := RotaryDetent(i, v, delta);
      if !inDetent {
        var inDeadZone := RotaryDeadZone(i, v, delta);
        if !inDeadZone {
          if settings[16 * bank + i].IsRelative() {
            // a relative message goes out; the stored value is not touched
          } else {
            var _ := RotaryAbsolute(i, v, delta, velocity);
          }
        }
      }
    }

    /** The actions of process_encoder_input_switch that touch the value or its display, for a switch of the
        current bank that went down (`pressed`) or up. */
    method ProcessSwitch(i: nat, pressed: bool)
      requires Valid() && i < PHYSICAL_ENCODERS
      modifies this`toggleState, raw, indicator, detentCounter
      ensures Valid() && View() == AfterSwitch(settings, old(View()), i, pressed)
    {
      var b := 16 * bank + i;
      var v := VirtualId(b);
      if settings[b].switchAction == ENC_RESET_VALUE {
        raw[v] := if settings[b].hasDetent then 6300 else 0;
        detentCounter[i] := 0;
        indicator[b] := Scaled(raw[v]);
      } else if settings[b].switchAction == ENC_RESET_VALUE_INV {
        raw[v] := if settings[b].hasDetent then 6300 else RAW_MAX;
        detentCounter[i] := 0;
        indicator[b] := Scaled(raw[v]);
      } else if settings[b].switchAction == ENC_SHIFT_HOLD {
        indicator[b] := raw[v] / 100;
      } else if settings[b].switchAction == ENC_SHIFT_TOGGLE {
        if pressed {
          toggleState := toggleState[b := !toggleState[b]];
          v := VirtualId(b);
          indicator[b] := raw[v] / 100;
        }
      }
    }

    /** process_indicator_update */
    method ProcessIndicatorUpdate(idx: nat, value: nat, shifted: bool, active: bool)
      requires Valid() && idx < BANKED_ENCODERS && value < 256
      modifies raw, indicator
      ensures Valid() && View() == AfterFeedback(settings, old(View()), idx, value, shifted, active)
    {
      if settings[idx].hasDetent && value == 0 {
        return;
      }
      var v := if shifted then idx + BANKED_ENCODERS else idx;
      if idx / 16 == bank {
        if !active || settings[idx].IsRelative() {
          raw[v] := value * 100;
          if InShiftState(idx) == shifted {
            indicator[idx] := value;
          }
        }
      } else {
        raw[v] := value * 100;
        if InShiftState(idx) == shifted {
          indicator[idx] := value;
        }
      }
    }

    method SetSwitches(down: seq<bool>)
      requires Valid() && |down| == PHYSICAL_ENCODERS
      modifies this`switchState
      ensures Valid() && View() == old(View()).(switches := down)
    {
      switchState := down;
    }

    /** One event of a run. */
    method HandleEvent(e: Event)
      requires Valid() && IsEvent(e)
      modifies this`bank, this`switchState, this`toggleState, raw, indicator, detentCounter
      ensures Valid() && View() == Next(settings, old(View()), e)
    {
      match e
      case Rotary(encoder, delta, velocity) => ProcessRotary(encoder, delta, velocity);
      case Switches(down) => SetSwitches(down);
      case SwitchEdge(encoder, pressed) => ProcessSwitch(encoder, pressed);
      case Feedback(index, value, shifted, active) => ProcessIndicatorUpdate(index, value, shifted, active);
      case ChangeBank(newBank) => ChangeEncoderBank(newBank);
    }

    /** Any run of events takes the tables where the specification says; legal ones keep them within bounds. */
    method Run(events: seq<Event>)
      requires Valid() && AreEvents(events)
      modifies this`bank, this`switchState, this`toggleState, raw, indicator, detentCounter
      ensures Valid() && View() == Ran(settings, old(View()), events)
      ensures old(Bounded(View())) && AreLegal(events) ==> Bounded(View())
    {
      ghost var t := View();
      for k := 0 to |events|
        invariant Valid() && View() == Ran(settings, t, events[..k])
      {
        RanOneMore(settings, t, events[..k], events[k]);
        assert events[..k] + [events[k]] == events[..k + 1];
        HandleEvent(events[k]);
      }
      assert events[..|events|] == events;
      if Bounded(t) && AreLegal(events) {
        LegalRunsStayBounded(settings, t, events);
      }
    }
  }
}
