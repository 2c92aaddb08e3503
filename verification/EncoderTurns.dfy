/** What the encoders do for the player, read off the tables before and after each event: turns, end zones and
    detents, switches, host feedback and displays. */
module EncoderTurns {
  import opened EncoderValues
  import opened EncoderBanks
  import opened EncoderRuns

  // ----- What a turn does, case by case

  /** Encoder `i` of the current bank holds `raw` and its detent counter `counter`. */
  predicate At(settings: AllSettings, t: Tables, i: nat, raw: int, counter: int)
    requires IsTables(t) && i < PHYSICAL_ENCODERS
  {
    t.raw[InUse(settings, t, 16 * t.bank + i)] == raw && t.counters[i] == counter
  }

  /** `t'` is `t` but for the counter of encoder `i`. */
  predicate OnlyCounts(t: Tables, t': Tables, i: nat, counter: int)
    requires IsTables(t) && i < PHYSICAL_ENCODERS
  {
    t' == t.(counters := t.counters[i := counter])
  }

  /** `t'` is `t` but for value `v`, which moved to `raw`, and the counter of encoder `i`, which is 0 again. */
  predicate Leaves(t: Tables, t': Tables, i: nat, v: nat, raw: int)
    requires IsTables(t) && i < PHYSICAL_ENCODERS && v < 2 * BANKED_ENCODERS
  {
    t' == t.(raw := t.raw[v := raw], counters := t.counters[i := 0])
  }

  /** Counters are eight bits wide. */
  function InEightBits(n: int): int {
    if n >= 128 then n - 256 else if n < -128 then n + 256 else n
  }

  /** At the bottom end: a turn down changes nothing. A turn up is counted, and as soon as the count exceeds 2 the
      value is 100. */
  lemma LeavingTheBottom(settings: AllSettings, t: Tables, i: nat, counter: int, delta: int, velocity: nat)
    requires IsTables(t) && i < PHYSICAL_ENCODERS && settings[16 * t.bank + i].midiType !in {2, 4, 5}
    requires At(settings, t, i, 0, counter) && IsInt8(counter) && IsInt8(delta) && delta != 0
    ensures var t', v := AfterRotary(settings, t, i, delta, velocity), InUse(settings, t, 16 * t.bank + i);
      var c := if delta > 0 then InEightBits(counter + delta) else counter;
      if c > 2 then Leaves(t, t', i, v, 100) else OnlyCounts(t, t', i, c)
  {
    var v := InUse(settings, t, 16 * t.bank + i);
    assert t.raw[v := 0] == t.raw && t.counters[i := counter] == t.counters;
  }

  /** The mirror at the top end, and beyond it, where feedback above 127 may have put the value. */
  lemma LeavingTheTop(settings: AllSettings, t: Tables, i: nat, raw: int, counter: int, delta: int, velocity: nat)
    requires IsTables(t) && i < PHYSICAL_ENCODERS && settings[16 * t.bank + i].midiType !in {2, 4, 5}
    requires At(settings, t, i, raw, counter) && 12700 <= raw && IsInt8(counter) && IsInt8(delta) && delta != 0
    ensures var t', v := AfterRotary(settings, t, i, delta, velocity), InUse(settings, t, 16 * t.bank + i);
      var c := if delta < 0 then InEightBits(counter + delta) else counter;
      if c < -2 then Leaves(t, t', i, v, 12600) else OnlyCounts(t, t', i, c)
  {
    var v := InUse(settings, t, 16 * t.bank + i);
    assert t.raw[v := raw] == t.raw && t.counters[i := counter] == t.counters;
  }

  /** A turn of encoder `i` by these amounts, one after the other. */
  function Turned(settings: AllSettings, t: Tables, i: nat, deltas: seq<int>, velocity: nat): (t': Tables)
    requires IsTables(t) && i < PHYSICAL_ENCODERS
    ensures IsTables(t')
    decreases |deltas|
  {
    if deltas == [] then t
    else Turned(settings, AfterRotary(settings, t, i, deltas[0], velocity), i, deltas[1..], velocity)
  }

  function TicksUp(deltas: seq<int>): int {
    if deltas == [] then 0 else (if deltas[0] > 0 then deltas[0] else 0) + TicksUp(deltas[1..])
  }

  function TicksDown(deltas: seq<int>): int {
    if deltas == [] then 0 else (if deltas[0] < 0 then -deltas[0] else 0) + TicksDown(deltas[1..])
  }

  lemma {:induction false} TicksAreCounted(deltas: seq<int>)
    ensures TicksUp(deltas) >= 0 && TicksDown(deltas) >= 0
  {
    if deltas != [] {
      TicksAreCounted(deltas[1..]);
    }
  }

  predicate AreTurns(deltas: seq<int>) {
    forall k :: 0 <= k < |deltas| ==> IsInt8(deltas[k]) && deltas[k] != 0
  }

  /** Turns down and at most two ticks up leave an encoder at the bottom end. */
  lemma {:induction false} StaysAtTheBottom(settings: AllSettings, t: Tables, i: nat, counter: int,
      deltas: seq<int>, velocity: nat)
    requires IsTables(t) && i < PHYSICAL_ENCODERS && !settings[16 * t.bank + i].IsRelative()
    requires At(settings, t, i, 0, counter) && 0 <= counter && AreTurns(deltas) && counter + TicksUp(deltas) <= 2
    ensures OnlyCounts(t, Turned(settings, t, i, deltas, velocity), i, counter + TicksUp(deltas))
    decreases |deltas|
  {
    if deltas == [] {
      assert t.counters[i := counter] == t.counters;
    } else {
      TicksAreCounted(deltas[1..]);
      LeavingTheBottom(settings, t, i, counter, deltas[0], velocity);
      var counter' := if deltas[0] > 0 then counter + deltas[0] else counter;
      OnlyCountsAgain(t, AfterRotary(settings, t, i, deltas[0], velocity), i, counter');
      StaysAtTheBottom(settings, AfterRotary(settings, t, i, deltas[0], velocity), i, counter', deltas[1..], velocity);
    }
  }

  lemma {:induction false} StaysAtTheTop(settings: AllSettings, t: Tables, i: nat, counter: int,
      deltas: seq<int>, velocity: nat)
    requires IsTables(t) && i < PHYSICAL_ENCODERS && !settings[16 * t.bank + i].IsRelative()
    requires At(settings, t, i, 12700, counter) && counter <= 0 && AreTurns(deltas) && TicksDown(deltas) - counter <= 2
    ensures OnlyCounts(t, Turned(settings, t, i, deltas, velocity), i, counter - TicksDown(deltas))
    decreases |deltas|
  {
    if deltas == [] {
      assert t.counters[i := counter] == t.counters;
    } else {
      TicksAreCounted(deltas[1..]);
      LeavingTheTop(settings, t, i, 12700, counter, deltas[0], velocity);
      var counter' := if deltas[0] < 0 then counter + deltas[0] else counter;
      OnlyCountsAgain(t, AfterRotary(settings, t, i, deltas[0], velocity), i, counter');
      StaysAtTheTop(settings, AfterRotary(settings, t, i, deltas[0], velocity), i, counter', deltas[1..], velocity);
    }
  }

  lemma OnlyCountsAgain(t: Tables, t': Tables, i: nat, counter: int)
    requires IsTables(t) && i < PHYSICAL_ENCODERS
    requires (t' == t && t.counters[i] == counter) || OnlyCounts(t, t', i, counter)
    ensures IsTables(t') && OnlyCounts(t, t', i, counter)
    ensures forall t'', c :: OnlyCounts(t', t'', i, c) ==> OnlyCounts(t, t'', i, c)
  {
    assert t.counters[i := counter] == t'.counters;
    forall t'', c | OnlyCounts(t', t'', i, c) ensures OnlyCounts(t, t'', i, c) {
      assert t'.counters[i := c] == t.counters[i := c];
    }
  }

  /** Over whole turns: from the bottom end, counter at 0, the value stays for any ticks down and up to two ticks
      up; the third tick up takes it to 100, wherever it falls in a turn, and clears the counter. */
  lemma ThirdTickLeavesTheBottom(settings: AllSettings, t: Tables, i: nat, deltas: seq<int>, last: int, velocity: nat)
    requires IsTables(t) && i < PHYSICAL_ENCODERS && !settings[16 * t.bank + i].IsRelative()
    requires At(settings, t, i, 0, 0) && AreTurns(deltas)
    requires 0 < last && TicksUp(deltas) <= 2 < TicksUp(deltas) + last < 128
    ensures var t' := Turned(settings, t, i, deltas, velocity);
      && t'.raw == t.raw
      && Leaves(t, AfterRotary(settings, t', i, last, velocity), i, InUse(settings, t, 16 * t.bank + i), 100)
  {
    TicksAreCounted(deltas);
    StaysAtTheBottom(settings, t, i, 0, deltas, velocity);
    var t', up := Turned(settings, t, i, deltas, velocity), TicksUp(deltas);
    LeavingTheBottom(settings, t', i, up, last, velocity);
    assert t.counters[i := up][i := 0] == t.counters[i := 0];
  }

  /** But 126 ticks at once, on top of two counted, wrap the counter instead: the encoder stays at the bottom end, and
      126 more do not move it either. */
  lemma ManyTicksDoNotLeave(settings: AllSettings, t: Tables, i: nat, velocity: nat)
    requires IsTables(t) && i < PHYSICAL_ENCODERS && settings[16 * t.bank + i].midiType !in {2, 4, 5}
    requires At(settings, t, i, 0, 2)
    ensures var once := AfterRotary(settings, t, i, 126, velocity);
      At(settings, once, i, 0, -128) && At(settings, AfterRotary(settings, once, i, 126, velocity), i, 0, -2)
  {
    LeavingTheBottom(settings, t, i, 2, 126, velocity);
    LeavingTheBottom(settings, AfterRotary(settings, t, i, 126, velocity), i, -128, 126, velocity);
  }

  /** And from the top end the third tick down takes it to 12600. */
  lemma ThirdTickLeavesTheTop(settings: AllSettings, t: Tables, i: nat, deltas: seq<int>, last: int, velocity: nat)
    requires IsTables(t) && i < PHYSICAL_ENCODERS && !settings[16 * t.bank + i].IsRelative()
    requires At(settings, t, i, 12700, 0) && AreTurns(deltas)
    requires last < 0 && TicksDown(deltas) <= 2 < TicksDown(deltas) - last <= 128
    ensures var t' := Turned(settings, t, i, deltas, velocity);
      && t'.raw == t.raw
      && Leaves(t, AfterRotary(settings, t', i, last, velocity), i, InUse(settings, t, 16 * t.bank + i), 12600)
  {
    TicksAreCounted(deltas);
    StaysAtTheTop(settings, t, i, 0, deltas, velocity);
    var t', down := Turned(settings, t, i, deltas, velocity), TicksDown(deltas);
    LeavingTheTop(settings, t', i, 12700, -down, last, velocity);
    assert t.counters[i := -down][i := 0] == t.counters[i := 0];
  }

  /** Inside the detent the value holds and the middle is shown while the count stays within eight ticks of 0;
      beyond, the value goes to the edge of the detent on that side and the count is kept. */
  lemma LeavingTheDetent(settings: AllSettings, t: Tables, i: nat, raw: int, counter: int, delta: int, velocity: nat)
    requires IsTables(t) && i < PHYSICAL_ENCODERS && settings[16 * t.bank + i].hasDetent
    requires At(settings, t, i, raw, counter) && 6240 < raw < 6450 && IsInt8(counter) && IsInt8(delta)
    ensures var t', b := AfterRotary(settings, t, i, delta, velocity), 16 * t.bank + i;
      var v, c := InUse(settings, t, b), InEightBits(counter + delta);
      if -8 <= c <= 8 then t' == t.(counters := t.counters[i := c], indicator := t.indicator[b := 63])
      else t' == t.(counters := t.counters[i := c], raw := t.raw[v := if c > 8 then 6450 else 6240])
  {
    var v := InUse(settings, t, 16 * t.bank + i);
    assert t.raw[v := raw] == t.raw;
  }

  predicate StaysWithinEight(counter: int, deltas: seq<int>)
    decreases |deltas|
  {
    -8 <= counter <= 8 && (deltas == [] || StaysWithinEight(counter + deltas[0], deltas[1..]))
  }

  function Sum(deltas: seq<int>): int {
    if deltas == [] then 0 else deltas[0] + Sum(deltas[1..])
  }

  /** `t'` is `t` but for the counter of encoder `i` and its display, which shows the middle. */
  predicate OnlyCountsInDetent(t: Tables, t': Tables, i: nat, counter: int)
    requires IsTables(t) && i < PHYSICAL_ENCODERS
  {
    t' == t.(counters := t.counters[i := counter], indicator := t.indicator[16 * t.bank + i := 63])
  }

  lemma OnlyCountsOnInDetent(t: Tables, t': Tables, t'': Tables, i: nat, c: int, c': int)
    requires IsTables(t) && i < PHYSICAL_ENCODERS && OnlyCountsInDetent(t, t', i, c)
    requires IsTables(t') && OnlyCountsInDetent(t', t'', i, c')
    ensures OnlyCountsInDetent(t, t'', i, c')
  {
    assert t'.counters[i := c'] == t.counters[i := c'];
    assert t'.indicator[16 * t.bank + i := 63] == t.indicator[16 * t.bank + i := 63];
  }

  /** Over whole turns, to and fro: as long as the ticks since the count was 0 never add up to more than eight
      either way, the value does not move. */
  lemma {:induction false} StaysInTheDetent(settings: AllSettings, t: Tables, i: nat, raw: int, counter: int,
      deltas: seq<int>, velocity: nat)
    requires IsTables(t) && i < PHYSICAL_ENCODERS && settings[16 * t.bank + i].hasDetent && deltas != []
    requires At(settings, t, i, raw, counter) && 6240 < raw < 6450
    requires AreTurns(deltas) && StaysWithinEight(counter, deltas)
    ensures OnlyCountsInDetent(t, Turned(settings, t, i, deltas, velocity), i, counter + Sum(deltas))
    decreases |deltas|
  {
    var next, rest := AfterRotary(settings, t, i, deltas[0], velocity), deltas[1..];
    LeavingTheDetent(settings, t, i, raw, counter, deltas[0], velocity);
    assert OnlyCountsInDetent(t, next, i, counter + deltas[0]);
    if rest != [] {
      StaysInTheDetent(settings, next, i, raw, counter + deltas[0], rest, velocity);
      var end := Turned(settings, next, i, rest, velocity);
      OnlyCountsOnInDetent(t, next, end, i, counter + deltas[0], counter + Sum(deltas));
    } else {
      assert Turned(settings, next, i, rest, velocity) == next && Sum(deltas) == deltas[0] + Sum(rest);
    }
  }

  /** `t'` is `t` but for the value in use of encoder `i`, which has moved by `change` as far as the ends allow,
      and its display, which shows the value rounded to the nearest of the 128 steps. A sum that leaves 16
      bits ends at 0. */
  predicate HasMovedBy(settings: AllSettings, t: Tables, t': Tables, i: nat, change: int)
    requires IsTables(t) && IsTables(t') && i < PHYSICAL_ENCODERS
  {
    var b := 16 * t.bank + i;
    var v := InUse(settings, t, b);
    var sum, raw, shown := t.raw[v] + change, t'.raw[v], t'.indicator[b];
    && t' == t.(raw := t.raw[v := raw], indicator := t.indicator[b := shown])
    && (0 <= sum <= 12700 ==> raw == sum)
    && (sum < 0 || sum >= 0x8000 ==> raw == 0)
    && (12700 < sum < 0x8000 ==> raw == 12700)
    && 100 * shown - 50 <= raw < 100 * shown + 50
  }

  /** What a tick is worth outside detent and end zones: a whole step of the controller, a quarter of one while a
      fine-adjust switch is held, 1.78 steps for the quick setting, and between a quarter and 2.55 steps for
      the velocity-sensitive one. */
  lemma TicksMove(settings: AllSettings, t: Tables, i: nat, delta: int, velocity: nat)
    requires IsTables(t) && i < PHYSICAL_ENCODERS && IsInt8(delta) && MovesAbsolutely(settings, t, i)
    ensures var t', s := AfterRotary(settings, t, i, delta, velocity), settings[16 * t.bank + i];
      var fine := s.switchAction == 6 && t.switches[i];
      && (fine ==> HasMovedBy(settings, t, t', i, 25 * delta))
      && (!fine && s.movement == 0 ==> HasMovedBy(settings, t, t', i, 100 * delta))
      && (!fine && s.movement != 0 && s.movement != 2 ==> HasMovedBy(settings, t, t', i, 178 * delta))
      && (!fine && s.movement == 2 && velocity < 25 ==> HasMovedBy(settings, t, t', i, 25 * delta))
      && (!fine && s.movement == 2 && 25 <= velocity <= 255 ==> HasMovedBy(settings, t, t', i, velocity * delta))
      && (!fine && s.movement == 2 && velocity > 255 ==> HasMovedBy(settings, t, t', i, 255 * delta))
  {
    MovesByTheMultiplier(settings, t, i, delta, velocity);
  }

  lemma MovesByTheMultiplier(settings: AllSettings, t: Tables, i: nat, delta: int, velocity: nat)
    requires IsTables(t) && i < PHYSICAL_ENCODERS && IsInt8(delta) && MovesAbsolutely(settings, t, i)
    ensures var m := Multiplier(settings[16 * t.bank + i], IsFine(settings, t, i), velocity);
      HasMovedBy(settings, t, AfterRotary(settings, t, i, delta, velocity), i, m * delta)
  {
    var m := Multiplier(settings[16 * t.bank + i], IsFine(settings, t, i), velocity);
    var raw := t.raw[InUse(settings, t, 16 * t.bank + i)];
    ProductBounds(delta, m);
    SumInSixteenBits(raw, delta * m);
    RoundsToTheNearest(Moved(raw, delta, m));
    assert t.counters[i := t.counters[i]] == t.counters;
  }

  lemma RoundsToTheNearest(raw: int)
    requires InRange(raw)
    ensures 100 * Scaled(raw) - 50 <= raw < 100 * Scaled(raw) + 50
  {
  }

  /** A relative encoder outside its detent only sends messages. */
  lemma RelativeTurnsChangeNothing(settings: AllSettings, t: Tables, i: nat, delta: int, velocity: nat)
    requires IsTables(t) && i < PHYSICAL_ENCODERS && settings[16 * t.bank + i].midiType in {2, 4, 5}
    requires settings[16 * t.bank + i].hasDetent ==> !(6240 < t.raw[InUse(settings, t, 16 * t.bank + i)] < 6450)
    ensures AfterRotary(settings, t, i, delta, velocity) == t
  {
    var v := InUse(settings, t, 16 * t.bank + i);
    assert t.raw[v := t.raw[v]] == t.raw && t.counters[i := t.counters[i]] == t.counters;
  }

  // ----- What the switches do

  /** A reset leaves the encoder at rest in the middle, or at the end that its action names, with nothing counted:
      from there the third tick inwards moves it, or more than eight either way. */
  lemma ResetRests(settings: AllSettings, t: Tables, i: nat, pressed: bool)
    requires IsTables(t) && i < PHYSICAL_ENCODERS && settings[16 * t.bank + i].switchAction in {4, 5}
    ensures var t', b := AfterSwitch(settings, t, i, pressed), 16 * t.bank + i;
      var v, s := InUse(settings, t, b), settings[b];
      var step := if s.hasDetent then 63 else if s.switchAction == 4 then 0 else 127;
      && At(settings, t', i, 100 * step, 0)
      && t' == t.(raw := t.raw[v := 100 * step], counters := t.counters[i := 0], indicator := t.indicator[b := step])
  {
  }

  /** A reset to an end and three ticks back. */
  lemma ResetThenThreeTicks(settings: AllSettings, t: Tables, i: nat, pressed: bool, velocity: nat)
    requires IsTables(t) && i < PHYSICAL_ENCODERS && settings[16 * t.bank + i].switchAction in {4, 5}
    requires !settings[16 * t.bank + i].hasDetent && !settings[16 * t.bank + i].IsRelative()
    ensures var b, reset := 16 * t.bank + i, AfterSwitch(settings, t, i, pressed);
      var up, down := AfterRotary(settings, reset, i, 3, velocity), AfterRotary(settings, reset, i, -3, velocity);
      var v := InUse(settings, t, b);
      if settings[b].switchAction == 4 then up.raw[v] == 100 && down.raw[v] == 0
      else up.raw[v] == 12700 && down.raw[v] == 12600
  {
    ResetRests(settings, t, i, pressed);
    var reset := AfterSwitch(settings, t, i, pressed);
    if settings[16 * t.bank + i].switchAction == 4 {
      LeavingTheBottom(settings, reset, i, 0, 3, velocity);
      LeavingTheBottom(settings, reset, i, 0, -3, velocity);
    } else {
      LeavingTheTop(settings, reset, i, 12700, 0, 3, velocity);
      LeavingTheTop(settings, reset, i, 12700, 0, -3, velocity);
    }
  }

  /** While a shift-hold switch is down the shifted value is in use and on display, and after its release the base
      value is again. No value is lost. */
  lemma HoldShifts(settings: AllSettings, t: Tables, i: nat, down: seq<bool>)
    requires IsTables(t) && i < PHYSICAL_ENCODERS && settings[16 * t.bank + i].switchAction == 7
    requires |down| == PHYSICAL_ENCODERS
    ensures var b := 16 * t.bank + i;
      var t' := AfterSwitch(settings, t.(switches := down), i, down[i]);
      && InUse(settings, t', b) == (if down[i] then 128 + b else b)
      && t' == t.(switches := down, indicator := t.indicator[b := t.raw[if down[i] then 128 + b else b] / 100])
  {
  }

  /** A shift-toggle switch changes over at each press and does nothing when released; a second press undoes the
      first, but for the display, which shows the base value. */
  lemma ToggleTwice(settings: AllSettings, t: Tables, i: nat)
    requires IsTables(t) && i < PHYSICAL_ENCODERS && settings[16 * t.bank + i].switchAction == 8
    requires !t.toggles[16 * t.bank + i]
    ensures var b, once := 16 * t.bank + i, AfterSwitch(settings, t, i, true);
      && InUse(settings, t, b) == b && InUse(settings, once, b) == 128 + b
      && once.indicator == t.indicator[b := t.raw[128 + b] / 100]
      && AfterSwitch(settings, once, i, false) == once
      && AfterSwitch(settings, once, i, true) == t.(indicator := t.indicator[b := t.raw[b] / 100])
  {
    var b, once := 16 * t.bank + i, AfterSwitch(settings, t, i, true);
    assert once.toggles[b := false] == t.toggles;
    assert once.indicator[b := t.raw[b] / 100] == t.indicator[b := t.raw[b] / 100];
  }

  /** Turning an encoder in its shift state leaves its base value alone, and the other way round; nor does it touch
      any other encoder. */
  lemma TurnsTouchOneValue(settings: AllSettings, t: Tables, i: nat, delta: int, velocity: nat)
    requires IsTables(t) && i < PHYSICAL_ENCODERS
    ensures var t', b := AfterRotary(settings, t, i, delta, velocity), 16 * t.bank + i;
      && (forall v :: 0 <= v < 2 * BANKED_ENCODERS && v != InUse(settings, t, b) ==> t'.raw[v] == t.raw[v])
      && (forall j :: 0 <= j < BANKED_ENCODERS && j != b ==> t'.indicator[j] == t.indicator[j])
      && (forall j :: 0 <= j < PHYSICAL_ENCODERS && j != i ==> t'.counters[j] == t.counters[j])
      && t'.switches == t.switches && t'.toggles == t.toggles && t'.bank == t.bank
  {
  }

  /** No other switch action touches a value, a display or a counter, nor does the release of a toggle. */
  lemma OtherSwitchesLeaveValues(settings: AllSettings, t: Tables, i: nat, pressed: bool)
    requires IsTables(t) && i < PHYSICAL_ENCODERS
    requires settings[16 * t.bank + i].switchAction !in {4, 5, 7}
    requires settings[16 * t.bank + i].switchAction == 8 ==> !pressed
    ensures AfterSwitch(settings, t, i, pressed) == t
  {
  }

  /** Feedback is let through for any encoder of another bank, and for one of the current bank unless it is absolute
      and being turned; but never a 0 for an encoder with a detent. It sets the base or the shifted value that it
      is for, and the display only when that value is the one in use. Otherwise nothing changes. */
  lemma FeedbackIsAcceptedExactlyWhen(settings: AllSettings, t: Tables, idx: nat, value: nat, shifted: bool,
      active: bool)
    requires IsTables(t) && idx < BANKED_ENCODERS
    ensures var t', v := AfterFeedback(settings, t, idx, value, shifted, active), if shifted then 128 + idx else idx;
      if (settings[idx].hasDetent && value == 0)
         || (16 * t.bank <= idx < 16 * t.bank + 16 && active && settings[idx].midiType !in {2, 4, 5})
      then t' == t
      else t' == t.(raw := t.raw[v := 100 * value],
                    indicator := if InUse(settings, t, idx) == v then t.indicator[idx := value] else t.indicator)
  {
  }

  // ----- What is on display after a bank change

  /** After a change of bank every encoder of the old and of the new bank shows its value in use. An encoder of a
      third bank shows what the last encoder of the old bank with its mapping showed, or what it showed before. */
  lemma DisplaysAfterBankChange(settings: AllSettings, t: Tables, b: nat, i: nat)
    requires IsTables(t) && b < NUM_BANKS && i < BANKED_ENCODERS
    ensures var t' := AfterBankChange(settings, t, b);
      && t' == t.(bank := b, raw := t'.raw, indicator := t'.indicator)
      && (16 * t.bank <= i < 16 * t.bank + 16 || 16 * b <= i < 16 * b + 16 ==>
            t'.indicator[i] == t'.raw[InUse(settings, t', i)] / 100)
      && (!(16 * t.bank <= i < 16 * t.bank + 16) && !(16 * b <= i < 16 * b + 16) ==>
            && (forall e: nat :: e < PHYSICAL_ENCODERS
                                 && MatchesLast(settings, Shifted(settings, t, i), t.bank, e, i) ==>
                  t'.indicator[i] == t.indicator[16 * t.bank + e])
            && ((forall e: nat :: e < PHYSICAL_ENCODERS ==>
                   !MatchIn(settings, t.bank, e, i, Shifted(settings, t, i))) ==>
                  t'.indicator[i] == t.indicator[i]))
  {
    var shifted := Shifted(settings, t, i);
    var last := LastMatch(settings, shifted, t.bank, i, PHYSICAL_ENCODERS);
    forall e: nat | e < PHYSICAL_ENCODERS && MatchesLast(settings, shifted, t.bank, e, i) ensures e == last {
      assert MatchIn(settings, t.bank, e, i, shifted);
    }
  }
}
