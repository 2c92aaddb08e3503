/** Saving and loading sequencer patterns (sequencer_input.c), in the four-bank build.

    Sixteen slots of two EEPROM pages each follow from page 31. A RAM word remembers which slots are full;
    it is modelled as the set of those slots. */
module PatternMemory {
  import opened Bits
  import opened Nvm
  import EncoderRecords

  const SEQ_EEPROM_START_PAGE := 31
  const SLOTS := 16
  const FX_SLOT_FULL_FLAG: byte := 0xA5
  const FX_SLOT_FULL_FLAG_OFFSET := 45

  const VOICES := 4
  const PATTERN_BUFFERS := 12
  const STEPS := 16

  datatype SlotSettings = SlotSettings(fxSend: bool, muteOn: bool, filterOn: bool, volume: byte, filter: byte)

  // ----- Layout

  function SlotAddress(slot: nat): nat {
    EEPROM_PAGE_SIZE * (SEQ_EEPROM_START_PAGE + slot * 2)
  }

  /** The slots whose flag byte says they are full. */
  function FullSlots(cells: seq<byte>): set<nat>
    requires |cells| == EEPROM_SIZE
  {
    set i: nat | i < SLOTS && cells[SlotAddress(i) + FX_SLOT_FULL_FLAG_OFFSET] == FX_SLOT_FULL_FLAG
  }

  /** The two pages of a slot. */
  function SlotPages(cells: seq<byte>, slot: nat): (pages: seq<byte>)
    requires |cells| == EEPROM_SIZE && slot < SLOTS
    ensures |pages| == 64
  {
    cells[SlotAddress(slot)..SlotAddress(slot) + 64]
  }

  // ----- Encoding

  /** Two step velocities in one byte, four bits each. */
  function PackSteps(first: byte, second: byte): byte {
    ((0x0F & (first >> 3)) << 4) | (0x0F & (second >> 3))
  }

  function FirstStep(data: byte): byte {
    ((data & 0xF0) >> 4) * 8
  }

  function SecondStep(data: byte): byte {
    (data & 0x0F) * 8
  }

  /** A seven-bit level with a flag above it. */
  function PackLevel(on: bool, level: byte): byte {
    (0x80 & ((if on then 1 else 0) << 7)) | level
  }

  /** A step comes back rounded down to a multiple of eight, and rounding again changes nothing. */
  lemma StepsReadBack(first: byte, second: byte)
    requires first < 0x80 && second < 0x80
    ensures FirstStep(PackSteps(first, second)) == first & 0xF8
    ensures SecondStep(PackSteps(first, second)) == second & 0xF8
    ensures PackSteps(first & 0xF8, second & 0xF8) == PackSteps(first, second)
    ensures first & 0xF8 < 0x80
  {
  }

  lemma MultipleOfEight(v: byte)
    ensures (v & 0xF8) as int == v as int - v as int % 8
  {
  }

  lemma LevelReadsBack(on: bool, level: byte)
    requires level < 0x80
    ensures PackLevel(on, level) & 0x7F == level
    ensures PackLevel(on, level) & 0x80 != 0 <==> on
  {
  }

  /** The mask of FX flag `i`. */
  function FxBit(i: nat): byte {
    if i == 0 then 1 else FxBit(i - 1) << 1
  }

  /** The FX flags of the first `n` voices. */
  function FxFlags(settings: seq<SlotSettings>, n: nat): byte
    requires n <= |settings|
  {
    if n == 0 then 0
    else if settings[n - 1].fxSend then FxFlags(settings, n - 1) | FxBit(n - 1)
    else FxFlags(settings, n - 1)
  }

  lemma FxBits()
    ensures FxBit(0) == 1 && FxBit(1) == 2 && FxBit(2) == 4 && FxBit(3) == 8
  {
    assert FxBit(3) == FxBit(2) << 1 && FxBit(2) == FxBit(1) << 1;
  }

  /** The stored nibble tells for each voice whether it sends to the effects. */
  lemma FxFlagsReadBack(settings: seq<SlotSettings>, i: nat)
    requires |settings| == VOICES && i < VOICES
    ensures FxFlags(settings, VOICES) & 0x0F & FxBit(i) != 0 <==> settings[i].fxSend
  {
    FxBits();
    assert FxFlags(settings, 1) == FxFlags(settings, 0) | (if settings[0].fxSend then 1 else 0);
    assert FxFlags(settings, 2) == FxFlags(settings, 1) | (if settings[1].fxSend then 2 else 0);
    assert FxFlags(settings, 3) == FxFlags(settings, 2) | (if settings[2].fxSend then 4 else 0);
    assert FxFlags(settings, 4) == FxFlags(settings, 3) | (if settings[3].fxSend then 8 else 0);
  }

  // ----- What a slot stores

  /** What is saved: 16 steps, a clip and the settings for each voice. */
  datatype Pattern = Pattern(steps: seq<byte>, clips: seq<byte>, settings: seq<SlotSettings>)

  predicate IsPattern(p: Pattern) {
    |p.steps| == VOICES * STEPS && |p.clips| == VOICES && |p.settings| == VOICES
  }

  function StepsPage(steps: seq<byte>): (page: seq<byte>)
    requires |steps| == VOICES * STEPS
    ensures |page| == EEPROM_PAGE_SIZE
  {
    seq(EEPROM_PAGE_SIZE, b requires 0 <= b < EEPROM_PAGE_SIZE => PackSteps(steps[2 * b], steps[2 * b + 1]))
  }

  function Level(s: SlotSettings, isFilter: bool): byte {
    if isFilter then PackLevel(s.filterOn, s.filter) else PackLevel(s.muteOn, s.volume)
  }

  function Levels(settings: seq<SlotSettings>): (r: seq<byte>)
    requires |settings| == VOICES
    ensures |r| == 2 * VOICES
  {
    seq(2 * VOICES, k requires 0 <= k < 2 * VOICES => Level(settings[k / 2], k % 2 == 0))
  }

  /** The second page. Only its first fourteen bytes are filled in, so the rest repeats the first page. */
  function SettingsPage(p: Pattern, before: seq<byte>): (page: seq<byte>)
    requires IsPattern(p) && |before| == EEPROM_PAGE_SIZE
    ensures |page| == EEPROM_PAGE_SIZE
  {
    p.clips + Levels(p.settings) + [FxFlags(p.settings, |p.settings|) & 0x0F, FX_SLOT_FULL_FLAG] + before[14..]
  }

  function SavedPages(p: Pattern): (pages: seq<byte>)
    requires IsPattern(p)
    ensures |pages| == 64
  {
    StepsPage(p.steps) + SettingsPage(p, StepsPage(p.steps))
  }

  function StepFrom(pages: seq<byte>, k: nat): byte
    requires |pages| == 64 && k < VOICES * STEPS
  {
    if k % 2 == 0 then FirstStep(pages[k / 2]) else SecondStep(pages[k / 2])
  }

  function LevelsFrom(pages: seq<byte>, i: nat, s: SlotSettings): SlotSettings
    requires |pages| == 64 && i < VOICES
  {
    s.(filter := pages[36 + 2 * i] & 0x7F, volume := pages[37 + 2 * i] & 0x7F)
  }

  /** What loading those 64 bytes makes of the current settings. */
  function LoadedFrom(pages: seq<byte>, settings: seq<SlotSettings>): (p: Pattern)
    requires |pages| == 64 && |settings| == VOICES
    ensures IsPattern(p)
  {
    Pattern(
      seq(VOICES * STEPS, k requires 0 <= k < VOICES * STEPS => StepFrom(pages, k)),
      pages[32..36],
      seq(VOICES, i requires 0 <= i < VOICES => LevelsFrom(pages, i, settings[i])))
  }

  predicate SevenBit(p: Pattern)
    requires IsPattern(p)
  {
    && (forall k :: 0 <= k < VOICES * STEPS ==> p.steps[k] < 0x80)
    && (forall i :: 0 <= i < VOICES ==> p.settings[i].filter < 0x80 && p.settings[i].volume < 0x80)
  }

  predicate SameFlags(a: SlotSettings, b: SlotSettings) {
    a.filterOn == b.filterOn && a.muteOn == b.muteOn && a.fxSend == b.fxSend
  }

  // ----- Loading what was saved

  /** The saved pages, byte by byte. */
  lemma StoredLevels(p: Pattern, i: nat)
    requires IsPattern(p) && i < VOICES
    ensures SavedPages(p)[36 + 2 * i] == PackLevel(p.settings[i].filterOn, p.settings[i].filter)
    ensures SavedPages(p)[37 + 2 * i] == PackLevel(p.settings[i].muteOn, p.settings[i].volume)
  {
    var levels := Levels(p.settings);
    assert levels[2 * i] == Level(p.settings[i], true) && levels[2 * i + 1] == Level(p.settings[i], false);
    assert SavedPages(p)[36 + 2 * i] == levels[2 * i] && SavedPages(p)[37 + 2 * i] == levels[2 * i + 1];
  }

  lemma StoredClips(p: Pattern)
    requires IsPattern(p)
    ensures SavedPages(p)[32..36] == p.clips
  {
    var first := StepsPage(p.steps);
    var second := SettingsPage(p, first);
    assert (first + second)[32..36] == second[..4];
  }

  lemma StoredStep(p: Pattern, k: nat)
    requires IsPattern(p) && SevenBit(p) && k < VOICES * STEPS
    ensures StepFrom(SavedPages(p), k) == p.steps[k] & 0xF8
    ensures p.steps[k] & 0xF8 < 0x80
  {
    var b := k / 2;
    assert SavedPages(p)[b] == StepsPage(p.steps)[b];
    StepsReadBack(p.steps[2 * b], p.steps[2 * b + 1]);
  }

  /** Loading after a save restores clips, filters and volumes exactly; the on/off flags stay as they were,
      since those are only sent to the host. */
  lemma SettingsAfterSave(p: Pattern, settings: seq<SlotSettings>)
    requires IsPattern(p) && SevenBit(p) && |settings| == VOICES
    ensures var l := LoadedFrom(SavedPages(p), settings);
      && l.clips == p.clips
      && forall i :: 0 <= i < VOICES ==>
           l.settings[i] == settings[i].(filter := p.settings[i].filter, volume := p.settings[i].volume)
  {
    assert LoadedFrom(SavedPages(p), settings).clips == p.clips by {
      StoredClips(p);
    }
    forall i | 0 <= i < VOICES
      ensures LoadedFrom(SavedPages(p), settings).settings[i]
           == settings[i].(filter := p.settings[i].filter, volume := p.settings[i].volume)
    {
      StoredLevels(p, i);
      LevelReadsBack(p.settings[i].filterOn, p.settings[i].filter);
      LevelReadsBack(p.settings[i].muteOn, p.settings[i].volume);
    }
  }

  /** Loading after a save rounds each step down to a multiple of eight. */
  lemma StepsAfterSave(p: Pattern, settings: seq<SlotSettings>)
    requires IsPattern(p) && SevenBit(p) && |settings| == VOICES
    ensures var steps := LoadedFrom(SavedPages(p), settings).steps;
      forall k :: 0 <= k < VOICES * STEPS ==> steps[k] == p.steps[k] & 0xF8 && steps[k] < 0x80
  {
    forall k | 0 <= k < VOICES * STEPS
      ensures LoadedFrom(SavedPages(p), settings).steps[k] == p.steps[k] & 0xF8 && p.steps[k] & 0xF8 < 0x80
    {
      StoredStep(p, k);
    }
  }

  /** Each loaded step, as a number. */
  lemma StepsAreRounded(p: Pattern, settings: seq<SlotSettings>, k: nat)
    requires IsPattern(p) && SevenBit(p) && |settings| == VOICES && k < VOICES * STEPS
    ensures var v := p.steps[k] as int;
      LoadedFrom(SavedPages(p), settings).steps[k] as int == v - v % 8
  {
    StepsAfterSave(p, settings);
    MultipleOfEight(p.steps[k]);
  }

  /** Saving again after the load writes the same 64 bytes exactly when the flags are those that were saved. */
  lemma SavedAgainExactlyWhen(p: Pattern, settings: seq<SlotSettings>)
    requires IsPattern(p) && SevenBit(p) && |settings| == VOICES
    ensures SavedPages(LoadedFrom(SavedPages(p), settings)) == SavedPages(p)
       <==> forall i :: 0 <= i < VOICES ==> SameFlags(settings[i], p.settings[i])
  {
    SettingsAfterSave(p, settings);
    StepsAfterSave(p, settings);
    var l := LoadedFrom(SavedPages(p), settings);
    var pages, pages' := SavedPages(p), SavedPages(l);
    SameStepsPage(p.steps, l.steps);
    if pages' == pages {
      forall i | 0 <= i < VOICES ensures SameFlags(settings[i], p.settings[i]) {
        FlagsInPages(p, i);
        FlagsInPages(l, i);
      }
    }
    if forall i :: 0 <= i < VOICES ==> SameFlags(settings[i], p.settings[i]) {
      assert l.settings == p.settings by {
        forall i | 0 <= i < VOICES ensures l.settings[i] == p.settings[i] {
        }
      }
    }
  }

  /** A mute toggled after the save and not sent again makes the difference. */
  lemma ToggledMuteIsSavedDifferently(p: Pattern)
    requires IsPattern(p) && SevenBit(p)
    ensures var toggled := p.settings[0 := p.settings[0].(muteOn := !p.settings[0].muteOn)];
      SavedPages(LoadedFrom(SavedPages(p), toggled)) != SavedPages(p)
  {
    var toggled := p.settings[0 := p.settings[0].(muteOn := !p.settings[0].muteOn)];
    SavedAgainExactlyWhen(p, toggled);
    assert !SameFlags(toggled[0], p.settings[0]);
  }

  lemma SameStepsPage(steps: seq<byte>, rounded: seq<byte>)
    requires |steps| == |rounded| == VOICES * STEPS
    requires forall k :: 0 <= k < VOICES * STEPS ==> steps[k] < 0x80 && rounded[k] == steps[k] & 0xF8
    ensures StepsPage(rounded) == StepsPage(steps)
  {
    forall b | 0 <= b < EEPROM_PAGE_SIZE ensures StepsPage(rounded)[b] == StepsPage(steps)[b] {
      StepsReadBack(steps[2 * b], steps[2 * b + 1]);
    }
  }

  /** The stored pages determine the flags. */
  lemma FlagsInPages(p: Pattern, i: nat)
    requires IsPattern(p) && SevenBit(p) && i < VOICES
    ensures SavedPages(p)[36 + 2 * i] & 0x80 != 0 <==> p.settings[i].filterOn
    ensures SavedPages(p)[37 + 2 * i] & 0x80 != 0 <==> p.settings[i].muteOn
    ensures SavedPages(p)[44] & FxBit(i) != 0 <==> p.settings[i].fxSend
  {
    StoredLevels(p, i);
    LevelReadsBack(p.settings[i].filterOn, p.settings[i].filter);
    LevelReadsBack(p.settings[i].muteOn, p.settings[i].volume);
    FxFlagsReadBack(p.settings, i);
  }

  // ----- The layout of a slot

  lemma PackedSteps(first: byte, second: byte)
    requires first < 0x80 && second < 0x80
    ensures PackSteps(first, second) as int == first as int / 8 * 16 + second as int / 8
  {
    var high, low := first >> 3, second >> 3;
    assert high as int == first as int / 8 && low as int == second as int / 8;
    assert PackSteps(first, second) == (high << 4) | low;
    HighAndLow(high, low);
  }

  lemma HighAndLow(high: byte, low: byte)
    requires high < 16 && low < 16
    ensures ((high << 4) | low) as int == high as int * 16 + low as int
  {
    assert (high << 4) | low == high * 16 + low;
  }

  lemma PackedLevel(on: bool, level: byte)
    requires level < 0x80
    ensures PackLevel(on, level) as int == level as int + if on then 128 else 0
  {
  }

  /** The 64 bytes of a saved slot, as numbers. First the steps, two to a byte, four bits each. */
  lemma StepsLayout(p: Pattern, b: nat)
    requires IsPattern(p) && SevenBit(p) && b < 32
    ensures SavedPages(p)[b] as int == p.steps[2 * b] as int / 8 * 16 + p.steps[2 * b + 1] as int / 8
  {
    assert SavedPages(p)[b] == StepsPage(p.steps)[b];
    PackedSteps(p.steps[2 * b], p.steps[2 * b + 1]);
  }

  /** Then the clips, and filter and volume of each voice with the flag above. */
  lemma LevelsLayout(p: Pattern, i: nat)
    requires IsPattern(p) && SevenBit(p) && i < VOICES
    ensures var bytes, s := SavedPages(p), p.settings[i];
      && bytes[32 + i] == p.clips[i]
      && bytes[36 + 2 * i] as int == s.filter as int + (if s.filterOn then 128 else 0)
      && bytes[37 + 2 * i] as int == s.volume as int + (if s.muteOn then 128 else 0)
  {
    StoredLevels(p, i);
    PackedLevel(p.settings[i].filterOn, p.settings[i].filter);
    PackedLevel(p.settings[i].muteOn, p.settings[i].volume);
    StoredClips(p);
    assert SavedPages(p)[32..36][i] == p.clips[i];
  }

  /** Last the mark of a full slot; what follows it repeats the first page. */
  lemma MarkAndRest(p: Pattern, b: nat)
    requires IsPattern(p) && 45 <= b < 64
    ensures SavedPages(p)[b] == if b == 45 then 0xA5 else SavedPages(p)[b - 32]
  {
  }

  const EFFECT_BITS: seq<byte> := [1, 2, 4, 8]

  /** In between, the effect flags, one bit to a voice. */
  lemma EffectBits(p: Pattern)
    requires IsPattern(p) && SevenBit(p)
    ensures SavedPages(p)[44] < 16
    ensures forall i :: 0 <= i < VOICES ==> (SavedPages(p)[44] & EFFECT_BITS[i] != 0 <==> p.settings[i].fxSend)
  {
    FxBits();
    assert SavedPages(p)[44] == FxFlags(p.settings, |p.settings|) & 0x0F;
    LowNibble(FxFlags(p.settings, |p.settings|));
    forall i | 0 <= i < VOICES ensures SavedPages(p)[44] & EFFECT_BITS[i] != 0 <==> p.settings[i].fxSend {
      FlagsInPages(p, i);
      assert EFFECT_BITS[i] == FxBit(i);
    }
  }

  lemma LowNibble(b: byte)
    ensures b & 0x0F < 16
  {
  }

  /** The slots lie one after the other from byte 992 on; byte 45 of a slot marks it full. */
  lemma SlotsByAddress(cells: seq<byte>, slot: nat, op: Operation)
    requires |cells| == EEPROM_SIZE && slot < 16 && IsOperation(op)
    ensures slot in FullSlots(cells) <==> cells[992 + 64 * slot + 45] == 0xA5
    ensures op.Delete? ==> CellsAfter(cells, op) == cells[992 + 64 * op.slot + 45 := 0xFF]
    ensures op.Save? ==> CellsAfter(cells, op)
                         == cells[..992 + 64 * op.slot] + SavedPages(op.pattern) + cells[992 + 64 * op.slot + 64..]
  {
    assert SlotAddress(slot) == 992 + 64 * slot && SlotAddress(op.slot) == 992 + 64 * op.slot;
  }

  /** Deleting only hides a pattern: what a load takes from the slot afterwards is what it took before. */
  lemma DeleteOnlyHides(cells: seq<byte>, slot: nat, settings: seq<SlotSettings>)
    requires |cells| == EEPROM_SIZE && slot < SLOTS && |settings| == VOICES
    ensures slot !in FullSlots(CellsAfter(cells, Delete(slot)))
    ensures LoadedFrom(SlotPages(CellsAfter(cells, Delete(slot)), slot), settings)
         == LoadedFrom(SlotPages(cells, slot), settings)
  {
    SlotsByAddress(cells, slot, Delete(slot));
    var before, after := SlotPages(cells, slot), SlotPages(CellsAfter(cells, Delete(slot)), slot);
    assert forall k :: 0 <= k < 64 && k != 45 ==> after[k] == before[k];
    var l, l' := LoadedFrom(before, settings), LoadedFrom(after, settings);
    assert l.clips == l'.clips && l.steps == l'.steps;
    forall i | 0 <= i < VOICES ensures l.settings[i] == l'.settings[i] {
      assert after[36 + 2 * i] == before[36 + 2 * i] && after[37 + 2 * i] == before[37 + 2 * i];
    }
  }

  // ----- Any sequence of saves and deletes

  datatype Operation = Save(slot: nat, pattern: Pattern) | Delete(slot: nat)

  predicate IsOperation(op: Operation) {
    op.slot < SLOTS && (op.Save? ==> IsPattern(op.pattern))
  }

  /** The EEPROM after one operation. */
  function CellsAfter(cells: seq<byte>, op: Operation): (r: seq<byte>)
    requires |cells| == EEPROM_SIZE && IsOperation(op)
    ensures |r| == EEPROM_SIZE
  {
    match op
    case Save(slot, pattern) => Overwrite(cells, SlotAddress(slot), SavedPages(pattern))
    case Delete(slot) => cells[SlotAddress(slot) + FX_SLOT_FULL_FLAG_OFFSET := 0xFF]
  }

  /** The RAM word after one operation. */
  function StateAfter(state: set<nat>, op: Operation): set<nat> {
    if op.Save? then state + {op.slot} else state - {op.slot}
  }

  function RunCells(cells: seq<byte>, ops: seq<Operation>): (r: seq<byte>)
    requires |cells| == EEPROM_SIZE && forall op :: op in ops ==> IsOperation(op)
    ensures |r| == EEPROM_SIZE
    decreases |ops|
  {
    if ops == [] then cells else RunCells(CellsAfter(cells, ops[0]), ops[1..])
  }

  function RunState(state: set<nat>, ops: seq<Operation>): set<nat>
    decreases |ops|
  {
    if ops == [] then state else RunState(StateAfter(state, ops[0]), ops[1..])
  }

  /** One operation leaves alone every byte outside its own slot. */
  lemma OnlyItsOwnSlot(cells: seq<byte>, op: Operation, address: nat)
    requires |cells| == EEPROM_SIZE && IsOperation(op) && address < EEPROM_SIZE
    requires !(SlotAddress(op.slot) <= address < SlotAddress(op.slot) + 64)
    ensures CellsAfter(cells, op)[address] == cells[address]
  {
  }

  lemma StateStep(cells: seq<byte>, op: Operation)
    requires |cells| == EEPROM_SIZE && IsOperation(op)
    ensures FullSlots(CellsAfter(cells, op)) == StateAfter(FullSlots(cells), op)
  {
    var cells' := CellsAfter(cells, op);
    forall i: nat | i < SLOTS ensures i in FullSlots(cells') <==> i in StateAfter(FullSlots(cells), op) {
      var flag := SlotAddress(i) + FX_SLOT_FULL_FLAG_OFFSET;
      if i != op.slot {
        OnlyItsOwnSlot(cells, op, flag);
      } else if op.Save? {
        assert cells'[flag] == SavedPages(op.pattern)[45] == FX_SLOT_FULL_FLAG;
      }
    }
  }

  /** However many saves and deletes, the RAM word is what a scan of the EEPROM would find. */
  lemma {:induction false} StateAgreesWithEeprom(cells: seq<byte>, ops: seq<Operation>)
    requires |cells| == EEPROM_SIZE && forall op :: op in ops ==> IsOperation(op)
    ensures RunState(FullSlots(cells), ops) == FullSlots(RunCells(cells, ops))
    decreases |ops|
  {
    if ops == [] {
    } else {
      StateStep(cells, ops[0]);
      StateAgreesWithEeprom(CellsAfter(cells, ops[0]), ops[1..]);
    }
  }

  /** A byte that lies in none of the slots operated on keeps its value; in particular all those below
      page 31, where the global settings and the encoder records are. */
  lemma {:induction false} RestIsUntouched(cells: seq<byte>, ops: seq<Operation>, address: nat)
    requires |cells| == EEPROM_SIZE && forall op :: op in ops ==> IsOperation(op)
    requires address < EEPROM_SIZE
    requires forall op :: op in ops ==> !(SlotAddress(op.slot) <= address < SlotAddress(op.slot) + 64)
    ensures RunCells(cells, ops)[address] == cells[address]
    decreases |ops|
  {
    if ops == [] {
    } else {
      OnlyItsOwnSlot(cells, ops[0], address);
      RestIsUntouched(CellsAfter(cells, ops[0]), ops[1..], address);
    }
  }

  /** A saved slot still holds its pattern after any operations on other slots. */
  lemma SavedSlotSurvives(cells: seq<byte>, slot: nat, pattern: Pattern, ops: seq<Operation>)
    requires |cells| == EEPROM_SIZE && slot < SLOTS && IsPattern(pattern)
    requires forall op :: op in ops ==> IsOperation(op) && op.slot != slot
    ensures SlotPages(RunCells(CellsAfter(cells, Save(slot, pattern)), ops), slot) == SavedPages(pattern)
  {
    var saved := CellsAfter(cells, Save(slot, pattern));
    var address := SlotAddress(slot);
    forall k | 0 <= k < 64
      ensures SlotPages(RunCells(saved, ops), slot)[k] == SavedPages(pattern)[k]
    {
      RestIsUntouched(saved, ops, address + k);
    }
  }

  /** The records of 64 encoders (the four-bank build) lie below the first slot. */
  lemma EncodersLieBelow(bank: nat, encoder: nat, index: nat, slot: nat)
    requires bank < 4 && encoder < 16 && index < 8
    ensures EncoderRecords.RecordAddress(bank, encoder) + index < SlotAddress(slot)
  {
  }

  // ----- The host's toggles

  /** A control change on the sequencer's MIDI channel. */
  datatype Control = Control(number: nat, value: nat)

  const SEQ_MUTE_OFFSET := 20
  const SEQ_FILTER_ON_OFFSET := 24
  const SEQ_SETTINGS_OFFSET := 102

  function Toggle(number: nat, on: bool, stored: byte): seq<Control> {
    if on != (stored & 0x80 != 0) then [Control(number, 127)] else []
  }

  function VoiceToggles(pages: seq<byte>, i: nat, s: SlotSettings): seq<Control>
    requires |pages| == 64 && i < VOICES
  {
    Toggle(SEQ_FILTER_ON_OFFSET + i, s.filterOn, pages[36 + 2 * i])
    + Toggle(SEQ_MUTE_OFFSET + i, s.muteOn, pages[37 + 2 * i])
  }

  /** The toggles sent for the first `n` voices. */
  function Toggles(pages: seq<byte>, settings: seq<SlotSettings>, n: nat): seq<Control>
    requires |pages| == 64 && |settings| == VOICES && n <= VOICES
  {
    if n == 0 then [] else
      Toggles(pages, settings, n - 1) + VoiceToggles(pages, n - 1, settings[n - 1])
  }

  function FxControls(flags: byte, n: nat): (r: seq<Control>)
    ensures |r| == n
  {
    if n == 0 then [] else
      FxControls(flags, n - 1)
      + [Control(SEQ_SETTINGS_OFFSET + (n - 1) + 4, if flags & FxBit(n - 1) != 0 then 127 else 0)]
  }

  predicate AsksFor(controls: seq<Control>, number: nat) {
    Control(number, 127) in controls
  }

  lemma TogglesOfVoice(pages: seq<byte>, s: SlotSettings, voice: nat, i: nat)
    requires |pages| == 64 && voice < VOICES && i < VOICES
    ensures AsksFor(VoiceToggles(pages, voice, s), SEQ_FILTER_ON_OFFSET + i)
       <==> i == voice && s.filterOn != (pages[36 + 2 * i] & 0x80 != 0)
    ensures AsksFor(VoiceToggles(pages, voice, s), SEQ_MUTE_OFFSET + i)
       <==> i == voice && s.muteOn != (pages[37 + 2 * i] & 0x80 != 0)
  {
    var filters := Toggle(SEQ_FILTER_ON_OFFSET + voice, s.filterOn, pages[36 + 2 * voice]);
    var mutes := Toggle(SEQ_MUTE_OFFSET + voice, s.muteOn, pages[37 + 2 * voice]);
    AsksForEither(filters, mutes, SEQ_FILTER_ON_OFFSET + i);
    AsksForEither(filters, mutes, SEQ_MUTE_OFFSET + i);
  }

  lemma AsksForEither(a: seq<Control>, b: seq<Control>, number: nat)
    ensures AsksFor(a + b, number) <==> AsksFor(a, number) || AsksFor(b, number)
  {
  }

  lemma {:induction false} TogglesOf(pages: seq<byte>, settings: seq<SlotSettings>, n: nat, i: nat)
    requires |pages| == 64 && |settings| == VOICES && n <= VOICES && i < VOICES
    ensures AsksFor(Toggles(pages, settings, n), SEQ_FILTER_ON_OFFSET + i)
       <==> i < n && settings[i].filterOn != (pages[36 + 2 * i] & 0x80 != 0)
    ensures AsksFor(Toggles(pages, settings, n), SEQ_MUTE_OFFSET + i)
       <==> i < n && settings[i].muteOn != (pages[37 + 2 * i] & 0x80 != 0)
  {
    if n == 0 {
    } else {
      var fewer, last := Toggles(pages, settings, n - 1), VoiceToggles(pages, n - 1, settings[n - 1]);
      TogglesOf(pages, settings, n - 1, i);
      TogglesOfVoice(pages, settings[n - 1], n - 1, i);
      AsksForEither(fewer, last, SEQ_FILTER_ON_OFFSET + i);
      AsksForEither(fewer, last, SEQ_MUTE_OFFSET + i);
    }
  }

  lemma {:induction false} FxControlAt(flags: byte, n: nat, i: nat)
    requires i < n
    ensures FxControls(flags, n)[i] == Control(SEQ_SETTINGS_OFFSET + i + 4, if flags & FxBit(i) != 0 then 127 else 0)
  {
    if i == n - 1 {
    } else {
      FxControlAt(flags, n - 1, i);
    }
  }

  /** Loading a saved pattern asks the host to toggle exactly those filters and mutes that differ from the
      saved ones. */
  lemma HostIsToldOfTheSavedFlags(p: Pattern, settings: seq<SlotSettings>, i: nat)
    requires IsPattern(p) && SevenBit(p) && |settings| == VOICES && i < VOICES
    ensures var toggles := Toggles(SavedPages(p), settings, |settings|);
      && (AsksFor(toggles, SEQ_FILTER_ON_OFFSET + i) <==> settings[i].filterOn != p.settings[i].filterOn)
      && (AsksFor(toggles, SEQ_MUTE_OFFSET + i) <==> settings[i].muteOn != p.settings[i].muteOn)
  {
    TogglesOf(SavedPages(p), settings, |settings|, i);
    FlagsInPages(p, i);
  }

  /** It also sends every effect switch as it was saved. */
  lemma HostIsToldOfTheSavedEffects(p: Pattern, i: nat)
    requires IsPattern(p) && SevenBit(p) && i < VOICES
    ensures FxControls(SavedPages(p)[44], |p.settings|)[i]
         == Control(SEQ_SETTINGS_OFFSET + i + 4, if p.settings[i].fxSend then 127 else 0)
  {
    FxControlAt(SavedPages(p)[44], |p.settings|, i);
    FlagsInPages(p, i);
  }

  /** What one voice has sent for it: a toggle for each flag that is not the saved one. */
  function VoiceMessages(saved: SlotSettings, current: SlotSettings, i: nat): seq<Control> {
    (if current.filterOn != saved.filterOn then [Control(24 + i, 127)] else [])
    + (if current.muteOn != saved.muteOn then [Control(20 + i, 127)] else [])
  }

  function EffectMessage(saved: SlotSettings, i: nat): Control {
    Control(106 + i, if saved.fxSend then 127 else 0)
  }

  lemma VoiceSends(p: Pattern, settings: seq<SlotSettings>, i: nat)
    requires IsPattern(p) && SevenBit(p) && |settings| == VOICES && i < VOICES
    ensures VoiceToggles(SavedPages(p), i, settings[i]) == VoiceMessages(p.settings[i], settings[i], i)
  {
    FlagsInPages(p, i);
  }

  lemma EffectSends(p: Pattern, i: nat)
    requires IsPattern(p) && SevenBit(p) && i < VOICES
    ensures FxControls(SavedPages(p)[44], 4)[i] == EffectMessage(p.settings[i], i)
  {
    HostIsToldOfTheSavedEffects(p, i);
  }

  /** What the first `n` voices have sent. */
  function Messages(saved: seq<SlotSettings>, current: seq<SlotSettings>, n: nat): seq<Control>
    requires n <= |saved| == |current|
  {
    if n == 0 then []
    else Messages(saved, current, n - 1) + VoiceMessages(saved[n - 1], current[n - 1], n - 1)
  }

  predicate SendsAsSaved(pages: seq<byte>, saved: SlotSettings, current: SlotSettings, i: nat)
    requires |pages| == 64 && i < VOICES
  {
    VoiceToggles(pages, i, current) == VoiceMessages(saved, current, i)
  }

  lemma {:induction false} TogglesInTurn(pages: seq<byte>, saved: seq<SlotSettings>, current: seq<SlotSettings>, n: nat)
    requires |pages| == 64 && |saved| == |current| == VOICES && n <= VOICES
    requires forall i :: 0 <= i < VOICES ==> SendsAsSaved(pages, saved[i], current[i], i)
    ensures Toggles(pages, current, n) == Messages(saved, current, n)
  {
    if n > 0 {
      TogglesInTurn(pages, saved, current, n - 1);
      assert SendsAsSaved(pages, saved[n - 1], current[n - 1], n - 1);
    }
  }

  /** All the toggles that loading a saved pattern sends, in order, and nothing else. */
  lemma LoadingSends(p: Pattern, settings: seq<SlotSettings>)
    requires IsPattern(p) && SevenBit(p) && |settings| == VOICES
    ensures Toggles(SavedPages(p), settings, |settings|) == Messages(p.settings, settings, |settings|)
  {
    forall i | 0 <= i < VOICES ensures SendsAsSaved(SavedPages(p), p.settings[i], settings[i], i) {
      VoiceSends(p, settings, i);
    }
    TogglesInTurn(SavedPages(p), p.settings, settings, VOICES);
  }

  /** Then the four effect switches. */
  lemma EffectsSent(p: Pattern)
    requires IsPattern(p) && SevenBit(p)
    ensures FxControls(SavedPages(p)[44], 4)
         == seq(VOICES, i requires 0 <= i < VOICES && IsPattern(p) => EffectMessage(p.settings[i], i))
  {
    forall i | 0 <= i < VOICES ensures FxControls(SavedPages(p)[44], 4)[i] == EffectMessage(p.settings[i], i) {
      EffectSends(p, i);
    }
  }

  // ----- The firmware's routines

  class Sequencer {
    const eeprom: Eeprom
    const steps: array3<byte>                 // voice, pattern buffer, step
    const selected: array<nat>                // the pattern buffer each voice plays
    const clips: array<byte>
    const settings: array<SlotSettings>
    var slotState: set<nat>

    ghost predicate Valid()
      reads eeprom, selected
    {
      eeprom.Valid() && eeprom.pageBuffer == map[] && Shaped()
    }

    ghost predicate Shaped()
      reads selected
    {
      && steps.Length0 == VOICES && steps.Length1 == PATTERN_BUFFERS && steps.Length2 == STEPS
      && selected.Length == VOICES && (forall i :: 0 <= i < VOICES ==> selected[i] < PATTERN_BUFFERS)
      && clips.Length == VOICES && settings.Length == VOICES
      && (selected as object) != clips && (selected as object) != settings
      && (clips as object) != settings
    }

    constructor (eeprom: Eeprom, steps: array3<byte>, selected: array<nat>, clips: array<byte>,
        settings: array<SlotSettings>)
      ensures this.eeprom == eeprom && this.steps == steps && this.selected == selected
      ensures this.clips == clips && this.settings == settings && slotState == {}
    {
      this.eeprom, this.steps, this.selected := eeprom, steps, selected;
      this.clips, this.settings, slotState := clips, settings, {};
    }

    /** Step `k % 16` of the selected pattern of voice `k / 16`. */
    ghost function StepAt(k: nat): byte
      requires Shaped() && k < VOICES * STEPS
      reads selected, steps
    {
      steps[k / STEPS, selected[k / STEPS], k % STEPS]
    }

    ghost function Current(): (p: Pattern)
      requires Shaped()
      reads selected, steps, clips, settings
      ensures IsPattern(p) && p.clips == clips[..] && p.settings == settings[..]
      ensures forall k :: 0 <= k < VOICES * STEPS ==> p.steps[k] == StepAt(k)
    {
      Pattern(seq(VOICES * STEPS, k requires 0 <= k < VOICES * STEPS && Shaped() reads selected, steps => StepAt(k)),
        clips[..], settings[..])
    }

    /** pattern_memory_init. */
    method PatternMemoryInit()
      requires Valid()
      modifies this`slotState
      ensures Valid() && slotState == FullSlots(eeprom.cells)
    {
      var addr := SEQ_EEPROM_START_PAGE * EEPROM_PAGE_SIZE + FX_SLOT_FULL_FLAG_OFFSET;
      slotState := {};
      for i := 0 to SLOTS
        invariant Valid() && addr == SlotAddress(i) + FX_SLOT_FULL_FLAG_OFFSET
        invariant slotState == set s: nat | s < i && s in FullSlots(eeprom.cells)
      {
        var flag := eeprom.ReadByte(addr);
        if flag == FX_SLOT_FULL_FLAG {
          slotState := slotState + {i};
        }
        addr := addr + 64;
      }
    }

    method DeletePatternMemory(slot: nat)
      requires Valid() && slot < SLOTS
      modifies this`slotState, eeprom
      ensures Valid()
      ensures eeprom.cells == CellsAfter(old(eeprom.cells), Delete(slot))
      ensures slotState == StateAfter(old(slotState), Delete(slot))
    {
      slotState := slotState - {slot};
      eeprom.WriteByte(SlotAddress(slot) + FX_SLOT_FULL_FLAG_OFFSET, 0xFF);
    }

    /** The first page of save_pattern_memory. */
    method FillStepsPage(page: array<byte>)
      requires Shaped() && page.Length == EEPROM_PAGE_SIZE && page != clips
      modifies page
      ensures page[..] == StepsPage(Current().steps)
    {
      var next := 0;
      for i := 0 to VOICES
        invariant next == 8 * i
        invariant forall b :: 0 <= b < next ==> page[b] == PackSteps(StepAt(2 * b), StepAt(2 * b + 1))
      {
        for j := 0 to 8
          invariant next == 8 * i + j
          invariant forall b :: 0 <= b < next ==> page[b] == PackSteps(StepAt(2 * b), StepAt(2 * b + 1))
        {
          StepPosition(i, j);
          page[next] := PackSteps(steps[i, selected[i], 2 * j], steps[i, selected[i], 2 * j + 1]);
          next := next + 1;
        }
      }
    }

    /** The clips and levels over its first twelve bytes. */
    method FillLevels(page: array<byte>)
      requires Shaped() && page.Length == EEPROM_PAGE_SIZE && page != clips
      modifies page
      ensures page[..] == clips[..] + Levels(settings[..]) + old(page[12..])
    {
      for i := 0 to VOICES
        invariant page[..i] == clips[..i] && page[12..] == old(page[12..])
      {
        page[i] := clips[i];
      }
      ghost var levels := Levels(settings[..]);
      for i := 0 to VOICES
        invariant page[..4] == clips[..] && page[12..] == old(page[12..])
        invariant forall k :: 0 <= k < 2 * i ==> page[4 + k] == levels[k]
      {
        assert levels[2 * i] == Level(settings[i], true) && levels[2 * i + 1] == Level(settings[i], false);
        page[4 + 2 * i] := PackLevel(settings[i].filterOn, settings[i].filter);
        page[5 + 2 * i] := PackLevel(settings[i].muteOn, settings[i].volume);
      }
      assert page[4..12] == levels;
      assert page[..] == page[..4] + page[4..12] + page[12..];
    }

    method PackFxFlags() returns (fxFlags: byte)
      requires Shaped()
      ensures fxFlags == FxFlags(settings[..], settings.Length)
    {
      var bit: byte;
      fxFlags, bit := 0, 1;
      ghost var all := settings[..];
      for i := 0 to settings.Length
        invariant bit == FxBit(i) && fxFlags == FxFlags(all, i)
      {
        if settings[i].fxSend {
          fxFlags := fxFlags | bit;
        }
        bit := bit << 1;
      }
    }

    /** The second page, over what the first left in the buffer. */
    method FillSettingsPage(page: array<byte>)
      requires Shaped() && page.Length == EEPROM_PAGE_SIZE && page != clips
      modifies page
      ensures page[..] == SettingsPage(Current(), old(page[..]))
    {
      FillLevels(page);
      ghost var levelled := page[..];
      var fxFlags := PackFxFlags();
      page[12], page[13] := fxFlags & 0x0F, FX_SLOT_FULL_FLAG;
      assert page[..12] == levelled[..12] == clips[..] + Levels(settings[..]);
      assert page[14..] == old(page[..])[14..];
      assert page[..] == page[..12] + [page[12], page[13]] + page[14..];
    }

    method StoreStepsPage(page: array<byte>, slot: nat)
      requires Valid() && slot < SLOTS && page.Length == EEPROM_PAGE_SIZE && page != clips
      modifies page, eeprom
      ensures Valid() && Current() == old(Current()) && page[..] == StepsPage(Current().steps)
      ensures eeprom.cells == Overwrite(old(eeprom.cells), SlotAddress(slot), page[..])
    {
      FillStepsPage(page);
      eeprom.WritePage(SEQ_EEPROM_START_PAGE + slot * 2, page[..]);
    }

    method StoreSettingsPage(page: array<byte>, slot: nat)
      requires Valid() && slot < SLOTS && page.Length == EEPROM_PAGE_SIZE && page != clips
      modifies page, eeprom
      ensures Valid() && Current() == old(Current()) && page[..] == SettingsPage(Current(), old(page[..]))
      ensures eeprom.cells == Overwrite(old(eeprom.cells), SlotAddress(slot) + EEPROM_PAGE_SIZE, page[..])
    {
      FillSettingsPage(page);
      var filled := page[..];
      assert OnTop(eeprom.pageBuffer, filled) == filled;
      eeprom.WritePage(SEQ_EEPROM_START_PAGE + slot * 2 + 1, filled);
    }

    method SavePatternMemory(slot: nat)
      requires Valid() && slot < SLOTS
      modifies this`slotState, eeprom
      ensures Valid() && Current() == old(Current())
      ensures eeprom.cells == CellsAfter(old(eeprom.cells), Save(slot, Current()))
      ensures slotState == StateAfter(old(slotState), Save(slot, Current()))
    {
      var page := new byte[EEPROM_PAGE_SIZE](_ => 0);
      TwoPages(eeprom.cells, slot, Current());
      StoreStepsPage(page, slot);
      slotState := slotState + {slot};
      StoreSettingsPage(page, slot);
    }

    /** The steps always go to pattern buffer 0, which becomes the selected one. */
    method LoadSteps(addr: nat, ghost pages: seq<byte>) returns (next: nat)
      requires Valid() && addr + 64 <= EEPROM_SIZE && pages == eeprom.cells[addr..addr + 64]
      modifies steps, selected
      ensures Valid() && next == addr + 32
      ensures forall i :: 0 <= i < VOICES ==> selected[i] == 0
      ensures forall k: nat :: k < VOICES * STEPS ==> StepAt(k) == StepFrom(pages, k)
      ensures forall v, b, j :: 0 <= v < VOICES && 0 < b < PATTERN_BUFFERS && 0 <= j < STEPS ==>
                steps[v, b, j] == old(steps[v, b, j])
    {
      next := addr;
      for i := 0 to VOICES
        invariant Valid() && next == addr + 8 * i
        invariant forall v :: 0 <= v < i ==> selected[v] == 0
        invariant forall k: nat :: k < STEPS * i ==> StepAt(k) == StepFrom(pages, k)
        invariant forall v, b, j :: 0 <= v < VOICES && 0 < b < PATTERN_BUFFERS && 0 <= j < STEPS ==>
                    steps[v, b, j] == old(steps[v, b, j])
      {
        selected[i] := 0;
        next := LoadVoice(next, addr, i, pages);
      }
    }

    /** The inner loop: the sixteen steps of voice `i`. */
    method LoadVoice(from: nat, addr: nat, i: nat, ghost pages: seq<byte>) returns (next: nat)
      requires Valid() && addr + 64 <= EEPROM_SIZE && pages == eeprom.cells[addr..addr + 64]
      requires i < VOICES && from == addr + 8 * i && selected[i] == 0
      requires forall k: nat :: k < STEPS * i ==> StepAt(k) == StepFrom(pages, k)
      modifies steps
      ensures next == addr + 8 * (i + 1)
      ensures forall k: nat :: k < STEPS * (i + 1) ==> StepAt(k) == StepFrom(pages, k)
      ensures forall v, b, j :: 0 <= v < VOICES && 0 < b < PATTERN_BUFFERS && 0 <= j < STEPS ==>
                steps[v, b, j] == old(steps[v, b, j])
    {
      next := from;
      for j := 0 to 8
        invariant next == addr + 8 * i + j
        invariant forall k: nat :: k < STEPS * i + 2 * j ==> StepAt(k) == StepFrom(pages, k)
        invariant forall v, b, j :: 0 <= v < VOICES && 0 < b < PATTERN_BUFFERS && 0 <= j < STEPS ==>
                    steps[v, b, j] == old(steps[v, b, j])
      {
        var data := eeprom.ReadByte(next);
        StepPosition(i, j);
        ByteOfSlice(eeprom.cells, addr, pages, 8 * i + j);
        steps[i, selected[i], 2 * j] := FirstStep(data);
        steps[i, selected[i], 2 * j + 1] := SecondStep(data);
        next := next + 1;
      }
    }

    method LoadClips(addr: nat) returns (next: nat)
      requires Valid() && addr + VOICES <= EEPROM_SIZE
      modifies clips
      ensures clips[..] == eeprom.cells[addr..addr + VOICES] && next == addr + VOICES
    {
      next := addr;
      for i := 0 to VOICES
        invariant next == addr + i && clips[..i] == eeprom.cells[addr..next]
      {
        clips[i] := eeprom.ReadByte(next);
        next := next + 1;
      }
    }

    /** The levels of one voice are taken over; a flag that differs is only sent to the host. */
    method LoadLevel(addr: nat, i: nat, ghost pages: seq<byte>) returns (next: nat, sent: seq<Control>)
      requires Valid() && addr + 2 <= EEPROM_SIZE && i < VOICES && |pages| == 64
      requires eeprom.cells[addr] == pages[36 + 2 * i] && eeprom.cells[addr + 1] == pages[37 + 2 * i]
      modifies settings
      ensures settings[..] == old(settings[..])[i := LevelsFrom(pages, i, old(settings[i]))]
      ensures next == addr + 2 && sent == VoiceToggles(pages, i, old(settings[i]))
    {
      var s := settings[i];
      var filter := eeprom.ReadByte(addr);
      sent := Toggle(SEQ_FILTER_ON_OFFSET + i, s.filterOn, filter);
      var volume := eeprom.ReadByte(addr + 1);
      sent := sent + Toggle(SEQ_MUTE_OFFSET + i, s.muteOn, volume);
      settings[i] := s.(filter := filter & 0x7F, volume := volume & 0x7F);
      next := addr + 2;
    }

    method LoadLevels(addr: nat, ghost pages: seq<byte>) returns (next: nat, sent: seq<Control>)
      requires Valid() && 36 <= addr && addr + 28 <= EEPROM_SIZE && pages == eeprom.cells[addr - 36..addr + 28]
      modifies settings
      ensures settings[..] == LoadedFrom(pages, old(settings[..])).settings
      ensures next == addr + 8 && sent == Toggles(pages, old(settings[..]), settings.Length)
    {
      next, sent := addr, [];
      ghost var before := settings[..];
      for i := 0 to settings.Length
        invariant next == addr + 2 * i
        invariant LevelsTaken(pages, before, i, settings[..], sent)
      {
        OneMoreLevel(pages, before, i, settings[..], sent);
        ByteOfSlice(eeprom.cells, addr - 36, pages, 36 + 2 * i);
        ByteOfSlice(eeprom.cells, addr - 36, pages, 37 + 2 * i);
        var toggles;
        next, toggles := LoadLevel(next, i, pages);
        sent := sent + toggles;
      }
    }

    method SendFx(flags: byte) returns (sent: seq<Control>)
      requires Shaped()
      ensures sent == FxControls(flags, settings.Length)
    {
      var bit: byte := 1;
      sent := [];
      for i := 0 to settings.Length
        invariant bit == FxBit(i) && sent == FxControls(flags, i)
      {
        var value := if flags & bit != 0 then 127 else 0;
        sent := sent + [Control(SEQ_SETTINGS_OFFSET + i + 4, value)];
        bit := bit << 1;
      }
    }

    method LoadPatternMemory(slot: nat) returns (sent: seq<Control>)
      requires Valid() && slot < SLOTS
      modifies steps, selected, clips, settings
      ensures Valid() && forall i :: 0 <= i < VOICES ==> selected[i] == 0
      ensures Current() == LoadedFrom(SlotPages(eeprom.cells, slot), old(settings[..]))
      ensures forall v, b, j :: 0 <= v < VOICES && 0 < b < PATTERN_BUFFERS && 0 <= j < STEPS ==>
                steps[v, b, j] == old(steps[v, b, j])
      ensures sent == Toggles(SlotPages(eeprom.cells, slot), old(settings[..]), settings.Length)
                    + FxControls(SlotPages(eeprom.cells, slot)[44], settings.Length)
    {
      ghost var pages := SlotPages(eeprom.cells, slot);
      var addr := SlotAddress(slot);
      addr := LoadSteps(addr, pages);
      addr := LoadClips(addr);
      assert clips[..] == pages[32..36] && addr - 36 == SlotAddress(slot);
      var toggles;
      addr, toggles := LoadLevels(addr, pages);
      var flags := eeprom.ReadByte(addr);
      var effects := SendFx(flags);
      sent := toggles + effects;
      assert Current().steps == LoadedFrom(pages, old(settings[..])).steps;
    }
  }

  lemma ByteOfSlice(cells: seq<byte>, lo: nat, slice: seq<byte>, k: nat)
    requires lo + |slice| <= |cells| && slice == cells[lo..lo + |slice|] && k < |slice|
    ensures slice[k] == cells[lo + k]
  {
  }

  /** The settings and the toggles sent once the levels of the first `n` voices have been taken over. */
  predicate LevelsTaken(pages: seq<byte>, before: seq<SlotSettings>, n: nat, now: seq<SlotSettings>, sent: seq<Control>)
    requires |pages| == 64 && |before| == VOICES && n <= VOICES
  {
    && now == LoadedFrom(pages, before).settings[..n] + before[n..]
    && sent == Toggles(pages, before, n)
  }

  lemma OneMoreLevel(pages: seq<byte>, before: seq<SlotSettings>, n: nat, now: seq<SlotSettings>, sent: seq<Control>)
    requires |pages| == 64 && |before| == VOICES && n < VOICES && LevelsTaken(pages, before, n, now, sent)
    ensures |now| == VOICES && now[n] == before[n]
    ensures LevelsTaken(pages, before, n + 1, now[n := LevelsFrom(pages, n, now[n])],
                        sent + VoiceToggles(pages, n, now[n]))
  {
    var after := LoadedFrom(pages, before).settings;
    assert after[n] == LevelsFrom(pages, n, before[n]);
    assert now[n := after[n]] == after[..n + 1] + before[n + 1..];
  }

  lemma TwoPages(cells: seq<byte>, slot: nat, p: Pattern)
    requires |cells| == EEPROM_SIZE && slot < SLOTS && IsPattern(p)
    ensures var first := StepsPage(p.steps);
      Overwrite(Overwrite(cells, SlotAddress(slot), first), SlotAddress(slot) + EEPROM_PAGE_SIZE,
                SettingsPage(p, first))
      == CellsAfter(cells, Save(slot, p))
  {
    var first := StepsPage(p.steps);
    OverwriteTwice(cells, SlotAddress(slot), first, SettingsPage(p, first));
  }

  lemma StepPosition(i: nat, j: nat)
    requires i < VOICES && j < 8
    ensures 2 * (8 * i + j) / STEPS == i && 2 * (8 * i + j) % STEPS == 2 * j
    ensures (2 * (8 * i + j) + 1) / STEPS == i && (2 * (8 * i + j) + 1) % STEPS == 2 * j + 1
  {
  }
}
