/** The global settings (config.c): loading them from EEPROM, reporting them, and taking them back. */
module GlobalSettings {
  import opened Bits
  import opened MidiPackets
  import opened Nvm
  import SysexReceiver
  import SysexTransport
  import TagValue

  const GLOBAL_TABLE_SIZE := 18

  type GlobalTable = t: seq<byte> | |t| == GLOBAL_TABLE_SIZE witness seq(GLOBAL_TABLE_SIZE, _ => 0)

  // EEPROM locations
  const EE_MIDI_CHANNEL := 0x01
  const EE_BANK_SIDE_SW := 0x03
  const EE_SIDE_SW_1_FUNC := 0x04
  const EE_SUPER_KNOB_START := 0x0A
  const EE_SUPER_KNOB_END := 0x0B
  const EE_RGB_BRIGHTNESS := 0x0C
  const EE_IND_BRIGHTNESS := 0x0D
  const EE_COLOR_MAP := 0x0E
  const EE_ANIMATION_CHANNELS := 0x0F
  const EE_SLEEP_SETTINGS := 0x10
  const EE_BANK_ANIMATIONS_ENABLED := 0x11

  const DEF_ENCODER_ANIMATION_CH: byte := 5
  const DEF_SWITCH_ANIMATION_CH: byte := 2

  // Table indices, in the order of the structure
  const MIDI_CHANNEL := 0
  const SIDE_IS_BANKED := 1
  const SIDE_FUNC_1 := 2
  const SUPER_START := 8
  const SUPER_END := 9
  const RGB_BRIGHTNESS := 10
  const IND_BRIGHTNESS := 11
  const COLOR_MAP := 12
  const ENC_ANIM_CHANNEL := 13
  const SW_ANIM_CHANNEL := 14
  const SLEEP_TIMEOUT := 15
  const SLEEP_ANIMATION := 16
  const BANK_ANIMATIONS := 17

  // ----- Packing (config.h, constants.h)

  function GetEncAnimChannel(packed: byte): byte { (packed >> 4) & 0x0F }
  function GetSwAnimChannel(packed: byte): byte { packed & 0x0F }
  function PackAnimChannels(enc: byte, sw: byte): byte { ((enc & 0x0F) << 4) | (sw & 0x0F) }
  function GetSleepTimeout(v: byte): byte { v & 0x3F }
  function GetSleepAnimation(v: byte): byte { (v >> 6) & 0x03 }
  function PackSleepSettings(timeout: byte, anim: byte): byte { (timeout & 0x3F) | ((anim & 0x03) << 6) }

  lemma PackingUndone(v: byte)
    ensures PackAnimChannels(GetEncAnimChannel(v), GetSwAnimChannel(v)) == v
    ensures PackSleepSettings(GetSleepTimeout(v), GetSleepAnimation(v)) == v
    ensures GetEncAnimChannel(v) + 1 > 0 && GetSwAnimChannel(v) + 1 > 0
  {
  }

  // ----- Tags: 0 to 9 and 31 to 38; those in between belong to the encoder settings

  const TAGS: seq<byte> := [0, 1, 2, 3, 4, 5, 6, 7, 8, 9, 31, 32, 33, 34, 35, 36, 37, 38]

  /** The table entry a tag stands for, or -1 for a tag that is skipped. */
  function Place(tag: byte): int {
    if tag < 10 then tag as int else if tag > 30 then tag as int - 21 else -1
  }

  lemma TagsArePlaced(index: nat)
    requires index < GLOBAL_TABLE_SIZE
    ensures Place(TAGS[index]) == index
  {
    ByteOrder(TAGS[index], 10);
    ByteOrder(TAGS[index], 30);
    assert TAGS[index] as int == if index < 10 then index else 21 + index;
  }

  /** Every tag that is stored has an entry: the table ends with tag 38. */
  predicate TagsInTable(pairs: seq<byte>)
    decreases |pairs|
  {
    |pairs| < 2 || (pairs[0] <= 38 && TagsInTable(pairs[2..]))
  }

  /** The table indices that decoding stores to, in order. */
  function StoreIndices(pairs: seq<byte>): seq<int>
    decreases |pairs|
  {
    if |pairs| < 2 then []
    else (if Place(pairs[0]) < 0 then [] else [Place(pairs[0])]) + StoreIndices(pairs[2..])
  }

  lemma StrayTag(tag: byte)
    ensures tag > 38 <==> Place(tag) >= GLOBAL_TABLE_SIZE
  {
    ByteOrder(tag, 10);
    ByteOrder(tag, 30);
    ByteOrder(tag, 39);
  }

  /** The stores of the first pair come before those of the rest. */
  lemma StoresInTurn(pairs: seq<byte>, index: int)
    requires |pairs| >= 2
    ensures index in StoreIndices(pairs) <==> (index == Place(pairs[0]) >= 0) || index in StoreIndices(pairs[2..])
  {
    var first := if Place(pairs[0]) < 0 then [] else [Place(pairs[0])];
    assert StoreIndices(pairs) == first + StoreIndices(pairs[2..]);
  }

  predicate AllInTable(indices: seq<int>) {
    forall i :: i in indices ==> 0 <= i < GLOBAL_TABLE_SIZE
  }

  /** Every store lands in the table exactly when no tag is above 38. */
  lemma {:induction false} StoresStayInTheTable(pairs: seq<byte>)
    ensures AllInTable(StoreIndices(pairs)) <==> TagsInTable(pairs)
    decreases |pairs|
  {
    if |pairs| < 2 {
    } else {
      StrayTag(pairs[0]);
      StoresInTurn(pairs, Place(pairs[0]));
      StoresStayInTheTable(pairs[2..]);
      forall i ensures i in StoreIndices(pairs) <==> (i == Place(pairs[0]) >= 0) || i in StoreIndices(pairs[2..]) {
        StoresInTurn(pairs, i);
      }
    }
  }

  /** The first store past the table, if there is one. */
  function FirstStray(pairs: seq<byte>): (index: int)
    requires !TagsInTable(pairs)
    ensures index >= GLOBAL_TABLE_SIZE && index in StoreIndices(pairs)
    decreases |pairs|
  {
    var index := if pairs[0] > 38 then Place(pairs[0]) else FirstStray(pairs[2..]);
    StrayTag(pairs[0]);
    StoresInTurn(pairs, index);
    index
  }

  /** A legal seven-bit message can do it: tag 39 addresses the byte after the table. */
  lemma Tag39Strays(value: byte)
    ensures !TagsInTable([39, value, 0xf7]) && FirstStray([39, value, 0xf7]) == GLOBAL_TABLE_SIZE
  {
  }

  const ZERO_TABLE: GlobalTable := [0, 0, 0, 0, 0, 0, 0, 0, 0, 0, 0, 0, 0, 0, 0, 0, 0, 0]

  /** The decoded table, or the index of the first store past it; what C does from there on is undefined. */
  datatype Decoding = InTable(table: GlobalTable) | StrayStore(index: int)

  /** global_tv_table_decode, into a zeroed table. */
  method GlobalTvTableDecode(buffer: seq<byte>) returns (d: Decoding)
    ensures d == if TagsInTable(buffer) then InTable(TagValue.Decoded(ZERO_TABLE, buffer, Place))
                 else StrayStore(FirstStray(buffer))
  {
    var table := ZERO_TABLE;
    var idx := 0;
    var size := |buffer|;
    while idx < size - 1
      invariant 0 <= idx <= size
      invariant TagsInTable(buffer[idx..]) <==> TagsInTable(buffer)
      invariant TagValue.Decoded(table, buffer[idx..], Place) == TagValue.Decoded(ZERO_TABLE, buffer, Place)
      invariant !TagsInTable(buffer) ==> FirstStray(buffer[idx..]) == FirstStray(buffer)
    {
      assert buffer[idx..][2..] == buffer[idx + 2..];
      var tag := buffer[idx];
      ByteOrder(tag, 39);
      ByteOrder(tag, 10);
      ByteOrder(tag, 30);
      idx := idx + 1;
      if tag < 10 {
        table := table[tag as int := buffer[idx]];
      } else if tag > 30 {
        var index := tag as int - 20 - 1;
        if index >= GLOBAL_TABLE_SIZE {
          return StrayStore(index);
        }
        table := table[index := buffer[idx]];
      }
      idx := idx + 1;
    }
    d := InTable(table);
  }

  // ----- The settings in RAM

  const SLEEP_TIMEOUT_MAP: seq<byte> := [0, 1, 3, 5, 10, 20, 30, 60]

  lemma SmallIndex(index: byte)
    requires index <= 7
    ensures index as int < |SLEEP_TIMEOUT_MAP|
  {
    ByteOrder(index, 8);
  }

  /** The minutes a timeout setting stands for; anything beyond the map means never, as index 0 does. */
  function TimeoutMinutes(setting: byte): byte {
    SmallIndex(if setting <= 7 then setting else 0);
    SLEEP_TIMEOUT_MAP[if setting <= 7 then setting else 0]
  }

  class Settings {
    var midiSystemChannel: byte
    var sideIsBanked: bool
    var swAction: seq<byte>
    var superKnobStart: byte
    var superKnobEnd: byte
    var rgbBrightness: byte
    var indBrightness: byte
    var animationChannels: byte
    var sleepTimeoutMinutes: byte
    var sleepAnimationType: byte
    var bankAnimationsEnabled: byte

    constructor ()
      ensures swAction == [0, 0, 0, 0, 0, 0]
    {
      swAction := [0, 0, 0, 0, 0, 0];
    }

    /** The RAM settings are those that load_config reads from `cells`; a C bool keeps only whether its
        byte was zero. */
    ghost predicate LoadedFrom(cells: seq<byte>)
      requires |cells| == EEPROM_SIZE
      reads this
    {
      && midiSystemChannel == cells[EE_MIDI_CHANNEL]
      && sideIsBanked == (cells[EE_BANK_SIDE_SW] != 0)
      && swAction == SideActions(cells)
      && superKnobStart == cells[EE_SUPER_KNOB_START] && superKnobEnd == cells[EE_SUPER_KNOB_END]
      && rgbBrightness == cells[EE_RGB_BRIGHTNESS] && indBrightness == cells[EE_IND_BRIGHTNESS]
      && animationChannels == cells[EE_ANIMATION_CHANNELS]
      && sleepTimeoutMinutes == TimeoutMinutes(GetSleepTimeout(cells[EE_SLEEP_SETTINGS]))
      && sleepAnimationType == GetSleepAnimation(cells[EE_SLEEP_SETTINGS])
      && bankAnimationsEnabled == cells[EE_BANK_ANIMATIONS_ENABLED]
    }

    /** load_config */
    method LoadConfig(eeprom: Eeprom)
      requires eeprom.Valid()
      modifies this
      ensures LoadedFrom(eeprom.cells)
    {
      var channel := eeprom.ReadByte(EE_MIDI_CHANNEL);
      var banked := eeprom.ReadByte(EE_BANK_SIDE_SW);
      var actions := eeprom.ReadBuffer(EE_SIDE_SW_1_FUNC, 6);
      var start := eeprom.ReadByte(EE_SUPER_KNOB_START);
      var end := eeprom.ReadByte(EE_SUPER_KNOB_END);
      var rgb := eeprom.ReadByte(EE_RGB_BRIGHTNESS);
      var ind := eeprom.ReadByte(EE_IND_BRIGHTNESS);
      var animation := eeprom.ReadByte(EE_ANIMATION_CHANNELS);
      var sleep := eeprom.ReadByte(EE_SLEEP_SETTINGS);
      var minutes := MinutesFor(GetSleepTimeout(sleep));
      var enabled := eeprom.ReadByte(EE_BANK_ANIMATIONS_ENABLED);
      midiSystemChannel, sideIsBanked, swAction := channel, banked != 0, actions;
      superKnobStart, superKnobEnd, rgbBrightness, indBrightness := start, end, rgb, ind;
      sleepTimeoutMinutes, sleepAnimationType := minutes, GetSleepAnimation(sleep);
      animationChannels, bankAnimationsEnabled := animation, enabled;
    }

    method MinutesFor(setting: byte) returns (minutes: byte)
      ensures minutes == TimeoutMinutes(setting)
    {
      var timeoutIndex := setting;
      if timeoutIndex > 7 {
        timeoutIndex := 0;
      }
      SmallIndex(timeoutIndex);
      minutes := SLEEP_TIMEOUT_MAP[timeoutIndex];
    }

    /** The values send_config_data reports. */
    method CurrentValues(eeprom: Eeprom) returns (v: GlobalTable)
      requires eeprom.Valid() && LoadedFrom(eeprom.cells)
      ensures v == Reported(eeprom.cells)
    {
      var sleep := eeprom.ReadByte(EE_SLEEP_SETTINGS);
      var colorMap := eeprom.ReadByte(EE_COLOR_MAP);
      v := Values(midiSystemChannel, sideIsBanked, swAction, superKnobStart, superKnobEnd, rgbBrightness,
                  indBrightness, colorMap, animationChannels, sleep, bankAnimationsEnabled);
    }

    /** send_config_data: after load_config the reply reports what the EEPROM holds. */
    method SendConfigData(eeprom: Eeprom, usb: UsbMidi)
      requires eeprom.Valid() && LoadedFrom(eeprom.cells)
      modifies usb
      ensures usb.sent == old(usb.sent) + Packetised(ReplyMessage(Reported(eeprom.cells)), true)
    {
      var v := CurrentValues(eeprom);
      var message := ReplyMessage(v);
      ListedLength(v);
      var payload := new byte[|message|](i requires 0 <= i < |message| => message[i]);
      assert payload[..|message|] == message;
      usb.StreamSysex(|message|, payload);
    }
  }

  const SYSEX_COMMAND_PUSH_CONF: byte := 0x1
  const SYSEX_COMMAND_PULL_CONF: byte := 0x2

  /** The reply to a pull: its command, a 1 for "response", and the pairs. */
  function ReplyMessage(v: GlobalTable): seq<byte> {
    [0xf0, SysexReceiver.MAKER_0, SysexReceiver.MAKER_1, SysexReceiver.MAKER_2, SYSEX_COMMAND_PULL_CONF, 0x1]
    + Listed(v) + [0xf7]
  }

  /** The same pairs as the host pushes them. */
  function PushMessage(v: GlobalTable): seq<byte> {
    [0xf0, SysexReceiver.MAKER_0, SysexReceiver.MAKER_1, SysexReceiver.MAKER_2, SYSEX_COMMAND_PUSH_CONF]
    + Listed(v) + [0xf7]
  }

  /** The values with their tags, as the reply lists them. */
  function Listed(v: GlobalTable): seq<byte> {
    [0, v[0], 1, v[1], 2, v[2], 3, v[3], 4, v[4]] + [5, v[5], 6, v[6], 7, v[7], 8, v[8], 9, v[9]]
    + [31, v[10], 32, v[11], 33, v[12], 34, v[13], 35, v[14]] + [36, v[15], 37, v[16], 38, v[17]]
  }

  lemma ListedLength(v: GlobalTable)
    ensures |Listed(v)| == 2 * GLOBAL_TABLE_SIZE
  {
  }

  lemma ListedInTagOrder(v: GlobalTable)
    ensures Listed(v) == TagValue.TagPairs(TAGS, v, 0, GLOBAL_TABLE_SIZE)
  {
    TagValue.FivePairs(TAGS, v, 0);
    TagValue.FivePairs(TAGS, v, 5);
    TagValue.FivePairs(TAGS, v, 10);
    TagValue.ThreePairs(TAGS, v, 15);
    TagValue.EighteenPairs(TAGS, v);
  }

  function SideActions(cells: seq<byte>): seq<byte>
    requires |cells| == EEPROM_SIZE
  {
    cells[EE_SIDE_SW_1_FUNC..EE_SIDE_SW_1_FUNC + 6]
  }

  /** The table that a device whose EEPROM is `cells` reports. */
  function Reported(cells: seq<byte>): GlobalTable
    requires |cells| == EEPROM_SIZE
  {
    Values(cells[EE_MIDI_CHANNEL], cells[EE_BANK_SIDE_SW] != 0, SideActions(cells), cells[EE_SUPER_KNOB_START],
           cells[EE_SUPER_KNOB_END], cells[EE_RGB_BRIGHTNESS], cells[EE_IND_BRIGHTNESS], cells[EE_COLOR_MAP],
           cells[EE_ANIMATION_CHANNELS], cells[EE_SLEEP_SETTINGS], cells[EE_BANK_ANIMATIONS_ENABLED])
  }

  /** What the reply says of each setting: channels counted from one, packed bytes taken apart. */
  function Values(channel: byte, banked: bool, actions: seq<byte>, start: byte, end: byte, rgb: byte, ind: byte,
      colorMap: byte, animation: byte, sleep: byte, enabled: byte): GlobalTable
    requires |actions| == 6
  {
    [channel + 1, if banked then 1 else 0, actions[0], actions[1], actions[2], actions[3], actions[4], actions[5],
     start, end, rgb, ind, colorMap, GetEncAnimChannel(animation) + 1, GetSwAnimChannel(animation) + 1,
     GetSleepTimeout(sleep), GetSleepAnimation(sleep), enabled]
  }

  // ----- Taking a table in

  /** An animation channel of the table: counted from one, zero meaning the default. */
  function AnimChannel(setting: byte, default: byte): byte {
    if setting > 0 then setting - 1 else default
  }

  /** The EEPROM byte at `x` once table `t` has been stored. */
  function SettingByte(t: GlobalTable, cells: seq<byte>, x: nat): byte
    requires x < |cells|
  {
    if x == EE_MIDI_CHANNEL then t[MIDI_CHANNEL] - 1
    else if EE_BANK_SIDE_SW <= x <= EE_COLOR_MAP then t[x - 2]
    else if x == EE_ANIMATION_CHANNELS then
      PackAnimChannels(AnimChannel(t[ENC_ANIM_CHANNEL], DEF_ENCODER_ANIMATION_CH),
                       AnimChannel(t[SW_ANIM_CHANNEL], DEF_SWITCH_ANIMATION_CH))
    else if x == EE_SLEEP_SETTINGS then PackSleepSettings(t[SLEEP_TIMEOUT], t[SLEEP_ANIMATION])
    else if x == EE_BANK_ANIMATIONS_ENABLED then t[BANK_ANIMATIONS]
    else cells[x]
  }

  /** Consecutive settings, one byte write each. */
  method WriteRun(eeprom: Eeprom, first: nat, values: seq<byte>)
    requires eeprom.Valid() && first + |values| <= EEPROM_SIZE
    modifies eeprom
    ensures eeprom.Valid() && eeprom.cells == Overwrite(old(eeprom.cells), first, values)
  {
    for i := 0 to |values|
      invariant eeprom.Valid() && eeprom.cells == Overwrite(old(eeprom.cells), first, values[..i])
    {
      eeprom.WriteByte(first + i, values[i]);
    }
    assert values[..|values|] == values;
  }

  /** The eighteen settings, in the order in which they are stored. */
  method StoreTable(eeprom: Eeprom, config: GlobalTable)
    requires eeprom.Valid()
    modifies eeprom
    ensures eeprom.Valid() && eeprom.cells == AfterWrites(old(eeprom.cells), config)
  {
    eeprom.WriteByte(EE_MIDI_CHANNEL, config[MIDI_CHANNEL] - 1);
    WriteRun(eeprom, EE_BANK_SIDE_SW, config[SIDE_IS_BANKED..ENC_ANIM_CHANNEL]);
    var encCh := if config[ENC_ANIM_CHANNEL] > 0 then config[ENC_ANIM_CHANNEL] - 1 else DEF_ENCODER_ANIMATION_CH;
    var swCh := if config[SW_ANIM_CHANNEL] > 0 then config[SW_ANIM_CHANNEL] - 1 else DEF_SWITCH_ANIMATION_CH;
    eeprom.WriteByte(EE_ANIMATION_CHANNELS, PackAnimChannels(encCh, swCh));
    eeprom.WriteByte(EE_SLEEP_SETTINGS, PackSleepSettings(config[SLEEP_TIMEOUT], config[SLEEP_ANIMATION]));
    eeprom.WriteByte(EE_BANK_ANIMATIONS_ENABLED, config[BANK_ANIMATIONS]);
  }

  /** sysExCmdPushConfig, up to the point where it reloads its settings. A tag above 38 is met before the
      first write; the model ends there. */
  method PushConfig(eeprom: Eeprom, args: seq<byte>) returns (stray: bool)
    requires eeprom.Valid()
    modifies eeprom
    ensures eeprom.Valid() && (stray <==> !TagsInTable(args))
    ensures eeprom.cells == if stray then old(eeprom.cells)
                            else AfterWrites(old(eeprom.cells), TagValue.Decoded(ZERO_TABLE, args, Place))
  {
    var d := GlobalTvTableDecode(args);
    stray := d.StrayStore?;
    if !stray {
      StoreTable(eeprom, d.table);
    }
  }

  /** The EEPROM after the writes, in their order. */
  function AfterWrites(cells: seq<byte>, t: GlobalTable): (r: seq<byte>)
    requires |cells| == EEPROM_SIZE
    ensures |r| == EEPROM_SIZE
  {
    var c1 := cells[EE_MIDI_CHANNEL := t[MIDI_CHANNEL] - 1];
    var c2 := Overwrite(c1, EE_BANK_SIDE_SW, t[SIDE_IS_BANKED..ENC_ANIM_CHANNEL]);
    var c3 := c2[EE_ANIMATION_CHANNELS := PackAnimChannels(AnimChannel(t[ENC_ANIM_CHANNEL], DEF_ENCODER_ANIMATION_CH),
                                                           AnimChannel(t[SW_ANIM_CHANNEL], DEF_SWITCH_ANIMATION_CH))];
    var c4 := c3[EE_SLEEP_SETTINGS := PackSleepSettings(t[SLEEP_TIMEOUT], t[SLEEP_ANIMATION])];
    c4[EE_BANK_ANIMATIONS_ENABLED := t[BANK_ANIMATIONS]]
  }

  /** The writes land where the layout says, and nowhere else. */
  lemma WrittenInOrder(cells: seq<byte>, t: GlobalTable, x: nat)
    requires |cells| == EEPROM_SIZE && x < EEPROM_SIZE
    ensures AfterWrites(cells, t)[x] == SettingByte(t, cells, x)
  {
  }

  // ----- Round trip

  /** The reply's pairs, ended by F7 as the handler receives them, decode to the reported table. */
  lemma ReplyDecodes(v: GlobalTable)
    ensures TagsInTable(Listed(v) + [0xf7])
    ensures TagValue.Decoded(ZERO_TABLE, Listed(v) + [0xf7], Place) == v
  {
    forall i | 0 <= i < |TAGS| ensures Place(TAGS[i]) == i {
      TagsArePlaced(i);
    }
    var n := GLOBAL_TABLE_SIZE;
    ListedInTagOrder(v);
    TagsUpTo38(v, 0, n);
    TagValue.DecodeTagPairs(ZERO_TABLE, TAGS, v, 0, n, Place);
    TagValue.OddLastByte(ZERO_TABLE, TagValue.TagPairs(TAGS, v, 0, n), 0xf7, Place);
    assert TagValue.Merged(ZERO_TABLE, v, 0, n) == v;
  }

  lemma TagIsAtMost38(index: nat)
    requires index < GLOBAL_TABLE_SIZE
    ensures TAGS[index] <= 38
  {
  }

  lemma {:induction false} TagsUpTo38(values: GlobalTable, low: nat, high: nat)
    requires low <= high <= GLOBAL_TABLE_SIZE
    ensures TagsInTable(TagValue.TagPairs(TAGS, values, low, high) + [0xf7])
    decreases high - low
  {
    if low == high {
    } else {
      TagIsAtMost38(low);
      TagsUpTo38(values, low + 1, high);
      var pairs, rest := TagValue.TagPairs(TAGS, values, low, high), TagValue.TagPairs(TAGS, values, low + 1, high);
      assert (pairs + [0xf7])[2..] == rest + [0xf7];
    }
  }

  /** The unpacked part of the reported table follows the EEPROM layout. */
  lemma ReportedEntry(cells: seq<byte>, k: nat)
    requires |cells| == EEPROM_SIZE && SIDE_FUNC_1 <= k <= COLOR_MAP
    ensures Reported(cells)[k] == cells[k + 2]
  {
    var t := Reported(cells);
    if k < SUPER_START {
      var actions := SideActions(cells);
      assert t[2] == actions[0] && t[3] == actions[1] && t[4] == actions[2];
      assert t[5] == actions[3] && t[6] == actions[4] && t[7] == actions[5];
      assert actions[k - 2] == cells[k + 2];
    } else {
      assert t[SUPER_START] == cells[10] && t[SUPER_END] == cells[11] && t[RGB_BRIGHTNESS] == cells[12];
      assert t[IND_BRIGHTNESS] == cells[13] && t[COLOR_MAP] == cells[14];
    }
  }

  lemma ReportedPacked(cells: seq<byte>)
    requires |cells| == EEPROM_SIZE
    ensures var t := Reported(cells);
      && t[MIDI_CHANNEL] == cells[EE_MIDI_CHANNEL] + 1
      && t[SIDE_IS_BANKED] == (if cells[EE_BANK_SIDE_SW] != 0 then 1 else 0)
      && t[ENC_ANIM_CHANNEL] == GetEncAnimChannel(cells[EE_ANIMATION_CHANNELS]) + 1
      && t[SW_ANIM_CHANNEL] == GetSwAnimChannel(cells[EE_ANIMATION_CHANNELS]) + 1
      && t[SLEEP_TIMEOUT] == GetSleepTimeout(cells[EE_SLEEP_SETTINGS])
      && t[SLEEP_ANIMATION] == GetSleepAnimation(cells[EE_SLEEP_SETTINGS])
      && t[BANK_ANIMATIONS] == cells[EE_BANK_ANIMATIONS_ENABLED]
  {
  }

  /** Main result: reporting the settings and pushing the report back rewrites every byte with its own
      value, except that the side-banked byte becomes 0 or 1. */
  lemma ReportThenPush(cells: seq<byte>, x: nat)
    requires |cells| == EEPROM_SIZE && x < EEPROM_SIZE
    ensures SettingByte(Reported(cells), cells, x)
         == if x == EE_BANK_SIDE_SW && cells[x] != 0 then 1 else cells[x]
  {
    PackingUndone(cells[EE_ANIMATION_CHANNELS]);
    PackingUndone(cells[EE_SLEEP_SETTINGS]);
    ReportedPacked(cells);
    if EE_SIDE_SW_1_FUNC <= x <= EE_COLOR_MAP {
      ReportedEntry(cells, x - 2);
    }
  }

  /** Hence storing the pairs of the reply leaves the EEPROM unchanged exactly when that byte was 0 or 1. */
  lemma StoredBackExactlyWhen(cells: seq<byte>)
    requires |cells| == EEPROM_SIZE
    ensures TagsInTable(Listed(Reported(cells)) + [0xf7])
    ensures AfterWrites(cells, TagValue.Decoded(ZERO_TABLE, Listed(Reported(cells)) + [0xf7], Place)) == cells
       <==> cells[EE_BANK_SIDE_SW] == 0 || cells[EE_BANK_SIDE_SW] == 1
  {
    ReplyDecodes(Reported(cells));
    var after := AfterWrites(cells, Reported(cells));
    forall x | 0 <= x < EEPROM_SIZE
      ensures after[x] == if x == EE_BANK_SIDE_SW && cells[x] != 0 then 1 else cells[x] {
      WrittenInOrder(cells, Reported(cells), x);
      ReportThenPush(cells, x);
    }
    assert after[EE_BANK_SIDE_SW] == if cells[EE_BANK_SIDE_SW] != 0 then 1 else 0;
  }

  /** Over the wire: the pairs of the reply, pushed by the host, call the push handler once with those pairs.
      So the whole exchange leaves the EEPROM unchanged exactly when the side-banked byte was 0 or 1. */
  lemma RoundTripExactlyWhen(cells: seq<byte>, channel: byte, commands: SysexReceiver.CommandMap)
    requires |cells| == EEPROM_SIZE && commands[0] == SysexReceiver.Some(SysexReceiver.PushConfig)
    ensures var args := Listed(Reported(cells)) + [0xf7];
      && SysexReceiver.RunEffects(SysexReceiver.Idle, Packetised(PushMessage(Reported(cells)), true), channel, commands)
         == [SysexReceiver.Call(SysexReceiver.PushConfig, args)]
      && TagsInTable(args)
      && (AfterWrites(cells, TagValue.Decoded(ZERO_TABLE, args, Place)) == cells
          <==> cells[EE_BANK_SIDE_SW] == 0 || cells[EE_BANK_SIDE_SW] == 1)
  {
    ListedLength(Reported(cells));
    SysexTransport.CommandRoundTrip(SYSEX_COMMAND_PUSH_CONF, Listed(Reported(cells)), channel, commands);
    StoredBackExactlyWhen(cells);
  }

  /** A legal push that makes the round trip fail: it stores 2 in the side-banked byte, which is reported, and
      so pushed back, as 1. */
  lemma LegalPushIsNotRestored(cells: seq<byte>)
    requires |cells| == EEPROM_SIZE
    ensures TagsInTable([1, 2, 0xf7])
    ensures var after := AfterWrites(cells, TagValue.Decoded(ZERO_TABLE, [1, 2, 0xf7], Place));
      && after[EE_BANK_SIDE_SW] == 2
      && AfterWrites(after, TagValue.Decoded(ZERO_TABLE, Listed(Reported(after)) + [0xf7], Place)) != after
  {
    var args: seq<byte> := [1, 2, 0xf7];
    assert args[2..] == [0xf7];
    TagsArePlaced(1);
    var t := TagValue.Decoded(ZERO_TABLE, args, Place);
    assert t == TagValue.Decoded(ZERO_TABLE[1 := 2], [0xf7], Place) == ZERO_TABLE[1 := 2];
    WrittenInOrder(cells, t, EE_BANK_SIDE_SW);
    StoredBackExactlyWhen(AfterWrites(cells, t));
  }
}
