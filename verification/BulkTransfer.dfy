/** The bulk transfer command (config.c): encoder settings pushed and pulled as tag-value pairs, in
    numbered parts of at most 24 bytes. */
module BulkTransfer {
  import opened Bits
  import opened MidiPackets
  import opened SysexReceiver
  import opened SysexTransport
  import opened Nvm
  import EncoderBanks
  import opened EncoderRecords
  import EncoderRuns
  import opened EncoderStore
  import EncoderValues
  import TagValue

  const SYSEX_COMMAND_BULK_XFER: byte := 0x4
  const PART_SIZE := 24
  const TAGS: seq<byte> := [10, 11, 12, 13, 14, 15, 16, 17, 18, 19, 20, 21, 22, 23, 24]

  // ----- Which encoder a wire tag names

  /** A tag of 0 on the wire stands for the last encoder, whose number does not fit in seven bits. */
  function TagNumber(wire: byte): nat {
    if wire == 0 then NUM_BANKS * 16 else wire as int
  }

  function TagBank(wire: byte): nat {
    (TagNumber(wire) - 1) / 16
  }

  function TagEncoder(wire: byte): nat {
    (TagNumber(wire) - 1) % 16
  }

  function WireTag(bank: nat, encoder: nat): (wire: byte)
    requires IsEncoder(bank, encoder)
  {
    if 16 * bank + encoder + 1 == NUM_BANKS * 16 then 0 else ByteOf(16 * bank + encoder + 1)
  }

  /** Seven-bit wire tags and encoders correspond one to one. */
  lemma TagsNameEncoders(bank: nat, encoder: nat, wire: byte)
    requires IsEncoder(bank, encoder) && wire < 0x80
    ensures WireTag(bank, encoder) < 0x80
    ensures TagBank(WireTag(bank, encoder)) == bank && TagEncoder(WireTag(bank, encoder)) == encoder
    ensures IsEncoder(TagBank(wire), TagEncoder(wire)) && WireTag(TagBank(wire), TagEncoder(wire)) == wire
  {
    ByteOrder(wire, 0x80);
    ByteOrder(wire, 0);
    ByteOrder(WireTag(bank, encoder), 0x80);
    ByteOrder(WireTag(bank, encoder), 0);
    ByteOrder(WireTag(TagBank(wire), TagEncoder(wire)), wire);
  }

  // ----- Tag-value pairs

  const LEAVE_ALL: ConfigTable := [
    0x80, 0x80, 0x80, 0x80, 0x80, 0x80, 0x80, 0x80, 0x80, 0x80, 0x80, 0x80, 0x80, 0x80, 0x80]

  /** The table entry a tag stands for; the subtraction is that of a uint8. */
  function Place(tag: byte): int {
    (tag - 10) as int
  }

  lemma TagsArePlaced(index: nat)
    requires index < ENC_CFG_SIZE
    ensures Place(TAGS[index]) == index
  {
    TagMinusTen(TAGS[index]);
    assert TAGS[index] as int == 10 + index;
  }

  lemma TagMinusTen(tag: byte)
    requires tag as int >= 10
    ensures (tag - 10) as int == tag as int - 10
  {
  }

  /** The table that a part's data decodes to. */
  function DecodePairs(pairs: seq<byte>): ConfigTable {
    TagValue.Decoded(LEAVE_ALL, pairs, Place)
  }

  /** Pairs for the entries from `low` up to `high`. */
  function TagPairs(t: ConfigTable, low: nat, high: nat): (pairs: seq<byte>)
    requires low <= high <= ENC_CFG_SIZE
    ensures |pairs| == 2 * (high - low)
  {
    TagValue.TagPairs(TAGS, t, low, high)
  }

  /** Decoding undoes tagging. */
  lemma DecodeTagPairs(values: ConfigTable, low: nat, high: nat)
    requires low <= high <= ENC_CFG_SIZE
    ensures DecodePairs(TagPairs(values, low, high)) == TagValue.Merged(LEAVE_ALL, values, low, high)
  {
    forall i | 0 <= i < |TAGS| ensures Place(TAGS[i]) == i {
      TagsArePlaced(i);
    }
    TagValue.DecodeTagPairs(LEAVE_ALL, TAGS, values, low, high, Place);
  }

  // ----- Push

  /** A push the handler goes through with: numbered part, and as much data as it says. */
  predicate IsWellFormedPush(args: seq<byte>) {
    |args| > 5 && args[0] == 0 && args[2] != 0 && args[4] as int <= |args| - 5
  }

  /** A push whose copy to RAM goes past the table. */
  predicate IsStrayPush(ram: Ram, args: seq<byte>)
    requires IsRam(ram)
  {
    IsWellFormedPush(args) && CopyIndex(ram, TagBank(args[1]), TagEncoder(args[1])) >= EncoderBanks.BANKED_ENCODERS
  }

  /** That happens exactly for tags above 128, which no legal SysEx message can carry, and for encoders that
      are in their shift state, which a legal one can name. */
  lemma StraysExactlyWhen(ram: Ram, args: seq<byte>)
    requires IsRam(ram) && IsWellFormedPush(args)
    ensures IsEncoder(TagBank(args[1]), TagEncoder(args[1])) <==> args[1] <= 0x80
    ensures IsStrayPush(ram, args)
       <==> args[1] > 0x80 || IsInShiftState(ram, TagBank(args[1]), TagEncoder(args[1]))
  {
    ByteOrder(0x80, args[1]);
    ByteOrder(args[1], 0);
    TagInRange(args[1]);
    CopyStaysInTheTable(ram, TagBank(args[1]), TagEncoder(args[1]));
  }

  /** A legal push that does: to the first encoder, once a press of its switch has shifted it. */
  lemma LegalPushCanStray(settings: EncoderBanks.AllSettings, t: EncoderRuns.Tables)
    requires EncoderRuns.IsTables(t) && t.bank == 0
    requires settings[0].switchAction == EncoderValues.ENC_SHIFT_TOGGLE && !t.toggles[0]
    ensures var t' := EncoderRuns.AfterSwitch(settings, t, 0, true);
      IsStrayPush(Ram(settings, t'.switches, t'.toggles), [0, 1, 1, 1, 0, 0xf7])
  {
    var t' := EncoderRuns.AfterSwitch(settings, t, 0, true);
    OnePressShifts(settings, t);
    assert TagBank(1) == 0 && TagEncoder(1) == 0;
    CopyStaysInTheTable(Ram(settings, t'.switches, t'.toggles), 0, 0);
  }

  /** The EEPROM after the handler has dealt with a push message. */
  function Pushed(cells: seq<byte>, args: seq<byte>): (r: seq<byte>)
    requires |cells| == EEPROM_SIZE
    ensures |r| == EEPROM_SIZE
  {
    if IsWellFormedPush(args) && IsEncoder(TagBank(args[1]), TagEncoder(args[1]))
    then Saved(cells, TagBank(args[1]), TagEncoder(args[1]), DecodePairs(args[5..5 + args[4] as int]))
    else cells
  }

  /** The decoding loop of the push branch. */
  method DecodeLoop(buffer: seq<byte>, size: nat) returns (config: ConfigTable)
    requires size <= |buffer|
    ensures config == DecodePairs(buffer[..size])
  {
    config := LEAVE_ALL;
    var idx := 0;
    while idx < size - 1
      invariant 0 <= idx <= size
      invariant TagValue.Decoded(config, buffer[idx..size], Place) == DecodePairs(buffer[..size])
    {
      assert buffer[idx..size][2..] == buffer[idx + 2..size];
      var tag := buffer[idx] - 10;
      idx := idx + 1;
      if tag as int < ENC_CFG_SIZE {
        config := config[tag as int := buffer[idx]];
      }
      idx := idx + 1;
    }
  }

  // ----- Pull

  /** The values a pull reports: channels counted from one, the unused switch type as zero. */
  function Outgoing(t: ConfigTable): ConfigTable {
    [ t[HAS_DETENT], t[MOVEMENT], t[SWITCH_ACTION], t[SWITCH_CHANNEL] + 1, t[SWITCH_NUMBER], 0x00,
      t[ENCODER_CHANNEL] + 1, t[ENCODER_NUMBER], t[ENCODER_TYPE], t[ACTIVE_COLOR], t[INACTIVE_COLOR],
      t[DETENT_COLOR], t[INDICATOR_TYPE], t[SUPER_KNOB], t[SHIFT_CHANNEL] + 1 ]
  }

  function PartCount(n: nat): nat {
    n / PART_SIZE + 1
  }

  /** The data of part `k`, counting from zero. */
  function Chunk(data: seq<byte>, k: nat): (chunk: seq<byte>)
    ensures |chunk| <= PART_SIZE
  {
    if PART_SIZE * (k + 1) <= |data| then data[PART_SIZE * k..PART_SIZE * (k + 1)]
    else if PART_SIZE * k <= |data| then data[PART_SIZE * k..]
    else []
  }

  /** The body of a part: push command, wire tag, part number, part count, size, data. */
  function PartBody(tag: byte, k: nat, total: nat, chunk: seq<byte>): seq<byte>
    requires k < total < 256 && |chunk| <= PART_SIZE
  {
    [0x0, tag, ByteOf(k + 1), ByteOf(total), ByteOf(|chunk|)] + chunk
  }

  function BulkMessage(body: seq<byte>): seq<byte> {
    [0xf0, MAKER_0, MAKER_1, MAKER_2, SYSEX_COMMAND_BULK_XFER] + body + [0xf7]
  }

  function PartMessage(tag: byte, data: seq<byte>, k: nat): seq<byte>
    requires |data| < 256 && k < PartCount(|data|)
  {
    BulkMessage(PartBody(tag, k, PartCount(|data|), Chunk(data, k)))
  }

  /** The first `n` of the part messages for `data`. */
  function PartMessages(tag: byte, data: seq<byte>, n: nat): (msgs: seq<seq<byte>>)
    requires |data| < 256 && n <= PartCount(|data|)
    ensures |msgs| == n
  {
    if n == 0 then []
    else PartMessages(tag, data, n - 1) + [PartMessage(tag, data, n - 1)]
  }

  function Concatenated(data: seq<byte>, n: nat): seq<byte> {
    if n == 0 then [] else Concatenated(data, n - 1) + Chunk(data, n - 1)
  }

  /** The parts together carry exactly the data. */
  lemma {:induction false} PartsCarryData(data: seq<byte>, n: nat)
    requires n <= PartCount(|data|)
    ensures Concatenated(data, n) == if PART_SIZE * n <= |data| then data[..PART_SIZE * n] else data
    ensures n == PartCount(|data|) ==> Concatenated(data, n) == data
  {
    if n == 0 {
    } else {
      PartsCarryData(data, n - 1);
    }
  }

  /** Part `k` of `total` carries `chunk`: its part number, part count and size bytes say so. */
  predicate IsPart(msg: seq<byte>, k: nat, total: nat, chunk: seq<byte>) {
    && |msg| == 11 + |chunk| && msg[10..|msg| - 1] == chunk
    && msg[7] as int == k + 1 && msg[8] as int == total && msg[9] as int == |chunk|
  }

  lemma MessageShape(tag: byte, k: nat, total: nat, chunk: seq<byte>)
    requires k < total < 256 && |chunk| <= PART_SIZE
    ensures IsPart(BulkMessage(PartBody(tag, k, total, chunk)), k, total, chunk)
  {
    var body := PartBody(tag, k, total, chunk);
    assert body[2] == ByteOf(k + 1) && body[3] == ByteOf(total) && body[4] == ByteOf(|chunk|);
    var msg := BulkMessage(body);
    assert msg[7] == body[2] && msg[8] == body[3] && msg[9] == body[4];
    assert msg == [0xf0, MAKER_0, MAKER_1, MAKER_2, SYSEX_COMMAND_BULK_XFER]
      + [0x0, tag, ByteOf(k + 1), ByteOf(total), ByteOf(|chunk|)] + chunk + [0xf7];
  }

  /** Message `msg` is part `k` of those that carry `data`. */
  predicate IsPartOf(msg: seq<byte>, k: nat, data: seq<byte>) {
    IsPart(msg, k, PartCount(|data|), Chunk(data, k))
  }

  /** The messages are numbered from 1 on, announce the total, and hold their chunk of at most 24 bytes. */
  predicate AreParts(msgs: seq<seq<byte>>, data: seq<byte>) {
    forall k :: 0 <= k < |msgs| ==> IsPartOf(msgs[k], k, data)
  }

  lemma NextPart(tag: byte, k: nat, data: seq<byte>)
    requires |data| < 256 && k < PartCount(|data|)
    ensures IsPartOf(PartMessage(tag, data, k), k, data)
  {
    MessageShape(tag, k, PartCount(|data|), Chunk(data, k));
  }

  lemma {:induction false} PartAt(tag: byte, data: seq<byte>, n: nat, k: nat)
    requires |data| < 256 && k < n <= PartCount(|data|)
    ensures PartMessages(tag, data, n)[k] == PartMessage(tag, data, k)
  {
    if k == n - 1 {
    } else {
      PartAt(tag, data, n - 1, k);
    }
  }

  lemma PartsAreNumbered(tag: byte, data: seq<byte>, n: nat)
    requires |data| < 256 && n <= PartCount(|data|)
    ensures AreParts(PartMessages(tag, data, n), data)
  {
    forall k | 0 <= k < n ensures IsPartOf(PartMessages(tag, data, n)[k], k, data) {
      PartAt(tag, data, n, k);
      NextPart(tag, k, data);
    }
  }

  lemma {:induction false} AllPacketsAppend(msgs: seq<seq<byte>>, msg: seq<byte>)
    ensures AllPackets(msgs + [msg]) == AllPackets(msgs) + Packetised(msg, true)
  {
    if msgs == [] {
      assert msgs + [msg] == [msg];
    } else {
      assert (msgs + [msg])[1..] == msgs[1..] + [msg];
      AllPacketsAppend(msgs[1..], msg);
    }
  }

  /** Compose part `k` in a buffer filled with terminators, and send it. */
  method SendPart(usb: UsbMidi, tag: byte, k: nat, total: nat, chunk: seq<byte>)
    requires k < total < 256 && |chunk| <= PART_SIZE
    modifies usb
    ensures usb.sent == old(usb.sent) + Packetised(BulkMessage(PartBody(tag, k, total, chunk)), true)
  {
    var header := [0xf0, MAKER_0, MAKER_1, MAKER_2, SYSEX_COMMAND_BULK_XFER,
                   0x0, tag, ByteOf(k + 1), ByteOf(total), ByteOf(|chunk|)];
    var payload := new byte[35](i requires 0 <= i < 35 => if i < 10 then header[i] else 0xf7);
    CopyInto(payload, 10, chunk);
    var length := 11 + |chunk|;
    var msg := BulkMessage(PartBody(tag, k, total, chunk));
    assert msg == header + chunk + [0xf7];
    assert payload[..length] == msg;
    usb.StreamSysex(length, payload);
  }

  method CopyInto(target: array<byte>, start: nat, bytes: seq<byte>)
    requires start + |bytes| <= target.Length
    modifies target
    ensures forall i :: start <= i < start + |bytes| ==> target[i] == bytes[i - start]
    ensures forall i :: 0 <= i < target.Length && !(start <= i < start + |bytes|) ==> target[i] == old(target[i])
  {
    for idx := 0 to |bytes|
      invariant forall i :: start <= i < start + idx ==> target[i] == bytes[i - start]
      invariant forall i :: 0 <= i < target.Length && !(start <= i < start + idx) ==> target[i] == old(target[i])
    {
      target[start + idx] := bytes[idx];
    }
  }

  lemma OneMorePart(tag: byte, data: seq<byte>, k: nat, before: seq<Packet>)
    requires |data| < 256 && k < PartCount(|data|)
    ensures before + AllPackets(PartMessages(tag, data, k + 1))
         == before + AllPackets(PartMessages(tag, data, k))
          + Packetised(PartMessage(tag, data, k), true)
  {
    AllPacketsAppend(PartMessages(tag, data, k), PartMessage(tag, data, k));
  }

  /** Before part `k`, `index` bytes have gone out and `remaining` are left. */
  predicate AtPart(data: seq<byte>, k: nat, index: nat, remaining: nat) {
    k < PartCount(|data|) ==> index == PART_SIZE * k && index + remaining == |data|
  }

  /** The uint8 count after one more part; it wraps once nothing is left. */
  function Countdown(remaining: nat): nat {
    (remaining - PART_SIZE) % 256
  }

  lemma PartArithmetic(data: seq<byte>, k: nat, index: nat, remaining: nat, size: nat, left: nat)
    requires |data| < 256 && k < PartCount(|data|) && AtPart(data, k, index, remaining)
    requires size == (if remaining > PART_SIZE then PART_SIZE else remaining) && left == Countdown(remaining)
    ensures index + size <= |data| && Chunk(data, k) == data[index..index + size]
    ensures AtPart(data, k + 1, index + size, left)
  {
  }

  predicate PartsSent(tag: byte, data: seq<byte>, n: nat, sent0: seq<Packet>, sent: seq<Packet>)
    requires |data| < 256 && n <= PartCount(|data|)
  {
    sent == sent0 + AllPackets(PartMessages(tag, data, n))
  }

  /** One turn of the pull loop. */
  method SendNextPart(usb: UsbMidi, tag: byte, data: seq<byte>, k: nat, index: nat, remaining: nat,
      ghost sent0: seq<Packet>)
    returns (index': nat, remaining': nat)
    requires |data| < 256 && k < PartCount(|data|) && AtPart(data, k, index, remaining)
    requires PartsSent(tag, data, k, sent0, usb.sent)
    modifies usb
    ensures AtPart(data, k + 1, index', remaining')
    ensures PartsSent(tag, data, k + 1, sent0, usb.sent)
  {
    OneMorePart(tag, data, k, sent0);
    var size := if remaining > PART_SIZE then PART_SIZE else remaining;
    remaining' := Countdown(remaining);
    PartArithmetic(data, k, index, remaining, size, remaining');
    SendPart(usb, tag, k, PartCount(|data|), data[index..index + size]);
    index' := index + size;
  }

  /** The pull loop, for any data that a uint8 can count. */
  method SendParts(usb: UsbMidi, tag: byte, data: seq<byte>)
    requires |data| < 256
    modifies usb
    ensures usb.sent == old(usb.sent) + AllPackets(PartMessages(tag, data, PartCount(|data|)))
  {
    var bytesRemaining: nat, index: nat, part: nat := |data|, 0, 1;
    var total := bytesRemaining / PART_SIZE + 1;
    while part <= total
      invariant 1 <= part <= total + 1 && total == PartCount(|data|)
      invariant AtPart(data, part - 1, index, bytesRemaining)
      invariant PartsSent(tag, data, part - 1, old(usb.sent), usb.sent)
    {
      index, bytesRemaining := SendNextPart(usb, tag, data, part - 1, index, bytesRemaining, old(usb.sent));
      part := part + 1;
    }
  }

  /** The data a pull of wire tag `wire` is answered with: nothing for a tag that names no encoder. */
  function PullData(cells: seq<byte>, wire: byte): (data: seq<byte>)
    requires |cells| == EEPROM_SIZE
    ensures |data| <= 2 * ENC_CFG_SIZE
  {
    if IsEncoder(TagBank(wire), TagEncoder(wire))
    then TagPairs(Outgoing(Unpacked(RecordAt(cells, TagBank(wire), TagEncoder(wire)))), 0, ENC_CFG_SIZE)
    else []
  }

  /** The push branch of the handler. */
  method PushCommand(eeprom: Eeprom, ram: Ram, args: seq<byte>) returns (stray: bool)
    requires eeprom.Valid() && eeprom.pageBuffer == map[] && IsRam(ram)
    requires |args| > 2 && args[0] == 0
    modifies eeprom
    ensures eeprom.Valid() && eeprom.pageBuffer == map[]
    ensures stray <==> IsStrayPush(ram, args)
    ensures eeprom.cells == if stray then old(eeprom.cells) else Pushed(old(eeprom.cells), args)
  {
    stray := false;
    if |args| > 5 {
      var part := args[2];
      if part == 0 {
        return;
      }
      var size := args[4] as int;
      if size > |args| - 5 {
        return;
      }
      stray := SavePart(eeprom, ram, args, size);
    }
  }

  /** Its last part: decode and save. */
  method SavePart(eeprom: Eeprom, ram: Ram, args: seq<byte>, size: nat) returns (stray: bool)
    requires eeprom.Valid() && eeprom.pageBuffer == map[] && IsRam(ram)
    requires IsWellFormedPush(args) && size == args[4] as int
    modifies eeprom
    ensures eeprom.Valid() && eeprom.pageBuffer == map[]
    ensures stray <==> IsStrayPush(ram, args)
    ensures eeprom.cells == if stray then old(eeprom.cells) else Pushed(old(eeprom.cells), args)
  {
    var bank, encoder := TagBank(args[1]), TagEncoder(args[1]);
    CopyStaysInTheTable(ram, bank, encoder);
    var config := DecodeLoop(args[5..], size);
    assert args[5..][..size] == args[5..5 + size];
    stray := SaveEncoderConfig(eeprom, ram, bank, encoder, config);
  }

  /** The packets a pull of wire tag `wire` is answered with. */
  function PullReply(cells: seq<byte>, wire: byte): seq<Packet>
    requires |cells| == EEPROM_SIZE
  {
    var data := PullData(cells, wire);
    AllPackets(PartMessages(if TagNumber(wire) == 128 then 0 else wire, data, PartCount(|data|)))
  }

  /** The settings a pull is answered with. */
  method PulledData(eeprom: Eeprom, wire: byte) returns (configData: seq<byte>)
    requires eeprom.Valid()
    ensures configData == PullData(eeprom.cells, wire)
  {
    var tag := TagNumber(wire);
    var bank: nat, encoder: nat := 0, 0;
    if tag > 0 && tag <= NUM_BANKS * 16 {
      bank, encoder := (tag - 1) / 16, (tag - 1) % 16;
    }
    var t := GetEncoderConfig(eeprom, bank, encoder);
    configData := Listed(t);
    TagInRange(wire);
    if tag < 1 || tag > NUM_BANKS * 16 {
      configData := [];
    }
  }

  /** The pull branch of the handler. */
  method PullCommand(eeprom: Eeprom, usb: UsbMidi, wire: byte)
    requires eeprom.Valid()
    modifies usb
    ensures usb.sent == old(usb.sent) + PullReply(eeprom.cells, wire)
  {
    var configData := PulledData(eeprom, wire);
    var tagOut := if TagNumber(wire) == NUM_BANKS * 16 then 0 else wire;
    SendParts(usb, tagOut, configData);
  }

  /** The reply's data as the handler lists it. */
  method Listed(t: ConfigTable) returns (data: seq<byte>)
    ensures data == TagPairs(Outgoing(t), 0, ENC_CFG_SIZE)
  {
    var o := Outgoing(t);
    data := [10, t[HAS_DETENT], 11, t[MOVEMENT], 12, t[SWITCH_ACTION], 13, t[SWITCH_CHANNEL] + 1, 14, t[SWITCH_NUMBER]]
      + [15, 0x00, 16, t[ENCODER_CHANNEL] + 1, 17, t[ENCODER_NUMBER], 18, t[ENCODER_TYPE], 19, t[ACTIVE_COLOR]]
      + [20, t[INACTIVE_COLOR], 21, t[DETENT_COLOR], 22, t[INDICATOR_TYPE], 23, t[SUPER_KNOB],
         24, t[SHIFT_CHANNEL] + 1];
    TagValue.FivePairs(TAGS, o, 0);
    TagValue.FivePairs(TAGS, o, 5);
    TagValue.FivePairs(TAGS, o, 10);
    TagValue.FifteenPairs(TAGS, o);
  }

  lemma TagInRange(wire: byte)
    ensures TagNumber(wire) >= 1
    ensures IsEncoder(TagBank(wire), TagEncoder(wire)) <==> TagNumber(wire) <= 128
  {
    ByteOrder(wire, 0);
  }

  /** sysExCmdBulkXfer */
  method BulkXferCommand(eeprom: Eeprom, ram: Ram, usb: UsbMidi, args: seq<byte>) returns (stray: bool)
    requires eeprom.Valid() && eeprom.pageBuffer == map[] && IsRam(ram)
    modifies eeprom, usb
    ensures eeprom.Valid() && eeprom.pageBuffer == map[]
    ensures stray <==> IsStrayPush(ram, args)
    ensures eeprom.cells == if stray then old(eeprom.cells) else Pushed(old(eeprom.cells), args)
    ensures usb.sent == old(usb.sent)
          + if |args| > 2 && args[0] == 1 then PullReply(old(eeprom.cells), args[1]) else []
  {
    stray := false;
    if |args| > 2 {
      var command := args[0];
      if command == 0 {
        stray := PushCommand(eeprom, ram, args);
      } else if command == 1 {
        PullCommand(eeprom, usb, args[1]);
      }
    }
  }
}
