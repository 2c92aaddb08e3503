/** Pull and push of the bulk transfer undo each other, over the wire and through the EEPROM. */
module BulkRoundTrip {
  import opened Bits
  import opened SysexReceiver
  import opened SysexTransport
  import opened Nvm
  import opened EncoderRecords
  import opened BulkTransfer
  import opened EncoderStore
  import FactoryReset
  import TagValue

  // ----- One record

  /** Each reported setting, given back, stores the value it was read from. */
  lemma ReportedSettingStores(r: Record, f: nat)
    requires f < ENC_CFG_SIZE && f != SWITCH_TYPE && Outgoing(Unpacked(r))[f] < 0x80
    ensures Stored(f, Outgoing(Unpacked(r))[f]) == Unpacked(r)[f]
  {
    var t := Unpacked(r);
    if f == HAS_DETENT {
      assert t[f] == (r[4] >> 7) & 0x01;
    } else if f == MOVEMENT {
      assert t[f] == (r[5] >> 2) & 0x03;
    } else if f == SWITCH_ACTION {
      assert t[f] == r[0] & 0x0F;
    } else if f == SWITCH_CHANNEL {
      assert t[f] == (r[0] >> 4) & 0x0F;
    } else if f == ENCODER_CHANNEL {
      assert t[f] == (r[6] >> 4) & 0x0F;
    } else if f == ENCODER_TYPE {
      assert t[f] == r[6] & 0x07;
    } else if f == INDICATOR_TYPE {
      assert t[f] == r[5] & 0x03;
    } else if f == SUPER_KNOB {
      assert t[f] == (r[7] >> 7) & 0x01;
    } else if f == SHIFT_CHANNEL {
      assert t[f] == (r[5] >> 4) & 0x0F;
    }
  }

  /** The table a push of the entries from `low` up to `high` decodes to. */
  function PartTable(r: Record, low: nat, high: nat): ConfigTable
    requires low <= high <= ENC_CFG_SIZE
  {
    TagValue.Merged(LEAVE_ALL, Outgoing(Unpacked(r)), low, high)
  }

  /** Pushing back any stretch of a record's own settings changes no setting and at most one bit: the spare
      bit of the switch number byte, which is cleared if the number is among them. */
  lemma PushBackKeepsSettings(r: Record, low: nat, high: nat)
    requires low <= high <= ENC_CFG_SIZE
    ensures var r' := Packed(r, PartTable(r, low, high));
      && Unpacked(r') == Unpacked(r)
      && r'[6] & 0x08 == r[6] & 0x08
      && r'[1] & 0x80 == if low <= SWITCH_NUMBER < high then 0 else r[1] & 0x80
  {
    var t := PartTable(r, low, high);
    SpareBits(r, t);
    SwitchNumberIsSevenBit(r);
    forall f | 0 <= f < ENC_CFG_SIZE ensures Unpacked(Packed(r, t))[f] == Unpacked(r)[f] {
      PushBackKeepsSetting(r, low, high, f);
    }
  }

  /** A table entry that would store what the record already holds. */
  predicate StoresTheSame(r: Record, t: ConfigTable, f: nat)
    requires f < ENC_CFG_SIZE
  {
    t[f] < 0x80 ==> Stored(f, t[f]) == Unpacked(r)[f]
  }

  lemma SavedTheSame(r: Record, t: ConfigTable, f: nat)
    requires f < ENC_CFG_SIZE && f != SWITCH_TYPE && StoresTheSame(r, t, f)
    ensures Unpacked(Packed(r, t))[f] == Unpacked(r)[f]
  {
    SavedSettingsReadBack(r, t, f);
  }

  lemma PartTableStoresTheSame(r: Record, low: nat, high: nat, f: nat)
    requires low <= high <= ENC_CFG_SIZE && f < ENC_CFG_SIZE && f != SWITCH_TYPE
    ensures StoresTheSame(r, PartTable(r, low, high), f)
  {
    PartTableEntry(r, low, high, f);
    if PartTable(r, low, high)[f] < 0x80 {
      ReportedSettingStores(r, f);
    }
  }

  lemma PushBackKeepsSetting(r: Record, low: nat, high: nat, f: nat)
    requires low <= high <= ENC_CFG_SIZE && f < ENC_CFG_SIZE
    ensures Unpacked(Packed(r, PartTable(r, low, high)))[f] == Unpacked(r)[f]
  {
    if f != SWITCH_TYPE {
      PartTableStoresTheSame(r, low, high, f);
      SavedTheSame(r, PartTable(r, low, high), f);
    }
  }

  lemma PartTableEntry(r: Record, low: nat, high: nat, f: nat)
    requires low <= high <= ENC_CFG_SIZE && f < ENC_CFG_SIZE
    ensures PartTable(r, low, high)[f] == if low <= f < high then Outgoing(Unpacked(r))[f] else 0x80
  {
    TagValue.MergedEntry(LEAVE_ALL, Outgoing(Unpacked(r)), low, high, f);
    LeaveAllEntry(f);
  }

  lemma LeaveAllEntry(f: nat)
    requires f < ENC_CFG_SIZE
    ensures LEAVE_ALL[f] == 0x80
  {
  }

  lemma SwitchNumberIsSevenBit(r: Record)
    ensures Outgoing(Unpacked(r))[SWITCH_NUMBER] < 0x80
  {
    assert Unpacked(r)[SWITCH_NUMBER] == r[1] & 0x7F;
  }

  lemma SpareBitClear(b: byte)
    ensures b & 0x80 == 0 <==> b < 0x80
  {
  }

  /** The record after both parts of its own pull reply have been pushed. */
  function PushedBack(r: Record): Record {
    var r1 := Packed(r, PartTable(r, 0, 12));
    Packed(r1, PartTable(r, 12, 15))
  }

  lemma PushedBackIsSame(r: Record)
    ensures PushedBack(r) == r <==> r[1] < 0x80
  {
    var r1 := Packed(r, PartTable(r, 0, 12));
    var r2 := PushedBack(r);
    PushBackKeepsSettings(r, 0, 12);
    PushBackKeepsSettings(r1, 12, 15);
    assert PartTable(r1, 12, 15) == PartTable(r, 12, 15);
    SpareBitClear(r[1]);
    SpareBitClear(r2[1]);
    if r[1] < 0x80 {
      RecordIsDetermined(r, r2);
    }
  }

  // ----- The two part messages

  /** What the handler is given of part `k`: the body and the terminator. */
  function PartArgs(cells: seq<byte>, bank: nat, encoder: nat, k: nat): seq<byte>
    requires |cells| == EEPROM_SIZE && IsEncoder(bank, encoder) && k < 2
  {
    var data := TagPairs(Outgoing(Unpacked(RecordAt(cells, bank, encoder))), 0, ENC_CFG_SIZE);
    PartBody(WireTag(bank, encoder), k, 2, Chunk(data, k)) + [0xf7]
  }

  lemma TwoChunks(o: ConfigTable)
    ensures var data := TagPairs(o, 0, ENC_CFG_SIZE);
      PartCount(|data|) == 2 && Chunk(data, 0) == TagPairs(o, 0, 12) && Chunk(data, 1) == TagPairs(o, 12, 15)
  {
    TagValue.TagPairsSplit(TAGS, o, 0, 12, 15);
  }

  /** Over the wire: the reply to a pull, sent back by the host, calls the bulk handler once per part. */
  lemma ReplyReachesHandler(cells: seq<byte>, bank: nat, encoder: nat, channel: byte, commands: CommandMap)
    requires |cells| == EEPROM_SIZE && IsEncoder(bank, encoder) && commands[3] == Some(BulkXfer)
    ensures RunEffects(Idle, PullReply(cells, WireTag(bank, encoder)), channel, commands)
         == [Call(BulkXfer, PartArgs(cells, bank, encoder, 0)), Call(BulkXfer, PartArgs(cells, bank, encoder, 1))]
  {
    var wire := WireTag(bank, encoder);
    TagsNameEncoders(bank, encoder, wire);
    var data := PullData(cells, wire);
    TwoChunks(Outgoing(Unpacked(RecordAt(cells, bank, encoder))));
    var body0, body1 := PartBody(wire, 0, 2, Chunk(data, 0)), PartBody(wire, 1, 2, Chunk(data, 1));
    var m0, m1 := BulkMessage(body0), BulkMessage(body1);
    assert PartMessages(wire, data, 2) == [m0, m1] by {
      assert PartMessages(wire, data, 1) == PartMessages(wire, data, 0) + [m0] == [m0];
    }
    ZeroTag(wire);
    StreamOfMessages([m0, m1], channel, commands);
    BulkMessageCalls(body0, channel, commands);
    BulkMessageCalls(body1, channel, commands);
    TwoEffects(m0, m1, channel, commands);
  }

  lemma TwoEffects(m0: seq<byte>, m1: seq<byte>, channel: byte, commands: CommandMap)
    ensures AllEffects([m0, m1], channel, commands)
         == MessageEffects(m0, channel, commands) + MessageEffects(m1, channel, commands)
  {
    assert [m0, m1][1..] == [m1] && [m1][1..] == [];
    assert AllEffects([m1], channel, commands) == MessageEffects(m1, channel, commands) + [];
  }

  lemma ZeroTag(wire: byte)
    requires wire < 0x80
    ensures (if TagNumber(wire) == 128 then 0 else wire) == wire
  {
    ByteOrder(wire, 0x80);
  }

  lemma BulkMessageCalls(body: seq<byte>, channel: byte, commands: CommandMap)
    requires |body| + 2 <= 126 && commands[3] == Some(BulkXfer)
    ensures MessageEffects(BulkMessage(body), channel, commands) == [Call(BulkXfer, body + [0xf7])]
  {
    CommandRoundTrip(SYSEX_COMMAND_BULK_XFER, body, channel, commands);
    TransportIsTransparent(BulkMessage(body), channel, commands);
  }

  /** A numbered part with an honest size byte is decoded and saved, whatever its data. */
  lemma PushIsSaved(cells: seq<byte>, bank: nat, encoder: nat, part: byte, total: byte, size: byte, chunk: seq<byte>)
    requires |cells| == EEPROM_SIZE && IsEncoder(bank, encoder) && part != 0 && size as int == |chunk|
    ensures Pushed(cells, [0x0, WireTag(bank, encoder), part, total, size] + chunk + [0xf7])
         == Saved(cells, bank, encoder, DecodePairs(chunk))
  {
    TagsNameEncoders(bank, encoder, 0);
    var args := [0x0, WireTag(bank, encoder), part, total, size] + chunk + [0xf7];
    assert args[5..5 + |chunk|] == chunk;
  }

  /** A part whose data are well-formed pairs is saved as such. */
  lemma PushOfPart(cells: seq<byte>, bank: nat, encoder: nat, k: nat, o: ConfigTable, low: nat, high: nat)
    requires |cells| == EEPROM_SIZE && IsEncoder(bank, encoder) && k < 2
    requires low <= high <= ENC_CFG_SIZE && high - low <= 12
    ensures Pushed(cells, PartBody(WireTag(bank, encoder), k, 2, TagPairs(o, low, high)) + [0xf7])
         == Saved(cells, bank, encoder, TagValue.Merged(LEAVE_ALL, o, low, high))
  {
    var chunk := TagPairs(o, low, high);
    ByteOrder(ByteOf(k + 1), 0);
    PushIsSaved(cells, bank, encoder, ByteOf(k + 1), ByteOf(2), ByteOf(|chunk|), chunk);
    DecodeTagPairs(o, low, high);
  }

  /** Saving twice to one encoder only rewrites its record. */
  lemma SavedTwice(cells: seq<byte>, bank: nat, encoder: nat, t: ConfigTable, u: ConfigTable)
    requires |cells| == EEPROM_SIZE && IsEncoder(bank, encoder)
    ensures Saved(Saved(cells, bank, encoder, t), bank, encoder, u) == cells
       <==> Packed(Packed(RecordAt(cells, bank, encoder), t), u) == RecordAt(cells, bank, encoder)
  {
    LayoutAgrees(bank, encoder, bank, encoder);
    var cells1 := Saved(cells, bank, encoder, t);
    var cells2 := Saved(cells1, bank, encoder, u);
    assert RecordAt(cells1, bank, encoder) == Packed(RecordAt(cells, bank, encoder), t);
    assert RecordAt(cells2, bank, encoder) == Packed(RecordAt(cells1, bank, encoder), u);
    if RecordAt(cells2, bank, encoder) == RecordAt(cells, bank, encoder) {
      var a := RecordAddress(bank, encoder);
      forall x | 0 <= x < EEPROM_SIZE ensures cells2[x] == cells[x] {
        if a <= x < a + ENC_EE_SIZE {
          assert cells2[x] == RecordAt(cells2, bank, encoder)[x - a]
            && cells[x] == RecordAt(cells, bank, encoder)[x - a];
        }
      }
    }
  }

  /** Main result: pulling an encoder and pushing the reply's two parts back leaves the whole EEPROM as it
      was exactly when the record's switch number byte holds a seven-bit value. */
  lemma PullThenPush(cells: seq<byte>, bank: nat, encoder: nat)
    requires |cells| == EEPROM_SIZE && IsEncoder(bank, encoder)
    ensures var a0, a1 := PartArgs(cells, bank, encoder, 0), PartArgs(cells, bank, encoder, 1);
      Pushed(Pushed(cells, a0), a1) == cells <==> RecordAt(cells, bank, encoder)[1] < 0x80
  {
    var r := RecordAt(cells, bank, encoder);
    var o := Outgoing(Unpacked(r));
    TwoChunks(o);
    PushOfPart(cells, bank, encoder, 0, o, 0, 12);
    PushOfPart(Saved(cells, bank, encoder, PartTable(r, 0, 12)), bank, encoder, 1, o, 12, 15);
    SavedTwice(cells, bank, encoder, PartTable(r, 0, 12), PartTable(r, 12, 15));
    PushedBackIsSame(r);
  }

  /** The handler goes through with those pushes unless the encoder is in its shift state, for which each of
      them stores past the RAM table. */
  lemma PartStraysExactlyWhen(ram: Ram, cells: seq<byte>, bank: nat, encoder: nat, k: nat)
    requires IsRam(ram) && |cells| == EEPROM_SIZE && IsEncoder(bank, encoder) && k < 2
    ensures IsStrayPush(ram, PartArgs(cells, bank, encoder, k)) <==> IsInShiftState(ram, bank, encoder)
  {
    var o := Outgoing(Unpacked(RecordAt(cells, bank, encoder)));
    TwoChunks(o);
    var chunk := Chunk(TagPairs(o, 0, ENC_CFG_SIZE), k);
    ByteOrder(ByteOf(k + 1), 0);
    TagsNameEncoders(bank, encoder, 0);
    var args := PartArgs(cells, bank, encoder, k);
    assert args[1] == WireTag(bank, encoder) && args[2] == ByteOf(k + 1) && |args| == 6 + |chunk|;
    assert IsWellFormedPush(args);
    StraysExactlyWhen(ram, args);
  }

  /** The reply is legal MIDI, all of its data below 0x80, exactly when the two colour bytes are. */
  lemma ReplyIsSevenBit(r: Record)
    ensures (forall f :: 0 <= f < ENC_CFG_SIZE ==> Outgoing(Unpacked(r))[f] < 0x80) <==> r[2] < 0x80 && r[3] < 0x80
  {
    var o := Outgoing(Unpacked(r));
    assert o[ACTIVE_COLOR] == r[2] && o[INACTIVE_COLOR] == r[3];
    assert forall f :: 0 <= f < ENC_CFG_SIZE && f != ACTIVE_COLOR && f != INACTIVE_COLOR ==> o[f] < 0x80;
  }

  // ----- The life of a device

  datatype Save = Save(bank: nat, encoder: nat, t: ConfigTable)

  function SavedAll(cells: seq<byte>, saves: seq<Save>): (r: seq<byte>)
    requires |cells| == EEPROM_SIZE && forall s :: s in saves ==> IsEncoder(s.bank, s.encoder)
    ensures |r| == EEPROM_SIZE
    decreases |saves|
  {
    if saves == [] then cells
    else SavedAll(Saved(cells, saves[0].bank, saves[0].encoder, saves[0].t), saves[1..])
  }

  lemma {:induction false} SavesKeepSevenBit(cells: seq<byte>, saves: seq<Save>, bank: nat, encoder: nat)
    requires |cells| == EEPROM_SIZE && forall s :: s in saves ==> IsEncoder(s.bank, s.encoder)
    requires IsEncoder(bank, encoder) && FactoryReset.SevenBit(RecordAt(cells, bank, encoder))
    ensures FactoryReset.SevenBit(RecordAt(SavedAll(cells, saves), bank, encoder))
    decreases |saves|
  {
    if saves == [] {
    } else {
      var s := saves[0];
      FactoryReset.SaveKeepsSevenBit(cells, s.bank, s.encoder, s.t, bank, encoder);
      SavesKeepSevenBit(Saved(cells, s.bank, s.encoder, s.t), saves[1..], bank, encoder);
    }
  }

  /** On a device that has been reset, after any saves whatever, the reply to a pull is legal MIDI and pushing
      it back restores the EEPROM, for every encoder. */
  lemma PullThenPushAfterReset(before: seq<byte>, reset: seq<byte>, saves: seq<Save>, bank: nat, encoder: nat)
    requires FactoryReset.ResetUpTo(before, reset, 4 * NUM_BANKS) && IsEncoder(bank, encoder)
    requires forall s :: s in saves ==> IsEncoder(s.bank, s.encoder)
    ensures var cells := SavedAll(reset, saves);
      var a0, a1 := PartArgs(cells, bank, encoder, 0), PartArgs(cells, bank, encoder, 1);
      && Pushed(Pushed(cells, a0), a1) == cells
      && forall f :: 0 <= f < ENC_CFG_SIZE ==> Outgoing(Unpacked(RecordAt(cells, bank, encoder)))[f] < 0x80
  {
    FactoryReset.ResetReadsBack(before, reset, bank, encoder);
    SavesKeepSevenBit(reset, saves, bank, encoder);
    PullThenPush(SavedAll(reset, saves), bank, encoder);
    ReplyIsSevenBit(RecordAt(SavedAll(reset, saves), bank, encoder));
  }
}
