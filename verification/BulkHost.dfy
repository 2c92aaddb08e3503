/** The bulk transfer as the host sees it: what it receives in answer to a pull, byte by byte, and what any push
    stores. */
module BulkHost {
  import opened Bits
  import opened MidiPackets
  import opened SysexTransport
  import opened Nvm
  import opened EncoderRecords
  import opened BulkTransfer
  import BulkRoundTrip
  import FactoryReset
  import TagValue

  // ----- The values of a reply

  /** The fifteen values, as numbers. Channels are counted from 1 to 16, the switch type is always 0. */
  predicate Reports(v: seq<byte>, r: Record) {
    && |v| == 15
    && v[0] as int == r[4] as int / 128                          // has detent
    && v[1] as int == r[5] as int / 4 % 4                        // movement
    && v[2] as int == r[0] as int % 16                           // switch action
    && v[3] as int == r[0] as int / 16 + 1                       // switch channel
    && v[4] as int == r[1] as int % 128                          // switch number
    && v[5] as int == 0                                          // switch type
    && v[6] as int == r[6] as int / 16 + 1                       // encoder channel
    && v[7] as int == r[7] as int % 128                          // encoder number
    && v[8] as int == r[6] as int % 8                            // encoder type
    && v[9] == r[2] && v[10] == r[3]                             // active and inactive colour
    && v[11] as int == r[4] as int % 128                         // detent colour
    && v[12] as int == r[5] as int % 4                           // indicator type
    && v[13] as int == r[7] as int / 128                         // super knob
    && v[14] as int == r[5] as int / 16 + 1                      // shift channel
  }

  lemma HighBit(b: byte)
    ensures ((b >> 7) & 0x01) as int == b as int / 128 && (b & 0x7F) as int == b as int % 128
  {
  }

  lemma HighNibble(b: byte)
    ensures ((b >> 4) & 0x0F) as int == b as int / 16
    ensures (((b >> 4) & 0x0F) + 1) as int == b as int / 16 + 1
  {
  }

  lemma LowFour(b: byte)
    ensures (b & 0x0F) as int == b as int % 16
  {
  }

  lemma LowThree(b: byte)
    ensures (b & 0x07) as int == b as int % 8
  {
  }

  lemma LowTwo(b: byte)
    ensures (b & 0x03) as int == b as int % 4
  {
  }

  lemma MiddleBits(b: byte)
    ensures ((b >> 2) & 0x03) as int == b as int / 4 % 4
  {
    assert (b >> 2) as int == b as int / 4;
    LowTwo(b >> 2);
  }

  lemma OutgoingReports(r: Record)
    ensures Reports(Outgoing(Unpacked(r)), r)
  {
    HighBit(r[4]);
    HighBit(r[7]);
    HighBit(r[1]);
    HighNibble(r[0]);
    HighNibble(r[5]);
    HighNibble(r[6]);
    LowFour(r[0]);
    LowTwo(r[5]);
    LowThree(r[6]);
    MiddleBits(r[5]);
  }

  // ----- The bytes

  function Concatenated(msgs: seq<seq<byte>>): seq<byte> {
    if msgs == [] then [] else msgs[0] + Concatenated(msgs[1..])
  }

  lemma {:induction false} CarriedConcat(first: seq<Packet>, second: seq<Packet>)
    ensures AllCarried(first + second) == AllCarried(first) + AllCarried(second)
  {
    if first == [] {
      assert first + second == second;
    } else {
      assert (first + second)[1..] == first[1..] + second;
      CarriedConcat(first[1..], second);
    }
  }

  lemma {:induction false} PacketsCarryMessages(msgs: seq<seq<byte>>)
    ensures AllCarried(AllPackets(msgs)) == Concatenated(msgs)
  {
    if msgs != [] {
      PacketisedCarriesMessage(msgs[0], true);
      PacketsCarryMessages(msgs[1..]);
      CarriedConcat(Packetised(msgs[0], true), AllPackets(msgs[1..]));
    }
  }

  /** The twelve pairs of the first part. */
  function TwelvePairs(v: seq<byte>): seq<byte>
    requires |v| == 15
  {
    [10, v[0], 11, v[1], 12, v[2], 13, v[3], 14, v[4]]
    + [15, v[5], 16, v[6], 17, v[7], 18, v[8], 19, v[9]]
    + [20, v[10], 21, v[11]]
  }

  /** The three pairs of the second. */
  function ThreePairs(v: seq<byte>): seq<byte>
    requires |v| == 15
  {
    [22, v[12], 23, v[13], 24, v[14]]
  }

  /** Part `number` of two. */
  function Part(tag: byte, number: byte, size: byte, pairs: seq<byte>): seq<byte> {
    [0xf0, 0x00, 0x01, 0x79, 0x04, 0x00, tag, number, 2, size] + pairs + [0xf7]
  }

  lemma FirstPairs(v: ConfigTable)
    ensures TagPairs(v, 0, 12) == TwelvePairs(v)
  {
    TagValue.TagPairsSplit(TAGS, v, 0, 10, 12);
    TagValue.TagPairsSplit(TAGS, v, 0, 5, 10);
    FirstFive(v);
    NextFive(v);
    LastOfTwelve(v);
  }

  lemma FirstFive(v: ConfigTable)
    ensures TagValue.TagPairs(TAGS, v, 0, 5) == [10, v[0], 11, v[1], 12, v[2], 13, v[3], 14, v[4]]
  {
    TagValue.FivePairs(TAGS, v, 0);
    assert TAGS[0] == 10 && TAGS[1] == 11 && TAGS[2] == 12 && TAGS[3] == 13 && TAGS[4] == 14;
  }

  lemma NextFive(v: ConfigTable)
    ensures TagValue.TagPairs(TAGS, v, 5, 10) == [15, v[5], 16, v[6], 17, v[7], 18, v[8], 19, v[9]]
  {
    TagValue.FivePairs(TAGS, v, 5);
  }

  lemma LastOfTwelve(v: ConfigTable)
    ensures TagValue.TagPairs(TAGS, v, 10, 12) == [20, v[10], 21, v[11]]
  {
    assert TagValue.TagPairs(TAGS, v, 11, 12) == [21, v[11]] + TagValue.TagPairs(TAGS, v, 12, 12);
    assert TagValue.TagPairs(TAGS, v, 10, 12) == [20, v[10]] + TagValue.TagPairs(TAGS, v, 11, 12);
  }

  lemma LastPairs(v: ConfigTable)
    ensures TagPairs(v, 12, 15) == ThreePairs(v)
  {
    assert TagValue.TagPairs(TAGS, v, 14, 15) == [24, v[14]] + TagValue.TagPairs(TAGS, v, 15, 15);
    assert TagValue.TagPairs(TAGS, v, 13, 15) == [23, v[13]] + TagValue.TagPairs(TAGS, v, 14, 15);
    assert TagValue.TagPairs(TAGS, v, 12, 15) == [22, v[12]] + TagValue.TagPairs(TAGS, v, 13, 15);
  }

  lemma ByteOfIs(b: byte)
    ensures ByteOf(b as int) == b
  {
    ByteOrder(ByteOf(b as int), b);
  }

  lemma IsMessage(tag: byte, k: nat, number: byte, size: byte, pairs: seq<byte>)
    requires k < 2 && number as int == k + 1 && |pairs| <= PART_SIZE && size as int == |pairs|
    ensures BulkMessage(PartBody(tag, k, 2, pairs)) == Part(tag, number, size, pairs)
  {
    ByteOfIs(number);
    ByteOfIs(2);
    ByteOfIs(size);
    var body := PartBody(tag, k, 2, pairs);
    assert body == [0x00, tag, number, 2, size] + pairs;
    assert [0xf0, 0x00, 0x01, 0x79, 0x04] + body == [0xf0, 0x00, 0x01, 0x79, 0x04, 0x00, tag, number, 2, size] + pairs;
  }

  lemma TheParts(tag: byte, v: ConfigTable)
    ensures var data := TagPairs(v, 0, 15);
      PartMessages(tag, data, PartCount(|data|)) == [Part(tag, 1, 24, TwelvePairs(v)), Part(tag, 2, 6, ThreePairs(v))]
  {
    var data := TagPairs(v, 0, 15);
    BulkRoundTrip.TwoChunks(v);
    FirstPairs(v);
    LastPairs(v);
    IsMessage(tag, 0, 1, 24, TwelvePairs(v));
    IsMessage(tag, 1, 2, 6, ThreePairs(v));
    TwoMessages(tag, data);
  }

  lemma TwoMessages(tag: byte, data: seq<byte>)
    requires |data| < 256 && PartCount(|data|) == 2
    ensures PartMessages(tag, data, 2) == [PartMessage(tag, data, 0), PartMessage(tag, data, 1)]
  {
    assert PartMessages(tag, data, 1) == PartMessages(tag, data, 0) + [PartMessage(tag, data, 0)];
  }

  /** Main result: the answer to a pull of an encoder is two messages with its settings under the tags 10 to 24, in
      order, read off the eight bytes of its record. */
  lemma PullIsAnswered(cells: seq<byte>, bank: nat, encoder: nat) returns (tag: byte, v: seq<byte>)
    requires |cells| == EEPROM_SIZE && bank < 8 && encoder < 16
    ensures tag as int == (16 * bank + encoder + 1) % 128
    ensures Reports(v, cells[32 + 128 * bank + 8 * encoder..40 + 128 * bank + 8 * encoder])
    ensures AllCarried(PullReply(cells, tag)) == Part(tag, 1, 24, TwelvePairs(v)) + Part(tag, 2, 6, ThreePairs(v))
  {
    tag := WireTag(bank, encoder);
    v := Outgoing(Unpacked(RecordAt(cells, bank, encoder)));
    WireTagNumber(bank, encoder);
    OutgoingReports(RecordAt(cells, bank, encoder));
    assert RecordAddress(bank, encoder) == 32 + 128 * bank + 8 * encoder;
    AnswerTo(cells, bank, encoder, tag, v);
  }

  lemma WireTagNumber(bank: nat, encoder: nat)
    requires IsEncoder(bank, encoder)
    ensures WireTag(bank, encoder) as int == (16 * bank + encoder + 1) % 128
  {
  }

  lemma AnswerTo(cells: seq<byte>, bank: nat, encoder: nat, tag: byte, v: ConfigTable)
    requires |cells| == EEPROM_SIZE && IsEncoder(bank, encoder) && tag == WireTag(bank, encoder)
    requires v == Outgoing(Unpacked(RecordAt(cells, bank, encoder)))
    ensures AllCarried(PullReply(cells, tag)) == Part(tag, 1, 24, TwelvePairs(v)) + Part(tag, 2, 6, ThreePairs(v))
  {
    TagsNameEncoders(bank, encoder, 0);
    BulkRoundTrip.ZeroTag(tag);
    TheParts(tag, v);
    TwoCarried(Part(tag, 1, 24, TwelvePairs(v)), Part(tag, 2, 6, ThreePairs(v)));
  }

  lemma TwoCarried(first: seq<byte>, second: seq<byte>)
    ensures AllCarried(AllPackets([first, second])) == first + second
  {
    var msgs := [first, second];
    PacketsCarryMessages(msgs);
    assert msgs[1..] == [second] && [second][1..] == [];
    assert Concatenated([second]) == second + Concatenated([]) == second;
  }

  /** A tag above 128 is answered with one empty part. */
  lemma NoSuchEncoder(cells: seq<byte>, tag: byte)
    requires |cells| == EEPROM_SIZE && tag as int > 128
    ensures AllCarried(PullReply(cells, tag)) == [0xf0, 0x00, 0x01, 0x79, 0x04, 0x00, tag, 1, 1, 0, 0xf7]
  {
    ByteOrder(tag, 0);
    ByteOfIs(0);
    ByteOfIs(1);
    var msg := PartMessage(tag, [], 0);
    assert PartMessages(tag, [], 1) == PartMessages(tag, [], 0) + [msg] == [msg];
    PacketsCarryMessages([msg]);
    assert [msg][1..] == [];
  }

  /** The values of a device fresh from a factory reset: both numbers count the encoders, the channels are 2, 1 and 5,
      the colours go by the bank. */
  function FactoryValues(number: byte, inactive: byte): seq<byte> {
    [0, 0, 0, 2, number, 0, 1, number, 1, 25, inactive, 63, 2, 0, 5]
  }

  /** After a factory reset a pull of any encoder is answered with these. */
  lemma PullAfterReset(before: seq<byte>, cells: seq<byte>, bank: nat, encoder: nat) returns (tag: byte, number: byte)
    requires FactoryReset.ResetUpTo(before, cells, 32) && bank < 8 && encoder < 16
    ensures number as int == 16 * bank + encoder && tag as int == (16 * bank + encoder + 1) % 128
    ensures var v := FactoryValues(number, [5, 84, 53, 13, 75, 67, 106, 44][bank]);
      AllCarried(PullReply(cells, tag)) == Part(tag, 1, 24, TwelvePairs(v)) + Part(tag, 2, 6, ThreePairs(v))
  {
    tag, number := WireTag(bank, encoder), FactoryReset.Number(bank, encoder);
    WireTagNumber(bank, encoder);
    FactoryReset.ResetReadsBack(before, cells, bank, encoder);
    AnswerTo(cells, bank, encoder, tag, Outgoing(Unpacked(RecordAt(cells, bank, encoder))));
    FactoryOutgoing(bank, encoder);
  }

  lemma FactoryOutgoing(bank: nat, encoder: nat)
    requires IsEncoder(bank, encoder)
    ensures Outgoing(FactoryReset.FactoryConfig(bank, encoder))
         == FactoryValues(FactoryReset.Number(bank, encoder), [5, 84, 53, 13, 75, 67, 106, 44][bank])
  {
  }

  // ----- What a push stores

  lemma TenMore(f: nat, tag: byte)
    requires f < ENC_CFG_SIZE && tag as int == f + 10
    ensures TagValue.StandsFor(tag, f, Place)
  {
    forall other: byte ensures Place(other) == f <==> other == tag {
      ByteOrder(other - 10, tag - 10);
      TagMinusTen(tag);
      assert other - 10 == tag - 10 <==> other == tag;
    }
  }

  /** A push that the handler goes through with, for the encoder given: push command, its tag, a part number other
      than 0, a part count, a size, and at least as much data as that and a terminator. */
  predicate IsPushTo(args: seq<byte>, bank: nat, encoder: nat) {
    && |args| >= 6 && args[0] as int == 0 && args[2] as int != 0 && args[4] as int <= |args| - 5
    && bank < 8 && encoder < 16
    && (args[1] as int == 16 * bank + encoder + 1 || (args[1] as int == 0 && bank == 7 && encoder == 15))
  }

  /** Main result on pushes, for any data whatever: setting `f` of the encoder takes the value of the last pair with
      tag 10 + f, if there is one and its value is below 0x80, and is kept otherwise; all other encoders are kept. */
  lemma PushStoresLastPairs(cells: seq<byte>, args: seq<byte>, bank: nat, encoder: nat, f: nat, tag: byte)
    returns (given: byte)
    requires |cells| == EEPROM_SIZE && IsPushTo(args, bank, encoder)
    requires f < 15 && f != SWITCH_TYPE && tag as int == 10 + f
    ensures TagValue.TakesLast(given, args[5..5 + args[4] as int], tag, 0x80)
    ensures Unpacked(RecordAt(Pushed(cells, args), bank, encoder))[f]
         == if given < 0x80 then Stored(f, given) else Unpacked(RecordAt(cells, bank, encoder))[f]
    ensures forall b: nat, e: nat :: IsEncoder(b, e) && (b, e) != (bank, encoder) ==>
              RecordAt(Pushed(cells, args), b, e) == RecordAt(cells, b, e)
  {
    var pairs := args[5..5 + args[4] as int];
    var t := DecodePairs(pairs);
    given := t[f];
    TenMore(f, tag);
    TagValue.DecodedTakesLast(LEAVE_ALL, pairs, tag, f, Place);
    BulkRoundTrip.LeaveAllEntry(f);
    PushIsDecoded(cells, args, bank, encoder);
    SaveUpdatesOneEncoder(cells, bank, encoder, t);
  }

  lemma PushIsDecoded(cells: seq<byte>, args: seq<byte>, bank: nat, encoder: nat)
    requires |cells| == EEPROM_SIZE && IsPushTo(args, bank, encoder)
    ensures Pushed(cells, args) == Saved(cells, bank, encoder, DecodePairs(args[5..5 + args[4] as int]))
  {
    ByteOrder(args[0], 0);
    ByteOrder(args[1], 0);
    ByteOrder(args[2], 0);
    assert TagBank(args[1]) == bank && TagEncoder(args[1]) == encoder;
  }

  /** Any other arguments change nothing. */
  lemma OtherArgumentsStoreNothing(cells: seq<byte>, args: seq<byte>)
    requires |cells| == EEPROM_SIZE && forall bank: nat, encoder: nat :: !IsPushTo(args, bank, encoder)
    ensures Pushed(cells, args) == cells
  {
    if IsWellFormedPush(args) && IsEncoder(TagBank(args[1]), TagEncoder(args[1])) {
      ByteOrder(args[0], 0);
      ByteOrder(args[1], 0);
      ByteOrder(args[2], 0);
      assert IsPushTo(args, TagBank(args[1]), TagEncoder(args[1]));
    }
  }
}
