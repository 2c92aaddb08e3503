/** The global settings as the host sees them: the bytes of the report, and what any push stores. */
module GlobalHost {
  import opened Bits
  import opened MidiPackets
  import opened Nvm
  import opened GlobalSettings
  import TagValue

  /** The tag of entry `k`, as a number: the tags 10 to 30 in between belong to the encoders. */
  function TagOf(k: nat): nat {
    if k < 10 then k else k + 21
  }

  // ----- The report

  /** The eighteen values reported, as numbers. Channels are counted from one; two bytes hold two settings each. */
  predicate Reports(v: seq<byte>, cells: seq<byte>)
    requires |cells| == EEPROM_SIZE
  {
    && |v| == 18
    && v[0] as int == (cells[1] as int + 1) % 256                // MIDI channel
    && v[1] as int == (if cells[3] != 0 then 1 else 0)           // side switches banked
    && (forall k :: 2 <= k <= 12 ==> v[k] == cells[k + 2])       // side switches, super knob, brightness, colour map
    && v[13] as int == cells[15] as int / 16 + 1                 // animation channels
    && v[14] as int == cells[15] as int % 16 + 1
    && v[15] as int == cells[16] as int % 64                     // sleep timeout and animation
    && v[16] as int == cells[16] as int / 64
    && v[17] == cells[17]                                        // bank animations
  }

  lemma Increased(b: byte)
    ensures (b + 1) as int == (b as int + 1) % 256
  {
    ByteSuccessor(b);
  }

  lemma Nibbles(b: byte)
    ensures (GetEncAnimChannel(b) + 1) as int == b as int / 16 + 1
    ensures (GetSwAnimChannel(b) + 1) as int == b as int % 16 + 1
  {
    Nibble(b);
    SmallSuccessor(GetEncAnimChannel(b));
    SmallSuccessor(GetSwAnimChannel(b));
  }

  lemma Nibble(b: byte)
    ensures GetEncAnimChannel(b) as int == b as int / 16 && GetEncAnimChannel(b) < 16
    ensures GetSwAnimChannel(b) as int == b as int % 16 && GetSwAnimChannel(b) < 16
  {
  }

  lemma SmallSuccessor(b: byte)
    requires b < 16
    ensures (b + 1) as int == b as int + 1
  {
  }

  lemma LowSix(b: byte)
    ensures (b & 0x3F) as int == b as int % 64
  {
  }

  lemma LowTwo(b: byte)
    ensures (b & 0x03) as int == b as int % 4
  {
  }

  lemma LowFour(b: byte)
    ensures (b & 0x0F) as int == b as int % 16
  {
  }

  lemma HighTwo(b: byte)
    ensures ((b >> 6) & 0x03) as int == b as int / 64
  {
  }

  lemma SleepFields(b: byte)
    ensures GetSleepTimeout(b) as int == b as int % 64 && GetSleepAnimation(b) as int == b as int / 64
  {
    LowSix(b);
    HighTwo(b);
  }

  lemma ReportedReports(cells: seq<byte>)
    requires |cells| == EEPROM_SIZE
    ensures Reports(Reported(cells), cells)
  {
    ReportedPacked(cells);
    Increased(cells[1]);
    Nibbles(cells[15]);
    SleepFields(cells[16]);
    forall k | 2 <= k <= 12 ensures Reported(cells)[k] == cells[k + 2] {
      ReportedEntry(cells, k);
    }
  }

  /** A message that lists the values `v` under their tags, after six bytes of header. */
  predicate Lists(msg: seq<byte>, v: seq<byte>) {
    && |msg| == 43 && |v| == 18
    && msg[..6] == [0xf0, 0x00, 0x01, 0x79, 0x02, 0x01] && msg[42] == 0xf7
    && forall k: nat :: k < 18 ==> ListsEntry(msg, v, k)
  }

  predicate ListsEntry(msg: seq<byte>, v: seq<byte>, k: nat)
    requires |msg| == 43 && k < 18 == |v|
  {
    msg[6 + 2 * k] as int == TagOf(k) && msg[7 + 2 * k] == v[k]
  }

  lemma {:induction false} PairAt(v: GlobalTable, low: nat, k: nat)
    requires low <= k < 18
    ensures TagValue.TagPairs(TAGS, v, low, 18)[2 * (k - low)] == TAGS[k]
    ensures TagValue.TagPairs(TAGS, v, low, 18)[2 * (k - low) + 1] == v[k]
    decreases k - low
  {
    if low < k {
      var rest := TagValue.TagPairs(TAGS, v, low + 1, 18);
      PairAt(v, low + 1, k);
      TwoBefore([TAGS[low], v[low]], rest, 2 * (k - low));
      TwoBefore([TAGS[low], v[low]], rest, 2 * (k - low) + 1);
    }
  }

  lemma TwoBefore(two: seq<byte>, rest: seq<byte>, i: nat)
    requires |two| == 2 <= i < 2 + |rest|
    ensures (two + rest)[i] == rest[i - 2]
  {
  }

  lemma TagNumber(k: nat)
    requires k < 18
    ensures TAGS[k] as int == TagOf(k)
  {
    TagsArePlaced(k);
    ByteOrder(TAGS[k], 10);
    ByteOrder(TAGS[k], 30);
  }

  lemma ReplyLists(v: GlobalTable)
    ensures Lists(ReplyMessage(v), v)
  {
    ListedLength(v);
    ListedInTagOrder(v);
    forall k: nat | k < 18 ensures ListsEntry(ReplyMessage(v), v, k) {
      TagNumber(k);
      PairAt(v, 0, k);
    }
  }

  /** What a pull of the global settings is answered with: one message that lists all eighteen of them in the order
      of their tags, read off the EEPROM. */
  lemma ReportOnTheWire(cells: seq<byte>) returns (v: seq<byte>)
    requires |cells| == EEPROM_SIZE
    ensures Reports(v, cells)
    ensures Lists(AllCarried(Packetised(ReplyMessage(Reported(cells)), true)), v)
  {
    v := Reported(cells);
    ReportedReports(cells);
    ReplyLists(v);
    PacketisedCarriesMessage(ReplyMessage(v), true);
  }

  // ----- A push

  /** The EEPROM that results from storing the values `v`, as numbers. An animation channel of 0 stands for the default,
      5 for encoders and 2 for switches. */
  predicate Stores(after: seq<byte>, before: seq<byte>, v: seq<byte>)
    requires |after| == |before| == EEPROM_SIZE && |v| == 18
  {
    && after[1] as int == (v[0] as int + 255) % 256
    && (forall k :: 1 <= k <= 12 ==> after[k + 2] == v[k])
    && after[15] as int == (if v[13] == 0 then 5 else (v[13] as int - 1) % 16) * 16
                         + (if v[14] == 0 then 2 else (v[14] as int - 1) % 16)
    && after[16] as int == v[15] as int % 64 + 64 * (v[16] as int % 4)
    && after[17] == v[17]
    && (forall x :: 0 <= x < EEPROM_SIZE && x !in {1, 15, 16, 17} && !(3 <= x <= 14) ==> after[x] == before[x])
  }

  lemma Decreased(b: byte)
    ensures (b - 1) as int == (b as int + 255) % 256
    ensures b > 0 ==> (b - 1) as int == b as int - 1
  {
    ByteSuccessor(b - 1);
  }

  lemma PackedChannels(enc: byte, sw: byte)
    ensures PackAnimChannels(enc, sw) as int == enc as int % 16 * 16 + sw as int % 16
  {
    LowFour(enc);
    LowFour(sw);
    MaskedNibble(enc);
    MaskedNibble(sw);
    TwoNibbles(enc & 0x0F, sw & 0x0F);
  }

  lemma MaskedNibble(b: byte)
    ensures b & 0x0F < 16
  {
  }

  lemma TwoNibbles(high: byte, low: byte)
    requires high < 16 && low < 16
    ensures ((high << 4) | low) as int == high as int * 16 + low as int
  {
    assert (high << 4) | low == high * 16 + low;
  }

  lemma ChannelNumber(setting: byte, default: byte)
    requires default < 16
    ensures AnimChannel(setting, default) as int % 16
         == if setting == 0 then default as int else (setting as int - 1) % 16
  {
    ByteOrder(setting, 0);
    ByteOrder(default, 16);
    Decreased(setting);
  }

  lemma PackedSleep(timeout: byte, anim: byte)
    ensures PackSleepSettings(timeout, anim) as int == timeout as int % 64 + 64 * (anim as int % 4)
  {
    LowSix(timeout);
    LowTwo(anim);
    SixAndTwo(timeout, anim);
  }

  lemma SixAndTwo(timeout: byte, anim: byte)
    ensures ((timeout & 0x3F) | ((anim & 0x03) << 6)) as int == (timeout & 0x3F) as int + 64 * (anim & 0x03) as int
  {
    assert (timeout & 0x3F) | ((anim & 0x03) << 6) == (timeout & 0x3F) + (anim & 0x03) * 64;
  }

  lemma AfterWritesStores(cells: seq<byte>, v: GlobalTable)
    requires |cells| == EEPROM_SIZE
    ensures Stores(AfterWrites(cells, v), cells, v)
  {
    var after := AfterWrites(cells, v);
    forall x: nat | x < EEPROM_SIZE ensures after[x] == SettingByte(v, cells, x) {
      WrittenInOrder(cells, v, x);
    }
    Decreased(v[0]);
    ChannelNumber(v[13], DEF_ENCODER_ANIMATION_CH);
    ChannelNumber(v[14], DEF_SWITCH_ANIMATION_CH);
    PackedChannels(AnimChannel(v[13], DEF_ENCODER_ANIMATION_CH), AnimChannel(v[14], DEF_SWITCH_ANIMATION_CH));
    PackedSleep(v[15], v[16]);
  }

  lemma PlaceOfTag(k: nat, tag: byte)
    requires k < 18 && tag as int == TagOf(k)
    ensures TagValue.StandsFor(tag, k, Place)
  {
    forall other: byte ensures Place(other) == k <==> other == tag {
      ByteOrder(other, tag);
      ByteOrder(other, 10);
      ByteOrder(other, 30);
    }
  }

  /** Main result on pushes: with every tag in the table, each setting takes the value of the last pair with its tag, or
      0 if there is none; the eighteen settings are stored as above and nothing else in the EEPROM changes. */
  lemma PushStoresLastPairs(cells: seq<byte>, args: seq<byte>) returns (v: seq<byte>)
    requires |cells| == EEPROM_SIZE && TagsInTable(args)
    ensures |v| == 18
    ensures Stores(AfterWrites(cells, TagValue.Decoded(ZERO_TABLE, args, Place)), cells, v)
    ensures forall k: nat, tag: byte :: k < 18 && tag as int == TagOf(k) ==> TagValue.TakesLast(v[k], args, tag, 0)
  {
    v := TagValue.Decoded(ZERO_TABLE, args, Place);
    AfterWritesStores(cells, v);
    forall k: nat, tag: byte | k < 18 && tag as int == TagOf(k) ensures TagValue.TakesLast(v[k], args, tag, 0) {
      PlaceOfTag(k, tag);
      TagValue.DecodedTakesLast(ZERO_TABLE, args, tag, k, Place);
      ZeroEntry(k);
    }
  }

  lemma ZeroEntry(k: nat)
    requires k < 18
    ensures ZERO_TABLE[k] == 0
  {
  }

  /** So a push does not leave a setting alone by omitting it: an empty one makes the MIDI channel 255, both animation
      channels their defaults, and everything else 0. */
  lemma EmptyPushClears(cells: seq<byte>)
    requires |cells| == EEPROM_SIZE
    ensures TagsInTable([0xf7])
    ensures var after := AfterWrites(cells, TagValue.Decoded(ZERO_TABLE, [0xf7], Place));
      after[1] == 0xFF && after[3..15] == seq(12, _ => 0) && after[15] == 0x52 && after[16] == 0 && after[17] == 0
  {
    var after := AfterWrites(cells, ZERO_TABLE);
    AfterWritesStores(cells, ZERO_TABLE);
    forall x: nat | 3 <= x <= 14 ensures after[x] == 0 {
      ZeroEntry(x - 2);
      assert after[(x - 2) + 2] == ZERO_TABLE[x - 2];
    }
    assert after[15] as int == 0x52 && after[16] as int == 0 && after[1] as int == 0xFF;
    ByteOrder(after[15], 0x52);
    ByteOrder(after[16], 0);
    ByteOrder(after[1], 0xFF);
  }

  /** The minutes of inactivity after which the device sleeps, by the setting; 0 is never, and so is any setting above
      seven. */
  lemma TimeoutLadder(setting: byte)
    ensures setting as int == 0 ==> TimeoutMinutes(setting) as int == 0
    ensures setting as int == 1 ==> TimeoutMinutes(setting) as int == 1
    ensures setting as int == 2 ==> TimeoutMinutes(setting) as int == 3
    ensures setting as int == 3 ==> TimeoutMinutes(setting) as int == 5
    ensures setting as int == 4 ==> TimeoutMinutes(setting) as int == 10
    ensures setting as int == 5 ==> TimeoutMinutes(setting) as int == 20
    ensures setting as int == 6 ==> TimeoutMinutes(setting) as int == 30
    ensures setting as int == 7 ==> TimeoutMinutes(setting) as int == 60
    ensures setting as int > 7 ==> TimeoutMinutes(setting) as int == 0
  {
    ByteOrder(7, setting);
  }
}
