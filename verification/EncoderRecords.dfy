/** Encoder settings in EEPROM (encoders.c): 8-byte bit-packed records, four to a page, from page 1 on.

    A configuration is the 15-byte tag-value table of encoders.h; a table entry of 0x80 or more means
    "leave this setting as it is". */
module EncoderRecords {
  import opened Bits
  import opened Nvm

  const NUM_BANKS := 8
  const PHYSICAL_ENCODERS := 16
  const ENC_SETTINGS_START_PAGE := 1
  const ENC_EE_SIZE := 8
  const ENC_CFG_SIZE := 15

  type ConfigTable = t: seq<byte> | |t| == ENC_CFG_SIZE witness seq(ENC_CFG_SIZE, _ => 0)
  type Record = r: seq<byte> | |r| == ENC_EE_SIZE witness seq(ENC_EE_SIZE, _ => 0)

  // Table indices, in the order of the structure
  const HAS_DETENT := 0
  const MOVEMENT := 1
  const SWITCH_ACTION := 2
  const SWITCH_CHANNEL := 3
  const SWITCH_NUMBER := 4
  const SWITCH_TYPE := 5
  const ENCODER_CHANNEL := 6
  const ENCODER_NUMBER := 7
  const ENCODER_TYPE := 8
  const ACTIVE_COLOR := 9
  const INACTIVE_COLOR := 10
  const DETENT_COLOR := 11
  const INDICATOR_TYPE := 12
  const SUPER_KNOB := 13
  const SHIFT_CHANNEL := 14

  // ----- Layout

  function RecordAddress(bank: nat, encoder: nat): nat {
    ENC_SETTINGS_START_PAGE * 32 + bank * 128 + encoder * 8
  }

  function PageAddress(bank: nat, encoder: nat): nat {
    ENC_SETTINGS_START_PAGE * 32 + bank * 128 + encoder / 4 * 32
  }

  function PageIndex(bank: nat, encoder: nat): nat {
    ENC_SETTINGS_START_PAGE + 4 * bank + encoder / 4
  }

  predicate IsEncoder(bank: nat, encoder: nat) {
    bank < NUM_BANKS && encoder < PHYSICAL_ENCODERS
  }

  function RecordAt(cells: seq<byte>, bank: nat, encoder: nat): Record
    requires |cells| == EEPROM_SIZE && IsEncoder(bank, encoder)
  {
    cells[RecordAddress(bank, encoder)..RecordAddress(bank, encoder) + ENC_EE_SIZE]
  }

  /** The three address formulas agree, and the 128 records are disjoint and clear of the global page. */
  lemma LayoutAgrees(bank: nat, encoder: nat, bank': nat, encoder': nat)
    requires IsEncoder(bank, encoder) && IsEncoder(bank', encoder')
    ensures PageAddress(bank, encoder) == PageIndex(bank, encoder) * EEPROM_PAGE_SIZE
    ensures RecordAddress(bank, encoder) == PageAddress(bank, encoder) + 8 * (encoder % 4)
    ensures EEPROM_PAGE_SIZE <= RecordAddress(bank, encoder) <= EEPROM_SIZE - ENC_EE_SIZE
    ensures (bank, encoder) != (bank', encoder') ==>
              || RecordAddress(bank, encoder) + ENC_EE_SIZE <= RecordAddress(bank', encoder')
              || RecordAddress(bank', encoder') + ENC_EE_SIZE <= RecordAddress(bank, encoder)
  {
  }

  // ----- Packing

  /** What get_encoder_config expands a record to. */
  function Unpacked(r: Record): ConfigTable {
    [ (r[4] >> 7) & 0x01,
      (r[5] >> 2) & 0x03,
      r[0] & 0x0F,
      (r[0] >> 4) & 0x0F,
      r[1] & 0x7F,
      0,
      (r[6] >> 4) & 0x0F,
      r[7] & 0x7F,
      r[6] & 0x07,
      r[2],
      r[3],
      r[4] & 0x7F,
      r[5] & 0x03,
      (r[7] >> 7) & 0x01,
      (r[5] >> 4) & 0x0F ]
  }

  /** `cell` with the bits of `mask` replaced by those of `bits`, unless `setting` says to leave them. */
  function Field(cell: byte, setting: byte, mask: byte, bits: byte): byte {
    if setting < 0x80 then (cell & !mask) | (mask & bits) else cell
  }

  /** The record that save_encoder_config writes over record `r`. */
  function Packed(r: Record, t: ConfigTable): Record {
    [ Field(Field(r[0], t[SWITCH_ACTION], 0x0F, t[SWITCH_ACTION]),
            t[SWITCH_CHANNEL], 0xF0, (t[SWITCH_CHANNEL] - 1) << 4),
      if t[SWITCH_NUMBER] < 0x80 then t[SWITCH_NUMBER] else r[1],
      if t[ACTIVE_COLOR] < 0x80 then t[ACTIVE_COLOR] else r[2],
      if t[INACTIVE_COLOR] < 0x80 then t[INACTIVE_COLOR] else r[3],
      Field(Field(r[4], t[HAS_DETENT], 0x80, t[HAS_DETENT] << 7), t[DETENT_COLOR], 0x7F, t[DETENT_COLOR]),
      Field(Field(Field(r[5], t[INDICATOR_TYPE], 0x03, t[INDICATOR_TYPE]), t[MOVEMENT], 0x0C, t[MOVEMENT] << 2),
            t[SHIFT_CHANNEL], 0xF0, (t[SHIFT_CHANNEL] - 1) << 4),
      Field(Field(r[6], t[ENCODER_TYPE], 0x07, t[ENCODER_TYPE]),
            t[ENCODER_CHANNEL], 0xF0, (t[ENCODER_CHANNEL] - 1) << 4),
      Field(Field(r[7], t[ENCODER_NUMBER], 0x7F, t[ENCODER_NUMBER]), t[SUPER_KNOB], 0x80, t[SUPER_KNOB] << 7) ]
  }

  /** The value a setting reads back as: as many bits as its field has, channels counted from one. */
  function Stored(index: nat, setting: byte): byte {
    if index in {HAS_DETENT, SUPER_KNOB} then setting & 0x01
    else if index in {MOVEMENT, INDICATOR_TYPE} then setting & 0x03
    else if index == ENCODER_TYPE then setting & 0x07
    else if index == SWITCH_ACTION then setting & 0x0F
    else if index in {SWITCH_CHANNEL, ENCODER_CHANNEL, SHIFT_CHANNEL} then (setting - 1) & 0x0F
    else setting
  }

  /** Setting `index` is replaced if it is given below 0x80, and kept otherwise. */
  predicate ReadsBack(r: Record, t: ConfigTable, index: nat)
    requires index < ENC_CFG_SIZE
  {
    Unpacked(Packed(r, t))[index] == if t[index] < 0x80 then Stored(index, t[index]) else Unpacked(r)[index]
  }

  lemma FirstByteReadsBack(r: Record, t: ConfigTable)
    ensures ReadsBack(r, t, SWITCH_ACTION) && ReadsBack(r, t, SWITCH_CHANNEL)
  {
  }

  lemma DetentByteReadsBack(r: Record, t: ConfigTable)
    ensures ReadsBack(r, t, HAS_DETENT) && ReadsBack(r, t, DETENT_COLOR)
  {
  }

  lemma IndicatorByteReadsBack(r: Record, t: ConfigTable)
    ensures ReadsBack(r, t, INDICATOR_TYPE) && ReadsBack(r, t, MOVEMENT) && ReadsBack(r, t, SHIFT_CHANNEL)
  {
  }

  lemma TypeByteReadsBack(r: Record, t: ConfigTable)
    ensures ReadsBack(r, t, ENCODER_TYPE) && ReadsBack(r, t, ENCODER_CHANNEL)
  {
  }

  lemma LastByteReadsBack(r: Record, t: ConfigTable)
    ensures ReadsBack(r, t, ENCODER_NUMBER) && ReadsBack(r, t, SUPER_KNOB)
  {
  }

  lemma WholeBytesReadBack(r: Record, t: ConfigTable)
    ensures ReadsBack(r, t, SWITCH_NUMBER) && ReadsBack(r, t, ACTIVE_COLOR) && ReadsBack(r, t, INACTIVE_COLOR)
  {
  }

  /** Saving replaces exactly the settings given below 0x80; the switch type alone is not stored. */
  lemma SavedSettingsReadBack(r: Record, t: ConfigTable, index: nat)
    requires index < ENC_CFG_SIZE && index != SWITCH_TYPE
    ensures ReadsBack(r, t, index)
  {
    if index in {SWITCH_ACTION, SWITCH_CHANNEL} {
      FirstByteReadsBack(r, t);
    } else if index in {HAS_DETENT, DETENT_COLOR} {
      DetentByteReadsBack(r, t);
    } else if index in {MOVEMENT, INDICATOR_TYPE, SHIFT_CHANNEL} {
      IndicatorByteReadsBack(r, t);
    } else if index in {ENCODER_TYPE, ENCODER_CHANNEL} {
      TypeByteReadsBack(r, t);
    } else if index in {ENCODER_NUMBER, SUPER_KNOB} {
      LastByteReadsBack(r, t);
    } else {
      WholeBytesReadBack(r, t);
    }
  }

  /** The bits no setting owns: bit 7 of the switch number byte and bit 3 of the encoder type byte. A save
      keeps the second, and keeps the first unless it stores a switch number, which clears it. */
  lemma SpareBits(r: Record, t: ConfigTable)
    ensures Packed(r, t)[6] & 0x08 == r[6] & 0x08
    ensures Packed(r, t)[1] & 0x80 == if t[SWITCH_NUMBER] < 0x80 then 0 else r[1] & 0x80
  {
  }

  lemma SameFields(a: byte, b: byte)
    ensures a & 0x0F == b & 0x0F && (a >> 4) & 0x0F == (b >> 4) & 0x0F ==> a == b
    ensures a & 0x7F == b & 0x7F && (a >> 7) & 0x01 == (b >> 7) & 0x01 ==> a == b
    ensures a & 0x7F == b & 0x7F && a & 0x80 == b & 0x80 ==> a == b
    ensures a & 0x03 == b & 0x03 && (a >> 2) & 0x03 == (b >> 2) & 0x03 && (a >> 4) & 0x0F == (b >> 4) & 0x0F ==> a == b
    ensures a & 0x07 == b & 0x07 && a & 0x08 == b & 0x08 && (a >> 4) & 0x0F == (b >> 4) & 0x0F ==> a == b
  {
  }

  /** Settings and spare bits determine a record, so the two lemmas above say all there is to say. */
  lemma RecordIsDetermined(r: Record, r': Record)
    requires Unpacked(r) == Unpacked(r') && r[1] & 0x80 == r'[1] & 0x80 && r[6] & 0x08 == r'[6] & 0x08
    ensures r == r'
  {
    forall i | 0 <= i < ENC_EE_SIZE ensures r[i] == r'[i] {
      SameFields(r[i], r'[i]);
      forall f | 0 <= f < ENC_CFG_SIZE ensures Unpacked(r)[f] == Unpacked(r')[f] {
      }
      if i == 0 {
        assert Unpacked(r)[SWITCH_ACTION] == r[0] & 0x0F;
      } else if i == 1 {
        assert Unpacked(r)[SWITCH_NUMBER] == r[1] & 0x7F;
      } else if i == 2 || i == 3 {
        assert Unpacked(r)[ACTIVE_COLOR] == r[2];
      } else if i == 4 {
        assert Unpacked(r)[DETENT_COLOR] == r[4] & 0x7F;
      } else if i == 5 {
        assert Unpacked(r)[INDICATOR_TYPE] == r[5] & 0x03;
      } else if i == 6 {
        assert Unpacked(r)[ENCODER_TYPE] == r[6] & 0x07;
      } else {
        assert Unpacked(r)[ENCODER_NUMBER] == r[7] & 0x7F;
      }
    }
  }

  // ----- Reading and saving one encoder

  /** get_encoder_config */
  method GetEncoderConfig(eeprom: Eeprom, bank: nat, encoder: nat) returns (t: ConfigTable)
    requires eeprom.Valid() && IsEncoder(bank, encoder)
    ensures t == Unpacked(RecordAt(eeprom.cells, bank, encoder))
  {
    var buffer := eeprom.ReadBuffer(RecordAddress(bank, encoder), ENC_EE_SIZE);
    t := Unpacked(buffer);
  }

  /** `*buffer_ptr &= ~mask; *buffer_ptr |= mask & bits`, for a setting that is to be stored. */
  method SetField(page: array<byte>, p: nat, setting: byte, mask: byte, bits: byte)
    requires p < page.Length
    modifies page
    ensures page[p] == Field(old(page[p]), setting, mask, bits)
    ensures forall i :: 0 <= i < page.Length && i != p ==> page[i] == old(page[i])
  {
    if setting < 0x80 {
      page[p] := page[p] & !mask;
      page[p] := page[p] | (mask & bits);
    }
  }

  /** A setting that has its byte to itself. */
  method SetByte(page: array<byte>, p: nat, setting: byte)
    requires p < page.Length
    modifies page
    ensures page[p] == if setting < 0x80 then setting else old(page[p])
    ensures forall i :: 0 <= i < page.Length && i != p ==> page[i] == old(page[i])
  {
    if setting < 0x80 {
      page[p] := setting;
    }
  }

  /** The middle of save_encoder_config: update the eight bytes at `next` of the page buffer. */
  method PackInto(page: array<byte>, next: nat, t: ConfigTable)
    requires next + ENC_EE_SIZE <= page.Length
    modifies page
    ensures page[..] == Overwrite(old(page[..]), next, Packed(old(page[next..next + ENC_EE_SIZE]), t))
  {
    SetField(page, next, t[SWITCH_ACTION], 0x0F, t[SWITCH_ACTION]);
    SetField(page, next, t[SWITCH_CHANNEL], 0xF0, (t[SWITCH_CHANNEL] - 1) << 4);
    SetByte(page, next + 1, t[SWITCH_NUMBER]);
    SetByte(page, next + 2, t[ACTIVE_COLOR]);
    SetByte(page, next + 3, t[INACTIVE_COLOR]);
    SetField(page, next + 4, t[HAS_DETENT], 0x80, t[HAS_DETENT] << 7);
    SetField(page, next + 4, t[DETENT_COLOR], 0x7F, t[DETENT_COLOR]);
    SetField(page, next + 5, t[INDICATOR_TYPE], 0x03, t[INDICATOR_TYPE]);
    SetField(page, next + 5, t[MOVEMENT], 0x0C, t[MOVEMENT] << 2);
    SetField(page, next + 5, t[SHIFT_CHANNEL], 0xF0, (t[SHIFT_CHANNEL] - 1) << 4);
    SetField(page, next + 6, t[ENCODER_TYPE], 0x07, t[ENCODER_TYPE]);
    SetField(page, next + 6, t[ENCODER_CHANNEL], 0xF0, (t[ENCODER_CHANNEL] - 1) << 4);
    SetField(page, next + 7, t[ENCODER_NUMBER], 0x7F, t[ENCODER_NUMBER]);
    SetField(page, next + 7, t[SUPER_KNOB], 0x80, t[SUPER_KNOB] << 7);
  }

  lemma RecordIsInItsPage(cells: seq<byte>, bank: nat, encoder: nat)
    requires |cells| == EEPROM_SIZE && IsEncoder(bank, encoder)
    ensures PageAddress(bank, encoder) + EEPROM_PAGE_SIZE <= EEPROM_SIZE
    ensures var page := cells[PageAddress(bank, encoder)..PageAddress(bank, encoder) + EEPROM_PAGE_SIZE];
      page[8 * (encoder % 4)..8 * (encoder % 4) + ENC_EE_SIZE] == RecordAt(cells, bank, encoder)
  {
    LayoutAgrees(bank, encoder, bank, encoder);
  }

  /** save_encoder_config from the page address on: the EEPROM part. */
  method StoreEncoderConfig(eeprom: Eeprom, bank: nat, encoder: nat, t: ConfigTable)
    requires eeprom.Valid() && eeprom.pageBuffer == map[] && IsEncoder(bank, encoder)
    modifies eeprom
    ensures eeprom.Valid() && eeprom.pageBuffer == map[]
    ensures eeprom.cells == Saved(old(eeprom.cells), bank, encoder, t)
  {
    var pageAddress := PageAddress(bank, encoder);
    var page := new byte[EEPROM_PAGE_SIZE];
    var read := eeprom.ReadBuffer(pageAddress, EEPROM_PAGE_SIZE);
    forall i | 0 <= i < EEPROM_PAGE_SIZE {
      page[i] := read[i];
    }
    assert page[..] == read;
    LayoutAgrees(bank, encoder, bank, encoder);
    RecordIsInItsPage(eeprom.cells, bank, encoder);
    PackInto(page, 8 * (encoder % 4), t);
    PageOverwrite(eeprom.cells, pageAddress, 8 * (encoder % 4), Packed(RecordAt(eeprom.cells, bank, encoder), t));
    eeprom.WritePage(PageIndex(bank, encoder), page[..]);
  }

  /** The EEPROM after a save. */
  function Saved(cells: seq<byte>, bank: nat, encoder: nat, t: ConfigTable): (r: seq<byte>)
    requires |cells| == EEPROM_SIZE && IsEncoder(bank, encoder)
    ensures |r| == EEPROM_SIZE
  {
    LayoutAgrees(bank, encoder, bank, encoder);
    Overwrite(cells, RecordAddress(bank, encoder), Packed(RecordAt(cells, bank, encoder), t))
  }

  /** Rewriting part of a page and storing the whole page is rewriting that part. */
  lemma PageOverwrite(cells: seq<byte>, pageAddress: nat, offset: nat, data: seq<byte>)
    requires pageAddress + EEPROM_PAGE_SIZE <= |cells| && offset + |data| <= EEPROM_PAGE_SIZE
    ensures Overwrite(cells, pageAddress, Overwrite(cells[pageAddress..pageAddress + EEPROM_PAGE_SIZE], offset, data))
         == Overwrite(cells, pageAddress + offset, data)
  {
  }

  /** Main result: after a save the encoder reads back the new value of every setting that was given and
      the old value of every other; the 127 other encoders and the global settings page are untouched. */
  lemma SaveUpdatesOneEncoder(cells: seq<byte>, bank: nat, encoder: nat, t: ConfigTable)
    requires |cells| == EEPROM_SIZE && IsEncoder(bank, encoder)
    ensures var cells' := Saved(cells, bank, encoder, t);
      && (forall f :: 0 <= f < ENC_CFG_SIZE && f != SWITCH_TYPE ==>
            Unpacked(RecordAt(cells', bank, encoder))[f]
            == if t[f] < 0x80 then Stored(f, t[f]) else Unpacked(RecordAt(cells, bank, encoder))[f])
      && (forall b: nat, e: nat :: IsEncoder(b, e) && (b, e) != (bank, encoder) ==>
            RecordAt(cells', b, e) == RecordAt(cells, b, e))
      && cells'[..EEPROM_PAGE_SIZE] == cells[..EEPROM_PAGE_SIZE]
  {
    var cells' := Saved(cells, bank, encoder, t);
    LayoutAgrees(bank, encoder, bank, encoder);
    assert RecordAt(cells', bank, encoder) == Packed(RecordAt(cells, bank, encoder), t);
    forall f | 0 <= f < ENC_CFG_SIZE && f != SWITCH_TYPE
      ensures Unpacked(RecordAt(cells', bank, encoder))[f]
           == if t[f] < 0x80 then Stored(f, t[f]) else Unpacked(RecordAt(cells, bank, encoder))[f] {
      SavedSettingsReadBack(RecordAt(cells, bank, encoder), t, f);
    }
    forall b: nat, e: nat | IsEncoder(b, e) && (b, e) != (bank, encoder)
      ensures RecordAt(cells', b, e) == RecordAt(cells, b, e) {
      LayoutAgrees(bank, encoder, b, e);
    }
  }
}
