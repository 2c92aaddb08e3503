/** factory_reset_encoder_config (encoders.c): a template page, adjusted and stored once per row of four. */
module FactoryReset {
  import opened Bits
  import opened Nvm
  import opened EncoderRecords

  const DEF_ENC_DETENT: byte := 0
  const DEF_DETENT_COLOR: byte := 63
  const DEF_ENC_MOVEMENT: byte := 0      // DIRECT
  const DEF_INDICATOR_TYPE: byte := 2    // BLENDED_BAR
  const DEF_SW_ACTION: byte := 0         // CC_HOLD
  const DEF_SW_CH: byte := 1
  const DEF_ENC_CH: byte := 0
  const DEF_ENC_MIDI_TYPE: byte := 1     // SEND_CC
  const DEF_IS_SUPER_KNOB: byte := 0
  const DEF_ENC_SHIFT_CH: byte := 4

  const ACTIVE_COLORS: seq<byte> := [25, 25, 25, 25, 25, 25, 25, 25]
  const INACTIVE_COLORS: seq<byte> := [5, 84, 53, 13, 75, 67, 106, 44]

  /** The table an encoder must read back after a reset, stated setting by setting. */
  function FactoryConfig(bank: nat, encoder: nat): ConfigTable
    requires IsEncoder(bank, encoder)
  {
    [ DEF_ENC_DETENT, DEF_ENC_MOVEMENT, DEF_SW_ACTION, DEF_SW_CH, Number(bank, encoder), 0, DEF_ENC_CH,
      Number(bank, encoder), DEF_ENC_MIDI_TYPE, ACTIVE_COLORS[bank], INACTIVE_COLORS[bank], DEF_DETENT_COLOR,
      DEF_INDICATOR_TYPE, DEF_IS_SUPER_KNOB, DEF_ENC_SHIFT_CH ]
  }

  function Number(bank: nat, encoder: nat): byte
    requires IsEncoder(bank, encoder)
  {
    ByteOf(16 * bank + encoder)
  }

  /** Bytes 1 to 3 of a record hold seven-bit values. */
  predicate SevenBit(r: Record) {
    r[1] < 0x80 && r[2] < 0x80 && r[3] < 0x80
  }

  /** The template bytes for an encoder whose (seven-bit) MIDI numbers are `n`. */
  function TemplateRecord(n: byte, active: byte, inactive: byte): Record {
    [ (DEF_SW_ACTION & 0x0F) | (0xF0 & (DEF_SW_CH << 4)),
      n,
      active,
      inactive,
      (0x80 & (DEF_ENC_DETENT << 7)) | DEF_DETENT_COLOR,
      (0x03 & DEF_INDICATOR_TYPE) | (0x0C & (DEF_ENC_MOVEMENT << 2)) | (0xF0 & (DEF_ENC_SHIFT_CH << 4)),
      (0x07 & DEF_ENC_MIDI_TYPE) | (0xF0 & (DEF_ENC_CH << 4)),
      n ]
  }

  lemma TemplateUnpacked(n: byte, active: byte, inactive: byte)
    requires n < 0x80
    ensures Unpacked(TemplateRecord(n, active, inactive))
         == [ DEF_ENC_DETENT, DEF_ENC_MOVEMENT, DEF_SW_ACTION, DEF_SW_CH, n, 0, DEF_ENC_CH, n, DEF_ENC_MIDI_TYPE,
              active, inactive, DEF_DETENT_COLOR, DEF_INDICATOR_TYPE, DEF_IS_SUPER_KNOB, DEF_ENC_SHIFT_CH ]
  {
    SevenBitNumber(n);
  }

  lemma ColorsAreSevenBit(bank: nat)
    requires bank < NUM_BANKS
    ensures ACTIVE_COLORS[bank] < 0x80 && INACTIVE_COLORS[bank] < 0x80
  {
  }

  /** The template is the packed form of the factory settings. */
  lemma TemplateReadsBack(bank: nat, encoder: nat)
    requires IsEncoder(bank, encoder)
    ensures Unpacked(FactoryRecord(bank, encoder)) == FactoryConfig(bank, encoder)
    ensures SevenBit(FactoryRecord(bank, encoder))
  {
    var n := Number(bank, encoder);
    ByteOrder(n, 0x80);
    ColorsAreSevenBit(bank);
    TemplateUnpacked(n, ACTIVE_COLORS[bank], INACTIVE_COLORS[bank]);
  }

  lemma SevenBitNumber(n: byte)
    requires n < 0x80
    ensures n & 0x7F == n
    ensures var b := (0x7f & n) | (0x80 & (DEF_IS_SUPER_KNOB << 7)); b & 0x7F == n && (b >> 7) & 0x01 == 0 && b == n
  {
  }

  function FactoryRecord(bank: nat, encoder: nat): Record
    requires IsEncoder(bank, encoder)
  {
    TemplateRecord(Number(bank, encoder), ACTIVE_COLORS[bank], INACTIVE_COLORS[bank])
  }

  lemma NextRow(n: byte)
    requires n as int < 252
    ensures (n + 4) as int == n as int + 4
  {
  }

  /** Record `j` of a page. */
  function Slot(page: seq<byte>, j: nat): Record
    requires |page| == EEPROM_PAGE_SIZE && j < 4
  {
    page[8 * j..8 * j + ENC_EE_SIZE]
  }

  function Colored(r: Record, active: byte, inactive: byte): Record {
    r[2 := active][3 := inactive]
  }

  function Bumped(r: Record): Record {
    r[1 := r[1] + 4][7 := r[7] + 4]
  }

  /** All four records are template records with the numbers of row `row` and whatever colours. */
  predicate TemplateHolds(page: seq<byte>, row: nat)
    requires |page| == EEPROM_PAGE_SIZE && row <= 4 * NUM_BANKS
  {
    forall j :: 0 <= j < 4 ==>
      Slot(page, j) == TemplateRecord(ByteOf(j + 4 * row), Slot(page, j)[2], Slot(page, j)[3])
  }

  /** One record of the template. */
  method BuildRecord(page: array<byte>, p: nat, number: byte)
    requires p + ENC_EE_SIZE <= page.Length && number < 0x80
    modifies page
    ensures page[p..p + 8] == TemplateRecord(number, 127, 127)
    ensures forall k :: 0 <= k < page.Length && !(p <= k < p + ENC_EE_SIZE) ==> page[k] == old(page[k])
  {
    page[p] := (DEF_SW_ACTION & 0x0F) | (0xF0 & (DEF_SW_CH << 4));
    page[p + 1] := number;
    page[p + 2], page[p + 3] := 127, 127;
    page[p + 4] := (0x80 & (DEF_ENC_DETENT << 7)) | DEF_DETENT_COLOR;
    page[p + 5] := (0x03 & DEF_INDICATOR_TYPE) | (0x0C & (DEF_ENC_MOVEMENT << 2)) | (0xF0 & (DEF_ENC_SHIFT_CH << 4));
    page[p + 6] := (0x07 & DEF_ENC_MIDI_TYPE) | (0xF0 & (DEF_ENC_CH << 4));
    page[p + 7] := (0x7f & number) | (0x80 & (DEF_IS_SUPER_KNOB << 7));
    SevenBitNumber(number);
  }

  /** Four template records with the numbers 0 to 3. */
  method BuildTemplate(page: array<byte>)
    requires page.Length == EEPROM_PAGE_SIZE
    modifies page
    ensures TemplateHolds(page[..], 0)
  {
    var number: byte := 0;
    for i := 0 to 4
      invariant number == ByteOf(i)
      invariant forall j :: 0 <= j < i ==> Slot(page[..], j) == TemplateRecord(ByteOf(j), 127, 127)
    {
      ghost var before := page[..];
      ByteOrder(number, 0x80);
      BuildRecord(page, 8 * i, number);
      assert Slot(page[..], i) == page[8 * i..8 * i + 8];
      assert forall j :: 0 <= j < i ==> Slot(page[..], j) == Slot(before, j);
      ByteSuccessor(number);
      ByteOrder(number + 1, ByteOf(i + 1));
      number := number + 1;
    }
  }

  /** The bank's colours into all four records of the page. */
  method SetColors(page: array<byte>, active: byte, inactive: byte)
    requires page.Length == EEPROM_PAGE_SIZE
    modifies page
    ensures forall j :: 0 <= j < 4 ==> Slot(page[..], j) == Colored(Slot(old(page[..]), j), active, inactive)
  {
    for i := 0 to 4
      invariant forall k :: 8 * i <= k < EEPROM_PAGE_SIZE ==> page[k] == old(page[k])
      invariant forall j :: 0 <= j < i ==> Slot(page[..], j) == Colored(Slot(old(page[..]), j), active, inactive)
    {
      ghost var before := page[..];
      page[i * 8 + 2] := active;
      page[i * 8 + 3] := inactive;
      assert Slot(page[..], i) == Colored(Slot(before, i), active, inactive);
      assert forall j :: 0 <= j < i ==> Slot(page[..], j) == Slot(before, j);
      assert Slot(before, i) == Slot(old(page[..]), i);
    }
  }

  /** The numbers of the next row. */
  method NextNumbers(page: array<byte>)
    requires page.Length == EEPROM_PAGE_SIZE
    modifies page
    ensures forall j :: 0 <= j < 4 ==> Slot(page[..], j) == Bumped(Slot(old(page[..]), j))
  {
    for i := 0 to 4
      invariant forall k :: 8 * i <= k < EEPROM_PAGE_SIZE ==> page[k] == old(page[k])
      invariant forall j :: 0 <= j < i ==> Slot(page[..], j) == Bumped(Slot(old(page[..]), j))
    {
      ghost var before := page[..];
      assert Slot(before, i) == Slot(old(page[..]), i);
      page[i * 8 + 1] := page[i * 8 + 1] + 4;
      page[i * 8 + 7] := page[i * 8 + 7] + 4;
      assert Slot(page[..], i) == Bumped(Slot(before, i));
      assert forall j :: 0 <= j < i ==> Slot(page[..], j) == Slot(before, j);
    }
  }

  lemma NextRecord(r: Record, number: nat)
    requires number < 128 && r == TemplateRecord(ByteOf(number), r[2], r[3])
    ensures Bumped(r) == TemplateRecord(ByteOf(number + 4), Bumped(r)[2], Bumped(r)[3])
  {
    NextNumber(number);
  }

  lemma NextNumber(number: nat)
    requires number < 128
    ensures ByteOf(number) + 4 == ByteOf(number + 4)
  {
    NextRow(ByteOf(number));
    ByteOrder(ByteOf(number) + 4, ByteOf(number + 4));
  }

  lemma NextTemplate(page: seq<byte>, page': seq<byte>, row: nat)
    requires |page| == |page'| == EEPROM_PAGE_SIZE && row < 4 * NUM_BANKS && TemplateHolds(page, row)
    requires forall j :: 0 <= j < 4 ==> Slot(page', j) == Bumped(Slot(page, j))
    ensures TemplateHolds(page', row + 1)
  {
    forall j | 0 <= j < 4
      ensures Slot(page', j) == TemplateRecord(ByteOf(j + 4 * (row + 1)), Slot(page', j)[2], Slot(page', j)[3])
    {
      NextRecord(Slot(page, j), j + 4 * row);
      assert j + 4 * row + 4 == j + 4 * (row + 1);
    }
  }

  lemma ColoredTemplate(page: seq<byte>, page': seq<byte>, row: nat, active: byte, inactive: byte)
    requires |page| == |page'| == EEPROM_PAGE_SIZE && row < 4 * NUM_BANKS && TemplateHolds(page, row)
    requires forall j :: 0 <= j < 4 ==> Slot(page', j) == Colored(Slot(page, j), active, inactive)
    ensures TemplateHolds(page', row)
    ensures forall j :: 0 <= j < 4 ==> Slot(page', j) == TemplateRecord(ByteOf(j + 4 * row), active, inactive)
  {
  }

  /** The EEPROM with the encoders of the first `rows` rows reset. */
  ghost predicate ResetUpTo(before: seq<byte>, cells: seq<byte>, rows: nat) {
    && |before| == |cells| == EEPROM_SIZE
    && (forall b: nat, e: nat :: IsEncoder(b, e) && 4 * b + e / 4 < rows ==>
          RecordAt(cells, b, e) == FactoryRecord(b, e))
    && (forall x :: 0 <= x < EEPROM_SIZE && !(32 <= x < 32 * (1 + rows)) ==> cells[x] == before[x])
  }

  /** Storing the page of row `row` writes the records of that row and leaves every other record. */
  lemma RecordAfterPage(cells: seq<byte>, page: seq<byte>, row: nat, bank: nat, encoder: nat)
    requires |cells| == EEPROM_SIZE && |page| == EEPROM_PAGE_SIZE && row < 4 * NUM_BANKS && IsEncoder(bank, encoder)
    ensures RecordAt(Overwrite(cells, 32 * (1 + row), page), bank, encoder)
         == if 4 * bank + encoder / 4 == row then Slot(page, encoder % 4) else RecordAt(cells, bank, encoder)
  {
    LayoutAgrees(bank, encoder, bank, encoder);
    var a, p := RecordAddress(bank, encoder), 32 * (1 + row);
    if 4 * bank + encoder / 4 == row {
      assert a == p + 8 * (encoder % 4);
    } else {
      assert a + 8 <= p || p + 32 <= a;
    }
  }

  /** Storing a coloured template page completes one more row. */
  lemma OneMoreRow(before: seq<byte>, cells: seq<byte>, page: seq<byte>, row: nat)
    requires row < 4 * NUM_BANKS && ResetUpTo(before, cells, row) && |page| == EEPROM_PAGE_SIZE
    requires forall j :: 0 <= j < 4 ==>
      Slot(page, j) == TemplateRecord(ByteOf(j + 4 * row), ACTIVE_COLORS[row / 4], INACTIVE_COLORS[row / 4])
    ensures ResetUpTo(before, Overwrite(cells, 32 * (1 + row), page), row + 1)
  {
    forall b: nat, e: nat | IsEncoder(b, e) && 4 * b + e / 4 < row + 1
      ensures RecordAt(Overwrite(cells, 32 * (1 + row), page), b, e) == FactoryRecord(b, e) {
      RecordAfterPage(cells, page, row, b, e);
      if 4 * b + e / 4 == row {
        assert 16 * b + e == e % 4 + 4 * row && row / 4 == b;
      }
    }
  }

  /** factory_reset_encoder_config */
  method FactoryResetEncoderConfig(eeprom: Eeprom)
    requires eeprom.Valid() && eeprom.pageBuffer == map[]
    modifies eeprom
    ensures eeprom.Valid() && eeprom.pageBuffer == map[]
    ensures ResetUpTo(old(eeprom.cells), eeprom.cells, 4 * NUM_BANKS)
  {
    var page := new byte[EEPROM_PAGE_SIZE](_ => 0);
    BuildTemplate(page);
    var pageIndex: nat := ENC_SETTINGS_START_PAGE;
    for row := 0 to 4 * NUM_BANKS
      invariant pageIndex == ENC_SETTINGS_START_PAGE + row
      invariant eeprom.Valid() && eeprom.pageBuffer == map[]
      invariant TemplateHolds(page[..], row)
      invariant ResetUpTo(old(eeprom.cells), eeprom.cells, row)
    {
      StoreRow(eeprom, page, pageIndex, row, old(eeprom.cells));
      pageIndex := pageIndex + 1;
    }
  }

  /** One turn of the page loop: set the bank's colours, store the page, move on to the next row's numbers. */
  method StoreRow(eeprom: Eeprom, page: array<byte>, pageIndex: nat, row: nat, ghost before: seq<byte>)
    requires eeprom.Valid() && eeprom.pageBuffer == map[] && page.Length == EEPROM_PAGE_SIZE
    requires row < 4 * NUM_BANKS && pageIndex == ENC_SETTINGS_START_PAGE + row
    requires TemplateHolds(page[..], row) && ResetUpTo(before, eeprom.cells, row)
    modifies eeprom, page
    ensures eeprom.Valid() && eeprom.pageBuffer == map[]
    ensures TemplateHolds(page[..], row + 1) && ResetUpTo(before, eeprom.cells, row + 1)
  {
    SetColors(page, ACTIVE_COLORS[row / 4], INACTIVE_COLORS[row / 4]);
    ghost var stored := page[..];
    ColoredTemplate(old(page[..]), stored, row, ACTIVE_COLORS[row / 4], INACTIVE_COLORS[row / 4]);
    OneMoreRow(before, eeprom.cells, stored, row);
    eeprom.WritePage(pageIndex, page[..]);
    NextNumbers(page);
    NextTemplate(stored, page[..], row);
  }

  /** Main result: after a reset every encoder reads back the factory settings, with both MIDI numbers equal
      to its index and its bank's colours, and nothing outside the encoder pages has changed. */
  lemma ResetReadsBack(before: seq<byte>, cells: seq<byte>, bank: nat, encoder: nat)
    requires ResetUpTo(before, cells, 4 * NUM_BANKS) && IsEncoder(bank, encoder)
    ensures Unpacked(RecordAt(cells, bank, encoder)) == FactoryConfig(bank, encoder)
    ensures SevenBit(RecordAt(cells, bank, encoder))
    ensures cells[..32] == before[..32] && cells[32 * 33..] == before[32 * 33..]
  {
    TemplateReadsBack(bank, encoder);
  }

  /** The 128 factory MIDI numbers are all different. */
  lemma NumbersAreDistinct(bank: nat, encoder: nat, bank': nat, encoder': nat)
    requires IsEncoder(bank, encoder) && IsEncoder(bank', encoder')
    ensures Number(bank, encoder) == Number(bank', encoder') <==> (bank, encoder) == (bank', encoder')
  {
    ByteOrder(Number(bank, encoder), Number(bank', encoder'));
  }

  /** No save ever takes bytes 1 to 3 of a record out of seven bits. */
  lemma SaveKeepsSevenBit(cells: seq<byte>, bank: nat, encoder: nat, t: ConfigTable, b: nat, e: nat)
    requires |cells| == EEPROM_SIZE && IsEncoder(bank, encoder) && IsEncoder(b, e)
    requires SevenBit(RecordAt(cells, b, e))
    ensures SevenBit(RecordAt(Saved(cells, bank, encoder, t), b, e))
  {
    LayoutAgrees(bank, encoder, b, e);
    if (b, e) == (bank, encoder) {
      assert RecordAt(Saved(cells, bank, encoder, t), b, e) == Packed(RecordAt(cells, bank, encoder), t);
    } else {
      SaveUpdatesOneEncoder(cells, bank, encoder, t);
    }
  }
}
