/** save_encoder_config as a whole (encoders.c): a copy to RAM, then the EEPROM record.

    The RAM table has an entry for each of the 128 encoders. The copy goes to the index of the value in use,
    which for an encoder in its shift state is 128 higher. */
module EncoderStore {
  import opened EncoderBanks
  import opened EncoderRecords
  import opened EncoderRuns
  import opened EncoderValues
  import opened Nvm

  /** What decides where the copy goes. */
  datatype Ram = Ram(settings: AllSettings, switches: seq<bool>, toggles: seq<bool>)

  predicate IsRam(ram: Ram) {
    |ram.switches| == EncoderBanks.PHYSICAL_ENCODERS && |ram.toggles| == BANKED_ENCODERS
  }

  predicate IsInShiftState(ram: Ram, bank: nat, encoder: nat)
    requires IsRam(ram) && IsEncoder(bank, encoder)
  {
    IsShifted(ram.settings, ram.switches, ram.toggles, 16 * bank + encoder)
  }

  /** The index that the copy at the top is stored to. For an encoder past the last one the shift state itself
      is read past its tables; the unshifted index, which lies past the table too, stands for that. */
  function CopyIndex(ram: Ram, bank: nat, encoder: nat): nat
    requires IsRam(ram)
  {
    if IsEncoder(bank, encoder) then ValueInUse(ram.settings, ram.switches, ram.toggles, 16 * bank + encoder)
    else 16 * bank + encoder
  }

  /** The copy stays in the table exactly for an existing encoder that is not in its shift state. */
  lemma CopyStaysInTheTable(ram: Ram, bank: nat, encoder: nat)
    requires IsRam(ram) && encoder < 16
    ensures CopyIndex(ram, bank, encoder) < BANKED_ENCODERS
       <==> IsEncoder(bank, encoder) && !IsInShiftState(ram, bank, encoder)
  {
  }

  /** The shift state comes about by one press of a switch that toggles it. */
  lemma OnePressShifts(settings: AllSettings, t: Tables)
    requires IsTables(t) && t.bank == 0 && settings[0].switchAction == ENC_SHIFT_TOGGLE && !t.toggles[0]
    ensures var t' := AfterSwitch(settings, t, 0, true);
      IsInShiftState(Ram(settings, t'.switches, t'.toggles), 0, 0)
  {
  }

  /** save_encoder_config. A store past the RAM table comes before the EEPROM is written; the model ends there. */
  method SaveEncoderConfig(eeprom: Eeprom, ram: Ram, bank: nat, encoder: nat, t: ConfigTable) returns (stray: bool)
    requires eeprom.Valid() && eeprom.pageBuffer == map[] && IsRam(ram) && encoder < 16
    modifies eeprom
    ensures eeprom.Valid() && eeprom.pageBuffer == map[]
    ensures stray <==> !IsEncoder(bank, encoder) || IsInShiftState(ram, bank, encoder)
    ensures eeprom.cells == if stray then old(eeprom.cells) else Saved(old(eeprom.cells), bank, encoder, t)
  {
    CopyStaysInTheTable(ram, bank, encoder);
    stray := CopyIndex(ram, bank, encoder) >= BANKED_ENCODERS;
    if !stray {
      StoreEncoderConfig(eeprom, bank, encoder, t);
    }
  }
}
