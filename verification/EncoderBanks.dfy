/** The values of all encoders of all banks, shifted and unshifted (encoders.c).

    A banked index is 16 * bank + encoder. The raw values are held twice over: the base values of the 128
    banked encoders, then their shifted values. */
module EncoderBanks {
  import opened EncoderValues
  import EncoderRecords

  const NUM_BANKS := EncoderRecords.NUM_BANKS
  const PHYSICAL_ENCODERS := EncoderRecords.PHYSICAL_ENCODERS
  const BANKED_ENCODERS := 128

  type AllSettings = s: seq<EncoderSettings> | |s| == BANKED_ENCODERS
    witness seq(BANKED_ENCODERS, _ => EncoderSettings(0, 0, 0, 0, 0, false, 0))

  // ----- Which encoders share a value

  function Channel(s: EncoderSettings, shifted: bool): nat {
    if shifted then s.shiftMidiChannel else s.midiChannel
  }

  /** encoder_maps_match */
  predicate EncoderMapsMatch(a: EncoderSettings, b: EncoderSettings) {
    if a.midiNumber != b.midiNumber then false
    else if a.midiType != b.midiType then false
    else !a.IsRelative()
  }

  /** Encoder `a` hands its (base or shifted) value to `b`. */
  predicate Match(settings: AllSettings, a: nat, b: nat, shifted: bool)
    requires a < BANKED_ENCODERS && b < BANKED_ENCODERS
  {
    EncoderMapsMatch(settings[a], settings[b]) && Channel(settings[a], shifted) == Channel(settings[b], shifted)
  }

  /** The controller a host knows an encoder's (base or shifted) value by; a relative encoder has none. */
  datatype Controller = NoController | Controller(midiType: nat, channel: nat, number: nat)

  function ControllerOf(s: EncoderSettings, shifted: bool): Controller {
    if s.IsRelative() then NoController else Controller(s.midiType, Channel(s, shifted), s.midiNumber)
  }

  /** Values are handed over exactly between encoders that are one and the same controller to the host. So
      matching is symmetric and transitive: the encoders fall into groups that share a value. */
  lemma MatchesShareAController(settings: AllSettings, a: nat, b: nat, c: nat, shifted: bool)
    requires a < BANKED_ENCODERS && b < BANKED_ENCODERS && c < BANKED_ENCODERS
    ensures Match(settings, a, b, shifted)
       <==> && settings[a].midiNumber == settings[b].midiNumber && settings[a].midiType == settings[b].midiType
            && settings[a].midiType !in {2, 4, 5}
            && (if shifted then settings[a].shiftMidiChannel == settings[b].shiftMidiChannel
                else settings[a].midiChannel == settings[b].midiChannel)
    ensures Match(settings, a, b, shifted)
       <==> ControllerOf(settings[a], shifted) == ControllerOf(settings[b], shifted) != NoController
    ensures Match(settings, a, b, shifted) <==> Match(settings, b, a, shifted)
    ensures Match(settings, a, b, shifted) && Match(settings, b, c, shifted) ==> Match(settings, a, c, shifted)
  {
  }

  predicate MatchIn(settings: AllSettings, bank: nat, e: nat, i: nat, shifted: bool)
    requires bank < NUM_BANKS && e < PHYSICAL_ENCODERS && i < BANKED_ENCODERS
  {
    Match(settings, 16 * bank + e, i, shifted)
  }

  /** The last of the first `n` encoders of bank `bank` that matches `i`, if any. */
  function LastMatch(settings: AllSettings, shifted: bool, bank: nat, i: nat, n: nat): (e: int)
    requires bank < NUM_BANKS && i < BANKED_ENCODERS && n <= PHYSICAL_ENCODERS
    ensures -1 <= e < n
    ensures e >= 0 ==> MatchIn(settings, bank, e, i, shifted)
    ensures forall k: nat :: e < k < n ==> !MatchIn(settings, bank, k, i, shifted)
  {
    if n == 0 then -1
    else if MatchIn(settings, bank, n - 1, i, shifted) then n - 1
    else LastMatch(settings, shifted, bank, i, n - 1)
  }

  /** `values` after the first `n` encoders of `bank` have handed theirs to the other banks. */
  function Handed(settings: AllSettings, shifted: bool, values: seq<int>, bank: nat, i: nat, n: nat): int
    requires |values| == BANKED_ENCODERS && bank < NUM_BANKS && i < BANKED_ENCODERS && n <= PHYSICAL_ENCODERS
  {
    var e := LastMatch(settings, shifted, bank, i, n);
    if i / 16 == bank || e < 0 then values[i] else values[16 * bank + e]
  }

  function Transferred(settings: AllSettings, shifted: bool, values: seq<int>, bank: nat): (r: seq<int>)
    requires |values| == BANKED_ENCODERS && bank < NUM_BANKS
    ensures |r| == BANKED_ENCODERS
    ensures forall i :: 0 <= i < BANKED_ENCODERS ==>
              r[i] == Handed(settings, shifted, values, bank, i, PHYSICAL_ENCODERS)
  {
    seq(BANKED_ENCODERS, i requires 0 <= i < BANKED_ENCODERS =>
      Handed(settings, shifted, values, bank, i, PHYSICAL_ENCODERS))
  }

  /** Encoder `e` of `bank` matches `i`, and no later one of that bank does. */
  ghost predicate MatchesLast(settings: AllSettings, shifted: bool, bank: nat, e: nat, i: nat)
    requires bank < NUM_BANKS && e < PHYSICAL_ENCODERS && i < BANKED_ENCODERS
  {
    MatchIn(settings, bank, e, i, shifted)
    && forall f: nat :: e < f < PHYSICAL_ENCODERS ==> !MatchIn(settings, bank, f, i, shifted)
  }

  /** Where the values go, said without following the order of the transfers: the bank's own values stay, an
      encoder of another bank takes the value of the last one that matches it, and keeps its own if none does. */
  lemma ValuesAfterTransfer(settings: AllSettings, shifted: bool, values: seq<int>, bank: nat, i: nat)
    requires |values| == BANKED_ENCODERS && bank < NUM_BANKS && i < BANKED_ENCODERS
    ensures var r := Transferred(settings, shifted, values, bank);
      && (i / 16 == bank ==> r[i] == values[i])
      && (i / 16 != bank && (forall e: nat :: e < PHYSICAL_ENCODERS ==> !MatchIn(settings, bank, e, i, shifted)) ==>
            r[i] == values[i])
      && (i / 16 != bank ==>
            forall e: nat :: e < PHYSICAL_ENCODERS && MatchesLast(settings, shifted, bank, e, i) ==>
              r[i] == values[16 * bank + e])
  {
    var last := LastMatch(settings, shifted, bank, i, PHYSICAL_ENCODERS);
    forall e: nat | e < PHYSICAL_ENCODERS && MatchesLast(settings, shifted, bank, e, i) ensures e == last {
      assert MatchIn(settings, bank, e, i, shifted);
    }
  }

  /** Transferring a second time changes nothing. */
  lemma TransferIsIdempotent(settings: AllSettings, shifted: bool, values: seq<int>, bank: nat)
    requires |values| == BANKED_ENCODERS && bank < NUM_BANKS
    ensures var once := Transferred(settings, shifted, values, bank);
      Transferred(settings, shifted, once, bank) == once
  {
    var once := Transferred(settings, shifted, values, bank);
    var twice := Transferred(settings, shifted, once, bank);
    forall i | 0 <= i < BANKED_ENCODERS ensures twice[i] == once[i] {
      var e := LastMatch(settings, shifted, bank, i, PHYSICAL_ENCODERS);
      if e >= 0 {
        assert (16 * bank + e) / 16 == bank;
      }
    }
  }

  /** Matching encoders have the same last match. */
  lemma {:induction false} SameLastMatch(settings: AllSettings, shifted: bool, bank: nat, i: nat, j: nat, n: nat)
    requires bank < NUM_BANKS && i < BANKED_ENCODERS && j < BANKED_ENCODERS && n <= PHYSICAL_ENCODERS
    requires Match(settings, i, j, shifted)
    ensures LastMatch(settings, shifted, bank, i, n) == LastMatch(settings, shifted, bank, j, n)
  {
    if n == 0 {
    } else {
      SameLastMatch(settings, shifted, bank, i, j, n - 1);
    }
  }

  /** Going from bank A to bank B and back, an encoder of A ends with the value of A's last encoder with its
      mapping if B has that mapping too, and with its own value otherwise. */
  lemma ThereAndBack(settings: AllSettings, shifted: bool, values: seq<int>, a: nat, b: nat, e: nat)
    requires |values| == BANKED_ENCODERS && a < NUM_BANKS && b < NUM_BANKS && a != b && e < PHYSICAL_ENCODERS
    ensures Transferred(settings, shifted, Transferred(settings, shifted, values, a), b)[16 * a + e]
         == AfterReturn(settings, shifted, values, a, b, e)
  {
    var i := 16 * a + e;
    assert i / 16 == a;
    var f := LastMatch(settings, shifted, b, i, PHYSICAL_ENCODERS);
    if f >= 0 {
      var j := 16 * b + f;
      assert j / 16 == b;
      assert MatchIn(settings, b, f, i, shifted);
      SameLastMatch(settings, shifted, a, i, j, PHYSICAL_ENCODERS);
      MatchesItself(settings, shifted, b, f, a, e);
    }
  }

  /** If B has a match for an encoder of A, that encoder is not relative and is a match for itself. */
  lemma MatchesItself(settings: AllSettings, shifted: bool, b: nat, f: nat, a: nat, e: nat)
    requires a < NUM_BANKS && b < NUM_BANKS && e < PHYSICAL_ENCODERS && f < PHYSICAL_ENCODERS
    requires MatchIn(settings, b, f, 16 * a + e, shifted)
    ensures MatchIn(settings, a, e, 16 * a + e, shifted)
    ensures LastMatch(settings, shifted, a, 16 * a + e, PHYSICAL_ENCODERS) >= e
  {
    assert MatchIn(settings, a, e, 16 * a + e, shifted);
  }

  function AfterReturn(settings: AllSettings, shifted: bool, values: seq<int>, a: nat, b: nat, e: nat): int
    requires |values| == BANKED_ENCODERS && a < NUM_BANKS && b < NUM_BANKS && e < PHYSICAL_ENCODERS
  {
    var i := 16 * a + e;
    var last := LastMatch(settings, shifted, a, i, PHYSICAL_ENCODERS);
    if LastMatch(settings, shifted, b, i, PHYSICAL_ENCODERS) < 0 || last < 0 then values[i] else values[16 * a + last]
  }

  /** Encoder `e` of A is alone with its mapping in A, or B lacks the mapping, or A's last encoder with the
      mapping has the same value. */
  predicate Settled(settings: AllSettings, shifted: bool, values: seq<int>, a: nat, b: nat, e: nat)
    requires |values| == BANKED_ENCODERS && a < NUM_BANKS && b < NUM_BANKS && e < PHYSICAL_ENCODERS
  {
    var last := LastMatch(settings, shifted, a, 16 * a + e, PHYSICAL_ENCODERS);
    LastMatch(settings, shifted, b, 16 * a + e, PHYSICAL_ENCODERS) < 0 || last < 0
    || values[16 * a + e] == values[16 * a + last]
  }

  /** The round trip restores bank A exactly when every encoder of A is settled. */
  lemma RoundTripExactlyWhen(settings: AllSettings, shifted: bool, values: seq<int>, a: nat, b: nat)
    requires |values| == BANKED_ENCODERS && a < NUM_BANKS && b < NUM_BANKS && a != b
    ensures Transferred(settings, shifted, Transferred(settings, shifted, values, a), b)[16 * a..16 * a + 16]
         == values[16 * a..16 * a + 16]
       <==> forall e: nat :: e < PHYSICAL_ENCODERS ==> Settled(settings, shifted, values, a, b, e)
  {
    var r := Transferred(settings, shifted, Transferred(settings, shifted, values, a), b);
    var s, t := r[16 * a..16 * a + 16], values[16 * a..16 * a + 16];
    forall e: nat | e < PHYSICAL_ENCODERS ensures s[e] == t[e] <==> Settled(settings, shifted, values, a, b, e) {
      assert s[e] == r[16 * a + e] && t[e] == values[16 * a + e];
      ThereAndBack(settings, shifted, values, a, b, e);
    }
    if s != t {
      var e :| 0 <= e < PHYSICAL_ENCODERS && s[e] != t[e];
      assert !Settled(settings, shifted, values, a, b, e);
    }
  }

  predicate SameMapping(settings: AllSettings, shifted: bool, bank: nat, e: nat, f: nat)
    requires bank < NUM_BANKS && e < PHYSICAL_ENCODERS && f < PHYSICAL_ENCODERS
  {
    MatchIn(settings, bank, f, 16 * bank + e, shifted)
  }

  /** When no two encoders of A share a mapping all of them are settled, so the round trip restores A. */
  lemma DistinctMappingsAreSettled(settings: AllSettings, shifted: bool, values: seq<int>, a: nat, b: nat)
    requires |values| == BANKED_ENCODERS && a < NUM_BANKS && b < NUM_BANKS && a != b
    requires forall e: nat, f: nat :: e < f < PHYSICAL_ENCODERS ==> !SameMapping(settings, shifted, a, e, f)
    ensures forall e: nat :: e < PHYSICAL_ENCODERS ==> Settled(settings, shifted, values, a, b, e)
    ensures Transferred(settings, shifted, Transferred(settings, shifted, values, a), b)[16 * a..16 * a + 16]
         == values[16 * a..16 * a + 16]
  {
    forall e: nat | e < PHYSICAL_ENCODERS ensures Settled(settings, shifted, values, a, b, e) {
      var g := LastMatch(settings, shifted, b, 16 * a + e, PHYSICAL_ENCODERS);
      if g >= 0 {
        MatchesItself(settings, shifted, b, g, a, e);
        var last := LastMatch(settings, shifted, a, 16 * a + e, PHYSICAL_ENCODERS);
        assert SameMapping(settings, shifted, a, e, last);
      }
    }
    RoundTripExactlyWhen(settings, shifted, values, a, b);
  }

  /** With all encoders alike, going from bank 0 to bank 1 and back leaves every
      encoder of bank 0 with the value of its last one. */
  lemma SharedMappingIsNotRestored(settings: AllSettings, shifted: bool, values: seq<int>)
    requires forall i :: 0 <= i < BANKED_ENCODERS ==> settings[i] == settings[0] && !settings[i].IsRelative()
    requires |values| == BANKED_ENCODERS && values[0] != values[15]
    ensures Transferred(settings, shifted, Transferred(settings, shifted, values, 0), 1)[0] == values[15]
  {
    ThereAndBack(settings, shifted, values, 0, 1, 0);
    LastOfAll(settings, shifted, 0);
    LastOfAll(settings, shifted, 1);
  }

  lemma LastOfAll(settings: AllSettings, shifted: bool, bank: nat)
    requires forall i :: 0 <= i < BANKED_ENCODERS ==> settings[i] == settings[0] && !settings[i].IsRelative()
    requires bank < NUM_BANKS
    ensures LastMatch(settings, shifted, bank, 0, PHYSICAL_ENCODERS) == PHYSICAL_ENCODERS - 1
  {
    assert MatchIn(settings, bank, PHYSICAL_ENCODERS - 1, 0, shifted);
  }
}
