/** USB-MIDI event packets, and the SysEx packetiser of midi.c.

    A packet is an event code and three data bytes. The code indices are those of Table 4-1 ("Code Index
    Number Classifications") in section 4 of the USB Device Class Definition for MIDI Devices 1.0. */
module MidiPackets {
  import opened Bits

  datatype Packet = Packet(event: byte, data1: byte, data2: byte, data3: byte)

  const SYSTEM_COMMON_3: byte := 0x3
  const SYSEX_START_OR_CONTINUE: byte := 0x4
  const SYSEX_END_1: byte := 0x5
  const SYSEX_END_2: byte := 0x6
  const SYSEX_END_3: byte := 0x7

  predicate IsSysexEnd(p: Packet) {
    p.event == SYSEX_END_1 || p.event == SYSEX_END_2 || p.event == SYSEX_END_3
  }

  predicate IsSysex(p: Packet) {
    p.event == SYSEX_START_OR_CONTINUE || IsSysexEnd(p)
  }

  /** The MIDI bytes a packet carries, by its code index. */
  function Carried(p: Packet): seq<byte> {
    if p.event == SYSEX_END_1 then [p.data1]
    else if p.event == SYSEX_END_2 then [p.data1, p.data2]
    else if p.event in {SYSTEM_COMMON_3, SYSEX_START_OR_CONTINUE, SYSEX_END_3} then [p.data1, p.data2, p.data3]
    else []
  }

  function AllCarried(ps: seq<Packet>): seq<byte> {
    if ps == [] then [] else Carried(ps[0]) + AllCarried(ps[1..])
  }

  /** How a message is cut: threes while more than three bytes remain, then one packet that ends it. */
  function Packetised(msg: seq<byte>, first: bool): seq<Packet> {
    if |msg| > 3 then [Packet(SYSEX_START_OR_CONTINUE, msg[0], msg[1], msg[2])] + Packetised(msg[3..], false)
    else if |msg| == 3 then [Packet(if first then SYSTEM_COMMON_3 else SYSEX_END_3, msg[0], msg[1], msg[2])]
    else if |msg| == 2 then [Packet(SYSEX_END_2, msg[0], msg[1], 0)]
    else if |msg| == 1 then [Packet(SYSEX_END_1, msg[0], 0, 0)]
    else []
  }

  /** Nothing is lost, added or reordered, and only the last packet ends the message. */
  lemma {:induction false} PacketisedCarriesMessage(msg: seq<byte>, first: bool)
    ensures AllCarried(Packetised(msg, first)) == msg
    ensures forall i :: 0 <= i < |Packetised(msg, first)| - 1 ==>
              Packetised(msg, first)[i].event == SYSEX_START_OR_CONTINUE
    ensures msg != [] && !(first && |msg| == 3) ==>
              Packetised(msg, first) != [] && IsSysexEnd(Packetised(msg, first)[|Packetised(msg, first)| - 1])
  {
    if |msg| > 3 {
      var p, rest := Packet(SYSEX_START_OR_CONTINUE, msg[0], msg[1], msg[2]), Packetised(msg[3..], false);
      PacketisedCarriesMessage(msg[3..], false);
      assert msg == Carried(p) + msg[3..];
      assert ([p] + rest)[1..] == rest;
    } else if msg != [] {
      var p := Packetised(msg, first)[0];
      assert Packetised(msg, first) == [p];
      assert AllCarried([p]) == Carried(p) + AllCarried([]);
    }
  }

  /** How many packets, and how the message ends: with code 5, 6 or 7 by the number of bytes left, except that a
      message of just three bytes goes out with code 3, as a system common message. */
  lemma {:induction false} CodesFollowTheLength(msg: seq<byte>, first: bool)
    requires msg != []
    ensures |Packetised(msg, first)| == (|msg| + 2) / 3
    ensures Packetised(msg, first)[|Packetised(msg, first)| - 1].event == LastCode(|msg|, first)
  {
    if |msg| > 3 {
      var p, rest := Packet(SYSEX_START_OR_CONTINUE, msg[0], msg[1], msg[2]), Packetised(msg[3..], false);
      CodesFollowTheLength(msg[3..], false);
      assert ([p] + rest)[|rest|] == rest[|rest| - 1];
      LastCodeLater(|msg|, first);
    }
  }

  function LastCode(length: nat, first: bool): byte {
    if length % 3 == 1 then 0x5 else if length % 3 == 2 then 0x6 else if first && length == 3 then 0x3 else 0x7
  }

  lemma LastCodeLater(length: nat, first: bool)
    requires length > 3
    ensures LastCode(length, first) == LastCode(length - 3, false) && (length + 2) / 3 == (length - 3 + 2) / 3 + 1
  {
  }

  /** The endpoint that packets are sent to. */
  class UsbMidi {
    var sent: seq<Packet>

    constructor ()
      ensures sent == []
    {
      sent := [];
    }

    method SendEventPacket(p: Packet)
      modifies this
      ensures sent == old(sent) + [p]
    {
      sent := sent + [p];
    }

    /** midi_stream_sysex. `length` is a uint8, `data` a pointer to at least that many bytes. */
    method StreamSysex(length: nat, data: array<byte>)
      requires length <= 255 && length <= data.Length
      modifies this
      ensures sent == old(sent) + Packetised(data[..length], true)
    {
      var num, next, first := length, 0, true;
      ghost var message := data[..length];
      while num > 3
        invariant next + num == length
        invariant first ==> next == 0
        invariant !first ==> next > 0 && num > 0
        invariant data[..length] == message
        invariant sent + Packetised(message[next..], first) == old(sent) + Packetised(message, true)
      {
        ghost var before := sent;
        SendEventPacket(Packet(SYSEX_START_OR_CONTINUE, data[next], data[next + 1], data[next + 2]));
        assert message[next..][3..] == message[next + 3..];
        assert before + ([sent[|before|]] + Packetised(message[next + 3..], false))
            == sent + Packetised(message[next + 3..], false);
        next, num, first := next + 3, num - 3, false;
      }
      if num != 0 {
        var event, data2, data3 := SYSEX_END_1, 0, 0;
        if num == 2 {
          event, data2 := SYSEX_END_2, data[next + 1];
        } else if num == 3 {
          event := if first then SYSTEM_COMMON_3 else SYSEX_END_3;
          data2, data3 := data[next + 1], data[next + 2];
        }
        SendEventPacket(Packet(event, data[next], data2, data3));
      }
    }
  }
}
