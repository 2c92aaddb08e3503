/** The sender of midi.c and the receiver of sysex.c put together: what reaches the command handlers, as a
    function of the messages that were sent. */
module SysexTransport {
  import opened Bits
  import opened MidiPackets
  import opened SysexReceiver

  /** F0 00 01 79, a command byte and at least one more. */
  predicate IsForThisMaker(msg: seq<byte>) {
    |msg| >= 6 && msg[0] == 0xf0 && msg[1] == MAKER_0 && msg[2] == MAKER_1 && msg[3] == MAKER_2
  }

  /** F0 7E and this device's channel or 7F ("all devices"). */
  predicate IsUniversal(msg: seq<byte>, channel: byte) {
    |msg| >= 4 && msg[0] == 0xf0 && msg[1] == 0x7e && (msg[2] == channel || msg[2] == 0x7f)
  }

  /** What a whole message asks of the device, read off its bytes. The buffer takes 126 payload bytes. */
  function MessageEffects(msg: seq<byte>, channel: byte, commands: CommandMap): seq<Effect> {
    if IsForThisMaker(msg) && |msg| - 4 <= 126 then Dispatched(Djtt, msg[4..], commands)
    else if IsUniversal(msg, channel) && |msg| - 3 <= 126 then Dispatched(NonRealtime, msg[3..], commands)
    else []
  }

  // ----- One message

  lemma {:induction false} SkipRest(rest: seq<byte>, channel: byte, commands: CommandMap)
    requires rest != []
    ensures RunReceiving(Skipping, Packetised(rest, false), channel) == Idle
    ensures RunEffects(Skipping, Packetised(rest, false), channel, commands) == []
  {
    if |rest| > 3 {
      SkipRest(rest[3..], channel, commands);
      RunOne(Skipping, Packetised(rest, false)[0], Packetised(rest[3..], false), channel, commands);
    } else {
      RunOne(Skipping, Packetised(rest, false)[0], [], channel, commands);
      assert Packetised(rest, false) == [Packetised(rest, false)[0]] + [];
    }
  }

  /** The tail of a message that is being collected. */
  lemma {:induction false} CollectRest(
      kind: Kind, payload: seq<byte>, rest: seq<byte>, channel: byte, commands: CommandMap)
    requires rest != []
    ensures RunReceiving(Collecting(kind, payload), Packetised(rest, false), channel) == Idle
    ensures RunEffects(Collecting(kind, payload), Packetised(rest, false), channel, commands)
         == if |payload + rest| <= 126 then Dispatched(kind, payload + rest, commands) else []
    decreases |rest|
  {
    var r := Collecting(kind, payload);
    var p := Packetised(rest, false)[0];
    if |rest| > 3 {
      RunOne(r, p, Packetised(rest[3..], false), channel, commands);
      assert payload + rest == payload + Carried(p) + rest[3..];
      if |payload| + 3 < MAX_SYSEX {
        CollectRest(kind, payload + Carried(p), rest[3..], channel, commands);
      } else {
        SkipRest(rest[3..], channel, commands);
      }
    } else {
      RunOne(r, p, [], channel, commands);
      assert Packetised(rest, false) == [p] + [] && Carried(p) == rest;
    }
  }

  /** The tail of a message whose first three bytes were F0 00 01. */
  lemma CheckRest(rest: seq<byte>, channel: byte, commands: CommandMap)
    requires rest != []
    ensures RunReceiving(CheckingMaker, Packetised(rest, false), channel) == Idle
    ensures RunEffects(CheckingMaker, Packetised(rest, false), channel, commands)
         == if |rest| >= 3 && rest[0] == MAKER_2 && |rest[1..]| <= 126 then Dispatched(Djtt, rest[1..], commands)
            else []
  {
    var p := Packetised(rest, false)[0];
    if |rest| > 3 {
      RunOne(CheckingMaker, p, Packetised(rest[3..], false), channel, commands);
      if rest[0] == MAKER_2 {
        assert [p.data2, p.data3] + rest[3..] == rest[1..];
        CollectRest(Djtt, [p.data2, p.data3], rest[3..], channel, commands);
      } else {
        SkipRest(rest[3..], channel, commands);
      }
    } else {
      RunOne(CheckingMaker, p, [], channel, commands);
      assert Packetised(rest, false) == [p] + [];
      if |rest| == 3 {
        assert [p.data2, p.data3] == rest[1..];
      }
    }
  }

  /** Main result: cutting any message into packets and feeding them to an idle receiver leaves it idle
      and has exactly the effects of the whole message, whatever the message is. */
  lemma TransportIsTransparent(msg: seq<byte>, channel: byte, commands: CommandMap)
    ensures RunReceiving(Idle, Packetised(msg, true), channel) == Idle
    ensures RunEffects(Idle, Packetised(msg, true), channel, commands) == MessageEffects(msg, channel, commands)
  {
    if |msg| > 3 {
      var p, rest := Packetised(msg, true)[0], msg[3..];
      RunOne(Idle, p, Packetised(rest, false), channel, commands);
      match Opened(p, channel)
      case CheckingMaker =>
        CheckRest(rest, channel, commands);
        assert msg[4..] == rest[1..];
      case Collecting(_, _) =>
        CollectRest(NonRealtime, [], rest, channel, commands);
        assert [] + rest == rest;
      case Skipping =>
        SkipRest(rest, channel, commands);
    } else if msg != [] {
      var p := Packetised(msg, true)[0];
      RunOne(Idle, p, [], channel, commands);
      assert Packetised(msg, true) == [p] + [];
    }
  }

  /** The messages of this device, F0 00 01 79 cmd and at least one byte more: the handler installed for `cmd` is
      called once, with all that follows it, exactly when that and cmd fit in 126 bytes. */
  lemma CommandCalls(cmd: byte, args: seq<byte>, channel: byte, commands: CommandMap)
    requires args != []
    ensures RunEffects(Idle, Packetised([0xf0, 0x00, 0x01, 0x79, cmd] + args, true), channel, commands)
         == if 1 <= cmd as int <= 8 && commands[cmd as int - 1].Some? && |args| + 1 <= 126
            then [Call(commands[cmd as int - 1].value, args)] else []
  {
    var msg := [0xf0, 0x00, 0x01, 0x79, cmd] + args;
    TransportIsTransparent(msg, channel, commands);
    assert msg[4..] == [cmd] + args && msg[4..][1..] == args;
  }

  /** In particular with a body and the terminator. */
  lemma CommandRoundTrip(cmd: byte, body: seq<byte>, channel: byte, commands: CommandMap)
    ensures var msg := [0xf0, MAKER_0, MAKER_1, MAKER_2, cmd] + body + [0xf7];
      RunEffects(Idle, Packetised(msg, true), channel, commands)
      == if 0 < cmd as int <= MAX_COMMAND && commands[cmd as int - 1].Some? && |body| + 2 <= 126
         then [Call(commands[cmd as int - 1].value, body + [0xf7])] else []
  {
    var msg := [0xf0, MAKER_0, MAKER_1, MAKER_2, cmd] + body + [0xf7];
    TransportIsTransparent(msg, channel, commands);
    assert msg[4..] == [cmd] + (body + [0xf7]);
    assert msg[4..][1..] == body + [0xf7];
  }

  /** No handler ever runs for a message of another maker, nor for a payload that is too long. */
  lemma OthersNeverCalled(msg: seq<byte>, channel: byte, commands: CommandMap)
    requires !IsForThisMaker(msg) || |msg| - 4 > 126
    ensures forall e :: e in RunEffects(Idle, Packetised(msg, true), channel, commands) ==> e == IdentityReply
  {
    TransportIsTransparent(msg, channel, commands);
  }

  /** A universal message, F0 7E, has the identity reply for its effect exactly when it is the identity request
      06 01 to this device's channel or to all devices (7F), and its payload fits in 126 bytes; any other has
      none. */
  lemma UniversalMessages(msg: seq<byte>, channel: byte, commands: CommandMap)
    requires |msg| >= 2 && msg[0] == 0xf0 && msg[1] == 0x7e
    ensures RunEffects(Idle, Packetised(msg, true), channel, commands)
         == if |msg| >= 5 && (msg[2] == channel || msg[2] == 0x7f) && msg[3] == 0x06 && msg[4] == 0x01
               && |msg| - 3 <= 126
            then [IdentityReply] else []
  {
    TransportIsTransparent(msg, channel, commands);
    if |msg| > 3 {
      assert msg[3..][0] == msg[3];
      assert |msg| > 4 ==> msg[3..][1] == msg[4];
    }
  }

  /** The identity request is answered exactly when it is for this device and fits. */
  lemma IdentityRequest(device: byte, rest: seq<byte>, channel: byte, commands: CommandMap)
    ensures RunEffects(Idle, Packetised([0xf0, 0x7e, device, 0x06, 0x01] + rest + [0xf7], true), channel, commands)
         == if (device == channel || device == 0x7f) && |rest| + 3 <= 126 then [IdentityReply] else []
  {
    UniversalMessages([0xf0, 0x7e, device, 0x06, 0x01] + rest + [0xf7], channel, commands);
  }

  /** A message of neither kind has no effect at all. */
  lemma OtherMessagesDoNothing(msg: seq<byte>, channel: byte, commands: CommandMap)
    requires !(|msg| >= 2 && msg[0] == 0xf0 && msg[1] == 0x7e)
    requires !(|msg| >= 6 && msg[0] == 0xf0 && msg[1] == 0x00 && msg[2] == 0x01 && msg[3] == 0x79)
    ensures RunEffects(Idle, Packetised(msg, true), channel, commands) == []
  {
    TransportIsTransparent(msg, channel, commands);
  }

  /** An end packet between messages does nothing, whatever it carries. */
  lemma EndWithoutStart(p: Packet, channel: byte, commands: CommandMap)
    requires p.event in {0x5, 0x6, 0x7}
    ensures RunReceiving(Idle, [p], channel) == Idle && RunEffects(Idle, [p], channel, commands) == []
  {
    RunOne(Idle, p, [], channel, commands);
    assert [p] + [] == [p];
  }

  // ----- Streams of messages, and recovery from arbitrary packets

  function AllPackets(msgs: seq<seq<byte>>): seq<Packet> {
    if msgs == [] then [] else Packetised(msgs[0], true) + AllPackets(msgs[1..])
  }

  function AllEffects(msgs: seq<seq<byte>>, channel: byte, commands: CommandMap): seq<Effect> {
    if msgs == [] then [] else MessageEffects(msgs[0], channel, commands) + AllEffects(msgs[1..], channel, commands)
  }

  /** A stream of messages has their effects, in order. */
  lemma {:induction false} StreamOfMessages(msgs: seq<seq<byte>>, channel: byte, commands: CommandMap)
    ensures RunReceiving(Idle, AllPackets(msgs), channel) == Idle
    ensures RunEffects(Idle, AllPackets(msgs), channel, commands) == AllEffects(msgs, channel, commands)
  {
    if msgs == [] {
    } else {
      TransportIsTransparent(msgs[0], channel, commands);
      RunConcat(Idle, Packetised(msgs[0], true), AllPackets(msgs[1..]), channel, commands);
      StreamOfMessages(msgs[1..], channel, commands);
    }
  }

  /** Such a stream never meets the one packet that needs an earlier start. */
  lemma {:induction false} StreamsStartProperly(msgs: seq<seq<byte>>)
    ensures StartsBeforeThreeByteEnd(AllPackets(msgs))
  {
    if msgs == [] {
    } else {
      StreamsStartProperly(msgs[1..]);
      var ps, rest := Packetised(msgs[0], true), AllPackets(msgs[1..]);
      if ps == [] {
        assert ps + rest == rest;
      } else {
        assert (ps + rest)[0] == ps[0];
        if |msgs[0]| <= 3 {
          assert (ps + rest)[1..] == rest;
        }
      }
    }
  }

  function OnlySysex(ps: seq<Packet>): seq<Packet> {
    if ps == [] then []
    else if IsSysex(ps[0]) then [ps[0]] + OnlySysex(ps[1..])
    else OnlySysex(ps[1..])
  }

  /** Notes, control changes and clock ticks may be interleaved anywhere. */
  lemma {:induction false} OtherTrafficIsInvisible(r: Receiving, ps: seq<Packet>, channel: byte, commands: CommandMap)
    ensures RunReceiving(r, ps, channel) == RunReceiving(r, OnlySysex(ps), channel)
    ensures RunEffects(r, ps, channel, commands) == RunEffects(r, OnlySysex(ps), channel, commands)
    decreases |ps|
  {
    if ps == [] {
    } else {
      OtherTrafficIsInvisible(NextReceiving(r, ps[0], channel), ps[1..], channel, commands);
      if IsSysex(ps[0]) {
        RunOne(r, ps[0], OnlySysex(ps[1..]), channel, commands);
      }
    }
  }

  /** Whatever came before, the end of a message brings the receiver back to idle. */
  lemma EndsIdle(r: Receiving, garbage: seq<Packet>, msg: seq<byte>, channel: byte, commands: CommandMap)
    requires msg != [] && |msg| != 3
    ensures RunReceiving(r, garbage + Packetised(msg, true), channel) == Idle
  {
    PacketisedCarriesMessage(msg, true);
    var ps := Packetised(msg, true);
    var before, last := garbage + ps[..|ps| - 1], ps[|ps| - 1];
    assert garbage + ps == before + ([last] + []);
    RunConcat(r, before, [last] + [], channel, commands);
    RunOne(RunReceiving(r, before, channel), last, [], channel, commands);
  }

  /** Recovery: start the receiver in any state and feed it any packets at all. After one further message
      (which the leftovers may spoil) every later message is handled as if nothing had gone before. */
  lemma Resynchronises(
      r: Receiving, garbage: seq<Packet>, msg: seq<byte>, later: seq<seq<byte>>, channel: byte, commands: CommandMap)
    requires msg != [] && |msg| != 3
    ensures var before := garbage + Packetised(msg, true);
      RunEffects(r, before + AllPackets(later), channel, commands)
      == RunEffects(r, before, channel, commands) + AllEffects(later, channel, commands)
  {
    EndsIdle(r, garbage, msg, channel, commands);
    RunConcat(r, garbage + Packetised(msg, true), AllPackets(later), channel, commands);
    StreamOfMessages(later, channel, commands);
  }
}
