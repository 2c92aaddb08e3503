/** Reassembly and dispatch of incoming SysEx (sysex.c).

    `Receiving` is what the receiver means: the payload gathered so far, or nothing at all between
    messages. `SysexReceiver` is how the firmware does it: a state variable, a reading flag, a cursor that
    is null until the first message, and a 127-byte buffer that is never cleared. */
module SysexReceiver {
  import opened Bits
  import opened MidiPackets

  datatype Option<+T> = None | Some(value: T)

  const MAX_SYSEX := 127
  const MAX_COMMAND := 8

  const MAKER_0: byte := 0x00
  const MAKER_1: byte := 0x01
  const MAKER_2: byte := 0x79

  datatype Handler = PushConfig | PullConfig | System | BulkXfer | GetDeviceId | NativeMode

  /** What a completed message makes the device do. */
  datatype Effect = Call(handler: Handler, args: seq<byte>) | IdentityReply

  type CommandMap = m: seq<Option<Handler>> | |m| == MAX_COMMAND witness seq(MAX_COMMAND, _ => None)

  datatype Kind = NonRealtime | Djtt
  datatype Receiving = Idle | Skipping | CheckingMaker | Collecting(kind: Kind, payload: seq<byte>)

  /** The behaviour a completed payload has, given the installed commands. */
  function Dispatched(kind: Kind, payload: seq<byte>, commands: CommandMap): seq<Effect> {
    match kind
    case Djtt =>
      if |payload| > 0 && 0 < payload[0] as int <= MAX_COMMAND && commands[payload[0] as int - 1].Some?
      then [Call(commands[payload[0] as int - 1].value, payload[1..])] else []
    case NonRealtime =>
      if |payload| >= 2 && payload[0] == 0x06 && payload[1] == 0x01 then [IdentityReply] else []
  }

  function Opened(p: Packet, channel: byte): Receiving {
    if p.data1 == 0xf0 && p.data2 == 0x7e && (p.data3 == channel || p.data3 == 0x7f)
    then Collecting(NonRealtime, [])
    else if p.data1 == 0xf0 && p.data2 == MAKER_0 && p.data3 == MAKER_1 then CheckingMaker
    else Skipping
  }

  /** What has been gathered once packet `p` is taken in; `Skipping` when it does not fit or is not for us. */
  function Gathered(r: Receiving, p: Packet): Receiving {
    match r
    case CheckingMaker =>
      if |Carried(p)| == 3 && p.data1 == MAKER_2 then Collecting(Djtt, [p.data2, p.data3]) else Skipping
    case Collecting(kind, payload) =>
      if |payload + Carried(p)| < MAX_SYSEX then Collecting(kind, payload + Carried(p)) else Skipping
    case _ => r
  }

  function NextReceiving(r: Receiving, p: Packet, channel: byte): Receiving {
    if IsSysexEnd(p) then Idle
    else if p.event != SYSEX_START_OR_CONTINUE then r
    else if r.Idle? then Opened(p, channel)
    else Gathered(r, p)
  }

  function Effects(r: Receiving, p: Packet, commands: CommandMap): seq<Effect> {
    if !IsSysexEnd(p) then []
    else match Gathered(r, p)
      case Collecting(kind, payload) => Dispatched(kind, payload, commands)
      case _ => []
  }

  // ----- The receiver as the firmware has it

  datatype SysexState = Begin | CheckMID | Invalid | StateNonRealtime | StateDJTT

  class SysexReceiver {
    var sysexBuffer: array<byte>
    var sysexState: SysexState
    var commandMap: CommandMap
    var sysexIsReading: bool
    var sysexPtr: Option<nat>       // None is the null pointer it holds before the first message
    var channel: byte               // g_midi_sysex_channel
    var effects: seq<Effect>        // handler calls and replies so far

    ghost predicate Valid()
      reads this
    {
      && sysexBuffer.Length == MAX_SYSEX
      && (sysexIsReading <==> sysexState != Begin)
      && (sysexState != Begin ==> sysexPtr.Some?)
      && (sysexPtr.Some? ==> sysexPtr.value < MAX_SYSEX)
      && (sysexState == CheckMID ==> sysexPtr.value == 0)
    }

    ghost function View(): Receiving
      requires Valid()
      reads this, sysexBuffer
    {
      match sysexState
      case Begin => Idle
      case Invalid => Skipping
      case CheckMID => CheckingMaker
      case StateNonRealtime => Collecting(NonRealtime, sysexBuffer[..sysexPtr.value])
      case StateDJTT => Collecting(Djtt, sysexBuffer[..sysexPtr.value])
    }

    constructor ()
      ensures Valid() && fresh(sysexBuffer) && View() == Idle && sysexPtr == None && effects == []
      ensures channel == 5 && forall i :: 0 <= i < MAX_COMMAND ==> commandMap[i] == None
    {
      sysexBuffer := new byte[MAX_SYSEX];
      sysexState := Begin;
      commandMap := seq(MAX_COMMAND, _ => None);
      sysexIsReading := false;
      sysexPtr := None;
      channel := 5;
      effects := [];
    }

    /** sysex_install_: an out-of-range command number is ignored. */
    method Install(cmd: byte, fn: Handler)
      requires Valid()
      modifies this`commandMap
      ensures Valid()
      ensures forall i :: 0 <= i < MAX_COMMAND ==>
                commandMap[i] == if cmd as int == i + 1 then Some(fn) else old(commandMap)[i]
    {
      if cmd > 0 && cmd as int <= MAX_COMMAND {
        commandMap := commandMap[cmd as int - 1 := Some(fn)];
      }
    }

    /** config_init's installation of the six handlers. */
    method InstallAll()
      requires Valid()
      modifies this`commandMap
      ensures Valid()
      ensures commandMap[..6] == [Some(PushConfig), Some(PullConfig), Some(System),
                                  Some(BulkXfer), Some(GetDeviceId), Some(NativeMode)]
      ensures commandMap[6..] == old(commandMap)[6..]
    {
      Install(0x1, PushConfig);
      Install(0x2, PullConfig);
      Install(0x3, System);
      Install(0x4, BulkXfer);
      Install(0x5, GetDeviceId);
      Install(0x6, NativeMode);
    }

    /** What sysex_handle does with the first `length` bytes of the buffer in the current state. */
    ghost function Handling(length: nat): seq<Effect>
      requires length <= sysexBuffer.Length
      reads this, sysexBuffer
    {
      match sysexState
      case StateDJTT => Dispatched(Djtt, sysexBuffer[..length], commandMap)
      case StateNonRealtime => Dispatched(NonRealtime, sysexBuffer[..length], commandMap)
      case _ => []
    }

    /** sysex_handle */
    method Handle(length: nat)
      requires length <= sysexBuffer.Length
      modifies this`effects
      ensures effects == old(effects) + old(Handling(length))
    {
      if sysexState == StateDJTT && length > 0 {
        var command := sysexBuffer[0];
        if command > 0 && command as int <= MAX_COMMAND && commandMap[command as int - 1] != None {
          assert sysexBuffer[..length][1..] == sysexBuffer[1..length];
          effects := effects + [Call(commandMap[command as int - 1].value, sysexBuffer[1..length])];
        }
      } else if sysexState == StateNonRealtime {
        if length >= 2 && sysexBuffer[0] == 0x06 && sysexBuffer[1] == 0x01 {
          effects := effects + [IdentityReply];
        }
      }
    }

    /** `*sysex_ptr++ = value` */
    method Store(value: byte)
      requires sysexPtr.Some? && sysexPtr.value < sysexBuffer.Length
      modifies this`sysexPtr, sysexBuffer
      ensures sysexPtr == Some(old(sysexPtr.value) + 1)
      ensures sysexBuffer[..sysexPtr.value] == old(sysexBuffer[..sysexPtr.value]) + [value]
    {
      sysexBuffer[sysexPtr.value] := value;
      sysexPtr := Some(sysexPtr.value + 1);
    }

    method Store2(value1: byte, value2: byte)
      requires sysexPtr.Some? && sysexPtr.value + 2 <= sysexBuffer.Length
      modifies this`sysexPtr, sysexBuffer
      ensures sysexPtr == Some(old(sysexPtr.value) + 2)
      ensures sysexBuffer[..sysexPtr.value] == old(sysexBuffer[..sysexPtr.value]) + [value1, value2]
    {
      Store(value1);
      Store(value2);
    }

    method Store3(value1: byte, value2: byte, value3: byte)
      requires sysexPtr.Some? && sysexPtr.value + 3 <= sysexBuffer.Length
      modifies this`sysexPtr, sysexBuffer
      ensures sysexPtr == Some(old(sysexPtr.value) + 3)
      ensures sysexBuffer[..sysexPtr.value] == old(sysexBuffer[..sysexPtr.value]) + [value1, value2, value3]
    {
      Store2(value1, value2);
      Store(value3);
    }

    /** sysex_handle_3sc: three bytes that start or continue a message. */
    method Handle3sc(packet: Packet)
      requires Valid() && packet.event == SYSEX_START_OR_CONTINUE
      modifies this`sysexState, this`sysexIsReading, this`sysexPtr, sysexBuffer
      ensures Valid() && sysexPtr.Some?
      ensures View() == NextReceiving(old(View()), packet, channel)
    {
      if !sysexIsReading {
        sysexIsReading := true;
        sysexPtr := Some(0);
        if packet.data1 == 0xf0 && packet.data2 == 0x7e && (packet.data3 == channel || packet.data3 == 0x7f) {
          sysexState := StateNonRealtime;
        } else if packet.data1 == 0xf0 && packet.data2 == MAKER_0 && packet.data3 == MAKER_1 {
          sysexState := CheckMID;
        } else {
          sysexState := Invalid;
        }
      } else if sysexState == CheckMID {
        if packet.data1 == MAKER_2 && sysexPtr.value + 2 < MAX_SYSEX {
          sysexState := StateDJTT;
          Store2(packet.data2, packet.data3);
        } else {
          sysexState := Invalid;
        }
      } else {
        if sysexState == Invalid {
          return;
        }
        if sysexPtr.value + 3 < MAX_SYSEX {
          Store3(packet.data1, packet.data2, packet.data3);
        } else {
          sysexState := Invalid;
        }
      }
    }

    /** sysex_handle_3e: three bytes that end a message. Unlike the shorter ends it does not look at the
        reading flag, so a stray one between messages still writes at the cursor. */
    method Handle3e(packet: Packet) returns (stray: bool)
      requires Valid() && packet.event == SYSEX_END_3
      modifies this`sysexState, this`sysexIsReading, this`sysexPtr, this`effects, sysexBuffer
      ensures Valid() && (sysexPtr.Some? <==> old(sysexPtr.Some?)) && (stray <==> old(sysexPtr.None?))
      ensures !stray ==> View() == NextReceiving(old(View()), packet, channel)
      ensures !stray ==> effects == old(effects) + Effects(old(View()), packet, commandMap)
    {
      if sysexPtr.None? {
        return true;      // the three bytes go through the null pointer, and the model ends
      }
      stray := false;
      sysexIsReading := false;
      if sysexState == CheckMID {
        if packet.data1 == MAKER_2 && sysexPtr.value + 2 < MAX_SYSEX {
          sysexState := StateDJTT;
          Store2(packet.data2, packet.data3);
          assert sysexBuffer[..sysexPtr.value] == [packet.data2, packet.data3];
          Handle(sysexPtr.value);
        }
      } else if sysexState != Invalid {
        if sysexPtr.value + 3 < MAX_SYSEX {
          Store3(packet.data1, packet.data2, packet.data3);
          Handle(sysexPtr.value);
        }
      }
      sysexState := Begin;
    }

    /** sysex_handle_2e: two bytes that end a message. */
    method Handle2e(packet: Packet)
      requires Valid() && packet.event == SYSEX_END_2
      modifies this`sysexState, this`sysexIsReading, this`sysexPtr, this`effects, sysexBuffer
      ensures Valid() && (sysexPtr.Some? <==> old(sysexPtr.Some?))
      ensures View() == NextReceiving(old(View()), packet, channel)
      ensures effects == old(effects) + Effects(old(View()), packet, commandMap)
    {
      if sysexIsReading {
        sysexIsReading := false;
        if sysexState != Invalid {
          if sysexPtr.value + 2 < MAX_SYSEX {
            Store2(packet.data1, packet.data2);
            Handle(sysexPtr.value);
          }
        }
        sysexState := Begin;
      }
    }

    /** sysex_handle_1e: one byte that ends a message, or a system common message between messages. */
    method Handle1e(packet: Packet)
      requires Valid() && packet.event == SYSEX_END_1
      modifies this`sysexState, this`sysexIsReading, this`sysexPtr, this`effects, sysexBuffer
      ensures Valid() && (sysexPtr.Some? <==> old(sysexPtr.Some?))
      ensures View() == NextReceiving(old(View()), packet, channel)
      ensures effects == old(effects) + Effects(old(View()), packet, commandMap)
    {
      if sysexIsReading {
        sysexIsReading := false;
        if sysexState != Invalid {
          if sysexPtr.value + 1 < MAX_SYSEX {
            Store(packet.data1);
            Handle(sysexPtr.value);
          }
        }
        sysexState := Begin;
      }
    }

    /** The SysEx arms of process_midi_packet. A three-byte end writes through the null pointer exactly when
        there has been no start packet. */
    method ProcessMidiPacket(packet: Packet) returns (stray: bool)
      requires Valid()
      modifies this`sysexState, this`sysexIsReading, this`sysexPtr, this`effects, sysexBuffer
      ensures Valid() && (stray <==> packet.event == SYSEX_END_3 && old(sysexPtr.None?))
      ensures sysexPtr.Some? <==> old(sysexPtr.Some?) || packet.event == SYSEX_START_OR_CONTINUE
      ensures !stray ==> View() == NextReceiving(old(View()), packet, channel)
      ensures !stray ==> effects == old(effects) + Effects(old(View()), packet, commandMap)
    {
      stray := false;
      if packet.event == 0x4 {
        Handle3sc(packet);
      } else if packet.event == 0x5 {
        Handle1e(packet);
      } else if packet.event == 0x6 {
        Handle2e(packet);
      } else if packet.event == 0x7 {
        stray := Handle3e(packet);
      }
    }

    /** `packets` have been processed since the state was `view0` and the effects `effects0`. */
    ghost predicate Drained(view0: Receiving, effects0: seq<Effect>, packets: seq<Packet>)
      requires Valid()
      reads this, sysexBuffer
    {
      && View() == RunReceiving(view0, packets, channel)
      && effects == effects0 + RunEffects(view0, packets, channel, commandMap)
    }

    /** What processing one more packet has to bring about. */
    lemma DrainedOneMore(view0: Receiving, effects0: seq<Effect>, packets: seq<Packet>, i: nat)
      requires Valid() && i < |packets| && Drained(view0, effects0, packets[..i])
      ensures NextReceiving(View(), packets[i], channel) == RunReceiving(view0, packets[..i + 1], channel)
      ensures effects + Effects(View(), packets[i], commandMap)
           == effects0 + RunEffects(view0, packets[..i + 1], channel, commandMap)
    {
      RunOneMore(view0, packets, i, channel, commandMap);
    }

    /** The main loop's draining of the USB endpoint. The null pointer is written through exactly when the
        first three-byte end ever received comes before every start packet. */
    method ReceivePackets(packets: seq<Packet>) returns (stray: bool)
      requires Valid()
      modifies this`sysexState, this`sysexIsReading, this`sysexPtr, this`effects, sysexBuffer
      ensures Valid() && (stray <==> old(sysexPtr.None?) && !StartsBeforeThreeByteEnd(packets))
      ensures !stray ==> View() == RunReceiving(old(View()), packets, channel)
      ensures !stray ==> effects == old(effects) + RunEffects(old(View()), packets, channel, commandMap)
    {
      ghost var view0, effects0 := View(), effects;
      stray := false;
      for i := 0 to |packets|
        invariant Valid() && !stray
        invariant old(sysexPtr.Some?) || StartsBeforeThreeByteEnd(packets)
             <==> sysexPtr.Some? || StartsBeforeThreeByteEnd(packets[i..])
        invariant Drained(view0, effects0, packets[..i])
      {
        assert packets[i..][1..] == packets[i + 1..];
        DrainedOneMore(view0, effects0, packets, i);
        stray := ProcessMidiPacket(packets[i]);
        if stray {
          return;
        }
      }
      assert packets[..|packets|] == packets;
    }
  }

  /** The first three-byte end of the sequence, if any, comes after a start packet. */
  predicate StartsBeforeThreeByteEnd(ps: seq<Packet>) {
    ps == [] || ps[0].event == SYSEX_START_OR_CONTINUE
    || (ps[0].event != SYSEX_END_3 && StartsBeforeThreeByteEnd(ps[1..]))
  }

  /** The input for which ReceivePackets strays on a receiver just constructed: a three-byte end comes first. */
  lemma ThreeByteEndFirst(p: Packet, ps: seq<Packet>)
    requires p.event == SYSEX_END_3
    ensures !StartsBeforeThreeByteEnd([p] + ps)
  {
    assert ([p] + ps)[0] == p;
  }

  predicate StartsBefore(ps: seq<Packet>, i: nat)
    requires i <= |ps|
  {
    exists j :: 0 <= j < i && ps[j].event == SYSEX_START_OR_CONTINUE
  }

  /** It is enough to look at the packets one by one: each three-byte end has some start packet before it. */
  lemma {:induction false} EveryThreeByteEndFollowsAStart(ps: seq<Packet>)
    ensures StartsBeforeThreeByteEnd(ps)
       <==> forall i :: 0 <= i < |ps| && ps[i].event == SYSEX_END_3 ==> StartsBefore(ps, i)
  {
    if ps != [] && ps[0].event != SYSEX_START_OR_CONTINUE && ps[0].event != SYSEX_END_3 {
      var rest := ps[1..];
      EveryThreeByteEndFollowsAStart(rest);
      forall i | 0 <= i < |rest| ensures StartsBefore(rest, i) <==> StartsBefore(ps, i + 1) {
        if j :| 0 <= j < i && rest[j].event == SYSEX_START_OR_CONTINUE {
          assert ps[j + 1] == rest[j];
        }
        if j :| 0 <= j < i + 1 && ps[j].event == SYSEX_START_OR_CONTINUE {
          assert rest[j - 1] == ps[j];
        }
      }
      assert forall i :: 0 <= i < |rest| ==> rest[i] == ps[i + 1];
      if forall i :: 0 <= i < |rest| && rest[i].event == SYSEX_END_3 ==> StartsBefore(rest, i) {
        forall i | 0 <= i < |ps| && ps[i].event == SYSEX_END_3 ensures StartsBefore(ps, i) {
          assert rest[i - 1] == ps[i] && StartsBefore(rest, i - 1);
        }
      }
    }
  }

  function RunReceiving(r: Receiving, ps: seq<Packet>, channel: byte): Receiving
    decreases |ps|
  {
    if ps == [] then r else RunReceiving(NextReceiving(r, ps[0], channel), ps[1..], channel)
  }

  function RunEffects(r: Receiving, ps: seq<Packet>, channel: byte, commands: CommandMap): seq<Effect>
    decreases |ps|
  {
    if ps == [] then []
    else Effects(r, ps[0], commands) + RunEffects(NextReceiving(r, ps[0], channel), ps[1..], channel, commands)
  }

  lemma RunOneMore(r: Receiving, ps: seq<Packet>, i: nat, channel: byte, commands: CommandMap)
    requires i < |ps|
    ensures RunReceiving(r, ps[..i + 1], channel) == NextReceiving(RunReceiving(r, ps[..i], channel), ps[i], channel)
    ensures RunEffects(r, ps[..i + 1], channel, commands)
         == RunEffects(r, ps[..i], channel, commands) + Effects(RunReceiving(r, ps[..i], channel), ps[i], commands)
  {
    assert ps[..i + 1] == ps[..i] + [ps[i]];
    RunConcat(r, ps[..i], [ps[i]], channel, commands);
    RunOne(RunReceiving(r, ps[..i], channel), ps[i], [], channel, commands);
    assert [ps[i]] + [] == [ps[i]];
  }

  lemma RunOne(r: Receiving, p: Packet, rest: seq<Packet>, channel: byte, commands: CommandMap)
    ensures RunReceiving(r, [p] + rest, channel) == RunReceiving(NextReceiving(r, p, channel), rest, channel)
    ensures RunEffects(r, [p] + rest, channel, commands)
         == Effects(r, p, commands) + RunEffects(NextReceiving(r, p, channel), rest, channel, commands)
  {
    assert ([p] + rest)[0] == p && ([p] + rest)[1..] == rest;
  }

  lemma Associate<T>(a: seq<T>, b: seq<T>, c: seq<T>)
    ensures a + (b + c) == (a + b) + c
  {
  }

  lemma {:induction false} RunConcat(
      r: Receiving, first: seq<Packet>, second: seq<Packet>, channel: byte, commands: CommandMap)
    ensures RunReceiving(r, first + second, channel)
         == RunReceiving(RunReceiving(r, first, channel), second, channel)
    ensures RunEffects(r, first + second, channel, commands)
         == RunEffects(r, first, channel, commands)
          + RunEffects(RunReceiving(r, first, channel), second, channel, commands)
    decreases |first|
  {
    if first == [] {
      assert first + second == second;
    } else {
      var p, rest := first[0], first[1..];
      assert first == [p] + rest && first + second == [p] + (rest + second);
      RunOne(r, p, rest, channel, commands);
      RunOne(r, p, rest + second, channel, commands);
      var next := NextReceiving(r, p, channel);
      RunConcat(next, rest, second, channel, commands);
      Associate(Effects(r, p, commands), RunEffects(next, rest, channel, commands),
        RunEffects(RunReceiving(next, rest, channel), second, channel, commands));
    }
  }
}
