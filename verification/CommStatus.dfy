/** What the answers on the control connection say: for every packet over TCP, in both builds, when it is
    answered OK, which status a refused one gets, what the answer carries behind the status, and which part
    of the card a command touches. */
module CommStatus {
  import opened Bytes
  import opened Options
  import opened Framing
  import opened Comm
  import Words
  import Channels
  import Discrete
  import DiscreteTiming
  import FwUpdate

  /** The payload starts with the card's own UID. */
  predicate Keyed(card: Card, p: Packet) {
    |p.payload| >= 12 && forall i :: 0 <= i < 12 ==> p.payload[i] == card.uid[i]
  }

  /** A SET is well formed: at least one channel, none beyond 32 bits, and two bitmaps of just the size. */
  predicate WellFormedSet(payload: seq<byte>) {
    && |payload| >= 6
    && var base, count := FromLe32(payload[..4]), FromLe16(payload[4..6]);
       1 <= count && base + count <= 0x1_0000_0000 && |payload| == 6 + 2 * ((count + 7) / 8)
  }

  /** A read of the descriptor that can be served. */
  predicate ReadableAt(card: Card, payload: seq<byte>) {
    && |payload| >= 3 && card.caps.Some? && payload[0] == CAPS_VERSION
    && payload[1] as int + 256 * payload[2] as int <= |card.caps.value|
  }

  predicate IsChannelCommand(cmd: byte) {
    BatchKind(cmd).Some? || cmd == CMD_TT_BUILD
  }

  /** Every whole record is accepted, and there is at least one. */
  predicate AllRecordsGood(core: Core, p: Packet)
    requires BatchKind(p.cmd).Some?
  {
    var k := BatchKind(p.cmd).value;
    var rs := Channels.Records(k, p.payload);
    rs != [] && Channels.GoodRecords(k, core.tables, rs) == |rs|
  }

  /** The commands whose fate the packet decides, and how. */
  predicate Acceptable(card: Card, p: Packet) {
    || p.cmd == CMD_PING || p.cmd == CMD_GET_FW_INFO || p.cmd == CMD_GET_HW_INFO
    || (p.cmd == CMD_FIND_ME && |p.payload| >= 4)
    || ((p.cmd == CMD_JUMP_TO_BOOTLOADER || p.cmd == CMD_REBOOT) && Keyed(card, p))
    || (card.personality == App && AcceptableToApp(card, p))
  }

  predicate AcceptableToApp(card: Card, p: Packet) {
    || (p.cmd == CMD_GET_CAPABILITIES && ReadableAt(card, p.payload))
    || (p.cmd == CMD_DISCRETE_SETUP && |p.payload| == 4)
    || (p.cmd == CMD_DISCRETE_SET && WellFormedSet(p.payload))
    || (p.cmd == CMD_HID_SETUP && |p.payload| >= 4)
    || (p.cmd == CMD_HID_SET && |p.payload| >= 25)
    || (p.cmd == CMD_SET_LOG_LEVEL && |p.payload| >= 1 && p.payload[0] <= 1)
  }

  /** The commands whose fate depends on the tables or on the loader. */
  predicate StateDecides(card: Card, cmd: byte) {
    if card.personality == App then IsChannelCommand(cmd) else cmd == CMD_FW_UPDATE
  }

  /** Packets refused for their length or form. */
  predicate Malformed(card: Card, p: Packet) {
    || (p.cmd == CMD_FIND_ME && |p.payload| < 4)
    || (card.personality == App
        && (|| (p.cmd == CMD_GET_CAPABILITIES && |p.payload| < 3)
            || (p.cmd == CMD_DISCRETE_SETUP && |p.payload| != 4)
            || (p.cmd == CMD_DISCRETE_SET && !WellFormedSet(p.payload))
            || (p.cmd == CMD_HID_SETUP && |p.payload| < 4)
            || (p.cmd == CMD_HID_SET && |p.payload| < 25)))
  }

  predicate WrongVersion(card: Card, p: Packet) {
    && card.personality == App && p.cmd == CMD_GET_CAPABILITIES
    && |p.payload| >= 3 && card.caps.Some? && p.payload[0] != CAPS_VERSION
  }

  /** The answer on TCP. */
  function ReplyTo(card: Card, core: Core, p: Packet, io: Io): (r: Reply)
    ensures p.cmd != CMD_GET_UID ==> |r.payload| >= ACK_ENVELOPE && r.payload[0] == p.id
  {
    OneReplyOnTcp(card, core, p, io);
    Dispatch(card, core, p, Tcp, io).reply.value
  }

  lemma DecodedIffWellFormed(payload: seq<byte>)
    ensures Discrete.DecodeSet(payload).Some? <==> WellFormedSet(payload)
  {
  }

  lemma UidMatches(card: Card, p: Packet)
    requires |p.payload| >= 12
    ensures p.payload[..12] == card.uid <==> Keyed(card, p)
  {
    assert forall i :: 0 <= i < 12 ==> p.payload[..12][i] == p.payload[i];
  }

  /** What the answer carries behind the status. */
  function ExtraOf(r: Reply): seq<byte>
    requires |r.payload| >= ACK_ENVELOPE
  {
    r.payload[ACK_ENVELOPE..]
  }

  lemma AckRead(p: Packet, status: u32, extra: Extra)
    ensures StatusOf(Ack(p, status, extra)) == status && ExtraOf(Ack(p, status, extra)) == extra
  {
    AckCarriesStatus(p, status, extra);
  }

  /** The status of the commands both builds share, and of everything unknown. */
  lemma CommonStatus(card: Card, core: Core, p: Packet)
    ensures var r := DispatchCommon(card, core, p, Tcp).reply;
            && r.Some? && |r.value.payload| >= ACK_ENVELOPE && ExtraOf(r.value) == []
            && StatusOf(r.value) == (
                 if p.cmd == CMD_PING || (p.cmd == CMD_FIND_ME && |p.payload| >= 4)
                    || ((p.cmd == CMD_JUMP_TO_BOOTLOADER || p.cmd == CMD_REBOOT) && Keyed(card, p)) then OK
                 else if p.cmd == CMD_FIND_ME then TOO_SHORT else ERROR)
  {
    if |p.payload| >= 12 {
      UidMatches(card, p);
    }
    AckRead(p, OK, []);
    AckRead(p, ERROR, []);
    AckRead(p, TOO_SHORT, []);
  }

  lemma PlaneStatus(card: Card, core: Core, p: Packet, io: Io)
    requires card.personality == App
    requires p.cmd == CMD_DISCRETE_SETUP || p.cmd == CMD_DISCRETE_SET || p.cmd == CMD_HID_SETUP || p.cmd == CMD_HID_SET
             || p.cmd == CMD_SET_LOG_LEVEL
    ensures var r := DispatchPlanes(card, core, p, Tcp, io).reply;
            && r.Some? && |r.value.payload| >= ACK_ENVELOPE
            && StatusOf(r.value) == (if AcceptableToApp(card, p) then OK
                                     else if p.cmd == CMD_SET_LOG_LEVEL then ERROR else TOO_SHORT)
            && ExtraOf(r.value)
               == (if p.cmd == CMD_SET_LOG_LEVEL && AcceptableToApp(card, p) then [p.payload[0]] else [])
  {
    DecodedIffWellFormed(p.payload);
    AckRead(p, OK, []);
    AckRead(p, ERROR, []);
    AckRead(p, TOO_SHORT, []);
    if p.cmd == CMD_SET_LOG_LEVEL && |p.payload| >= 1 {
      AckRead(p, OK, [p.payload[0]]);
    }
  }

  lemma CapabilitiesStatus(card: Card, p: Packet)
    requires card.personality == App && p.cmd == CMD_GET_CAPABILITIES
    ensures var r := GetCapabilities(card, p);
            && |r.payload| >= ACK_ENVELOPE
            && StatusOf(r) == (if ReadableAt(card, p.payload) then OK else if |p.payload| < 3 then TOO_SHORT
                               else if WrongVersion(card, p) then VERSION_UNSUPPORTED else ERROR)
            && (StatusOf(r) == VERSION_UNSUPPORTED ==> ExtraOf(r) == [CAPS_VERSION, CAPS_VERSION])
  {
    AckRead(p, ERROR, []);
    AckRead(p, TOO_SHORT, []);
    AckRead(p, VERSION_UNSUPPORTED, [CAPS_VERSION, CAPS_VERSION]);
    if ReadableAt(card, p.payload) {
      var blob, offset := card.caps.value, FromLe16(p.payload[1..3]);
      AckRead(p, OK, Le16(|blob|) + CapsChunk(blob, offset));
    }
  }

  /** A read of the descriptor that can be served carries the total length, low byte first, and the
      bytes from the offset asked for, 240 of them or all that are left. */
  lemma CapabilitiesExtra(card: Card, core: Core, p: Packet, io: Io)
    requires card.personality == App && p.cmd == CMD_GET_CAPABILITIES && ReadableAt(card, p.payload)
    ensures var extra, blob := ExtraOf(ReplyTo(card, core, p, io)), card.caps.value;
            var offset := p.payload[1] as int + 256 * p.payload[2] as int;
            && |extra| == 2 + (if |blob| - offset < 240 then |blob| - offset else 240)
            && extra[0] as int + 256 * extra[1] as int == |blob|
            && extra[2..] == blob[offset..offset + |extra| - 2]
  {
    var blob, offset := card.caps.value, FromLe16(p.payload[1..3]);
    AckRead(p, OK, Le16(|blob|) + CapsChunk(blob, offset));
  }

  /** For every packet over TCP, in both builds, whose fate no state decides: the status is OK exactly
      when the packet is acceptable, PAYLOAD_TOO_SHORT exactly when it is malformed,
      VERSION_UNSUPPORTED exactly when it asks for another descriptor version, and ERROR otherwise,
      which is what every unknown command gets. */
  lemma StatusDecided(card: Card, core: Core, p: Packet, io: Io)
    requires p.cmd != CMD_GET_UID && !StateDecides(card, p.cmd)
    ensures var status := StatusOf(ReplyTo(card, core, p, io));
            && (status == OK <==> Acceptable(card, p))
            && (status == TOO_SHORT <==> Malformed(card, p))
            && (status == VERSION_UNSUPPORTED <==> WrongVersion(card, p))
            && (status != OK && status != TOO_SHORT && status != VERSION_UNSUPPORTED ==> status == ERROR)
  {
    if p.cmd == CMD_GET_FW_INFO {
      AckRead(p, OK, card.fwInfo);
    } else if p.cmd == CMD_GET_HW_INFO {
      AckRead(p, OK, card.hwInfo);
    } else if card.personality == App && p.cmd == CMD_GET_CAPABILITIES {
      CapabilitiesStatus(card, p);
    } else if card.personality == App && (p.cmd == CMD_DISCRETE_SETUP || p.cmd == CMD_DISCRETE_SET
              || p.cmd == CMD_HID_SETUP || p.cmd == CMD_HID_SET || p.cmd == CMD_SET_LOG_LEVEL) {
      PlaneStatus(card, core, p, io);
    } else {
      CommonStatus(card, core, p);
    }
  }

  /** The commands whose fate the tables decide: OK exactly when every whole record is accepted and there
      is one, and otherwise the first refused record's own status (Channels.BatchAppliesPrefix); a
      build exactly when its channel exists and is set up. */
  lemma ChannelStatus(card: Card, core: Core, p: Packet, io: Io)
    requires card.personality == App && BatchKind(p.cmd).Some? && Channels.Mirror(core.tables)
    ensures var status := StatusOf(ReplyTo(card, core, p, io));
            && (status == OK <==> AllRecordsGood(core, p))
            && (|p.payload| < Channels.RecordSize(BatchKind(p.cmd).value) ==> status == ERROR)
  {
    var k := BatchKind(p.cmd).value;
    var done := Channels.Command(k, core.tables, p.payload);
    AckRead(p, done.status, done.extra);
    Channels.BatchAppliesPrefix(k, core.tables, p.payload, [0, 0]);
  }

  lemma BuildStatus(card: Card, core: Core, p: Packet, io: Io)
    requires card.personality == App && p.cmd == CMD_TT_BUILD
    ensures var status := StatusOf(ReplyTo(card, core, p, io));
            var payload := p.payload;
            && (status == OK <==> payload != [] && payload[0] < 4 && core.tables.engine[payload[0]].setup)
            && (status == ERROR <==> payload == [])
            && (status == Channels.TX_OUT_OF_RANGE <==> payload != [] && payload[0] >= 4)
            && ExtraOf(ReplyTo(card, core, p, io)) == [if payload == [] then 0 else payload[0]]
  {
    var done := Channels.BuildCommand(core.tables, p.payload);
    AckRead(p, done.status, done.extra);
  }

  /** The loader's status goes out as its code; an accepted START is told the largest STEP, 240 bytes. */
  lemma LoaderStatus(card: Card, core: Core, p: Packet, io: Io)
    requires card.personality == Recovery && p.cmd == CMD_FW_UPDATE
    ensures var (fw, status) := FwUpdate.Handle(card.cipher, core.fw, p.payload, io.now, io.env);
            var r := ReplyTo(card, core, p, io);
            && Dispatch(card, core, p, Tcp, io).core == core.(fw := fw)
            && StatusOf(r) == status.Code() && (StatusOf(r) == OK <==> status == FwUpdate.Ok)
            && ExtraOf(r) == (if status == FwUpdate.Ok && FromLe32(p.payload[..4]) == 0 then [240, 0] else [])
  {
    var (fw, status) := FwUpdate.Handle(card.cipher, core.fw, p.payload, io.now, io.env);
    var isStart := |p.payload| >= 4 && p.payload[..4] == [0, 0, 0, 0];
    AckRead(p, status.Code(), if isStart && status == FwUpdate.Ok then Le16(FwUpdate.CHUNK_SIZE) else []);
    if |p.payload| >= 4 {
      ZeroIndex(p.payload[..4]);
    }
  }

  lemma ZeroIndex(s: seq<byte>)
    requires |s| == 4
    ensures FromLe32(s) == 0 <==> s == [0, 0, 0, 0]
  {
  }

  /** What the answer carries: the firmware block, the hardware block, the bare UID, and the log level now
      in force. Nothing but the status comes with any other answer that no state decides, except
      those about the descriptor (CommSession.CapsReply). */
  lemma ExtraDecided(card: Card, core: Core, p: Packet, io: Io)
    requires !StateDecides(card, p.cmd)
    ensures var r, next := ReplyTo(card, core, p, io), Dispatch(card, core, p, Tcp, io).core;
            && (p.cmd == CMD_GET_UID ==> r.payload == card.uid)
            && (p.cmd == CMD_GET_FW_INFO ==> ExtraOf(r) == card.fwInfo)
            && (p.cmd == CMD_GET_HW_INFO ==> ExtraOf(r) == card.hwInfo)
            && (p.cmd == CMD_SET_LOG_LEVEL && card.personality == App && StatusOf(r) == OK
                ==> ExtraOf(r) == [next.level] == [p.payload[0]])
            && (p.cmd !in {CMD_GET_UID, CMD_GET_FW_INFO, CMD_GET_HW_INFO, CMD_GET_CAPABILITIES, CMD_SET_LOG_LEVEL}
                ==> ExtraOf(r) == [])
  {
    if p.cmd == CMD_GET_FW_INFO {
      AckRead(p, OK, card.fwInfo);
    } else if p.cmd == CMD_GET_HW_INFO {
      AckRead(p, OK, card.hwInfo);
    } else if card.personality == App && (p.cmd == CMD_DISCRETE_SETUP || p.cmd == CMD_DISCRETE_SET
              || p.cmd == CMD_HID_SETUP || p.cmd == CMD_HID_SET || p.cmd == CMD_SET_LOG_LEVEL) {
      PlaneStatus(card, core, p, io);
    } else if p.cmd != CMD_GET_UID && p.cmd != CMD_GET_CAPABILITIES {
      CommonStatus(card, core, p);
    }
  }

  /** The card restarts behind exactly these packets: REBOOT, or JUMP_TO_BOOTLOADER to the
      application, over TCP and with the card's UID. */
  lemma RestartsIff(card: Card, core: Core, p: Packet, src: Source, io: Io)
    ensures Dispatch(card, core, p, src, io).restart
            <==> src == Tcp && Keyed(card, p)
                 && (p.cmd == CMD_REBOOT || (p.cmd == CMD_JUMP_TO_BOOTLOADER && card.personality == App))
  {
    StreamsAndRestarts(card, core, p, src, io);
    if |p.payload| >= 12 {
      UidMatches(card, p);
    }
  }

  /** Every command changes its own part of the card and nothing else, over both transports. */
  lemma OwnPartOnly(card: Card, core: Core, p: Packet, src: Source, io: Io)
    ensures var next := Dispatch(card, core, p, src, io).core;
            && (next.tables != core.tables ==> card.personality == App && src == Tcp && IsChannelCommand(p.cmd))
            && (next.discrete != core.discrete || next.bus != core.bus
                ==> card.personality == App && (p.cmd == CMD_DISCRETE_SETUP || p.cmd == CMD_DISCRETE_SET))
            && (next.hid != core.hid ==> card.personality == App && (p.cmd == CMD_HID_SETUP || p.cmd == CMD_HID_SET))
            && (next.level != core.level ==> card.personality == App && src == Tcp && p.cmd == CMD_SET_LOG_LEVEL)
            && (next.fw != core.fw ==> card.personality == Recovery && src == Tcp && p.cmd == CMD_FW_UPDATE)
  {
    if src == Udp {
      SilentOnUdp(card, core, p, io);
    }
  }

  /** A SET over UDP, which nothing answers, does what the same SET over TCP does. */
  lemma SetsAlikeOnBoth(card: Card, core: Core, p: Packet, io: Io)
    requires p.cmd == CMD_DISCRETE_SET || p.cmd == CMD_HID_SET
    ensures Dispatch(card, core, p, Udp, io).core == Dispatch(card, core, p, Tcp, io).core
  {
  }

  /** A well-formed DISCRETE_SETUP: its first byte switches the plane, bytes 2 and 3 are the
      report period, and the relay task's intent is switched with it, wanting nothing. */
  lemma DiscreteSetupEffect(card: Card, core: Core, p: Packet, io: Io)
    requires card.personality == App && p.cmd == CMD_DISCRETE_SETUP && |p.payload| == 4
    ensures var next := Dispatch(card, core, p, Tcp, io).core;
            var on, period := p.payload[0] != 0, p.payload[2] as int + 256 * p.payload[3] as int;
            && next.bus.enabled == on && next.bus.state == core.bus.state
            && (forall c :: 0 <= c < 64 ==> !next.bus.desired[c] && !next.discrete.desired[c])
            && next.discrete.enabled == (on || core.discrete.enabled)
            && next.discrete.disabling == (!on && core.discrete.enabled)
            && next.discrete.reportMs == (if !on then core.discrete.reportMs else if period == 0 then 500 else period)
  {
    assert Discrete.Applied(core.bus, []) == core.bus;
  }

  /** A well-formed DISCRETE_SET, over either transport: while the plane is on, not shutting
      down, and the link up, it sets the intent of each channel it addresses below the output
      count, and of no other; in any other case of none. */
  lemma DiscreteSetEffect(card: Card, core: Core, p: Packet, src: Source, io: Io, c: nat)
    requires card.personality == App && p.cmd == CMD_DISCRETE_SET && WellFormedSet(p.payload) && c < 64
    requires core.bus.enabled <==> core.discrete.enabled && !core.discrete.disabling
    ensures Discrete.DecodeSet(p.payload).Some?
    ensures var next, m := Dispatch(card, core, p, src, io).core, Discrete.DecodeSet(p.payload).value;
            var heard := core.discrete.enabled && !core.discrete.disabling && core.bus.state.link;
            next.bus.desired[c]
            == if heard && c < card.config.outputs && m.apply[c] then m.values[c] else core.bus.desired[c]
  {
    DecodedIffWellFormed(p.payload);
    IntentOfSet(card, core, Discrete.DecodeSet(p.payload).value, c);
    assert Dispatch(card, core, p, src, io).core == DiscreteSet(card, core, Discrete.DecodeSet(p.payload).value);
  }

  lemma IntentOfSet(card: Card, core: Core, m: Discrete.Masks, c: nat)
    requires c < 64 && (core.bus.enabled <==> core.discrete.enabled && !core.discrete.disabling)
    ensures var heard := core.discrete.enabled && !core.discrete.disabling && core.bus.state.link;
            DiscreteSet(card, core, m).bus.desired[c]
            == if heard && c < card.config.outputs && m.apply[c] then m.values[c] else core.bus.desired[c]
  {
    assert Discrete.Applied(core.bus, []) == core.bus;
    if m.apply != Words.Zero(64) {
      DiscreteTiming.SetReachesBackend(core.discrete, card.config, m.apply, m.values, Backend(core));
      var calls := Discrete.Set(core.discrete, card.config, m.apply, m.values, Backend(core)).1;
      if calls != [] {
        Discrete.AppliedOne(core.bus, calls[0].mask, calls[0].values);
      }
    }
  }

  /** The joystick plane: a SETUP switches it and sets the report period, 500 ms for 0; a SET is kept only
      while it is on, and a switch off forgets it. */
  lemma JoystickEffects(card: Card, core: Core, p: Packet, io: Io)
    requires card.personality == App
    ensures var next := Dispatch(card, core, p, Tcp, io).core.hid;
            && (p.cmd == CMD_HID_SETUP && |p.payload| >= 4 ==>
                  var on, period := p.payload[0] != 0, p.payload[2] as int + 256 * p.payload[3] as int;
                  && next.enabled == on
                  && next.reportMs == (if !on then core.hid.reportMs else if period == 0 then 500 else period)
                  && next.data == (if on then core.hid.data else []))
            && (p.cmd == CMD_HID_SET && |p.payload| >= 25 ==>
                  next == core.hid.(data := if core.hid.enabled then p.payload[..25] else core.hid.data))
  {
  }
}
