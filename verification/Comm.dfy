/** The command dispatcher of components/lccore/comm_core.c, in both build personalities, over
    the channel tables, the discrete plane with the relay task's shared intent, the log
    threshold and the firmware loader. */
module Comm {
  import opened Bytes
  import opened Options
  import opened Framing
  import Words
  import Channels
  import Discrete
  import Rs485
  import FwUpdate
  import LogQueue
  import Cbc

  const CMD_GET_FW_INFO := 0x06
  const CMD_GET_UID := 0x09
  const CMD_GET_HW_INFO := 0x0D
  const CMD_FW_UPDATE := 0x0F
  const CMD_CHNL_SETUP := 0x10
  const CMD_CHNL_ENABLE := 0x11
  const CMD_SEND_LBL_MAN := 0x12
  const CMD_ADD_LABEL := 0x13
  const CMD_TT_BUILD := 0x14
  const CMD_TT_UPD_LBL := 0x16
  const CMD_DEVICE_STATUS := 0x0E
  const CMD_FIND_ME := 0x22
  const CMD_SET_LOG_LEVEL := 0x25
  const CMD_GET_CAPABILITIES := 0x26
  const CMD_DISCRETE_SETUP := 0x30
  const CMD_DISCRETE_SET := 0x31
  const CMD_HID_SETUP := 0x33
  const CMD_HID_SET := 0x34
  const CMD_HID_STATE := 0x35
  const CMD_JUMP_TO_BOOTLOADER := 0xAA
  const CMD_REBOOT := 0xFB

  const OK := 0
  const ERROR := 2
  const TOO_SHORT := 5
  const VERSION_UNSUPPORTED := 70

  const CAPS_VERSION := 1
  const CAPS_CHUNK := 240
  const ACK_ENVELOPE := 5
  const DISCRETE_SETUP_SIZE := 4
  const HID_SETUP_SIZE := 4
  const HID_SET_SIZE := 25
  const HID_STATE_SIZE := 22
  const HID_DEFAULT_REPORT_MS := 500
  const LOG_LEVEL_INFO := LogQueue.INFO

  // ---- state -------------------------------------------------------------------------------

  datatype Personality = App | Recovery
  datatype Source = Tcp | Udp

  type Uid = s: seq<byte> | |s| == 12 witness seq(12, _ => 0)
  type Info = s: seq<byte> | |s| == 53 witness seq(53, _ => 0)
  type Blob = s: seq<byte> | |s| < 0x1_0000 witness []

  /** What is fixed at boot. */
  datatype Card = Card(personality: Personality, cipher: Cbc.Cipher, config: Discrete.Config,
                       uid: Uid, fwInfo: Info, hwInfo: Info, caps: Option<Blob>)

  /** The joystick plane, with its axes and buttons kept as the last accepted SET. */
  datatype Hid = Hid(enabled: bool, reportMs: u16, data: seq<byte>)
  const HID_RESET := Hid(false, HID_DEFAULT_REPORT_MS, [])

  type Level = LogQueue.Level

  /** The protocol state; `bus` is the intent shared with the relay task. */
  datatype Core = Core(tables: Channels.Tables, discrete: Discrete.Glue, bus: Rs485.Shared, hid: Hid,
                       level: Level, fw: FwUpdate.Fw)

  const BOOT := Core(Channels.RESET, Discrete.BOOT, Rs485.OFF, HID_RESET, LOG_LEVEL_INFO, FwUpdate.Boot())

  /** What the world does while one packet is handled: the clock, the platform calls behind the
      loader, and how many bytes of the answer the socket took before it failed. */
  datatype Io = Io(now: u32, env: FwUpdate.Env, failed: Option<nat>)

  datatype Reply = Reply(cmd: byte, payload: Payload)
  /** `streamed`: a HID STATE frame was built for UDP before the answer. `restart`: the card resets
      once the answer is out, and nothing else is handled. */
  datatype Result = Result(core: Core, reply: Option<Reply>, streamed: bool := false, restart: bool := false)

  // ---- acknowledgements ----------------------------------------------------------------------

  type Extra = s: seq<byte> | |s| <= MAX_PAYLOAD - ACK_ENVELOPE witness []

  /** comm_send_ack: [ request id | status | extra ]. */
  function Ack(p: Packet, status: u32, extra: Extra): Reply {
    Reply(p.cmd, [p.id] + Le32(status) + extra)
  }

  /** Dual-transport commands and the simple ones answer on TCP only. */
  function Answer(src: Source, core: Core, reply: Reply): Result {
    Result(core, if src == Tcp then Some(reply) else None)
  }

  // ---- commands of both personalities -----------------------------------------------------------

  function UidCommand(card: Card, p: Packet): Reply {
    Ack(p, if |p.payload| >= 12 && p.payload[..12] == card.uid then OK else ERROR, [])
  }

  /** The requests that reset the card: the key is right, and the recovery build, already the
      bootloader, does not jump. */
  predicate Restarts(card: Card, p: Packet) {
    && (p.cmd == CMD_REBOOT || (p.cmd == CMD_JUMP_TO_BOOTLOADER && card.personality == App))
    && |p.payload| >= 12 && p.payload[..12] == card.uid
  }

  /** Ends the dispatch switch: the commands both personalities share, and the unknown ones. */
  function DispatchCommon(card: Card, core: Core, p: Packet, src: Source): Result {
    Answer(src, core,
      if p.cmd == CMD_FIND_ME then Ack(p, if |p.payload| < 4 then TOO_SHORT else OK, [])
      else if p.cmd == CMD_JUMP_TO_BOOTLOADER || p.cmd == CMD_REBOOT then UidCommand(card, p)
      else if p.cmd == CMD_PING then Ack(p, OK, [])
      else Ack(p, ERROR, [])).(restart := src == Tcp && Restarts(card, p))
  }

  // ---- application personality ----------------------------------------------------------------------

  function BatchKind(cmd: byte): Option<Channels.Kind> {
    if cmd == CMD_CHNL_SETUP then Some(Channels.ChannelSetup)
    else if cmd == CMD_CHNL_ENABLE then Some(Channels.ChannelEnable)
    else if cmd == CMD_SEND_LBL_MAN then Some(Channels.SendManual)
    else if cmd == CMD_ADD_LABEL then Some(Channels.AddLabel)
    else if cmd == CMD_TT_UPD_LBL then Some(Channels.UpdateLabel)
    else None
  }

  function ChannelCommand(core: Core, p: Packet, src: Source): Result
    requires BatchKind(p.cmd).Some? || p.cmd == CMD_TT_BUILD
  {
    var done := if p.cmd == CMD_TT_BUILD then Channels.BuildCommand(core.tables, p.payload)
                else Channels.Command(BatchKind(p.cmd).value, core.tables, p.payload);
    Answer(src, core.(tables := done.tables), Ack(p, done.status, done.extra))
  }

  /** What get_state of the discrete backend answers. */
  function Backend(core: Core): Option<Discrete.Hw> {
    Some(Discrete.HwOf(core.bus.state))
  }

  function DiscreteSetup(core: Core, p: Packet, now: u32): Core
    requires |p.payload| == DISCRETE_SETUP_SIZE
  {
    var (g, calls) := Discrete.Setup(core.discrete, p.payload[0], FromLe16(p.payload[2..4]), Backend(core), now);
    core.(discrete := g, bus := Discrete.Applied(core.bus, calls))
  }

  function DiscreteSet(card: Card, core: Core, m: Discrete.Masks): Core {
    if m.apply == Words.Zero(64) then core
    else
      var (g, calls) := Discrete.Set(core.discrete, card.config, m.apply, m.values, Backend(core));
      core.(discrete := g, bus := Discrete.Applied(core.bus, calls))
  }

  function HidSetup(h: Hid, enable: byte, reportMs: u16): Hid {
    if enable != 0 then h.(enabled := true, reportMs := if reportMs != 0 then reportMs else HID_DEFAULT_REPORT_MS)
    else h.(enabled := false, data := [])
  }

  /** Disabling an enabled plane emits a last STATE at once. */
  predicate HidStreams(h: Hid, enable: byte) {
    enable == 0 && h.enabled
  }

  function HidSet(h: Hid, payload: seq<byte>): Hid
    requires |payload| >= HID_SET_SIZE
  {
    if h.enabled then h.(data := payload[..HID_SET_SIZE]) else h
  }

  /** GET_CAPABILITIES: a stateless read of the descriptor at an offset. */
  function GetCapabilities(card: Card, p: Packet): Reply {
    if |p.payload| < 3 then Ack(p, TOO_SHORT, [])
    else if card.caps.None? then Ack(p, ERROR, [])
    else if p.payload[0] != CAPS_VERSION then Ack(p, VERSION_UNSUPPORTED, [CAPS_VERSION, CAPS_VERSION])
    else
      var blob, offset := card.caps.value, FromLe16(p.payload[1..3]);
      if offset > |blob| then Ack(p, ERROR, []) else Ack(p, OK, Le16(|blob|) + CapsChunk(blob, offset))
  }

  function CapsChunk(blob: Blob, offset: nat): (s: seq<byte>)
    requires offset <= |blob|
    ensures |s| <= CAPS_CHUNK
  {
    blob[offset..if |blob| - offset > CAPS_CHUNK then offset + CAPS_CHUNK else |blob|]
  }

  /** DISCRETE and HID commands and the log threshold: SETUPs over UDP are ignored. */
  function DispatchPlanes(card: Card, core: Core, p: Packet, src: Source, io: Io): Result {
    if p.cmd == CMD_DISCRETE_SETUP then
      if src == Udp then Result(core, None)
      else if |p.payload| != DISCRETE_SETUP_SIZE then Answer(src, core, Ack(p, TOO_SHORT, []))
      else Answer(src, DiscreteSetup(core, p, io.now), Ack(p, OK, []))
    else if p.cmd == CMD_DISCRETE_SET then
      match Discrete.DecodeSet(p.payload)
      case None => Answer(src, core, Ack(p, TOO_SHORT, []))
      case Some(m) => Answer(src, DiscreteSet(card, core, m), Ack(p, OK, []))
    else if p.cmd == CMD_HID_SETUP then
      if src == Udp then Result(core, None)
      else if |p.payload| < HID_SETUP_SIZE then Answer(src, core, Ack(p, TOO_SHORT, []))
      else
        var hid := HidSetup(core.hid, p.payload[0], FromLe16(p.payload[2..4]));
        Answer(src, core.(hid := hid), Ack(p, OK, [])).(streamed := HidStreams(core.hid, p.payload[0]))
    else if p.cmd == CMD_HID_SET then
      if |p.payload| < HID_SET_SIZE then Answer(src, core, Ack(p, TOO_SHORT, []))
      else Answer(src, core.(hid := HidSet(core.hid, p.payload)), Ack(p, OK, []))
    else if p.cmd == CMD_SET_LOG_LEVEL then
      if src == Udp then Result(core, None)
      else if |p.payload| >= 1 && p.payload[0] <= LOG_LEVEL_INFO then
        Answer(src, core.(level := p.payload[0]), Ack(p, OK, [p.payload[0]]))
      else Answer(src, core, Ack(p, ERROR, []))
    else DispatchCommon(card, core, p, src)
  }

  function DispatchApp(card: Card, core: Core, p: Packet, src: Source, io: Io): Result {
    if p.cmd == CMD_GET_CAPABILITIES then Result(core, Some(GetCapabilities(card, p)))
    else if BatchKind(p.cmd).Some? || p.cmd == CMD_TT_BUILD then ChannelCommand(core, p, src)
    else DispatchPlanes(card, core, p, src, io)
  }

  // ---- recovery personality -------------------------------------------------------------------------------

  /** FW_UPDATE: an accepted START is answered with the largest STEP the loader takes. */
  function FwPacket(card: Card, core: Core, p: Packet, io: Io): Result {
    var isStart := |p.payload| >= 4 && p.payload[..4] == [0, 0, 0, 0];
    var (fw, status) := FwUpdate.Handle(card.cipher, core.fw, p.payload, io.now, io.env);
    Result(core.(fw := fw),
           Some(Ack(p, status.Code(), if isStart && status == FwUpdate.Ok then Le16(FwUpdate.CHUNK_SIZE) else [])))
  }

  function DispatchRecovery(card: Card, core: Core, p: Packet, src: Source, io: Io): Result {
    if p.cmd == CMD_FW_UPDATE then
      if src == Udp then Result(core, None) else FwPacket(card, core, p, io)
    else DispatchCommon(card, core, p, src)
  }

  // ---- dispatch ---------------------------------------------------------------------------------------------

  /** Config and query commands dropped on UDP before the switch. */
  predicate DroppedOnUdp(cmd: byte) {
    || cmd == CMD_GET_FW_INFO || cmd == CMD_GET_CAPABILITIES || cmd == CMD_GET_HW_INFO || cmd == CMD_GET_UID
    || cmd == CMD_CHNL_SETUP || cmd == CMD_CHNL_ENABLE || cmd == CMD_ADD_LABEL || cmd == CMD_TT_UPD_LBL
    || cmd == CMD_TT_BUILD
  }

  /** comm_dispatch */
  function Dispatch(card: Card, core: Core, p: Packet, src: Source, io: Io): Result {
    if src == Udp && DroppedOnUdp(p.cmd) then Result(core, None)
    else if p.cmd == CMD_GET_FW_INFO then Result(core, Some(Ack(p, OK, card.fwInfo)))
    else if p.cmd == CMD_GET_HW_INFO then Result(core, Some(Ack(p, OK, card.hwInfo)))
    else if p.cmd == CMD_GET_UID then Result(core, Some(Reply(CMD_GET_UID, card.uid)))
    else if card.personality == App then DispatchApp(card, core, p, src, io)
    else DispatchRecovery(card, core, p, src, io)
  }

  // ---- sessions -----------------------------------------------------------------------------------------------

  /** channels_reset, and the loader's reset in the recovery build. */
  function SessionReset(card: Card, core: Core): Core {
    var (g, calls) := Discrete.Reset(core.discrete);
    Core(Channels.RESET, g, Discrete.Applied(core.bus, calls),
         if card.personality == App then HID_RESET else core.hid, core.level,
         if card.personality == Recovery then FwUpdate.SessionReset(core.fw) else core.fw)
  }

  /** comm_core_session(false) */
  function SessionEnd(card: Card, core: Core): Core {
    SessionReset(card, core).(level := LOG_LEVEL_INFO)
  }

  // ---- what every dispatched packet gets -----------------------------------------------------------------------

  /** The answer matches the request: same command, and the request's id in front, except that
      GET_UID answers the bare UID. */
  predicate Answers(r: Reply, p: Packet) {
    && r.cmd == p.cmd
    && (p.cmd != CMD_GET_UID ==> |r.payload| >= ACK_ENVELOPE && r.payload[0] == p.id)
  }

  lemma PlanesAnswerOnTcp(card: Card, core: Core, p: Packet, io: Io)
    ensures var r := DispatchPlanes(card, core, p, Tcp, io).reply; r.Some? && Answers(r.value, p)
  {
  }

  /** A TCP packet gets exactly one answer, whatever the command, the payload and the state. */
  lemma OneReplyOnTcp(card: Card, core: Core, p: Packet, io: Io)
    ensures var r := Dispatch(card, core, p, Tcp, io).reply; r.Some? && Answers(r.value, p)
  {
    if card.personality == App {
      AppAnswersOnTcp(card, core, p, io);
    } else {
      RecoveryAnswersOnTcp(card, core, p, io);
    }
  }

  lemma AppAnswersOnTcp(card: Card, core: Core, p: Packet, io: Io)
    ensures var r := DispatchApp(card, core, p, Tcp, io).reply; r.Some? && Answers(r.value, p)
  {
    PlanesAnswerOnTcp(card, core, p, io);
  }

  lemma RecoveryAnswersOnTcp(card: Card, core: Core, p: Packet, io: Io)
    ensures var r := DispatchRecovery(card, core, p, Tcp, io).reply; r.Some? && Answers(r.value, p)
  {
  }

  /** The only frame a handler builds besides its answer is the STATE of a HID_SETUP that
      disables an enabled joystick; the only requests after which nothing is handled are the
      keyed REBOOT and, outside the recovery build, JUMP_TO_BOOTLOADER. */
  lemma StreamsAndRestarts(card: Card, core: Core, p: Packet, src: Source, io: Io)
    ensures var r := Dispatch(card, core, p, src, io);
            && (r.streamed <==> card.personality == App && src == Tcp && p.cmd == CMD_HID_SETUP
                                && |p.payload| >= HID_SETUP_SIZE && p.payload[0] == 0 && core.hid.enabled)
            && (r.restart <==> src == Tcp && Restarts(card, p))
            && (r.restart ==> r.core == core)
  {
  }

  /** The status a gateway reads out of an ACK. */
  function StatusOf(r: Reply): u32
    requires |r.payload| >= ACK_ENVELOPE
  {
    FromLe32(r.payload[1..ACK_ENVELOPE])
  }

  lemma AckCarriesStatus(p: Packet, status: u32, extra: Extra)
    ensures StatusOf(Ack(p, status, extra)) == status
  {
    Le32RoundTrip(status);
    assert Ack(p, status, extra).payload[1..ACK_ENVELOPE] == Le32(status);
  }

  /** An error ACK means the card is as it was; the batch commands, which keep the records
      before the failing one (Channels.BatchAppliesPrefix), and FW_UPDATE, which may end its
      upload (FwUpdate.ErrorsWriteNothing), are the exceptions. */
  lemma ErrorAckChangesNothing(card: Card, core: Core, p: Packet, io: Io)
    requires Channels.Mirror(core.tables) && p.cmd != CMD_GET_UID
    requires if card.personality == App then BatchKind(p.cmd).None? else p.cmd != CMD_FW_UPDATE
    ensures var r := Dispatch(card, core, p, Tcp, io);
            && r.reply.Some? && |r.reply.value.payload| >= ACK_ENVELOPE
            && (StatusOf(r.reply.value) != OK ==> r.core == core)
  {
    OneReplyOnTcp(card, core, p, io);
    var r := Dispatch(card, core, p, Tcp, io);
    if r.core != core && p.cmd == CMD_TT_BUILD {
      var done := Channels.BuildCommand(core.tables, p.payload);
      Channels.BuildKeepsMirror(core.tables, p.payload);
      AckCarriesStatus(p, done.status, done.extra);
    } else if r.core != core && p.cmd == CMD_SET_LOG_LEVEL {
      AckCarriesStatus(p, OK, [p.payload[0]]);
    } else if r.core != core {
      AckCarriesStatus(p, OK, []);
    }
  }

  /** Everything a control session configures. */
  predicate SameControl(a: Core, b: Core) {
    && a.tables == b.tables && a.level == b.level && a.fw == b.fw
    && a.discrete.enabled == b.discrete.enabled && a.discrete.disabling == b.discrete.disabling
    && a.discrete.disableStarted == b.discrete.disableStarted && a.discrete.reportMs == b.discrete.reportMs
    && a.bus.enabled == b.bus.enabled && a.bus.state == b.bus.state
    && a.hid.enabled == b.hid.enabled && a.hid.reportMs == b.hid.reportMs
  }

  /** A SEND_LABEL_MANUAL transmits and changes no table. */
  lemma {:induction false} ManualChangesNothing(t: Channels.Tables, payload: seq<byte>, extra: Channels.Named)
    ensures Channels.Batch(Channels.SendManual, t, payload, extra).tables == t
    decreases payload
  {
    if |payload| >= 5 {
      var r := payload[..5];
      if Channels.ApplyRecord(Channels.SendManual, t, r).1 == Channels.OK {
        ManualChangesNothing(t, payload[5..], Channels.Extra(Channels.SendManual, r));
      }
    }
  }

  /** The planes on UDP: only the two SETs do anything. */
  lemma PlanesSilentOnUdp(card: Card, core: Core, p: Packet, io: Io)
    ensures var r := DispatchPlanes(card, core, p, Udp, io);
            && r.reply == None && SameControl(r.core, core)
            && (r.core != core ==> p.cmd == CMD_DISCRETE_SET || p.cmd == CMD_HID_SET)
  {
    if p.cmd == CMD_DISCRETE_SET && Discrete.DecodeSet(p.payload).Some? {
      SetKeepsControl(card, core, Discrete.DecodeSet(p.payload).value);
    }
  }

  lemma ManualSilentOnUdp(core: Core, p: Packet)
    requires p.cmd == CMD_SEND_LBL_MAN
    ensures ChannelCommand(core, p, Udp) == Result(core, None)
  {
    ManualChangesNothing(core.tables, p.payload, [0, 0]);
  }

  /** A UDP packet gets no answer and changes no configuration; all it can do is write
      outputs, on a card running the application. */
  lemma SilentOnUdp(card: Card, core: Core, p: Packet, io: Io)
    ensures var r := Dispatch(card, core, p, Udp, io); r.reply == None && SameControl(r.core, core)
    ensures Dispatch(card, core, p, Udp, io).core != core
            ==> card.personality == App && (p.cmd == CMD_DISCRETE_SET || p.cmd == CMD_HID_SET)
  {
    if card.personality == App && !DroppedOnUdp(p.cmd) {
      if p.cmd == CMD_SEND_LBL_MAN {
        ManualSilentOnUdp(core, p);
      } else {
        PlanesSilentOnUdp(card, core, p, io);
      }
    }
  }

  lemma SetKeepsControl(card: Card, core: Core, m: Discrete.Masks)
    ensures SameControl(DiscreteSet(card, core, m), core)
  {
    if m.apply != Words.Zero(64) {
      var calls := Discrete.Set(core.discrete, card.config, m.apply, m.values, Backend(core)).1;
      if calls != [] {
        Discrete.AppliedOne(core.bus, calls[0].mask, calls[0].values);
      }
    }
  }
}
