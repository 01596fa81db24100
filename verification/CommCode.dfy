/** components/lccore/comm_core.c and the client service of main/comm_task.c as written, over
    the channel tables, the discrete plane, the loader, the log threshold and the socket. Input is
    proved to serve exactly the packets of Framing.Scan, and the client service to be the receive
    of one turn of CommWire.Stream. */
module CommCode {
  import opened Bytes
  import opened Options
  import opened Framing
  import opened Comm
  import opened CommSession
  import Channels
  import ChannelCode
  import Discrete
  import DiscreteGlue
  import FwUpdate
  import FwUpdater
  import LogRing
  import Rs485Task
  import Words

  const RX_SIZE := 1024

  class CommTask {
    const card: Card
    const tables: ChannelCode.ChannelTables
    const plane: DiscreteGlue.DiscretePlane
    const updater: FwUpdater.Updater
    const log: LogRing.Ring
    const rxbuf: array<byte>
    var hid: Hid
    var txId: byte
    var client: bool
    /** False once the card has been told to restart; in the source that call does not return. */
    var up: bool
    var rxlen: nat
    /** The bytes the socket accepted. */
    var wire: seq<byte>

    ghost predicate Valid()
      reads tables
    {
      && plane.config == card.config && updater.port.cipher == card.cipher && rxbuf.Length == RX_SIZE
      && tables.Valid()
    }

    /** The objects behind the protocol state. */
    ghost function Parts(): set<object> {
      {this, tables, plane, plane.bus, updater, updater.fletch, updater.port}
    }

    ghost function View(): Core
      reads Parts(), log`level
    {
      Core(tables.View(), plane.View(), plane.bus.View(), hid, log.level, updater.View())
    }

    /** comm_core_init on fresh state. */
    constructor (card: Card)
      ensures Valid() && this.card == card && View() == BOOT && !client && txId == 0 && up
      ensures rxlen == 0 && wire == [] && fresh(tables) && fresh(plane) && fresh(plane.bus)
      ensures fresh(updater) && fresh(updater.fletch) && fresh(updater.port) && fresh(log) && fresh(rxbuf)
    {
      this.card := card;
      tables := new ChannelCode.ChannelTables();
      var bus := new Rs485Task.Bus();
      plane := new DiscreteGlue.DiscretePlane(card.config, bus);
      updater := new FwUpdater.Updater(card.cipher);
      log := new LogRing.Ring(0);
      rxbuf := new byte[RX_SIZE](_ => 0);
      hid, txId, client, up, rxlen, wire := HID_RESET, 0, false, true, 0, [];
    }

    ghost function Link(): Conn
      reads Parts(), log`level
    {
      Conn(View(), client, txId, up)
    }

    // ---- outgoing frames -----------------------------------------------------------------

    /** comm_core_build_frame */
    method BuildFrame(pkt: array?<byte>, cmd: byte, payload: array?<byte>, len: byte) returns (total: nat)
      requires pkt != null ==> pkt.Length >= HEADER_SIZE + MAX_PAYLOAD + 1 && pkt != payload
      requires payload != null ==> len as int <= payload.Length
      modifies this`txId, if pkt == null then {} else {pkt}
      ensures total == 0 <==> pkt == null || len as int > MAX_PAYLOAD || (len > 0 && payload == null)
      ensures total == 0 ==> txId == old(txId)
      ensures total > 0 ==> (
              && total <= pkt.Length && txId == Add8(old(txId), 1)
              && pkt[..total] == Frame(Packet(old(txId), cmd, if len == 0 then [] else old(payload[..len]))))
    {
      if pkt == null || len as int > MAX_PAYLOAD || (len > 0 && payload == null) {
        return 0;
      }
      FillFrame(pkt, txId, cmd, if len > 0 then payload[..len] else []);
      txId := Add8(txId, 1);
      return HEADER_SIZE + len as int + 1;
    }

    /** ops_send_tcp: a send that fails drops the client. */
    method SocketSend(frame: seq<byte>, failed: Option<nat>)
      requires Valid() && frame != []
      modifies Parts(), log`level
      ensures Valid()
      ensures txId == old(txId) && up == old(up)
      ensures !old(client) || failed.Some? ==> !client
      ensures !old(client) || failed == None ==> View() == old(View()) && client == old(client)
      ensures old(client) && failed.Some? ==> View() == SessionEnd(card, old(View()))
      ensures wire == old(wire) + (if !old(client) then [] else if failed == None then frame
                                   else frame[..if failed.value < |frame| then failed.value else |frame| - 1])
      ensures rxlen == if old(client) && !client then 0 else old(rxlen)
    {
      if !client {
        return;
      }
      if failed == None {
        wire := wire + frame;
        return;
      }
      wire := wire + frame[..if failed.value < |frame| then failed.value else |frame| - 1];
      ClientDrop();
    }

    /** tcp_client_drop */
    method ClientDrop()
      requires Valid()
      modifies Parts(), log`level
      ensures Valid()
      ensures !client && txId == old(txId) && up == old(up) && wire == old(wire)
      ensures View() == if old(client) then SessionEnd(card, old(View())) else old(View())
      ensures rxlen == if old(client) then 0 else old(rxlen)
    {
      if client {
        client := false;
        rxlen := 0;
        Session(false);
      }
    }

    /** comm_core_session */
    method Session(connected: bool)
      requires Valid()
      modifies Parts(), log`level
      ensures Valid()
      ensures View() == if connected then SessionReset(card, old(View())) else SessionEnd(card, old(View()))
      ensures client == old(client) && txId == old(txId) && up == old(up) && wire == old(wire) && rxlen == old(rxlen)
    {
      tables.Reset();
      plane.ResetPlane();
      if card.personality == App {
        hid := HID_RESET;
      } else {
        updater.SessionReset();
      }
      if !connected {
        log.SetLevel(LOG_LEVEL_INFO);
      }
    }

    /** comm_core_send_tcp */
    method SendTcp(cmd: byte, payload: array<byte>, len: byte, failed: Option<nat>)
      requires Valid() && len as int <= payload.Length && len as int <= MAX_PAYLOAD
      modifies Parts(), log`level
      ensures Valid()
      ensures (Link(), wire) == After(card, old(Link()), old(wire),
                                      Result(old(View()), Some(Reply(cmd, old(payload[..len])))), failed)
      ensures rxlen == if old(client) && !client then 0 else old(rxlen)
    {
      var pkt := new byte[HEADER_SIZE + MAX_PAYLOAD + 1](_ => 0);
      var total := BuildFrame(pkt, cmd, payload, len);
      if total > 0 {
        assert pkt[..total][..total] == pkt[..total];
        SocketSend(pkt[..total], failed);
      }
    }

    method AckPayload(id: byte, status: u32, extra: Extra) returns (payload: array<byte>)
      ensures fresh(payload) && payload.Length == MAX_PAYLOAD
      ensures payload[..ACK_ENVELOPE + |extra|] == [id] + Le32(status) + extra
    {
      payload := new byte[MAX_PAYLOAD](_ => 0);
      var code := Le32(status);
      payload[0] := id;
      payload[1], payload[2], payload[3], payload[4] := code[0], code[1], code[2], code[3];
      forall i | 0 <= i < |extra| {
        payload[ACK_ENVELOPE + i] := extra[i];
      }
    }

    /** comm_send_ack */
    method SendAck(cmd: byte, id: byte, status: u32, extra: Extra, failed: Option<nat>)
      requires Valid()
      modifies Parts(), log`level
      ensures Valid()
      ensures (Link(), wire) == After(card, old(Link()), old(wire),
                                      Result(old(View()), Some(Ack(Packet(id, cmd, []), status, extra))), failed)
      ensures rxlen == if old(client) && !client then 0 else old(rxlen)
    {
      var payload := AckPayload(id, status, extra);
      SendTcp(cmd, payload, ACK_ENVELOPE + |extra|, failed);
    }

    // ---- handlers ------------------------------------------------------------------------

    /** comm_send_ack on TCP; nothing on UDP. */
    method Respond(p: Packet, src: Source, status: u32, extra: Extra, failed: Option<nat>)
      requires Valid()
      modifies Parts(), log`level
      ensures Valid()
      ensures (Link(), wire) == After(card, old(Link()), old(wire), Answer(src, old(View()), Ack(p, status, extra)),
                                      failed)
      ensures rxlen == if old(client) && !client then 0 else old(rxlen)
    {
      if src == Tcp {
        SendAck(p.cmd, p.id, status, extra, failed);
      }
    }

    method HandleGetUid(failed: Option<nat>)
      requires Valid()
      modifies Parts(), log`level
      ensures Valid()
      ensures (Link(), wire) == After(card, old(Link()), old(wire),
                                      Result(old(View()), Some(Reply(CMD_GET_UID, card.uid))), failed)
      ensures rxlen == if old(client) && !client then 0 else old(rxlen)
    {
      var uid := new byte[12](i requires 0 <= i < 12 => card.uid[i]);
      assert uid[..12] == card.uid;
      SendTcp(CMD_GET_UID, uid, 12, failed);
    }

    /** The answer to GET_CAPABILITIES: the descriptor's length and the chunk from the offset asked for. */
    method CapabilitiesAnswer(p: Packet) returns (status: u32, extra: Extra)
      ensures Ack(p, status, extra) == GetCapabilities(card, p)
    {
      if |p.payload| < 3 {
        return TOO_SHORT, [];
      }
      if card.caps.None? {
        return ERROR, [];
      }
      if p.payload[0] != CAPS_VERSION {
        return VERSION_UNSUPPORTED, [CAPS_VERSION, CAPS_VERSION];
      }
      var offset, blob := FromLe16(p.payload[1..3]), card.caps.value;
      if offset > |blob| {
        return ERROR, [];
      }
      var chunk := |blob| - offset;
      if chunk > CAPS_CHUNK {
        chunk := CAPS_CHUNK;
      }
      return OK, Le16(|blob|) + blob[offset..offset + chunk];
    }

    method HandleGetCapabilities(p: Packet, failed: Option<nat>)
      requires Valid()
      modifies Parts(), log`level
      ensures Valid()
      ensures (Link(), wire) == After(card, old(Link()), old(wire),
                                      Result(old(View()), Some(GetCapabilities(card, p))), failed)
      ensures rxlen == if old(client) && !client then 0 else old(rxlen)
    {
      var status, extra := CapabilitiesAnswer(p);
      SendAck(p.cmd, p.id, status, extra, failed);
    }

    /** The five batch commands and TT_BUILD. */
    method HandleChannels(p: Packet, src: Source, failed: Option<nat>)
      requires Valid() && card.personality == App && (BatchKind(p.cmd).Some? || p.cmd == CMD_TT_BUILD)
      modifies Parts(), log`level
      ensures Valid()
      ensures (Link(), wire) == After(card, old(Link()), old(wire), ChannelCommand(old(View()), p, src), failed)
      ensures rxlen == if old(client) && !client then 0 else old(rxlen)
    {
      ghost var conn, r := Link(), ChannelCommand(View(), p, src);
      var status, extra;
      if p.cmd == CMD_TT_BUILD {
        status, extra := tables.BuildTable(p.payload);
      } else {
        status, extra := tables.Batch(BatchKind(p.cmd).value, p.payload);
      }
      AfterHandled(card, conn, wire, r, failed, Link());
      Respond(p, src, status, extra, failed);
    }

    method HandleDiscreteSetup(p: Packet, src: Source, io: Io)
      requires Valid() && p.cmd == CMD_DISCRETE_SETUP
      modifies Parts(), log`level
      ensures Valid()
      ensures (Link(), wire) == After(card, old(Link()), old(wire), DispatchPlanes(card, old(View()), p, src, io),
                                      io.failed)
      ensures rxlen == if old(client) && !client then 0 else old(rxlen)
    {
      if src != Tcp {
        return;
      }
      var status := TOO_SHORT;
      if |p.payload| == DISCRETE_SETUP_SIZE {
        plane.SetupPlane(p.payload[0], FromLe16(p.payload[2..4]), io.now);
        status := OK;
      }
      SendAck(p.cmd, p.id, status, [], io.failed);
    }

    /** The status of a DISCRETE_SET, and the outputs it names. */
    method DiscreteSetStatus(p: Packet) returns (status: u32)
      requires Valid() && p.cmd == CMD_DISCRETE_SET
      modifies plane, plane.bus
      ensures Valid()
      ensures forall src, io :: DispatchPlanes(card, old(View()), p, src, io) == Answer(src, View(), Ack(p, status, []))
    {
      var masks := DiscreteGlue.DecodeMasks(p.payload);
      if masks.None? {
        return TOO_SHORT;
      }
      if masks.value.apply != Words.Zero(64) {
        plane.SetOutputs(masks.value.apply, masks.value.values);
      }
      return OK;
    }

    method HandleDiscreteSet(p: Packet, src: Source, io: Io)
      requires Valid() && p.cmd == CMD_DISCRETE_SET
      modifies Parts(), log`level
      ensures Valid()
      ensures (Link(), wire) == After(card, old(Link()), old(wire), DispatchPlanes(card, old(View()), p, src, io),
                                      io.failed)
      ensures rxlen == if old(client) && !client then 0 else old(rxlen)
    {
      var status := DiscreteSetStatus(p);
      Respond(p, src, status, [], io.failed);
    }

    /** emit_state of the joystick: whatever it reports, its frame takes a number, also when UDP
        does not send it. */
    method EmitHidState()
      modifies this`txId
      ensures txId == Add8(old(txId), 1)
    {
      var state := new byte[HID_STATE_SIZE](_ => 0);
      var pkt := new byte[HEADER_SIZE + MAX_PAYLOAD + 1](_ => 0);
      var total := BuildFrame(pkt, CMD_HID_STATE, state, HID_STATE_SIZE);
    }

    /** The status of a HID_SETUP, and the setup where its payload is long enough. */
    method HidSetupStatus(p: Packet) returns (status: u32)
      modifies this`txId, this`hid
      ensures |p.payload| < HID_SETUP_SIZE ==> status == TOO_SHORT && hid == old(hid) && txId == old(txId)
      ensures |p.payload| >= HID_SETUP_SIZE ==> (
              && status == OK && hid == HidSetup(old(hid), p.payload[0], FromLe16(p.payload[2..4]))
              && txId == if HidStreams(old(hid), p.payload[0]) then Add8(old(txId), 1) else old(txId))
    {
      if |p.payload| < HID_SETUP_SIZE {
        return TOO_SHORT;
      }
      if p.payload[0] == 0 && hid.enabled {
        EmitHidState();
      }
      hid := HidSetup(hid, p.payload[0], FromLe16(p.payload[2..4]));
      return OK;
    }

    method HandleHidSetup(p: Packet, src: Source, io: Io)
      requires Valid() && p.cmd == CMD_HID_SETUP
      modifies Parts(), log`level
      ensures Valid()
      ensures (Link(), wire)
           == After(card, old(Link()), old(wire), DispatchPlanes(card, old(View()), p, src, io), io.failed)
      ensures rxlen == if old(client) && !client then 0 else old(rxlen)
    {
      if src == Tcp {
        var status := HidSetupStatus(p);
        SendAck(p.cmd, p.id, status, [], io.failed);
      }
    }

    method HandleHidSet(p: Packet, src: Source, io: Io)
      requires Valid() && p.cmd == CMD_HID_SET
      modifies Parts(), log`level
      ensures Valid()
      ensures (Link(), wire)
           == After(card, old(Link()), old(wire), DispatchPlanes(card, old(View()), p, src, io), io.failed)
      ensures rxlen == if old(client) && !client then 0 else old(rxlen)
    {
      var status := TOO_SHORT;
      if |p.payload| >= HID_SET_SIZE {
        hid := HidSet(hid, p.payload);
        status := OK;
      }
      Respond(p, src, status, [], io.failed);
    }

    /** The answer to SET_LOG_LEVEL, and the threshold where the level is one. */
    method LogLevelAnswer(p: Packet) returns (status: u32, extra: Extra)
      modifies log`level
      ensures status == OK <==> |p.payload| >= 1 && p.payload[0] <= LOG_LEVEL_INFO
      ensures status == OK ==> log.level == p.payload[0] && extra == [p.payload[0]]
      ensures status != OK ==> log.level == old(log.level) && status == ERROR && extra == []
    {
      if |p.payload| >= 1 && p.payload[0] <= LOG_LEVEL_INFO {
        log.SetLevel(p.payload[0]);
        return OK, [log.level];
      }
      return ERROR, [];
    }

    method HandleSetLogLevel(p: Packet, src: Source, io: Io)
      requires Valid() && p.cmd == CMD_SET_LOG_LEVEL
      modifies Parts(), log`level
      ensures Valid()
      ensures (Link(), wire) == After(card, old(Link()), old(wire), DispatchPlanes(card, old(View()), p, src, io),
                                      io.failed)
      ensures rxlen == if old(client) && !client then 0 else old(rxlen)
    {
      if src == Tcp {
        ghost var conn, r := Link(), DispatchPlanes(card, View(), p, src, io);
        var status, extra := LogLevelAnswer(p);
        AfterHandled(card, conn, wire, r, io.failed, Link());
        SendAck(p.cmd, p.id, status, extra, io.failed);
      }
    }

    /** The loader decrypts the STEP data inside the receive buffer. */
    method LoaderPacket(buf: array<byte>, at: nat, to: nat, io: Io, ghost p: Packet)
      returns (status: u32, extra: Extra)
      requires Valid() && at <= to <= buf.Length && p.payload == buf[at..to]
      modifies updater, updater.fletch, updater.port, buf
      ensures Valid()
      ensures FwPacket(card, old(View()), p, io) == Result(View(), Some(Ack(p, status, extra)))
      ensures buf[to..] == old(buf[to..])
    {
      var isStart := to - at >= 4 && buf[at..at + 4] == [0, 0, 0, 0];
      assert to - at >= 4 ==> buf[at..to][..4] == buf[at..at + 4];
      ghost var tail := buf[to..];
      var answer := updater.Handle(buf, at, to, io.now, io.env);
      assert buf[to..] == tail;
      status := answer.Code();
      extra := if isStart && answer == FwUpdate.Ok then Le16(FwUpdate.CHUNK_SIZE) else [];
    }

    /** FW_UPDATE */
    method HandleFwUpdate(id: byte, buf: array<byte>, at: nat, to: nat, src: Source, io: Io, ghost p: Packet)
      requires Valid() && card.personality == Recovery && at <= to <= buf.Length && to - at <= MAX_PAYLOAD
      requires p.id == id && p.cmd == CMD_FW_UPDATE && p.payload == buf[at..to]
      modifies Parts(), log`level, buf
      ensures Valid()
      ensures (Link(), wire) == After(card, old(Link()), old(wire), DispatchRecovery(card, old(View()), p, src, io),
                                      io.failed)
      ensures rxlen == if old(client) && !client then 0 else old(rxlen)
      ensures buf[to..] == old(buf[to..])
    {
      if src == Tcp {
        var status, extra := LoaderPacket(buf, at, to, io, p);
        ghost var tail := buf[to..];
        assert (buf as object) !in Parts();
        SendAck(CMD_FW_UPDATE, id, status, extra, io.failed);
        assert buf[to..] == tail;
      }
    }

    /** handle_jmp_bootloader and handle_reboot: the answer, then the restart. */
    method HandleKeyed(p: Packet, src: Source, failed: Option<nat>)
      requires Valid() && src == Tcp && (p.cmd == CMD_JUMP_TO_BOOTLOADER || p.cmd == CMD_REBOOT)
      modifies Parts(), log`level
      ensures Valid()
      ensures (Link(), wire) == After(card, old(Link()), old(wire), DispatchCommon(card, old(View()), p, src), failed)
      ensures rxlen == if old(client) && !client then 0 else old(rxlen)
    {
      if |p.payload| < 12 || p.payload[..12] != card.uid {
        SendAck(p.cmd, p.id, ERROR, [], failed);
        return;
      }
      SendAck(p.cmd, p.id, OK, [], failed);
      if p.cmd == CMD_REBOOT || card.personality == App {
        up := false;
      }
    }

    method HandleCommon(p: Packet, src: Source, failed: Option<nat>)
      requires Valid()
      modifies Parts(), log`level
      ensures Valid()
      ensures (Link(), wire) == After(card, old(Link()), old(wire), DispatchCommon(card, old(View()), p, src), failed)
      ensures rxlen == if old(client) && !client then 0 else old(rxlen)
    {
      if src != Tcp {
        return;
      }
      if p.cmd == CMD_FIND_ME {
        SendAck(p.cmd, p.id, if |p.payload| < 4 then TOO_SHORT else OK, [], failed);
      } else if p.cmd == CMD_JUMP_TO_BOOTLOADER || p.cmd == CMD_REBOOT {
        HandleKeyed(p, src, failed);
      } else {
        SendAck(p.cmd, p.id, if p.cmd == CMD_PING then OK else ERROR, [], failed);
      }
    }

    method DispatchPlane(p: Packet, src: Source, io: Io)
      requires Valid()
      modifies Parts(), log`level
      ensures Valid()
      ensures (Link(), wire) == After(card, old(Link()), old(wire), DispatchPlanes(card, old(View()), p, src, io),
                                      io.failed)
      ensures rxlen == if old(client) && !client then 0 else old(rxlen)
    {
      if p.cmd == CMD_DISCRETE_SETUP {
        HandleDiscreteSetup(p, src, io);
      } else if p.cmd == CMD_DISCRETE_SET {
        HandleDiscreteSet(p, src, io);
      } else if p.cmd == CMD_HID_SETUP {
        HandleHidSetup(p, src, io);
      } else if p.cmd == CMD_HID_SET {
        HandleHidSet(p, src, io);
      } else if p.cmd == CMD_SET_LOG_LEVEL {
        HandleSetLogLevel(p, src, io);
      } else {
        HandleCommon(p, src, io.failed);
      }
    }

    method DispatchApp(p: Packet, src: Source, io: Io)
      requires Valid() && card.personality == App
      modifies Parts(), log`level
      ensures Valid()
      ensures (Link(), wire) == After(card, old(Link()), old(wire), Comm.DispatchApp(card, old(View()), p, src, io),
                                      io.failed)
      ensures rxlen == if old(client) && !client then 0 else old(rxlen)
    {
      if p.cmd == CMD_GET_CAPABILITIES {
        HandleGetCapabilities(p, io.failed);
      } else if BatchKind(p.cmd).Some? || p.cmd == CMD_TT_BUILD {
        HandleChannels(p, src, io.failed);
      } else {
        DispatchPlane(p, src, io);
      }
    }

    /** comm_dispatch on the packet `p`, whose payload is `buf[at..to)`. */
    method Dispatch(cmd: byte, id: byte, buf: array<byte>, at: nat, to: nat, src: Source, io: Io, ghost p: Packet)
      requires Valid() && at <= to <= buf.Length && to - at <= MAX_PAYLOAD && p == Packet(id, cmd, buf[at..to])
      modifies Parts(), log`level, buf
      ensures Valid()
      ensures (Link(), wire)
           == After(card, old(Link()), old(wire), Comm.Dispatch(card, old(View()), p, src, io), io.failed)
      ensures rxlen == if old(client) && !client then 0 else old(rxlen)
      ensures buf[to..] == old(buf[to..])
    {
      ghost var tail := buf[to..];
      assert (buf as object) !in Parts();
      if src == Udp && DroppedOnUdp(cmd) {
        return;
      }
      if cmd == CMD_GET_FW_INFO {
        SendAck(cmd, id, OK, card.fwInfo, io.failed);
      } else if cmd == CMD_GET_HW_INFO {
        SendAck(cmd, id, OK, card.hwInfo, io.failed);
      } else if cmd == CMD_GET_UID {
        HandleGetUid(io.failed);
      } else if card.personality == Recovery {
        if cmd == CMD_FW_UPDATE {
          HandleFwUpdate(id, buf, at, to, src, io, p);
        } else {
          HandleCommon(Packet(id, cmd, buf[at..to]), src, io.failed);
        }
      } else {
        DispatchApp(Packet(id, cmd, buf[at..to]), src, io);
      }
      assert buf[to..] == tail;
    }

    // ---- input -----------------------------------------------------------------------------

    /** Dispatches the packet `buf[off..off + total)`, the first of the packets `ps` still to be
        served; `left` is what the world does from here on, `goal` where that ends. */
    method DispatchFront(buf: array<byte>, off: nat, total: nat, ghost s: seq<byte>, ghost ps: seq<Packet>,
                         src: Source, left: seq<Io>, ghost goal: (Conn, seq<byte>))
      requires Valid() && up && HEADER_SIZE < total && off + total <= buf.Length
               && total - 1 - HEADER_SIZE <= MAX_PAYLOAD && total <= |s| && Holds(buf, off, s)
      requires ps != [] && ps[0] == Packet(buf[off + 2], buf[off + 4], buf[off + HEADER_SIZE..off + total - 1])
      requires |left| == |ps| && Served(card, Link(), wire, ps, src, left) == goal
      modifies Parts(), log`level, buf
      ensures Valid()
      ensures buf[off + total..] == old(buf[off + total..]) && Holds(buf, off + total, s[total..])
      ensures Served(card, Link(), wire, ps[1..], src, left[1..]) == goal
      ensures rxlen == if old(client) && !client then 0 else old(rxlen)
      ensures client ==> old(client)
    {
      ghost var conn, before, tail := Link(), wire, buf[off + total..];
      assert tail[..|s| - total] == s[total..];
      Dispatch(buf[off + 4], buf[off + 2], buf, off + HEADER_SIZE, off + total - 1, src, left[0], ps[0]);
      HoldsPrefix(buf, off + total, tail, |s| - total);
      ServedFrom(card, conn, before, ps, src, left, goal, Link(), wire);
    }

    /** One turn of comm_core_input: one byte skipped, or one packet dispatched, or nothing (step
        0) because the packet at the front is incomplete. */
    method InputTurn(buf: array<byte>, off: nat, len: nat, ghost s: seq<byte>, ghost ps: seq<Packet>, src: Source,
                     left: seq<Io>, ghost goal: (Conn, seq<byte>))
      returns (step: nat, ghost ahead: seq<byte>, ghost later: seq<Packet>, rest: seq<Io>)
      requires Valid() && up && off + HEADER_SIZE <= len == off + |s| && Holds(buf, off, s) && ps == Scan(s).0
      requires |left| == |ps| && Served(card, Link(), wire, ps, src, left) == goal
      modifies Parts(), log`level, buf
      ensures Valid()
      ensures |ahead| == |s| - step && later == Scan(ahead).0 && Scan(s).1 == step + Scan(ahead).1
      ensures step == 0 ==> later == [] && Scan(s).1 == 0
      ensures buf[off + step..] == old(buf[off + step..]) && Holds(buf, off + step, ahead)
      ensures |rest| == |later| && Served(card, Link(), wire, later, src, rest) == goal
      ensures rxlen == if old(client) && !client then 0 else old(rxlen)
      ensures client ==> old(client)
    {
      var skip, total := NextPacket(buf, off, len, s);
      if skip {
        return 1, s[1..], ps, left;
      }
      if total == 0 {
        return 0, s, ps, left;
      }
      DispatchFront(buf, off, total, s, ps, src, left, goal);
      return total, s[total..], ps[1..], left[1..];
    }

    /** comm_core_input: serves the packets of the buffer, one answer of the world per packet,
        and returns how far it got; the bytes behind that point are as they were. A restart ends
        it at once. */
    method Input(buf: array<byte>, len: nat, src: Source, ios: seq<Io>) returns (off: nat)
      requires Valid() && up && len <= buf.Length && |ios| == |Scan(buf[..len]).0|
      modifies Parts(), log`level, buf
      ensures Valid()
      ensures off <= len && (up ==> off == Scan(old(buf[..len])).1)
      ensures forall i :: off <= i < buf.Length ==> buf[i] == old(buf[i])
      ensures (Link(), wire) == Served(card, old(Link()), old(wire), Scan(old(buf[..len])).0, src, ios)
      ensures rxlen == if old(client) && !client then 0 else old(rxlen)
    {
      assert (buf as object) !in Parts();
      off := 0;
      var left, step := ios, 1;
      ghost var s, ps, end := buf[..len], Scan(buf[..len]).0, Scan(buf[..len]).1;
      ghost var goal := Served(card, Link(), wire, ps, src, ios);
      while up && len - off >= HEADER_SIZE && step > 0
        invariant Valid() && off <= len == off + |s| && Holds(buf, off, s)
        invariant forall i :: off <= i < buf.Length ==> buf[i] == old(buf[i])
        invariant ps == Scan(s).0 && off + Scan(s).1 == end && (step == 0 ==> ps == [] && Scan(s).1 == 0)
        invariant |left| == |ps| && Served(card, Link(), wire, ps, src, left) == goal
        invariant rxlen == if old(client) && !client then 0 else old(rxlen)
        invariant client ==> old(client)
        decreases len - off, step
      {
        step, s, ps, left := InputTurn(buf, off, len, s, ps, src, left, goal);
        off := off + step;
      }
      ServedOut(card, Link(), wire, ps, src, left);
    }

    method Append(received: seq<byte>)
      requires |received| <= rxbuf.Length - rxlen
      modifies this`rxlen, rxbuf
      ensures rxlen == old(rxlen) + |received| && rxbuf[..rxlen] == old(rxbuf[..rxlen]) + received
    {
      forall i | 0 <= i < |received| {
        rxbuf[rxlen + i] := received[i];
      }
      rxlen := rxlen + |received|;
    }

    /** Moves the unread bytes of `s` to the front. */
    method Compact(off: nat, ghost s: seq<byte>)
      requires off <= rxlen == |s| <= rxbuf.Length && forall i :: off <= i < rxlen ==> rxbuf[i] == s[i]
      modifies this`rxlen, rxbuf
      ensures rxlen == |s| - off && rxbuf[..rxlen] == s[off..]
    {
      var rem := rxlen - off;
      forall i | 0 <= i < rem {
        rxbuf[i] := rxbuf[off + i];
      }
      rxlen := rem;
    }

    /** tcp_client_service: `received` is what recv stored, None when the peer is gone. The
        source's reset of a full buffer is unreachable. */
    method ClientService(received: Option<seq<byte>>, ios: seq<Io>)
      requires Valid() && client && up && rxlen <= HEADER_SIZE + MAX_PAYLOAD
      requires received.Some? ==> 0 < |received.value| <= RX_SIZE - rxlen
                                  && |ios| == |Scan(rxbuf[..rxlen] + received.value).0|
      modifies Parts(), log`level, rxbuf
      ensures Valid()
      ensures received.None? ==> !client && View() == SessionEnd(card, old(View())) && wire == old(wire)
      ensures received.Some?
              ==> (Link(), wire) == Served(card, old(Link()), old(wire), Scan(old(rxbuf[..rxlen]) + received.value).0,
                                           Tcp, ios)
      ensures up ==> rxlen <= HEADER_SIZE + MAX_PAYLOAD
      ensures up && client ==> rxbuf[..rxlen] == Unread(old(rxbuf[..rxlen]) + received.value)
      ensures !client ==> rxlen == 0
    {
      if RX_SIZE - rxlen == 0 {
        assert false;
      }
      if received.None? {
        ClientDrop();
        return;
      }
      ghost var s := rxbuf[..rxlen] + received.value;
      Append(received.value);
      var off := Input(rxbuf, rxlen, Tcp, ios);
      ResidueBound(s);
      if up && client && off > 0 {
        Compact(off, s);
      }
    }
  }

  /** The connection and the bytes on the wire once a packet is handled. */
  function After(card: Card, conn: Conn, wire: seq<byte>, r: Result, failed: Option<nat>): (Conn, seq<byte>) {
    match r.reply
    case None => (Handled(conn, r), wire)
    case Some(reply) =>
      var (next, built) := Send(card, Handled(conn, r), reply, None, failed);
      (next.(up := conn.up && !r.restart), wire + Taken(built))
  }

  /** The answer leaves from the state behind the handler. */
  lemma AfterHandled(card: Card, conn: Conn, wire: seq<byte>, r: Result, failed: Option<nat>, mid: Conn)
    requires !r.restart && mid == Handled(conn, r)
    ensures After(card, conn, wire, r, failed) == After(card, mid, wire, Result(mid.core, r.reply), failed)
  {
  }

  lemma AfterIsServeOne(card: Card, conn: Conn, wire: seq<byte>, p: Packet, src: Source, io: Io)
    requires conn.up
    ensures After(card, conn, wire, Comm.Dispatch(card, conn.core, p, src, io), io.failed)
         == (ServeOne(card, conn, p, src, io).0, wire + Accepted(ServeOne(card, conn, p, src, io).1))
  {
    var r := Comm.Dispatch(card, conn.core, p, src, io);
    StreamsAndRestarts(card, conn.core, p, src, io);
    var trace := ServeOne(card, conn, p, src, io).1;
    if r.reply == None {
      assert r.streamed ==> false by {
        if src == Tcp {
          OneReplyOnTcp(card, conn.core, p, io);
        }
      }
      assert wire + [] == wire;
    } else {
      var built := trace[|trace| - 1];
      assert Accepted([built]) == Taken(built) by {
        assert [built][1..] == [] && Taken(built) + [] == Taken(built);
      }
      if r.streamed {
        assert trace == [OnUdp(conn.txId), built] && trace[1..] == [built];
        assert [] + Accepted([built]) == Accepted([built]);
      } else {
        assert trace == [built];
      }
    }
  }

  /** The connection and the wire after a list of packets. */
  function Served(card: Card, conn: Conn, wire: seq<byte>, ps: seq<Packet>, src: Source, ios: seq<Io>)
    : (Conn, seq<byte>)
    requires |ios| == |ps|
  {
    var (next, trace) := Serve(card, conn, ps, src, ios);
    (next, wire + Accepted(trace))
  }

  lemma {:induction false} AcceptedConcat(a: seq<Built>, b: seq<Built>)
    ensures Accepted(a + b) == Accepted(a) + Accepted(b)
    decreases a
  {
    if a == [] {
      assert a + b == b;
    } else {
      DropOfConcat(a, b, 1);
      AcceptedConcat(a[1..], b);
      Associative(Taken(a[0]), Accepted(a[1..]), Accepted(b));
    }
  }

  lemma ServedStep(card: Card, conn: Conn, wire: seq<byte>, ps: seq<Packet>, src: Source, ios: seq<Io>)
    requires |ios| == |ps| && ps != [] && conn.up
    ensures var (next, wire1) := After(card, conn, wire, Comm.Dispatch(card, conn.core, ps[0], src, ios[0]),
                                       ios[0].failed);
            Served(card, conn, wire, ps, src, ios) == Served(card, next, wire1, ps[1..], src, ios[1..])
  {
    AfterIsServeOne(card, conn, wire, ps[0], src, ios[0]);
    var (next, trace) := ServeOne(card, conn, ps[0], src, ios[0]);
    var rest := Serve(card, next, ps[1..], src, ios[1..]).1;
    AcceptedConcat(trace, rest);
    Associative(wire, Accepted(trace), Accepted(rest));
  }

  lemma HoldsPrefix(buf: array<byte>, off: nat, tail: seq<byte>, n: nat)
    requires off <= buf.Length && tail == buf[off..] && n <= |tail|
    ensures Holds(buf, off, tail[..n])
  {
  }

  lemma ServedOut(card: Card, conn: Conn, wire: seq<byte>, ps: seq<Packet>, src: Source, ios: seq<Io>)
    requires |ios| == |ps| && (ps == [] || !conn.up)
    ensures Served(card, conn, wire, ps, src, ios) == (conn, wire)
  {
    assert wire + [] == wire;
  }

  /** The first packet served, the rest still leads to `goal`. */
  lemma ServedFrom(card: Card, conn: Conn, wire: seq<byte>, ps: seq<Packet>, src: Source, ios: seq<Io>,
                   goal: (Conn, seq<byte>), next: Conn, wire1: seq<byte>)
    requires |ios| == |ps| && ps != [] && conn.up && Served(card, conn, wire, ps, src, ios) == goal
    requires (next, wire1) == After(card, conn, wire, Comm.Dispatch(card, conn.core, ps[0], src, ios[0]), ios[0].failed)
    ensures Served(card, next, wire1, ps[1..], src, ios[1..]) == goal && (next.client ==> conn.client)
  {
    ServedStep(card, conn, wire, ps, src, ios);
  }
}
