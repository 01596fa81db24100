/** The control connection over the dispatcher: what a list of packets does and sends, and what
    holds in every run of the card. */
module CommSession {
  import opened Bytes
  import opened Options
  import opened Framing
  import opened Comm
  import Channels
  import Discrete
  import Rs485
  import Rs485Safety
  import FwUpdate
  import Words

  /** The control client: whether it is connected, the number of the next frame, and whether the
      card still runs (a restart does not return). */
  datatype Conn = Conn(core: Core, client: bool, txId: byte, up: bool)

  /** A frame built by comm_core_build_frame, which numbers the frames of both transports with one
      counter. For TCP: the request it answers, if any, and how many bytes the socket took. */
  datatype Built = OnTcp(q: Packet, to: Option<Packet>, taken: nat) | OnUdp(id: byte)

  /** The bytes a trace put on the TCP socket. */
  function Accepted(trace: seq<Built>): seq<byte> {
    if trace == [] then [] else Taken(trace[0]) + Accepted(trace[1..])
  }

  function Taken(b: Built): seq<byte> {
    match b
    case OnTcp(q, _, taken) => Frame(q)[..if taken < |Frame(q)| then taken else |Frame(q)|]
    case OnUdp(_) => []
  }

  /** comm_core_send_tcp over ops_send_tcp: a failed send drops the client, which ends the
      session at once. */
  function Send(card: Card, conn: Conn, r: Reply, to: Option<Packet>, failed: Option<nat>): (Conn, Built) {
    var q, next := Packet(conn.txId, r.cmd, r.payload), conn.(txId := Add8(conn.txId, 1));
    if !conn.client then (next, OnTcp(q, to, 0))
    else if failed.Some? then
      (next.(core := SessionEnd(card, conn.core), client := false),
       OnTcp(q, to, if failed.value < |Frame(q)| then failed.value else |Frame(q)| - 1))
    else (next, OnTcp(q, to, |Frame(q)|))
  }

  /** The state behind the handler of one packet, before its answer is sent. */
  function Handled(conn: Conn, r: Result): Conn {
    conn.(core := r.core, txId := if r.streamed then Add8(conn.txId, 1) else conn.txId)
  }

  function ServeOne(card: Card, conn: Conn, p: Packet, src: Source, io: Io): (Conn, seq<Built>) {
    var r := Dispatch(card, conn.core, p, src, io);
    var streamed := if r.streamed then [OnUdp(conn.txId)] else [];
    match r.reply
    case None => (Handled(conn, r), streamed)
    case Some(reply) =>
      var (next, built) := Send(card, Handled(conn, r), reply, Some(p), io.failed);
      (next.(up := !r.restart), streamed + [built])
  }

  /** comm_core_input on the packets its scan finds: dispatch goes on after a failed send, and
      ends at a restart. */
  function Serve(card: Card, conn: Conn, ps: seq<Packet>, src: Source, ios: seq<Io>): (Conn, seq<Built>)
    requires |ios| == |ps|
    decreases |ps|
  {
    if ps == [] || !conn.up then (conn, [])
    else
      var (conn1, built) := ServeOne(card, conn, ps[0], src, ios[0]);
      var (conn2, rest) := Serve(card, conn1, ps[1..], src, ios[1..]);
      (conn2, built + rest)
  }

  // ---- what every packet keeps --------------------------------------------------------------

  /** The card holds nothing enabled: no channel, no plane, no relay intent, no upload. */
  predicate AllDisabled(core: Core) {
    && (forall i :: 0 <= i < Channels.NUM_CHANNELS ==>
          !core.tables.tx[i].enabled && !core.tables.rx[i].enabled && !core.tables.engine[i].enabled)
    && !core.discrete.enabled && !core.bus.enabled && !core.hid.enabled && !core.fw.uploading
  }

  /** What every run keeps, `sent` being the STATE datagrams so far. */
  predicate CardInv(card: Card, core: Core, sent: seq<seq<byte>>) {
    && Channels.Mirror(core.tables)
    && FwUpdate.Inv(core.fw)
    && (core.bus.enabled <==> core.discrete.enabled && !core.discrete.disabling)
    && (core.discrete.disabling ==> core.discrete.enabled)
    && (card.personality == App ==> !core.fw.uploading)
    && (card.personality == Recovery ==> !core.discrete.enabled && !core.hid.enabled)
    && Discrete.Consistent(core.discrete, card.config, sent)
  }

  /** The end of a session leaves nothing enabled and no relay wanted on. */
  lemma SessionEndDisables(card: Card, core: Core, sent: seq<seq<byte>>)
    requires CardInv(card, core, sent)
    ensures AllDisabled(SessionReset(card, core)) && AllDisabled(SessionEnd(card, core))
    ensures CardInv(card, SessionReset(card, core), sent) && CardInv(card, SessionEnd(card, core), sent)
    ensures SessionEnd(card, core).bus.desired == Words.Zero(64)
    ensures SessionEnd(card, core).level == LOG_LEVEL_INFO && SessionReset(card, core).level == core.level
    ensures var tables := SessionEnd(card, core).tables;
            forall i :: 0 <= i < Channels.NUM_CHANNELS ==>
              !tables.tx[i].setup && !tables.rx[i].setup && !tables.engine[i].setup && tables.engine[i].labels == []
  {
    Channels.ResetMirror();
    Discrete.StepConsistent(core.discrete, card.config, Discrete.SessionReset, sent);
    assert Discrete.Applied(core.bus, []) == core.bus;
    assert sent + [] == sent;
  }

  /** Dispatch keeps the invariant, whatever the packet. */
  lemma DispatchKeepsInv(card: Card, core: Core, p: Packet, src: Source, io: Io, sent: seq<seq<byte>>)
    requires CardInv(card, core, sent)
    ensures CardInv(card, Dispatch(card, core, p, src, io).core, sent)
  {
    var core' := Dispatch(card, core, p, src, io).core;
    if core' != core {
      if card.personality == Recovery {
        FwUpdate.HandleKeepsInv(card.cipher, core.fw, p.payload, io.now, io.env);
      } else if BatchKind(p.cmd).Some? {
        Channels.CommandKeepsMirror(BatchKind(p.cmd).value, core.tables, p.payload);
      } else if p.cmd == CMD_TT_BUILD {
        Channels.BuildKeepsMirror(core.tables, p.payload);
      } else if p.cmd == CMD_DISCRETE_SETUP {
        SetupKeepsInv(card, core, p, io, sent);
      } else if p.cmd == CMD_DISCRETE_SET {
        SetKeepsInv(card, core, Discrete.DecodeSet(p.payload).value, sent);
      }
    }
  }

  lemma SetupKeepsInv(card: Card, core: Core, p: Packet, io: Io, sent: seq<seq<byte>>)
    requires CardInv(card, core, sent) && card.personality == App && |p.payload| == DISCRETE_SETUP_SIZE
    ensures CardInv(card, DiscreteSetup(core, p, io.now), sent)
  {
    var on, report := p.payload[0], FromLe16(p.payload[2..4]);
    Discrete.StepConsistent(core.discrete, card.config, Discrete.Setting(on, report, Backend(core), io.now), sent);
    assert sent + [] == sent;
    assert Discrete.Applied(core.bus, []) == core.bus;
  }

  lemma SetKeepsInv(card: Card, core: Core, m: Discrete.Masks, sent: seq<seq<byte>>)
    requires CardInv(card, core, sent) && card.personality == App
    ensures CardInv(card, DiscreteSet(card, core, m), sent)
  {
    SetKeepsControl(card, core, m);
    if m.apply != Words.Zero(64) {
      Discrete.StepConsistent(core.discrete, card.config, Discrete.Write(m.apply, m.values, Backend(core)), sent);
      assert sent + [] == sent;
    }
  }

  lemma {:induction false} ServeKeepsInv(card: Card, conn: Conn, ps: seq<Packet>, src: Source, ios: seq<Io>,
                                         sent: seq<seq<byte>>)
    requires CardInv(card, conn.core, sent) && |ios| == |ps|
    ensures CardInv(card, Serve(card, conn, ps, src, ios).0.core, sent)
    decreases |ps|
  {
    if ps != [] && conn.up {
      DispatchKeepsInv(card, conn.core, ps[0], src, ios[0], sent);
      SessionEndDisables(card, Dispatch(card, conn.core, ps[0], src, ios[0]).core, sent);
      ServeKeepsInv(card, ServeOne(card, conn, ps[0], src, ios[0]).0, ps[1..], src, ios[1..], sent);
    }
  }

  // ---- every run of the card ------------------------------------------------------------------------

  /** What can happen between two turns of the comm task, from one boot to the next restart:
      packets, session edges, the periodic services, and a publish of the relay task. */
  datatype Event =
    | Received(p: Packet, src: Source, io: Io)
    | Connected
    | Dropped
    | Periodic(now: u32, udpOk: bool)
    | Published(state: Rs485.State)

  /** The state after an event, and the STATE datagrams it sent. */
  function Step(card: Card, core: Core, e: Event): (Core, seq<seq<byte>>) {
    match e
    case Received(p, src, io) => (Dispatch(card, core, p, src, io).core, [])
    case Connected => (SessionReset(card, core), [])
    case Dropped => (SessionEnd(card, core), [])
    case Periodic(now, udpOk) =>
      if card.personality == App then
        var (g, out) := Discrete.Loop(core.discrete, card.config, Backend(core), now, udpOk);
        (core.(discrete := g), out)
      else (core.(fw := FwUpdate.Tick(core.fw, now)), [])
    case Published(state) => (core.(bus := Rs485.Publish(core.bus, state)), [])
  }

  function Run(card: Card, es: seq<Event>): (Core, seq<seq<byte>>) {
    if es == [] then (BOOT, [])
    else
      var (core, sent) := Run(card, es[..|es| - 1]);
      var (core', more) := Step(card, core, es[|es| - 1]);
      (core', sent + more)
  }

  lemma LoopKeepsMode(g: Discrete.Glue, c: Discrete.Config, answer: Option<Discrete.Hw>, now: u32, udpOk: bool)
    ensures var g' := Discrete.Loop(g, c, answer, now, udpOk).0;
            && (g'.enabled && !g'.disabling <==> g.enabled && !g.disabling)
            && ((g.disabling ==> g.enabled) ==> (g'.disabling ==> g'.enabled))
  {
  }

  lemma PeriodicKeepsInv(card: Card, core: Core, now: u32, udpOk: bool, sent: seq<seq<byte>>)
    requires CardInv(card, core, sent) && card.personality == App
    ensures var (core', more) := Step(card, core, Periodic(now, udpOk)); CardInv(card, core', sent + more)
  {
    LoopKeepsMode(core.discrete, card.config, Backend(core), now, udpOk);
    Discrete.StepConsistent(core.discrete, card.config, Discrete.Looping(Backend(core), now, udpOk), sent);
  }

  lemma StepKeepsInv(card: Card, core: Core, e: Event, sent: seq<seq<byte>>)
    requires CardInv(card, core, sent)
    ensures var (core', more) := Step(card, core, e); CardInv(card, core', sent + more)
  {
    assert sent + [] == sent;
    match e
    case Received(p, src, io) => DispatchKeepsInv(card, core, p, src, io, sent);
    case Connected => SessionEndDisables(card, core, sent);
    case Dropped => SessionEndDisables(card, core, sent);
    case Periodic(now, udpOk) =>
      if card.personality == App {
        PeriodicKeepsInv(card, core, now, udpOk, sent);
      }
    case Published(state) =>
  }

  lemma {:induction false} RunKeepsInv(card: Card, es: seq<Event>)
    ensures CardInv(card, Run(card, es).0, Run(card, es).1)
  {
    if es == [] {
      Channels.ResetMirror();
    } else {
      RunKeepsInv(card, es[..|es| - 1]);
      var (core, sent) := Run(card, es[..|es| - 1]);
      StepKeepsInv(card, core, es[|es| - 1], sent);
    }
  }

  /** In every run: the channel tables agree, the loader is safe, the relay task is asked for
      an ON only while the discrete plane is enabled and not shutting down, and the last STATE
      sent shows the current snapshot unless one is pending. */
  lemma CardSafety(card: Card, es: seq<Event>, total: nat)
    ensures var (core, sent) := Run(card, es);
            && Channels.Mirror(core.tables)
            && FwUpdate.BootsJustified(core.fw.boots, core.fw.starts)
            && (Rs485.Target(core.bus, total) != Words.Zero(64) ==> core.discrete.enabled && !core.discrete.disabling)
            && Discrete.Numbered(sent) && Discrete.Shown(core.discrete, card.config, sent)
  {
    RunKeepsInv(card, es);
    Discrete.ConsistentShown(Run(card, es).0.discrete, card.config, Run(card, es).1);
  }

  /** Only a well-formed DISCRETE_SETUP(enable) over TCP, to the application, turns the relay
      intent on: not a UDP packet, not a reconnect, not a link that comes back. */
  lemma OnlySetupEnables(card: Card, core: Core, e: Event)
    requires !core.bus.enabled
    ensures Step(card, core, e).0.bus.enabled
            <==> card.personality == App && e.Received? && e.src == Tcp && e.p.cmd == CMD_DISCRETE_SETUP
                 && |e.p.payload| == DISCRETE_SETUP_SIZE && e.p.payload[0] != 0
  {
    assert Discrete.Applied(core.bus, []) == core.bus;
    if e.Received? {
      DispatchEnables(card, core, e.p, e.src, e.io);
    }
  }

  lemma DispatchEnables(card: Card, core: Core, p: Packet, src: Source, io: Io)
    requires !core.bus.enabled
    ensures Dispatch(card, core, p, src, io).core.bus.enabled
            <==> card.personality == App && src == Tcp && p.cmd == CMD_DISCRETE_SETUP
                 && |p.payload| == DISCRETE_SETUP_SIZE && p.payload[0] != 0
  {
    if src == Udp {
      SilentOnUdp(card, core, p, io);
    } else if p.cmd == CMD_DISCRETE_SET && Discrete.DecodeSet(p.payload).Some? {
      SetKeepsControl(card, core, Discrete.DecodeSet(p.payload).value);
    } else {
      assert Discrete.Applied(core.bus, []) == core.bus;
    }
  }

  /** Losing the control client is fail-safe down to the coils: for the relay task it is one
      set_enabled(false), after which, in every interleaving and whatever the modules answer,
      at most one ON write goes out, the one already chosen, until a SETUP enables again. */
  lemma LostClientFailSafe(card: Card, core: Core, s: Rs485.Sys, es: seq<Rs485.Event>)
    requires Rs485.Inv(s) && s.shared == core.bus && Rs485Safety.NeverEnabled(es)
    ensures var s' := s.(shared := SessionEnd(card, core).bus);
            && s' == Rs485.Step(s, Rs485.SetEnabled(false))
            && var ws := Rs485Safety.CoilWrites(s', es);
               || Rs485Safety.AllOff(ws)
               || (s.at.Writing? && ws != [] && ws[0] == s.at && Rs485Safety.AllOff(ws[1..]))
  {
    assert Discrete.Applied(core.bus, []) == core.bus;
    Rs485Safety.FailSafe(s, es);
  }

  // ---- reading the capability descriptor -----------------------------------------------------------------

  /** A gateway's read from `offset` on: one request per chunk, going by the total length each
      ACK repeats. */
  function Fetch(card: Card, core: Core, id: byte, offset: u16, ios: nat -> Io): seq<byte>
    requires card.personality == App && card.caps.Some? && offset <= |card.caps.value|
    decreases |card.caps.value| - offset
  {
    var r := Dispatch(card, core, Packet(id, CMD_GET_CAPABILITIES, [CAPS_VERSION] + Le16(offset)), Tcp,
                      ios(offset)).reply;
    CapsReply(card, core, id, offset, ios(offset));
    var total, chunk := FromLe16(r.value.payload[ACK_ENVELOPE..ACK_ENVELOPE + 2]), r.value.payload[ACK_ENVELOPE + 2..];
    if offset + |chunk| >= total then chunk else chunk + Fetch(card, core, id, offset + |chunk|, ios)
  }

  lemma CapsReply(card: Card, core: Core, id: byte, offset: u16, io: Io)
    requires card.personality == App && card.caps.Some? && offset <= |card.caps.value|
    ensures var r := Dispatch(card, core, Packet(id, CMD_GET_CAPABILITIES, [CAPS_VERSION] + Le16(offset)), Tcp,
                              io).reply;
            var blob := card.caps.value;
            && r.Some? && |r.value.payload| >= ACK_ENVELOPE + 2
            && FromLe16(r.value.payload[ACK_ENVELOPE..ACK_ENVELOPE + 2]) == |blob|
            && r.value.payload[ACK_ENVELOPE + 2..] == CapsChunk(blob, offset)
  {
    var p := Packet(id, CMD_GET_CAPABILITIES, [CAPS_VERSION] + Le16(offset));
    assert p.payload[1..3] == Le16(offset);
    Le16RoundTrip(offset);
    var blob := card.caps.value;
    Le16RoundTrip(|blob|);
    var payload := [id] + Le32(OK) + (Le16(|blob|) + CapsChunk(blob, offset));
    assert payload[ACK_ENVELOPE..ACK_ENVELOPE + 2] == Le16(|blob|)
           && payload[ACK_ENVELOPE + 2..] == CapsChunk(blob, offset);
  }

  /** Chunked reads give the descriptor back, byte for byte, for every length. */
  lemma {:induction false} FetchIsDescriptor(card: Card, core: Core, id: byte, offset: u16, ios: nat -> Io)
    requires card.personality == App && card.caps.Some? && offset <= |card.caps.value|
    ensures Fetch(card, core, id, offset, ios) == card.caps.value[offset..]
    decreases |card.caps.value| - offset
  {
    CapsReply(card, core, id, offset, ios(offset));
    var blob := card.caps.value;
    var chunk := CapsChunk(blob, offset);
    if offset + |chunk| < |blob| {
      FetchIsDescriptor(card, core, id, offset + |chunk|, ios);
      assert blob[offset..] == chunk + blob[offset + |chunk|..];
    }
  }
}
