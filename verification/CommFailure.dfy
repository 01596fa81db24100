/** What the packets behind a failed send leave enabled. Losing the client ends the session and
    disables everything, but comm_core_input goes on dispatching the rest of its buffer: for every
    buffer, and for each thing a session can enable, exactly when it is on again at the end. */
module CommFailure {
  import opened Bytes
  import opened Options
  import opened Framing
  import opened Comm
  import opened CommSession
  import opened CommWire
  import Channels
  import Discrete
  import FwUpdate
  import Words

  // ---- planes ----------------------------------------------------------------------------------

  /** A packet that switches the discrete plane, on or off. */
  predicate DiscreteSwitch(p: Packet) {
    p.cmd == CMD_DISCRETE_SETUP && |p.payload| == DISCRETE_SETUP_SIZE
  }

  predicate HidSwitch(p: Packet) {
    p.cmd == CMD_HID_SETUP && |p.payload| >= HID_SETUP_SIZE
  }

  predicate On(p: Packet) {
    p.payload != [] && p.payload[0] != 0
  }

  /** What the last switch in the list says; `before` when there is none. */
  function LastSwitch(ps: seq<Packet>, switch: Packet -> bool, before: bool): bool {
    if ps == [] then before
    else if switch(ps[|ps| - 1]) then On(ps[|ps| - 1])
    else LastSwitch(ps[..|ps| - 1], switch, before)
  }

  /** Some switch in the list says on. */
  predicate EverOn(ps: seq<Packet>, switch: Packet -> bool) {
    exists i :: 0 <= i < |ps| && switch(ps[i]) && On(ps[i])
  }

  lemma {:induction false} LastSwitchFirst(p: Packet, ps: seq<Packet>, switch: Packet -> bool, before: bool)
    ensures LastSwitch([p] + ps, switch, before) == LastSwitch(ps, switch, if switch(p) then On(p) else before)
  {
    if ps == [] {
      assert [p] + ps == [p] && [p][..0] == [];
    } else {
      assert ([p] + ps)[..|ps|] == [p] + ps[..|ps| - 1];
      LastSwitchFirst(p, ps[..|ps| - 1], switch, before);
    }
  }

  lemma SetupSwitches(core: Core, p: Packet, now: u32)
    requires |p.payload| == DISCRETE_SETUP_SIZE
    ensures var core' := DiscreteSetup(core, p, now);
            && core'.bus.enabled == On(p)
            && core'.discrete.enabled == (core.discrete.enabled || On(p))
            && core'.hid == core.hid && core'.fw == core.fw
  {
    assert Discrete.Applied(core.bus, []) == core.bus;
  }

  /** One packet and the three flags. */
  lemma OneSwitch(card: Card, core: Core, p: Packet, io: Io)
    requires card.personality == App
    ensures var core' := Dispatch(card, core, p, Tcp, io).core;
            && core'.bus.enabled == (if DiscreteSwitch(p) then On(p) else core.bus.enabled)
            && core'.discrete.enabled == (core.discrete.enabled || (DiscreteSwitch(p) && On(p)))
            && core'.hid.enabled == (if HidSwitch(p) then On(p) else core.hid.enabled)
            && core'.fw == core.fw
  {
    if SwitchesNothing(p) {
      PlanesUntouched(card, core, p, io);
    } else {
      assert Dispatch(card, core, p, Tcp, io).core == DispatchPlanes(card, core, p, Tcp, io).core;
      PlaneSwitch(card, core, p, io);
    }
  }

  predicate SwitchesNothing(p: Packet) {
    p.cmd != CMD_DISCRETE_SETUP && p.cmd != CMD_DISCRETE_SET && p.cmd != CMD_HID_SETUP && p.cmd != CMD_HID_SET
  }

  lemma PlanesUntouched(card: Card, core: Core, p: Packet, io: Io)
    requires card.personality == App && SwitchesNothing(p)
    ensures var core' := Dispatch(card, core, p, Tcp, io).core;
            core'.bus == core.bus && core'.discrete == core.discrete && core'.hid == core.hid && core'.fw == core.fw
  {
  }

  lemma PlaneSwitch(card: Card, core: Core, p: Packet, io: Io)
    requires !SwitchesNothing(p)
    ensures var core' := DispatchPlanes(card, core, p, Tcp, io).core;
            && core'.bus.enabled == (if DiscreteSwitch(p) then On(p) else core.bus.enabled)
            && core'.discrete.enabled == (core.discrete.enabled || (DiscreteSwitch(p) && On(p)))
            && core'.hid.enabled == (if HidSwitch(p) then On(p) else core.hid.enabled)
            && core'.fw == core.fw
  {
    if DiscreteSwitch(p) {
      SetupSwitches(core, p, io.now);
    } else if p.cmd == CMD_DISCRETE_SET && Discrete.DecodeSet(p.payload).Some? {
      SetKeepsControl(card, core, Discrete.DecodeSet(p.payload).value);
    }
  }

  /** Without a client, serving a packet is dispatching it. */
  lemma ServedDispatched(card: Card, conn: Conn, p: Packet, io: Io)
    requires !conn.client && conn.up
    ensures var conn' := ServeOne(card, conn, p, Tcp, io).0;
            && conn'.core == Dispatch(card, conn.core, p, Tcp, io).core
            && !conn'.client && (conn'.up <==> !Restarts(card, p))
  {
    OneReplyOnTcp(card, conn.core, p, io);
    StreamsAndRestarts(card, conn.core, p, Tcp, io);
  }

  /** The planes behind a lost client, for every list of packets: relay intent and joystick are as
      the last switch says, and the discrete plane, which a disable leaves telemetering, is on if
      any says on. */
  lemma {:induction false} PlanesBehind(card: Card, conn: Conn, ps: seq<Packet>, ios: seq<Io>)
    requires card.personality == App && !conn.client && conn.up && |ios| == |ps|
    ensures var core', ds := Serve(card, conn, ps, Tcp, ios).0.core, ps[..Dispatched(card, ps)];
            && core'.bus.enabled == LastSwitch(ds, DiscreteSwitch, conn.core.bus.enabled)
            && core'.discrete.enabled == (conn.core.discrete.enabled || EverOn(ds, DiscreteSwitch))
            && core'.hid.enabled == LastSwitch(ds, HidSwitch, conn.core.hid.enabled)
            && core'.fw == conn.core.fw
    decreases |ps|
  {
    if ps != [] {
      var p, rest := ps[0], ps[1..];
      var conn1 := ServeOne(card, conn, p, Tcp, ios[0]).0;
      ServedDispatched(card, conn, p, ios[0]);
      OneSwitch(card, conn.core, p, ios[0]);
      var n := if conn1.up then Dispatched(card, rest) else 0;
      assert ps[..Dispatched(card, ps)] == [p] + rest[..n];
      LastSwitchFirst(p, rest[..n], DiscreteSwitch, conn.core.bus.enabled);
      LastSwitchFirst(p, rest[..n], HidSwitch, conn.core.hid.enabled);
      EverOnFirst(p, rest[..n], DiscreteSwitch);
      if conn1.up {
        PlanesBehind(card, conn1, rest, ios[1..]);
      } else {
        assert rest[..0] == [];
      }
    }
  }

  lemma EverOnFirst(p: Packet, ps: seq<Packet>, switch: Packet -> bool)
    ensures EverOn([p] + ps, switch) <==> (switch(p) && On(p)) || EverOn(ps, switch)
  {
    var all := [p] + ps;
    if EverOn(ps, switch) {
      var i :| 0 <= i < |ps| && switch(ps[i]) && On(ps[i]);
      assert all[i + 1] == ps[i];
    }
    if switch(p) && On(p) {
      assert all[0] == p;
    }
    if EverOn(all, switch) {
      var i :| 0 <= i < |all| && switch(all[i]) && On(all[i]);
      assert i == 0 || all[i] == ps[i - 1];
    }
  }

  // ---- channels ---------------------------------------------------------------------------------

  /** What one packet does to the channel tables of the application. */
  function TablesAfter(t: Channels.Tables, p: Packet): Channels.Tables {
    if BatchKind(p.cmd).Some? then Channels.Command(BatchKind(p.cmd).value, t, p.payload).tables
    else if p.cmd == CMD_TT_BUILD then Channels.BuildCommand(t, p.payload).tables
    else t
  }

  /** The records one packet gets applied. */
  function RecordsOf(t: Channels.Tables, p: Packet): seq<Channels.Record> {
    if BatchKind(p.cmd).Some? then
      var k := BatchKind(p.cmd).value;
      Channels.Tagged(k, Channels.Good(k, t, p.payload))
    else []
  }

  /** All records that get applied, in order. */
  function Applied(t: Channels.Tables, ps: seq<Packet>): seq<Channels.Record>
    decreases |ps|
  {
    if ps == [] then [] else RecordsOf(t, ps[0]) + Applied(TablesAfter(t, ps[0]), ps[1..])
  }

  lemma OnePacketFlag(t: Channels.Tables, p: Packet, dir: byte, ch: nat)
    requires Channels.Mirror(t) && dir <= Channels.DIR_RX && ch < Channels.NUM_CHANNELS
    ensures Channels.Mirror(TablesAfter(t, p))
    ensures Channels.Flag(TablesAfter(t, p), dir, ch)
         == Channels.LastRecord(RecordsOf(t, p), dir, ch, Channels.Flag(t, dir, ch))
  {
    if BatchKind(p.cmd).Some? {
      Channels.CommandFlag(BatchKind(p.cmd).value, t, p.payload, dir, ch);
      Channels.CommandKeepsMirror(BatchKind(p.cmd).value, t, p.payload);
    } else if p.cmd == CMD_TT_BUILD {
      Channels.BuildKeepsMirror(t, p.payload);
    }
  }

  lemma TablesDispatched(card: Card, core: Core, p: Packet, io: Io)
    requires card.personality == App
    ensures Dispatch(card, core, p, Tcp, io).core.tables == TablesAfter(core.tables, p)
  {
  }

  /** The channels behind a lost client, for every list of packets: a channel is enabled exactly if
      the last record applied to it enables it. */
  lemma {:induction false} ChannelsBehind(card: Card, conn: Conn, ps: seq<Packet>, ios: seq<Io>, dir: byte, ch: nat)
    requires card.personality == App && !conn.client && conn.up && |ios| == |ps|
    requires Channels.Mirror(conn.core.tables) && dir <= Channels.DIR_RX && ch < Channels.NUM_CHANNELS
    ensures var t, t' := conn.core.tables, Serve(card, conn, ps, Tcp, ios).0.core.tables;
            && Channels.Mirror(t')
            && Channels.Flag(t', dir, ch)
            == Channels.LastRecord(Applied(t, ps[..Dispatched(card, ps)]), dir, ch, Channels.Flag(t, dir, ch))
    decreases |ps|
  {
    if ps != [] {
      var p, rest, t := ps[0], ps[1..], conn.core.tables;
      var conn1 := ServeOne(card, conn, p, Tcp, ios[0]).0;
      ServedDispatched(card, conn, p, ios[0]);
      TablesDispatched(card, conn.core, p, ios[0]);
      OnePacketFlag(t, p, dir, ch);
      var ds := rest[..if conn1.up then Dispatched(card, rest) else 0];
      assert ps[..Dispatched(card, ps)] == [p] + ds;
      assert ([p] + ds)[1..] == ds;
      Channels.LastRecordConcat(RecordsOf(t, p), Applied(TablesAfter(t, p), ds), dir, ch, Channels.Flag(t, dir, ch));
      if conn1.up {
        ChannelsBehind(card, conn1, rest, ios[1..], dir, ch);
      }
    }
  }

  // ---- recovery ----------------------------------------------------------------------------------

  /** How far an upload has come after a list of packets, by the guards of the loader alone. */
  function UploadAfter(o: Option<FwUpdate.Progress>, ps: seq<Packet>, ios: seq<Io>): Option<FwUpdate.Progress>
    requires |ps| <= |ios|
    decreases |ps|
  {
    if ps == [] then o
    else UploadAfter(if ps[0].cmd == CMD_FW_UPDATE then FwUpdate.NextOpen(o, ps[0].payload, ios[0].env) else o,
                     ps[1..], ios[1..])
  }

  /** The FW_UPDATE packets among them that carry an index, with the platform at each. */
  function LoaderInputs(ps: seq<Packet>, ios: seq<Io>): FwUpdate.Inputs
    requires |ps| <= |ios|
  {
    if ps == [] then []
    else
      var n := |ps| - 1;
      LoaderInputs(ps[..n], ios)
      + (if ps[n].cmd == CMD_FW_UPDATE && |ps[n].payload| >= 4 then [FwUpdate.Input(ps[n].payload, ios[n].env)] else [])
  }

  lemma {:induction false} UploadAfterLast(o: Option<FwUpdate.Progress>, ps: seq<Packet>, ios: seq<Io>)
    requires ps != [] && |ps| <= |ios|
    ensures var n := |ps| - 1;
            var before := UploadAfter(o, ps[..n], ios);
            UploadAfter(o, ps, ios)
              == if ps[n].cmd == CMD_FW_UPDATE then FwUpdate.NextOpen(before, ps[n].payload, ios[n].env) else before
    decreases |ps|
  {
    var n := |ps| - 1;
    if n == 0 {
      assert ps[1..] == [] && ps[..0] == [];
    } else {
      var o1 := if ps[0].cmd == CMD_FW_UPDATE then FwUpdate.NextOpen(o, ps[0].payload, ios[0].env) else o;
      assert ps[1..][..n - 1] == ps[..n][1..];
      UploadAfterLast(o1, ps[1..], ios[1..]);
    }
  }

  lemma {:induction false} UploadAfterIsOpen(ps: seq<Packet>, ios: seq<Io>)
    requires |ps| <= |ios|
    ensures UploadAfter(None, ps, ios) == FwUpdate.OpenAfter(LoaderInputs(ps, ios))
  {
    if ps != [] {
      var n := |ps| - 1;
      UploadAfterLast(None, ps, ios);
      UploadAfterIsOpen(ps[..n], ios);
      if ps[n].cmd == CMD_FW_UPDATE && |ps[n].payload| >= 4 {
        var l := LoaderInputs(ps, ios);
        assert l[..|l| - 1] == LoaderInputs(ps[..n], ios);
      } else {
        assert LoaderInputs(ps[..n], ios) + [] == LoaderInputs(ps[..n], ios);
      }
    }
  }

  lemma LoaderDispatched(card: Card, core: Core, p: Packet, io: Io)
    requires card.personality == Recovery && FwUpdate.Inv(core.fw)
    ensures var core' := Dispatch(card, core, p, Tcp, io).core;
            && FwUpdate.Inv(core'.fw) && core' == core.(fw := core'.fw)
            && FwUpdate.Open(core'.fw)
               == (if p.cmd == CMD_FW_UPDATE then FwUpdate.NextOpen(FwUpdate.Open(core.fw), p.payload, io.env)
                   else FwUpdate.Open(core.fw))
  {
    if p.cmd == CMD_FW_UPDATE {
      FwUpdate.HandleKeepsInv(card.cipher, core.fw, p.payload, io.now, io.env);
      FwUpdate.OpenFollowsGuards(card.cipher, core.fw, p.payload, io.now, io.env);
    }
  }

  /** The loader behind a lost client: an upload is open exactly as the guards say, and nothing
      else has changed. */
  lemma {:induction false} UploadBehind(card: Card, conn: Conn, ps: seq<Packet>, ios: seq<Io>)
    requires card.personality == Recovery && !conn.client && conn.up && |ios| == |ps| && FwUpdate.Inv(conn.core.fw)
    ensures var core' := Serve(card, conn, ps, Tcp, ios).0.core;
            && core' == conn.core.(fw := core'.fw)
            && FwUpdate.Open(core'.fw) == UploadAfter(FwUpdate.Open(conn.core.fw), ps[..Dispatched(card, ps)], ios)
    decreases |ps|
  {
    if ps != [] {
      var p, rest := ps[0], ps[1..];
      var conn1 := ServeOne(card, conn, p, Tcp, ios[0]).0;
      ServedDispatched(card, conn, p, ios[0]);
      LoaderDispatched(card, conn.core, p, ios[0]);
      var ds := rest[..if conn1.up then Dispatched(card, rest) else 0];
      assert ps[..Dispatched(card, ps)] == [p] + ds;
      assert ([p] + ds)[1..] == ds;
      if conn1.up {
        UploadBehind(card, conn1, rest, ios[1..]);
      }
    }
  }

  // ---- the promise -----------------------------------------------------------------------------------

  /** Nothing among the packets behind the failed send is left on: no discrete switch says on, the
      last joystick switch does not, no channel's last applied record enables it; in recovery, the
      FW_UPDATE packets do not end in an upload that found the loader idle. */
  predicate LeavesOff(card: Card, ds: seq<Packet>, ios: seq<Io>)
    requires |ds| <= |ios|
  {
    if card.personality == Recovery then !FwUpdate.OpenAtEnd(LoaderInputs(ds, ios))
    else
      && !EverOn(ds, DiscreteSwitch)
      && !LastSwitch(ds, HidSwitch, false)
      && NoneEnabled(Applied(Channels.RESET, ds))
  }

  /** The packets still dispatched behind the one whose answer failed. */
  function Behind(card: Card, p: Packet, rest: seq<Packet>): (ds: seq<Packet>)
    ensures |ds| <= |rest|
  {
    if Restarts(card, p) then [] else rest[..Dispatched(card, rest)]
  }

  /** No channel is enabled. */
  predicate ChannelsOff(t: Channels.Tables) {
    forall dir: byte, ch: nat :: dir <= Channels.DIR_RX && ch < Channels.NUM_CHANNELS ==> !Channels.Flag(t, dir, ch)
  }

  predicate NoneEnabled(recs: seq<Channels.Record>) {
    forall dir: byte, ch: nat :: dir <= Channels.DIR_RX && ch < Channels.NUM_CHANNELS ==>
      !Channels.LastRecord(recs, dir, ch, false)
  }

  lemma ChannelsOffBehind(card: Card, conn: Conn, ps: seq<Packet>, ios: seq<Io>)
    requires card.personality == App && !conn.client && conn.up && |ios| == |ps| && conn.core.tables == Channels.RESET
    ensures var t' := Serve(card, conn, ps, Tcp, ios).0.core.tables;
            && Channels.Mirror(t')
            && (ChannelsOff(t') <==> NoneEnabled(Applied(Channels.RESET, ps[..Dispatched(card, ps)])))
  {
    var t', recs := Serve(card, conn, ps, Tcp, ios).0.core.tables, Applied(Channels.RESET, ps[..Dispatched(card, ps)]);
    Channels.ResetMirror();
    ChannelsBehind(card, conn, ps, ios, 0, 0);
    forall dir: byte, ch: nat | dir <= Channels.DIR_RX && ch < Channels.NUM_CHANNELS
      ensures Channels.Flag(t', dir, ch) == Channels.LastRecord(recs, dir, ch, false)
    {
      ChannelsBehind(card, conn, ps, ios, dir, ch);
    }
  }

  lemma OffBehindApp(card: Card, conn: Conn, ps: seq<Packet>, ios: seq<Io>)
    requires card.personality == App && !conn.client && conn.up && |ios| == |ps|
    requires AllDisabled(conn.core) && conn.core.tables == Channels.RESET
    ensures AllDisabled(Serve(card, conn, ps, Tcp, ios).0.core) <==> LeavesOff(card, ps[..Dispatched(card, ps)], ios)
  {
    var core', ds := Serve(card, conn, ps, Tcp, ios).0.core, ps[..Dispatched(card, ps)];
    PlanesBehind(card, conn, ps, ios);
    ChannelsOffBehind(card, conn, ps, ios);
    FlagsOff(core'.tables);
    LastNeedsOn(ds, DiscreteSwitch);
  }

  lemma FlagsOff(t: Channels.Tables)
    requires Channels.Mirror(t)
    ensures ChannelsOff(t)
            <==> forall i :: 0 <= i < Channels.NUM_CHANNELS ==>
                   !t.tx[i].enabled && !t.rx[i].enabled && !t.engine[i].enabled
  {
    if ChannelsOff(t) {
      forall i | 0 <= i < Channels.NUM_CHANNELS ensures !t.tx[i].enabled && !t.rx[i].enabled && !t.engine[i].enabled {
        assert !Channels.Flag(t, Channels.DIR_TX, i) && !Channels.Flag(t, Channels.DIR_RX, i);
        assert Channels.Same(t.tx[i], t.engine[i]);
      }
    }
  }

  lemma {:induction false} LastNeedsOn(ps: seq<Packet>, switch: Packet -> bool)
    ensures LastSwitch(ps, switch, false) ==> EverOn(ps, switch)
  {
    if ps != [] {
      var n := |ps| - 1;
      LastNeedsOn(ps[..n], switch);
      if switch(ps[n]) {
        assert On(ps[n]) ==> EverOn(ps, switch);
      } else if EverOn(ps[..n], switch) {
        var i :| 0 <= i < n && switch(ps[..n][i]) && On(ps[..n][i]);
        assert ps[i] == ps[..n][i];
      }
    }
  }

  /** The promise that a lost client leaves nothing enabled, for every buffer and in both builds: it
      holds exactly when nothing behind the failed send leaves anything on. */
  lemma FailedSendDisablesIff(card: Card, conn: Conn, p: Packet, rest: seq<Packet>, io: Io, ios: seq<Io>,
                              sent: seq<seq<byte>>)
    requires conn.client && conn.up && io.failed.Some? && |ios| == |rest| && CardInv(card, conn.core, sent)
    ensures AllDisabled(Serve(card, conn, [p] + rest, Tcp, [io] + ios).0.core)
            <==> LeavesOff(card, Behind(card, p, rest), ios)
  {
    var conn1 := ServeOne(card, conn, p, Tcp, io).0;
    FailedSend(card, conn, p, io, sent);
    assert ([p] + rest)[1..] == rest && ([io] + ios)[1..] == ios;
    if !conn1.up {
      assert Serve(card, conn1, rest, Tcp, ios).0 == conn1;
      NothingLeavesOff(card, ios);
    } else if card.personality == App {
      OffBehindApp(card, conn1, rest, ios);
    } else {
      UploadBehind(card, conn1, rest, ios);
      UploadAfterIsOpen(Behind(card, p, rest), ios);
      FwUpdate.OpenIffUploadAtEnd(LoaderInputs(Behind(card, p, rest), ios));
    }
  }

  lemma NothingLeavesOff(card: Card, ios: seq<Io>)
    ensures LeavesOff(card, [], ios)
  {
  }

  lemma FailedSend(card: Card, conn: Conn, p: Packet, io: Io, sent: seq<seq<byte>>)
    requires conn.client && conn.up && io.failed.Some? && CardInv(card, conn.core, sent)
    ensures var conn1 := ServeOne(card, conn, p, Tcp, io).0;
            && !conn1.client && (conn1.up <==> !Restarts(card, p))
            && AllDisabled(conn1.core) && CardInv(card, conn1.core, sent) && conn1.core.tables == Channels.RESET
  {
    OneReplyOnTcp(card, conn.core, p, io);
    StreamsAndRestarts(card, conn.core, p, Tcp, io);
    DispatchKeepsInv(card, conn.core, p, Tcp, io, sent);
    SessionEndDisables(card, Dispatch(card, conn.core, p, Tcp, io).core, sent);
  }

  /** The promise does fail: a SETUP behind a failed send leaves plane and relay intent enabled with
      no client. */
  lemma RearmedWithoutClient(card: Card, conn: Conn, p: Packet, io: Io, sent: seq<seq<byte>>)
    requires card.personality == App && conn.client && conn.up && io.failed.Some? && CardInv(card, conn.core, sent)
    requires !Restarts(card, p)
    ensures var setup := Packet(0, CMD_DISCRETE_SETUP, [1, 0, 0, 0]);
            var conn' := Serve(card, conn, [p, setup], Tcp, [io, io]).0;
            !conn'.client && conn'.core.discrete.enabled && conn'.core.bus.enabled
  {
    var setup := Packet(0, CMD_DISCRETE_SETUP, [1, 0, 0, 0]);
    var conn1 := ServeOne(card, conn, p, Tcp, io).0;
    FailedSend(card, conn, p, io, sent);
    ServedDispatched(card, conn1, setup, io);
    OneSwitch(card, conn1.core, setup, io);
    assert [p, setup][1..] == [setup] && [io, io][1..] == [io] && [setup][1..] == [];
    assert Serve(card, conn1, [setup], Tcp, [io]).0 == ServeOne(card, conn1, setup, Tcp, io).0;
  }
}
