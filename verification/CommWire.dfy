/** What the gateway reads on the control connection: the frames of a trace, one answer per
    packet, however TCP cuts the stream, wherever a send fails, and whatever the comm task's
    other services send in between. */
module CommWire {
  import opened Bytes
  import opened Options
  import opened Framing
  import opened Comm
  import opened CommSession
  import Discrete
  import Rs485

  // ---- traces --------------------------------------------------------------------------------

  /** The `i`-th number after `first`, on the 8-bit counter. */
  function Numbered(first: byte, i: nat): byte
    decreases i
  {
    if i == 0 then first else Numbered(Add8(first, 1), i - 1)
  }

  lemma {:induction false} NumberedIs(first: byte, i: nat)
    ensures Numbered(first, i) == (first + i) % 256
    decreases i
  {
    if i > 0 {
      NumberedIs(Add8(first, 1), i - 1);
    }
  }

  function Id(b: Built): byte {
    match b case OnTcp(q, _, _) => q.id case OnUdp(id) => id
  }

  /** The frames of both transports together are numbered without a gap. */
  predicate Counted(trace: seq<Built>, first: byte) {
    forall i :: 0 <= i < |trace| ==> Id(trace[i]) == Numbered(first, i)
  }

  /** The requests answered, in order. */
  function Requests(trace: seq<Built>): seq<Packet> {
    if trace == [] then []
    else (if trace[0].OnTcp? && trace[0].to.Some? then [trace[0].to.value] else []) + Requests(trace[1..])
  }

  /** The frames that went out whole. */
  function Sent(trace: seq<Built>): seq<Packet> {
    if trace == [] then []
    else (if trace[0].OnTcp? && trace[0].taken == |Frame(trace[0].q)| then [trace[0].q] else []) + Sent(trace[1..])
  }

  /** Every answer matches its request, and the frames that answer none are DEVICE_STATUS. */
  predicate Matched(trace: seq<Built>) {
    forall i :: 0 <= i < |trace| && trace[i].OnTcp? ==>
      match trace[i].to
      case Some(p) => Answers(Reply(trace[i].q.cmd, trace[i].q.payload), p)
      case None => trace[i].q.cmd == CMD_DEVICE_STATUS
  }

  /** Whole frames while the client is there; one cut frame when it is lost; then nothing. */
  predicate Flows(trace: seq<Built>, client: bool, client': bool)
    decreases trace
  {
    if trace == [] then client == client'
    else if trace[0].OnUdp? then Flows(trace[1..], client, client')
    else if !client then trace[0].taken == 0 && Flows(trace[1..], false, client')
    else
      && trace[0].taken <= |Frame(trace[0].q)|
      && Flows(trace[1..], trace[0].taken == |Frame(trace[0].q)|, client')
  }

  /** All that is promised of a trace that begins with frame number `first`. */
  predicate Sound(trace: seq<Built>, conn: Conn, conn': Conn) {
    && Counted(trace, conn.txId) && conn'.txId == Numbered(conn.txId, |trace|)
    && Matched(trace) && Flows(trace, conn.client, conn'.client)
  }

  lemma {:induction false} NumberedSum(first: byte, i: nat, j: nat)
    ensures Numbered(Numbered(first, i), j) == Numbered(first, i + j)
    decreases i
  {
    if i != 0 {
      NumberedSum(Add8(first, 1), i - 1, j);
    }
  }

  lemma {:induction false} FlowsConcat(a: seq<Built>, b: seq<Built>, c: bool, c': bool, c'': bool)
    requires Flows(a, c, c') && Flows(b, c', c'')
    ensures Flows(a + b, c, c'')
    decreases a
  {
    if a == [] {
      assert a + b == b;
    } else {
      DropOfConcat(a, b, 1);
      var c1 := if a[0].OnUdp? then c else c && a[0].taken == |Frame(a[0].q)|;
      FlowsConcat(a[1..], b, c1, c', c'');
    }
  }

  lemma {:induction false} RequestsConcat(a: seq<Built>, b: seq<Built>)
    ensures Requests(a + b) == Requests(a) + Requests(b)
    decreases a
  {
    if a == [] {
      assert a + b == b;
    } else {
      DropOfConcat(a, b, 1);
      RequestsConcat(a[1..], b);
    }
  }

  lemma CountedConcat(a: seq<Built>, b: seq<Built>, first: byte)
    requires Counted(a, first) && Counted(b, Numbered(first, |a|))
    ensures Counted(a + b, first)
  {
    forall i | 0 <= i < |a + b| ensures Id((a + b)[i]) == Numbered(first, i) {
      if i >= |a| {
        NumberedSum(first, |a|, i - |a|);
        assert (a + b)[i] == b[i - |a|];
      }
    }
  }

  lemma SoundConcat(a: seq<Built>, b: seq<Built>, conn: Conn, mid: Conn, conn': Conn)
    requires Sound(a, conn, mid) && Sound(b, mid, conn')
    ensures Sound(a + b, conn, conn')
  {
    CountedConcat(a, b, conn.txId);
    NumberedSum(conn.txId, |a|, |b|);
    FlowsConcat(a, b, conn.client, mid.client, conn'.client);
  }

  // ---- what the gateway reads ----------------------------------------------------------------

  /** A frame cut short is no packet to the reader. */
  lemma CutFrameWaits(p: Packet, k: nat)
    requires k < |Frame(p)|
    ensures Scan(Frame(p)[..k]) == ([], 0)
  {
    FrameFields(p, []);
    assert Frame(p) + [] == Frame(p);
  }

  lemma {:induction false} NothingWithoutClient(trace: seq<Built>, client': bool)
    requires Flows(trace, false, client')
    ensures Accepted(trace) == [] && Sent(trace) == [] && !client'
    decreases trace
  {
    if trace != [] {
      NothingWithoutClient(trace[1..], client');
    }
  }

  /** Reading the wire gives exactly the frames that went out whole, in order; if the client is
      still there nothing is left over. */
  lemma {:induction false} WireReads(trace: seq<Built>, client': bool)
    requires Flows(trace, true, client')
    ensures Scan(Accepted(trace)).0 == Sent(trace)
    ensures client' ==> Unread(Accepted(trace)) == []
    decreases trace
  {
    if trace != [] {
      var rest := Accepted(trace[1..]);
      if trace[0].OnUdp? {
        WireReads(trace[1..], client');
        assert [] + rest == rest;
      } else if trace[0].taken == |Frame(trace[0].q)| {
        WireReads(trace[1..], client');
        ScanFrame(trace[0].q, rest);
        FrameJudged(trace[0].q, rest);
        UnreadStep(Frame(trace[0].q) + rest);
        assert Taken(trace[0]) == Frame(trace[0].q);
      } else {
        NothingWithoutClient(trace[1..], client');
        CutFrameWaits(trace[0].q, trace[0].taken);
        assert Taken(trace[0]) + rest == Frame(trace[0].q)[..trace[0].taken];
      }
    }
  }

  /** How many UDP frames were built before the `i`-th TCP frame. */
  function UdpBefore(trace: seq<Built>, i: nat): nat
    decreases trace
  {
    if trace == [] then 0
    else if trace[0].OnUdp? then 1 + UdpBefore(trace[1..], i)
    else if i == 0 then 0 else UdpBefore(trace[1..], i - 1)
  }

  /** The i-th frame the gateway reads has number first + i + the UDP frames built before it. */
  lemma {:induction false} NumbersOnTheWire(trace: seq<Built>, first: byte, client: bool, client': bool, i: nat)
    requires Counted(trace, first) && Flows(trace, client, client') && i < |Sent(trace)|
    ensures Sent(trace)[i].id == Numbered(first, i + UdpBefore(trace, i))
    decreases trace
  {
    assert Numbered(first, 0) == Id(trace[0]);
    var rest := trace[1..];
    assert Counted(rest, Add8(first, 1)) by {
      forall k | 0 <= k < |rest| ensures Id(rest[k]) == Numbered(Add8(first, 1), k) {
        assert rest[k] == trace[k + 1];
      }
    }
    if trace[0].OnUdp? {
      NumbersOnTheWire(rest, Add8(first, 1), client, client', i);
    } else if client && trace[0].taken == |Frame(trace[0].q)| {
      if i > 0 {
        NumbersOnTheWire(rest, Add8(first, 1), true, client', i - 1);
      }
    } else {
      NothingWithoutClient(rest, client');
    }
  }

  // ---- one answer per packet ---------------------------------------------------------------------

  /** How many of the packets are dispatched: all, or those up to the first that restarts. */
  function Dispatched(card: Card, ps: seq<Packet>): (n: nat)
    ensures n <= |ps|
  {
    if ps == [] then 0 else if Restarts(card, ps[0]) then 1 else 1 + Dispatched(card, ps[1..])
  }

  /** The trace of one TCP packet: at most one UDP frame, then its answer. */
  lemma OneAnswer(card: Card, conn: Conn, p: Packet, io: Io)
    requires conn.up
    ensures var (conn', built) := ServeOne(card, conn, p, Tcp, io);
            && Sound(built, conn, conn') && Requests(built) == [p]
            && (conn'.up <==> !Restarts(card, p))
            && (conn'.client <==> conn.client && io.failed == None)
  {
    OneReplyOnTcp(card, conn.core, p, io);
    StreamsAndRestarts(card, conn.core, p, Tcp, io);
    var r := Dispatch(card, conn.core, p, Tcp, io);
    var (next, b) := Send(card, Handled(conn, r), r.reply.value, Some(p), io.failed);
    OneBuilt(b, p, conn.client, next.client);
    if r.streamed {
      assert [OnUdp(conn.txId)] + [b] == [OnUdp(conn.txId), b];
      assert Numbered(conn.txId, 1) == Numbered(Add8(conn.txId, 1), 0);
      assert [OnUdp(conn.txId), b][1..] == [b];
    } else {
      assert [] + [b] == [b];
    }
  }

  lemma OneBuilt(b: Built, p: Packet, client: bool, client': bool)
    requires b.OnTcp? && b.to == Some(p)
    ensures Requests([b]) == [p]
    ensures client' == (client && b.taken == |Frame(b.q)|) && (if client then b.taken <= |Frame(b.q)| else b.taken == 0)
            ==> Flows([b], client, client')
  {
    assert [b][1..] == [];
  }

  /** Request and reply, for every list of packets: each packet dispatched (all of them, or those
      up to the first restart) is answered exactly once, in order, wherever sends fail; what the
      gateway reads is the answers sent before the first failure; and numbers are drawn without a
      gap, the i-th answer's being first + i + the UDP frames built before it. */
  lemma {:induction false} OneReplyEach(card: Card, conn: Conn, ps: seq<Packet>, ios: seq<Io>)
    requires conn.up && |ios| == |ps|
    ensures var (conn', trace) := Serve(card, conn, ps, Tcp, ios);
            && Sound(trace, conn, conn')
            && Requests(trace) == ps[..Dispatched(card, ps)]
            && (conn'.up <==> forall p :: p in ps ==> !Restarts(card, p))
    decreases |ps|
  {
    if ps != [] {
      var (conn1, built) := ServeOne(card, conn, ps[0], Tcp, ios[0]);
      OneAnswer(card, conn, ps[0], ios[0]);
      var (conn2, rest) := Serve(card, conn1, ps[1..], Tcp, ios[1..]);
      if conn1.up {
        OneReplyEach(card, conn1, ps[1..], ios[1..]);
        assert ps == [ps[0]] + ps[1..];
      } else {
        assert rest == [];
      }
      SoundConcat(built, rest, conn, conn1, conn2);
      RequestsConcat(built, rest);
    }
  }

  lemma AllNumbersOnTheWire(trace: seq<Built>, first: byte, client': bool)
    requires Counted(trace, first) && Flows(trace, true, client')
    ensures forall i :: 0 <= i < |Sent(trace)| ==> Sent(trace)[i].id == Numbered(first, i + UdpBefore(trace, i))
  {
    forall i | 0 <= i < |Sent(trace)| ensures Sent(trace)[i].id == Numbered(first, i + UdpBefore(trace, i)) {
      NumbersOnTheWire(trace, first, true, client', i);
    }
  }

  /** The answers among the frames that went out whole. */
  function AnswersRead(trace: seq<Built>): seq<Packet> {
    if trace == [] then []
    else
      var b := trace[0];
      (if b.OnTcp? && b.to.Some? && b.taken == |Frame(b.q)| then [b.q] else []) + AnswersRead(trace[1..])
  }

  predicate Subsequence<T(==)>(a: seq<T>, b: seq<T>)
    decreases b
  {
    a == [] || (b != [] && (Subsequence(a, b[1..]) || (a[0] == b[0] && Subsequence(a[1..], b[1..]))))
  }

  lemma OneMoreFrame<T>(x: T, a: seq<T>, b: seq<T>)
    requires Subsequence(a, b)
    ensures Subsequence(a, [x] + b) && Subsequence([x] + a, [x] + b)
  {
    assert ([x] + b)[1..] == b && ([x] + a)[1..] == a;
  }

  /** The answers stand among the whole frames in their order. */
  lemma {:induction false} AnswersAmongSent(trace: seq<Built>)
    ensures Subsequence(AnswersRead(trace), Sent(trace))
    decreases trace
  {
    if trace != [] {
      var b, rest := trace[0], trace[1..];
      var sent, read := Sent(rest), AnswersRead(rest);
      AnswersAmongSent(rest);
      assert [] + sent == sent && [] + read == read;
      if b.OnTcp? {
        OneMoreFrame(b.q, read, sent);
      }
    }
  }

  /** On the wire the answers come in the order of their requests, each matching its own: all of
      them while the client is there, and those before the failed send otherwise. */
  lemma {:induction false} AnswersInOrder(trace: seq<Built>, client: bool, client': bool)
    requires Matched(trace) && Flows(trace, client, client')
    ensures Paired(AnswersRead(trace), Requests(trace))
    ensures client' ==> |AnswersRead(trace)| == |Requests(trace)|
    decreases trace
  {
    if trace != [] {
      var b, rest := trace[0], trace[1..];
      assert Matched(rest) by {
        assert forall i :: 0 <= i < |rest| ==> rest[i] == trace[i + 1];
      }
      assert [] + AnswersRead(rest) == AnswersRead(rest) && [] + Requests(rest) == Requests(rest);
      if b.OnUdp? {
        AnswersInOrder(rest, client, client');
      } else if client && b.taken == |Frame(b.q)| {
        AnswersInOrder(rest, true, client');
        PairsShift(b, AnswersRead(rest), Requests(rest));
      } else {
        NothingWithoutClient(rest, client');
        NoAnswersWithoutClient(rest, client');
      }
    }
  }

  /** The answers match the first of the requests, one for one. */
  predicate Paired(got: seq<Packet>, asked: seq<Packet>) {
    |got| <= |asked| && forall i :: 0 <= i < |got| ==> Answers(Reply(got[i].cmd, got[i].payload), asked[i])
  }

  lemma PairsShift(b: Built, got: seq<Packet>, asked: seq<Packet>)
    requires b.OnTcp? && Paired(got, asked)
    requires b.to.Some? ==> Answers(Reply(b.q.cmd, b.q.payload), b.to.value)
    ensures b.to.Some? ==> Paired([b.q] + got, [b.to.value] + asked)
  {
  }

  lemma {:induction false} NoAnswersWithoutClient(trace: seq<Built>, client': bool)
    requires Flows(trace, false, client')
    ensures AnswersRead(trace) == []
    decreases trace
  {
    if trace != [] {
      NoAnswersWithoutClient(trace[1..], client');
    }
  }

  /** What the gateway gets out of the bytes of a trace: exactly the frames that went out whole, in
      order, the i-th numbered first + i + the UDP frames built before it; the answers among them
      one for one with the requests, in order; and nothing unread while the client is there. */
  predicate ReadBack(trace: seq<Built>, conn: Conn, conn': Conn) {
    var bytes, got, read := Accepted(trace), Sent(trace), AnswersRead(trace);
    && Scan(bytes).0 == got && (conn'.client ==> Unread(bytes) == [])
    && (forall i :: 0 <= i < |got| ==> got[i].id == Numbered(conn.txId, i + UdpBefore(trace, i)))
    && Subsequence(read, got)
    && Paired(read, Requests(trace)) && (conn'.client ==> |read| == |Requests(trace)|)
  }

  lemma SoundReadsBack(trace: seq<Built>, conn: Conn, conn': Conn)
    requires Sound(trace, conn, conn') && conn.client
    ensures ReadBack(trace, conn, conn')
  {
    WireReads(trace, conn'.client);
    AllNumbersOnTheWire(trace, conn.txId, conn'.client);
    AnswersAmongSent(trace);
    AnswersInOrder(trace, true, conn'.client);
  }

  /** The replies to a list of packets, as the gateway reads them. */
  lemma RepliesOnTheWire(card: Card, conn: Conn, ps: seq<Packet>, ios: seq<Io>)
    requires conn.up && conn.client && |ios| == |ps|
    ensures ReadBack(Serve(card, conn, ps, Tcp, ios).1, conn, Serve(card, conn, ps, Tcp, ios).0)
  {
    OneReplyEach(card, conn, ps, ios);
    SoundReadsBack(Serve(card, conn, ps, Tcp, ios).1, conn, Serve(card, conn, ps, Tcp, ios).0);
  }

  /** An answer as ServeOne makes it, for a client that takes it whole. */
  function Whole(id: byte, p: Packet, status: u32): Built {
    var q := Packet(id, p.cmd, Ack(p, status, []).payload);
    OnTcp(q, Some(p), |Frame(q)|)
  }

  lemma HidSetupBuilds(card: Card, conn: Conn, p: Packet, io: Io)
    requires card.personality == App && conn.up && conn.client && io.failed == None
    requires p.cmd == CMD_HID_SETUP && |p.payload| == HID_SETUP_SIZE
    ensures var (conn', built) := ServeOne(card, conn, p, Tcp, io);
            && conn'.up && conn'.client && conn'.core.hid.enabled == (p.payload[0] != 0)
            && built == (if p.payload[0] == 0 && conn.core.hid.enabled
                         then [OnUdp(conn.txId), Whole(Add8(conn.txId, 1), p, OK)] else [Whole(conn.txId, p, OK)])
  {
    StreamsAndRestarts(card, conn.core, p, Tcp, io);
  }

  /** Enabling and disabling the joystick in one receive: the second answer skips a number, the
      one of the STATE datagram built in between. */
  lemma HidDisableSkipsNumber(card: Card, conn: Conn, io: Io)
    requires card.personality == App && conn.up && conn.client && io.failed == None
    ensures var on, off := Packet(1, CMD_HID_SETUP, [1, 0, 0, 0]), Packet(2, CMD_HID_SETUP, [0, 0, 0, 0]);
            var got := Scan(Accepted(Serve(card, conn, [on, off], Tcp, [io, io]).1)).0;
            |got| == 2 && got[0].id == conn.txId && got[1].id == Numbered(conn.txId, 2)
  {
    var on, off := Packet(1, CMD_HID_SETUP, [1, 0, 0, 0]), Packet(2, CMD_HID_SETUP, [0, 0, 0, 0]);
    TwoHidSetups(card, conn, on, off, io);
    RepliesOnTheWire(card, conn, [on, off], [io, io]);
    var trace := Serve(card, conn, [on, off], Tcp, [io, io]).1;
    TwoAnswers(trace[0], trace[1], trace[2]);
    assert trace == [trace[0], trace[1], trace[2]];
  }

  lemma TwoHidSetups(card: Card, conn: Conn, on: Packet, off: Packet, io: Io)
    requires card.personality == App && conn.up && conn.client && io.failed == None
    requires on.cmd == off.cmd == CMD_HID_SETUP && |on.payload| == |off.payload| == HID_SETUP_SIZE
    requires on.payload[0] != 0 && off.payload[0] == 0
    ensures var trace := Serve(card, conn, [on, off], Tcp, [io, io]).1;
            && |trace| == 3 && trace[1].OnUdp?
            && trace[0].OnTcp? && trace[0].taken == |Frame(trace[0].q)|
            && trace[2].OnTcp? && trace[2].taken == |Frame(trace[2].q)|
  {
    HidSetupBuilds(card, conn, on, io);
    var conn1 := ServeOne(card, conn, on, Tcp, io).0;
    HidSetupBuilds(card, conn1, off, io);
    ServeTwo(card, conn, on, off, io);
  }

  lemma ServeTwo(card: Card, conn: Conn, p: Packet, q: Packet, io: Io)
    requires conn.up && ServeOne(card, conn, p, Tcp, io).0.up
    ensures var (conn1, b1) := ServeOne(card, conn, p, Tcp, io);
            Serve(card, conn, [p, q], Tcp, [io, io]).1 == b1 + ServeOne(card, conn1, q, Tcp, io).1
  {
    var conn1 := ServeOne(card, conn, p, Tcp, io).0;
    assert [p, q][1..] == [q] && [io, io][1..] == [io] && [q][1..] == [];
    var (conn2, b2) := ServeOne(card, conn1, q, Tcp, io);
    assert Serve(card, conn1, [q], Tcp, [io]) == (conn2, b2 + []);
    assert b2 + [] == b2;
  }

  lemma TwoAnswers(a: Built, u: Built, b: Built)
    requires a.OnTcp? && a.taken == |Frame(a.q)| && b.OnTcp? && b.taken == |Frame(b.q)| && u.OnUdp?
    ensures Sent([a, u, b]) == [a.q, b.q] && UdpBefore([a, u, b], 0) == 0 && UdpBefore([a, u, b], 1) == 1
  {
    assert [a, u, b][1..] == [u, b] && [u, b][1..] == [b] && [b][1..] == [];
    assert Sent([b]) == [b.q] && Sent([u, b]) == [b.q];
    assert UdpBefore([b], 0) == 0 && UdpBefore([u, b], 0) == 1;
  }

  // ---- datagrams ---------------------------------------------------------------------------------

  lemma SameControlTrans(a: Core, b: Core, c: Core)
    requires SameControl(a, b) && SameControl(b, c)
    ensures SameControl(a, c)
  {
  }

  /** A UDP datagram, whatever is in it, builds no frame, ends nothing and changes no
      configuration. */
  lemma {:induction false} DatagramHarmless(card: Card, conn: Conn, ps: seq<Packet>, ios: seq<Io>)
    requires |ios| == |ps|
    ensures var (conn', trace) := Serve(card, conn, ps, Udp, ios);
            trace == [] && conn' == conn.(core := conn'.core) && SameControl(conn'.core, conn.core)
    decreases |ps|
  {
    if ps != [] && conn.up {
      SilentOnUdp(card, conn.core, ps[0], ios[0]);
      StreamsAndRestarts(card, conn.core, ps[0], Udp, ios[0]);
      var conn1 := ServeOne(card, conn, ps[0], Udp, ios[0]).0;
      DatagramHarmless(card, conn1, ps[1..], ios[1..]);
      SameControlTrans(Serve(card, conn1, ps[1..], Udp, ios[1..]).0.core, conn1.core, conn.core);
    }
  }

  // ---- the other services of the comm task ----------------------------------------------------------

  /** What the world does at each packet of a receive. */
  type World = nat -> Io

  function Ios(w: World, n: nat): (ios: seq<Io>)
    ensures |ios| == n
  {
    seq(n, i requires 0 <= i => w(i))
  }

  /** What runs between two receives: a datagram, a flush of the log, the loops of the two planes
      or of the loader, the status timer, and the relay task's publish. A joystick loop and a log
      flush build some number of UDP frames. */
  datatype Service =
    | Datagram(bytes: seq<byte>, world: World)
    | LogFlush(frames: nat)
    | PlaneLoop(now: u32, udpOk: bool)
    | HidLoop(frames: nat)
    | DeviceStatus(payload: Payload, failed: Option<nat>)
    | RelayPublish(state: Rs485.State)

  function UdpFrames(conn: Conn, n: nat): (Conn, seq<Built>)
    decreases n
  {
    if n == 0 then (conn, [])
    else
      var (conn', rest) := UdpFrames(conn.(txId := Add8(conn.txId, 1)), n - 1);
      (conn', [OnUdp(conn.txId)] + rest)
  }

  /** The plane's loop builds a frame whenever it would send one, also when UDP is down. */
  function PlaneFrames(card: Card, core: Core, now: u32): nat {
    if card.personality == App then |Discrete.Loop(core.discrete, card.config, Backend(core), now, true).1| else 0
  }

  function Serviced(card: Card, conn: Conn, s: Service): (Conn, seq<Built>) {
    match s
    case Datagram(bytes, w) => Serve(card, conn, Scan(bytes).0, Udp, Ios(w, |Scan(bytes).0|))
    case LogFlush(n) => UdpFrames(conn, n)
    case PlaneLoop(now, udpOk) =>
      UdpFrames(conn.(core := Step(card, conn.core, Periodic(now, udpOk)).0), PlaneFrames(card, conn.core, now))
    case HidLoop(n) => UdpFrames(conn, n)
    case DeviceStatus(payload, failed) =>
      if !conn.client then (conn, [])
      else
        var (next, built) := Send(card, conn, Reply(CMD_DEVICE_STATUS, payload), None, failed);
        (next, [built])
    case RelayPublish(state) => (conn.(core := Step(card, conn.core, Published(state)).0), [])
  }

  function Services(card: Card, conn: Conn, ss: seq<Service>): (Conn, seq<Built>)
    decreases |ss|
  {
    if ss == [] then (conn, [])
    else
      var (conn1, built) := Serviced(card, conn, ss[0]);
      var (conn2, rest) := Services(card, conn1, ss[1..]);
      (conn2, built + rest)
  }

  lemma {:induction false} UdpFramesSound(conn: Conn, n: nat)
    ensures var (conn', trace) := UdpFrames(conn, n);
            Sound(trace, conn, conn') && Requests(trace) == [] && conn'.up == conn.up && conn'.client == conn.client
    decreases n
  {
    if n != 0 {
      var conn1 := conn.(txId := Add8(conn.txId, 1));
      UdpFramesSound(conn1, n - 1);
      var (conn', rest) := UdpFrames(conn1, n - 1);
      var one := [OnUdp(conn.txId)];
      assert one[1..] == [];
      assert Numbered(conn.txId, 1) == Numbered(conn1.txId, 0);
      SoundConcat(one, rest, conn, conn1, conn');
      RequestsConcat(one, rest);
    }
  }

  /** Whatever a service sends fits the stream of numbered frames and answers nothing. */
  lemma ServicedSound(card: Card, conn: Conn, s: Service)
    requires conn.up
    ensures var (conn', trace) := Serviced(card, conn, s);
            Sound(trace, conn, conn') && Requests(trace) == [] && conn'.up
  {
    match s
    case Datagram(bytes, w) => DatagramHarmless(card, conn, Scan(bytes).0, Ios(w, |Scan(bytes).0|));
    case LogFlush(n) => UdpFramesSound(conn, n);
    case HidLoop(n) => UdpFramesSound(conn, n);
    case PlaneLoop(now, udpOk) =>
      var conn1 := conn.(core := Step(card, conn.core, Periodic(now, udpOk)).0);
      UdpFramesSound(conn1, PlaneFrames(card, conn.core, now));
      SameNumbers(UdpFrames(conn1, PlaneFrames(card, conn.core, now)).1, conn1, conn, Serviced(card, conn, s).0);
    case DeviceStatus(payload, failed) =>
      if conn.client {
        var (next, built) := Send(card, conn, Reply(CMD_DEVICE_STATUS, payload), None, failed);
        assert [built][1..] == [];
        assert Numbered(conn.txId, 1) == Numbered(Add8(conn.txId, 1), 0);
      }
    case RelayPublish(state) =>
  }

  lemma SameNumbers(trace: seq<Built>, a: Conn, b: Conn, conn': Conn)
    requires Sound(trace, a, conn') && a.txId == b.txId && a.client == b.client
    ensures Sound(trace, b, conn')
  {
  }

  lemma {:induction false} ServicesSound(card: Card, conn: Conn, ss: seq<Service>)
    requires conn.up
    ensures var (conn', trace) := Services(card, conn, ss);
            Sound(trace, conn, conn') && Requests(trace) == [] && conn'.up
    decreases |ss|
  {
    if ss != [] {
      ServicedSound(card, conn, ss[0]);
      var (conn1, built) := Serviced(card, conn, ss[0]);
      ServicesSound(card, conn1, ss[1..]);
      var (conn2, rest) := Services(card, conn1, ss[1..]);
      SoundConcat(built, rest, conn, conn1, conn2);
      RequestsConcat(built, rest);
    }
  }

  // ---- a whole connection ------------------------------------------------------------------------------

  /** One turn of the comm task: other services, then a receive. */
  datatype Turn = Turn(before: seq<Service>, chunk: seq<byte>, world: World)

  /** The services, and then tcp_client_service if there is still a client: parse, dispatch, keep
      what is unread. */
  function OneTurn(card: Card, conn: Conn, kept: seq<byte>, turn: Turn): (Conn, seq<Built>, seq<byte>) {
    var (conn1, t1) := Services(card, conn, turn.before);
    if !conn1.client then (conn1, t1, kept)
    else
      var ps := Scan(kept + turn.chunk).0;
      var (conn2, t2) := Serve(card, conn1, ps, Tcp, Ios(turn.world, |ps|));
      (conn2, t1 + t2, Unread(kept + turn.chunk))
  }

  /** Turn after turn, while there is a client and the card runs. */
  function Stream(card: Card, conn: Conn, kept: seq<byte>, turns: seq<Turn>): (Conn, seq<Built>, seq<byte>)
    decreases |turns|
  {
    if turns == [] || !conn.client || !conn.up then (conn, [], kept)
    else
      var (conn1, t1, kept1) := OneTurn(card, conn, kept, turns[0]);
      var (conn2, t2, left) := Stream(card, conn1, kept1, turns[1..]);
      (conn2, t1 + t2, left)
  }

  function Chunks(turns: seq<Turn>): seq<seq<byte>> {
    if turns == [] then [] else [turns[0].chunk] + Chunks(turns[1..])
  }

  /** The trace answers the first of the packets `ps`, in order, and all of them if client and card
      are still there. */
  predicate AnswersFirst(trace: seq<Built>, ps: seq<Packet>, conn: Conn, conn': Conn) {
    && Sound(trace, conn, conn')
    && Requests(trace) <= ps
    && (conn'.client && conn'.up ==> Requests(trace) == ps)
  }

  lemma AnswersFirstConcat(a: seq<Built>, b: seq<Built>, ps: seq<Packet>, qs: seq<Packet>, conn: Conn, mid: Conn,
                           conn': Conn)
    requires AnswersFirst(a, ps, conn, mid) && mid.client && mid.up && AnswersFirst(b, qs, mid, conn')
    ensures AnswersFirst(a + b, ps + qs, conn, conn')
  {
    SoundConcat(a, b, conn, mid, conn');
    RequestsConcat(a, b);
  }

  lemma TurnAnswersFirst(card: Card, conn: Conn, kept: seq<byte>, turn: Turn)
    requires conn.up
    ensures var (conn', trace, left) := OneTurn(card, conn, kept, turn);
            && AnswersFirst(trace, Scan(kept + turn.chunk).0, conn, conn')
            && (conn'.client && conn'.up ==> left == Unread(kept + turn.chunk))
  {
    ServicesSound(card, conn, turn.before);
    var (conn1, t1) := Services(card, conn, turn.before);
    if conn1.client {
      var ps := Scan(kept + turn.chunk).0;
      ServeAnswersFirst(card, conn1, ps, Ios(turn.world, |ps|));
      var (conn2, t2) := Serve(card, conn1, ps, Tcp, Ios(turn.world, |ps|));
      AnswersFirstConcat(t1, t2, [], ps, conn, conn1, conn2);
      assert [] + ps == ps;
    }
  }

  lemma ServeAnswersFirst(card: Card, conn: Conn, ps: seq<Packet>, ios: seq<Io>)
    requires conn.up && |ios| == |ps|
    ensures AnswersFirst(Serve(card, conn, ps, Tcp, ios).1, ps, conn, Serve(card, conn, ps, Tcp, ios).0)
  {
    OneReplyEach(card, conn, ps, ios);
    if forall p :: p in ps ==> !Restarts(card, p) {
      AllDispatched(card, ps);
    }
  }

  lemma {:induction false} AllDispatched(card: Card, ps: seq<Packet>)
    requires forall p :: p in ps ==> !Restarts(card, p)
    ensures Dispatched(card, ps) == |ps| && ps[..Dispatched(card, ps)] == ps
  {
    if ps != [] {
      AllDispatched(card, ps[1..]);
    }
  }

  lemma {:induction false} StreamAnswersFirst(card: Card, conn: Conn, kept: seq<byte>, turns: seq<Turn>)
    requires conn.up && Scan(kept) == ([], 0)
    ensures var (conn', trace, left) := Stream(card, conn, kept, turns);
            var (ps, rest) := Receive(kept, Chunks(turns));
            && AnswersFirst(trace, ps, conn, conn')
            && (conn'.client && conn'.up ==> left == rest)
    decreases |turns|
  {
    if turns != [] && conn.client {
      assert Chunks(turns)[0] == turns[0].chunk && Chunks(turns)[1..] == Chunks(turns[1..]);
      var buf := kept + turns[0].chunk;
      TurnAnswersFirst(card, conn, kept, turns[0]);
      var (conn1, t1, kept1) := OneTurn(card, conn, kept, turns[0]);
      var (conn2, t2, left) := Stream(card, conn1, kept1, turns[1..]);
      if conn1.client && conn1.up {
        ResidueIsInert(buf);
        StreamAnswersFirst(card, conn1, kept1, turns[1..]);
        AnswersFirstConcat(t1, t2, Scan(buf).0, Receive(kept1, Chunks(turns[1..])).0, conn, conn1, conn2);
      } else {
        assert t1 + [] == t1;
      }
    }
  }

  /** One answer per packet, over a whole connection, with any services running between the
      receives, however the stream is cut and wherever sends fail: the packets of the stream are
      answered one for one and in order, all of them if client and card are still there; the
      gateway reads the answers in that order with matching command and id, and in between only
      DEVICE_STATUS; and no number of the common counter is used twice or left out. */
  lemma OneAnswerPerPacket(card: Card, conn: Conn, turns: seq<Turn>)
    requires conn.up && conn.client
    ensures var (conn', trace, left) := Stream(card, conn, [], turns);
            var s := Join(Chunks(turns));
            && AnswersFirst(trace, Scan(s).0, conn, conn')
            && (conn'.client && conn'.up ==> left == Unread(s))
            && ReadBack(trace, conn, conn')
  {
    StreamAnswersFirst(card, conn, [], turns);
    ChunkInvariance(Chunks(turns));
    SoundReadsBack(Stream(card, conn, [], turns).1, conn, Stream(card, conn, [], turns).0);
  }

  // ---- when no service runs -----------------------------------------------------------------------------

  lemma TailSplit<T>(s: seq<T>, k: nat)
    requires 0 < k <= |s|
    ensures s[1..][..k - 1] == s[..k][1..] && s[1..][k - 1..] == s[k..]
  {
  }

  /** Serving a list of packets is serving its parts one after the other. */
  lemma {:induction false} ServeConcat(card: Card, conn: Conn, a: seq<Packet>, b: seq<Packet>, ios: seq<Io>)
    requires |ios| == |a| + |b|
    ensures var (conn1, t1) := Serve(card, conn, a, Tcp, ios[..|a|]);
            var (conn2, t2) := Serve(card, conn1, b, Tcp, ios[|a|..]);
            Serve(card, conn, a + b, Tcp, ios) == (conn2, t1 + t2)
    decreases |a|
  {
    if a == [] {
      assert a + b == b && ios[|a|..] == ios;
      assert [] + Serve(card, conn, b, Tcp, ios).1 == Serve(card, conn, b, Tcp, ios).1;
    } else if conn.up {
      var (conn1, t1) := ServeOne(card, conn, a[0], Tcp, ios[0]);
      ServeConcat(card, conn1, a[1..], b, ios[1..]);
      DropOfConcat(a, b, 1);
      TailSplit(ios, |a|);
      var (conn2, mid) := Serve(card, conn1, a[1..], Tcp, ios[1..][..|a| - 1]);
      Associative(t1, mid, Serve(card, conn2, b, Tcp, ios[|a|..]).1);
    } else {
      var none := Serve(card, conn, a, Tcp, ios[..|a|]).1;
      assert none + none == none;
    }
  }

  predicate NoServices(turns: seq<Turn>) {
    forall i :: 0 <= i < |turns| ==> turns[i].before == []
  }

  /** The worlds of all packets of a stream, one after the other. */
  function AllIos(kept: seq<byte>, turns: seq<Turn>): (ios: seq<Io>)
    ensures |ios| == |Receive(kept, Chunks(turns)).0|
    decreases |turns|
  {
    if turns == [] then []
    else
      var buf := kept + turns[0].chunk;
      assert Chunks(turns)[1..] == Chunks(turns[1..]);
      Ios(turns[0].world, |Scan(buf).0|) + AllIos(Unread(buf), turns[1..])
  }

  lemma {:induction false} QuietStreamIsServe(card: Card, conn: Conn, kept: seq<byte>, turns: seq<Turn>)
    requires NoServices(turns) && Stream(card, conn, kept, turns).0.client && Stream(card, conn, kept, turns).0.up
    ensures var (conn', trace, left) := Stream(card, conn, kept, turns);
            var (ps, rest) := Receive(kept, Chunks(turns));
            (conn', trace) == Serve(card, conn, ps, Tcp, AllIos(kept, turns)) && left == rest
    decreases |turns|
  {
    if turns != [] && conn.client && conn.up {
      var buf := kept + turns[0].chunk;
      var ps, ios := Scan(buf).0, Ios(turns[0].world, |Scan(buf).0|);
      assert Chunks(turns)[0] == turns[0].chunk && Chunks(turns)[1..] == Chunks(turns[1..]);
      var (conn1, t1) := Serve(card, conn, ps, Tcp, ios);
      assert OneTurn(card, conn, kept, turns[0]) == (conn1, [] + t1, Unread(buf)) && [] + t1 == t1;
      QuietStreamIsServe(card, conn1, Unread(buf), turns[1..]);
      var rest := AllIos(Unread(buf), turns[1..]);
      assert (ios + rest)[..|ps|] == ios && (ios + rest)[|ps|..] == rest;
      ServeConcat(card, conn, ps, Receive(Unread(buf), Chunks(turns[1..])).0, ios + rest);
    }
  }

  /** When no service runs in between and the client stays, cutting the stream is invisible: same
      frames, same state, same residue as for the whole stream in one receive. */
  lemma StreamCutsInvisible(card: Card, conn: Conn, turns: seq<Turn>)
    requires NoServices(turns) && Stream(card, conn, [], turns).0.client && Stream(card, conn, [], turns).0.up
    ensures |AllIos([], turns)| == |Scan(Join(Chunks(turns))).0|
    ensures var (conn', trace, left) := Stream(card, conn, [], turns);
            var s := Join(Chunks(turns));
            (conn', trace) == Serve(card, conn, Scan(s).0, Tcp, AllIos([], turns)) && left == Unread(s)
  {
    QuietStreamIsServe(card, conn, [], turns);
    ChunkInvariance(Chunks(turns));
  }
}
