/** When the answers on the control connection are numbered one after the other, decided on the
    packets of a receive alone. */
module CommNumbers {
  import opened Bytes
  import opened Options
  import opened Framing
  import opened Comm
  import opened CommSession
  import opened CommWire
  import opened CommFailure

  /** The frames are numbered from `first` on without a gap. */
  predicate Consecutive(got: seq<Packet>, first: byte) {
    forall i :: 0 <= i < |got| ==> got[i].id == Numbered(first, i)
  }

  /** A dispatched packet switches off a joystick that is on: the last switch before it says on, or,
      when there is none, it was on to begin with. */
  predicate Skips(card: Card, ps: seq<Packet>, on: bool) {
    && card.personality == App
    && exists i :: 0 <= i < Dispatched(card, ps) && SwitchesOff(ps, i, on)
  }

  predicate SwitchesOff(ps: seq<Packet>, i: nat, on: bool)
    requires i < |ps|
  {
    HidSwitch(ps[i]) && !On(ps[i]) && LastSwitch(ps[..i], HidSwitch, on)
  }

  /** Whether the joystick is on behind one packet. */
  predicate OnAfter(p: Packet, on: bool) {
    if HidSwitch(p) then On(p) else on
  }

  /** The condition, packet by packet. */
  lemma SkipsFirst(card: Card, ps: seq<Packet>, on: bool)
    requires card.personality == App && ps != []
    ensures Skips(card, ps, on)
            <==> (HidSwitch(ps[0]) && !On(ps[0]) && on)
                 || (!Restarts(card, ps[0]) && Skips(card, ps[1..], OnAfter(ps[0], on)))
  {
    var p, rest := ps[0], ps[1..];
    assert LastSwitch(ps[..0], HidSwitch, on) == on;
    forall i: nat | i < |rest|
      ensures SwitchesOff(ps, i + 1, on) <==> SwitchesOff(rest, i, OnAfter(p, on))
    {
      assert ps[..i + 1] == [p] + rest[..i];
      LastSwitchFirst(p, rest[..i], HidSwitch, on);
    }
    if Skips(card, ps, on) {
      var i :| 0 <= i < Dispatched(card, ps) && SwitchesOff(ps, i, on);
      if i > 0 {
        assert SwitchesOff(rest, i - 1, OnAfter(p, on));
      }
    }
    if HidSwitch(p) && !On(p) && on {
      assert SwitchesOff(ps, 0, on);
    }
    if !Restarts(card, p) && Skips(card, rest, OnAfter(p, on)) {
      var i :| 0 <= i < Dispatched(card, rest) && SwitchesOff(rest, i, OnAfter(p, on));
      assert SwitchesOff(ps, i + 1, on);
    }
  }

  /** What one packet adds to the wire when its answer goes out: one frame, with the next number
      unless a STATE of the joystick took it. */
  lemma OneNumber(card: Card, conn: Conn, p: Packet, io: Io)
    requires card.personality == App && conn.up && conn.client && io.failed == None
    ensures var (conn', built) := ServeOne(card, conn, p, Tcp, io);
            var skip := HidSwitch(p) && !On(p) && conn.core.hid.enabled;
            && conn'.client && (conn'.up <==> !Restarts(card, p))
            && conn'.core.hid.enabled == OnAfter(p, conn.core.hid.enabled)
            && |Sent(built)| == 1 && Sent(built)[0].id == (if skip then Add8(conn.txId, 1) else conn.txId)
            && (!skip ==> conn'.txId == Add8(conn.txId, 1))
  {
    OneReplyOnTcp(card, conn.core, p, io);
    StreamsAndRestarts(card, conn.core, p, Tcp, io);
    OneSwitch(card, conn.core, p, io);
    var r := Dispatch(card, conn.core, p, Tcp, io);
    var built := Send(card, Handled(conn, r), r.reply.value, Some(p), io.failed).1;
    SentOfOne(built, conn.txId);
  }

  lemma SentOfOne(b: Built, id: byte)
    requires b.OnTcp? && b.taken == |Frame(b.q)|
    ensures Sent([] + [b]) == [b.q] && Sent([OnUdp(id)] + [b]) == [b.q]
  {
    assert [] + [b] == [b] && [b][1..] == [];
    assert Sent([b]) == [b.q];
    assert ([OnUdp(id)] + [b])[1..] == [b];
  }

  lemma {:induction false} SentConcat(a: seq<Built>, b: seq<Built>)
    ensures Sent(a + b) == Sent(a) + Sent(b)
    decreases a
  {
    if a == [] {
      assert a + b == b;
    } else {
      DropOfConcat(a, b, 1);
      SentConcat(a[1..], b);
    }
  }

  lemma ConsecutiveFirst(q: Packet, got: seq<Packet>, first: byte)
    ensures Consecutive([q] + got, first) <==> q.id == first && Consecutive(got, Add8(first, 1))
  {
    var all := [q] + got;
    forall i | 0 <= i < |got| ensures Numbered(first, i + 1) == Numbered(Add8(first, 1), i) && all[i + 1] == got[i] {
    }
    if Consecutive(all, first) {
      assert all[0].id == Numbered(first, 0);
      forall i | 0 <= i < |got| ensures got[i].id == Numbered(Add8(first, 1), i) {
        assert all[i + 1].id == Numbered(first, i + 1);
      }
    }
  }

  predicate AllSent(ios: seq<Io>) {
    forall i :: 0 <= i < |ios| ==> ios[i].failed == None
  }

  lemma {:induction false} ConsecutiveIff(card: Card, conn: Conn, ps: seq<Packet>, ios: seq<Io>)
    requires card.personality == App && conn.up && conn.client && |ios| == |ps| && AllSent(ios)
    ensures Consecutive(Sent(Serve(card, conn, ps, Tcp, ios).1), conn.txId) <==> !Skips(card, ps, conn.core.hid.enabled)
    decreases |ps|
  {
    if ps != [] {
      var (conn1, built) := ServeOne(card, conn, ps[0], Tcp, ios[0]);
      var rest := Serve(card, conn1, ps[1..], Tcp, ios[1..]).1;
      OneNumber(card, conn, ps[0], ios[0]);
      SkipsFirst(card, ps, conn.core.hid.enabled);
      SentConcat(built, rest);
      var q := Sent(built)[0];
      assert Sent(built) == [q];
      ConsecutiveFirst(q, Sent(rest), conn.txId);
      if conn1.up {
        ConsecutiveIff(card, conn1, ps[1..], ios[1..]);
      }
    }
  }

  /** The recovery build has no joystick: its answers are always consecutive. */
  lemma {:induction false} RecoveryConsecutive(card: Card, conn: Conn, ps: seq<Packet>, ios: seq<Io>)
    requires card.personality == Recovery && conn.up && conn.client && |ios| == |ps| && AllSent(ios)
    ensures Consecutive(Sent(Serve(card, conn, ps, Tcp, ios).1), conn.txId)
    decreases |ps|
  {
    if ps != [] {
      var p, io := ps[0], ios[0];
      OneReplyOnTcp(card, conn.core, p, io);
      StreamsAndRestarts(card, conn.core, p, Tcp, io);
      var r := Dispatch(card, conn.core, p, Tcp, io);
      var (conn1, built) := ServeOne(card, conn, p, Tcp, io);
      var b := Send(card, Handled(conn, r), r.reply.value, Some(p), io.failed).1;
      SentOfOne(b, conn.txId);
      var rest := Serve(card, conn1, ps[1..], Tcp, ios[1..]).1;
      SentConcat(built, rest);
      ConsecutiveFirst(b.q, Sent(rest), conn.txId);
      if conn1.up {
        RecoveryConsecutive(card, conn1, ps[1..], ios[1..]);
      }
    }
  }

  // ---- wherever sends fail -----------------------------------------------------------------------

  /** How many sends succeed before the first one that fails. */
  function Healthy(ios: seq<Io>): (k: nat)
    ensures k <= |ios| && AllSent(ios[..k])
    ensures k < |ios| ==> ios[k].failed.Some?
  {
    if ios == [] || ios[0].failed.Some? then 0
    else
      var k := Healthy(ios[1..]);
      assert forall i :: 0 < i <= k ==> ios[i] == ios[1..][..k][i - 1];
      1 + k
  }

  lemma CutFrameNotSent(b: Built, id: byte)
    requires b.OnTcp? && b.taken < |Frame(b.q)|
    ensures Sent([] + [b]) == [] && Sent([OnUdp(id)] + [b]) == []
  {
    assert [] + [b] == [b] && [b][1..] == [];
    assert Sent([b]) == [];
    assert ([OnUdp(id)] + [b])[1..] == [b];
  }

  /** From a failed send on, nothing goes out whole. */
  lemma NothingSentFromFailure(card: Card, conn: Conn, ps: seq<Packet>, ios: seq<Io>)
    requires conn.up && conn.client && |ios| == |ps| && ps != [] && ios[0].failed.Some?
    ensures Sent(Serve(card, conn, ps, Tcp, ios).1) == []
  {
    var p, io := ps[0], ios[0];
    OneReplyOnTcp(card, conn.core, p, io);
    OneAnswer(card, conn, p, io);
    var r := Dispatch(card, conn.core, p, Tcp, io);
    CutFrameNotSent(Send(card, Handled(conn, r), r.reply.value, Some(p), io.failed).1, conn.txId);
    var (conn1, built) := ServeOne(card, conn, p, Tcp, io);
    var (conn2, rest) := Serve(card, conn1, ps[1..], Tcp, ios[1..]);
    SentConcat(built, rest);
    if conn1.up {
      OneReplyEach(card, conn1, ps[1..], ios[1..]);
      NothingWithoutClient(rest, conn2.client);
    }
  }

  /** What goes out whole is what the packets before the first failed send are answered. */
  lemma SentBeforeFailure(card: Card, conn: Conn, ps: seq<Packet>, ios: seq<Io>)
    requires conn.up && conn.client && |ios| == |ps|
    ensures var k := Healthy(ios);
            Sent(Serve(card, conn, ps, Tcp, ios).1) == Sent(Serve(card, conn, ps[..k], Tcp, ios[..k]).1)
  {
    var k := Healthy(ios);
    var (conn1, before) := Serve(card, conn, ps[..k], Tcp, ios[..k]);
    var behind := Serve(card, conn1, ps[k..], Tcp, ios[k..]).1;
    ServeConcat(card, conn, ps[..k], ps[k..], ios);
    assert ps[..k] + ps[k..] == ps;
    SentConcat(before, behind);
    if k < |ps| && conn1.up {
      ClientStays(card, conn, ps[..k], ios[..k]);
      NothingSentFromFailure(card, conn1, ps[k..], ios[k..]);
    }
    assert Sent(before) + [] == Sent(before);
  }

  lemma {:induction false} ClientStays(card: Card, conn: Conn, ps: seq<Packet>, ios: seq<Io>)
    requires conn.up && conn.client && |ios| == |ps| && AllSent(ios)
    ensures Serve(card, conn, ps, Tcp, ios).0.client
    decreases |ps|
  {
    if ps != [] {
      OneAnswer(card, conn, ps[0], ios[0]);
      var conn1 := ServeOne(card, conn, ps[0], Tcp, ios[0]).0;
      if conn1.up {
        ClientStays(card, conn1, ps[1..], ios[1..]);
      }
    }
  }

  /** The answers the gateway reads are numbered one after the other exactly when no packet, among
      those up to the first restart and before the first failed send, switches off a joystick that
      is on. */
  lemma AnswersConsecutiveIff(card: Card, conn: Conn, ps: seq<Packet>, ios: seq<Io>)
    requires conn.up && conn.client && |ios| == |ps|
    ensures Consecutive(Scan(Accepted(Serve(card, conn, ps, Tcp, ios).1)).0, conn.txId)
            <==> !Skips(card, ps[..Healthy(ios)], conn.core.hid.enabled)
  {
    var k := Healthy(ios);
    RepliesOnTheWire(card, conn, ps, ios);
    SentBeforeFailure(card, conn, ps, ios);
    if card.personality == App {
      ConsecutiveIff(card, conn, ps[..k], ios[..k]);
    } else {
      RecoveryConsecutive(card, conn, ps[..k], ios[..k]);
    }
  }
}
