/** The log channel as a plain FIFO queue of records with a history of what became of
    every record ever pushed. The circular buffer of LogRing is proved to refine this. */
module LogQueue {
  import opened Bytes
  import opened Options

  const RING_SIZE := 4096
  const OVERHEAD := 6
  const HEADER := 4
  const MAX_LINE := 122

  type Text = t: seq<byte> | |t| < 256 witness []
  type Tick = t: seq<byte> | |t| == 4 witness [0, 0, 0, 0]
  /** One line; the tick is kept as its four little-endian bytes. */
  datatype Record = Record(flags: byte, tick: Tick, text: Text)

  function Size(r: Record): nat {
    OVERHEAD + |r.text|
  }

  function TotalSize(q: seq<Record>): nat {
    if q == [] then 0 else Size(q[0]) + TotalSize(q[1..])
  }

  lemma {:induction false} TotalSizeConcat(p: seq<Record>, q: seq<Record>)
    ensures TotalSize(p + q) == TotalSize(p) + TotalSize(q)
  {
    if p == [] {
      assert p + q == q;
    } else {
      assert (p + q)[1..] == p[1..] + q;
      TotalSizeConcat(p[1..], q);
    }
  }

  // ---- the two byte layouts of a record --------------------------------------

  /** In the ring: length, flags, tick, text. */
  function Stored(r: Record): (s: seq<byte>)
    ensures |s| == Size(r)
  {
    [|r.text|, r.flags] + r.tick + r.text
  }

  /** In a LOG_MSG datagram: flags, tick, length, text. */
  function Wire(r: Record): (s: seq<byte>)
    ensures |s| == Size(r)
  {
    [r.flags] + r.tick + [|r.text|] + r.text
  }

  function StoredAll(q: seq<Record>): (s: seq<byte>)
    ensures |s| == TotalSize(q)
  {
    if q == [] then [] else Stored(q[0]) + StoredAll(q[1..])
  }

  function WireAll(q: seq<Record>): (s: seq<byte>)
    ensures |s| == TotalSize(q)
  {
    if q == [] then [] else Wire(q[0]) + WireAll(q[1..])
  }

  lemma {:induction false} StoredAllAppend(q: seq<Record>, r: Record)
    ensures StoredAll(q + [r]) == StoredAll(q) + Stored(r)
  {
    if q == [] {
      assert StoredAll([r]) == Stored(r) + StoredAll([]);
    } else {
      assert (q + [r])[1..] == q[1..] + [r];
      StoredAllAppend(q[1..], r);
    }
  }

  lemma {:induction false} WireAllAppend(q: seq<Record>, r: Record)
    ensures WireAll(q + [r]) == WireAll(q) + Wire(r)
  {
    if q == [] {
      assert WireAll([r]) == Wire(r) + WireAll([]);
    } else {
      assert (q + [r])[1..] == q[1..] + [r];
      WireAllAppend(q[1..], r);
    }
  }

  /** Splits ring bytes into records; None when they are not a whole list of records. */
  function ParseStored(s: seq<byte>): Option<seq<Record>> {
    if s == [] then Some([])
    else if |s| < OVERHEAD + s[0] as int then None
    else
      var n := OVERHEAD + s[0] as int;
      match ParseStored(s[n..])
      case None => None
      case Some(rest) => Some([Record(s[1], s[2..6], s[6..n])] + rest)
  }

  /** What a gateway recovers from the record area of a datagram. */
  function ParseWire(s: seq<byte>): Option<seq<Record>> {
    if s == [] then Some([])
    else if |s| < OVERHEAD || |s| < OVERHEAD + s[5] as int then None
    else
      var n := OVERHEAD + s[5] as int;
      match ParseWire(s[n..])
      case None => None
      case Some(rest) => Some([Record(s[0], s[1..5], s[6..n])] + rest)
  }

  /** Where the fields of the first record lie in the ring bytes. */
  lemma StoredFields(q: seq<Record>)
    requires q != []
    ensures var s, r := StoredAll(q), q[0];
            && s[0] as int == |r.text| && s[1] == r.flags && s[2..6] == r.tick
            && s[6..Size(r)] == r.text && s[Size(r)..] == StoredAll(q[1..])
  {
    FirstStored(q[0], StoredAll(q[1..]));
  }

  lemma FirstStored(r: Record, rest: seq<byte>)
    ensures var s := Stored(r) + rest;
            && s[0] as int == |r.text| && s[1] == r.flags && s[2..6] == r.tick
            && s[6..Size(r)] == r.text && s[Size(r)..] == rest
  {
  }

  /** The bytes of the oldest record, in stored and in wire order. */
  lemma FrontStored(q: seq<Record>, s: seq<byte>)
    requires q != [] && s == StoredAll(q)
    ensures |s| >= Size(q[0]) && Size(q[0]) == OVERHEAD + s[0] as int
    ensures s[Size(q[0])..] == StoredAll(q[1..])
    ensures [s[1]] + s[2..6] + [s[0]] + s[6..Size(q[0])] == Wire(q[0])
  {
    StoredFields(q);
  }

  lemma {:induction false} ParseStoredInverse(q: seq<Record>)
    ensures ParseStored(StoredAll(q)) == Some(q)
  {
    if q != [] {
      var s, r := StoredAll(q), q[0];
      StoredFields(q);
      ParseStoredInverse(q[1..]);
      assert [r] + q[1..] == q;
    }
  }

  /** Bytes that parse are the layout of exactly one list of records. */
  lemma {:induction false} ParseStoredSound(s: seq<byte>, q: seq<Record>)
    requires ParseStored(s) == Some(q)
    ensures StoredAll(q) == s
  {
    if s != [] {
      var n := OVERHEAD + s[0] as int;
      var rest := ParseStored(s[n..]).value;
      ParseStoredSound(s[n..], rest);
      assert q[1..] == rest;
      assert s == [s[0], s[1]] + s[2..6] + s[6..n] + s[n..];
    }
  }

  lemma {:induction false} ParseWireInverse(q: seq<Record>)
    ensures ParseWire(WireAll(q)) == Some(q)
  {
    if q != [] {
      var s, r := WireAll(q), q[0];
      assert s[1..5] == r.tick;
      assert s[6..Size(r)] == r.text;
      assert s[Size(r)..] == WireAll(q[1..]);
      ParseWireInverse(q[1..]);
      assert [r] + q[1..] == q;
    }
  }

  /** The record of a datagram, byte by byte: flags, four bytes of tick, the text's length, the text. */
  lemma WireBytes(r: Record)
    ensures var s := Wire(r);
            && |s| == 6 + |r.text| && s[0] == r.flags && s[1..5] == r.tick
            && s[5] as int == |r.text| && s[6..] == r.text
  {
  }

  // ---- drop-oldest -------------------------------------------------------------

  /** The newest records of `q` that fit `cap` bytes. */
  function Keep(q: seq<Record>, cap: nat): (k: seq<Record>)
    ensures |k| <= |q| && k == q[|q| - |k|..] && TotalSize(k) <= cap
  {
    if TotalSize(q) <= cap then q else Keep(q[1..], cap)
  }

  lemma {:induction false} KeepIsLongestSuffix(q: seq<Record>, cap: nat, i: nat)
    requires i <= |q| && TotalSize(q[i..]) <= cap
    ensures |q| - i <= |Keep(q, cap)|
  {
    if TotalSize(q) > cap {
      assert i != 0 by { assert q[0..] == q; }
      assert q[1..][i - 1..] == q[i..];
      KeepIsLongestSuffix(q[1..], cap, i - 1);
    }
  }

  // ---- the queue with the record of what left it ----------------------------------

  datatype Fate = Drained | Dropped
  datatype Settled = Settled(r: Record, fate: Fate)
  /** `settled` holds every record that left the queue, oldest first. */
  datatype Log = Log(settled: seq<Settled>, queue: seq<Record>)

  const EMPTY := Log([], [])

  /** Everything ever pushed, in push order. */
  function Pushed(log: Log): seq<Record> {
    Records(log.settled) + log.queue
  }

  function Records(settled: seq<Settled>): (rs: seq<Record>)
    ensures |rs| == |settled|
  {
    if settled == [] then [] else Records(Front(settled)) + [Last(settled).r]
  }

  function Front<T>(s: seq<T>): seq<T>
    requires s != []
  {
    s[..|s| - 1]
  }

  function Last<T>(s: seq<T>): T
    requires s != []
  {
    s[|s| - 1]
  }

  function DrainedRecords(settled: seq<Settled>): seq<Record> {
    if settled == [] then []
    else DrainedRecords(Front(settled)) + (if Last(settled).fate == Drained then [Last(settled).r] else [])
  }

  function DroppedCount(settled: seq<Settled>): nat {
    if settled == [] then 0 else DroppedCount(Front(settled)) + (if Last(settled).fate == Dropped then 1 else 0)
  }

  /** `g_dropped++` on every drop, a 16-bit counter. */
  function DropCounter(settled: seq<Settled>): u16 {
    if settled == [] then 0
    else
      var before := DropCounter(Front(settled));
      if Last(settled).fate == Dropped then (before + 1) % 0x1_0000 else before
  }

  lemma {:induction false} DropCounterCounts(settled: seq<Settled>)
    ensures DropCounter(settled) == DroppedCount(settled) % 0x1_0000
  {
    if settled != [] {
      DropCounterCounts(Front(settled));
    }
  }

  /** The positions of the drained records among all settled ones. */
  function DrainedIndices(settled: seq<Settled>): seq<nat> {
    if settled == [] then []
    else DrainedIndices(Front(settled)) + (if Last(settled).fate == Drained then [|settled| - 1] else [])
  }

  predicate Increasing(ix: seq<nat>) {
    forall i :: 0 < i < |ix| ==> ix[i - 1] < ix[i]
  }

  /** Drained records are pushed records, in push order, none twice. */
  lemma {:induction false} DrainedInPushOrder(log: Log)
    ensures var ix := DrainedIndices(log.settled);
            && |DrainedRecords(log.settled)| == |ix|
            && Increasing(ix)
            && forall i :: 0 <= i < |ix| ==>
                 ix[i] < |log.settled| && DrainedRecords(log.settled)[i] == Pushed(log)[ix[i]]
    decreases |log.settled|
  {
    if log.settled != [] {
      var before := Log(Front(log.settled), [Last(log.settled).r] + log.queue);
      DrainedInPushOrder(before);
      Associative(Records(Front(log.settled)), [Last(log.settled).r], log.queue);
      assert Pushed(before) == Pushed(log);
    }
  }

  /** Conservation: every pushed record is drained, counted as dropped, or still queued. */
  lemma {:induction false} Conservation(log: Log)
    ensures |Pushed(log)| == |DrainedRecords(log.settled)| + DroppedCount(log.settled) + |log.queue|
    decreases |log.settled|
  {
    if log.settled != [] {
      Conservation(Log(Front(log.settled), log.queue));
    }
  }

  function Settle(log: Log, fate: Fate): Log
    requires log.queue != []
  {
    Log(log.settled + [Settled(log.queue[0], fate)], log.queue[1..])
  }

  lemma SettleEffect(log: Log, fate: Fate)
    requires log.queue != []
    ensures var log' := Settle(log, fate);
            && Pushed(log') == Pushed(log)
            && DrainedRecords(log'.settled)
               == DrainedRecords(log.settled) + (if fate == Drained then [log.queue[0]] else [])
            && DroppedCount(log'.settled) == DroppedCount(log.settled) + (if fate == Dropped then 1 else 0)
  {
    var x := Settled(log.queue[0], fate);
    assert Front(log.settled + [x]) == log.settled;
    Associative(Records(log.settled), [log.queue[0]], log.queue[1..]);
    assert [log.queue[0]] + log.queue[1..] == log.queue;
  }

  lemma SettleCounts(log: Log, fate: Fate)
    requires log.queue != []
    ensures DropCounter(Settle(log, fate).settled)
         == if fate == Dropped then (DropCounter(log.settled) + 1) % 0x1_0000 else DropCounter(log.settled)
  {
    assert Front(Settle(log, fate).settled) == log.settled;
  }

  // ---- push ------------------------------------------------------------------------

  /** Oldest records are dropped until `r` fits. */
  function MakeRoom(log: Log, r: Record): Log
    decreases |log.queue|
  {
    if log.queue != [] && TotalSize(log.queue) + Size(r) > RING_SIZE then MakeRoom(Settle(log, Dropped), r) else log
  }

  /** One ring_push. */
  function Push(log: Log, r: Record): Log {
    var room := MakeRoom(log, r);
    Log(room.settled, room.queue + [r])
  }

  /** After a push the queue is the longest suffix of old-plus-new that fits the ring
      (KeepIsLongestSuffix), and every record it lost is counted. */
  lemma {:induction false} PushKeepsLongestSuffix(log: Log, r: Record)
    ensures Push(log, r).queue == Keep(log.queue + [r], 4096)
    ensures DroppedCount(Push(log, r).settled) == DroppedCount(log.settled) + |log.queue| + 1 - |Push(log, r).queue|
    decreases |log.queue|
  {
    SizeWith(log.queue, r);
    if log.queue != [] && TotalSize(log.queue) + Size(r) > RING_SIZE {
      SettleEffect(log, Dropped);
      PushKeepsLongestSuffix(Settle(log, Dropped), r);
      KeepDrops(log.queue, r);
    }
  }

  lemma SizeWith(q: seq<Record>, r: Record)
    ensures TotalSize(q + [r]) == TotalSize(q) + Size(r)
  {
    TotalSizeConcat(q, [r]);
    assert TotalSize([r]) == Size(r) + TotalSize([]);
  }

  lemma KeepDrops(q: seq<Record>, r: Record)
    requires q != [] && TotalSize(q + [r]) > RING_SIZE
    ensures Keep(q + [r], RING_SIZE) == Keep(q[1..] + [r], RING_SIZE)
  {
    assert (q + [r])[1..] == q[1..] + [r];
  }

  /** A push adds its record to the pushed ones and drains nothing. */
  lemma {:induction false} PushEffect(log: Log, r: Record)
    ensures Pushed(Push(log, r)) == Pushed(log) + [r]
    ensures DrainedRecords(Push(log, r).settled) == DrainedRecords(log.settled)
    decreases |log.queue|
  {
    if log.queue != [] && TotalSize(log.queue) + Size(r) > RING_SIZE {
      SettleEffect(log, Dropped);
      PushEffect(Settle(log, Dropped), r);
    } else {
      Associative(Records(log.settled), log.queue, [r]);
    }
  }

  function PushAll(log: Log, rs: seq<Record>): Log
    decreases rs
  {
    if rs == [] then log else PushAll(Push(log, rs[0]), rs[1..])
  }

  lemma {:induction false} PushAllEffect(log: Log, rs: seq<Record>)
    ensures Pushed(PushAll(log, rs)) == Pushed(log) + rs
    ensures DrainedRecords(PushAll(log, rs).settled) == DrainedRecords(log.settled)
    decreases rs
  {
    if rs == [] {
      assert Pushed(log) + rs == Pushed(log);
    } else {
      PushEffect(log, rs[0]);
      PushAllEffect(Push(log, rs[0]), rs[1..]);
      Regroup(Pushed(log), rs);
    }
  }

  lemma Regroup<T>(a: seq<T>, b: seq<T>)
    requires b != []
    ensures a + b == a + [b[0]] + b[1..]
  {
  }

  // ---- the drain, one lock section per record -----------------------------------------

  /** Drains whole records into `room` bytes; the records `gaps(k)` are pushed by other
      tasks just before the k-th lock section. */
  function Drain(log: Log, room: nat, gaps: nat -> seq<Record>, k: nat): (Log, seq<Record>)
    decreases room
  {
    var log1 := PushAll(log, gaps(k));
    if log1.queue == [] || Size(log1.queue[0]) > room then (log1, [])
    else
      var r := log1.queue[0];
      var (log2, rs) := Drain(Settle(log1, Drained), room - Size(r), gaps, k + 1);
      (log2, [r] + rs)
  }

  /** A drain under way: `done` is already in the packet. */
  function Continue(done: seq<Record>, log: Log, room: nat, gaps: nat -> seq<Record>, k: nat): (Log, seq<Record>)
  {
    var (log', rs) := Drain(log, room, gaps, k);
    (log', done + rs)
  }

  lemma ContinueFromStart(log: Log, room: nat, gaps: nat -> seq<Record>)
    ensures Continue([], log, room, gaps, 0) == Drain(log, room, gaps, 0)
  {
    var (log', rs) := Drain(log, room, gaps, 0);
    assert [] + rs == rs;
  }

  lemma ContinueStep(done: seq<Record>, log: Log, room: nat, gaps: nat -> seq<Record>, k: nat)
    ensures var log1 := PushAll(log, gaps(k));
            if log1.queue == [] || Size(log1.queue[0]) > room then Continue(done, log, room, gaps, k) == (log1, done)
            else
              var r := log1.queue[0];
              Continue(done, log, room, gaps, k)
                == Continue(done + [r], Settle(log1, Drained), room - Size(r), gaps, k + 1)
  {
    var log1 := PushAll(log, gaps(k));
    if log1.queue == [] || Size(log1.queue[0]) > room {
      assert done + [] == done;
    } else {
      var r := log1.queue[0];
      Regroup(done, [r] + Drain(Settle(log1, Drained), room - Size(r), gaps, k + 1).1);
    }
  }

  /** Whatever is pushed meanwhile, a drain only appends to the drained records exactly
      what the packet carries, and the packet fits. */
  lemma {:induction false} DrainConserves(log: Log, room: nat, gaps: nat -> seq<Record>, k: nat)
    ensures var (log', rs) := Drain(log, room, gaps, k);
            && DrainedRecords(log'.settled) == DrainedRecords(log.settled) + rs
            && TotalSize(rs) <= room
    decreases room
  {
    var log1 := PushAll(log, gaps(k));
    PushAllEffect(log, gaps(k));
    if !(log1.queue == [] || Size(log1.queue[0]) > room) {
      var r := log1.queue[0];
      SettleEffect(log1, Drained);
      DrainConserves(Settle(log1, Drained), room - Size(r), gaps, k + 1);
      var rs := Drain(Settle(log1, Drained), room - Size(r), gaps, k + 1).1;
      Regroup(DrainedRecords(log.settled), [r] + rs);
      TotalSizeConcat([r], rs);
    }
  }

  /** The lines other tasks pushed during a drain. */
  function Arrivals(log: Log, room: nat, gaps: nat -> seq<Record>, k: nat): seq<Record>
    decreases room
  {
    var log1 := PushAll(log, gaps(k));
    if log1.queue == [] || Size(log1.queue[0]) > room then gaps(k)
    else gaps(k) + Arrivals(Settle(log1, Drained), room - Size(log1.queue[0]), gaps, k + 1)
  }

  /** A drain forgets no pushed record. */
  lemma {:induction false} DrainKeepsPushed(log: Log, room: nat, gaps: nat -> seq<Record>, k: nat)
    ensures Pushed(Drain(log, room, gaps, k).0) == Pushed(log) + Arrivals(log, room, gaps, k)
    decreases room
  {
    var log1 := PushAll(log, gaps(k));
    PushAllEffect(log, gaps(k));
    if !(log1.queue == [] || Size(log1.queue[0]) > room) {
      var log2 := Settle(log1, Drained);
      var room' := room - Size(log1.queue[0]);
      SettleEffect(log1, Drained);
      DrainKeepsPushed(log2, room', gaps, k + 1);
      Associative(Pushed(log), gaps(k), Arrivals(log2, room', gaps, k + 1));
    }
  }

  /** One lc_log_net_build_packet call: nothing for a payload that cannot hold one byte of
      text, nothing when the ring is seen empty. */
  function Flush(log: Log, max: nat, gaps: nat -> seq<Record>): (Log, seq<Record>)
  {
    if max < HEADER + OVERHEAD + 1 || log.queue == [] then (log, []) else Drain(log, max - HEADER, gaps, 0)
  }

  lemma FlushConserves(log: Log, max: nat, gaps: nat -> seq<Record>)
    ensures var (log', rs) := Flush(log, max, gaps);
            && DrainedRecords(log'.settled) == DrainedRecords(log.settled) + rs
            && (rs != [] ==> HEADER + TotalSize(rs) <= max)
  {
    if !(max < HEADER + OVERHEAD + 1 || log.queue == []) {
      DrainConserves(log, max - HEADER, gaps, 0);
    }
  }

  /** Everything that can happen to the ring: a line from any task, or a flush during which
      other tasks push lines. */
  datatype Op = Line(r: Record) | Flushed(max: nat, gaps: nat -> seq<Record>)

  /** The log after a run, and the records of each flush. */
  function Run(log: Log, ops: seq<Op>): (Log, seq<seq<Record>>)
    decreases ops
  {
    if ops == [] then (log, [])
    else match ops[0]
      case Line(r) => Run(Push(log, r), ops[1..])
      case Flushed(max, gaps) =>
        var (log1, rs) := Flush(log, max, gaps);
        var (log2, ps) := Run(log1, ops[1..]);
        (log2, [rs] + ps)
  }

  function Flatten(packets: seq<seq<Record>>): seq<Record> {
    if packets == [] then [] else packets[0] + Flatten(packets[1..])
  }

  /** Over every run, the records of all packets together are exactly the drained ones;
      with DrainedInPushOrder and Conservation: pushed records, in push order, without
      duplicates, every other record being counted as dropped or still queued. */
  lemma {:induction false} PacketsCarryTheDrainedRecords(log: Log, ops: seq<Op>)
    ensures var (log', ps) := Run(log, ops); DrainedRecords(log'.settled) == DrainedRecords(log.settled) + Flatten(ps)
    decreases ops
  {
    if ops != [] {
      match ops[0]
      case Line(r) =>
        PushEffect(log, r);
        PacketsCarryTheDrainedRecords(Push(log, r), ops[1..]);
      case Flushed(max, gaps) =>
        FlushConserves(log, max, gaps);
        var (log1, rs) := Flush(log, max, gaps);
        PacketsCarryTheDrainedRecords(log1, ops[1..]);
        FlattenFirst(DrainedRecords(log.settled), rs, Run(log1, ops[1..]).1);
    }
  }

  lemma FlattenFirst(before: seq<Record>, rs: seq<Record>, ps: seq<seq<Record>>)
    ensures before + rs + Flatten(ps) == before + Flatten([rs] + ps)
  {
  }

  /** Every record pushed during a run, in order: the lines, and what other tasks pushed while a
      flush was draining. */
  function Incoming(log: Log, ops: seq<Op>): seq<Record>
    decreases ops
  {
    if ops == [] then []
    else match ops[0]
      case Line(r) => [r] + Incoming(Push(log, r), ops[1..])
      case Flushed(max, gaps) =>
        FlushArrivals(log, max, gaps) + Incoming(Flush(log, max, gaps).0, ops[1..])
  }

  /** Nothing pushed during a run is forgotten, and nothing else enters. */
  lemma {:induction false} RunKeepsPushed(log: Log, ops: seq<Op>)
    ensures Pushed(Run(log, ops).0) == Pushed(log) + Incoming(log, ops)
    decreases ops
  {
    if ops == [] {
      assert Pushed(log) + [] == Pushed(log);
    } else {
      match ops[0]
      case Line(r) =>
        PushEffect(log, r);
        RunKeepsPushed(Push(log, r), ops[1..]);
        Associative(Pushed(log), [r], Incoming(Push(log, r), ops[1..]));
      case Flushed(max, gaps) =>
        var log1, rest := Flush(log, max, gaps).0, ops[1..];
        RunKeepsPushed(log1, rest);
        FlushKeepsPushed(log, max, gaps);
        Associative(Pushed(log), FlushArrivals(log, max, gaps), Incoming(log1, rest));
    }
  }

  /** The lines other tasks pushed during a flush. */
  function FlushArrivals(log: Log, max: nat, gaps: nat -> seq<Record>): seq<Record> {
    if max < HEADER + OVERHEAD + 1 || log.queue == [] then [] else Arrivals(log, max - HEADER, gaps, 0)
  }

  lemma FlushKeepsPushed(log: Log, max: nat, gaps: nat -> seq<Record>)
    ensures Pushed(Flush(log, max, gaps).0) == Pushed(log) + FlushArrivals(log, max, gaps)
  {
    if max < HEADER + OVERHEAD + 1 || log.queue == [] {
      assert Pushed(log) + [] == Pushed(log);
    } else {
      DrainKeepsPushed(log, max - HEADER, gaps, 0);
    }
  }

  /** Conservation over every run from boot, with pushes at every lock boundary of every flush: the
      records that came in are those in the packets, those counted as dropped, and those still
      queued; and the packets hold records that came in, in their order, none twice. */
  lemma RunConserves(ops: seq<Op>)
    ensures var (log, packets) := Run(EMPTY, ops); var all := Incoming(EMPTY, ops);
            && |all| == |Flatten(packets)| + DroppedCount(log.settled) + |log.queue|
            && var ix := DrainedIndices(log.settled);
               && |ix| == |Flatten(packets)| && Increasing(ix)
               && forall i :: 0 <= i < |ix| ==> ix[i] < |all| && Flatten(packets)[i] == all[ix[i]]
  {
    var (log, packets) := Run(EMPTY, ops);
    RunKeepsPushed(EMPTY, ops);
    PacketsCarryTheDrainedRecords(EMPTY, ops);
    assert Pushed(EMPTY) + Incoming(EMPTY, ops) == Incoming(EMPTY, ops);
    assert DrainedRecords(EMPTY.settled) + Flatten(packets) == Flatten(packets);
    Conservation(log);
    DrainedInPushOrder(log);
  }

  // ---- progress when nobody pushes ------------------------------------------------------

  function Quiet(): nat -> seq<Record> {
    _ => []
  }

  /** With nobody pushing, the packet is the longest prefix of the queue that fits. */
  lemma {:induction false} QuietDrainIsLongestPrefix(log: Log, room: nat, k: nat)
    ensures var (log', rs) := Drain(log, room, Quiet(), k);
            && log.queue == rs + log'.queue
            && (log'.queue != [] ==> TotalSize(rs) + Size(log'.queue[0]) > room)
    decreases room
  {
    if !(log.queue == [] || Size(log.queue[0]) > room) {
      var r := log.queue[0];
      var log1 := Settle(log, Drained);
      QuietDrainIsLongestPrefix(log1, room - Size(r), k + 1);
      var (log', rs) := Drain(log1, room - Size(r), Quiet(), k + 1);
      HeadFirst(log.queue, rs, log'.queue);
      TotalSizeConcat([r], rs);
    }
  }

  lemma HeadFirst<T>(q: seq<T>, a: seq<T>, b: seq<T>)
    requires q != [] && q[1..] == a + b
    ensures q == [q[0]] + a + b
  {
  }

  /** Every text is capped at 122 bytes, as log_emit does. */
  predicate Capped(q: seq<Record>) {
    forall i :: 0 <= i < |q| ==> |q[i].text| <= MAX_LINE
  }

  /** A packet of at least 132 bytes always makes progress on a non-empty ring. */
  lemma QuietDrainProgress(log: Log, max: nat)
    requires Capped(log.queue) && log.queue != []
    requires max >= HEADER + OVERHEAD + MAX_LINE
    ensures var (log', rs) := Drain(log, max - HEADER, Quiet(), 0);
            rs != [] && |log'.queue| < |log.queue| && Capped(log'.queue)
  {
    QuietDrainIsLongestPrefix(log, max - HEADER, 0);
    var (log', rs) := Drain(log, max - HEADER, Quiet(), 0);
    assert |log.queue| == |rs| + |log'.queue|;
    assert forall i :: 0 <= i < |log'.queue| ==> log'.queue[i] == log.queue[|rs| + i];
  }

  predicate NoneEmpty(q: seq<Record>) {
    forall i :: 0 <= i < |q| ==> q[i].text != []
  }

  /** With no one pushing meanwhile, a flush gives a packet exactly when there is a record and
      the oldest one fits behind the four bytes of header. */
  lemma FlushesIff(log: Log, max: nat)
    requires NoneEmpty(log.queue)
    ensures var (log', rs) := Flush(log, max, Quiet());
            && (rs != [] <==> log.queue != [] && HEADER + Size(log.queue[0]) <= max)
            && (rs == [] ==> log' == log)
  {
    if log.queue != [] {
      assert log.queue[0].text != [];
    }
  }

  /** The packets that repeated calls emit until the ring is empty. */
  function DrainAll(log: Log, max: nat): (packets: seq<seq<Record>>)
    requires Capped(log.queue)
    requires max >= HEADER + OVERHEAD + MAX_LINE
    decreases |log.queue|
  {
    if log.queue == [] then []
    else
      QuietDrainProgress(log, max);
      var (log', rs) := Drain(log, max - HEADER, Quiet(), 0);
      [rs] + DrainAll(log', max)
  }

  /** No packet is empty and every packet with its header fits `max` bytes. */
  predicate Sendable(packets: seq<seq<Record>>, max: nat) {
    packets == []
    || (packets[0] != [] && HEADER + TotalSize(packets[0]) <= max && Sendable(packets[1..], max))
  }

  /** Repeated calls end, and send the whole queue in order. */
  lemma {:induction false} DrainAllEmptiesTheRing(log: Log, max: nat)
    requires Capped(log.queue)
    requires max >= HEADER + OVERHEAD + MAX_LINE
    ensures Flatten(DrainAll(log, max)) == log.queue
    ensures Sendable(DrainAll(log, max), max)
    decreases |log.queue|
  {
    if log.queue != [] {
      QuietDrainProgress(log, max);
      QuietDrainIsLongestPrefix(log, max - HEADER, 0);
      DrainConserves(log, max - HEADER, Quiet(), 0);
      var (log', rs) := Drain(log, max - HEADER, Quiet(), 0);
      DrainAllEmptiesTheRing(log', max);
      assert ([rs] + DrainAll(log', max))[1..] == DrainAll(log', max);
    }
  }

  // ---- line intake -----------------------------------------------------------------------

  const INFO := 1
  type Level = n: nat | n <= INFO
  const TRUNCATED := 0x80

  /** A line without its trailing newlines and carriage returns. */
  function Stripped(text: seq<byte>): (s: seq<byte>)
    ensures s <= text && (s != [] ==> Last(s) != 10 && Last(s) != 13)
    ensures forall i :: |s| <= i < |text| ==> text[i] == 10 || text[i] == 13
  {
    if text != [] && (Last(text) == 10 || Last(text) == 13) then Stripped(Front(text)) else text
  }

  /** The record that log_emit stores for a line, if it stores one. */
  function Emitted(level: byte, text: seq<byte>, truncated: bool, tick: Tick, threshold: nat, inLog: bool)
    : (rs: seq<Record>)
    ensures Capped(rs) && |rs| <= 1
  {
    var clamped := if level > INFO then INFO else level;
    var line := Stripped(text);
    var cut := |line| > MAX_LINE;
    if inLog || clamped < threshold || line == [] then []
    else [Record(clamped + (if truncated || cut then TRUNCATED else 0), tick, if cut then line[..MAX_LINE] else line)]
  }

  /** `n` bytes are left of a line once carriage returns and newlines at its end are gone. */
  predicate LineLength(text: seq<byte>, n: nat) {
    && n <= |text| && (n > 0 ==> text[n - 1] != 10 && text[n - 1] != 13)
    && forall i :: n <= i < |text| ==> text[i] == 10 || text[i] == 13
  }

  /** DEBUG is 0, INFO and anything above count as 1. */
  function Clamped(severity: byte): nat {
    if severity == 0 then 0 else 1
  }

  /** The lines that enter the ring: none while a flush is building its packet, none below the
      threshold, none that are empty. */
  predicate Recorded(severity: byte, n: nat, threshold: nat, inLog: bool) {
    !inLog && Clamped(severity) >= threshold && n > 0
  }

  /** The record of a line of `n` bytes: at most 122 of them, the clock, the level in the low bits, and
      0x80 when the formatter or the cap cut the line. */
  predicate RecordOf(r: Record, severity: byte, text: seq<byte>, n: nat, truncated: bool, tick: u32)
    requires n <= |text|
  {
    && r.text == text[..if n < 122 then n else 122]
    && FromLe32(r.tick) == tick
    && r.flags % 16 == Clamped(severity)
    && r.flags / 16 == if truncated || n > 122 then 8 else 0
  }

  lemma OneLineLength(text: seq<byte>, m: nat, n: nat)
    requires LineLength(text, m) && LineLength(text, n)
    ensures m == n
  {
  }

  /** Which lines are stored, and as what, for every line and every state of the log. */
  lemma EmittedIff(severity: byte, text: seq<byte>, n: nat, truncated: bool, tick: u32, threshold: nat, inLog: bool)
    requires LineLength(text, n)
    ensures var rs := Emitted(severity, text, truncated, Le32(tick), threshold, inLog);
            && (rs != [] <==> Recorded(severity, n, threshold, inLog))
            && (rs != [] ==> |rs| == 1 && RecordOf(rs[0], severity, text, n, truncated, tick))
  {
    OneLineLength(text, n, |Stripped(text)|);
    assert Stripped(text) == text[..n];
    Le32RoundTrip(tick);
  }

  /** Lines pushed through log_emit keep every queued text within 122 bytes. */
  lemma PushKeepsCapped(log: Log, r: Record)
    requires Capped(log.queue) && |r.text| <= MAX_LINE
    ensures Capped(Push(log, r).queue)
  {
    PushKeepsLongestSuffix(log, r);
    CappedAppend(log.queue, r);
    var all := log.queue + [r];
    CappedSuffix(all, |all| - |Keep(all, RING_SIZE)|);
  }

  lemma CappedAppend(q: seq<Record>, r: Record)
    requires Capped(q) && |r.text| <= MAX_LINE
    ensures Capped(q + [r])
  {
  }

  lemma CappedSuffix(q: seq<Record>, i: nat)
    requires Capped(q) && i <= |q|
    ensures Capped(q[i..])
  {
    assert forall j :: 0 <= j < |q[i..]| ==> q[i..][j] == q[i + j];
  }
}
