/** components/lccore/lc_log.c: the 4096-byte circular log buffer and its drain into
    LOG_MSG payloads. Every method states its effect on the queue of LogQueue. */
module LogRing {
  import opened Bytes
  import opened LogQueue

  type Index = i: nat | i < RING_SIZE

  /** `i % RING_SIZE` for the indices that occur. */
  function Wrap(i: nat): nat
    requires i < 2 * RING_SIZE
  {
    if i < RING_SIZE then i else i - RING_SIZE
  }

  lemma SliceOfRest<T>(s: seq<T>, i: nat, n: nat)
    requires i + n <= |s|
    ensures s[i..][..n] == s[i..i + n] && s[i..][n..] == s[i + n..]
  {
  }

  class Ring {
    const ring: array<byte>
    var head: Index
    var tail: Index
    var used: nat
    var dropped: u16
    var seqNo: u16
    var level: Level
    var inLog: bool
    ghost var contents: seq<byte>
    ghost var log: Log

    /** The write index is `used` bytes after the read index, and `contents` are the bytes
        in between. */
    ghost predicate Framed()
      reads this`head, this`tail, this`used, this`contents, ring
    {
      && ring.Length == RING_SIZE
      && used <= RING_SIZE
      && head == Wrap(tail + used)
      && |contents| == used
      && forall i :: 0 <= i < used ==> contents[i] == ring[Wrap(tail + i)]
    }

    /** The circular bytes are the layout of the queued records, all of them and nothing else. */
    ghost predicate Valid()
      reads this`head, this`tail, this`used, this`contents, this`dropped, this`log, ring
    {
      && Framed()
      && contents == StoredAll(log.queue)
      && dropped == DropCounter(log.settled)
    }

    /** lc_log_init / lc_log_test_reset(seqNo). */
    constructor (firstSeq: u16)
      ensures Valid() && log == EMPTY && seqNo == firstSeq && dropped == 0 && !inLog && level == INFO
      ensures fresh(ring)
    {
      ring := new byte[RING_SIZE](_ => 0);
      head, tail, used, dropped := 0, 0, 0, 0;
      seqNo, level, inLog := firstSeq, INFO, false;
      contents, log := [], EMPTY;
    }

    // ---- ring primitives -------------------------------------------------------------

    method Put(b: byte)
      requires Framed() && used < RING_SIZE
      modifies this`head, this`used, this`contents, ring
      ensures Framed()
      ensures contents == old(contents) + [b]
    {
      ring[head] := b;
      head := (head + 1) % RING_SIZE;
      used := used + 1;
      contents := contents + [b];
    }

    method Get() returns (b: byte)
      requires Framed() && used > 0
      modifies this`tail, this`used, this`contents
      ensures Framed()
      ensures b == old(contents)[0] && contents == old(contents)[1..]
    {
      b := ring[tail];
      Skip(1);
    }

    /** Moves the read index past `n` bytes. */
    method Skip(n: nat)
      requires Framed() && n <= used
      modifies this`tail, this`used, this`contents
      ensures Framed() && contents == old(contents)[n..]
    {
      tail := (tail + n) % RING_SIZE;
      used := used - n;
      contents := contents[n..];
    }

    /** A run of ring_put calls. */
    method PutAll(bytes: seq<byte>)
      requires Framed() && used + |bytes| <= RING_SIZE
      modifies this`head, this`used, this`contents, ring
      ensures Framed()
      ensures contents == old(contents) + bytes
    {
      for i := 0 to |bytes|
        invariant Framed()
        invariant contents == old(contents) + bytes[..i]
      {
        Put(bytes[i]);
        assert bytes[..i + 1] == bytes[..i] + [bytes[i]];
      }
    }

    /** A run of ring_get calls. */
    method GetAll(n: nat) returns (bytes: seq<byte>)
      requires Framed() && n <= used
      modifies this`tail, this`used, this`contents
      ensures Framed() && bytes == old(contents)[..n] && contents == old(contents)[n..]
    {
      bytes := [];
      for i := 0 to n
        invariant Framed() && bytes == old(contents)[..i] && contents == old(contents)[i..]
      {
        var b := Get();
        bytes := bytes + [b];
      }
    }

    // ---- push ------------------------------------------------------------------------

    /** Removes the oldest whole record. The source's corruption branch, taken when that
        record is longer than the used bytes, is unreachable. */
    method DropOldest()
      requires Valid() && log.queue != []
      modifies this`tail, this`used, this`contents, this`dropped, this`log
      ensures Valid() && log == Settle(old(log), Dropped)
    {
      FrontStored(log.queue, contents);
      assert contents[0] == ring[tail];
      var rec := OVERHEAD + ring[tail];
      if rec > used {
        assert false;
      }
      Skip(rec);
      dropped := (dropped + 1) % 0x1_0000;
      SettleCounts(log, Dropped);
      log := Settle(log, Dropped);
    }

    /** The loop of ring_push: drop oldest records until the new one fits. */
    method MakeRoom(r: Record)
      requires Valid()
      modifies this`tail, this`used, this`contents, this`dropped, this`log
      ensures Valid() && used + Size(r) <= RING_SIZE
      ensures log == LogQueue.MakeRoom(old(log), r)
    {
      var need := OVERHEAD + |r.text|;
      while RING_SIZE - used < need
        invariant Valid()
        invariant LogQueue.MakeRoom(log, r) == LogQueue.MakeRoom(old(log), r)
        decreases used
      {
        assert TotalSize(log.queue) == used;
        DropOldest();
      }
      assert TotalSize(log.queue) == used;
    }

    /** The writes of ring_push: length, flags, tick, then the text. */
    method PutRecord(r: Record)
      requires Framed() && used + Size(r) <= RING_SIZE
      modifies this`head, this`used, this`contents, ring
      ensures Framed()
      ensures contents == old(contents) + Stored(r)
    {
      PutAll([|r.text|, r.flags] + r.tick);
      PutAll(r.text);
      Associative(old(contents), [|r.text|, r.flags] + r.tick, r.text);
    }

    /** ring_push(flags, tick, text, len). */
    method Push(r: Record)
      requires Valid()
      modifies this`head, this`tail, this`used, this`contents, this`dropped, this`log, ring
      ensures Valid() && log == LogQueue.Push(old(log), r)
    {
      MakeRoom(r);
      PutRecord(r);
      StoredAllAppend(log.queue, r);
      log := Log(log.settled, log.queue + [r]);
    }

    // ---- line intake -----------------------------------------------------------------

    /** lc_log_set_level clamps to DEBUG..INFO. */
    method SetLevel(value: byte)
      modifies this`level
      ensures level as int == if value > INFO then INFO else value as int
    {
      level := if value > INFO then INFO else value;
    }

    /** The length of a line without its trailing line ends. */
    method StripLength(text: seq<byte>) returns (len: nat)
      ensures len <= |text| && Stripped(text) == text[..len]
    {
      len := |text|;
      assert text[..len] == text;
      while len != 0 && (text[len - 1] == 10 || text[len - 1] == 13)
        invariant len <= |text| && Stripped(text[..len]) == Stripped(text)
      {
        len := len - 1;
        assert text[..len] == Front(text[..len + 1]);
      }
    }

    /** log_emit: strip, cap, filter, then one push. */
    method LogEmit(severity: byte, text: seq<byte>, truncated: bool, tick: u32)
      returns (ghost n: nat, ghost stored: seq<Record>)
      requires Valid()
      modifies this`head, this`tail, this`used, this`contents, this`dropped, this`log, ring
      ensures Valid()
      ensures log == PushAll(old(log), stored)
      ensures stored == Emitted(severity, text, truncated, Le32(tick), level, inLog)
      ensures LineLength(text, n) && (stored != [] <==> Recorded(severity, n, level, inLog))
      ensures stored != [] ==> |stored| == 1 && RecordOf(stored[0], severity, text, n, truncated, tick)
    {
      var clamped: byte := if severity > INFO then INFO else severity;
      var len := StripLength(text);
      n, stored := len, [];
      EmittedIff(severity, text, n, truncated, tick, level, inLog);
      var cut := truncated;
      ghost var line := text[..len];
      if len > MAX_LINE {
        len, cut := MAX_LINE, true;
      }
      if inLog || clamped as int < level || len == 0 {
        return;
      }
      var flags: byte := clamped as int + (if cut then TRUNCATED else 0);
      assert text[..len] == if |line| > MAX_LINE then line[..MAX_LINE] else line;
      assert Emitted(severity, text, truncated, Le32(tick), level, inLog) == [Record(flags, Le32(tick), text[..len])];
      stored := [Record(flags, Le32(tick), text[..len])];
      Push(Record(flags, Le32(tick), text[..len]));
    }

    // ---- drain -----------------------------------------------------------------------

    /** Lines pushed by other tasks between two lock sections of a drain. */
    method OtherTasks(rs: seq<Record>)
      requires Valid()
      modifies this`head, this`tail, this`used, this`contents, this`dropped, this`log, ring
      ensures Valid() && log == PushAll(old(log), rs)
      decreases rs
    {
      if rs != [] {
        Push(rs[0]);
        OtherTasks(rs[1..]);
      }
    }

    /** The ring_get calls of one drain section, their results in wire order. */
    method TakeBytes() returns (bytes: seq<byte>)
      requires Framed() && used >= OVERHEAD && used >= OVERHEAD + contents[0] as int
      modifies this`tail, this`used, this`contents
      ensures Framed()
      ensures var s := old(contents); var n := OVERHEAD + s[0] as int;
              contents == s[n..] && bytes == [s[1]] + s[2..6] + [s[0]] + s[6..n]
    {
      ghost var s := contents;
      var textLen := Get();
      var flags := Get();
      var tick := GetAll(4);
      assert contents == s[6..] && tick == s[2..6];
      var text := GetAll(textLen);
      SliceOfRest(s, OVERHEAD, textLen);
      bytes := [flags] + tick + [textLen] + text;
    }

    /** One drain section: the oldest record leaves the ring. */
    method TakeRecord() returns (bytes: seq<byte>)
      requires Valid() && log.queue != []
      modifies this`tail, this`used, this`contents, this`log
      ensures Valid() && log == Settle(old(log), Drained) && bytes == Wire(old(log).queue[0])
    {
      FrontStored(log.queue, contents);
      bytes := TakeBytes();
      SettleCounts(log, Drained);
      log := Settle(log, Drained);
    }

    method StoreAt(payload: array<byte>, at: nat, bytes: seq<byte>)
      requires at + |bytes| <= payload.Length
      modifies payload
      ensures payload[..at + |bytes|] == old(payload[..at]) + bytes
    {
      forall i | 0 <= i < |bytes| {
        payload[at + i] := bytes[i];
      }
    }

    /** One lock section of the drain: the oldest record goes to `payload[at..]` if it fits
        below `max`. */
    method DrainSection(payload: array<byte>, at: byte, max: byte) returns (rec: nat)
      requires Valid() && payload != ring && at as int <= max as int <= payload.Length
      modifies this`tail, this`used, this`contents, this`log, payload
      ensures Valid() && at as int + rec <= max as int
      ensures rec == if old(log).queue == [] || at as int + Size(old(log).queue[0]) > max as int then 0
                     else Size(old(log).queue[0])
      ensures log == if rec == 0 then old(log) else Settle(old(log), Drained)
      ensures payload[..at as int + rec] == old(payload[..at]) + (if rec == 0 then [] else Wire(old(log).queue[0]))
    {
      rec := 0;
      if used == 0 {
        return;
      }
      FrontStored(log.queue, contents);
      assert contents[0] == ring[tail];
      var size := OVERHEAD + ring[tail] as int;
      if at as int + size <= max as int {
        rec := size;
        var bytes := TakeRecord();
        StoreAt(payload, at, bytes);
      }
    }

    /** One turn of the drain loop, after what other tasks pushed: `recs` are already in the
        packet, `goal` is where the drain ends. */
    method DrainTurn(payload: array<byte>, at: byte, max: byte, gaps: nat -> seq<Record>, k: nat,
                     ghost header: seq<byte>, ghost recs: seq<Record>, ghost goal: (Log, seq<Record>))
      returns (rec: nat, ghost recs': seq<Record>)
      requires Valid() && payload != ring && at as int <= max as int <= payload.Length
      requires at as int == |header| + TotalSize(recs) && payload[..at] == header + WireAll(recs)
      requires goal == Continue(recs, log, max as int - at as int, gaps, k)
      modifies this`head, this`tail, this`used, this`contents, this`dropped, this`log, ring, payload
      ensures Valid() && at as int + rec <= max as int && (rec == 0 ==> recs' == recs) && (rec != 0 ==> recs' != [])
      ensures at as int + rec == |header| + TotalSize(recs') && payload[..at as int + rec] == header + WireAll(recs')
      ensures goal == if rec != 0 then Continue(recs', log, max as int - at as int - rec, gaps, k + 1) else (log, recs')
    {
      ContinueStep(recs, log, max as int - at as int, gaps, k);
      OtherTasks(gaps(k));
      ghost var log1 := log;
      rec := DrainSection(payload, at, max);
      recs' := recs;
      if rec != 0 {
        ghost var r := log1.queue[0];
        WireAllAppend(recs, r);
        Associative(header, WireAll(recs), Wire(r));
        TotalSizeConcat(recs, [r]);
        recs' := recs + [r];
      }
    }

    /** The drain loop: whole records while they fit, behind the packet header. */
    method DrainInto(payload: array<byte>, max: byte, gaps: nat -> seq<Record>, ghost header: seq<byte>)
      returns (at: byte, ghost recs: seq<Record>)
      requires Valid() && payload != ring && HEADER <= max as int <= payload.Length
      requires |header| == HEADER && payload[..HEADER] == header
      modifies this`head, this`tail, this`used, this`contents, this`dropped, this`log, ring, payload
      ensures Valid() && (log, recs) == Drain(old(log), max as int - HEADER, gaps, 0)
      ensures at as int == HEADER + TotalSize(recs) && (recs == [] <==> at as int == HEADER)
      ensures at as int <= max as int && payload[..at] == header + WireAll(recs)
    {
      at, recs := HEADER, [];
      var k, rec := 0, 1;
      ghost var goal := Drain(log, max as int - HEADER, gaps, 0);
      ContinueFromStart(log, max as int - HEADER, gaps);
      while rec != 0
        invariant Valid() && HEADER <= at as int <= max as int && at as int == HEADER + TotalSize(recs)
        invariant recs == [] <==> at as int == HEADER
        invariant payload[..at] == header + WireAll(recs)
        invariant goal == if rec != 0 then Continue(recs, log, max as int - at as int, gaps, k) else (log, recs)
        decreases rec != 0, max as int - at as int
      {
        rec, recs := DrainTurn(payload, at, max, gaps, k, header, recs, goal);
        at := at as int + rec;
        k := k + 1;
      }
    }

    /** lc_log_net_build_packet(payload, max); a null payload is refused. */
    method BuildPacket(payload: array?<byte>, max: byte, gaps: nat -> seq<Record>)
      returns (off: byte, ghost recs: seq<Record>)
      requires Valid() && (payload != null ==> payload != ring && payload.Length >= max as int)
      modifies this`head, this`tail, this`used, this`contents, this`dropped, this`log, this`seqNo, this`inLog
      modifies ring, payload
      ensures Valid()
      ensures (log, recs) == if payload == null then (old(log), []) else Flush(old(log), max, gaps)
      ensures off as int == if recs == [] then 0 else HEADER + TotalSize(recs)
      ensures recs != [] ==> payload != null && off as int <= payload.Length
                             && payload[..off] == Le16(old(seqNo)) + Le16(old(dropped)) + WireAll(recs)
      ensures seqNo == if recs == [] then old(seqNo) else (old(seqNo) + 1) % 0x1_0000
    {
      off, recs := 0, [];
      if payload == null || max as int < HEADER + OVERHEAD + 1 {
        return;
      }
      inLog := true;
      if used != 0 {
        var header := Le16(seqNo) + Le16(dropped);
        StoreAt(payload, 0, header);
        off, recs := DrainInto(payload, max, gaps, header);
        if off as int > HEADER {
          seqNo := (seqNo + 1) % 0x1_0000;
        } else {
          off := 0;
        }
      }
      inLog := false;
    }
  }
}
