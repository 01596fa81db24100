/** The wire framing of components/lccore/comm_core.c:
    [ BB AA | id | size | cmd | payload | checksum ], with one-byte resynchronisation. */
module Framing {
  import opened Bytes

  const HEAD_LO := 0xBB
  const HEAD_HI := 0xAA
  const HEADER_SIZE := 5
  const MAX_PAYLOAD := 249
  const CMD_PING := 0xFA

  type Payload = p: seq<byte> | |p| <= MAX_PAYLOAD witness []
  datatype Packet = Packet(id: byte, cmd: byte, payload: Payload)

  /** `uint8_t` addition. */
  function Add8(a: byte, b: byte): byte {
    var s := a as int + b as int;
    if s < 256 then s else s - 256
  }

  function Sum8(s: seq<byte>): byte {
    if s == [] then 0 else Add8(Sum8(s[..|s| - 1]), s[|s| - 1])
  }

  /** The bytes the checksum covers: id to the last payload byte. */
  function Covered(p: Packet): seq<byte> {
    [p.id, |p.payload|, p.cmd] + p.payload
  }

  function Frame(p: Packet): (s: seq<byte>)
    ensures |s| == HEADER_SIZE + |p.payload| + 1
  {
    [HEAD_LO, HEAD_HI] + Covered(p) + [Sum8(Covered(p))]
  }

  datatype Verdict = Skip | Wait | Found(p: Packet)

  /** What the scanner decides at the front of the unread bytes. */
  function Judge(s: seq<byte>): (v: Verdict)
    requires |s| >= HEADER_SIZE
    ensures v.Found? ==> HEADER_SIZE + |v.p.payload| + 1 <= |s|
  {
    if s[0] != HEAD_LO || s[1] != HEAD_HI || s[3] as int > MAX_PAYLOAD then Skip
    else
      var end := HEADER_SIZE + s[3] as int;
      if |s| < end + 1 then Wait
      else if Sum8(s[2..end]) != s[end] then Skip
      else Found(Packet(s[2], s[4], s[HEADER_SIZE..end]))
  }

  function Total(s: seq<byte>): nat {
    if s == [] then 0 else Total(s[..|s| - 1]) + s[|s| - 1] as int
  }

  lemma {:induction false} SumIsTotal(s: seq<byte>)
    ensures Sum8(s) == Total(s) % 256
  {
    if s != [] {
      SumIsTotal(s[..|s| - 1]);
    }
  }

  /** A frame, byte by byte: BB AA, the number, the payload's length, the command, the payload, and the sum of
      everything from the number on, modulo 256. */
  lemma FrameBytes(p: Packet)
    ensures var s, n := Frame(p), |p.payload|;
            && |s| == n + 6 && s[0] == 0xBB && s[1] == 0xAA && s[2] == p.id && s[3] as int == n && s[4] == p.cmd
            && s[5..5 + n] == p.payload && s[5 + n] == Total(s[2..5 + n]) % 256
  {
    assert Frame(p)[2..5 + |p.payload|] == Covered(p);
    SumIsTotal(Covered(p));
  }

  /** The scanner finds a packet exactly when its frame is at the front, and waits exactly when
      a head and a legal length are there but not yet all the bytes; it skips a byte in every
      other case. */
  lemma JudgedIff(s: seq<byte>, p: Packet)
    requires |s| >= 5
    ensures Judge(s) == Found(p) <==> Frame(p) <= s
    ensures Judge(s) == Wait <==> s[0] == 0xBB && s[1] == 0xAA && s[3] <= 249 && |s| < 6 + s[3] as int
  {
    if Frame(p) <= s {
      FrameBytes(p);
      var end := 5 + |p.payload|;
      assert s[2..end] == Frame(p)[2..end] == Covered(p) && s[5..end] == p.payload;
    }
    if Judge(s) == Found(p) {
      var end := 5 + |p.payload|;
      assert s[2..end] == Covered(p);
      assert s[..end + 1] == Frame(p);
    }
  }

  /** The packets comm_core_input dispatches, and the number of bytes it consumes. */
  function Scan(s: seq<byte>): (r: (seq<Packet>, nat))
    ensures r.1 <= |s|
    decreases |s|
  {
    if |s| < HEADER_SIZE then ([], 0)
    else match Judge(s)
      case Skip => var (ps, n) := Scan(s[1..]); (ps, n + 1)
      case Wait => ([], 0)
      case Found(p) => var (ps, n) := Scan(s[|Frame(p)|..]); ([p] + ps, n + |Frame(p)|)
  }

  /** One step of the scan. */
  lemma ScanStep(s: seq<byte>)
    requires |s| >= HEADER_SIZE
    ensures Judge(s) == Skip ==> Scan(s).0 == Scan(s[1..]).0 && Scan(s).1 == Scan(s[1..]).1 + 1
    ensures Judge(s) == Wait ==> Scan(s).0 == [] && Scan(s).1 == 0
    ensures Judge(s).Found? ==>
              var rest := Scan(s[HEADER_SIZE + |Judge(s).p.payload| + 1..]);
              && Scan(s).0 != [] && Scan(s).0[0] == Judge(s).p && Scan(s).0[1..] == rest.0
              && Scan(s).1 == rest.1 + HEADER_SIZE + |Judge(s).p.payload| + 1
  {
  }

  // ---- however the stream is cut -----------------------------------------------------------

  lemma JudgeStable(s: seq<byte>, more: seq<byte>)
    requires |s| >= HEADER_SIZE && Judge(s) != Wait
    ensures Judge(s + more) == Judge(s)
  {
    var t, end := s + more, HEADER_SIZE + s[3] as int;
    if |s| > end {
      assert t[2..end] == s[2..end] && t[HEADER_SIZE..end] == s[HEADER_SIZE..end];
    }
  }

  /** The bytes a scan leaves for later. */
  function Unread(s: seq<byte>): seq<byte> {
    s[Scan(s).1..]
  }

  /** How far one verdict moves the scanner. */
  function Advance(s: seq<byte>): (k: nat)
    requires |s| >= HEADER_SIZE && Judge(s) != Wait
    ensures 0 < k <= |s|
  {
    if Judge(s) == Skip then 1 else |Frame(Judge(s).p)|
  }

  lemma UnreadStep(s: seq<byte>)
    requires |s| >= HEADER_SIZE && Judge(s) != Wait
    ensures Unread(s) == Unread(s[Advance(s)..])
  {
    DropDrop(s, Advance(s), Scan(s[Advance(s)..]).1);
  }

  /** Scanning a prefix, then its residue with the rest, is scanning everything at once. */
  lemma {:induction false} ScanSplit(a: seq<byte>, b: seq<byte>)
    ensures Scan(a + b).0 == Scan(a).0 + Scan(Unread(a) + b).0
    ensures Scan(a + b).1 == Scan(a).1 + Scan(Unread(a) + b).1
    decreases |a|
  {
    if |a| < HEADER_SIZE || Judge(a) == Wait {
      assert Unread(a) == a;
    } else {
      JudgeStable(a, b);
      ScanSplit(a[Advance(a)..], b);
      DropOfConcat(a, b, Advance(a));
      UnreadStep(a);
      if Judge(a).Found? {
        Associative([Judge(a).p], Scan(a[Advance(a)..]).0, Scan(Unread(a) + b).0);
      }
    }
  }

  lemma UnreadSplit(a: seq<byte>, b: seq<byte>)
    ensures Unread(a + b) == Unread(Unread(a) + b)
  {
    ScanSplit(a, b);
    DropOfConcat(a, b, Scan(a).1);
    DropDrop(a + b, Scan(a).1, Scan(Unread(a) + b).1);
  }

  lemma DropDrop<T>(s: seq<T>, i: nat, j: nat)
    requires i + j <= |s|
    ensures s[i..][j..] == s[i + j..]
  {
  }

  lemma DropOfConcat<T>(a: seq<T>, b: seq<T>, k: nat)
    requires k <= |a|
    ensures (a + b)[k..] == a[k..] + b
  {
  }

  lemma Associative4<T>(a: seq<T>, b: seq<T>, c: seq<T>, d: seq<T>)
    ensures a + b + c + d == a + (b + (c + d))
  {
  }

  /** What stays unread is shorter than the largest packet, so a 1024-byte buffer never fills. */
  lemma {:induction false} ResidueBound(s: seq<byte>)
    ensures |Unread(s)| <= HEADER_SIZE + MAX_PAYLOAD
    decreases |s|
  {
    if |s| >= HEADER_SIZE && Judge(s) != Wait {
      ResidueBound(s[Advance(s)..]);
    }
  }

  /** A scan leaves nothing a second scan could use. */
  lemma {:induction false} ResidueIsInert(s: seq<byte>)
    ensures Scan(Unread(s)) == ([], 0)
  {
    ScanSplit(s, []);
    assert s + [] == s && Unread(s) + [] == Unread(s);
  }

  /** Parse and compact: the packets of a list of receives, and the bytes kept. */
  function Receive(kept: seq<byte>, chunks: seq<seq<byte>>): (seq<Packet>, seq<byte>)
    decreases |chunks|
  {
    if chunks == [] then ([], kept)
    else
      var buf := kept + chunks[0];
      var (more, rest) := Receive(Unread(buf), chunks[1..]);
      (Scan(buf).0 + more, rest)
  }

  function Join(chunks: seq<seq<byte>>): seq<byte> {
    if chunks == [] then [] else chunks[0] + Join(chunks[1..])
  }

  lemma {:induction false} ReceiveIsScan(kept: seq<byte>, chunks: seq<seq<byte>>)
    requires Scan(kept) == ([], 0)
    ensures var s := kept + Join(chunks); Receive(kept, chunks) == (Scan(s).0, Unread(s))
    decreases |chunks|
  {
    if chunks == [] {
      assert kept + [] == kept;
    } else {
      var buf, later := kept + chunks[0], Join(chunks[1..]);
      ResidueIsInert(buf);
      ReceiveIsScan(Unread(buf), chunks[1..]);
      ScanSplit(buf, later);
      UnreadSplit(buf, later);
      Associative(kept, chunks[0], later);
    }
  }

  /** Chunk invariance: however TCP cuts the stream, the same packets are dispatched in the
      same order, and the residue is the one of the whole stream. */
  lemma ChunkInvariance(chunks: seq<seq<byte>>)
    ensures var s := Join(chunks);
            && Receive([], chunks) == (Scan(s).0, Unread(s))
            && |Receive([], chunks).1| <= HEADER_SIZE + MAX_PAYLOAD
  {
    ReceiveIsScan([], chunks);
    assert [] + Join(chunks) == Join(chunks);
    ResidueBound(Join(chunks));
  }

  // ---- framing round trip and resynchronisation ----------------------------------------------

  /** No head pair inside the block. */
  predicate NoHead(g: seq<byte>) {
    forall i :: 0 < i < |g| ==> !(g[i - 1] == HEAD_LO && g[i] == HEAD_HI)
  }

  lemma FrameFields(p: Packet, rest: seq<byte>)
    ensures var s := Frame(p) + rest; var end := HEADER_SIZE + |p.payload|;
            && |s| > end && s[0] == HEAD_LO && s[1] == HEAD_HI && s[2] == p.id && s[3] as int == |p.payload|
            && s[4] == p.cmd
            && s[2..end] == Covered(p) && s[HEADER_SIZE..end] == p.payload && s[end] == Sum8(Covered(p))
            && s[|Frame(p)|..] == rest
  {
  }

  lemma FrameFromFields(s: seq<byte>, p: Packet)
    requires var end := HEADER_SIZE + |p.payload|;
             && |s| == end + 1 && s[0] == HEAD_LO && s[1] == HEAD_HI && s[2] == p.id && s[3] as int == |p.payload|
             && s[4] == p.cmd
             && (forall i :: 0 <= i < |p.payload| ==> s[HEADER_SIZE + i] == p.payload[i]) && s[end] == Sum8(s[2..end])
    ensures s == Frame(p)
  {
    assert s[2..HEADER_SIZE + |p.payload|] == Covered(p);
  }

  lemma FrameJudged(p: Packet, rest: seq<byte>)
    ensures |Frame(p) + rest| >= HEADER_SIZE && Judge(Frame(p) + rest) == Found(p)
    ensures (Frame(p) + rest)[|Frame(p)|..] == rest
  {
    FrameFields(p, rest);
  }

  lemma ScanFrame(p: Packet, rest: seq<byte>)
    ensures Scan(Frame(p) + rest) == ([p] + Scan(rest).0, |Frame(p)| + Scan(rest).1)
  {
    FrameJudged(p, rest);
    ScanFound(Frame(p) + rest, p, rest);
  }

  lemma ScanFound(s: seq<byte>, p: Packet, rest: seq<byte>)
    requires |s| >= HEADER_SIZE && Judge(s) == Found(p) && s[|Frame(p)|..] == rest
    ensures Scan(s) == ([p] + Scan(rest).0, |Frame(p)| + Scan(rest).1)
  {
  }

  lemma GarbageSkipped(g: seq<byte>, s: seq<byte>)
    requires NoHead(g) && g != [] && |s| >= HEADER_SIZE && s[0] == HEAD_LO
    ensures Judge(g + s) == Skip
  {
    assert (g + s)[0] == g[0];
    assert (g + s)[1] == if |g| == 1 then HEAD_LO else g[1];
  }

  /** Garbage without a head pair is skipped in front of anything that starts like a frame. */
  lemma {:induction false} GarbageBefore(g: seq<byte>, s: seq<byte>)
    requires NoHead(g) && |s| >= HEADER_SIZE && s[0] == HEAD_LO
    ensures Scan(g + s).0 == Scan(s).0 && Scan(g + s).1 == |g| + Scan(s).1
    decreases |g|
  {
    if g == [] {
      assert g + s == s;
    } else {
      GarbageSkipped(g, s);
      ScanStep(g + s);
      DropOfConcat(g, s, 1);
      GarbageBefore(g[1..], s);
    }
  }

  lemma StartsLikeFrame(p: Packet, rest: seq<byte>)
    ensures |Frame(p) + rest| >= HEADER_SIZE && (Frame(p) + rest)[0] == HEAD_LO
  {
    assert (Frame(p) + rest)[0] == Frame(p)[0];
  }

  lemma {:induction false} ScanTail(g: seq<byte>)
    requires NoHead(g)
    ensures Scan(g) == ([], if |g| < HEADER_SIZE then 0 else |g| - HEADER_SIZE + 1)
    decreases |g|
  {
    if |g| >= HEADER_SIZE {
      assert Judge(g) == Skip;
      ScanTail(g[1..]);
    }
  }

  /** Packets with a block of garbage before each of them. */
  datatype Item = Item(garbage: seq<byte>, p: Packet)

  function Emit(items: seq<Item>): seq<byte> {
    if items == [] then [] else items[0].garbage + Frame(items[0].p) + Emit(items[1..])
  }

  function Packets(items: seq<Item>): seq<Packet> {
    if items == [] then [] else [items[0].p] + Packets(items[1..])
  }

  /** One frame behind garbage. */
  lemma ItemScanned(g: seq<byte>, p: Packet, rest: seq<byte>)
    requires NoHead(g)
    ensures Scan(g + (Frame(p) + rest)).0 == [p] + Scan(rest).0
    ensures Scan(g + (Frame(p) + rest)).1 == |g| + |Frame(p)| + Scan(rest).1
  {
    StartsLikeFrame(p, rest);
    GarbageBefore(g, Frame(p) + rest);
    ScanFrame(p, rest);
  }

  /** Scanning any list of built frames dispatches exactly that list, also with garbage
      between and after them that contains no head pair. */
  lemma {:induction false} ScanInvertsEmit(items: seq<Item>, tail: seq<byte>)
    requires NoHead(tail) && forall i :: 0 <= i < |items| ==> NoHead(items[i].garbage)
    ensures Scan(Emit(items) + tail) == (Packets(items), |Emit(items)| + Scan(tail).1)
  {
    if items == [] {
      assert Emit(items) + tail == tail;
      ScanTail(tail);
    } else {
      var g, p, rest := items[0].garbage, items[0].p, Emit(items[1..]);
      ScanInvertsEmit(items[1..], tail);
      ItemScanned(g, p, rest + tail);
      Associative4(g, Frame(p), rest, tail);
    }
  }

  // ---- soundness: only checksum-valid slices, none overlapping ----------------------------------

  /** The bytes skipped before each dispatched packet, and after the last one. */
  function Skipped(s: seq<byte>): (gs: seq<seq<byte>>)
    ensures |gs| == |Scan(s).0| + 1
    decreases |s|
  {
    if |s| < HEADER_SIZE then [[]]
    else match Judge(s)
      case Skip => var gs := Skipped(s[1..]); [[s[0]] + gs[0]] + gs[1..]
      case Wait => [[]]
      case Found(p) => [[]] + Skipped(s[|Frame(p)|..])
  }

  function Weave(gs: seq<seq<byte>>, ps: seq<Packet>): seq<byte>
    requires |gs| == |ps| + 1
  {
    if ps == [] then gs[0] else gs[0] + Frame(ps[0]) + Weave(gs[1..], ps[1..])
  }

  lemma JudgedIsFrame(s: seq<byte>)
    requires |s| >= HEADER_SIZE && Judge(s).Found?
    ensures s[..|Frame(Judge(s).p)|] == Frame(Judge(s).p)
  {
    var p := Judge(s).p;
    assert Covered(p) == s[2..HEADER_SIZE + |p.payload|];
  }

  /** The consumed bytes are the frames of the dispatched packets, in order and disjoint,
      with the skipped bytes between them. */
  lemma {:induction false} ScanIsSound(s: seq<byte>)
    ensures s[..Scan(s).1] == Weave(Skipped(s), Scan(s).0)
    decreases |s|
  {
    if |s| >= HEADER_SIZE && Judge(s) == Skip {
      ScanIsSound(s[1..]);
      SkippedSound(s);
    } else if |s| >= HEADER_SIZE && Judge(s).Found? {
      ScanIsSound(s[|Frame(Judge(s).p)|..]);
      FoundSound(s);
    }
  }

  lemma SkippedSound(s: seq<byte>)
    requires |s| >= HEADER_SIZE && Judge(s) == Skip
    requires s[1..][..Scan(s[1..]).1] == Weave(Skipped(s[1..]), Scan(s[1..]).0)
    ensures s[..Scan(s).1] == Weave(Skipped(s), Scan(s).0)
  {
    WeaveSkip(s[0], Skipped(s[1..]), Scan(s[1..]).0);
    TakeFront(s, 1, Scan(s[1..]).1);
    assert s[..1] == [s[0]];
  }

  lemma FoundSound(s: seq<byte>)
    requires |s| >= HEADER_SIZE && Judge(s).Found?
    requires var rest := s[|Frame(Judge(s).p)|..]; rest[..Scan(rest).1] == Weave(Skipped(rest), Scan(rest).0)
    ensures s[..Scan(s).1] == Weave(Skipped(s), Scan(s).0)
  {
    var p := Judge(s).p;
    var rest := s[|Frame(p)|..];
    JudgedIsFrame(s);
    TakeFront(s, |Frame(p)|, Scan(rest).1);
    WeaveFrame(p, Skipped(rest), Scan(rest).0);
  }

  lemma TakeFront<T>(s: seq<T>, i: nat, j: nat)
    requires i + j <= |s|
    ensures s[..i + j] == s[..i] + s[i..][..j]
  {
  }

  lemma WeaveFrame(p: Packet, gs: seq<seq<byte>>, ps: seq<Packet>)
    requires |gs| == |ps| + 1
    ensures Weave([[]] + gs, [p] + ps) == Frame(p) + Weave(gs, ps)
  {
    assert ([[]] + gs)[1..] == gs && ([p] + ps)[1..] == ps;
    assert [] + Frame(p) == Frame(p);
  }

  lemma WeaveSkip(b: byte, gs: seq<seq<byte>>, ps: seq<Packet>)
    requires |gs| == |ps| + 1
    ensures Weave([[b] + gs[0]] + gs[1..], ps) == [b] + Weave(gs, ps)
  {
    if ps != [] {
      assert ([[b] + gs[0]] + gs[1..])[1..] == gs[1..];
    }
  }

  // ---- code --------------------------------------------------------------------------------------

  /** The checksum loops of comm_core.c and comm_task.c over `buf[from..to)`. */
  method Checksum(buf: array<byte>, from: nat, to: nat) returns (csum: byte)
    requires from <= to <= buf.Length
    ensures csum == Sum8(buf[from..to])
  {
    csum := 0;
    var i := from;
    while i < to
      invariant from <= i <= to && csum == Sum8(buf[from..i])
    {
      csum := Add8(csum, buf[i]);
      i := i + 1;
      assert buf[from..i][..|buf[from..i]| - 1] == buf[from..i - 1];
    }
  }

  /** The writes of comm_core_build_frame. */
  method FillFrame(pkt: array<byte>, id: byte, cmd: byte, payload: Payload)
    requires pkt.Length >= HEADER_SIZE + MAX_PAYLOAD + 1
    modifies pkt
    ensures pkt[..HEADER_SIZE + |payload| + 1] == Frame(Packet(id, cmd, payload))
  {
    pkt[0], pkt[1] := HEAD_LO, HEAD_HI;
    pkt[2], pkt[3], pkt[4] := id, |payload|, cmd;
    forall i | 0 <= i < |payload| {
      pkt[HEADER_SIZE + i] := payload[i];
    }
    var end := HEADER_SIZE + |payload|;
    ghost var covered := pkt[2..end];
    var csum := Checksum(pkt, 2, end);
    pkt[end] := csum;
    ghost var s := pkt[..end + 1];
    assert s[2..end] == covered;
    assert forall i :: 0 <= i < |payload| ==> s[HEADER_SIZE + i] == payload[i];
    FrameFromFields(s, Packet(id, cmd, payload));
  }

  lemma SliceOfSlice<T>(a: seq<T>, off: nat, len: nat, i: nat, j: nat)
    requires off + i <= off + j <= len <= |a|
    ensures a[off..len][i..j] == a[off + i..off + j]
  {
    var b := a[off..len];
    forall k | 0 <= k < j - i ensures b[i..j][k] == a[off + i..off + j][k] {
      assert b[i..j][k] == b[i + k];
      assert b[i + k] == a[off + (i + k)];
    }
  }

  /** The array holds `s` from `off` on. */
  predicate Holds(buf: array<byte>, off: nat, s: seq<byte>)
    reads buf
  {
    off + |s| <= buf.Length && forall i :: 0 <= i < |s| ==> buf[off + i] == s[i]
  }

  /** The tests of comm_core_input on the unread bytes `buf[off..len)`: skip one byte, or
      wait for more (total 0), or dispatch a packet of `total` bytes. */
  method Front(buf: array<byte>, off: nat, len: nat) returns (skip: bool, total: nat)
    requires off + HEADER_SIZE <= len <= buf.Length
    ensures total > 0 ==> HEADER_SIZE < total <= len - off && total - 1 - HEADER_SIZE <= MAX_PAYLOAD
    ensures Judge(buf[off..len])
         == if skip then Skip else if total == 0 then Wait
            else Found(Packet(buf[off + 2], buf[off + 4], buf[off + HEADER_SIZE..off + total - 1]))
  {
    ghost var s := buf[off..len];
    if buf[off] != HEAD_LO || buf[off + 1] != HEAD_HI {
      return true, 0;
    }
    var size: int := buf[off + 3] as int;
    total := HEADER_SIZE + size + 1;
    if size > MAX_PAYLOAD {
      return true, 0;
    }
    if len - off < total {
      return false, 0;
    }
    var end := off + HEADER_SIZE + size;
    var csum := Checksum(buf, off + 2, end);
    SliceOfSlice(buf[..], off, len, 2, end - off);
    SliceOfSlice(buf[..], off, len, HEADER_SIZE, end - off);
    assert buf[..][off..len] == s && buf[..][off + 2..end] == buf[off + 2..end]
        && buf[..][off + HEADER_SIZE..end] == buf[off + HEADER_SIZE..end];
    if csum != buf[end] {
      return true, 0;
    }
    skip := false;
  }

  /** The same, in terms of the scan of the unread bytes `s`. */
  method NextPacket(buf: array<byte>, off: nat, len: nat, ghost s: seq<byte>) returns (skip: bool, total: nat)
    requires off + HEADER_SIZE <= len == off + |s| && Holds(buf, off, s)
    ensures skip ==> Scan(s).0 == Scan(s[1..]).0 && Scan(s).1 == Scan(s[1..]).1 + 1 && Holds(buf, off + 1, s[1..])
    ensures !skip && total == 0 ==> Scan(s).0 == [] && Scan(s).1 == 0
    ensures !skip && total > 0 ==> (
              && HEADER_SIZE < total <= |s| && total - 1 - HEADER_SIZE <= MAX_PAYLOAD && Scan(s).0 != []
              && Scan(s).0[0] == Packet(buf[off + 2], buf[off + 4], buf[off + HEADER_SIZE..off + total - 1])
              && Scan(s).0[1..] == Scan(s[total..]).0 && Scan(s).1 == total + Scan(s[total..]).1)
  {
    assert buf[off..len] == s;
    ScanStep(s);
    skip, total := Front(buf, off, len);
  }

  /** udp_is_valid_ping: the scanner would dispatch a PING at offset 0. */
  method IsValidPing(buf: array<byte>, len: nat) returns (r: bool)
    requires len <= buf.Length
    ensures r <==> len >= HEADER_SIZE && Judge(buf[..len]).Found? && Judge(buf[..len]).p.cmd == CMD_PING
  {
    if len < HEADER_SIZE + 1 {
      return false;
    }
    if buf[0] != HEAD_LO || buf[1] != HEAD_HI || buf[4] != CMD_PING {
      return false;
    }
    var size: int := buf[3] as int;
    if size > MAX_PAYLOAD {
      return false;
    }
    if len < HEADER_SIZE + size + 1 {
      return false;
    }
    var csum := Checksum(buf, 2, HEADER_SIZE + size);
    assert buf[..len][2..HEADER_SIZE + size] == buf[2..HEADER_SIZE + size];
    return csum == buf[HEADER_SIZE + size];
  }
}
