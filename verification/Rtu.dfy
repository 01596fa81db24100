/** The Modbus RTU transactions of main/rs485_discrete.c: FC01/FC02 reads and FC05 writes
    (MODBUS Application Protocol V1.1b3, sections 6.1, 6.2 and 6.5). What the slave or the
    line answers is arbitrary bytes. */
module Rtu {
  import opened Bytes
  import opened Words
  import opened Options
  import opened ModbusCrc

  const READ_COILS := 1
  const READ_INPUTS := 2
  const WRITE_SINGLE_COIL := 5
  const COIL_ON := 0xFF00

  type Word32 = w: Word | |w| == 32 witness Zero(32)

  /** One exchange as the UART reports it: whether the request went out whole, and the bytes
      that arrive before the reply timeout. */
  datatype Line = Line(sent: bool, arriving: seq<Octet>)

  function Byte(v: nat): Octet {
    OfValue(v, 8)
  }

  function Request(unit: nat, fc: nat, address: nat, operand: nat): (s: seq<Octet>)
    ensures |s| == 8
  {
    WithCrc([Byte(unit), Byte(fc), Byte(address / 256), Byte(address), Byte(operand / 256), Byte(operand)])
  }

  /** rtu_exchange: the reply, if one of at least five bytes came from `unit` with a good CRC. */
  function Exchange(unit: nat, expected: nat, line: Line): (r: Option<seq<Octet>>)
    ensures r.Some? ==> 5 <= |r.value| <= expected && Passes(r.value) && r.value[0] == Byte(unit)
  {
    var response := if |line.arriving| <= expected then line.arriving else line.arriving[..expected];
    if !line.sent || |response| < 5 || response[0] != Byte(unit) || !Passes(response) then None
    else Some(response)
  }

  function ByteCount(count: nat): nat {
    (count + 7) / 8
  }

  /** The data bytes of a reply as one number, first byte lowest. */
  function Assembled(data: seq<Octet>): (w: Word)
    ensures |w| == 8 * |data|
  {
    AllBits(data)
  }

  /** The bits of a word that number less than `count`. */
  function Masked(w: Word32, count: nat): Word32 {
    if count < 32 then And(w, Low(32, count)) else w
  }

  /** read_bits: the bits read, or None when the transaction failed. */
  function ReadOutcome(unit: nat, fc: nat, count: nat, line: Line): (r: Option<Word32>)
    requires 1 <= count <= 32
  {
    var n := ByteCount(count);
    var reply := Exchange(unit, n + 5, line);
    if reply.None? || |reply.value| != n + 5 || reply.value[1] != Byte(fc) || reply.value[2] != Byte(n) then None
    else Some(Masked(Resize(Assembled(reply.value[3..3 + n]), 32), count))
  }

  /** write_coil: the slave echoed the request. */
  predicate WriteOutcome(unit: nat, address: nat, on: bool, line: Line) {
    Exchange(unit, 8, line) == Some(Request(unit, WRITE_SINGLE_COIL, address, if on then COIL_ON else 0))
  }

  /** Whatever arrives, no bit at or above `count` is ever read. */
  lemma ReadWithinCount(unit: nat, fc: nat, count: nat, line: Line)
    requires 1 <= count <= 32
    ensures var r := ReadOutcome(unit, fc, count, line);
            r.Some? ==> forall i :: count <= i < 32 ==> !r.value[i]
  {
  }

  // ---- a slave that follows the standard --------------------------------------------------

  /** Coil states packed eight to a byte, the first coil in the lowest bit, zero-filled. */
  function Packed(coils: Word, n: nat): (data: seq<Octet>)
    ensures |data| == n
  {
    if n == 0 then []
    else
      var at := 8 * (n - 1);
      Packed(coils, n - 1) + [Resize(if at <= |coils| then coils[at..] else [], 8)]
  }

  lemma {:induction false} AssembledPacked(coils: Word, n: nat)
    ensures Assembled(Packed(coils, n)) == Resize(coils, 8 * n)
  {
    if n != 0 {
      AssembledPacked(coils, n - 1);
      var data := Packed(coils, n);
      assert data[..n - 1] == Packed(coils, n - 1);
    }
  }

  /** A standard reply to a read of `count` coils that are `coils`. */
  function HonestReply(unit: nat, fc: nat, coils: Word32, count: nat): (s: seq<Octet>)
    requires 1 <= count <= 32
    ensures |s| == ByteCount(count) + 5
  {
    WithCrc([Byte(unit), Byte(fc), Byte(ByteCount(count))] + Packed(Masked(coils, count), ByteCount(count)))
  }

  lemma HonestFields(unit: nat, fc: nat, coils: Word32, count: nat)
    requires 1 <= count <= 32
    ensures var s, n := HonestReply(unit, fc, coils, count), ByteCount(count);
            && Passes(s) && s[0] == Byte(unit) && s[1] == Byte(fc) && s[2] == Byte(n)
            && s[3..3 + n] == Packed(Masked(coils, count), n)
  {
    AppendedCrcPasses([Byte(unit), Byte(fc), Byte(ByteCount(count))] + Packed(Masked(coils, count), ByteCount(count)));
  }

  lemma MaskedAgain(coils: Word32, count: nat, n: nat)
    requires count <= 32 && count <= 8 * n
    ensures Masked(Resize(Resize(Masked(coils, count), 8 * n), 32), count) == Masked(coils, count)
  {
  }

  /** Round trip: read_bits returns exactly the coils the slave reported. */
  lemma HonestReadBack(unit: nat, fc: nat, coils: Word32, count: nat)
    requires 1 <= count <= 32
    ensures ReadOutcome(unit, fc, count, Line(true, HonestReply(unit, fc, coils, count))) == Some(Masked(coils, count))
  {
    var n, shown := ByteCount(count), Masked(coils, count);
    HonestFields(unit, fc, coils, count);
    AssembledPacked(shown, n);
    MaskedAgain(coils, count, n);
  }

  lemma BadCrcRejected(unit: nat, fc: nat, count: nat, bytes: seq<Octet>)
    requires 1 <= count <= 32 && |bytes| == ByteCount(count) + 5 && !Passes(bytes)
    ensures ReadOutcome(unit, fc, count, Line(true, bytes)).None?
  {
  }

  /** Bit errors, none of them outside sixteen consecutive bits. */
  predicate Burst(e: seq<Octet>, start: nat) {
    && start + 16 <= 8 * |e| && !IsZero(AllBits(e))
    && forall i :: 0 <= i < 8 * |e| && AllBits(e)[i] ==> start <= i < start + 16
  }

  /** An honest reply hit by an odd number of bit errors, or by a burst of at most sixteen
      bits, is never taken for data. */
  lemma DamagedReplyRejected(unit: nat, fc: nat, coils: Word32, count: nat, e: seq<Octet>, start: nat)
    requires 1 <= count <= 32 && |e| == |HonestReply(unit, fc, coils, count)|
    requires Odd(AllBits(e)) || Burst(e, start)
    ensures ReadOutcome(unit, fc, count, Line(true, XorBytes(HonestReply(unit, fc, coils, count), e))).None?
  {
    var n := ByteCount(count);
    var reply := HonestReply(unit, fc, coils, count);
    AppendedCrcPasses([Byte(unit), Byte(fc), Byte(n)] + Packed(Masked(coils, count), n));
    if Odd(AllBits(e)) {
      OddErrorsDetected(reply, e);
    } else {
      BurstErrorsDetected(reply, e, start);
    }
    BadCrcRejected(unit, fc, count, XorBytes(reply, e));
  }

  /** A write is confirmed exactly when the request went out and the first eight bytes that
      arrive are its echo. */
  lemma EchoConfirms(unit: nat, address: nat, on: bool, line: Line)
    ensures WriteOutcome(unit, address, on, line)
            <==> line.sent && |line.arriving| >= 8
                 && line.arriving[..8] == Request(unit, WRITE_SINGLE_COIL, address, if on then COIL_ON else 0)
  {
    var operand := if on then COIL_ON else 0;
    AppendedCrcPasses([Byte(unit), Byte(WRITE_SINGLE_COIL), Byte(address / 256), Byte(address), Byte(operand / 256),
                       Byte(operand)]);
    if |line.arriving| == 8 {
      assert line.arriving[..8] == line.arriving;
    }
  }

  // ---- the requests, as a slave reads them ----------------------------------------------------

  /** A slave by the standard, with its coils and its discrete inputs numbered from 0. */
  datatype Station = Station(unit: nat, coils: Word, inputs: Word)
  type Slave = d: Station | d.unit < 256 && |d.coils| <= 0x1_0000 && |d.inputs| <= 0x1_0000
    witness Station(1, [], [])

  const ILLEGAL_FUNCTION := 1
  const ILLEGAL_ADDRESS := 2
  const ILLEGAL_VALUE := 3
  const MAX_READ := 2000

  /** Two bytes of a frame, the high one first. */
  function Field(frame: seq<Octet>, i: nat): nat
    requires i + 1 < |frame|
  {
    256 * Value(frame[i]) + Value(frame[i + 1])
  }

  /** What a slave does with a frame: it reads unit, function, address and operand out of the bytes,
      and answers good frames for its own unit. */
  function Serve(d: Slave, frame: seq<Octet>): (Slave, Option<seq<Octet>>) {
    if |frame| != 8 || !Passes(frame) || Value(frame[0]) != d.unit then (d, None)
    else
      var fc, address, operand := Value(frame[1]), Field(frame, 2), Field(frame, 4);
      if fc == 1 then (d, Some(ReadReply(frame, d.coils, address, operand)))
      else if fc == 2 then (d, Some(ReadReply(frame, d.inputs, address, operand)))
      else if fc != 5 then (d, Some(ExceptionReply(frame, ILLEGAL_FUNCTION)))
      else if operand != 0xFF00 && operand != 0 then (d, Some(ExceptionReply(frame, ILLEGAL_VALUE)))
      else if address >= |d.coils| then (d, Some(ExceptionReply(frame, ILLEGAL_ADDRESS)))
      else (d.(coils := d.coils[address := operand == 0xFF00]), Some(frame))
  }

  function ReadReply(frame: seq<Octet>, bits: Word, address: nat, count: nat): seq<Octet>
    requires |frame| >= 2
  {
    if count == 0 || count > MAX_READ then ExceptionReply(frame, ILLEGAL_VALUE)
    else if address + count > |bits| then ExceptionReply(frame, ILLEGAL_ADDRESS)
    else
      var n := (count + 7) / 8;
      WithCrc([frame[0], frame[1], OfValue(n, 8)] + Packed(bits[address..address + count], n))
  }

  /** The function code with its top bit set, and the reason. */
  function ExceptionReply(frame: seq<Octet>, code: nat): (s: seq<Octet>)
    requires |frame| >= 2
    ensures |s| == 5
  {
    WithCrc([frame[0], frame[1][7 := true], OfValue(code, 8)])
  }

  /** The frame switches exactly coil `address` of the slave, and is echoed. */
  predicate SwitchesCoil(frame: seq<Octet>, d: Slave, address: nat, on: bool)
    requires address < |d.coils|
  {
    Serve(d, frame) == (d.(coils := d.coils[address := on]), Some(frame))
  }

  /** The bits a read function shows. */
  function Shown(d: Slave, fc: nat): Word {
    if fc == 1 then d.coils else d.inputs
  }

  /** The frame changes nothing, and the master reads the answer as the slave's bits from `address`. */
  predicate ReadsBits(frame: seq<Octet>, d: Slave, fc: nat, address: nat, count: nat)
    requires 1 <= count <= 32 && address + count <= |Shown(d, fc)|
  {
    var (d', reply) := Serve(d, frame);
    && d' == d && reply.Some?
    && var bits := ReadOutcome(d.unit, fc, count, Line(true, reply.value));
       && bits.Some?
       && forall i :: 0 <= i < 32 ==> bits.value[i] == (i < count && Shown(d, fc)[address + i])
  }

  lemma ValueOfByte(v: nat)
    ensures Value(Byte(v)) == v % 256 && (v < 256 ==> Value(Byte(v)) == v)
  {
    ValueOfLow(v, 8);
    ValueBelow(OfValue(v, 8));
    assert Pow2(8) == 256 by { assert Pow2(4) == 16 && Pow2(6) == 64; }
    assert v == Value(OfValue(v, 8)) + 256 * Halved(v, 8);
  }

  lemma BytesOfField(v: nat)
    requires v < 0x1_0000
    ensures 256 * Value(Byte(v / 256)) + Value(Byte(v)) == v
  {
    assert Value(Byte(v / 256)) == v / 256 by { ValueOfByte(v / 256); }
    assert Value(Byte(v)) == v % 256 by { ValueOfByte(v); }
  }

  lemma RequestBytes(unit: nat, fc: nat, address: nat, operand: nat)
    ensures var r := Request(unit, fc, address, operand);
            && Passes(r) && r[0] == Byte(unit) && r[1] == Byte(fc)
            && r[2] == Byte(address / 256) && r[3] == Byte(address)
            && r[4] == Byte(operand / 256) && r[5] == Byte(operand)
  {
    AppendedCrcPasses([Byte(unit), Byte(fc), Byte(address / 256), Byte(address), Byte(operand / 256), Byte(operand)]);
  }

  /** A request passes the receive check, and a slave reads its fields as they were meant. */
  lemma RequestFields(unit: nat, fc: nat, address: nat, operand: nat)
    requires unit < 256 && fc < 256 && address < 0x1_0000 && operand < 0x1_0000
    ensures var r := Request(unit, fc, address, operand);
            && Passes(r) && Value(r[0]) == unit && Value(r[1]) == fc
            && Field(r, 2) == address && Field(r, 4) == operand
  {
    var r := Request(unit, fc, address, operand);
    RequestBytes(unit, fc, address, operand);
    ByteIs(r[0], unit);
    ByteIs(r[1], fc);
    FieldIs(r, 2, address);
    FieldIs(r, 4, operand);
  }

  lemma ByteIs(b: Octet, v: nat)
    requires b == Byte(v) && v < 256
    ensures Value(b) == v
  {
    ValueOfByte(v);
  }

  lemma FieldIs(frame: seq<Octet>, i: nat, v: nat)
    requires i + 1 < |frame| && v < 0x1_0000 && frame[i] == Byte(v / 256) && frame[i + 1] == Byte(v)
    ensures Field(frame, i) == v
  {
    BytesOfField(v);
  }

  /** The FC05 request switches exactly the coil it names, and the write is confirmed. */
  lemma WriteReachesCoil(d: Slave, address: nat, on: bool)
    requires address < |d.coils|
    ensures var r := Request(d.unit, WRITE_SINGLE_COIL, address, if on then COIL_ON else 0);
            SwitchesCoil(r, d, address, on) && WriteOutcome(d.unit, address, on, Line(true, r))
  {
    RequestFields(d.unit, WRITE_SINGLE_COIL, address, if on then COIL_ON else 0);
    var r := Request(d.unit, WRITE_SINGLE_COIL, address, if on then COIL_ON else 0);
    assert r[..8] == r;
    EchoConfirms(d.unit, address, on, Line(true, r));
  }

  /** The slave's answer to a read is the reply HonestReadBack is about. */
  lemma ReplyIsHonest(d: Slave, fc: nat, address: nat, count: nat)
    requires (fc == READ_COILS || fc == READ_INPUTS) && 1 <= count <= 32 && address + count <= |Shown(d, fc)|
    ensures var coils := Resize(Shown(d, fc)[address..address + count], 32);
            Serve(d, Request(d.unit, fc, address, count)) == (d, Some(HonestReply(d.unit, fc, coils, count)))
  {
    var r := Request(d.unit, fc, address, count);
    RequestFields(d.unit, fc, address, count);
    OfValueInverse(r[0]);
    OfValueInverse(r[1]);
    var window := Shown(d, fc)[address..address + count];
    PackedMasked(window, ByteCount(count));
    assert Masked(Resize(window, 32), count) == Resize(window, 32);
  }

  lemma {:induction false} PackedMasked(window: Word, n: nat)
    requires |window| <= 32 && n <= 4
    ensures Packed(window, n) == Packed(Resize(window, 32), n)
  {
    if n != 0 {
      PackedMasked(window, n - 1);
      var at := 8 * (n - 1);
      assert Resize(if at <= |window| then window[at..] else [], 8) == Resize(Resize(window, 32)[at..], 8);
    }
  }

  /** The read request draws the bits it names, from either table. */
  lemma ReadReachesBits(d: Slave, fc: nat, address: nat, count: nat)
    requires (fc == READ_COILS || fc == READ_INPUTS) && 1 <= count <= 32 && address + count <= |Shown(d, fc)|
    ensures ReadsBits(Request(d.unit, fc, address, count), d, fc, address, count)
  {
    var window := Shown(d, fc)[address..address + count];
    var coils, r := Resize(window, 32), Request(d.unit, fc, address, count);
    assert Serve(d, r) == (d, Some(HonestReply(d.unit, fc, coils, count))) by {
      ReplyIsHonest(d, fc, address, count);
    }
    HonestReadBack(d.unit, fc, coils, count);
    WindowBits(Shown(d, fc), address, count);
  }

  lemma WindowBits(bits: Word, address: nat, count: nat)
    requires count <= 32 && address + count <= |bits|
    ensures var shown := Masked(Resize(bits[address..address + count], 32), count);
            forall i :: 0 <= i < 32 ==> shown[i] == (i < count && bits[address + i])
  {
  }

  /** Whatever slave has that unit and that coil, the frame switches it. */
  ghost predicate SwitchesAny(frame: seq<Octet>, unit: nat, address: nat, on: bool) {
    forall d: Slave {:trigger Serve(d, frame)} ::
      d.unit == unit && address < |d.coils| ==> SwitchesCoil(frame, d, address, on)
  }

  /** Whatever slave has that unit and those bits, the frame reads them. */
  ghost predicate ReadsAny(frame: seq<Octet>, unit: nat, fc: nat, address: nat, count: nat)
    requires 1 <= count <= 32
  {
    fc == READ_COILS || fc == READ_INPUTS ==>
      forall d: Slave {:trigger Serve(d, frame)} ::
        d.unit == unit && address + count <= |Shown(d, fc)| ==> ReadsBits(frame, d, fc, address, count)
  }

  lemma WriteReachesEach(unit: nat, address: nat, on: bool)
    ensures SwitchesAny(Request(unit, WRITE_SINGLE_COIL, address, if on then COIL_ON else 0), unit, address, on)
  {
    forall d: Slave | d.unit == unit && address < |d.coils|
      ensures SwitchesCoil(Request(unit, WRITE_SINGLE_COIL, address, if on then COIL_ON else 0), d, address, on)
    {
      WriteReachesCoil(d, address, on);
    }
  }

  lemma ReadReachesEach(unit: nat, fc: nat, address: nat, count: nat)
    requires 1 <= count <= 32
    ensures ReadsAny(Request(unit, fc, address, count), unit, fc, address, count)
  {
    forall d: Slave | (fc == READ_COILS || fc == READ_INPUTS) && d.unit == unit && address + count <= |Shown(d, fc)|
      ensures ReadsBits(Request(unit, fc, address, count), d, fc, address, count)
    {
      ReadReachesBits(d, fc, address, count);
    }
  }

  /** A one-bit read at `address`, as the discovery makes it, over a line that carries the slave's answer. */
  predicate Probed(d: Slave, fc: nat, address: nat) {
    var reply := Serve(d, Request(d.unit, fc, address, 1)).1;
    ReadOutcome(d.unit, fc, 1, Line(true, if reply.Some? then reply.value else [])).Some?
  }

  /** A slave answers the probe of an address exactly when it has that bit; otherwise it refuses, and the
      refusal is not taken for data. So ProbeCount finds how many it has. */
  lemma ProbedIffPresent(d: Slave, fc: nat, address: nat)
    requires (fc == READ_COILS || fc == READ_INPUTS) && address < 0x1_0000
    ensures Probed(d, fc, address) <==> address < |Shown(d, fc)|
  {
    RequestFields(d.unit, fc, address, 1);
    if address < |Shown(d, fc)| {
      ReadReachesBits(d, fc, address, 1);
    } else {
      var r := Request(d.unit, fc, address, 1);
      assert Serve(d, r).1 == Some(ExceptionReply(r, ILLEGAL_ADDRESS));
    }
  }

  /** The population a slave shows to the discovery. */
  lemma SlavePopulation(d: Slave, fc: nat, limit: nat)
    requires (fc == READ_COILS || fc == READ_INPUTS) && limit <= 32
    ensures Population((a: nat) => Probed(d, fc, a), |Shown(d, fc)|, limit)
  {
    forall a: nat | a < limit ensures Probed(d, fc, a) <==> a < |Shown(d, fc)| {
      ProbedIffPresent(d, fc, a);
    }
  }

  // ---- what is taken for an answer ----------------------------------------------------------------

  /** Bits of bytes, the lowest bit of the first byte first. */
  lemma {:induction false} AssembledBit(data: seq<Octet>, i: nat)
    requires i < 8 * |data|
    ensures Assembled(data)[i] == data[i / 8][i % 8]
  {
    var n := |data| - 1;
    if i < 8 * n {
      AssembledBit(data[..n], i);
    }
  }

  /** A well-formed reply to a read, with its data. */
  predicate ReadReplyTo(reply: seq<Octet>, unit: nat, fc: nat, data: seq<Octet>) {
    reply == WithCrc([Byte(unit), Byte(fc), Byte(|data|)] + data)
  }

  lemma PassingFrame(frame: seq<Octet>)
    requires |frame| >= 2 && Passes(frame)
    ensures frame == WithCrc(frame[..|frame| - 2])
  {
    var body, lo, hi := frame[..|frame| - 2], frame[|frame| - 2], frame[|frame| - 1];
    assert Concat(lo, hi)[..8] == lo && Concat(lo, hi)[8..] == hi;
  }

  /** The first bytes that arrive are a reply of `unit` to function `fc`, as many data bytes as
      `count` bits need. */
  predicate Replied(unit: nat, fc: nat, count: nat, line: Line, data: seq<Octet>) {
    var n := ByteCount(count);
    && line.sent && |data| == n && n + 5 <= |line.arriving| && ReadReplyTo(line.arriving[..n + 5], unit, fc, data)
  }

  /** Bits are read exactly when the request went out and what arrives first is a well-formed reply of the
      unit asked, to the function asked, of the length expected; and they are that reply's. */
  lemma ReadAcceptedIff(unit: nat, fc: nat, count: nat, line: Line)
    requires 1 <= count <= 32
    ensures ReadOutcome(unit, fc, count, line).Some?
            <==> exists data: seq<Octet> :: Replied(unit, fc, count, line, data)
    ensures forall data: seq<Octet> :: Replied(unit, fc, count, line, data) ==>
              var r := ReadOutcome(unit, fc, count, line);
              r.Some? && forall i :: 0 <= i < 32 ==> r.value[i] == (i < count && data[i / 8][i % 8])
  {
    var n := ByteCount(count);
    if ReadOutcome(unit, fc, count, line).Some? {
      AcceptedIsReply(unit, fc, count, line);
    }
    forall data: seq<Octet> | Replied(unit, fc, count, line, data)
      ensures var r := ReadOutcome(unit, fc, count, line);
              r.Some? && forall i :: 0 <= i < 32 ==> r.value[i] == (i < count && data[i / 8][i % 8])
    {
      ReplyIsAccepted(unit, fc, count, line, data);
    }
  }

  lemma AcceptedIsReply(unit: nat, fc: nat, count: nat, line: Line)
    requires 1 <= count <= 32 && ReadOutcome(unit, fc, count, line).Some?
    ensures exists data: seq<Octet> :: Replied(unit, fc, count, line, data)
  {
    var n := ByteCount(count);
    var reply := Exchange(unit, n + 5, line).value;
    assert reply == line.arriving[..n + 5];
    PassingFrame(reply);
    var data: seq<Octet> := reply[3..3 + n];
    assert reply[..n + 3] == [Byte(unit), Byte(fc), Byte(n)] + data;
    assert Replied(unit, fc, count, line, data);
  }

  lemma ReplyIsAccepted(unit: nat, fc: nat, count: nat, line: Line, data: seq<Octet>)
    requires 1 <= count <= 32 && Replied(unit, fc, count, line, data)
    ensures var r := ReadOutcome(unit, fc, count, line);
            r.Some? && forall i :: 0 <= i < 32 ==> r.value[i] == (i < count && data[i / 8][i % 8])
  {
    var n := ByteCount(count);
    var reply := line.arriving[..n + 5];
    AppendedCrcPasses([Byte(unit), Byte(fc), Byte(n)] + data);
    assert Exchange(unit, n + 5, line) == Some(reply) by {
      assert |line.arriving| == n + 5 ==> reply == line.arriving;
    }
    assert reply[3..3 + n] == data;
    MaskedBits(data, count);
  }

  lemma MaskedBits(data: seq<Octet>, count: nat)
    requires count <= 32 && count <= 8 * |data|
    ensures forall i :: 0 <= i < 32 ==>
              Masked(Resize(Assembled(data), 32), count)[i] == (i < count && data[i / 8][i % 8])
  {
    forall i | 0 <= i < count ensures Assembled(data)[i] == data[i / 8][i % 8] {
      AssembledBit(data, i);
    }
  }

  // ---- the code -------------------------------------------------------------------------------

  method BuildRequest(unit: nat, fc: nat, address: nat, operand: nat) returns (frame: array<Octet>)
    ensures fresh(frame) && frame[..] == Request(unit, fc, address, operand)
    ensures unit < 256 && fc < 256 && address < 0x1_0000 && operand < 0x1_0000
            ==> Passes(frame[..]) && Value(frame[0]) == unit && Value(frame[1]) == fc
                && Field(frame[..], 2) == address && Field(frame[..], 4) == operand
  {
    frame := new Octet[8](_ => Zero(8));
    frame[0], frame[1] := Byte(unit), Byte(fc);
    frame[2], frame[3] := Byte(address / 256), Byte(address);
    frame[4], frame[5] := Byte(operand / 256), Byte(operand);
    assert frame[..6] == [Byte(unit), Byte(fc), Byte(address / 256), Byte(address), Byte(operand / 256), Byte(operand)];
    AppendCrc(frame, 6);
    assert frame[..8] == frame[..];
    if unit < 256 && fc < 256 && address < 0x1_0000 && operand < 0x1_0000 {
      RequestFields(unit, fc, address, operand);
    }
  }

  lemma AssembleStep(data: seq<Octet>, i: nat)
    requires i < |data| <= 4
    ensures Resize(Assembled(data[..i + 1]), 32)
         == Or(Resize(Assembled(data[..i]), 32), Shl(Resize(data[i], 32), 8 * i))
  {
    assert data[..i + 1][..i] == data[..i];
  }

  /** The loop of read_bits over the data bytes. */
  method Assemble(data: seq<Octet>) returns (value: Word32)
    requires |data| <= 4
    ensures value == Resize(Assembled(data), 32)
  {
    value := Zero(32);
    for i := 0 to |data|
      invariant value == Resize(Assembled(data[..i]), 32)
    {
      AssembleStep(data, i);
      value := Or(value, Shl(Resize(data[i], 32), 8 * i));
    }
    assert data[..|data|] == data;
  }

  /** read_bits; also gives the request that went out. */
  method ReadBits(unit: nat, fc: nat, address: nat, count: nat, line: Line)
    returns (bits: Option<Word32>, request: seq<Octet>)
    requires 1 <= count <= 32
    ensures bits == ReadOutcome(unit, fc, count, line)
    ensures request == Request(unit, fc, address, count)
    ensures ReadsAny(request, unit, fc, address, count)
  {
    var frame := BuildRequest(unit, fc, address, count);
    request := frame[..];
    ReadReachesEach(unit, fc, address, count);
    var n := ByteCount(count);
    var reply := Exchange(unit, n + 5, line);
    if reply.None? || |reply.value| != n + 5 || reply.value[1] != Byte(fc) || reply.value[2] != Byte(n) {
      return None, request;
    }
    var value := Assemble(reply.value[3..3 + n]);
    if count < 32 {
      value := And(value, Low(32, count));
    }
    return Some(value), request;
  }

  /** write_coil; also gives the request that went out. */
  method WriteCoil(unit: nat, address: nat, on: bool, line: Line) returns (ok: bool, request: seq<Octet>)
    ensures ok == WriteOutcome(unit, address, on, line)
    ensures request == Request(unit, WRITE_SINGLE_COIL, address, if on then COIL_ON else 0)
    ensures SwitchesAny(request, unit, address, on)
  {
    var frame := BuildRequest(unit, WRITE_SINGLE_COIL, address, if on then COIL_ON else 0);
    request := frame[..];
    WriteReachesEach(unit, address, on);
    var reply := Exchange(unit, 8, line);
    ok := reply.Some? && |reply.value| == 8 && reply.value == request;
  }

  /** Exactly the addresses below `n` answer. */
  predicate Population(present: nat -> bool, n: nat, limit: nat) {
    forall a: nat :: a < limit ==> (present(a) <==> a < n)
  }

  /** probe_count: binary search for the number of addressable channels, where `present(a)`
      tells whether a one-bit read at address `a` is answered. */
  method ProbeCount(present: nat -> bool, limit: nat) returns (count: nat)
    requires 1 <= limit <= 32
    ensures count == 0 <==> !present(0)
    ensures count > 0 ==> count <= limit && present(count - 1) && (count == limit || !present(count))
    ensures forall n: nat :: n <= limit && Population(present, n, limit) ==> count == n
  {
    if !present(0) {
      return 0;
    }
    var low: nat, high: nat := 0, limit - 1;
    while low < high
      invariant low <= high < limit && present(low)
      invariant high == limit - 1 || !present(high + 1)
    {
      var middle := (low + high + 1) / 2;
      if present(middle) {
        low := middle;
      } else {
        high := middle - 1;
      }
    }
    return low + 1;
  }
}
