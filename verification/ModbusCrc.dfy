/** The Modbus RTU CRC of main/rs485_discrete.c (MODBUS over Serial Line V1.02, section
    6.2.2): the loops, and what the receive check detects. */
module ModbusCrc {
  import opened Words

  type Octet = w: Word | |w| == 8 witness Zero(8)
  type Crc16 = w: Word | |w| == 16 witness Zero(16)

  /** 0xA001 */
  const POLYNOMIAL: Crc16 := [true, false, false, false, false, false, false, false,
                              false, false, false, false, false, true, false, true]
  /** 0xFFFF */
  const PRESET: Crc16 := Not(Zero(16))

  /** One turn of the inner loop. */
  function Shift(crc: Crc16): Crc16 {
    if crc[0] then Xor(Shr(crc, 1), POLYNOMIAL) else Shr(crc, 1)
  }

  function Shifts(crc: Crc16, n: nat): Crc16 {
    if n == 0 then crc else Shift(Shifts(crc, n - 1))
  }

  /** One turn of the outer loop. */
  function Feed(crc: Crc16, b: Octet): Crc16 {
    Shifts(Xor(crc, Resize(b, 16)), 8)
  }

  /** The register after a run of bytes. */
  function Register(crc: Crc16, data: seq<Octet>): Crc16 {
    if data == [] then crc else Feed(Register(crc, data[..|data| - 1]), data[|data| - 1])
  }

  function Crc(data: seq<Octet>): Crc16 {
    Register(PRESET, data)
  }

  /** What append_crc leaves in the frame: the CRC follows, low byte first. */
  function WithCrc(body: seq<Octet>): (s: seq<Octet>)
    ensures |s| == |body| + 2
  {
    body + [Crc(body)[..8], Crc(body)[8..]]
  }

  function Concat(lo: Octet, hi: Octet): Crc16 {
    var l: Word, h: Word := lo, hi;
    l + h
  }

  /** The receive check: the last two bytes are the CRC of the ones before. */
  predicate Passes(frame: seq<Octet>)
    requires |frame| >= 2
  {
    Crc(frame[..|frame| - 2]) == Concat(frame[|frame| - 2], frame[|frame| - 1])
  }

  // ---- linearity -----------------------------------------------------------------------

  lemma ShiftBits(c: Crc16, i: nat)
    requires i < 16
    ensures Shift(c)[i] == ((i < 15 && c[i + 1]) != (c[0] && POLYNOMIAL[i]))
  {
  }

  lemma ShiftLinear(a: Crc16, b: Crc16)
    ensures Shift(Xor(a, b)) == Xor(Shift(a), Shift(b))
  {
    forall i | 0 <= i < 16 ensures Shift(Xor(a, b))[i] == Xor(Shift(a), Shift(b))[i] {
      ShiftBits(a, i);
      ShiftBits(b, i);
      ShiftBits(Xor(a, b), i);
    }
  }

  lemma {:induction false} ShiftsLinear(a: Crc16, b: Crc16, n: nat)
    ensures Shifts(Xor(a, b), n) == Xor(Shifts(a, n), Shifts(b, n))
  {
    if n != 0 {
      ShiftsLinear(a, b, n - 1);
      ShiftLinear(Shifts(a, n - 1), Shifts(b, n - 1));
    }
  }

  lemma XorShuffle(a: Crc16, b: Crc16, x: Octet, y: Octet)
    ensures Xor(Xor(a, b), Resize(Xor(x, y), 16)) == Xor(Xor(a, Resize(x, 16)), Xor(b, Resize(y, 16)))
  {
  }

  lemma FeedLinear(a: Crc16, b: Crc16, x: Octet, y: Octet)
    ensures Feed(Xor(a, b), Xor(x, y)) == Xor(Feed(a, x), Feed(b, y))
  {
    XorShuffle(a, b, x, y);
    ShiftsLinear(Xor(a, Resize(x, 16)), Xor(b, Resize(y, 16)), 8);
  }

  function XorBytes(a: seq<Octet>, b: seq<Octet>): (s: seq<Octet>)
    requires |a| == |b|
    ensures |s| == |a|
  {
    if a == [] then [] else XorBytes(a[..|a| - 1], b[..|b| - 1]) + [Xor(a[|a| - 1], b[|b| - 1])]
  }

  /** For equal lengths the register is linear over exclusive or. */
  lemma {:induction false} RegisterLinear(a: Crc16, b: Crc16, x: seq<Octet>, y: seq<Octet>)
    requires |x| == |y|
    ensures Register(Xor(a, b), XorBytes(x, y)) == Xor(Register(a, x), Register(b, y))
  {
    if x != [] {
      var n := |x| - 1;
      RegisterLinear(a, b, x[..n], y[..n]);
      assert XorBytes(x, y)[..n] == XorBytes(x[..n], y[..n]);
      FeedLinear(Register(a, x[..n]), Register(b, y[..n]), x[n], y[n]);
    }
  }

  // ---- the residue -----------------------------------------------------------------------

  predicate IsZero(w: Word) {
    forall i :: 0 <= i < |w| ==> !w[i]
  }

  lemma ShiftZero(c: Crc16)
    ensures IsZero(Shift(c)) <==> IsZero(c)
  {
    if IsZero(Shift(c)) {
      ShiftBits(c, 15);
      assert Shift(c)[15] == c[0];
      forall i | 0 <= i < 16 ensures !c[i] {
        if i > 0 {
          ShiftBits(c, i - 1);
        }
      }
    }
  }

  lemma {:induction false} ShiftsZero(c: Crc16, n: nat)
    ensures IsZero(Shifts(c, n)) <==> IsZero(c)
  {
    if n != 0 {
      ShiftsZero(c, n - 1);
      ShiftZero(Shifts(c, n - 1));
    }
  }

  /** While the low bits are zero, shifting is plain shifting. */
  lemma {:induction false} ShiftsOfClear(c: Crc16, n: nat)
    requires n <= 16 && IsZero(c[..n])
    ensures Shifts(c, n) == c[n..] + Zero(n)
  {
    if n != 0 {
      assert c[..n][..n - 1] == c[..n - 1];
      assert !c[..n][n - 1];
      ShiftsOfClear(c, n - 1);
      assert Shr(c[n - 1..] + Zero(n - 1), 1) == c[n..] + Zero(n);
    }
  }

  lemma XorZero(a: Word, b: Word)
    requires |a| == |b|
    ensures IsZero(Xor(a, b)) <==> a == b
  {
    if IsZero(Xor(a, b)) {
      forall i | 0 <= i < |a| ensures a[i] == b[i] {
        assert !Xor(a, b)[i];
      }
    }
  }

  /** Feeding two bytes leaves zero exactly when they are the register itself, low byte first. */
  lemma TwoBytesCancel(c: Crc16, lo: Octet, hi: Octet)
    ensures IsZero(Feed(Feed(c, lo), hi)) <==> c == Concat(lo, hi)
  {
    var d, e := Xor(c, Resize(lo, 16)), Shl(Resize(hi, 16), 8);
    ShiftsZero(Xor(Shifts(d, 8), Resize(hi, 16)), 8);
    HighByte(hi);
    ShiftsLinear(d, e, 8);
    ShiftsZero(Xor(d, e), 8);
    SplitXor(c, lo, hi);
    XorZero(c, Concat(lo, hi));
  }

  lemma HighByte(hi: Octet)
    ensures Shifts(Shl(Resize(hi, 16), 8), 8) == Resize(hi, 16)
  {
    ShiftsOfClear(Shl(Resize(hi, 16), 8), 8);
    assert Shl(Resize(hi, 16), 8)[8..] + Zero(8) == Resize(hi, 16);
  }

  lemma SplitXor(c: Crc16, lo: Octet, hi: Octet)
    ensures Xor(Xor(c, Resize(lo, 16)), Shl(Resize(hi, 16), 8)) == Xor(c, Concat(lo, hi))
  {
  }

  /** The receive check passes exactly when the CRC over the whole frame is zero. */
  lemma PassesIffResidueZero(frame: seq<Octet>)
    requires |frame| >= 2
    ensures Passes(frame) <==> IsZero(Crc(frame))
  {
    var n := |frame| - 2;
    var f1 := frame[..n + 1];
    assert f1[..n] == frame[..n] && f1[n] == frame[n];
    assert Register(PRESET, f1) == Feed(Crc(frame[..n]), frame[n]);
    assert Crc(frame) == Feed(Register(PRESET, f1), frame[n + 1]);
    TwoBytesCancel(Crc(frame[..n]), frame[n], frame[n + 1]);
  }

  /** A frame with its CRC appended passes, and its residue is zero, for every body. */
  lemma AppendedCrcPasses(body: seq<Octet>)
    ensures Passes(WithCrc(body)) && IsZero(Crc(WithCrc(body)))
  {
    assert WithCrc(body)[..|body|] == body;
    assert Crc(body)[..8] + Crc(body)[8..] == Crc(body);
    PassesIffResidueZero(WithCrc(body));
  }

  // ---- error detection ----------------------------------------------------------------------

  /** Whether a corruption `e` of a good frame goes unnoticed depends on `e` alone. */
  lemma CorruptionPassesIff(frame: seq<Octet>, e: seq<Octet>)
    requires |frame| >= 2 && |e| == |frame| && Passes(frame)
    ensures Passes(XorBytes(frame, e)) <==> IsZero(Register(Zero(16), e))
  {
    PassesIffResidueZero(frame);
    PassesIffResidueZero(XorBytes(frame, e));
    RegisterLinear(PRESET, Zero(16), frame, e);
    assert Xor(PRESET, Zero(16)) == PRESET;
    assert Xor(Crc(frame), Register(Zero(16), e)) == Register(Zero(16), e);
  }

  /** All bits in the order they are sent and the CRC consumes them. */
  function AllBits(data: seq<Octet>): (s: Word)
    ensures |s| == 8 * |data|
  {
    if data == [] then [] else AllBits(data[..|data| - 1]) + data[|data| - 1]
  }

  /** The register fed bit by bit. */
  function Serial(crc: Crc16, bits: Word): Crc16 {
    if bits == [] then crc
    else
      var c := Serial(crc, bits[..|bits| - 1]);
      Shift(c[0 := c[0] != bits[|bits| - 1]])
  }

  lemma {:induction false} SerialConcat(crc: Crc16, a: Word, b: Word)
    ensures Serial(crc, a + b) == Serial(Serial(crc, a), b)
  {
    if b == [] {
      assert a + b == a;
    } else {
      assert (a + b)[..|a + b| - 1] == a + b[..|b| - 1];
      SerialConcat(crc, a, b[..|b| - 1]);
    }
  }

  /** Up to sixteen bits may be added to the register at once and shifted through. */
  lemma {:induction false} SerialAtOnce(crc: Crc16, bits: Word)
    requires |bits| <= 16
    ensures Serial(crc, bits) == Shifts(Xor(crc, Resize(bits, 16)), |bits|)
  {
    if bits == [] {
      assert Xor(crc, Resize(bits, 16)) == crc;
    } else {
      var n := |bits| - 1;
      var front := Xor(crc, Resize(bits[..n], 16));
      var last: Crc16 := Zero(16)[n := bits[n]];
      SerialAtOnce(crc, bits[..n]);
      assert Xor(crc, Resize(bits, 16)) == Xor(front, last);
      ShiftsLinear(front, last, n);
      ShiftsOfClear(last, n);
      var c := Shifts(front, n);
      assert Xor(c, last[n..] + Zero(n)) == c[0 := c[0] != bits[n]];
    }
  }

  lemma {:induction false} RegisterIsSerial(crc: Crc16, data: seq<Octet>)
    ensures Register(crc, data) == Serial(crc, AllBits(data))
  {
    if data != [] {
      var n := |data| - 1;
      RegisterIsSerial(crc, data[..n]);
      SerialConcat(crc, AllBits(data[..n]), data[n]);
      SerialAtOnce(Register(crc, data[..n]), data[n]);
    }
  }

  // ---- odd numbers of bit errors

  lemma ShiftKeepsParity(c: Crc16)
    ensures Odd(Shift(c)) == Odd(c)
  {
    OddConcat([c[0]], c[1..]);
    assert [c[0]] + c[1..] == c;
    assert [c[0]][..0] == [];
    OddConcat(c[1..], Zero(1));
    OddZero(1);
    OddXor(Shr(c, 1), POLYNOMIAL);
    PolynomialOdd();
  }

  lemma PolynomialOdd()
    ensures Odd(POLYNOMIAL)
  {
    var p := POLYNOMIAL;
    assert p == [true] + Zero(12) + [true] + [false] + [true];
    OddConcat([true] + Zero(12) + [true] + [false], [true]);
    OddConcat([true] + Zero(12) + [true], [false]);
    OddConcat([true] + Zero(12), [true]);
    OddConcat([true], Zero(12));
    OddZero(12);
    assert [true][..0] == [] && [false][..0] == [];
  }

  lemma {:induction false} SerialParity(crc: Crc16, bits: Word)
    ensures Odd(Serial(crc, bits)) == (Odd(crc) != Odd(bits))
  {
    if bits != [] {
      var n := |bits| - 1;
      var c := Serial(crc, bits[..n]);
      SerialParity(crc, bits[..n]);
      FlipParity(c, bits[n]);
      ShiftKeepsParity(c[0 := c[0] != bits[n]]);
    }
  }

  lemma FlipParity(c: Crc16, bit: bool)
    ensures Odd(c[0 := c[0] != bit]) == (Odd(c) != bit)
  {
    var d := c[0 := c[0] != bit];
    assert c == [c[0]] + c[1..] && d == [d[0]] + c[1..];
    OddConcat([c[0]], c[1..]);
    OddConcat([d[0]], c[1..]);
    assert [c[0]][..0] == [] && [d[0]][..0] == [];
  }

  lemma ZeroNotOdd(w: Word)
    requires IsZero(w)
    ensures !Odd(w)
  {
    assert w == Zero(|w|);
    OddZero(|w|);
  }

  /** Every error of an odd number of bits makes the receive check fail. */
  lemma OddErrorsDetected(frame: seq<Octet>, e: seq<Octet>)
    requires |frame| >= 2 && |e| == |frame| && Passes(frame)
    requires Odd(AllBits(e))
    ensures !Passes(XorBytes(frame, e))
  {
    CorruptionPassesIff(frame, e);
    RegisterIsSerial(Zero(16), e);
    SerialParity(Zero(16), AllBits(e));
    OddZero(16);
    if IsZero(Register(Zero(16), e)) {
      ZeroNotOdd(Register(Zero(16), e));
    }
  }

  // ---- bursts

  lemma {:induction false} SerialOfZeros(crc: Crc16, n: nat)
    ensures Serial(crc, Zero(n)) == Shifts(crc, n)
  {
    if n != 0 {
      assert Zero(n)[..n - 1] == Zero(n - 1);
      SerialOfZeros(crc, n - 1);
      var c := Shifts(crc, n - 1);
      assert c[0 := c[0] != false] == c;
    }
  }

  /** Every non-zero error confined to sixteen consecutive bits makes the receive check fail. */
  lemma BurstErrorsDetected(frame: seq<Octet>, e: seq<Octet>, start: nat)
    requires |frame| >= 2 && |e| == |frame| && Passes(frame)
    requires start + 16 <= 8 * |e|
    requires forall i :: 0 <= i < 8 * |e| && AllBits(e)[i] ==> start <= i < start + 16
    requires !IsZero(AllBits(e))
    ensures !Passes(XorBytes(frame, e))
  {
    CorruptionPassesIff(frame, e);
    RegisterIsSerial(Zero(16), e);
    BurstLeavesTrace(AllBits(e), start);
  }

  lemma BurstLeavesTrace(bits: seq<bool>, start: nat)
    requires start + 16 <= |bits| && !IsZero(bits)
    requires forall i :: 0 <= i < |bits| && bits[i] ==> start <= i < start + 16
    ensures !IsZero(Serial(Zero(16), bits))
  {
    AroundWindow(bits, start);
    SerialOfBurst(start, bits[start..start + 16], |bits| - start - 16);
  }

  lemma AroundWindow(bits: seq<bool>, start: nat)
    requires start + 16 <= |bits| && !IsZero(bits)
    requires forall i :: 0 <= i < |bits| && bits[i] ==> start <= i < start + 16
    ensures bits == Zero(start) + bits[start..start + 16] + Zero(|bits| - start - 16)
    ensures !IsZero(bits[start..start + 16])
  {
    var i :| 0 <= i < |bits| && bits[i];
    assert bits[start..start + 16][i - start];
  }

  lemma SerialOfBurst(start: nat, window: Crc16, rest: nat)
    ensures IsZero(Serial(Zero(16), Zero(start) + window + Zero(rest))) <==> IsZero(window)
  {
    SerialConcat(Zero(16), Zero(start) + window, Zero(rest));
    SerialConcat(Zero(16), Zero(start), window);
    SerialOfZeros(Zero(16), start);
    ShiftsZero(Zero(16), start);
    QuietWindow(Shifts(Zero(16), start), window);
    ShiftsZero(window, 16);
    SerialOfZeros(Shifts(window, 16), rest);
    ShiftsZero(Shifts(window, 16), rest);
  }

  lemma QuietWindow(quiet: Crc16, window: Crc16)
    requires IsZero(quiet)
    ensures Serial(quiet, window) == Shifts(window, 16)
  {
    SerialAtOnce(quiet, window);
    assert Xor(quiet, Resize(window, 16)) == window;
  }

  // ---- the code -------------------------------------------------------------------------------

  /** modbus_crc16(data, len) */
  method ModbusCrc16(data: array<Octet>, len: nat) returns (crc: Crc16)
    requires len <= data.Length
    ensures crc == Crc(data[..len])
  {
    crc := PRESET;
    for i := 0 to len
      invariant crc == Crc(data[..i])
    {
      ghost var before := crc;
      crc := Xor(crc, Resize(data[i], 16));
      ghost var mixed := crc;
      for bit := 0 to 8
        invariant crc == Shifts(mixed, bit)
      {
        crc := if crc[0] then Xor(Shr(crc, 1), POLYNOMIAL) else Shr(crc, 1);
      }
      assert data[..i + 1][..i] == data[..i];
    }
  }

  /** append_crc(frame, body_len) */
  method AppendCrc(frame: array<Octet>, bodyLen: nat)
    requires bodyLen + 2 <= frame.Length
    modifies frame
    ensures frame[..bodyLen + 2] == WithCrc(old(frame[..bodyLen]))
    ensures frame[bodyLen + 2..] == old(frame[bodyLen + 2..])
  {
    var crc := ModbusCrc16(frame, bodyLen);
    frame[bodyLen] := crc[..8];
    frame[bodyLen + 1] := Shr(crc, 8)[..8];
    assert Shr(crc, 8)[..8] == crc[8..];
    assert frame[..bodyLen] == old(frame[..bodyLen]);
  }
}
