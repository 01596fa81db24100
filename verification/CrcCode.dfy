/** The Modbus CRC as a code: the corruptions the receive check lets through are exactly the multiples of its
    generator polynomial. */
module CrcCode {
  import opened Words
  import opened ModbusCrc

  /** x^16 + x^15 + x^2 + 1, the highest power first, as the bits are sent. */
  const GENERATOR: Word := [true, true] + Zero(12) + [true, false, true]

  /** The product of a polynomial with the generator, sixteen places longer. */
  function Times(q: Word): (s: Word)
    ensures |s| == |q| + 16
  {
    if q == [] then Zero(16)
    else
      var rest := [false] + Times(q[1..]);
      if q[0] then Xor(GENERATOR + Zero(|q| - 1), rest) else rest
  }

  lemma {:induction false} SerialLinear(a: Crc16, b: Crc16, x: Word, y: Word)
    requires |x| == |y|
    ensures Serial(Xor(a, b), Xor(x, y)) == Xor(Serial(a, x), Serial(b, y))
  {
    if x != [] {
      var n := |x| - 1;
      assert Xor(x, y)[..n] == Xor(x[..n], y[..n]);
      SerialLinear(a, b, x[..n], y[..n]);
      var c, d := Serial(a, x[..n]), Serial(b, y[..n]);
      var c1, d1 := c[0 := c[0] != x[n]], d[0 := d[0] != y[n]];
      assert Xor(c, d)[0 := Xor(c, d)[0] != Xor(x, y)[n]] == Xor(c1, d1);
      ShiftLinear(c1, d1);
    }
  }

  lemma LeadingZero(e: Word)
    ensures Serial(Zero(16), [false] + e) == Serial(Zero(16), e)
  {
    SerialConcat(Zero(16), [false], e);
    assert [false] == Zero(1) && Zero(1)[..0] == [];
    assert Serial(Zero(16), [false]) == Zero(16) by {
      SerialOfZeros(Zero(16), 1);
      assert Shifts(Zero(16), 0) == Zero(16);
      assert Shift(Zero(16)) == Zero(16);
    }
  }

  /** The generator itself, with any number of zeros behind it, leaves nothing in the register. */
  lemma GeneratorVanishes(k: nat)
    ensures IsZero(Serial(Zero(16), GENERATOR + Zero(k)))
  {
    var tail: Crc16 := GENERATOR[1..];
    assert GENERATOR == [true] + tail;
    assert tail == POLYNOMIAL;
    SerialConcat(Zero(16), GENERATOR, Zero(k));
    SerialConcat(Zero(16), [true], tail);
    FirstBit();
    SerialAtOnce(POLYNOMIAL, tail);
    assert IsZero(Xor(POLYNOMIAL, Resize(tail, 16)));
    ShiftsZero(Xor(POLYNOMIAL, Resize(tail, 16)), 16);
    SerialOfZeros(Serial(Zero(16), GENERATOR), k);
    ShiftsZero(Serial(Zero(16), GENERATOR), k);
  }

  lemma FirstBit()
    ensures Serial(Zero(16), [true]) == POLYNOMIAL
  {
    assert [true][..0] == [];
    var c: Crc16 := Zero(16)[0 := true];
    assert Shift(c) == POLYNOMIAL;
  }

  lemma XorIsZero(a: Crc16, b: Crc16)
    requires IsZero(a)
    ensures Xor(a, b) == b
  {
  }

  /** Every multiple of the generator leaves nothing in the register. */
  lemma {:induction false} MultipleVanishes(q: Word)
    ensures IsZero(Serial(Zero(16), Times(q)))
    decreases |q|
  {
    if q == [] {
      SerialOfZeros(Zero(16), 16);
      ShiftsZero(Zero(16), 16);
    } else {
      var rest := [false] + Times(q[1..]);
      MultipleVanishes(q[1..]);
      LeadingZero(Times(q[1..]));
      if q[0] {
        GeneratorVanishes(|q| - 1);
        assert Xor(Zero(16), Zero(16)) == Zero(16);
        SerialLinear(Zero(16), Zero(16), GENERATOR + Zero(|q| - 1), rest);
        XorIsZero(Serial(Zero(16), GENERATOR + Zero(|q| - 1)), Serial(Zero(16), rest));
      }
    }
  }

  /** Long division: what leaves nothing in the register is a multiple of the generator. */
  lemma {:induction false} VanishingIsMultiple(e: Word) returns (q: Word)
    requires |e| >= 16 && IsZero(Serial(Zero(16), e))
    ensures |q| == |e| - 16 && e == Times(q)
    decreases |e|
  {
    if |e| == 16 {
      QuietWindow(Zero(16), e);
      ShiftsZero(e, 16);
      q := [];
      assert e == Zero(16);
    } else {
      var g := if e[0] then GENERATOR + Zero(|e| - 17) else Zero(|e|);
      var d := Xor(e, g);
      assert d == [false] + d[1..];
      GeneratorVanishes(|e| - 17);
      SerialOfZeros(Zero(16), |e|);
      ShiftsZero(Zero(16), |e|);
      assert Xor(Zero(16), Zero(16)) == Zero(16);
      SerialLinear(Zero(16), Zero(16), e, g);
      XorIsZero(Serial(Zero(16), e), Serial(Zero(16), g));
      LeadingZero(d[1..]);
      var q1 := VanishingIsMultiple(d[1..]);
      q := [e[0]] + q1;
      assert q[1..] == q1;
      assert Xor(g, d) == e by { XorTwice(e, g); }
      assert e[0] ==> Times(q) == Xor(g, d);
    }
  }

  lemma XorTwice(e: Word, g: Word)
    requires |e| == |g|
    ensures Xor(g, Xor(e, g)) == e
  {
  }

  predicate Quotient(q: Word, e: Word) {
    |q| + 16 == |e| && e == Times(q)
  }

  /** The receive check lets a corruption of a good frame through exactly when its bits, in the
      order sent, are a multiple of the generator. */
  lemma UndetectedIffMultiple(frame: seq<Octet>, e: seq<Octet>)
    requires |frame| >= 2 && |e| == |frame| && Passes(frame)
    ensures Passes(XorBytes(frame, e)) <==> exists q: Word :: Quotient(q, AllBits(e))
  {
    CorruptionPassesIff(frame, e);
    RegisterIsSerial(Zero(16), e);
    if Passes(XorBytes(frame, e)) {
      var q := VanishingIsMultiple(AllBits(e));
      assert Quotient(q, AllBits(e));
    }
    if q: Word :| Quotient(q, AllBits(e)) {
      MultipleVanishes(q);
    }
  }

  /** The register starts with all bits set. */
  lemma StartsFull(i: nat)
    requires i < 16
    ensures Crc([])[i]
  {
  }
}
