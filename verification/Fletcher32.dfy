/** components/lccore/fletcher32.c and the packer's loop in tools/fwpack.py. */
module Fletcher32 {
  import opened Bytes
  import opened Options

  const MODULUS := 0xFFFF
  type Residue = x: nat | x < MODULUS

  /** The context as a value; `half` is the buffered low byte of a split word. */
  datatype Ctx = Ctx(sum1: Residue, sum2: Residue, half: Option<byte>)

  const INIT := Ctx(0, 0, None)

  function Word(lo: byte, hi: byte): u16 {
    lo as int + 256 * (hi as int)
  }

  /** `x % 0xFFFF`. */
  function Reduce(x: nat): Residue {
    if x < MODULUS then x else Reduce(x - MODULUS)
  }

  lemma {:induction false} ReduceIsModulo(x: nat)
    ensures Reduce(x) == x % MODULUS
  {
    if x >= MODULUS {
      ReduceIsModulo(x - MODULUS);
    }
  }

  function FeedWord(c: Ctx, w: u16): Ctx {
    var sum1 := Reduce(c.sum1 + w);
    Ctx(sum1, Reduce(c.sum2 + sum1), None)
  }

  function AbsorbByte(c: Ctx, b: byte): Ctx {
    if c.half.Some? then FeedWord(c, Word(c.half.value, b)) else c.(half := Some(b))
  }

  /** The meaning of an update: the context after more bytes of the stream. */
  function Absorb(c: Ctx, data: seq<byte>): Ctx {
    if data == [] then c else AbsorbByte(Absorb(c, data[..|data| - 1]), data[|data| - 1])
  }

  /** `sum2 << 16 | sum1`; a pending half word is ignored. */
  function Final(c: Ctx): u32 {
    0x1_0000 * c.sum2 + c.sum1
  }

  function Checksum(data: seq<byte>): u32 {
    Final(Absorb(INIT, data))
  }

  // ---- split invariance ------------------------------------------------------------

  lemma {:induction false} AbsorbConcat(c: Ctx, a: seq<byte>, b: seq<byte>)
    ensures Absorb(c, a + b) == Absorb(Absorb(c, a), b)
  {
    if b == [] {
      assert a + b == a;
    } else {
      assert (a + b)[..|a + b| - 1] == a + b[..|b| - 1];
      AbsorbConcat(c, a, b[..|b| - 1]);
    }
  }

  lemma NextByte(c: Ctx, data: seq<byte>, i: nat)
    requires i < |data|
    ensures Absorb(c, data[..i + 1]) == AbsorbByte(Absorb(c, data[..i]), data[i])
  {
    assert data[..i + 1][..i] == data[..i];
  }

  lemma NextPair(c: Ctx, data: seq<byte>, i: nat)
    requires i + 1 < |data| && Absorb(c, data[..i]).half.None?
    ensures Absorb(c, data[..i + 2]) == FeedWord(Absorb(c, data[..i]), Word(data[i], data[i + 1]))
  {
    NextByte(c, data, i);
    NextByte(c, data, i + 1);
  }

  /** Once the bytes left are at most one, the checksum is that of the whole words. */
  lemma TrailingByteIgnored(data: seq<byte>, i: nat)
    requires i <= |data| <= i + 1 && Absorb(INIT, data[..i]).half.None?
    ensures Checksum(data) == Final(Absorb(INIT, data[..i]))
  {
    if i < |data| {
      NextByte(INIT, data, i);
      assert data[..i + 1] == data;
    } else {
      assert data[..i] == data;
    }
  }

  function Join(pieces: seq<seq<byte>>): seq<byte> {
    if pieces == [] then [] else pieces[0] + Join(pieces[1..])
  }

  function AbsorbAll(c: Ctx, pieces: seq<seq<byte>>): Ctx
    decreases |pieces|
  {
    if pieces == [] then c else AbsorbAll(Absorb(c, pieces[0]), pieces[1..])
  }

  /** However the stream is cut into updates, odd and empty pieces included, the context
      is that of the whole stream. */
  lemma {:induction false} SplitInvariance(c: Ctx, pieces: seq<seq<byte>>)
    ensures AbsorbAll(c, pieces) == Absorb(c, Join(pieces))
    decreases |pieces|
  {
    if pieces != [] {
      SplitInvariance(Absorb(c, pieces[0]), pieces[1..]);
      AbsorbConcat(c, pieces[0], Join(pieces[1..]));
    }
  }

  // ---- closed form -----------------------------------------------------------------

  /** The little-endian words of the data, a trailing odd byte left out. */
  function Words(data: seq<byte>): (ws: seq<u16>)
    ensures |ws| == |data| / 2
  {
    if |data| < 2 then [] else [Word(data[0], data[1])] + Words(data[2..])
  }

  function Sum(ws: seq<u16>): nat {
    if ws == [] then 0 else ws[0] as int + Sum(ws[1..])
  }

  /** The sum of (n - i) * ws[i]. */
  function Weighted(ws: seq<u16>): nat {
    if ws == [] then 0 else |ws| * (ws[0] as int) + Weighted(ws[1..])
  }

  lemma {:induction false} WordsAppend(data: seq<byte>, b: byte)
    ensures Words(data + [b]) == Words(data) + if |data| % 2 == 0 then [] else [Word(data[|data| - 1], b)]
  {
    if |data| >= 2 {
      assert (data + [b])[2..] == data[2..] + [b];
      WordsAppend(data[2..], b);
    }
  }

  lemma {:induction false} SumAppend(ws: seq<u16>, w: u16)
    ensures Sum(ws + [w]) == Sum(ws) + w as int
    ensures Weighted(ws + [w]) == Weighted(ws) + Sum(ws) + w as int
  {
    if ws != [] {
      assert (ws + [w])[1..] == ws[1..] + [w];
      SumAppend(ws[1..], w);
      assert (|ws| + 1) * (ws[0] as int) == |ws| * (ws[0] as int) + ws[0] as int;
    }
  }

  lemma ModAdd(a: int, b: int)
    ensures (a % MODULUS + b) % MODULUS == (a + b) % MODULUS
  {
  }

  lemma FeedResidues(sum: nat, weighted: nat, w: u16)
    ensures Reduce(sum % MODULUS + w) == (sum + w) % MODULUS
    ensures Reduce(weighted % MODULUS + (sum + w) % MODULUS) == (weighted + sum + w) % MODULUS
  {
    ReduceIsModulo(sum % MODULUS + w);
    ReduceIsModulo(weighted % MODULUS + (sum + w) % MODULUS);
    ModAdd(sum, w);
    ModAdd(weighted, (sum + w) % MODULUS);
    ModAdd(sum + w, weighted);
  }

  /** The sums in closed form, with the odd byte held back. */
  function Closed(data: seq<byte>): Ctx {
    var ws := Words(data);
    Ctx(Sum(ws) % MODULUS, Weighted(ws) % MODULUS, if |data| % 2 == 0 then None else Some(data[|data| - 1]))
  }

  /** After any stream the sums are the plain and the weighted word sum modulo 65535. */
  lemma {:induction false} ClosedForm(data: seq<byte>)
    ensures Absorb(INIT, data) == Closed(data)
  {
    if data != [] {
      var d, b := data[..|data| - 1], data[|data| - 1];
      ClosedForm(d);
      assert d + [b] == data;
      ClosedByte(d, b);
    }
  }

  lemma ClosedByte(d: seq<byte>, b: byte)
    ensures AbsorbByte(Closed(d), b) == Closed(d + [b])
  {
    WordsAppend(d, b);
    var ws, next := Words(d), Words(d + [b]);
    if |d| % 2 == 0 {
      assert next == ws;
    } else {
      var w := Word(d[|d| - 1], b);
      SumAppend(ws, w);
      FeedClosed(Sum(ws), Weighted(ws), Some(d[|d| - 1]), w);
    }
  }

  lemma FeedClosed(sum: nat, weighted: nat, half: Option<byte>, w: u16)
    ensures FeedWord(Ctx(sum % MODULUS, weighted % MODULUS, half), w)
         == Ctx((sum + w) % MODULUS, (weighted + sum + w) % MODULUS, None)
  {
    FeedResidues(sum, weighted, w);
  }

  /** The words of the data: two bytes each, the low one first. */
  lemma {:induction false} WordAt(data: seq<byte>, i: nat)
    requires 2 * i + 1 < |data|
    ensures i < |Words(data)| && Words(data)[i] == data[2 * i] as int + 256 * data[2 * i + 1] as int
    decreases i
  {
    if i > 0 {
      WordAt(data[2..], i - 1);
    }
  }

  /** The checksum of every stream: the weighted word sum modulo 65535 in the high half, the
      plain one in the low. */
  lemma ChecksumValue(data: seq<byte>)
    ensures Checksum(data) == 0x1_0000 * (Weighted(Words(data)) % 65535) + Sum(Words(data)) % 65535
  {
    ClosedForm(data);
  }

  /** The values of host_tests/tests/test_fletcher32.c. */
  lemma GoldenFour(data: seq<byte>)
    requires data == [1, 2, 3, 4]
    ensures Checksum(data) == 0x0805_0604
  {
    GoldenPair(data, 0x0201, 0x0403);
  }

  lemma GoldenFive(data: seq<byte>)
    requires data == [97, 98, 99, 100, 101]
    ensures Checksum(data) == 0x2926_C6C4
  {
    GoldenPair(data, 0x6261, 0x6463);
  }

  lemma GoldenEight(data: seq<byte>)
    requires data == [97, 98, 99, 100, 101, 102, 103, 104]
    ensures Checksum(data) == 0xEBE1_9591
  {
    ChecksumValue(data);
    EightLetters(data);
  }

  lemma GoldenPair(data: seq<byte>, a: u16, b: u16)
    requires 4 <= |data| <= 5 && a == Word(data[0], data[1]) && b == Word(data[2], data[3])
    ensures Checksum(data) == 0x1_0000 * ((2 * a + b) % 65535) + (a + b) % 65535
  {
    var ws := Words(data);
    assert ws == [a, b] by {
      WordAt(data, 0);
      WordAt(data, 1);
    }
    assert Sum(ws) == a + b && Weighted(ws) == 2 * a + b by { TwoWords(a, b); }
    assert Checksum(data) == 0x1_0000 * (Weighted(ws) % 65535) + Sum(ws) % 65535 by { ChecksumValue(data); }
  }

  lemma TwoWords(a: u16, b: u16)
    ensures Sum([a, b]) == a + b && Weighted([a, b]) == 2 * a + b
  {
    assert [a, b][1..] == [b] && [b][1..] == [];
    assert Sum([b]) == b as int + Sum([]) && Weighted([b]) == 1 * (b as int) + Weighted([]);
    assert Sum([a, b]) == a as int + Sum([b]) && Weighted([a, b]) == 2 * (a as int) + Weighted([b]);
  }

  lemma EightLetters(data: seq<byte>)
    requires data == [97, 98, 99, 100, 101, 102, 103, 104]
    ensures Sum(Words(data)) == 0x6261 + 0x6463 + 0x6665 + 0x6867
    ensures Weighted(Words(data)) == 4 * 0x6261 + 3 * 0x6463 + 2 * 0x6665 + 0x6867
  {
    var ws: seq<u16> := [0x6261, 0x6463, 0x6665, 0x6867];
    assert Words(data) == ws by {
      WordAt(data, 0);
      WordAt(data, 1);
      WordAt(data, 2);
      WordAt(data, 3);
    }
    assert ws[1..] == [0x6463, 0x6665, 0x6867] && ws[1..][1..] == [0x6665, 0x6867];
    TwoWords(0x6665, 0x6867);
  }

  // ---- error detection ---------------------------------------------------------------

  lemma {:induction false} SumUpdate(ws: seq<u16>, k: nat, v: u16)
    requires k < |ws|
    ensures Sum(ws[k := v]) == Sum(ws) - ws[k] as int + v as int
    ensures Weighted(ws[k := v]) == Weighted(ws) + (|ws| - k) * (v as int - ws[k] as int)
  {
    var us := ws[k := v];
    if k == 0 {
      assert us[1..] == ws[1..];
      Distributes(|ws|, ws[0], v);
    } else {
      assert us[1..] == ws[1..][k - 1 := v];
      SumUpdate(ws[1..], k - 1, v);
    }
  }

  lemma Distributes(n: int, a: int, b: int)
    ensures n * b == n * a + n * (b - a)
  {
  }

  /** Two streams that differ in one word have the same checksum exactly when the words are
      congruent modulo 65535: equal, or 0x0000 against 0xFFFF. */
  lemma OneWordChange(data: seq<byte>, other: seq<byte>, k: nat, v: u16)
    requires k < |Words(data)| && Words(other) == Words(data)[k := v]
    ensures Checksum(data) == Checksum(other) <==> Words(data)[k] as int % MODULUS == v as int % MODULUS
  {
    var ws := Words(data);
    ClosedForm(data);
    ClosedForm(other);
    OneWordResidues(ws, k, v);
    SameFinal(Absorb(INIT, data), Absorb(INIT, other));
  }

  lemma OneWordResidues(ws: seq<u16>, k: nat, v: u16)
    requires k < |ws|
    ensures (Sum(ws[k := v]) % MODULUS == Sum(ws) % MODULUS && Weighted(ws[k := v]) % MODULUS == Weighted(ws) % MODULUS)
            <==> ws[k] as int % MODULUS == v as int % MODULUS
  {
    SumUpdate(ws, k, v);
    var d := v as int - ws[k] as int;
    Congruent(v, ws[k]);
    SumsAgree(Sum(ws), Weighted(ws), |ws| - k, d);
  }

  lemma SameFinal(a: Ctx, b: Ctx)
    ensures Final(a) == Final(b) <==> a.sum1 == b.sum1 && a.sum2 == b.sum2
  {
  }

  lemma SumsAgree(sum: int, weighted: int, m: int, d: int)
    requires -0x1_0000 < d < 0x1_0000
    ensures ((sum + d) % MODULUS == sum % MODULUS && (weighted + m * d) % MODULUS == weighted % MODULUS)
            <==> (d == 0 || d == MODULUS || d == -MODULUS)
  {
    if d == 0 || d == MODULUS || d == -MODULUS {
      MultipleVanishes(weighted, m, d);
      MultipleVanishes(sum, 1, d);
    } else {
      SmallStep(sum, d);
    }
  }

  lemma Congruent(a: u16, b: u16)
    ensures a as int % MODULUS == b as int % MODULUS
            <==> var d := a as int - b as int; d == 0 || d == MODULUS || d == -MODULUS
  {
  }

  lemma SmallStep(a: int, d: int)
    requires -0x1_0000 < d < 0x1_0000 && d != 0 && d != MODULUS && d != -MODULUS
    ensures (a + d) % MODULUS != a % MODULUS
  {
  }

  lemma MultipleVanishes(a: int, m: int, d: int)
    requires d == 0 || d == MODULUS || d == -MODULUS
    ensures (a + m * d) % MODULUS == a % MODULUS
  {
    if d == MODULUS {
      assert m * d == MODULUS * m;
      ModMultiple(a, m);
    } else if d == -MODULUS {
      assert m * d == MODULUS * (-m);
      ModMultiple(a, -m);
    }
  }

  lemma ModMultiple(a: int, m: int)
    ensures (a + MODULUS * m) % MODULUS == a % MODULUS
  {
  }

  // ---- the code -----------------------------------------------------------------------

  class Context {
    var sum1: Residue
    var sum2: Residue
    var half: byte
    var haveHalf: bool

    function View(): Ctx
      reads this
    {
      Ctx(sum1, sum2, if haveHalf then Some(half) else None)
    }

    constructor ()
      ensures View() == INIT
    {
      sum1, sum2, half, haveHalf := 0, 0, 0, false;
    }

    method Init()
      modifies this
      ensures View() == INIT
    {
      sum1, sum2, half, haveHalf := 0, 0, 0, false;
    }

    /** The intermediate sums fit 32 bits, so the C arithmetic never wraps. */
    method Feed(w: u16)
      modifies this`sum1, this`sum2
      ensures sum1 == FeedWord(old(View()), w).sum1 && sum2 == FeedWord(old(View()), w).sum2
    {
      var t1: u32 := sum1 + w;
      ReduceIsModulo(t1);
      sum1 := t1 % MODULUS;
      var t2: u32 := sum2 + sum1;
      ReduceIsModulo(t2);
      sum2 := t2 % MODULUS;
    }

    /** fletcher32_update */
    method Update(data: seq<byte>)
      modifies this
      ensures View() == Absorb(old(View()), data)
    {
      ghost var c := View();
      var i := 0;
      if haveHalf && |data| > 0 {
        NextByte(c, data, 0);
        Feed(Word(half, data[0]));
        haveHalf := false;
        i := 1;
      }
      while i + 1 < |data|
        invariant i <= |data|
        invariant View() == Absorb(c, data[..i]) && (i < |data| ==> !haveHalf)
      {
        NextPair(c, data, i);
        Feed(Word(data[i], data[i + 1]));
        i := i + 2;
      }
      assert data[..|data|] == data;
      if i < |data| {
        NextByte(c, data, i);
        half := data[i];
        haveHalf := true;
      }
    }

    function Value(): u32
      reads this
    {
      Final(View())
    }
  }

  /** fletcher32(data, len), the one-shot form. */
  method OneShot(data: seq<byte>) returns (r: u32)
    ensures r == Checksum(data)
  {
    var ctx := new Context();
    ctx.Update(data);
    r := ctx.Value();
  }

  /** The loop body of the packer. */
  method PackerStep(s1: Residue, s2: Residue, w: u16) returns (t1: Residue, t2: Residue)
    ensures Ctx(t1, t2, None) == FeedWord(Ctx(s1, s2, None), w)
  {
    ReduceIsModulo(s1 + w);
    t1 := (s1 + w) % MODULUS;
    ReduceIsModulo(s2 + t1);
    t2 := (s2 + t1) % MODULUS;
  }

  /** fletcher32 of tools/fwpack.py. */
  method PackerChecksum(data: seq<byte>) returns (r: u32)
    ensures r == Checksum(data)
  {
    var s1: Residue, s2: Residue := 0, 0;
    var i := 0;
    while i < |data| - 1
      invariant 0 <= i <= |data|
      invariant Absorb(INIT, data[..i]) == Ctx(s1, s2, None)
    {
      NextPair(INIT, data, i);
      s1, s2 := PackerStep(s1, s2, Word(data[i], data[i + 1]));
      i := i + 2;
    }
    TrailingByteIgnored(data, i);
    r := 0x1_0000 * s2 + s1;
  }
}
