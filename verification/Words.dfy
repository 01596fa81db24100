/** Unsigned machine words as their bits, least significant bit first. A word keeps its
    width: shifts drop what leaves it, and a shift by the width or more, undefined in C, is
    not allowed. */
module Words {
  import opened Bytes

  type Word = seq<bool>

  function Zero(width: nat): (w: Word)
    ensures |w| == width
  {
    seq(width, _ => false)
  }

  function And(a: Word, b: Word): (w: Word)
    requires |a| == |b|
    ensures |w| == |a|
  {
    seq(|a|, i requires 0 <= i < |a| => a[i] && b[i])
  }

  function Or(a: Word, b: Word): (w: Word)
    requires |a| == |b|
    ensures |w| == |a|
  {
    seq(|a|, i requires 0 <= i < |a| => a[i] || b[i])
  }

  function Xor(a: Word, b: Word): (w: Word)
    requires |a| == |b|
    ensures |w| == |a|
  {
    seq(|a|, i requires 0 <= i < |a| => a[i] != b[i])
  }

  function Not(a: Word): (w: Word)
    ensures |w| == |a|
  {
    seq(|a|, i requires 0 <= i < |a| => !a[i])
  }

  function Shl(a: Word, n: nat): (w: Word)
    requires n < |a|
    ensures |w| == |a|
  {
    Zero(n) + a[..|a| - n]
  }

  function Shr(a: Word, n: nat): (w: Word)
    requires n < |a|
    ensures |w| == |a|
  {
    a[n..] + Zero(n)
  }

  /** `(1 << n) - 1` */
  function Low(width: nat, n: nat): (w: Word)
    requires n < width
    ensures |w| == width
  {
    seq(width, i => i < n)
  }

  /** A cast to another width. */
  function Resize(a: Word, width: nat): (w: Word)
    ensures |w| == width
  {
    seq(width, i requires 0 <= i => i < |a| && a[i])
  }

  function Value(a: Word): nat {
    if a == [] then 0 else (if a[0] then 1 else 0) + 2 * Value(a[1..])
  }

  function OfValue(v: nat, width: nat): (w: Word)
    ensures |w| == width
  {
    if width == 0 then [] else [v % 2 == 1] + OfValue(v / 2, width - 1)
  }

  /** `v >> n` */
  function Halved(v: nat, n: nat): nat {
    if n == 0 then v else Halved(v / 2, n - 1)
  }

  /** Bit k of a number is what is left in the lowest place after k shifts to the right. */
  lemma {:induction false} BitOfValue(v: nat, n: nat, k: nat)
    requires k < n
    ensures OfValue(v, n)[k] <==> Halved(v, k) % 2 == 1
  {
    if k > 0 {
      BitOfValue(v / 2, n - 1, k - 1);
    }
  }

  /** A number is its low bits and the rest of it. */
  lemma {:induction false} ValueOfLow(v: nat, n: nat)
    ensures v == Value(OfValue(v, n)) + Pow2(n) * Halved(v, n)
  {
    if n != 0 {
      ValueOfLow(v / 2, n - 1);
      assert OfValue(v, n)[1..] == OfValue(v / 2, n - 1);
      assert Pow2(n) * Halved(v, n) == 2 * (Pow2(n - 1) * Halved(v / 2, n - 1));
    }
  }

  lemma {:induction false} ValueBelow(w: Word)
    ensures Value(w) < Pow2(|w|)
  {
    if w != [] {
      ValueBelow(w[1..]);
    }
  }

  lemma {:induction false} OfValueInverse(w: Word)
    ensures OfValue(Value(w), |w|) == w
  {
    if w != [] {
      OfValueInverse(w[1..]);
    }
  }

  /** An odd number of set bits. */
  predicate Odd(a: Word) {
    a != [] && Odd(a[..|a| - 1]) != a[|a| - 1]
  }

  lemma {:induction false} OddXor(a: Word, b: Word)
    requires |a| == |b|
    ensures Odd(Xor(a, b)) == (Odd(a) != Odd(b))
  {
    if a != [] {
      var n := |a| - 1;
      assert Xor(a, b)[..n] == Xor(a[..n], b[..n]);
      OddXor(a[..n], b[..n]);
    }
  }

  lemma {:induction false} OddConcat(a: Word, b: Word)
    ensures Odd(a + b) == (Odd(a) != Odd(b))
  {
    if b == [] {
      assert a + b == a;
    } else {
      assert (a + b)[..|a + b| - 1] == a + b[..|b| - 1];
      OddConcat(a, b[..|b| - 1]);
    }
  }

  lemma {:induction false} OddZero(n: nat)
    ensures !Odd(Zero(n))
  {
    if n != 0 {
      assert Zero(n)[..n - 1] == Zero(n - 1);
      OddZero(n - 1);
    }
  }
}
