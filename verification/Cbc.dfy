/** AES-128 in CBC mode (NIST SP 800-38A, section 6.2). The block cipher is any pair of
    block functions of which the second undoes the first. */
module Cbc {
  import opened Bytes
  import Words

  const BLOCK := 16
  type Block = b: seq<byte> | |b| == BLOCK witness seq(16, _ => 0)

  datatype Cipher = Cipher(enc: Block -> Block, dec: Block -> Block) {
    ghost predicate Invertible() {
      forall b: Block :: dec(enc(b)) == b
    }
  }

  /** The low `bits` bits of the exclusive or. */
  function XorBits(a: nat, b: nat, bits: nat): nat {
    if bits == 0 then 0 else (if a % 2 == b % 2 then 0 else 1) + 2 * XorBits(a / 2, b / 2, bits - 1)
  }

  lemma {:induction false} XorBitsUndone(a: nat, b: nat, bits: nat)
    requires a < Pow2(bits)
    ensures XorBits(a, b, bits) < Pow2(bits)
    ensures XorBits(XorBits(a, b, bits), b, bits) == a
  {
    if bits != 0 {
      XorBitsUndone(a / 2, b / 2, bits - 1);
      var x := XorBits(a, b, bits);
      assert x / 2 == XorBits(a / 2, b / 2, bits - 1);
    }
  }

  function Xor(a: byte, b: byte): byte {
    assert Pow2(8) == 256 by { assert Pow2(4) == 16; assert Pow2(6) == 64; }
    XorBitsUndone(a, b, 8);
    XorBits(a, b, 8)
  }

  lemma XorUndone(a: byte, b: byte)
    ensures Xor(Xor(a, b), b) == a
  {
    assert Pow2(8) == 256 by { assert Pow2(4) == 16; assert Pow2(6) == 64; }
    XorBitsUndone(a, b, 8);
  }

  function XorBlock(a: Block, b: Block): Block {
    seq(BLOCK, i requires 0 <= i < BLOCK => Xor(a[i], b[i]))
  }

  lemma XorBlockUndone(a: Block, b: Block)
    ensures XorBlock(XorBlock(a, b), b) == a
  {
    forall i | 0 <= i < BLOCK ensures XorBlock(XorBlock(a, b), b)[i] == a[i] {
      XorUndone(a[i], b[i]);
    }
  }

  /** A whole number of blocks. */
  predicate Whole(data: seq<byte>) {
    |data| % BLOCK == 0
  }

  function Encrypt(c: Cipher, iv: Block, plain: seq<byte>): (ct: seq<byte>)
    requires Whole(plain)
    ensures |ct| == |plain|
    decreases |plain|
  {
    if plain == [] then []
    else
      var first := c.enc(XorBlock(plain[..BLOCK], iv));
      first + Encrypt(c, first, plain[BLOCK..])
  }

  function Decrypt(c: Cipher, iv: Block, ct: seq<byte>): (plain: seq<byte>)
    requires Whole(ct)
    ensures |plain| == |ct|
    decreases |ct|
  {
    if ct == [] then []
    else XorBlock(c.dec(ct[..BLOCK]), iv) + Decrypt(c, ct[..BLOCK], ct[BLOCK..])
  }

  /** The chaining value after `ct`: its last block. */
  function NextIv(iv: Block, ct: seq<byte>): Block
    requires Whole(ct)
  {
    if ct == [] then iv else ct[|ct| - BLOCK..]
  }

  /** The i-th block. */
  function BlockAt(data: seq<byte>, i: nat): Block
    requires Whole(data) && 16 * i < |data|
  {
    data[16 * i..16 * i + 16]
  }

  /** Section 6.2 of SP 800-38A, block by block: each plaintext block is the deciphered block,
      exclusive-or the ciphertext block before it, or the vector for the first. */
  lemma {:induction false} DecryptBlock(c: Cipher, iv: Block, ct: seq<byte>, i: nat)
    requires Whole(ct) && 16 * i < |ct|
    ensures BlockAt(Decrypt(c, iv, ct), i)
         == XorBlock(c.dec(BlockAt(ct, i)), if i == 0 then iv else BlockAt(ct, i - 1))
    decreases i
  {
    var first, tail := ct[..BLOCK], ct[BLOCK..];
    var head, rest := XorBlock(c.dec(first), iv), Decrypt(c, first, tail);
    assert ct == first + tail;
    if i > 0 {
      DecryptBlock(c, first, tail, i - 1);
      LaterBlock(head, rest, i - 1);
      LaterBlock(first, tail, i - 1);
      if i > 1 {
        LaterBlock(first, tail, i - 2);
      }
    }
  }

  lemma LaterBlock(first: Block, rest: seq<byte>, i: nat)
    requires Whole(rest) && 16 * i < |rest|
    ensures Whole(first + rest) && BlockAt(first + rest, 0) == first && BlockAt(first + rest, i + 1) == BlockAt(rest, i)
  {
  }

  /** The exclusive or of two bytes, bit by bit. */
  lemma {:induction false} XorBit(a: nat, b: nat, bits: nat, k: nat)
    requires k < bits
    ensures Words.Halved(XorBits(a, b, bits), k) % 2 == 1
            <==> (Words.Halved(a, k) % 2 == 1) != (Words.Halved(b, k) % 2 == 1)
    decreases bits
  {
    if k > 0 {
      assert XorBits(a, b, bits) / 2 == XorBits(a / 2, b / 2, bits - 1);
      XorBit(a / 2, b / 2, bits - 1, k - 1);
    }
  }

  lemma {:induction false} RoundTrip(c: Cipher, iv: Block, plain: seq<byte>)
    requires c.Invertible() && Whole(plain)
    ensures Decrypt(c, iv, Encrypt(c, iv, plain)) == plain
    decreases |plain|
  {
    if plain != [] {
      var x := XorBlock(plain[..BLOCK], iv);
      var first := c.enc(x);
      RoundTrip(c, first, plain[BLOCK..]);
      XorBlockUndone(plain[..BLOCK], iv);
      var ct := Encrypt(c, iv, plain);
      assert ct[..BLOCK] == first && ct[BLOCK..] == Encrypt(c, first, plain[BLOCK..]);
      assert plain == plain[..BLOCK] + plain[BLOCK..];
    }
  }

  /** Decrypting in pieces, the chaining value carried over, is decrypting at once. */
  lemma {:induction false} DecryptInPieces(c: Cipher, iv: Block, a: seq<byte>, b: seq<byte>)
    requires Whole(a) && Whole(b)
    ensures Whole(a + b)
    ensures Decrypt(c, iv, a + b) == Decrypt(c, iv, a) + Decrypt(c, NextIv(iv, a), b)
    ensures NextIv(iv, a + b) == NextIv(NextIv(iv, a), b)
    decreases |a|
  {
    if a == [] {
      assert a + b == b;
    } else {
      var first, rest := a[..BLOCK], a[BLOCK..];
      DecryptInPieces(c, first, rest, b);
      assert (a + b)[..BLOCK] == first && (a + b)[BLOCK..] == rest + b;
      NextIvOfConcat(iv, a, b);
      NextIvOfConcat(iv, first, rest);
      assert first + rest == a;
      var head := XorBlock(c.dec(first), iv);
      Regroup(head, Decrypt(c, first, rest), Decrypt(c, NextIv(iv, a), b));
    }
  }

  lemma Regroup<T>(a: seq<T>, b: seq<T>, c: seq<T>)
    ensures a + (b + c) == a + b + c
  {
  }

  lemma NextIvOfConcat(iv: Block, a: seq<byte>, b: seq<byte>)
    requires Whole(a) && Whole(b)
    ensures Whole(a + b) && NextIv(iv, a + b) == NextIv(NextIv(iv, a), b)
  {
    if b == [] {
      assert a + b == a;
    } else {
      assert (a + b)[|a + b| - BLOCK..] == b[|b| - BLOCK..];
    }
  }
}
