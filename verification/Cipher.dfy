/**
 The stream cipher of the encrypted transport. RC4 itself is a parameter: a keystream is any
 function from positions to bytes. What matters to the protocol is that both ends apply the
 same keystream at the same positions.
 */
module Cipher {
  import opened Bytes

  type Keystream = nat -> byte

  function XorBits(a: nat, b: nat, n: nat): (r: nat)
    ensures r < Pow2(n)
  {
    if n == 0 then 0 else (a % 2 + b % 2) % 2 + 2 * XorBits(a / 2, b / 2, n - 1)
  }

  lemma ByteRange()
    ensures Pow2(8) == 256
  {
    assert Pow2(8) == 2 * Pow2(7) == 4 * Pow2(6) == 8 * Pow2(5) == 16 * Pow2(4);
  }

  function Xor(a: byte, k: byte): byte {
    ByteRange();
    XorBits(a, k, 8)
  }

  lemma LowBit(bit: nat, high: nat)
    requires bit < 2
    ensures (bit + 2 * high) % 2 == bit && (bit + 2 * high) / 2 == high
  {
  }

  lemma {:induction false} XorBitsInverse(a: nat, k: nat, n: nat)
    requires a < Pow2(n)
    ensures XorBits(XorBits(a, k, n), k, n) == a
  {
    if n > 0 {
      var bit, high := (a % 2 + k % 2) % 2, XorBits(a / 2, k / 2, n - 1);
      LowBit(bit, high);
      assert XorBits(a, k, n) == bit + 2 * high;
      assert (bit + k % 2) % 2 == a % 2;
      XorBitsInverse(a / 2, k / 2, n - 1);
    }
  }

  lemma XorInverse(a: byte, k: byte)
    ensures Xor(Xor(a, k), k) == a
  {
    ByteRange();
    XorBitsInverse(a, k, 8);
  }

  /** Bit `j` of a number, the lowest first. */
  predicate BitAt(a: nat, j: nat) { if j == 0 then a % 2 == 1 else BitAt(a / 2, j - 1) }

  lemma {:induction false} XorBitsBit(a: nat, k: nat, n: nat, j: nat)
    requires j < n
    ensures BitAt(XorBits(a, k, n), j) <==> BitAt(a, j) != BitAt(k, j)
  {
    var bit, high := (a % 2 + k % 2) % 2, XorBits(a / 2, k / 2, n - 1);
    LowBit(bit, high);
    if j > 0 {
      XorBitsBit(a / 2, k / 2, n - 1, j - 1);
    }
  }

  /** Each bit is flipped exactly where the key has a one. */
  lemma XorBit(a: byte, k: byte, j: nat)
    requires j < 8
    ensures BitAt(Xor(a, k), j) <==> BitAt(a, j) != BitAt(k, j)
  {
    hide XorBits, BitAt;
    XorBitsBit(a, k, 8, j);
  }

  lemma {:induction false} XorBitsSwap(a: nat, k: nat, n: nat)
    ensures XorBits(a, k, n) == XorBits(k, a, n)
  {
    if n > 0 {
      XorBitsSwap(a / 2, k / 2, n - 1);
    }
  }

  lemma {:induction false} XorBitsZero(k: nat, n: nat)
    requires k < Pow2(n)
    ensures XorBits(0, k, n) == k
  {
    if n > 0 {
      XorBitsZero(k / 2, n - 1);
    }
  }

  /** A zero shows the key, a zero key changes nothing, and different keys never agree. */
  lemma XorKeys(a: byte, k: byte, k': byte)
    ensures Xor(0, k) == k && (Xor(a, k) == a <==> k == 0) && (Xor(a, k) == Xor(a, k') <==> k == k')
  {
    hide XorBits;
    ByteRange();
    XorBitsZero(k, 8);
    XorBitsZero(a, 8);
    XorBitsSwap(a, k, 8);
    XorBitsSwap(a, k', 8);
    XorBitsSwap(a, 0, 8);
    XorInverse(k, a);
    XorInverse(k', a);
    XorInverse(0, a);
  }

  /** Encrypts or decrypts `data` with the keystream from position `pos` on. */
  function Crypt(ks: Keystream, pos: nat, data: bytes): (r: bytes)
    ensures |r| == |data|
  {
    seq(|data|, i requires 0 <= i < |data| => Xor(data[i], ks(pos + i)))
  }

  lemma CryptConcat(ks: Keystream, pos: nat, a: bytes, b: bytes)
    ensures Crypt(ks, pos, a + b) == Crypt(ks, pos, a) + Crypt(ks, pos + |a|, b)
  {
    hide Xor;
    var l, r := Crypt(ks, pos, a + b), Crypt(ks, pos, a) + Crypt(ks, pos + |a|, b);
    forall i | 0 <= i < |l| ensures l[i] == r[i] {
      if i >= |a| {
        assert pos + i == pos + |a| + (i - |a|);
      }
    }
  }

  lemma CryptInverse(ks: Keystream, pos: nat, data: bytes)
    ensures Crypt(ks, pos, Crypt(ks, pos, data)) == data
  {
    hide Xor;
    forall i | 0 <= i < |data| ensures Crypt(ks, pos, Crypt(ks, pos, data))[i] == data[i] {
      XorInverse(data[i], ks(pos + i));
    }
  }

  lemma CryptSlice(ks: Keystream, pos: nat, data: bytes, i: nat, j: nat)
    requires i <= j <= |data|
    ensures Crypt(ks, pos, data)[i..j] == Crypt(ks, pos + i, data[i..j])
  {
    hide Xor;
    var l, r := Crypt(ks, pos, data)[i..j], Crypt(ks, pos + i, data[i..j]);
    forall k | 0 <= k < |l| ensures l[k] == r[k] {
      assert pos + (i + k) == pos + i + k;
    }
  }

  /** Zeros are encrypted to the keystream itself, from the position on. */
  lemma CryptZeros(ks: Keystream, pos: nat, zeros: bytes)
    requires forall i :: 0 <= i < |zeros| ==> zeros[i] == 0
    ensures forall i :: 0 <= i < |zeros| ==> Crypt(ks, pos, zeros)[i] == ks(pos + i)
  {
    hide Xor;
    forall i | 0 <= i < |zeros| ensures Crypt(ks, pos, zeros)[i] == ks(pos + i) {
      XorKeys(0, ks(pos + i), 0);
    }
  }

  /** A byte goes through unchanged only under a keystream byte of zero, and two keystreams give the same byte exactly where they agree. */
  lemma CryptHides(ks: Keystream, ks': Keystream, pos: nat, data: bytes)
    ensures forall i :: 0 <= i < |data| ==> (Crypt(ks, pos, data)[i] == data[i] <==> ks(pos + i) == 0)
    ensures forall i :: 0 <= i < |data| ==> (Crypt(ks, pos, data)[i] == Crypt(ks', pos, data)[i] <==> ks(pos + i) == ks'(pos + i))
  {
    hide Xor;
    var x, y := Crypt(ks, pos, data), Crypt(ks', pos, data);
    forall i | 0 <= i < |data|
      ensures x[i] == data[i] <==> ks(pos + i) == 0
      ensures x[i] == y[i] <==> ks(pos + i) == ks'(pos + i) {
      XorKeys(data[i], ks(pos + i), ks'(pos + i));
    }
  }

  /** One direction of the cipher: its position only moves forward. */
  class Rc4 {
    const ks: Keystream
    var pos: nat

    constructor (ks: Keystream)
      ensures this.ks == ks && pos == 0
    {
      this.ks := ks;
      pos := 0;
    }

    method Process(data: bytes) returns (out: bytes)
      modifies this`pos
      ensures out == Crypt(ks, old(pos), data) && pos == old(pos) + |data|
      ensures forall i, j :: 0 <= i < |data| && 0 <= j < 8 ==>
                (BitAt(out[i], j) <==> BitAt(data[i], j) != BitAt(ks(old(pos) + i), j))
    {
      hide Xor, BitAt;
      out := [];
      for i := 0 to |data|
        invariant pos == old(pos) + i && out == Crypt(ks, old(pos), data)[..i]
      {
        out := out + [Xor(data[i], ks(pos))];
        pos := pos + 1;
      }
      forall i, j | 0 <= i < |data| && 0 <= j < 8
        ensures BitAt(out[i], j) <==> BitAt(data[i], j) != BitAt(ks(old(pos) + i), j) {
        XorBit(data[i], ks(old(pos) + i), j);
      }
    }
  }
}
