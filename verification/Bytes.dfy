/** Bytes, byte strings and the two failure-carrying datatypes every other module uses. */
module Bytes {

  type byte = b: int | 0 <= b < 256
  type bytes = seq<byte>

  const U16_MAX := 0xFFFF
  const U32_MAX := 0xFFFF_FFFF
  const U64_MAX := 0xFFFF_FFFF_FFFF_FFFF

  datatype Option<+T> = None | Some(value: T)

  datatype Result<+T, +E> = Ok(value: T) | Err(error: E)

  /** The bytes of an ASCII literal. */
  function Ascii(s: string): (r: bytes)
    requires forall i :: 0 <= i < |s| ==> s[i] < 128 as char
    ensures |r| == |s| && forall i :: 0 <= i < |s| ==> r[i] == s[i] as int
  {
    seq(|s|, i requires 0 <= i < |s| => s[i] as int)
  }

  function Min(a: int, b: int): int { if a <= b then a else b }

  function Max(a: int, b: int): int { if a <= b then b else a }

  function DivCeil(a: nat, b: nat): nat
    requires b > 0
  {
    (a + b - 1) / b
  }

  /** The numbers below `n`. */
  function Upto(n: nat): (r: set<nat>)
    ensures forall i :: i in r <==> 0 <= i < n
  {
    if n == 0 then {} else Upto(n - 1) + {n - 1}
  }

  lemma {:induction false} UptoCard(n: nat)
    ensures |Upto(n)| == n
  {
    if n > 0 {
      UptoCard(n - 1);
    }
  }

  /** A subset is no larger, and as large only if it is the whole set. */
  lemma CardLe<T>(a: set<T>, b: set<T>)
    requires a <= b
    ensures |a| <= |b| && (|a| == |b| <==> a == b)
  {
    assert b == a + (b - a);
  }

  predicate NoRepeats(q: seq<nat>) {
    forall x, y :: 0 <= x < y < |q| ==> q[x] != q[y]
  }

  function Pow2(n: nat): (r: nat)
    ensures r > 0
  {
    if n == 0 then 1 else 2 * Pow2(n - 1)
  }

  lemma MulLe(a: int, b: int, c: nat)
    requires a <= b
    ensures a * c <= b * c
  {
  }

  /** The quotient rounded up is the least multiple that covers the total. */
  lemma DivCeilIs(n: nat, total: nat, size: nat)
    requires size > 0 && n * size >= total && (n > 0 ==> (n - 1) * size < total)
    ensures n == DivCeil(total, size)
  {
    var q := DivCeil(total, size);
    DivCeilBounds(total, size);
    if n < q {
      MulLe(n, q - 1, size);
    } else if n > q {
      MulLe(q, n - 1, size);
    }
  }

  lemma DivCeilBounds(total: nat, size: nat)
    requires size > 0
    ensures DivCeil(total, size) * size >= total
    ensures total > 0 ==> DivCeil(total, size) > 0 && (DivCeil(total, size) - 1) * size < total
    ensures total == 0 ==> DivCeil(total, size) == 0
  {
    var q := (total + size - 1) / size;
    assert q * size <= total + size - 1 < (q + 1) * size;
    assert (q + 1) * size == q * size + size && (q - 1) * size == q * size - size;
  }

  /** `t` holds the string `x` at offset `q`. */
  predicate At(t: bytes, q: nat, x: bytes) {
    q + |x| <= |t| && t[q..q + |x|] == x
  }

  lemma AtSplit(t: bytes, q: nat, x: bytes, y: bytes)
    requires At(t, q, x + y)
    ensures At(t, q, x) && At(t, q + |x|, y)
  {
    var w := t[q..q + |x + y|];
    assert t[q..q + |x|] == w[..|x|] == x;
    assert t[q + |x|..q + |x| + |y|] == w[|x|..] == y;
  }

  lemma AtIndex(t: bytes, q: nat, x: bytes, i: nat)
    requires At(t, q, x) && i < |x|
    ensures q + i < |t| && t[q + i] == x[i]
  {
    assert t[q + i] == t[q..q + |x|][i];
  }

  /** A slice embedded elsewhere, cut in two. */
  lemma AtCut(s: bytes, a: nat, m: nat, b: nat, t: bytes, q: nat)
    requires a <= m <= b <= |s| && At(t, q, s[a..b])
    ensures At(t, q, s[a..m]) && At(t, q + m - a, s[m..b])
    ensures a < b ==> q < |t| && t[q] == s[a]
  {
    assert s[a..b] == s[a..m] + s[m..b];
    AtSplit(t, q, s[a..m], s[m..b]);
    if a < b {
      AtIndex(t, q, s[a..b], 0);
    }
  }

  // Big-endian integers ------------------------------------------------------

  function Be16(n: nat): (r: bytes)
    requires n <= U16_MAX
    ensures |r| == 2 && FromBe16(r) == n
  {
    [n / 0x100, n % 0x100]
  }

  function FromBe16(s: bytes): (n: nat)
    requires |s| == 2
    ensures n <= U16_MAX
  {
    (s[0] as int) * 0x100 + s[1]
  }

  function Be32(n: nat): (r: bytes)
    requires n <= U32_MAX
    ensures |r| == 4
  {
    Be16(n / 0x1_0000) + Be16(n % 0x1_0000)
  }

  function FromBe32(s: bytes): (n: nat)
    requires |s| == 4
    ensures n <= U32_MAX
  {
    FromBe16(s[..2]) * 0x1_0000 + FromBe16(s[2..])
  }

  lemma Be32RoundTrip(n: nat)
    requires n <= U32_MAX
    ensures FromBe32(Be32(n)) == n
  {
    var hi, lo := Be16(n / 0x1_0000), Be16(n % 0x1_0000);
    assert (hi + lo)[..2] == hi && (hi + lo)[2..] == lo;
  }
}
