/** The base32 form of an info-hash in magnet links (section 6 of RFC 4648, without padding). */
module Base32 {
  import opened Bytes

  /** `position` in the alphabet A-Z, 2-7: lower case and padding are not in it. */
  function Value(c: char): Option<nat> {
    if 'A' <= c <= 'Z' then Some((c - 'A') as nat)
    else if '2' <= c <= '7' then Some((c - '2') as nat + 26)
    else None
  }

  /** The letter at a position of the alphabet. */
  function Letter(v: nat): char
    requires v < 32
  {
    if v < 26 then 'A' + v as char else '2' + (v - 26) as char
  }

  lemma ValueLetter(c: char)
    ensures Value(c).Some? ==> Value(c).value < 32 && Letter(Value(c).value) == c
  {
  }

  lemma LetterValue(v: nat)
    requires v < 32
    ensures Value(Letter(v)) == Some(v)
  {
  }

  // Positional notation ------------------------------------------------------------------------

  predicate Digits(base: nat, ds: seq<nat>) {
    forall i :: 0 <= i < |ds| ==> ds[i] < base
  }

  /** The number a string of digits stands for, the highest digit first. */
  function FromBase(base: nat, ds: seq<nat>): nat {
    if ds == [] then 0 else FromBase(base, ds[..|ds| - 1]) * base + ds[|ds| - 1]
  }

  function Quot(v: nat, base: nat): nat
    requires base > 0
  {
    v / base
  }

  function Rem(v: nat, base: nat): (r: nat)
    requires base > 0
    ensures r < base
  {
    v % base
  }

  lemma QuotRem(v: nat, base: nat)
    requires base > 0
    ensures v == Quot(v, base) * base + Rem(v, base)
  {
  }

  /** The last `n` digits of a number. */
  function ToBase(base: nat, v: nat, n: nat): (ds: seq<nat>)
    requires base > 0
    ensures |ds| == n && Digits(base, ds)
    decreases n
  {
    if n == 0 then [] else ToBase(base, Quot(v, base), n - 1) + [Rem(v, base)]
  }

  lemma FromSnoc(base: nat, ds: seq<nat>, d: nat)
    ensures FromBase(base, ds + [d]) == FromBase(base, ds) * base + d
  {
    assert (ds + [d])[..|ds|] == ds;
  }

  /** Digits of a known number are its digits: positional notation is unique. */
  lemma {:induction false} Unique(base: nat, ds: seq<nat>)
    requires base > 0 && Digits(base, ds)
    ensures ToBase(base, FromBase(base, ds), |ds|) == ds
  {
    if ds != [] {
      var front, last := ds[..|ds| - 1], ds[|ds| - 1];
      Unique(base, front);
      DivMod(FromBase(base, front), base, last);
      assert ds == front + [last];
    }
  }

  lemma DivMod(q: nat, base: nat, r: nat)
    requires r < base
    ensures Quot(q * base + r, base) == q && Rem(q * base + r, base) == r
  {
    hide Quot, Rem;
    var x := q * base + r;
    QuotRem(x, base);
    if Quot(x, base) < q {
      MulLe(Quot(x, base) + 1, q, base);
    } else if Quot(x, base) > q {
      MulLe(q + 1, Quot(x, base), base);
    }
  }

  lemma Pow2Steps(n: nat)
    ensures Pow2(n + 5) == 32 * Pow2(n) && Pow2(n + 8) == 256 * Pow2(n)
  {
    assert Pow2(n + 2) == 4 * Pow2(n);
    assert Pow2(n + 4) == 4 * Pow2(n + 2);
    assert Pow2(n + 6) == 4 * Pow2(n + 4);
  }

  // Decoding ---------------------------------------------------------------------------------------

  predicate AllValid(s: string) {
    forall i :: 0 <= i < |s| ==> Value(s[i]).Some?
  }

  lemma ValuesSmall(s: string)
    ensures forall i :: 0 <= i < |s| && Value(s[i]).Some? ==> Value(s[i]).value < 32
  {
    forall i | 0 <= i < |s| ensures Value(s[i]).Some? ==> Value(s[i]).value < 32 {
      ValueLetter(s[i]);
    }
  }

  function Values(s: string): (ds: seq<nat>)
    requires AllValid(s)
    ensures |ds| == |s| && Digits(32, ds)
  {
    ValuesSmall(s);
    seq(|s|, i requires 0 <= i < |s| => Value(s[i]).value)
  }

  /**
   The twenty bytes a string stands for: 32 letters carry exactly 160 bits, of 33 the last five
   bits are dropped, any other length has no or too many whole bytes.
   */
  function Decoded(s: string): Option<seq<nat>> {
    if AllValid(s) && 32 <= |s| <= 33 then Some(ToBase(256, Quot(FromBase(32, Values(s)), Pow2(5 * |s| - 160)), 20)) else None
  }

  /** What the decoder's variables stand for after some letters. */
  predicate Holds(ds: seq<nat>, out: seq<nat>, bits: nat, nbits: nat) {
    && Digits(256, out) && nbits < 8 && 5 * |ds| == 8 * |out| + nbits
    && bits < Pow2(nbits) && FromBase(32, ds) == FromBase(256, out) * Pow2(nbits) + bits
  }

  /** `base32_decode` */
  method Decode(s: string) returns (r: Option<seq<nat>>)
    ensures r == Decoded(s)
    ensures r.Some? ==> |r.value| == 20 && Digits(256, r.value)
  {
    hide Pow2, Digits, Value, AllValid, Values, Quot, Rem, FromBase, ToBase;
    var bits: nat, nbits: nat := 0, 0;
    var out: seq<nat> := [];
    NothingHeld();
    assert s[..0] == "";
    for k := 0 to |s|
      invariant AllValid(s[..k]) && Holds(Values(s[..k]), out, bits, nbits)
    {
      var v := Value(s[k]);
      OneMoreValue(s, k);
      if v.None? {
        return None;
      }
      ValueLetter(s[k]);
      Push(Values(s[..k]), out, bits, nbits, v.value);
      bits := bits * 32 + v.value;
      nbits := nbits + 5;
      if nbits >= 8 {
        nbits := nbits - 8;
        out := out + [Quot(bits, Pow2(nbits))];
        bits := Rem(bits, Pow2(nbits));
      }
    }
    assert s[..|s|] == s;
    if |out| != 20 {
      return None;
    }
    Finished(Values(s), out, bits, nbits);
    r := Some(out);
  }

  lemma OneMoreValue(s: string, k: nat)
    requires k < |s| && AllValid(s[..k])
    ensures Value(s[k]).Some? ==> AllValid(s[..k + 1]) && Values(s[..k + 1]) == Values(s[..k]) + [Value(s[k]).value]
    ensures Value(s[k]).None? ==> !AllValid(s)
  {
    hide Value;
    assert s[..k + 1] == s[..k] + [s[k]];
  }

  lemma NothingHeld()
    ensures Holds([], [], 0, 0) && AllValid("") && Values("") == []
  {
  }

  lemma PushValue(a: nat, o: nat, p: nat, bits: nat, v: nat)
    requires a == o * p + bits && bits < p && v < 32
    ensures a * 32 + v == o * (32 * p) + (bits * 32 + v) && bits * 32 + v < 32 * p
  {
    assert (o * p) * 32 == o * (32 * p);
  }

  lemma PopValue(o: nat, q: nat, more: nat)
    requires q > 0 && more < 256 * q
    ensures Quot(more, q) < 256 && o * (256 * q) + more == (o * 256 + Quot(more, q)) * q + Rem(more, q)
  {
    hide Quot, Rem;
    QuotRem(more, q);
    if Quot(more, q) >= 256 {
      MulLe(256, Quot(more, q), q);
    }
    assert (o * 256 + Quot(more, q)) * q == o * (256 * q) + Quot(more, q) * q;
  }

  /** One more letter: five bits in, a byte out once eight are there. */
  lemma Push(ds: seq<nat>, out: seq<nat>, bits: nat, nbits: nat, v: nat)
    requires Holds(ds, out, bits, nbits) && v < 32
    ensures var more := bits * 32 + v;
            if nbits + 5 < 8 then Holds(ds + [v], out, more, nbits + 5)
            else Holds(ds + [v], out + [Quot(more, Pow2(nbits - 3))], Rem(more, Pow2(nbits - 3)), nbits - 3)
  {
    hide Pow2, Quot, Rem, FromBase;
    var p, more, o := Pow2(nbits), bits * 32 + v, FromBase(256, out);
    FromSnoc(32, ds, v);
    Pow2Steps(nbits);
    PushValue(FromBase(32, ds), o, p, bits, v);
    if nbits + 5 >= 8 {
      var q := Pow2(nbits - 3);
      Pow2Steps(nbits - 3);
      PopValue(o, q, more);
      FromSnoc(256, out, Quot(more, q));
    }
  }

  lemma Finished(ds: seq<nat>, out: seq<nat>, bits: nat, nbits: nat)
    requires Holds(ds, out, bits, nbits) && |out| == 20
    ensures nbits == 5 * |ds| - 160 && 32 <= |ds| <= 33 && out == ToBase(256, Quot(FromBase(32, ds), Pow2(nbits)), 20)
  {
    hide Pow2;
    DivMod(FromBase(256, out), Pow2(nbits), bits);
    Unique(256, out);
  }

  // Encoding --------------------------------------------------------------------------------------------

  function Letters(ds: seq<nat>): (s: string)
    requires Digits(32, ds)
    ensures |s| == |ds|
  {
    seq(|ds|, i requires 0 <= i < |ds| => Letter(ds[i]))
  }

  /** The inverse for twenty bytes: 160 bits are exactly 32 letters. */
  function Encoded(data: seq<nat>): string { Letters(ToBase(32, FromBase(256, data), 32)) }

  lemma LettersValues(ds: seq<nat>)
    requires Digits(32, ds)
    ensures AllValid(Letters(ds)) && Values(Letters(ds)) == ds
  {
    forall i | 0 <= i < |ds| ensures Value(Letters(ds)[i]) == Some(ds[i]) {
      LetterValue(ds[i]);
    }
  }

  lemma ValuesLetters(s: string)
    requires AllValid(s)
    ensures Letters(Values(s)) == s
  {
    forall i | 0 <= i < |s| ensures Letters(Values(s))[i] == s[i] {
      ValueLetter(s[i]);
    }
  }

  lemma DigitFits(x: nat, p: nat, base: nat, d: nat)
    requires x < p && d < base
    ensures x * base + d < p * base
  {
    MulLe(x + 1, p, base);
  }

  lemma QuotFits(v: nat, p: nat, base: nat)
    requires base > 0 && v < p * base
    ensures Quot(v, base) < p
  {
    hide Quot, Rem;
    QuotRem(v, base);
    if Quot(v, base) >= p {
      MulLe(p, Quot(v, base), base);
    }
  }

  /** How many numbers `n` digits can write. */
  function Power(base: nat, n: nat): nat { if n == 0 then 1 else Power(base, n - 1) * base }

  lemma {:induction false} BelowPower(base: nat, ds: seq<nat>)
    requires Digits(base, ds)
    ensures FromBase(base, ds) < Power(base, |ds|)
  {
    if ds != [] {
      var front := ds[..|ds| - 1];
      BelowPower(base, front);
      DigitFits(FromBase(base, front), Power(base, |front|), base, ds[|ds| - 1]);
    }
  }

  /** Writing a number with enough digits loses nothing. */
  lemma {:induction false} NothingLost(base: nat, v: nat, n: nat)
    requires base > 0 && v < Power(base, n)
    ensures FromBase(base, ToBase(base, v, n)) == v
    decreases n
  {
    hide Quot, Rem;
    if n > 0 {
      QuotFits(v, Power(base, n - 1), base);
      NothingLost(base, Quot(v, base), n - 1);
      FromSnoc(base, ToBase(base, Quot(v, base), n - 1), Rem(v, base));
      QuotRem(v, base);
    }
  }

  lemma {:induction false} PowerIs(bitsEach: nat, base: nat, n: nat)
    requires base == Pow2(bitsEach)
    ensures Power(base, n) == Pow2(bitsEach * n)
  {
    if n == 0 {
      assert bitsEach * n == 0;
    } else {
      PowerIs(bitsEach, base, n - 1);
      Pow2Add(bitsEach * (n - 1), bitsEach);
      assert bitsEach * n == bitsEach * (n - 1) + bitsEach;
    }
  }

  lemma Doubles(x: nat, y: nat)
    ensures x * (2 * y) == 2 * (x * y)
  {
  }

  lemma {:induction false} Pow2Add(a: nat, b: nat)
    ensures Pow2(a + b) == Pow2(a) * Pow2(b)
  {
    if b > 0 {
      Pow2Add(a, b - 1);
      Doubles(Pow2(a), Pow2(b - 1));
    }
  }

  /** Twenty bytes and thirty-two letters write the same numbers. */
  lemma SameRange()
    ensures Power(256, 20) == Power(32, 32)
  {
    hide Power, Pow2;
    Bases();
    PowerIs(8, 256, 20);
    PowerIs(5, 32, 32);
  }

  lemma Bases()
    ensures 32 == Pow2(5) && 256 == Pow2(8)
  {
    Pow2Steps(0);
  }

  /** Every info-hash survives encoding and decoding. */
  lemma DecodeEncode(data: seq<nat>)
    requires |data| == 20 && Digits(256, data)
    ensures Decoded(Encoded(data)) == Some(data)
  {
    hide Pow2, Value, AllValid, Values, Letters;
    hide Power, FromBase, ToBase, Digits;
    var v := FromBase(256, data);
    SameRange();
    BelowPower(256, data);
    NothingLost(32, v, 32);
    LettersValues(ToBase(32, v, 32));
    One(v);
    Unique(256, data);
  }

  lemma One(v: nat)
    ensures Pow2(0) == 1 && Quot(v, 1) == v
  {
  }

  /** Every valid string of 32 letters is the encoding of what it decodes to: decoding is one to one on them. */
  lemma EncodeDecode(s: string)
    requires |s| == 32 && AllValid(s)
    ensures Decoded(s).Some? && Encoded(Decoded(s).value) == s
  {
    hide Pow2, Value, Letters, Power, FromBase, ToBase, Digits, Quot, Values, AllValid;
    var v := FromBase(32, Values(s));
    SameRange();
    BelowPower(32, Values(s));
    NothingLost(256, v, 20);
    One(v);
    Unique(32, Values(s));
    ValuesLetters(s);
  }

  /** The alphabet runs from A, which is 0, to Z and on from 2 to 7, which is 31; nothing else is in it. */
  lemma AlphabetIs(c: char)
    ensures Value('A') == Some(0) && Value('Z') == Some(25) && Value('2') == Some(26) && Value('7') == Some(31)
    ensures 'A' <= c < 'Z' || '2' <= c < '7' ==> Value(c).Some? && Value(c + 1 as char) == Some(Value(c).value + 1)
    ensures Value(c).Some? <==> 'A' <= c <= 'Z' || '2' <= c <= '7'
  {
  }

  /** Accepted are 32 or 33 letters of the alphabet, and nothing else; a 33rd changes nothing. */
  lemma AcceptedIff(s: string)
    ensures Decoded(s).Some? <==>
            (|s| == 32 || |s| == 33) && forall i :: 0 <= i < |s| ==> 'A' <= s[i] <= 'Z' || '2' <= s[i] <= '7'
    ensures |s| == 33 && Decoded(s).Some? ==> Decoded(s) == Decoded(s[..32])
  {
    hide ToBase, FromBase, Quot;
    if |s| == 33 && AllValid(s) {
      ValuesFront(s);
      LastDropped(Values(s));
    }
  }

  lemma ValuesFront(s: string)
    requires |s| == 33 && AllValid(s)
    ensures AllValid(s[..32]) && Values(s)[..32] == Values(s[..32])
  {
  }

  lemma LastDropped(ds: seq<nat>)
    requires |ds| == 33 && Digits(32, ds)
    ensures Quot(FromBase(32, ds), Pow2(5)) == Quot(FromBase(32, ds[..32]), Pow2(0))
  {
    hide Pow2;
    PowerOfFive();
    assert FromBase(32, ds) == FromBase(32, ds[..32]) * 32 + ds[32];
  }

  lemma PowerOfFive()
    ensures Pow2(5) == 32 && Pow2(0) == 1
  {
    assert Pow2(5) == 2 * Pow2(4) == 4 * Pow2(3) == 8 * Pow2(2) == 16 * Pow2(1);
  }
}
