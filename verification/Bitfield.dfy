/**
 The piece bitmap: one bit per piece, the highest bit of a byte first. Every other module
 treats the map as the set of its pieces, which is what this one justifies.
 */
module Bitfield {
  import opened Bytes

  // Bits of one byte ---------------------------------------------------------------------

  /** `0x80 >> k` */
  function Mask(k: nat): bv8
    requires k < 8
  {
    if k == 0 then 0x80 else if k == 1 then 0x40 else if k == 2 then 0x20 else if k == 3 then 0x10
    else if k == 4 then 0x08 else if k == 5 then 0x04 else if k == 6 then 0x02 else 0x01
  }

  predicate BitOf(b: bv8, k: nat)
    requires k < 8
  {
    b & Mask(k) != 0
  }

  function On(b: bv8, k: nat): bv8
    requires k < 8
  {
    b | Mask(k)
  }

  function Off(b: bv8, k: nat): bv8
    requires k < 8
  {
    b & !Mask(k)
  }

  lemma OneBit(b: bv8, k: nat, j: nat)
    requires k < 8 && j < 8
    ensures BitOf(On(b, k), j) <==> j == k || BitOf(b, j)
    ensures BitOf(Off(b, k), j) <==> j != k && BitOf(b, j)
  {
  }

  // Bits of a bitfield ---------------------------------------------------------------------

  predicate Bit(bits: seq<bv8>, i: nat)
    requires i < 8 * |bits|
  {
    BitOf(bits[i / 8], i % 8)
  }

  /** The pieces a bitfield names. */
  function Members(bits: seq<bv8>): (r: set<nat>)
    ensures forall i :: i in r <==> 0 <= i < 8 * |bits| && Bit(bits, i)
  {
    set i | i in Upto(8 * |bits|) && Bit(bits, i)
  }

  function SetBit(bits: seq<bv8>, i: nat): seq<bv8>
    requires i < 8 * |bits|
  {
    bits[i / 8 := On(bits[i / 8], i % 8)]
  }

  function ClearBit(bits: seq<bv8>, i: nat): seq<bv8>
    requires i < 8 * |bits|
  {
    bits[i / 8 := Off(bits[i / 8], i % 8)]
  }

  lemma SetBitIs(bits: seq<bv8>, i: nat, j: nat)
    requires i < 8 * |bits| && j < 8 * |bits|
    ensures |SetBit(bits, i)| == |ClearBit(bits, i)| == |bits|
    ensures Bit(SetBit(bits, i), j) <==> j == i || Bit(bits, j)
    ensures Bit(ClearBit(bits, i), j) <==> j != i && Bit(bits, j)
  {
    hide BitOf, On, Off;
    assert i == j <==> i / 8 == j / 8 && i % 8 == j % 8;
    OneBit(bits[i / 8], i % 8, j % 8);
  }

  lemma OneMember(bits: seq<bv8>, i: nat)
    requires i < 8 * |bits|
    ensures Members(SetBit(bits, i)) == Members(bits) + {i}
    ensures Members(ClearBit(bits, i)) == Members(bits) - {i}
  {
    hide Bit, SetBit, ClearBit;
    assert |SetBit(bits, i)| == |ClearBit(bits, i)| == |bits| by { SetBitIs(bits, i, i); }
    forall j | 0 <= j < 8 * |bits|
      ensures Bit(SetBit(bits, i), j) <==> j == i || Bit(bits, j)
      ensures Bit(ClearBit(bits, i), j) <==> j != i && Bit(bits, j) {
      SetBitIs(bits, i, j);
    }
  }

  lemma NoMembers(bits: seq<bv8>)
    requires forall b :: 0 <= b < |bits| ==> bits[b] == 0
    ensures Members(bits) == {}
  {
    forall i | 0 <= i < 8 * |bits| ensures !Bit(bits, i) {}
  }

  /** `count_ones` */
  function Ones(b: bv8, k: nat): nat
    requires k <= 8
  {
    if k == 0 then 0 else Ones(b, k - 1) + (if BitOf(b, k - 1) then 1 else 0)
  }

  /** The members below `8 * m + k`, counted. */
  lemma {:induction false} OnesAdd(bits: seq<bv8>, m: nat, k: nat)
    requires m < |bits| && k <= 8
    ensures |set i | i in Members(bits) && i < 8 * m + k| == |set i | i in Members(bits) && i < 8 * m| + Ones(bits[m], k)
  {
    hide BitOf;
    if k > 0 {
      OnesAdd(bits, m, k - 1);
      var before := set i | i in Members(bits) && i < 8 * m + (k - 1);
      var after := set i | i in Members(bits) && i < 8 * m + k;
      var i := 8 * m + (k - 1);
      assert i / 8 == m && i % 8 == k - 1;
      assert after == before + (if i in Members(bits) then {i} else {});
    }
  }

  class PieceMap {
    const count: nat
    var bits: seq<bv8>

    /** No bit beyond the last piece is ever set. */
    ghost predicate Valid()
      reads this
    {
      |bits| == DivCeil(count, 8) && forall i :: i in Members(bits) ==> i < count
    }

    ghost function Pieces(): set<nat>
      reads this
    {
      Members(bits)
    }

    constructor (count: nat)
      ensures Valid() && this.count == count && Pieces() == {}
    {
      this.count := count;
      bits := seq(DivCeil(count, 8), _ => 0);
      new;
      NoMembers(bits);
    }

    predicate IsSet(i: nat)
      requires Valid()
      reads this
      ensures IsSet(i) <==> i in Pieces()
    {
      RoomFor(count);
      i < count && Bit(bits, i)
    }

    method Set(i: nat)
      requires Valid()
      modifies this
      ensures Valid() && Pieces() == old(Pieces()) + (if i < count then {i} else {})
    {
      RoomFor(count);
      if i < count {
        OneMember(bits, i);
        bits := SetBit(bits, i);
      }
    }

    method Unset(i: nat)
      requires Valid()
      modifies this
      ensures Valid() && Pieces() == old(Pieces()) - {i}
    {
      RoomFor(count);
      if i < count {
        OneMember(bits, i);
        bits := ClearBit(bits, i);
      }
    }

    method Clear()
      requires Valid()
      modifies this
      ensures Valid() && Pieces() == {}
    {
      bits := seq(|bits|, _ => 0);
      NoMembers(bits);
    }

    /** `set_all`: fills every byte, then takes back the bits beyond the last piece. */
    method SetAll()
      requires Valid()
      modifies this
      ensures Valid() && Pieces() == Upto(count)
    {
      RoomFor(count);
      var all: seq<bv8> := seq(|bits|, _ => 0xFF);
      var trailing := count % 8;
      bits := if trailing != 0 && all != [] then all[|all| - 1 := all[|all| - 1] & HighBits(trailing)] else all;
      AllBits(bits, count);
    }

    /** `done_count`: exact, because no bit beyond the last piece is set. */
    method DoneCount() returns (n: nat)
      requires Valid()
      ensures n == |Pieces()|
    {
      hide BitOf;
      n := 0;
      assert (set i | i in Members(bits) && i < 0) == {};
      for m := 0 to |bits|
        invariant n == |set i | i in Members(bits) && i < 8 * m|
      {
        OnesAdd(bits, m, 8);
        n := n + Ones(bits[m], 8);
      }
      assert (set i | i in Members(bits) && i < 8 * |bits|) == Pieces();
      assert Pieces() <= Upto(count);
      UptoCard(count);
      CardLe(Pieces(), Upto(count));
      n := Min(n, count);
    }

    /** `all_done` */
    method AllDone() returns (all: bool)
      requires Valid()
      ensures all <==> Pieces() == Upto(count)
    {
      var n := DoneCount();
      UptoCard(count);
      assert Pieces() <= Upto(count);
      all := n == count;
      if all {
        CardLe(Pieces(), Upto(count));
      }
    }

    /** `missing`: the pieces not set, ascending. */
    method Missing() returns (out: seq<nat>)
      requires Valid()
      ensures forall i :: i in out <==> 0 <= i < count && i !in Pieces()
      ensures forall x, y :: 0 <= x < y < |out| ==> out[x] < out[y]
    {
      out := [];
      for i := 0 to count
        invariant forall j :: j in out <==> 0 <= j < i && j !in Pieces()
        invariant forall x :: 0 <= x < |out| ==> out[x] < i
        invariant forall x, y :: 0 <= x < y < |out| ==> out[x] < out[y]
      {
        if !IsSet(i) {
          out := out + [i];
        }
      }
    }

    /** `set_from_bitfield`: merges; a short bitfield and bits beyond the last piece are tolerated. */
    method SetFromBitfield(bf: seq<bv8>)
      requires Valid()
      modifies this
      ensures Valid() && Pieces() == old(Pieces()) + (set i | i in Members(bf) && i < count)
    {
      hide BitOf;
      ghost var was := Pieces();
      for b := 0 to |bf|
        invariant Valid() && Pieces() == was + (set i | i in Members(bf) && i < count && i < 8 * b)
      {
        if b * 8 >= count {
          break;
        }
        for k := 0 to 8
          invariant Valid() && Pieces() == was + (set i | i in Members(bf) && i < count && i < 8 * b + k)
        {
          var idx := 8 * b + k;
          if idx >= count {
            break;
          }
          assert idx / 8 == b && idx % 8 == k;
          if BitOf(bf[b], k) {
            Set(idx);
          }
        }
      }
    }
  }

  lemma RoomFor(count: nat)
    ensures count <= 8 * DivCeil(count, 8) < count + 8
  {
  }

  /** `0xFF << (8 - t)` */
  function HighBits(t: nat): bv8
    requires 0 < t < 8
  {
    if t == 1 then 0x80 else if t == 2 then 0xC0 else if t == 3 then 0xE0 else if t == 4 then 0xF0
    else if t == 5 then 0xF8 else if t == 6 then 0xFC else 0xFE
  }

  /** All ones, but for the bits of the last byte beyond the last piece. */
  lemma AllBits(bits: seq<bv8>, count: nat)
    requires |bits| == DivCeil(count, 8)
    requires forall b :: 0 <= b < |bits| ==>
               bits[b] == if b == |bits| - 1 && count % 8 != 0 then 0xFF & HighBits(count % 8) else 0xFF
    ensures Members(bits) == Upto(count)
  {
    hide BitOf, HighBits;
    forall i | 0 <= i < 8 * |bits| ensures Bit(bits, i) <==> i < count {
      FullByte(count % 8, i % 8);
    }
    RoomFor(count);
  }

  lemma FullByte(t: nat, k: nat)
    requires k < 8
    ensures BitOf(0xFF, k) && (0 < t < 8 ==> (BitOf(0xFF & HighBits(t), k) <==> k < t))
  {
  }

  lemma InByte(b: bv8, k: nat)
    requires k < 8
    ensures k in Members([b]) <==> BitOf(b, k)
  {
    hide BitOf;
    assert [b][k / 8] == b && k % 8 == k;
  }

  /** The first piece is the highest bit of the first byte. */
  lemma HighestFirst(b: bv8)
    ensures (0 in Members([b]) <==> b & 0x80 != 0) && (1 in Members([b]) <==> b & 0x40 != 0)
    ensures (2 in Members([b]) <==> b & 0x20 != 0) && (3 in Members([b]) <==> b & 0x10 != 0)
    ensures (4 in Members([b]) <==> b & 0x08 != 0) && (5 in Members([b]) <==> b & 0x04 != 0)
    ensures (6 in Members([b]) <==> b & 0x02 != 0) && (7 in Members([b]) <==> b & 0x01 != 0)
  {
    hide Members;
    InByte(b, 0);
    InByte(b, 1);
    InByte(b, 2);
    InByte(b, 3);
    InByte(b, 4);
    InByte(b, 5);
    InByte(b, 6);
    InByte(b, 7);
  }

  /** And the bytes follow one another, eight pieces each. */
  lemma BytesInOrder(bits: seq<bv8>, m: nat, k: nat)
    requires m < |bits| && k < 8
    ensures 8 * m + k in Members(bits) <==> k in Members([bits[m]])
  {
    hide BitOf;
    var i := 8 * m + k;
    assert i / 8 == m && i % 8 == k && [bits[m]][k / 8] == bits[m] && k % 8 == k;
  }
}
