/** The resume file: what is saved, when it is believed, and which of its pieces are restored. */
module Resume {
  import opened Bytes
  import opened Layout
  import opened Bitfield
  import DoneBytes

  // Hexadecimal ------------------------------------------------------------------------------

  function Digit(n: bv8): char {
    if n < 10 then '0' + n as char else if n < 16 then 'a' + (n - 10) as char else 'f'
  }

  /** Both cases are read. */
  function DigitValue(c: char): Option<bv8> {
    if '0' <= c <= '9' then Some((c - '0') as bv8)
    else if 'a' <= c <= 'f' then Some((c - 'a') as bv8 + 10)
    else if 'A' <= c <= 'F' then Some((c - 'A') as bv8 + 10)
    else None
  }

  function High(b: bv8): bv8 { b >> 4 }

  function Low(b: bv8): bv8 { b & 0x0F }

  function Octet(hi: bv8, lo: bv8): bv8 { (hi << 4) | lo }

  function Hex(data: seq<bv8>): string {
    if data == [] then "" else [Digit(High(data[0])), Digit(Low(data[0]))] + Hex(data[1..])
  }

  function Unhex(s: string): Option<seq<bv8>> {
    if s == "" then Some([])
    else if |s| == 1 then None
    else
      match (DigitValue(s[0]), DigitValue(s[1]), Unhex(s[2..]))
      case (Some(hi), Some(lo), Some(rest)) => Some([Octet(hi, lo)] + rest)
      case _ => None
  }

  lemma DigitIs(n: bv8)
    requires n < 16
    ensures DigitValue(Digit(n)) == Some(n)
  {
  }

  lemma Nibbles(b: bv8)
    ensures High(b) < 16 && Low(b) < 16 && Octet(High(b), Low(b)) == b
  {
  }

  lemma UnhexStep(hi: bv8, lo: bv8, s: string, rest: seq<bv8>)
    requires hi < 16 && lo < 16 && Unhex(s) == Some(rest)
    ensures Unhex([Digit(hi), Digit(lo)] + s) == Some([Octet(hi, lo)] + rest)
  {
    hide Digit, DigitValue, Octet;
    DigitIs(hi);
    DigitIs(lo);
    assert ([Digit(hi), Digit(lo)] + s)[2..] == s;
  }

  lemma NoHex()
    ensures Unhex("") == Some([])
  {
  }

  lemma {:induction false} HexRoundTrip(data: seq<bv8>)
    ensures Unhex(Hex(data)) == Some(data)
  {
    hide Digit, DigitValue, High, Low, Octet, Unhex;
    if data == [] {
      NoHex();
    } else {
      HexRoundTrip(data[1..]);
      Nibbles(data[0]);
      UnhexStep(High(data[0]), Low(data[0]), Hex(data[1..]), data[1..]);
      assert [data[0]] + data[1..] == data;
    }
  }

  // The file -----------------------------------------------------------------------------------

  const VERSION := 1
  const KIND := "bt-resume"

  datatype ResumeDoc = ResumeDoc(v: nat, kind: string, infoHash: string, pieceCount: nat, bitfield: string, savedAt: nat)

  function Save(infoHash: seq<bv8>, pieceCount: nat, bitfield: seq<bv8>, now: nat): ResumeDoc {
    ResumeDoc(VERSION, KIND, Hex(infoHash), pieceCount, Hex(bitfield), now)
  }

  /** `load`; no document stands for a missing or corrupt file. */
  function Load(file: Option<ResumeDoc>, infoHash: seq<bv8>, pieceCount: nat): Option<seq<bv8>> {
    match file
    case None => None
    case Some(doc) =>
      if doc.v != VERSION || doc.kind != KIND then None
      else if doc.infoHash != Hex(infoHash) || doc.pieceCount != pieceCount then None
      else
        match Unhex(doc.bitfield)
        case None => None
        case Some(bf) => if |bf| != DivCeil(pieceCount, 8) then None else Some(bf)
  }

  /** A saved bitmap comes back for the same torrent and piece count, and for no other. */
  lemma LoadAfterSave(infoHash: seq<bv8>, pieceCount: nat, bitfield: seq<bv8>, now: nat, infoHash': seq<bv8>, pieceCount': nat)
    ensures Load(Some(Save(infoHash, pieceCount, bitfield, now)), infoHash', pieceCount') ==
            if infoHash == infoHash' && pieceCount == pieceCount' && |bitfield| == DivCeil(pieceCount, 8)
            then Some(bitfield) else None
  {
    HexRoundTrip(infoHash);
    HexRoundTrip(infoHash');
    HexRoundTrip(bitfield);
  }

  // Restoring ------------------------------------------------------------------------------------

  /** Every segment of the piece lies within the lengths found on disk. */
  predicate WithinFiles(l: Info, found: seq<nat>, i: nat)
    requires |found| == |l.lens|
  {
    forall k :: 0 <= k < |Segments(l, i)| ==>
      var s := Segments(l, i)[k]; s.file < |found| && s.off + s.len <= found[s.file]
  }

  /** The saved pieces that are believed. */
  function Believed(l: Info, found: seq<nat>, saved: seq<bv8>): set<nat>
    requires Layout.Valid(l) && |found| == |l.lens|
  {
    set i | i in Members(saved) && i < PieceCount(l) && WithinFiles(l, found, i)
  }

  /** The saved pieces would not take much more room than the files occupy. */
  predicate Plausible(l: Info, saved: seq<bv8>, onDisk: nat)
    requires Layout.Valid(l)
  {
    100 * onDisk >= 85 * DoneBytes.PieceSum(l, Members(saved), PieceCount(l))
  }

  /** The bytes a saved bitmap stands for. */
  method Implied(l: Info, saved: seq<bv8>) returns (n: nat)
    requires Layout.Valid(l) && PieceCount(l) <= 8 * |saved|
    ensures n == DoneBytes.PieceSum(l, Members(saved), PieceCount(l))
  {
    hide PieceCount, PieceLen, Bit;
    n := 0;
    for i := 0 to PieceCount(l)
      invariant n == DoneBytes.PieceSum(l, Members(saved), i)
    {
      PieceBounds(l, i);
      if Bit(saved, i) {
        n := n + (if i == PieceCount(l) - 1 then PieceLen(l, i) else l.pieceLength);
      }
    }
  }

  method CoveredBy(l: Info, found: seq<nat>, i: nat) returns (covered: bool)
    requires |found| == |l.lens|
    ensures covered == WithinFiles(l, found, i)
  {
    var segs := PieceSegments(l, i);
    covered := true;
    for k := 0 to |segs|
      invariant covered == forall j :: 0 <= j < k ==> segs[j].file < |found| && segs[j].off + segs[j].len <= found[segs[j].file]
    {
      covered := covered && segs[k].file < |found| && found[segs[k].file] >= segs[k].off + segs[k].len;
    }
  }

  /** Clears the bits of pieces beyond the files; counts the others. */
  method MaskUncovered(l: Info, found: seq<nat>, saved: seq<bv8>) returns (bf: seq<bv8>, restored: nat)
    requires Layout.Valid(l) && |found| == |l.lens| && PieceCount(l) <= 8 * |saved|
    ensures |bf| == |saved| && restored == |Believed(l, found, saved)|
    ensures (set i | i in Members(bf) && i < PieceCount(l)) == Believed(l, found, saved)
  {
    hide PieceCount, Bit, WithinFiles, SetBit, ClearBit;
    var count := PieceCount(l);
    bf, restored := saved, 0;
    ghost var kept: set<nat> := {};
    for i := 0 to count
      invariant |bf| == |saved| && restored == |kept|
      invariant forall k :: k in kept <==> k < i && k in Believed(l, found, saved)
      invariant forall k :: k in Members(bf) <==> k in Members(saved) && (k < i ==> k in kept)
    {
      if Bit(bf, i) {
        assert i in Members(saved);
        var covered := CoveredBy(l, found, i);
        if covered {
          restored := restored + 1;
          kept := kept + {i};
        } else {
          OneMember(bf, i);
          SetBitIs(bf, i, i);
          bf := ClearBit(bf, i);
        }
      }
    }
    assert kept == Believed(l, found, saved);
  }

  /**
   `restore_resume`: on success exactly the believed pieces are added to the store's map, on
   failure the store is as it was.
   */
  method RestoreResume(file: Option<ResumeDoc>, infoHash: seq<bv8>, l: Info, found: seq<nat>, onDisk: nat, store: PieceMap)
    returns (ok: bool)
    requires Layout.Valid(l) && |found| == |l.lens| && store.Valid() && store.count == PieceCount(l)
    modifies store
    ensures store.Valid()
    ensures var saved := Load(file, infoHash, PieceCount(l));
            && (ok <==> saved.Some? && Plausible(l, saved.value, onDisk) && Believed(l, found, saved.value) != {})
            && (ok ==> store.Pieces() == old(store.Pieces()) + Believed(l, found, saved.value))
    ensures !ok ==> unchanged(store)
  {
    hide PieceCount, WithinFiles, Members, Load;
    var count := PieceCount(l);
    LoadLength(file, infoHash, count);
    var saved := Load(file, infoHash, count);
    if saved.None? {
      return false;
    }
    var implied := Implied(l, saved.value);
    if implied > 0 && 100 * onDisk < 85 * implied {
      return false;
    }
    var bf, restored := MaskUncovered(l, found, saved.value);
    if restored == 0 {
      return false;
    }
    store.SetFromBitfield(bf);
    ok := true;
  }

  lemma LoadLength(file: Option<ResumeDoc>, infoHash: seq<bv8>, count: nat)
    ensures Load(file, infoHash, count).Some? ==>
              |Load(file, infoHash, count).value| == DivCeil(count, 8) && count <= 8 * DivCeil(count, 8)
  {
    RoomFor(count);
  }

  // What is believed -------------------------------------------------------------------------------

  /** A piece is within the files exactly when each of its bytes is. */
  lemma WithinIffBytes(l: Info, found: seq<nat>, i: nat)
    requires Layout.Valid(l) && |found| == |l.lens| && i < PieceCount(l)
    ensures WithinFiles(l, found, i) <==>
            forall f, d :: 0 <= f < |l.lens| && HoldsByte(l, i, f, d) ==> d < found[f]
  {
    hide Segments, PieceCount, Offset;
    PieceBounds(l, i);
    if WithinFiles(l, found, i) {
      forall f, d | 0 <= f < |l.lens| && HoldsByte(l, i, f, d) ensures d < found[f] {
        var i', k := ByteInOnePiece(l, f, d);
        if i' != i {
          PieceOfByte(l, Offset(l, f) + d);
          OffsetInTotal(l, f, d);
          OtherPiece(l, i', i, Offset(l, f) + d);
        }
      }
    } else {
      var k :| 0 <= k < |Segments(l, i)| && !(var s := Segments(l, i)[k]; s.file < |found| && s.off + s.len <= found[s.file]);
      var s := Segments(l, i)[k];
      SegmentsChain(l, i);
      ChainBeyond(l, Segments(l, i), PieceStart(l, i), PieceEnd(l, i), k);
      SegmentNotEmpty(l, i, k);
      if s.len > 0 {
        var d := s.off + s.len - 1;
        assert HoldsByte(l, i, s.file, d);
      }
    }
  }

  /** With every file at least as long as it should be, all saved pieces are believed. */
  lemma WholeFilesKeepAll(l: Info, found: seq<nat>, saved: seq<bv8>)
    requires Layout.Valid(l) && |found| == |l.lens| && (forall f :: 0 <= f < |found| ==> found[f] >= l.lens[f])
    ensures Believed(l, found, saved) == (set i | i in Members(saved) && i < PieceCount(l))
  {
    hide WithinFiles, PieceCount, Offset;
    forall i | 0 <= i < PieceCount(l) ensures WithinFiles(l, found, i) {
      WithinIffBytes(l, found, i);
    }
  }

  /** Two lower-case digits a byte, the high half first. */
  lemma HexIs(hi: bv8, lo: bv8)
    requires hi < 16 && lo < 16
    ensures Hex([(hi << 4) | lo]) == ["0123456789abcdef"[hi as int], "0123456789abcdef"[lo as int]]
  {
    HexDigit(hi);
    HexDigit(lo);
    Halves(hi, lo);
    assert Hex([(hi << 4) | lo]) == [Digit(hi), Digit(lo)] + Hex([]);
  }

  lemma Halves(hi: bv8, lo: bv8)
    requires hi < 16 && lo < 16
    ensures High((hi << 4) | lo) == hi && Low((hi << 4) | lo) == lo
  {
  }

  lemma HexDigit(n: bv8)
    requires n < 16
    ensures Digit(n) == "0123456789abcdef"[n as int]
  {
  }

  /** A document is believed exactly when its version, kind, hash and count fit and it holds a bit for every piece. */
  lemma LoadsIff(doc: ResumeDoc, infoHash: seq<bv8>, count: nat, bits: seq<bv8>)
    ensures Load(None, infoHash, count).None?
    ensures Load(Some(doc), infoHash, count) == Some(bits) <==>
            && doc.v == 1 && doc.kind == "bt-resume" && doc.infoHash == Hex(infoHash) && doc.pieceCount == count
            && Unhex(doc.bitfield) == Some(bits) && 8 * |bits| >= count && 8 * |bits| < count + 8
  {
    hide Hex, Unhex;
    var n := DivCeil(count, 8);
    assert 8 * n >= count && 8 * n < count + 8;
  }

  /** The files must occupy at least 85 of 100 bytes that the saved pieces stand for. */
  lemma PlausibleIff(l: Info, saved: seq<bv8>, onDisk: nat)
    requires Layout.Valid(l)
    ensures Plausible(l, saved, onDisk) <==> 20 * onDisk >= 17 * DoneBytes.PieceSum(l, Members(saved), PieceCount(l))
  {
    hide DoneBytes.PieceSum, PieceCount;
  }
}
