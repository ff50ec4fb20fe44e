/**
 Piece geometry: pieces cut the concatenation of all files at multiples of the piece length,
 and every piece maps to segments of files.
 */
module Layout {
  import opened Bytes

  /** The files' lengths in order; a piece length of zero never leaves the parser. */
  datatype Info = Info(pieceLength: nat, lens: seq<nat>)

  datatype Seg = Seg(file: nat, off: nat, len: nat)

  predicate Valid(l: Info) { l.pieceLength > 0 }

  function Sum(lens: seq<nat>): nat {
    if lens == [] then 0 else Sum(lens[..|lens| - 1]) + lens[|lens| - 1]
  }

  function Total(l: Info): nat { Sum(l.lens) }

  /** Global offset of the first byte of file `f`. */
  function Offset(l: Info, f: nat): nat
    requires f <= |l.lens|
  {
    Sum(l.lens[..f])
  }

  function PieceCount(l: Info): nat
    requires Valid(l)
  {
    DivCeil(Total(l), l.pieceLength)
  }

  function PieceStart(l: Info, i: nat): nat { i * l.pieceLength }

  function PieceEnd(l: Info, i: nat): nat { Min(PieceStart(l, i) + l.pieceLength, Total(l)) }

  function PieceLen(l: Info, i: nat): nat {
    if PieceStart(l, i) >= Total(l) then 0 else Min(Total(l) - PieceStart(l, i), l.pieceLength)
  }

  lemma {:induction false} OffsetStep(l: Info, f: nat)
    requires f < |l.lens|
    ensures Offset(l, f + 1) == Offset(l, f) + l.lens[f]
  {
    assert l.lens[..f + 1][..f] == l.lens[..f];
  }

  lemma {:induction false} OffsetMonotone(l: Info, f: nat, g: nat)
    requires f <= g <= |l.lens|
    ensures Offset(l, f) <= Offset(l, g) <= Total(l)
    ensures f < g ==> Offset(l, f) + l.lens[f] <= Offset(l, g)
    decreases |l.lens| - f
  {
    assert l.lens[..|l.lens|] == l.lens;
    if f < g {
      OffsetStep(l, f);
      OffsetMonotone(l, f + 1, g);
    } else if g < |l.lens| {
      OffsetStep(l, g);
      OffsetMonotone(l, g + 1, |l.lens|);
    }
  }

  /** A piece below the count is not empty. */
  lemma PieceBounds(l: Info, i: nat)
    requires Valid(l)
    ensures i < PieceCount(l) <==> PieceStart(l, i) < Total(l)
    ensures i < PieceCount(l) ==> PieceStart(l, i) < PieceEnd(l, i) <= Total(l) && PieceLen(l, i) == PieceEnd(l, i) - PieceStart(l, i)
    ensures i + 1 < PieceCount(l) ==> PieceLen(l, i) == l.pieceLength && PieceEnd(l, i) == PieceStart(l, i + 1)
  {
    DivCeilBounds(Total(l), l.pieceLength);
    if i < PieceCount(l) {
      MulLe(i, PieceCount(l) - 1, l.pieceLength);
    } else {
      MulLe(PieceCount(l), i, l.pieceLength);
    }
    if i + 1 < PieceCount(l) {
      MulLe(i + 1, PieceCount(l) - 1, l.pieceLength);
      assert (i + 1) * l.pieceLength == i * l.pieceLength + l.pieceLength;
    }
  }

  // Segments -------------------------------------------------------------------------

  /** The segments of the window [ps, pe) in the files from `f` on. */
  function SegmentsFrom(l: Info, ps: nat, pe: nat, f: nat): seq<Seg>
    requires f <= |l.lens| && (ps <= pe || ps >= Total(l))
    decreases |l.lens| - f
  {
    if f == |l.lens| then [] else OneSegment(l, ps, pe, f) + SegmentsFrom(l, ps, pe, f + 1)
  }

  /** What one file contributes to the window. */
  function OneSegment(l: Info, ps: nat, pe: nat, f: nat): seq<Seg>
    requires f < |l.lens| && (ps <= pe || ps >= Total(l))
  {
    OffsetStep(l, f);
    OffsetMonotone(l, f + 1, |l.lens|);
    var fs := Offset(l, f);
    var fe := fs + l.lens[f];
    if pe <= fs || ps >= fe then [] else [Seg(f, Max(ps, fs) - fs, Min(pe, fe) - Max(ps, fs))]
  }

  function Segments(l: Info, i: nat): seq<Seg> {
    SegmentsFrom(l, PieceStart(l, i), PieceEnd(l, i), 0)
  }

  /** `piece_segments`: one pass over the files with a running offset. */
  method PieceSegments(l: Info, i: nat) returns (segs: seq<Seg>)
    ensures segs == Segments(l, i)
  {
    hide OneSegment;
    var ps, pe := PieceStart(l, i), PieceEnd(l, i);
    segs := [];
    var cursor := 0;
    for f := 0 to |l.lens|
      invariant cursor == Offset(l, f)
      invariant segs + SegmentsFrom(l, ps, pe, f) == Segments(l, i)
    {
      OneSegmentIs(l, ps, pe, f);
      var fs := cursor;
      var fe := cursor + l.lens[f];
      cursor := fe;
      ghost var rest := SegmentsFrom(l, ps, pe, f + 1);
      if pe <= fs || ps >= fe {
        assert [] + rest == rest;
        continue;
      }
      var start := Max(ps, fs) - fs;
      var end := Min(pe, fe) - fs;
      assert (segs + [Seg(f, start, end - start)]) + rest == segs + ([Seg(f, start, end - start)] + rest);
      segs := segs + [Seg(f, start, end - start)];
    }
  }

  lemma OneSegmentIs(l: Info, ps: nat, pe: nat, f: nat)
    requires f < |l.lens| && (ps <= pe || ps >= Total(l))
    ensures Offset(l, f + 1) == Offset(l, f) + l.lens[f] <= Total(l)
    ensures var fs, fe := Offset(l, f), Offset(l, f + 1);
            if pe <= fs || ps >= fe then OneSegment(l, ps, pe, f) == []
            else Min(pe, fe) >= Max(ps, fs)
                 && OneSegment(l, ps, pe, f) == [Seg(f, Max(ps, fs) - fs, Min(pe, fe) - Max(ps, fs))]
  {
    OffsetStep(l, f);
    OffsetMonotone(l, f + 1, |l.lens|);
  }

  /** `file_offsets`. */
  method FileOffsets(l: Info) returns (out: seq<nat>)
    ensures |out| == |l.lens| && forall f :: 0 <= f < |out| ==> out[f] == Offset(l, f)
  {
    out := [];
    var cursor := 0;
    for f := 0 to |l.lens|
      invariant cursor == Offset(l, f) && |out| == f
      invariant forall k :: 0 <= k < f ==> out[k] == Offset(l, k)
    {
      OffsetStep(l, f);
      out := out + [cursor];
      cursor := cursor + l.lens[f];
    }
  }

  /** A segment lies inside its file. */
  predicate InFile(l: Info, s: Seg) { s.file < |l.lens| && s.off + s.len <= l.lens[s.file] }

  function SegStart(l: Info, s: Seg): nat
    requires InFile(l, s)
  {
    Offset(l, s.file) + s.off
  }

  /** Segments that follow one another without gap or overlap from `a` to `b`. */
  predicate Chain(l: Info, segs: seq<Seg>, a: nat, b: nat)
    decreases |segs|
  {
    if segs == [] then a == b
    else InFile(l, segs[0]) && SegStart(l, segs[0]) == a && Chain(l, segs[1..], a + segs[0].len, b)
  }

  lemma {:induction false} SegmentsFromChain(l: Info, ps: nat, pe: nat, f: nat)
    requires f <= |l.lens| && ps < pe <= Total(l)
    ensures if pe <= Offset(l, f) then SegmentsFrom(l, ps, pe, f) == []
            else Chain(l, SegmentsFrom(l, ps, pe, f), Max(ps, Offset(l, f)), pe)
    decreases |l.lens| - f
  {
    hide OneSegment;
    OffsetMonotone(l, f, |l.lens|);
    if f < |l.lens| {
      OneSegmentIs(l, ps, pe, f);
      SegmentsFromChain(l, ps, pe, f + 1);
      var one, rest := OneSegment(l, ps, pe, f), SegmentsFrom(l, ps, pe, f + 1);
      if one == [] {
        assert [] + rest == rest;
      } else {
        assert ([one[0]] + rest)[1..] == rest;
      }
    } else {
      OffsetAtEnd(l);
    }
  }

  lemma OffsetAtEnd(l: Info)
    ensures Offset(l, |l.lens|) == Total(l)
  {
    assert l.lens[..|l.lens|] == l.lens;
  }

  /** The segments of a piece run exactly from its start to its end. */
  lemma SegmentsChain(l: Info, i: nat)
    requires Valid(l) && i < PieceCount(l)
    ensures Chain(l, Segments(l, i), PieceStart(l, i), PieceEnd(l, i))
  {
    PieceBounds(l, i);
    SegmentsFromChain(l, PieceStart(l, i), PieceEnd(l, i), 0);
  }

  function SumLen(segs: seq<Seg>): nat {
    if segs == [] then 0 else segs[0].len + SumLen(segs[1..])
  }

  lemma {:induction false} ChainSum(l: Info, segs: seq<Seg>, a: nat, b: nat)
    requires Chain(l, segs, a, b)
    ensures SumLen(segs) == b - a
    decreases |segs|
  {
    if segs != [] {
      ChainSum(l, segs[1..], a + segs[0].len, b);
    }
  }

  /** Each piece's segment lengths sum to the piece length; pieces past the end have no segment. */
  lemma SegmentLengths(l: Info, i: nat)
    requires Valid(l)
    ensures SumLen(Segments(l, i)) == PieceLen(l, i)
    ensures i >= PieceCount(l) ==> Segments(l, i) == []
  {
    PieceBounds(l, i);
    if i < PieceCount(l) {
      SegmentsChain(l, i);
      ChainSum(l, Segments(l, i), PieceStart(l, i), PieceEnd(l, i));
    } else {
      NoSegments(l, PieceStart(l, i), PieceEnd(l, i), 0);
    }
  }

  lemma {:induction false} NoSegments(l: Info, ps: nat, pe: nat, f: nat)
    requires f <= |l.lens| && ps >= Total(l)
    ensures SegmentsFrom(l, ps, pe, f) == []
    decreases |l.lens| - f
  {
    if f < |l.lens| {
      OneSegmentIs(l, ps, pe, f);
      NoSegments(l, ps, pe, f + 1);
    }
  }

  // All pieces together -----------------------------------------------------------------

  function AllSegments(l: Info, n: nat): seq<Seg> {
    if n == 0 then [] else AllSegments(l, n - 1) + Segments(l, n - 1)
  }

  lemma {:induction false} ChainAppend(l: Info, x: seq<Seg>, y: seq<Seg>, a: nat, m: nat, b: nat)
    requires Chain(l, x, a, m) && Chain(l, y, m, b)
    ensures Chain(l, x + y, a, b)
    decreases |x|
  {
    if x == [] {
      assert x + y == y;
    } else {
      ChainAppend(l, x[1..], y, a + x[0].len, m, b);
      assert (x + y)[1..] == x[1..] + y;
    }
  }

  lemma EmptyChain(l: Info)
    ensures Chain(l, [], 0, 0)
  {
  }

  /** The segments of all pieces, in order, run over all files from the first byte to the last. */
  lemma {:induction false} PiecesTileFiles(l: Info, n: nat)
    requires Valid(l) && n <= PieceCount(l)
    ensures Chain(l, AllSegments(l, n), 0, Min(PieceStart(l, n), Total(l)))
    ensures n == PieceCount(l) ==> Min(PieceStart(l, n), Total(l)) == Total(l)
  {
    hide Chain, PieceCount, Segments, InFile;
    PieceBounds(l, n);
    if n == 0 {
      EmptyChain(l);
    } else {
      PiecesTileFiles(l, n - 1);
      PieceBounds(l, n - 1);
      SegmentsChain(l, n - 1);
      assert n * l.pieceLength == (n - 1) * l.pieceLength + l.pieceLength;
      ChainAppend(l, AllSegments(l, n - 1), Segments(l, n - 1), 0, PieceStart(l, n - 1), PieceEnd(l, n - 1));
    }
  }

  predicate Covers(l: Info, s: Seg, g: nat) {
    InFile(l, s) && SegStart(l, s) <= g < SegStart(l, s) + s.len
  }

  /** In a chain every byte is covered by one segment and by no other. */
  lemma {:induction false} ChainCoversOnce(l: Info, segs: seq<Seg>, a: nat, b: nat, g: nat) returns (k: nat)
    requires Chain(l, segs, a, b) && a <= g < b
    ensures k < |segs| && Covers(l, segs[k], g)
    ensures forall j :: 0 <= j < |segs| && j != k ==> !Covers(l, segs[j], g)
    decreases |segs|
  {
    if g < a + segs[0].len {
      k := 0;
      forall j | 0 < j < |segs| ensures !Covers(l, segs[j], g) {
        ChainBeyond(l, segs[1..], a + segs[0].len, b, j - 1);
      }
    } else {
      var k' := ChainCoversOnce(l, segs[1..], a + segs[0].len, b, g);
      k := k' + 1;
      forall j | 0 <= j < |segs| && j != k ensures !Covers(l, segs[j], g) {
        assert j > 0 ==> segs[j] == segs[1..][j - 1];
      }
    }
  }

  lemma {:induction false} ChainBeyond(l: Info, segs: seq<Seg>, a: nat, b: nat, j: nat)
    requires Chain(l, segs, a, b) && j < |segs|
    ensures InFile(l, segs[j]) && a <= SegStart(l, segs[j]) && SegStart(l, segs[j]) + segs[j].len <= b
    decreases |segs|
  {
    ChainOrdered(l, segs[1..], a + segs[0].len, b);
    if j > 0 {
      ChainBeyond(l, segs[1..], a + segs[0].len, b, j - 1);
    }
  }

  lemma {:induction false} ChainOrdered(l: Info, segs: seq<Seg>, a: nat, b: nat)
    requires Chain(l, segs, a, b)
    ensures a <= b
    decreases |segs|
  {
    if segs != [] {
      ChainOrdered(l, segs[1..], a + segs[0].len, b);
    }
  }

  // Locating a byte ------------------------------------------------------------------------

  /** `locate`: past the end it answers the start of the last file. */
  method Locate(l: Info, g: nat) returns (file: nat, d: nat)
    requires l.lens != []
    ensures g < Total(l) ==> file < |l.lens| && d < l.lens[file] && Offset(l, file) + d == g
    ensures g >= Total(l) ==> file == |l.lens| - 1 && d == 0
  {
    var cursor := 0;
    for f := 0 to |l.lens|
      invariant cursor == Offset(l, f) <= g
    {
      OffsetStep(l, f);
      if g < cursor + l.lens[f] {
        OffsetMonotone(l, f + 1, |l.lens|);
        return f, g - cursor;
      }
      cursor := cursor + l.lens[f];
    }
    OffsetMonotone(l, 0, |l.lens|);
    assert l.lens[..|l.lens|] == l.lens;
    return |l.lens| - 1, 0;
  }

  /** A byte lies in one file only. */
  lemma FileOfByte(l: Info, f: nat, f': nat, g: nat)
    requires f < |l.lens| && f' < |l.lens|
    requires Offset(l, f) <= g < Offset(l, f) + l.lens[f]
    requires Offset(l, f') <= g < Offset(l, f') + l.lens[f']
    ensures f == f'
  {
    if f < f' {
      OffsetMonotone(l, f, f');
    } else if f' < f {
      OffsetMonotone(l, f', f);
    }
  }

  lemma PieceOfByte(l: Info, g: nat)
    requires Valid(l) && g < Total(l)
    ensures var i := g / l.pieceLength; i < PieceCount(l) && PieceStart(l, i) <= g < PieceEnd(l, i)
  {
    var i := g / l.pieceLength;
    assert i * l.pieceLength <= g < i * l.pieceLength + l.pieceLength;
    PieceBounds(l, i);
  }

  /**
   Every byte d of every file f lies in exactly one segment of exactly one piece, the one its
   global offset divided by the piece length names; that segment is a segment of file f.
   */
  lemma ByteInOnePiece(l: Info, f: nat, d: nat) returns (i: nat, k: nat)
    requires Valid(l) && f < |l.lens| && d < l.lens[f]
    ensures var g := Offset(l, f) + d;
            && i == g / l.pieceLength && i < PieceCount(l) && k < |Segments(l, i)|
            && Segments(l, i)[k].file == f
            && Segments(l, i)[k].off <= d < Segments(l, i)[k].off + Segments(l, i)[k].len
            && (forall j :: 0 <= j < |Segments(l, i)| && j != k ==> !Covers(l, Segments(l, i)[j], g))
            && (forall i' :: 0 <= i' < PieceCount(l) && i' != i ==>
                  forall j :: 0 <= j < |Segments(l, i')| ==> !Covers(l, Segments(l, i')[j], g))
  {
    var g := Offset(l, f) + d;
    OffsetStep(l, f);
    OffsetMonotone(l, f + 1, |l.lens|);
    i := g / l.pieceLength;
    PieceOfByte(l, g);
    SegmentsChain(l, i);
    k := ChainCoversOnce(l, Segments(l, i), PieceStart(l, i), PieceEnd(l, i), g);
    FileOfByte(l, f, Segments(l, i)[k].file, g);
    forall i' | 0 <= i' < PieceCount(l) && i' != i
      ensures forall j :: 0 <= j < |Segments(l, i')| ==> !Covers(l, Segments(l, i')[j], g) {
      OtherPiece(l, i, i', g);
      forall j | 0 <= j < |Segments(l, i')| ensures !Covers(l, Segments(l, i')[j], g) {
        SegmentsChain(l, i');
        ChainBeyond(l, Segments(l, i'), PieceStart(l, i'), PieceEnd(l, i'), j);
      }
    }
  }

  lemma OtherPiece(l: Info, i: nat, i': nat, g: nat)
    requires Valid(l) && i != i' && PieceStart(l, i) <= g < PieceEnd(l, i)
    ensures !(PieceStart(l, i') <= g < PieceEnd(l, i'))
  {
    if i < i' {
      MulLe(i + 1, i', l.pieceLength);
      assert (i + 1) * l.pieceLength == i * l.pieceLength + l.pieceLength;
    } else {
      MulLe(i' + 1, i, l.pieceLength);
      assert (i' + 1) * l.pieceLength == i' * l.pieceLength + l.pieceLength;
    }
  }

  // Bytes and empty segments ----------------------------------------------------------------

  /** Byte `d` of file `f` belongs to piece `i`. */
  predicate HoldsByte(l: Info, i: nat, f: nat, d: int)
    requires f < |l.lens|
  {
    0 <= d < l.lens[f] && PieceStart(l, i) <= Offset(l, f) + d < PieceEnd(l, i)
  }

  lemma OffsetInTotal(l: Info, f: nat, d: nat)
    requires f < |l.lens| && d < l.lens[f]
    ensures Offset(l, f) + d < Total(l)
  {
    OffsetStep(l, f);
    OffsetMonotone(l, f + 1, |l.lens|);
  }

  lemma SegmentNotEmpty(l: Info, i: nat, k: nat)
    requires Valid(l) && i < PieceCount(l) && k < |Segments(l, i)|
    ensures Segments(l, i)[k].len == 0 ==> Segments(l, i)[k].off == 0
  {
    PieceBounds(l, i);
    EmptySegment(l, PieceStart(l, i), PieceEnd(l, i), 0, k);
  }

  /** An empty segment starts at offset 0 of an empty file. */
  lemma {:induction false} EmptySegment(l: Info, ps: nat, pe: nat, f: nat, k: nat)
    requires f <= |l.lens| && ps < pe <= Total(l) && k < |SegmentsFrom(l, ps, pe, f)|
    ensures var s := SegmentsFrom(l, ps, pe, f)[k]; s.len == 0 ==> s.off == 0
    decreases |l.lens| - f
  {
    hide OneSegment;
    OneSegmentIs(l, ps, pe, f);
    var one := OneSegment(l, ps, pe, f);
    if k >= |one| {
      EmptySegment(l, ps, pe, f + 1, k - |one|);
    }
  }
}
