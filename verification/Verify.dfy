/**
 Checking the data already on disk: worker threads hash contiguous ranges of pieces in any
 interleaving, and share one progress record.
 */
module Verify {
  import opened Bytes
  import opened Layout
  import opened DoneBytes
  import opened Bitfield
  import opened FileCache

  // Sums over sets of pieces ------------------------------------------------------------------

  lemma {:induction false} PieceSumAdd(l: Info, have: set<nat>, i: nat, n: nat)
    requires i !in have
    ensures PieceSum(l, have + {i}, n) == PieceSum(l, have, n) + (if i < n then PieceLen(l, i) else 0)
  {
    hide PieceLen;
    if n > 0 {
      PieceSumAdd(l, have, i, n - 1);
    }
  }

  lemma {:induction false} PieceSumNone(l: Info, n: nat)
    ensures PieceSum(l, {}, n) == 0
  {
    hide PieceLen;
    if n > 0 {
      PieceSumNone(l, n - 1);
    }
  }

  lemma {:induction false} PieceSumMore(l: Info, have: set<nat>, more: set<nat>, n: nat)
    requires have <= more
    ensures PieceSum(l, have, n) <= PieceSum(l, more, n)
  {
    hide PieceLen;
    if n > 0 {
      PieceSumMore(l, have, more, n - 1);
    }
  }

  lemma {:induction false} DoneInAdd(l: Info, have: set<nat>, i: nat, n: nat, f: nat)
    requires f < |l.lens| && i !in have
    ensures DoneIn(l, have + {i}, n, f) == DoneIn(l, have, n, f) + (if i < n then Overlap(l, i, f) else 0)
  {
    hide Overlap;
    if n > 0 {
      DoneInAdd(l, have, i, n - 1, f);
    }
  }

  lemma {:induction false} DoneInNone(l: Info, n: nat, f: nat)
    requires f < |l.lens|
    ensures DoneIn(l, {}, n, f) == 0
  {
    hide Overlap;
    if n > 0 {
      DoneInNone(l, n - 1, f);
    }
  }

  /** What the segments hold of file `f`. */
  function SegBytes(segs: seq<Seg>, f: nat): nat {
    if segs == [] then 0 else SegBytes(segs[1..], f) + (if segs[0].file == f then segs[0].len else 0)
  }

  lemma {:induction false} SegBytesFrom(l: Info, i: nat, from: nat, f: nat)
    requires Layout.Valid(l) && i < PieceCount(l) && from <= |l.lens| && f < |l.lens|
    ensures SegBytes(SegmentsFrom(l, PieceStart(l, i), PieceEnd(l, i), from), f) == if f < from then 0 else Overlap(l, i, f)
    decreases |l.lens| - from
  {
    hide OneSegment, PieceCount, Offset;
    if from < |l.lens| {
      PieceBounds(l, i);
      var ps, pe := PieceStart(l, i), PieceEnd(l, i);
      OneSegmentIs(l, ps, pe, from);
      SegBytesFrom(l, i, from + 1, f);
      var one, rest := OneSegment(l, ps, pe, from), SegmentsFrom(l, ps, pe, from + 1);
      if one == [] {
        assert [] + rest == rest;
      } else {
        assert ([one[0]] + rest)[1..] == rest;
      }
    }
  }

  // Progress ------------------------------------------------------------------------------------

  /** `VerifyProgress` with its per-file counters. */
  class VerifyProgress {
    var totalBytes: nat
    var totalPieces: nat
    var checkedBytes: nat
    var checkedPieces: nat
    var verifiedBytes: nat
    var verifiedPieces: nat
    var checkedIn: seq<nat>
    var verifiedIn: seq<nat>

    /** The counters after exactly the pieces of `seen` were handled, of which `good` passed. */
    ghost predicate Reflects(l: Info, seen: set<nat>, good: set<nat>)
      requires Layout.Valid(l)
      reads this
    {
      && checkedBytes == PieceSum(l, seen, PieceCount(l)) && checkedPieces == |seen|
      && verifiedBytes == PieceSum(l, good, PieceCount(l)) && verifiedPieces == |good|
      && Counts(l, checkedIn, seen) && Counts(l, verifiedIn, good)
    }

    method Reset(l: Info, totalBytes: nat, totalPieces: nat)
      requires Layout.Valid(l)
      modifies this
      ensures this.totalBytes == totalBytes && this.totalPieces == totalPieces && Reflects(l, {}, {})
    {
      this.totalBytes, this.totalPieces := totalBytes, totalPieces;
      checkedBytes, checkedPieces, verifiedBytes, verifiedPieces := 0, 0, 0, 0;
      checkedIn, verifiedIn := seq(|l.lens|, _ => 0), seq(|l.lens|, _ => 0);
      PieceSumNone(l, PieceCount(l));
      forall f | 0 <= f < |l.lens| ensures DoneIn(l, {}, PieceCount(l), f) == 0 {
        DoneInNone(l, PieceCount(l), f);
      }
    }

    /** `record_segments` and `record`: one handled piece. */
    method Record(l: Info, i: nat, segs: seq<Seg>, ok: bool, ghost seen: set<nat>, ghost good: set<nat>)
      requires Layout.Valid(l) && i < PieceCount(l) && segs == Segments(l, i)
      requires Reflects(l, seen, good) && i !in seen && i !in good
      modifies this
      ensures totalBytes == old(totalBytes) && totalPieces == old(totalPieces)
      ensures Reflects(l, seen + {i}, if ok then good + {i} else good)
    {
      hide PieceCount, PieceSum, PieceLen, Counts;
      PieceSumAdd(l, seen, i, PieceCount(l));
      PieceSumAdd(l, good, i, PieceCount(l));
      checkedIn := AddSegments(l, i, segs, checkedIn, seen);
      if ok {
        verifiedIn := AddSegments(l, i, segs, verifiedIn, good);
        verifiedBytes := verifiedBytes + PieceLen(l, i);
        verifiedPieces := verifiedPieces + 1;
      }
      checkedBytes := checkedBytes + PieceLen(l, i);
      checkedPieces := checkedPieces + 1;
    }
  }

  ghost predicate Counts(l: Info, perFile: seq<nat>, have: set<nat>)
    requires Layout.Valid(l)
  {
    |perFile| == |l.lens| && forall f :: 0 <= f < |perFile| ==> perFile[f] == DoneIn(l, have, PieceCount(l), f)
  }

  method AddSegments(l: Info, i: nat, segs: seq<Seg>, before: seq<nat>, ghost have: set<nat>) returns (out: seq<nat>)
    requires Layout.Valid(l) && i < PieceCount(l) && segs == Segments(l, i) && i !in have && Counts(l, before, have)
    ensures Counts(l, out, have + {i})
  {
    hide PieceCount, DoneIn, Segments, Overlap;
    out := before;
    assert segs[0..] == segs;
    for k := 0 to |segs|
      invariant |out| == |l.lens|
      invariant forall f :: 0 <= f < |out| ==> out[f] + SegBytes(segs[k..], f) == before[f] + SegBytes(segs, f)
    {
      assert segs[k..][1..] == segs[k + 1..];
      if segs[k].file < |out| {
        out := out[segs[k].file := out[segs[k].file] + segs[k].len];
      }
    }
    assert segs[|segs|..] == [];
    forall f | 0 <= f < |out| ensures out[f] == DoneIn(l, have + {i}, PieceCount(l), f) {
      SegmentsShare(l, i, f);
      DoneInAdd(l, have, i, PieceCount(l), f);
    }
  }

  lemma SegmentsShare(l: Info, i: nat, f: nat)
    requires Layout.Valid(l) && i < PieceCount(l) && f < |l.lens|
    ensures SegBytes(Segments(l, i), f) == Overlap(l, i, f)
  {
    SegBytesFrom(l, i, 0, f);
  }

  /** Between pieces: the per-file counters add up, and nothing runs past the announced total. */
  lemma ProgressAddsUp(l: Info, p: VerifyProgress, seen: set<nat>, good: set<nat>, todo: set<nat>)
    requires Layout.Valid(l) && p.Reflects(l, seen, good) && good <= seen <= todo
    requires p.totalBytes == PieceSum(l, todo, PieceCount(l)) && p.totalPieces == |todo|
    ensures Sum(p.checkedIn) == p.checkedBytes <= p.totalBytes && p.checkedPieces <= p.totalPieces
    ensures Sum(p.verifiedIn) == p.verifiedBytes <= p.checkedBytes && p.verifiedPieces <= p.checkedPieces
  {
    hide PieceCount, PieceSum;
    CountsSum(l, p.checkedIn, seen);
    CountsSum(l, p.verifiedIn, good);
    PieceSumMore(l, seen, todo, PieceCount(l));
    PieceSumMore(l, good, seen, PieceCount(l));
    CardLe(seen, todo);
    CardLe(good, seen);
  }

  lemma CountsSum(l: Info, perFile: seq<nat>, have: set<nat>)
    requires Layout.Valid(l) && Counts(l, perFile, have)
    ensures Sum(perFile) == PieceSum(l, have, PieceCount(l))
  {
    hide PieceCount, PieceSum;
    FastPathAgrees(l, have, PieceCount(l));
    assert perFile[..|perFile|] == perFile;
    CountsSumTo(l, perFile, have, |perFile|);
  }

  lemma {:induction false} CountsSumTo(l: Info, perFile: seq<nat>, have: set<nat>, k: nat)
    requires Layout.Valid(l) && Counts(l, perFile, have) && k <= |perFile|
    ensures Sum(perFile[..k]) == Grid(l, have, PieceCount(l), k, AllFiles(l))
  {
    hide PieceCount, DoneIn;
    if k > 0 {
      CountsSumTo(l, perFile, have, k - 1);
      assert perFile[..k][..k - 1] == perFile[..k - 1];
    }
  }
}
