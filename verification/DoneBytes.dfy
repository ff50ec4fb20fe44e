/**
 Progress in bytes: the bytes of verified pieces, attributed to files, restricted to the files
 the user selected. Pieces that straddle selected and unselected files are split.
 */
module DoneBytes {
  import opened Bytes
  import opened Layout

  /** Bytes of piece `i` that lie in file `f`. */
  function Overlap(l: Info, i: nat, f: nat): nat
    requires f < |l.lens|
  {
    var lo := Max(PieceStart(l, i), Offset(l, f));
    var hi := Min(PieceEnd(l, i), Offset(l, f) + l.lens[f]);
    if hi > lo then hi - lo else 0
  }

  /** Bytes of file `f` in the pieces of `have` below `n`. */
  function DoneIn(l: Info, have: set<nat>, n: nat, f: nat): nat
    requires f < |l.lens|
  {
    if n == 0 then 0 else DoneIn(l, have, n - 1, f) + (if n - 1 in have then Overlap(l, n - 1, f) else 0)
  }

  /** The same, summed over the files of `sel` below `k`. */
  function Grid(l: Info, have: set<nat>, n: nat, k: nat, sel: set<nat>): nat
    requires k <= |l.lens|
  {
    if k == 0 then 0 else Grid(l, have, n, k - 1, sel) + (if k - 1 in sel then DoneIn(l, have, n, k - 1) else 0)
  }

  function RowSum(l: Info, i: nat, k: nat, sel: set<nat>): nat
    requires k <= |l.lens|
  {
    if k == 0 then 0 else RowSum(l, i, k - 1, sel) + (if k - 1 in sel then Overlap(l, i, k - 1) else 0)
  }

  function SelLength(l: Info, k: nat, sel: set<nat>): nat
    requires k <= |l.lens|
  {
    if k == 0 then 0 else SelLength(l, k - 1, sel) + (if k - 1 in sel then l.lens[k - 1] else 0)
  }

  function AllFiles(l: Info): set<nat> { Upto(|l.lens|) }

  function AllPieces(l: Info): set<nat>
    requires Valid(l)
  {
    Upto(PieceCount(l))
  }

  /** `selected_length` */
  function SelectedLength(l: Info, selected: Option<seq<nat>>): nat {
    match selected
    case None => Total(l)
    case Some(sel) => SelLength(l, |l.lens|, set f | f in sel)
  }

  predicate Touches(l: Info, i: nat, sel: set<nat>) {
    exists k :: 0 <= k < |Segments(l, i)| && Segments(l, i)[k].file in sel
  }

  /** `wanted_piece_mask`: the pieces with a segment, even an empty one, in a selected file. */
  function WantedMask(l: Info, selected: Option<seq<nat>>): Option<set<nat>>
    requires Valid(l)
  {
    match selected
    case None => None
    case Some(s) =>
      var sel := set f | f in s;
      Some(set i | i in Upto(PieceCount(l)) && Touches(l, i, sel))
  }

  /** Done pieces that count: those also wanted, when there is a selection. */
  function Counted(done: set<nat>, wanted: Option<set<nat>>): set<nat> {
    match wanted
    case None => done
    case Some(m) => done * m
  }

  /** `all_wanted_done_with`: an empty selection is never finished. */
  predicate AllWantedDone(l: Info, done: set<nat>, wanted: Option<set<nat>>)
    requires Valid(l)
  {
    match wanted
    case None => AllPieces(l) <= done
    case Some(m) => m != {} && m <= done
  }

  // The per-file counters ---------------------------------------------------------------

  lemma OffsetsRise(l: Info, f: nat, g: nat)
    requires f <= g < |l.lens|
    ensures Offset(l, f) <= Offset(l, g)
    ensures f < g ==> Offset(l, f) + l.lens[f] <= Offset(l, g)
  {
    OffsetMonotone(l, f, g);
  }

  /** Files that end before a piece starts, or start after it ends, share no byte with it. */
  lemma NoOverlap(l: Info, i: nat, f: nat)
    requires f < |l.lens|
    requires Offset(l, f) + l.lens[f] <= PieceStart(l, i) || PieceEnd(l, i) <= Offset(l, f)
    ensures Overlap(l, i, f) == 0
  {
  }

  /** No file before `fi` reaches piece `i`. */
  predicate Behind(l: Info, fi: nat, i: nat) {
    forall k :: 0 <= k < fi && k < |l.lens| ==> Offset(l, k) + l.lens[k] <= PieceStart(l, i)
  }

  lemma BehindNext(l: Info, fi: nat, i: nat)
    requires Behind(l, fi, i)
    ensures Behind(l, fi, i + 1)
  {
    assert PieceStart(l, i + 1) == PieceStart(l, i) + l.pieceLength;
  }

  /**
   `files_done_bytes`: pieces and files advance together, so each file is looked at only by the
   pieces near it.
   */
  method FilesDoneBytes(l: Info, have: set<nat>) returns (out: seq<nat>)
    requires Valid(l)
    ensures |out| == |l.lens|
    ensures forall f :: 0 <= f < |out| ==> out[f] == DoneIn(l, have, PieceCount(l), f)
  {
    hide Overlap, Behind, PieceCount;
    var offsets := FileOffsets(l);
    out := seq(|l.lens|, _ => 0);
    var fi := 0;
    NothingBehind(l);
    for i := 0 to PieceCount(l)
      invariant |out| == |l.lens| && fi <= |l.lens| && Behind(l, fi, i)
      invariant forall f :: 0 <= f < |out| ==> out[f] == DoneIn(l, have, i, f)
    {
      BehindNext(l, fi, i);
      if i !in have {
        continue;
      }
      var start, end := PieceStart(l, i), PieceEnd(l, i);
      while fi < |l.lens| && offsets[fi] + l.lens[fi] <= start
        invariant fi <= |l.lens| && Behind(l, fi, i)
      {
        OneMoreBehind(l, fi, i);
        fi := fi + 1;
      }
      BehindNext(l, fi, i);
      out := AddPiece(l, have, i, fi, offsets, out);
    }
  }

  lemma NothingBehind(l: Info)
    ensures Behind(l, 0, 0)
  {
  }

  lemma OneMoreBehind(l: Info, fi: nat, i: nat)
    requires Behind(l, fi, i) && fi < |l.lens| && Offset(l, fi) + l.lens[fi] <= PieceStart(l, i)
    ensures Behind(l, fi + 1, i)
  {
  }

  /** Adds the bytes of one piece to the files it reaches, from `fi` on. */
  method AddPiece(l: Info, have: set<nat>, i: nat, fi: nat, offsets: seq<nat>, before: seq<nat>) returns (out: seq<nat>)
    requires i in have && fi <= |l.lens| && Behind(l, fi, i) && |before| == |l.lens| == |offsets|
    requires forall f :: 0 <= f < |offsets| ==> offsets[f] == Offset(l, f)
    requires forall f :: 0 <= f < |before| ==> before[f] == DoneIn(l, have, i, f)
    ensures |out| == |l.lens|
    ensures forall f :: 0 <= f < |out| ==> out[f] == DoneIn(l, have, i + 1, f)
  {
    hide PieceStart, PieceEnd, Offset;
    out := before;
    var start, end := PieceStart(l, i), PieceEnd(l, i);
    var j := fi;
    while j < |l.lens| && offsets[j] < end
      invariant fi <= j <= |l.lens| == |out|
      invariant forall f :: 0 <= f < |out| ==> out[f] == before[f] + (if fi <= f < j then Overlap(l, i, f) else 0)
    {
      var lo := Max(start, offsets[j]);
      var hi := Min(end, offsets[j] + l.lens[j]);
      if hi > lo {
        out := out[j := out[j] + (hi - lo)];
      }
      j := j + 1;
    }
    forall f | 0 <= f < |out| && !(fi <= f < j) ensures Overlap(l, i, f) == 0 {
      if f >= j {
        OffsetsRise(l, j, f);
      }
      NoOverlap(l, i, f);
    }
  }

  // A file's bytes over all pieces ----------------------------------------------------------

  lemma AtStart(l: Info)
    ensures PieceStart(l, 0) == 0
  {
  }

  lemma NextStart(l: Info, i: nat)
    ensures PieceStart(l, i + 1) == PieceStart(l, i) + l.pieceLength && PieceEnd(l, i) == Min(PieceStart(l, i + 1), Total(l))
  {
  }

  /** The pieces below `n` hold exactly the part of the file before the start of piece `n`. */
  lemma {:induction false} FileFilled(l: Info, have: set<nat>, n: nat, f: nat)
    requires Valid(l) && n <= PieceCount(l) && f < |l.lens| && (forall i :: 0 <= i < n ==> i in have)
    ensures var x := Min(PieceStart(l, n), Total(l));
            DoneIn(l, have, n, f) == if x <= Offset(l, f) then 0 else Min(x - Offset(l, f), l.lens[f])
  {
    hide PieceCount, PieceStart, Offset, Total;
    if n == 0 {
      AtStart(l);
    } else {
      FileFilled(l, have, n - 1, f);
      PieceBounds(l, n - 1);
      NextStart(l, n - 1);
    }
  }

  lemma FileComplete(l: Info, have: set<nat>, f: nat)
    requires Valid(l) && f < |l.lens| && AllPieces(l) <= have
    ensures DoneIn(l, have, PieceCount(l), f) == l.lens[f]
  {
    FileFilled(l, have, PieceCount(l), f);
    DivCeilBounds(Total(l), l.pieceLength);
    OffsetStep(l, f);
    OffsetMonotone(l, f + 1, |l.lens|);
  }

  lemma {:induction false} MoreIsMore(l: Info, have: set<nat>, more: set<nat>, n: nat, f: nat)
    requires f < |l.lens| && (forall i :: 0 <= i < n && i in have && Overlap(l, i, f) > 0 ==> i in more)
    ensures DoneIn(l, have, n, f) <= DoneIn(l, more, n, f)
  {
    hide Overlap;
    if n > 0 {
      MoreIsMore(l, have, more, n - 1, f);
    }
  }

  /** A missing piece that has bytes in the file leaves it incomplete. */
  lemma {:induction false} MissingIsLess(l: Info, have: set<nat>, all: set<nat>, n: nat, f: nat, i: nat)
    requires f < |l.lens| && i < n && i in all && i !in have && Overlap(l, i, f) > 0
    requires forall k :: 0 <= k < n && k in have ==> k in all
    ensures DoneIn(l, have, n, f) < DoneIn(l, all, n, f)
  {
    hide Overlap;
    if i == n - 1 {
      MoreIsMore(l, have, all, n - 1, f);
    } else {
      MissingIsLess(l, have, all, n - 1, f, i);
    }
  }

  /** A file is complete exactly when every piece with bytes in it is there. */
  lemma FileCompleteIff(l: Info, have: set<nat>, f: nat)
    requires Valid(l) && f < |l.lens|
    ensures DoneIn(l, have, PieceCount(l), f) <= l.lens[f]
    ensures DoneIn(l, have, PieceCount(l), f) == l.lens[f] <==>
            forall i :: 0 <= i < PieceCount(l) && Overlap(l, i, f) > 0 ==> i in have
  {
    hide Overlap, DoneIn, PieceCount;
    var n, all := PieceCount(l), AllPieces(l);
    FileComplete(l, all, f);
    Restricted(l, have, n, f);
    MoreIsMore(l, have * all, all, n, f);
    if i :| 0 <= i < n && Overlap(l, i, f) > 0 && i !in have {
      MissingIsLess(l, have * all, all, n, f, i);
    } else {
      MoreIsMore(l, all, have * all, n, f);
    }
  }

  lemma {:induction false} Restricted(l: Info, have: set<nat>, n: nat, f: nat)
    requires Valid(l) && f < |l.lens| && n <= PieceCount(l)
    ensures DoneIn(l, have, n, f) == DoneIn(l, have * AllPieces(l), n, f)
  {
    hide Overlap;
    if n > 0 {
      Restricted(l, have, n - 1, f);
    }
  }

  // The sums -----------------------------------------------------------------------------------

  lemma {:induction false} GridStep(l: Info, have: set<nat>, n: nat, k: nat, sel: set<nat>)
    requires k <= |l.lens|
    ensures Grid(l, have, n + 1, k, sel) == Grid(l, have, n, k, sel) + (if n in have then RowSum(l, n, k, sel) else 0)
  {
    hide Overlap;
    if k > 0 {
      GridStep(l, have, n, k - 1, sel);
    }
  }

  /** The parts of a piece in all files add up to the piece. */
  lemma {:induction false} RowIsPiece(l: Info, i: nat, k: nat)
    requires Valid(l) && i < PieceCount(l) && k <= |l.lens|
    ensures RowSum(l, i, k, AllFiles(l)) ==
            if Offset(l, k) <= PieceStart(l, i) then 0 else Min(PieceEnd(l, i), Offset(l, k)) - PieceStart(l, i)
  {
    PieceBounds(l, i);
    if k == 0 {
      assert l.lens[..0] == [];
    } else {
      RowIsPiece(l, i, k - 1);
      OffsetStep(l, k - 1);
    }
  }

  function PieceSum(l: Info, have: set<nat>, n: nat): nat {
    if n == 0 then 0 else PieceSum(l, have, n - 1) + (if n - 1 in have then PieceLen(l, n - 1) else 0)
  }

  /** Counting whole pieces equals counting every file's share, all files selected. */
  lemma {:induction false} FastPathAgrees(l: Info, have: set<nat>, n: nat)
    requires Valid(l) && n <= PieceCount(l)
    ensures PieceSum(l, have, n) == Grid(l, have, n, |l.lens|, AllFiles(l))
  {
    hide PieceCount, PieceLen, RowSum, Overlap;
    if n == 0 {
      GridZero(l, have, |l.lens|, AllFiles(l));
    } else {
      FastPathAgrees(l, have, n - 1);
      GridStep(l, have, n - 1, |l.lens|, AllFiles(l));
      RowIsPiece(l, n - 1, |l.lens|);
      PieceBounds(l, n - 1);
      OffsetAtEnd(l);
    }
  }

  lemma {:induction false} GridZero(l: Info, have: set<nat>, k: nat, sel: set<nat>)
    requires k <= |l.lens|
    ensures Grid(l, have, 0, k, sel) == 0
  {
    if k > 0 {
      GridZero(l, have, k - 1, sel);
    }
  }

  /** `done_bytes_of`, as the sum over the selected files. */
  function DoneBytesOf(l: Info, done: set<nat>, wanted: Option<set<nat>>, selected: Option<seq<nat>>): nat
    requires Valid(l)
  {
    var sel := match selected case None => AllFiles(l) case Some(s) => set f | f in s;
    Grid(l, Counted(done, wanted), PieceCount(l), |l.lens|, sel)
  }

  /** `done_bytes_of`: whole pieces when all files are selected, per-file shares otherwise. */
  method ComputeDoneBytes(l: Info, done: set<nat>, wanted: Option<set<nat>>, selected: Option<seq<nat>>) returns (n: nat)
    requires Valid(l)
    ensures n == DoneBytesOf(l, done, wanted, selected)
  {
    hide PieceCount, PieceLen;
    var count := PieceCount(l);
    ghost var have := Counted(done, wanted);
    n := 0;
    if selected.None? {
      for i := 0 to count
        invariant n == PieceSum(l, have, i)
      {
        PieceBounds(l, i);
        var wantedI := wanted.None? || i in wanted.value;
        if wantedI && i in done {
          n := n + (if i == count - 1 then PieceLen(l, i) else l.pieceLength);
        }
      }
      FastPathAgrees(l, have, count);
      return;
    }
    var sel := set f | f in selected.value;
    var perFile := FilesDoneBytes(l, if wanted.None? then done else done * wanted.value);
    for k := 0 to |l.lens|
      invariant n == Grid(l, have, count, k, sel)
    {
      if k in sel {
        n := n + perFile[k];
      }
    }
  }

  // What the totals promise ----------------------------------------------------------------------

  lemma {:induction false} GridBound(l: Info, have: set<nat>, k: nat, sel: set<nat>)
    requires Valid(l) && k <= |l.lens|
    ensures Grid(l, have, PieceCount(l), k, sel) <= SelLength(l, k, sel)
    ensures Grid(l, have, PieceCount(l), k, sel) == SelLength(l, k, sel) <==>
            forall f :: 0 <= f < k && f in sel ==> DoneIn(l, have, PieceCount(l), f) == l.lens[f]
  {
    hide PieceCount, DoneIn;
    if k > 0 {
      GridBound(l, have, k - 1, sel);
      FileCompleteIff(l, have, k - 1);
    }
  }

  lemma {:induction false} SelLengthAll(l: Info, k: nat)
    requires k <= |l.lens|
    ensures SelLength(l, k, AllFiles(l)) == Offset(l, k)
  {
    if k == 0 {
      assert l.lens[..0] == [];
    } else {
      SelLengthAll(l, k - 1);
      OffsetStep(l, k - 1);
    }
  }

  function SelSet(l: Info, selected: Option<seq<nat>>): set<nat> {
    match selected case None => AllFiles(l) case Some(s) => set f | f in s
  }

  /** Piece `i` holds bytes, not just an empty segment, of a selected file. */
  predicate HasBytes(l: Info, i: nat, sel: set<nat>) {
    exists f :: 0 <= f < |l.lens| && f in sel && Overlap(l, i, f) > 0
  }

  /** A piece with bytes in a file has a segment in it. */
  lemma {:induction false} BytesHaveSegment(l: Info, i: nat, f: nat, from: nat) returns (k: nat)
    requires Valid(l) && i < PieceCount(l) && from <= f < |l.lens| && Overlap(l, i, f) > 0
    ensures k < |SegmentsFrom(l, PieceStart(l, i), PieceEnd(l, i), from)|
            && SegmentsFrom(l, PieceStart(l, i), PieceEnd(l, i), from)[k].file == f
    decreases f - from
  {
    hide OneSegment, PieceCount;
    PieceBounds(l, i);
    OneSegmentIs(l, PieceStart(l, i), PieceEnd(l, i), from);
    if from == f {
      k := 0;
    } else {
      var k' := BytesHaveSegment(l, i, f, from + 1);
      k := |OneSegment(l, PieceStart(l, i), PieceEnd(l, i), from)| + k';
    }
  }

  lemma BytesAreWanted(l: Info, selected: Option<seq<nat>>, i: nat, f: nat)
    requires Valid(l) && i < PieceCount(l) && f < |l.lens| && f in SelSet(l, selected) && Overlap(l, i, f) > 0
    ensures selected.Some? ==> i in WantedMask(l, selected).value
  {
    if selected.Some? {
      var k := BytesHaveSegment(l, i, f, 0);
      assert Segments(l, i)[k].file in (set f | f in selected.value);
    }
  }

  /**
   Progress never exceeds the selected length, and reaches it exactly when every piece that
   holds bytes of a selected file is done, also when pieces straddle unselected files.
   */
  lemma ProgressExact(l: Info, done: set<nat>, selected: Option<seq<nat>>)
    requires Valid(l)
    ensures var n, total := DoneBytesOf(l, done, WantedMask(l, selected), selected), SelectedLength(l, selected);
            && n <= total
            && (n == total <==> forall i :: 0 <= i < PieceCount(l) && HasBytes(l, i, SelSet(l, selected)) ==> i in done)
  {
    hide PieceCount, DoneIn, Grid, Overlap, Segments;
    var sel, have := SelSet(l, selected), Counted(done, WantedMask(l, selected));
    GridBound(l, have, |l.lens|, sel);
    SelLengthAll(l, |l.lens|);
    OffsetAtEnd(l);
    forall f | 0 <= f < |l.lens| && f in sel
      ensures DoneIn(l, have, PieceCount(l), f) == l.lens[f] <==>
              forall i :: 0 <= i < PieceCount(l) && Overlap(l, i, f) > 0 ==> i in done {
      FileCompleteIff(l, have, f);
      forall i | 0 <= i < PieceCount(l) && Overlap(l, i, f) > 0 ensures i in have <==> i in done {
        BytesAreWanted(l, selected, i, f);
      }
    }
    ExchangeQuantifiers(l, done, sel);
  }

  lemma ExchangeQuantifiers(l: Info, done: set<nat>, sel: set<nat>)
    requires Valid(l)
    ensures (forall i :: 0 <= i < PieceCount(l) && HasBytes(l, i, sel) ==> i in done) <==>
            (forall f :: 0 <= f < |l.lens| && f in sel ==>
               forall i :: 0 <= i < PieceCount(l) && Overlap(l, i, f) > 0 ==> i in done)
  {
    hide PieceCount, Overlap;
    if forall i :: 0 <= i < PieceCount(l) && HasBytes(l, i, sel) ==> i in done {
      forall f, i | 0 <= f < |l.lens| && f in sel && 0 <= i < PieceCount(l) && Overlap(l, i, f) > 0 ensures i in done {
        assert HasBytes(l, i, sel);
      }
    }
  }

  /** Finished means full: once all wanted pieces are done, progress equals the selected length. */
  lemma FinishedIsFull(l: Info, done: set<nat>, selected: Option<seq<nat>>)
    requires Valid(l) && AllWantedDone(l, done, WantedMask(l, selected))
    ensures DoneBytesOf(l, done, WantedMask(l, selected), selected) == SelectedLength(l, selected)
  {
    hide PieceCount, DoneBytesOf, Overlap, Segments;
    ProgressExact(l, done, selected);
    forall i | 0 <= i < PieceCount(l) && HasBytes(l, i, SelSet(l, selected)) ensures i in done {
      var f :| 0 <= f < |l.lens| && f in SelSet(l, selected) && Overlap(l, i, f) > 0;
      BytesAreWanted(l, selected, i, f);
    }
  }

  // Full is not always finished ------------------------------------------------------------------

  predicate Full(l: Info, done: set<nat>, selected: Option<seq<nat>>)
    requires Valid(l)
  {
    DoneBytesOf(l, done, WantedMask(l, selected), selected) == SelectedLength(l, selected)
  }

  lemma FullIff(l: Info, done: set<nat>, selected: Option<seq<nat>>)
    requires Valid(l)
    ensures Full(l, done, selected) <==>
            forall i :: 0 <= i < PieceCount(l) && HasBytes(l, i, SelSet(l, selected)) ==> i in done
  {
    hide DoneBytesOf, PieceCount, HasBytes;
    ProgressExact(l, done, selected);
  }

  /** A piece with bytes of a selected file is wanted. */
  lemma HasBytesIsWanted(l: Info, selected: Option<seq<nat>>, i: nat)
    requires Valid(l) && i < PieceCount(l) && selected.Some? && HasBytes(l, i, SelSet(l, selected))
    ensures i in WantedMask(l, selected).value
  {
    hide PieceCount, Overlap, Segments;
    var f :| 0 <= f < |l.lens| && f in SelSet(l, selected) && Overlap(l, i, f) > 0;
    BytesAreWanted(l, selected, i, f);
  }

  /** Every piece has bytes of some file. */
  lemma PieceHasBytes(l: Info, i: nat)
    requires Valid(l) && i < PieceCount(l)
    ensures HasBytes(l, i, AllFiles(l))
  {
    hide PieceCount, Overlap;
    PieceBounds(l, i);
    RowIsPiece(l, i, |l.lens|);
    OffsetAtEnd(l);
    var f := SomeOverlap(l, i, |l.lens|);
  }

  lemma {:induction false} SomeOverlap(l: Info, i: nat, k: nat) returns (f: nat)
    requires k <= |l.lens| && RowSum(l, i, k, AllFiles(l)) > 0
    ensures f < k && Overlap(l, i, f) > 0
  {
    hide Overlap;
    if RowSum(l, i, k - 1, AllFiles(l)) > 0 {
      f := SomeOverlap(l, i, k - 1);
    } else {
      f := k - 1;
    }
  }

  /** With all files selected full means finished. */
  lemma FullFinishesAll(l: Info, done: set<nat>)
    requires Valid(l) && Full(l, done, None)
    ensures AllWantedDone(l, done, WantedMask(l, None))
  {
    hide Full, PieceCount, HasBytes;
    FullIff(l, done, None);
    forall i | i in AllPieces(l) ensures i in done {
      PieceHasBytes(l, i);
    }
  }

  /**
   With a selection, full means finished in every state exactly when some piece is wanted and
   every wanted piece has bytes, not just an empty segment, of a selected file.
   */
  lemma FullFinishesIff(l: Info, sel: seq<nat>)
    requires Valid(l)
    ensures var mask := WantedMask(l, Some(sel)).value;
            (forall done: set<nat> :: Full(l, done, Some(sel)) ==> AllWantedDone(l, done, Some(mask))) <==>
            (mask != {} && forall i :: i in mask ==> HasBytes(l, i, SelSet(l, Some(sel))))
  {
    hide Full, PieceCount, HasBytes, SelSet, WantedMask;
    MaskExists(l, sel);
    var mask := WantedMask(l, Some(sel)).value;
    if mask == {} {
      FullWithout(l, sel, {}, 0);
      assert Full(l, {}, Some(sel)) && !AllWantedDone(l, {}, Some(mask));
    } else if i :| i in mask && !HasBytes(l, i, SelSet(l, Some(sel))) {
      var done := mask - {i};
      FullWithout(l, sel, done, i);
      assert Full(l, done, Some(sel)) && !AllWantedDone(l, done, Some(mask));
    } else {
      forall done: set<nat> | Full(l, done, Some(sel)) ensures AllWantedDone(l, done, Some(mask)) {
        FullIff(l, done, Some(sel));
      }
    }
  }

  lemma MaskExists(l: Info, sel: seq<nat>)
    requires Valid(l)
    ensures WantedMask(l, Some(sel)).Some?
    ensures forall i :: i in WantedMask(l, Some(sel)).value ==> 0 <= i < PieceCount(l)
  {
    hide PieceCount;
  }

  /** Progress is full without a piece that has no bytes of a selected file. */
  lemma FullWithout(l: Info, sel: seq<nat>, done: set<nat>, i: nat)
    requires Valid(l) && WantedMask(l, Some(sel)).value - {i} <= done
    requires !HasBytes(l, i, SelSet(l, Some(sel))) || i !in WantedMask(l, Some(sel)).value
    ensures Full(l, done, Some(sel))
  {
    hide Full, PieceCount, HasBytes, SelSet, WantedMask;
    FullIff(l, done, Some(sel));
    forall k | 0 <= k < PieceCount(l) && HasBytes(l, k, SelSet(l, Some(sel))) ensures k in done {
      HasBytesIsWanted(l, Some(sel), k);
    }
  }

  /** Two bytes, nothing, two bytes, in one piece of four. */
  const SAMPLE := Info(4, [2, 0, 2])

  lemma SampleSizes()
    ensures Offset(SAMPLE, 1) == Offset(SAMPLE, 2) == 2 && Offset(SAMPLE, 0) == 0 && Total(SAMPLE) == 4
    ensures PieceCount(SAMPLE) == 1
  {
    OffsetStep(SAMPLE, 0);
    OffsetStep(SAMPLE, 1);
    OffsetStep(SAMPLE, 2);
    OffsetAtEnd(SAMPLE);
    assert SAMPLE.lens[..0] == [];
  }

  lemma SampleSegments()
    ensures |Segments(SAMPLE, 0)| == 3 && Segments(SAMPLE, 0)[1] == Seg(1, 0, 0)
  {
    hide OneSegment, Offset, PieceCount, Total;
    SampleSizes();
    OneSegmentIs(SAMPLE, 0, 4, 2);
    OneSegmentIs(SAMPLE, 0, 4, 1);
    OneSegmentIs(SAMPLE, 0, 4, 0);
    var a, b, c := OneSegment(SAMPLE, 0, 4, 0), OneSegment(SAMPLE, 0, 4, 1), OneSegment(SAMPLE, 0, 4, 2);
    assert SegmentsFrom(SAMPLE, 0, 4, 3) == [];
    assert SegmentsFrom(SAMPLE, 0, 4, 2) == c + [];
    assert SegmentsFrom(SAMPLE, 0, 4, 1) == b + (c + []);
    assert Segments(SAMPLE, 0) == a + (b + (c + []));
  }

  /** A selected empty file inside a piece makes the piece wanted although it adds no bytes. */
  lemma FullNotFinished()
    ensures var selected := Some([1]);
            && WantedMask(SAMPLE, selected) == Some({0})
            && DoneBytesOf(SAMPLE, {}, WantedMask(SAMPLE, selected), selected) == SelectedLength(SAMPLE, selected)
            && !AllWantedDone(SAMPLE, {}, WantedMask(SAMPLE, selected))
  {
    hide DoneBytesOf, Segments;
    SampleSizes();
    SampleSegments();
    var sel: set<nat> := set f | f in [1];
    assert Segments(SAMPLE, 0)[1].file in sel;
    assert Touches(SAMPLE, 0, sel);
    assert WantedMask(SAMPLE, Some([1])).value == {0};
    ProgressExact(SAMPLE, {}, Some([1]));
    assert SelLength(SAMPLE, 3, sel) == SelLength(SAMPLE, 2, sel) == SelLength(SAMPLE, 1, sel) == 0;
  }

  /** Nothing selected, as before a choice was made: full from the start and never finished. */
  lemma NothingSelected(l: Info, done: set<nat>)
    requires Valid(l)
    ensures WantedMask(l, Some([])) == Some({}) && Full(l, done, Some([])) && !AllWantedDone(l, done, Some({}))
  {
    hide Full, PieceCount, Overlap, Segments;
    var none: seq<nat> := [];
    assert (set f | f in none) == {};
    assert forall i :: !Touches(l, i, {});
    assert WantedMask(l, Some(none)).value == {};
    assert SelSet(l, Some(none)) == {};
    FullIff(l, done, Some([]));
  }

  // Which pieces are wanted ------------------------------------------------------------------------

  lemma {:induction false} FilesFrom(l: Info, ps: nat, pe: nat, from: nat)
    requires from <= |l.lens| && (ps <= pe || ps >= Total(l))
    ensures forall s :: s in SegmentsFrom(l, ps, pe, from) ==> s.file >= from
    decreases |l.lens| - from
  {
    hide Offset;
    if from < |l.lens| {
      FilesFrom(l, ps, pe, from + 1);
    }
  }

  /** A piece has a segment in a file, empty or not, exactly when the file begins before the piece ends and ends after it begins. */
  lemma {:induction false} SegmentIff(l: Info, ps: nat, pe: nat, from: nat, f: nat)
    requires from <= f < |l.lens| && (ps <= pe || ps >= Total(l))
    ensures (exists s :: s in SegmentsFrom(l, ps, pe, from) && s.file == f) <==> Offset(l, f) < pe && ps < Offset(l, f) + l.lens[f]
    decreases f - from
  {
    hide Offset, Total;
    FilesFrom(l, ps, pe, from + 1);
    var one, rest := OneSegment(l, ps, pe, from), SegmentsFrom(l, ps, pe, from + 1);
    assert forall s :: s in one + rest <==> s in one || s in rest;
    if from == f {
      if one != [] {
        assert one[0] in one + rest && one[0].file == f;
      }
    } else {
      SegmentIff(l, ps, pe, from + 1, f);
      assert forall s :: s in one ==> s.file == from;
    }
  }

  /** With a selection a piece is wanted exactly when it meets a selected file, even an empty one inside it. */
  lemma WantedIff(l: Info, sel: seq<nat>, i: nat)
    requires Valid(l)
    ensures WantedMask(l, Some(sel)).Some?
    ensures i in WantedMask(l, Some(sel)).value <==>
            i < PieceCount(l) && exists f :: 0 <= f < |l.lens| && f in sel
                                             && Offset(l, f) < PieceEnd(l, i) && PieceStart(l, i) < Offset(l, f) + l.lens[f]
  {
    hide Offset, PieceCount, PieceEnd;
    if i < PieceCount(l) {
      PieceBounds(l, i);
      var segs := Segments(l, i);
      SegmentsInLayout(l, i);
      forall f | 0 <= f < |l.lens|
        ensures (exists s :: s in segs && s.file == f) <==> Offset(l, f) < PieceEnd(l, i) && PieceStart(l, i) < Offset(l, f) + l.lens[f] {
        SegmentIff(l, PieceStart(l, i), PieceEnd(l, i), 0, f);
      }
      TouchesIff(l, i, set f | f in sel);
      if f :| 0 <= f < |l.lens| && f in sel && Offset(l, f) < PieceEnd(l, i) && PieceStart(l, i) < Offset(l, f) + l.lens[f] {
        var s :| s in segs && s.file == f;
      }
    }
  }

  lemma TouchesIff(l: Info, i: nat, sel: set<nat>)
    ensures Touches(l, i, sel) <==> exists s :: s in Segments(l, i) && s.file in sel
  {
    hide Segments;
    if s :| s in Segments(l, i) && s.file in sel {
      var k :| 0 <= k < |Segments(l, i)| && Segments(l, i)[k] == s;
    }
  }

  lemma SegmentsInLayout(l: Info, i: nat)
    requires Valid(l) && i < PieceCount(l)
    ensures forall s :: s in Segments(l, i) ==> s.file < |l.lens|
  {
    hide PieceCount, Segments;
    SegmentsChain(l, i);
    forall s | s in Segments(l, i) ensures s.file < |l.lens| {
      var k :| 0 <= k < |Segments(l, i)| && Segments(l, i)[k] == s;
      ChainBeyond(l, Segments(l, i), PieceStart(l, i), PieceEnd(l, i), k);
    }
  }

  /** Done pieces that are not wanted count for nothing. */
  lemma OnlyWantedCount(l: Info, done: set<nat>, mask: set<nat>, selected: Option<seq<nat>>)
    requires Valid(l)
    ensures DoneBytesOf(l, done, Some(mask), selected) == DoneBytesOf(l, (set i | i in done && i in mask), None, selected)
  {
    hide Grid;
    var both := set i | i in done && i in mask;
    assert Counted(done, Some(mask)) == Counted(both, None);
  }
}
