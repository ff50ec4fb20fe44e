/**
 The progress counters of the threads that check existing data, one atomic addition at a time:
 a snapshot may be taken between any two additions of any threads.
 */
module Counters {
  import opened Bytes
  import opened Layout
  import opened DoneBytes
  import opened VerifyRun

  // The additions a thread makes --------------------------------------------------------------

  datatype Counter = FileChecked | FileVerified | BytesChecked | PiecesChecked | BytesVerified | PiecesVerified

  /** One `fetch_add`; `file` matters to the per-file counters only. */
  datatype Add = Add(counter: Counter, file: nat, amount: nat)

  /** `record_segments` */
  function FileAdds(segs: seq<Seg>, ok: bool): seq<Add> {
    if segs == [] then []
    else
      var s := segs[0];
      [Add(FileChecked, s.file, s.len)] + (if ok then [Add(FileVerified, s.file, s.len)] else [])
      + FileAdds(segs[1..], ok)
  }

  /** `record` */
  function TotalAdds(len: nat, ok: bool): seq<Add> {
    [Add(BytesChecked, 0, len), Add(PiecesChecked, 0, 1)]
    + (if ok then [Add(BytesVerified, 0, len), Add(PiecesVerified, 0, 1)] else [])
  }

  function PieceAdds(j: Job, i: nat): seq<Add>
    requires i < |j.hashes|
  {
    FileAdds(Segments(j.l, i), Intact(j, i)) + TotalAdds(PieceLen(j.l, i), Intact(j, i))
  }

  /** All additions of a thread whose range is [lo, hi), in program order. */
  function Program(j: Job, lo: nat, hi: nat): seq<Add>
    requires hi <= |j.hashes|
    decreases hi
  {
    if lo >= hi then [] else Program(j, lo, hi - 1) + (if Asked(j, hi - 1) then PieceAdds(j, hi - 1) else [])
  }

  /** What the additions bring to one counter. */
  function Tot(c: Counter, adds: seq<Add>): nat {
    if adds == [] then 0 else Tot(c, adds[..|adds| - 1]) + Share(c, adds[|adds| - 1])
  }

  function Share(c: Counter, a: Add): nat { if a.counter == c then a.amount else 0 }

  lemma TotSnoc(c: Counter, adds: seq<Add>, a: Add)
    ensures Tot(c, adds + [a]) == Tot(c, adds) + Share(c, a)
  {
    assert (adds + [a])[..|adds|] == adds;
  }

  lemma {:induction false} TotConcat(c: Counter, x: seq<Add>, y: seq<Add>)
    ensures Tot(c, x + y) == Tot(c, x) + Tot(c, y)
    decreases |y|
  {
    if y == [] {
      assert x + y == x;
    } else {
      var front, last := y[..|y| - 1], y[|y| - 1];
      TotConcat(c, x, front);
      TotSnoc(c, x + front, last);
      assert x + y == (x + front) + [last];
    }
  }

  lemma {:induction false} TotPrefix(c: Counter, adds: seq<Add>, k: nat)
    requires k <= |adds|
    ensures Tot(c, adds[..k]) <= Tot(c, adds)
  {
    TotConcat(c, adds[..k], adds[k..]);
    assert adds[..k] + adds[k..] == adds;
  }

  // Every prefix of a program keeps the counters in order ------------------------------------------

  /** Files are counted before totals, and checks before successes. */
  predicate InOrder(adds: seq<Add>) {
    && Tot(BytesVerified, adds) <= Tot(BytesChecked, adds) <= Tot(FileChecked, adds)
    && Tot(BytesVerified, adds) <= Tot(FileVerified, adds) <= Tot(FileChecked, adds)
    && Tot(PiecesVerified, adds) <= Tot(PiecesChecked, adds)
  }

  /** Whole pieces leave files and totals level. */
  predicate Level(adds: seq<Add>) {
    InOrder(adds) && Tot(FileChecked, adds) == Tot(BytesChecked, adds) && Tot(FileVerified, adds) == Tot(BytesVerified, adds)
  }

  lemma TotAll(x: seq<Add>, y: seq<Add>)
    ensures forall c: Counter :: Tot(c, x + y) == Tot(c, x) + Tot(c, y)
  {
    forall c: Counter ensures Tot(c, x + y) == Tot(c, x) + Tot(c, y) {
      TotConcat(c, x, y);
    }
  }

  lemma TotOne(a: Add)
    ensures forall c: Counter :: Tot(c, [a]) == Share(c, a)
  {
    forall c: Counter ensures Tot(c, [a]) == Share(c, a) {
      TotSnoc(c, [], a);
      assert [] + [a] == [a];
    }
  }

  /** The additions to files, cut anywhere: successes never ahead of checks, no totals yet. */
  lemma {:induction false} FileAddsPrefix(segs: seq<Seg>, ok: bool, k: nat)
    requires k <= |FileAdds(segs, ok)|
    ensures var p := FileAdds(segs, ok)[..k];
            && Tot(FileVerified, p) <= Tot(FileChecked, p)
            && Tot(BytesChecked, p) == Tot(BytesVerified, p) == Tot(PiecesChecked, p) == Tot(PiecesVerified, p) == 0
    ensures k == |FileAdds(segs, ok)| ==>
              var p := FileAdds(segs, ok)[..k];
              Tot(FileChecked, p) == SumLen(segs) && Tot(FileVerified, p) == if ok then SumLen(segs) else 0
    decreases |segs|
  {
    hide Tot;
    NoTot();
    if segs == [] || k == 0 {
      assert FileAdds(segs, ok)[..k] == [];
      if segs != [] {
        assert |FileAdds(segs, ok)| > 0;
      }
    } else {
      var s, rest := segs[0], FileAdds(segs[1..], ok);
      var a, b := Add(FileChecked, s.file, s.len), Add(FileVerified, s.file, s.len);
      TotOne(a);
      TotOne(b);
      if !ok {
        assert FileAdds(segs, ok) == [a] + rest;
        FileAddsPrefix(segs[1..], ok, k - 1);
        assert ([a] + rest)[..k] == [a] + rest[..k - 1];
        TotAll([a], rest[..k - 1]);
      } else if k == 1 {
        assert FileAdds(segs, ok)[..k] == [a];
      } else {
        assert FileAdds(segs, ok) == [a] + ([b] + rest);
        FileAddsPrefix(segs[1..], ok, k - 2);
        assert ([a] + ([b] + rest))[..k] == [a] + ([b] + rest[..k - 2]);
        TotAll([b], rest[..k - 2]);
        TotAll([a], [b] + rest[..k - 2]);
      }
    }
  }

  lemma NoTot()
    ensures forall c: Counter :: Tot(c, []) == 0
  {
  }

  lemma TotalAddsPrefix(len: nat, ok: bool, k: nat)
    requires k <= |TotalAdds(len, ok)|
    ensures var p := TotalAdds(len, ok)[..k];
            && Tot(FileChecked, p) == Tot(FileVerified, p) == 0
            && Tot(BytesVerified, p) <= Tot(BytesChecked, p) <= len && Tot(PiecesVerified, p) <= Tot(PiecesChecked, p) <= 1
            && Tot(BytesVerified, p) <= (if ok then len else 0) && Tot(PiecesVerified, p) <= (if ok then 1 else 0)
    ensures k == |TotalAdds(len, ok)| ==>
              var p := TotalAdds(len, ok)[..k];
              && Tot(BytesChecked, p) == len && Tot(PiecesChecked, p) == 1
              && Tot(BytesVerified, p) == (if ok then len else 0) && Tot(PiecesVerified, p) == (if ok then 1 else 0)
  {
    hide Tot;
    NoTot();
    var a, b, c, d := Add(BytesChecked, 0, len), Add(PiecesChecked, 0, 1), Add(BytesVerified, 0, len), Add(PiecesVerified, 0, 1);
    TotOne(a);
    TotOne(b);
    TotOne(c);
    TotOne(d);
    TotAll([a], [b]);
    TotAll([a] + [b], [c]);
    TotAll([a] + [b] + [c], [d]);
    var p := TotalAdds(len, ok)[..k];
    assert p == if k == 0 then [] else if k == 1 then [a] else if k == 2 then [a] + [b]
                else if k == 3 then [a] + [b] + [c] else [a] + [b] + [c] + [d];
  }

  lemma PieceAddsPrefix(j: Job, i: nat, k: nat)
    requires Layout.Valid(j.l) && i < |j.hashes| && k <= |PieceAdds(j, i)|
    ensures InOrder(PieceAdds(j, i)[..k])
  {
    hide Tot, FileAdds, TotalAdds, Intact, Segments;
    var len, ok := PieceLen(j.l, i), Intact(j, i);
    var x, y := FileAdds(Segments(j.l, i), ok), TotalAdds(len, ok);
    SegmentLengths(j.l, i);
    if k <= |x| {
      FileAddsPrefix(Segments(j.l, i), ok, k);
      assert (x + y)[..k] == x[..k];
    } else {
      FileAddsPrefix(Segments(j.l, i), ok, |x|);
      assert x[..|x|] == x;
      TotalAddsPrefix(len, ok, k - |x|);
      assert (x + y)[..k] == x + y[..k - |x|];
      TotAll(x, y[..k - |x|]);
    }
  }

  lemma PieceAddsTotal(j: Job, i: nat)
    requires Layout.Valid(j.l) && i < |j.hashes|
    ensures Level(PieceAdds(j, i)) && Tot(BytesChecked, PieceAdds(j, i)) == PieceLen(j.l, i)
    ensures Tot(PiecesChecked, PieceAdds(j, i)) == 1
    ensures Tot(BytesVerified, PieceAdds(j, i)) == if Intact(j, i) then PieceLen(j.l, i) else 0
    ensures Tot(PiecesVerified, PieceAdds(j, i)) == if Intact(j, i) then 1 else 0
  {
    hide Tot, FileAdds, TotalAdds, Intact, Segments;
    var len, ok := PieceLen(j.l, i), Intact(j, i);
    var x, y := FileAdds(Segments(j.l, i), ok), TotalAdds(len, ok);
    SegmentLengths(j.l, i);
    FileAddsPrefix(Segments(j.l, i), ok, |x|);
    TotalAddsPrefix(len, ok, |y|);
    assert x[..|x|] == x && y[..|y|] == y;
    TotAll(x, y);
  }

  lemma {:induction false} ProgramPrefix(j: Job, lo: nat, hi: nat, k: nat)
    requires Layout.Valid(j.l) && hi <= |j.hashes| && k <= |Program(j, lo, hi)|
    ensures InOrder(Program(j, lo, hi)[..k]) && Level(Program(j, lo, hi))
    decreases hi
  {
    hide Tot, PieceAdds, Asked;
    NoTot();
    if lo >= hi {
      assert Program(j, lo, hi)[..k] == [];
    } else {
      var x := Program(j, lo, hi - 1);
      var y := if Asked(j, hi - 1) then PieceAdds(j, hi - 1) else [];
      ProgramPrefix(j, lo, hi - 1, Min(k, |x|));
      PieceAddsTotal(j, hi - 1);
      TotAll(x, y);
      if k <= |x| {
        assert (x + y)[..k] == x[..k];
      } else {
        PieceAddsPrefix(j, hi - 1, k - |x|);
        assert (x + y)[..k] == x + y[..k - |x|];
        TotAll(x, y[..k - |x|]);
      }
    }
  }

  // The shared counters ------------------------------------------------------------------------------

  datatype Shared = Shared(
    checkedIn: seq<nat>, verifiedIn: seq<nat>,
    checkedBytes: nat, checkedPieces: nat, verifiedBytes: nat, verifiedPieces: nat)

  function Zeroed(files: nat): Shared { Shared(seq(files, _ => 0), seq(files, _ => 0), 0, 0, 0, 0) }

  function AddAt(xs: seq<nat>, f: nat, n: nat): seq<nat> { if f < |xs| then xs[f := xs[f] + n] else xs }

  function Apply(s: Shared, a: Add): Shared {
    match a.counter
    case FileChecked => s.(checkedIn := AddAt(s.checkedIn, a.file, a.amount))
    case FileVerified => s.(verifiedIn := AddAt(s.verifiedIn, a.file, a.amount))
    case BytesChecked => s.(checkedBytes := s.checkedBytes + a.amount)
    case PiecesChecked => s.(checkedPieces := s.checkedPieces + a.amount)
    case BytesVerified => s.(verifiedBytes := s.verifiedBytes + a.amount)
    case PiecesVerified => s.(verifiedPieces := s.verifiedPieces + a.amount)
  }

  /** A counter as a snapshot shows it, the per-file ones summed. */
  function Shown(s: Shared, c: Counter): nat {
    match c
    case FileChecked => Sum(s.checkedIn)
    case FileVerified => Sum(s.verifiedIn)
    case BytesChecked => s.checkedBytes
    case PiecesChecked => s.checkedPieces
    case BytesVerified => s.verifiedBytes
    case PiecesVerified => s.verifiedPieces
  }

  lemma {:induction false} SumAddAt(xs: seq<nat>, f: nat, n: nat)
    requires f < |xs|
    ensures Sum(xs[f := xs[f] + n]) == Sum(xs) + n
    decreases |xs|
  {
    var front := xs[..|xs| - 1];
    var ys := xs[f := xs[f] + n];
    if f == |xs| - 1 {
      assert ys[..|ys| - 1] == front;
    } else {
      SumAddAt(front, f, n);
      assert ys[..|ys| - 1] == front[f := front[f] + n];
    }
  }

  lemma {:induction false} SumZeros(n: nat)
    ensures Sum(seq(n, _ => 0)) == 0
  {
    if n > 0 {
      SumZeros(n - 1);
      var z: seq<nat> := seq(n, _ => 0);
      assert z[..n - 1] == seq(n - 1, _ => 0);
    }
  }

  predicate FitsFiles(a: Add, files: nat) { a.counter in {FileChecked, FileVerified} ==> a.file < files }

  lemma ApplyShows(s: Shared, a: Add, files: nat)
    requires |s.checkedIn| == |s.verifiedIn| == files && FitsFiles(a, files)
    ensures var s' := Apply(s, a);
            |s'.checkedIn| == |s'.verifiedIn| == files && forall c: Counter :: Shown(s', c) == Shown(s, c) + Share(c, a)
  {
    if a.counter == FileChecked {
      SumAddAt(s.checkedIn, a.file, a.amount);
    } else if a.counter == FileVerified {
      SumAddAt(s.verifiedIn, a.file, a.amount);
    }
  }

  // Any interleaving --------------------------------------------------------------------------------

  predicate AllFit(adds: seq<Add>, files: nat) { forall k :: 0 <= k < |adds| ==> FitsFiles(adds[k], files) }

  /** Executes the schedule, one addition of the named thread at a time; `pc` counts what each has done. */
  function Run(progs: seq<seq<Add>>, pc: seq<nat>, s: Shared, schedule: seq<nat>): (seq<nat>, Shared)
    requires |pc| == |progs|
    decreases |schedule|
  {
    if schedule == [] then (pc, s)
    else
      var w := schedule[0];
      if w < |progs| && pc[w] < |progs[w]| then Run(progs, pc[w := pc[w] + 1], Apply(s, progs[w][pc[w]]), schedule[1..])
      else Run(progs, pc, s, schedule[1..])
  }

  predicate Started(progs: seq<seq<Add>>, pc: seq<nat>) {
    |pc| == |progs| && forall w :: 0 <= w < |pc| ==> pc[w] <= |progs[w]|
  }

  /** What the first `k` threads have added to a counter. */
  function Added(c: Counter, progs: seq<seq<Add>>, pc: seq<nat>, k: nat): nat
    requires Started(progs, pc) && k <= |progs|
  {
    if k == 0 then 0 else Added(c, progs, pc, k - 1) + Tot(c, progs[k - 1][..pc[k - 1]])
  }

  lemma {:induction false} AddedStep(c: Counter, progs: seq<seq<Add>>, pc: seq<nat>, w: nat, k: nat)
    requires Started(progs, pc) && w < |progs| && pc[w] < |progs[w]| && k <= |progs|
    ensures Started(progs, pc[w := pc[w] + 1])
    ensures Added(c, progs, pc[w := pc[w] + 1], k) == Added(c, progs, pc, k) + (if w < k then Share(c, progs[w][pc[w]]) else 0)
  {
    hide Tot, Share;
    if k > 0 {
      AddedStep(c, progs, pc, w, k - 1);
      if w == k - 1 {
        TotSnoc(c, progs[w][..pc[w]], progs[w][pc[w]]);
        assert progs[w][..pc[w] + 1] == progs[w][..pc[w]] + [progs[w][pc[w]]];
      }
    }
  }

  /** The counters hold exactly what the threads have added so far. */
  ghost predicate InStep(progs: seq<seq<Add>>, pc: seq<nat>, s: Shared, files: nat) {
    && Started(progs, pc) && |s.checkedIn| == |s.verifiedIn| == files
    && (forall w :: 0 <= w < |progs| ==> AllFit(progs[w], files))
    && (forall c: Counter :: Shown(s, c) == Added(c, progs, pc, |progs|))
  }

  lemma {:induction false} RunInStep(progs: seq<seq<Add>>, pc: seq<nat>, s: Shared, files: nat, schedule: seq<nat>)
    requires InStep(progs, pc, s, files)
    ensures InStep(progs, Run(progs, pc, s, schedule).0, Run(progs, pc, s, schedule).1, files)
    decreases |schedule|
  {
    hide Tot, Apply, Shown, Added, Share, FitsFiles;
    if schedule != [] {
      var w := schedule[0];
      if w < |progs| && pc[w] < |progs[w]| {
        var a := progs[w][pc[w]];
        ApplyShows(s, a, files);
        forall c: Counter
          ensures Started(progs, pc[w := pc[w] + 1])
          ensures Shown(Apply(s, a), c) == Added(c, progs, pc[w := pc[w] + 1], |progs|) {
          AddedStep(c, progs, pc, w, |progs|);
        }
        assert Started(progs, pc[w := pc[w] + 1]);
        RunInStep(progs, pc[w := pc[w] + 1], Apply(s, a), files, schedule[1..]);
      } else {
        RunInStep(progs, pc, s, files, schedule[1..]);
      }
    }
  }

  // The threads of the check --------------------------------------------------------------------------

  function Programs(j: Job, workers: nat): (ps: seq<seq<Add>>)
    requires Layout.Valid(j.l) && Runs(j) && workers > 0
    ensures |ps| == workers
  {
    var chunk := DivCeil(PieceCount(j.l), workers);
    seq(workers, w requires 0 <= w < workers => Program(j, First(w, chunk), Last(w, chunk, PieceCount(j.l))))
  }

  function Begun(workers: nat): seq<nat> { seq(workers, _ => 0) }

  lemma {:induction false} FileAddsFit(l: Info, segs: seq<Seg>, ok: bool)
    requires forall k :: 0 <= k < |segs| ==> segs[k].file < |l.lens|
    ensures AllFit(FileAdds(segs, ok), |l.lens|)
  {
    if segs != [] {
      FileAddsFit(l, segs[1..], ok);
    }
  }

  lemma {:induction false} ProgramFits(j: Job, lo: nat, hi: nat)
    requires Layout.Valid(j.l) && hi <= |j.hashes| == PieceCount(j.l)
    ensures AllFit(Program(j, lo, hi), |j.l.lens|)
    decreases hi
  {
    hide PieceCount, Segments, Intact, Asked, FileAdds;
    if lo < hi {
      ProgramFits(j, lo, hi - 1);
      SegmentsInFiles(j.l, hi - 1);
      FileAddsFit(j.l, Segments(j.l, hi - 1), Intact(j, hi - 1));
    }
  }

  lemma SegmentsInFiles(l: Info, i: nat)
    requires Layout.Valid(l) && i < PieceCount(l)
    ensures forall k :: 0 <= k < |Segments(l, i)| ==> Segments(l, i)[k].file < |l.lens|
  {
    hide PieceCount, Segments;
    SegmentsChain(l, i);
    forall k | 0 <= k < |Segments(l, i)| ensures Segments(l, i)[k].file < |l.lens| {
      ChainBeyond(l, Segments(l, i), PieceStart(l, i), PieceEnd(l, i), k);
    }
  }

  lemma BegunInStep(j: Job, workers: nat)
    requires Layout.Valid(j.l) && Runs(j) && workers > 0
    ensures InStep(Programs(j, workers), Begun(workers), Zeroed(|j.l.lens|), |j.l.lens|)
  {
    hide PieceCount, Program, Tot;
    var ps, n := Programs(j, workers), PieceCount(j.l);
    SumZeros(|j.l.lens|);
    forall w | 0 <= w < workers ensures AllFit(ps[w], |j.l.lens|) {
      ProgramFits(j, First(w, DivCeil(n, workers)), Last(w, DivCeil(n, workers), n));
    }
    forall c: Counter ensures Added(c, ps, Begun(workers), workers) == 0 {
      AddedNothing(c, ps, Begun(workers), workers);
    }
  }

  lemma {:induction false} AddedNothing(c: Counter, progs: seq<seq<Add>>, pc: seq<nat>, k: nat)
    requires Started(progs, pc) && k <= |progs| && forall w :: 0 <= w < |pc| ==> pc[w] == 0
    ensures Added(c, progs, pc, k) == 0
  {
    hide Tot;
    NoTot();
    if k > 0 {
      AddedNothing(c, progs, pc, k - 1);
      assert progs[k - 1][..0] == [];
    }
  }

  /** The orders that every prefix keeps add up over the threads. */
  lemma {:induction false} AddedInOrder(j: Job, workers: nat, pc: seq<nat>, k: nat)
    requires Layout.Valid(j.l) && Runs(j) && workers > 0 && Started(Programs(j, workers), pc) && k <= workers
    ensures var ps := Programs(j, workers);
            && Added(BytesVerified, ps, pc, k) <= Added(BytesChecked, ps, pc, k) <= Added(FileChecked, ps, pc, k)
            && Added(BytesVerified, ps, pc, k) <= Added(FileVerified, ps, pc, k) <= Added(FileChecked, ps, pc, k)
            && Added(PiecesVerified, ps, pc, k) <= Added(PiecesChecked, ps, pc, k)
  {
    hide PieceCount, Program, Tot;
    if k > 0 {
      AddedInOrder(j, workers, pc, k - 1);
      var n := PieceCount(j.l);
      ProgramPrefix(j, First(k - 1, DivCeil(n, workers)), Last(k - 1, DivCeil(n, workers), n), pc[k - 1]);
    }
  }

  lemma {:induction false} AddedAtMost(c: Counter, progs: seq<seq<Add>>, pc: seq<nat>, k: nat)
    requires Started(progs, pc) && k <= |progs|
    ensures Started(progs, Through(progs)) && Added(c, progs, pc, k) <= Added(c, progs, Through(progs), k)
  {
    hide Tot;
    if k > 0 {
      AddedAtMost(c, progs, pc, k - 1);
      TotPrefix(c, progs[k - 1], pc[k - 1]);
      assert progs[k - 1][..|progs[k - 1]|] == progs[k - 1];
    }
  }

  /** All threads at the end of their programs. */
  function Through(progs: seq<seq<Add>>): (pc: seq<nat>)
    ensures Started(progs, pc)
  {
    seq(|progs|, w requires 0 <= w < |progs| => |progs[w]|)
  }

  // The totals ------------------------------------------------------------------------------------------

  /** How many pieces of `have` lie below `n`. */
  function HowMany(have: set<nat>, n: nat): nat {
    if n == 0 then 0 else HowMany(have, n - 1) + (if n - 1 in have then 1 else 0)
  }

  lemma {:induction false} HowManyIs(have: set<nat>, n: nat, below: set<nat>)
    requires forall i :: i in below <==> i in have && i < n
    ensures HowMany(have, n) == |below|
  {
    if n == 0 {
      assert below == {};
    } else {
      HowManyIs(have, n - 1, below - {n - 1});
      assert below == if n - 1 in have then (below - {n - 1}) + {n - 1} else below - {n - 1};
    }
  }

  /** The pieces of a range, by counter. */
  function Target(j: Job, c: Counter, n: nat): nat
    requires Layout.Valid(j.l) && Runs(j)
  {
    match c
    case FileChecked => PieceSum(j.l, Todo(j), n)
    case BytesChecked => PieceSum(j.l, Todo(j), n)
    case FileVerified => PieceSum(j.l, Good(j), n)
    case BytesVerified => PieceSum(j.l, Good(j), n)
    case PiecesChecked => HowMany(Todo(j), n)
    case PiecesVerified => HowMany(Good(j), n)
  }

  lemma TargetStep(j: Job, c: Counter, n: nat)
    requires Layout.Valid(j.l) && Runs(j) && n < PieceCount(j.l)
    ensures Target(j, c, n + 1) == Target(j, c, n) + (if Asked(j, n) then Tot(c, PieceAdds(j, n)) else 0)
  {
    hide PieceCount, PieceLen, Tot, PieceAdds, Intact, Asked;
    PieceAddsTotal(j, n);
    PieceClass(j, n);
  }

  lemma {:induction false} RangeTotal(j: Job, c: Counter, lo: nat, hi: nat)
    requires Layout.Valid(j.l) && Runs(j) && lo <= hi <= PieceCount(j.l)
    ensures Target(j, c, lo) + Tot(c, Program(j, lo, hi)) == Target(j, c, hi)
    decreases hi
  {
    hide PieceCount, Tot, PieceAdds, Asked, Target;
    NoTot();
    if lo < hi {
      RangeTotal(j, c, lo, hi - 1);
      TargetStep(j, c, hi - 1);
      var y := if Asked(j, hi - 1) then PieceAdds(j, hi - 1) else [];
      TotConcat(c, Program(j, lo, hi - 1), y);
    }
  }

  /** The ranges follow one another, so the threads together do everything below the next range. */
  lemma {:induction false} AllRanges(j: Job, c: Counter, workers: nat, k: nat)
    requires Layout.Valid(j.l) && Runs(j) && workers > 0 && k <= workers
    ensures var ps, n := Programs(j, workers), PieceCount(j.l);
            Added(c, ps, Through(ps), k) == Target(j, c, Min(First(k, DivCeil(n, workers)), n))
  {
    hide PieceCount, Tot, Program, Target, Todo, Good;
    var ps, n := Programs(j, workers), PieceCount(j.l);
    var chunk := DivCeil(n, workers);
    if k == 0 {
      TargetZero(j, c);
    } else {
      AllRanges(j, c, workers, k - 1);
      assert First(k, chunk) == First(k - 1, chunk) + chunk;
      var lo, hi := First(k - 1, chunk), Last(k - 1, chunk, n);
      assert ps[k - 1][..|ps[k - 1]|] == Program(j, lo, hi);
      if lo <= n {
        RangeTotal(j, c, lo, hi);
      } else {
        EmptyRange(j, c, lo, hi);
      }
    }
  }

  lemma EmptyRange(j: Job, c: Counter, lo: nat, hi: nat)
    requires hi <= |j.hashes| && lo >= hi
    ensures Tot(c, Program(j, lo, hi)) == 0
  {
  }

  lemma TargetZero(j: Job, c: Counter)
    requires Layout.Valid(j.l) && Runs(j)
    ensures Target(j, c, 0) == 0
  {
    hide Todo, Good;
  }

  lemma LastRange(n: nat, workers: nat)
    requires workers > 0
    ensures First(workers, DivCeil(n, workers)) >= n
  {
    DivCeilBounds(n, workers);
  }

  /** A snapshot of the counters during a run. */
  ghost predicate SnapshotOk(j: Job, s: Shared)
    requires Layout.Valid(j.l) && Runs(j)
  {
    && s.verifiedBytes <= s.checkedBytes <= Sum(s.checkedIn) <= PieceSum(j.l, Todo(j), PieceCount(j.l))
    && s.verifiedBytes <= Sum(s.verifiedIn) <= Sum(s.checkedIn) && Sum(s.verifiedIn) <= PieceSum(j.l, Good(j), PieceCount(j.l))
    && s.verifiedPieces <= s.checkedPieces <= |Todo(j)|
  }

  /** The counters once every thread has made all its additions. */
  ghost predicate FinalOk(j: Job, s: Shared)
    requires Layout.Valid(j.l) && Runs(j)
  {
    && Sum(s.checkedIn) == s.checkedBytes == PieceSum(j.l, Todo(j), PieceCount(j.l)) && s.checkedPieces == |Todo(j)|
    && Sum(s.verifiedIn) == s.verifiedBytes == PieceSum(j.l, Good(j), PieceCount(j.l)) && s.verifiedPieces == |Good(j)|
  }

  lemma TargetIs(j: Job)
    requires Layout.Valid(j.l) && Runs(j)
    ensures var n := PieceCount(j.l);
            Target(j, PiecesChecked, n) == |Todo(j)| && Target(j, PiecesVerified, n) == |Good(j)|
  {
    hide PieceCount, Intact, Asked;
    var n := PieceCount(j.l);
    HowManyIs(Todo(j), n, Todo(j));
    HowManyIs(Good(j), n, Good(j));
  }

  /**
   For any number of threads and any schedule, at every moment: the files' checked bytes never
   fall behind the checked bytes, successes never run ahead of checks, and nothing runs past the
   announced total; when all threads are through, everything is equal to what was to be done.
   */
  lemma SnapshotsInOrder(j: Job, workers: nat, schedule: seq<nat>)
    requires Layout.Valid(j.l) && Runs(j) && workers > 0
    ensures var (pc, s) := Run(Programs(j, workers), Begun(workers), Zeroed(|j.l.lens|), schedule);
            SnapshotOk(j, s) && (pc == Through(Programs(j, workers)) ==> FinalOk(j, s))
  {
    hide PieceCount, Program, Tot, Run, Todo, Good, PieceSum, Through, Programs, Added, DivCeil;
    var ps, n := Programs(j, workers), PieceCount(j.l);
    BegunInStep(j, workers);
    RunInStep(ps, Begun(workers), Zeroed(|j.l.lens|), |j.l.lens|, schedule);
    var (pc, s) := Run(ps, Begun(workers), Zeroed(|j.l.lens|), schedule);
    AddedInOrder(j, workers, pc, workers);
    LastRange(n, workers);
    TargetIs(j);
    forall c: Counter ensures Shown(s, c) <= Target(j, c, n) && (pc == Through(ps) ==> Shown(s, c) == Target(j, c, n)) {
      AddedAtMost(c, ps, pc, workers);
      AllRanges(j, c, workers, workers);
    }
    assert Shown(s, FileChecked) == Sum(s.checkedIn) && Shown(s, FileVerified) == Sum(s.verifiedIn);
    assert Shown(s, BytesChecked) == s.checkedBytes && Shown(s, BytesVerified) == s.verifiedBytes;
    assert Shown(s, PiecesChecked) == s.checkedPieces && Shown(s, PiecesVerified) == s.verifiedPieces;
  }

  // When files and totals agree ---------------------------------------------------------------------

  /** A per-file counter and the total that follows it in every piece. */
  predicate Pair(fc: Counter, tc: Counter) {
    (fc == FileChecked && tc == BytesChecked) || (fc == FileVerified && tc == BytesVerified)
  }

  /**
   Where a thread stands after these additions: looking back, an addition to the total comes before
   any non-empty addition to a file, or there is none.
   */
  predicate Settled(fc: Counter, tc: Counter, adds: seq<Add>) {
    adds == []
    || (var last := adds[|adds| - 1];
        last.counter == tc || (Share(fc, last) == 0 && Settled(fc, tc, adds[..|adds| - 1])))
  }

  lemma {:induction false} SettledMore(fc: Counter, tc: Counter, x: seq<Add>, y: seq<Add>)
    requires forall k :: 0 <= k < |y| ==> y[k].counter != tc
    ensures Settled(fc, tc, x + y) <==> Settled(fc, tc, x) && Tot(fc, y) == 0
    decreases |y|
  {
    if y == [] {
      assert x + y == x;
    } else {
      SettledMore(fc, tc, x, y[..|y| - 1]);
      assert (x + y)[..|x + y| - 1] == x + y[..|y| - 1];
    }
  }

  /** Within a piece nothing is added to files once its total is. */
  lemma {:induction false} SettledAfter(fc: Counter, tc: Counter, x: seq<Add>, y: seq<Add>, k: nat)
    requires k < |y| && y[k].counter == tc && Tot(fc, y) == 0
    ensures Settled(fc, tc, x + y)
    decreases |y|
  {
    var front := y[..|y| - 1];
    assert (x + y)[..|x + y| - 1] == x + front;
    if y[|y| - 1].counter != tc {
      SettledAfter(fc, tc, x, front, k);
    }
  }

  lemma {:induction false} FileAddsOnlyFiles(segs: seq<Seg>, ok: bool)
    ensures forall k :: 0 <= k < |FileAdds(segs, ok)| ==> FileAdds(segs, ok)[k].counter in {FileChecked, FileVerified}
  {
    if segs != [] {
      FileAddsOnlyFiles(segs[1..], ok);
    }
  }

  /** The additions of one piece, cut anywhere, behind a thread that stood between pieces. */
  lemma PieceSettledIff(j: Job, i: nat, k: nat, x: seq<Add>, fc: Counter, tc: Counter)
    requires Layout.Valid(j.l) && i < |j.hashes| && k <= |PieceAdds(j, i)| && Pair(fc, tc) && Settled(fc, tc, x)
    ensures var y := PieceAdds(j, i)[..k]; Settled(fc, tc, x + y) <==> Tot(fc, y) == Tot(tc, y)
  {
    hide Tot, FileAdds, TotalAdds, Intact, Segments, Settled;
    var len, ok := PieceLen(j.l, i), Intact(j, i);
    var files, totals := FileAdds(Segments(j.l, i), ok), TotalAdds(len, ok);
    SegmentLengths(j.l, i);
    FileAddsOnlyFiles(Segments(j.l, i), ok);
    var y := (files + totals)[..k];
    if k <= |files| {
      assert y == files[..k];
      FileAddsPrefix(Segments(j.l, i), ok, k);
      SettledMore(fc, tc, x, y);
    } else {
      var z := totals[..k - |files|];
      assert y == files + z && files[..|files|] == files;
      FileAddsPrefix(Segments(j.l, i), ok, |files|);
      TotalAddsPrefix(len, ok, k - |files|);
      TotAll(files, z);
      TotalsSettledIff(len, ok, k - |files|, x + files, fc, tc);
      SettledMore(fc, tc, x, files);
      assert x + y == (x + files) + z;
    }
  }

  /** Behind all files of a piece: settled once the total is added, until then as before. */
  lemma TotalsSettledIff(len: nat, ok: bool, k: nat, x: seq<Add>, fc: Counter, tc: Counter)
    requires 0 < k <= |TotalAdds(len, ok)| && Pair(fc, tc)
    ensures var z := TotalAdds(len, ok)[..k];
            var due := if fc == FileChecked || ok then len else 0;
            && Tot(fc, z) == 0
            && (|| (Settled(fc, tc, x + z) && Tot(tc, z) == due)
                || (Tot(tc, z) == 0 && (Settled(fc, tc, x + z) <==> Settled(fc, tc, x))))
  {
    hide Settled, Tot;
    var z := TotalAdds(len, ok)[..k];
    TotalAddsPrefix(len, ok, k);
    if tc == BytesChecked {
      FirstTotal(len, ok, k);
      SettledAfter(fc, tc, x, z, 0);
    } else if k >= 3 {
      ThirdTotal(len, ok, k);
      SettledAfter(fc, tc, x, z, 2);
    } else {
      NoneVerified(len, ok, k);
      SettledMore(fc, tc, x, z);
    }
  }

  lemma FirstTotal(len: nat, ok: bool, k: nat)
    requires 0 < k <= |TotalAdds(len, ok)|
    ensures Tot(BytesChecked, TotalAdds(len, ok)[..k]) == len
  {
    var z := TotalAdds(len, ok)[..k];
    TotOne(z[0]);
    TotPrefix(BytesChecked, z, 1);
    assert z[..1] == [z[0]];
    TotalAddsPrefix(len, ok, k);
  }

  lemma ThirdTotal(len: nat, ok: bool, k: nat)
    requires 3 <= k <= |TotalAdds(len, ok)|
    ensures ok && Tot(BytesVerified, TotalAdds(len, ok)[..k]) == len
  {
    hide Tot;
    var z := TotalAdds(len, ok)[..k];
    TotOne(z[2]);
    TotPrefix(BytesVerified, z, 3);
    assert z[..3] == z[..2] + [z[2]];
    TotAll(z[..2], [z[2]]);
    TotalAddsPrefix(len, ok, k);
  }

  lemma NoneVerified(len: nat, ok: bool, k: nat)
    requires 0 < k <= 2
    ensures k <= |TotalAdds(len, ok)|
    ensures Tot(BytesVerified, TotalAdds(len, ok)[..k]) == 0
  {
    hide Tot;
    NoTot();
    var z := TotalAdds(len, ok)[..k];
    TotOne(z[0]);
    if k == 1 {
      assert z == [z[0]];
    } else {
      TotOne(z[1]);
      assert z == [z[0]] + [z[1]];
      TotAll([z[0]], [z[1]]);
    }
  }

  /** Anywhere in its program a thread's files and totals agree exactly when it is settled. */
  lemma {:induction false} ProgramSettledIff(j: Job, lo: nat, hi: nat, k: nat, fc: Counter, tc: Counter)
    requires Layout.Valid(j.l) && hi <= |j.hashes| && k <= |Program(j, lo, hi)| && Pair(fc, tc)
    ensures var p := Program(j, lo, hi)[..k]; Settled(fc, tc, p) <==> Tot(fc, p) == Tot(tc, p)
    decreases hi
  {
    hide Tot, PieceAdds, Asked, Settled;
    if lo >= hi {
      assert Program(j, lo, hi)[..k] == [];
      NothingSettled(fc, tc);
    } else {
      var x := Program(j, lo, hi - 1);
      var y := if Asked(j, hi - 1) then PieceAdds(j, hi - 1) else [];
      ProgramSettledIff(j, lo, hi - 1, Min(k, |x|), fc, tc);
      if k <= |x| {
        assert (x + y)[..k] == x[..k];
      } else {
        assert x[..|x|] == x && (x + y)[..k] == x + y[..k - |x|];
        ProgramPrefix(j, lo, hi - 1, |x|);
        PieceSettledIff(j, hi - 1, k - |x|, x, fc, tc);
        TotAll(x, y[..k - |x|]);
      }
    }
  }

  lemma NothingSettled(fc: Counter, tc: Counter)
    ensures Settled(fc, tc, []) && Tot(fc, []) == Tot(tc, []) == 0
  {
  }

  /** All threads stand between pieces, as far as these two counters show. */
  predicate AllSettled(fc: Counter, tc: Counter, progs: seq<seq<Add>>, pc: seq<nat>)
    requires Started(progs, pc)
  {
    forall w :: 0 <= w < |progs| ==> Settled(fc, tc, progs[w][..pc[w]])
  }

  lemma {:induction false} AddedAgreeIff(j: Job, workers: nat, pc: seq<nat>, k: nat, fc: Counter, tc: Counter)
    requires Layout.Valid(j.l) && Runs(j) && workers > 0 && Started(Programs(j, workers), pc) && k <= workers && Pair(fc, tc)
    ensures var ps := Programs(j, workers);
            && Added(tc, ps, pc, k) <= Added(fc, ps, pc, k)
            && (Added(fc, ps, pc, k) == Added(tc, ps, pc, k) <==> forall w :: 0 <= w < k ==> Settled(fc, tc, ps[w][..pc[w]]))
  {
    hide PieceCount, Program, Tot, Settled;
    if k > 0 {
      AddedAgreeIff(j, workers, pc, k - 1, fc, tc);
      var n := PieceCount(j.l);
      var lo, hi := First(k - 1, DivCeil(n, workers)), Last(k - 1, DivCeil(n, workers), n);
      ProgramPrefix(j, lo, hi, pc[k - 1]);
      ProgramSettledIff(j, lo, hi, pc[k - 1], fc, tc);
    }
  }

  /**
   Files and total agree in a snapshot exactly when no thread stands between a non-empty addition
   to a file and the addition to the total that belongs to it, for checked and for verified bytes.
   */
  lemma AgreeIff(j: Job, workers: nat, schedule: seq<nat>)
    requires Layout.Valid(j.l) && Runs(j) && workers > 0
    ensures var ps := Programs(j, workers);
            var (pc, s) := Run(ps, Begun(workers), Zeroed(|j.l.lens|), schedule);
            && Started(ps, pc)
            && (Sum(s.checkedIn) == s.checkedBytes <==> AllSettled(FileChecked, BytesChecked, ps, pc))
            && (Sum(s.verifiedIn) == s.verifiedBytes <==> AllSettled(FileVerified, BytesVerified, ps, pc))
  {
    hide PieceCount, Program, Tot, Run, Settled, Programs, Added;
    var ps := Programs(j, workers);
    BegunInStep(j, workers);
    RunInStep(ps, Begun(workers), Zeroed(|j.l.lens|), |j.l.lens|, schedule);
    var (pc, s) := Run(ps, Begun(workers), Zeroed(|j.l.lens|), schedule);
    AddedAgreeIff(j, workers, pc, workers, FileChecked, BytesChecked);
    AddedAgreeIff(j, workers, pc, workers, FileVerified, BytesVerified);
    assert Shown(s, FileChecked) == Sum(s.checkedIn) && Shown(s, FileVerified) == Sum(s.verifiedIn);
    assert Shown(s, BytesChecked) == s.checkedBytes && Shown(s, BytesVerified) == s.verifiedBytes;
  }

  // A snapshot loads one counter after the other -----------------------------------------------------

  lemma OneForEachFile(j: Job, workers: nat, schedule: seq<nat>)
    requires Layout.Valid(j.l) && Runs(j) && workers > 0
    ensures |Run(Programs(j, workers), Begun(workers), Zeroed(|j.l.lens|), schedule).1.checkedIn| == |j.l.lens|
  {
    hide Run, Programs, Added, Shown;
    BegunInStep(j, workers);
    RunInStep(Programs(j, workers), Begun(workers), Zeroed(|j.l.lens|), |j.l.lens|, schedule);
  }

  /** The counters after the first `k` turns of the schedule. */
  function At(j: Job, workers: nat, schedule: seq<nat>, k: nat): (s: Shared)
    requires Layout.Valid(j.l) && Runs(j) && workers > 0 && k <= |schedule|
    ensures |s.checkedIn| == |j.l.lens|
  {
    OneForEachFile(j, workers, schedule[..k]);
    Run(Programs(j, workers), Begun(workers), Zeroed(|j.l.lens|), schedule[..k]).1
  }

  lemma {:induction false} RunSnoc(progs: seq<seq<Add>>, pc: seq<nat>, s: Shared, schedule: seq<nat>, w: nat)
    requires |pc| == |progs|
    ensures var (pc', s') := Run(progs, pc, s, schedule);
            && |pc'| == |progs|
            && Run(progs, pc, s, schedule + [w]) == Run(progs, pc', s', [w])
    decreases |schedule|
  {
    hide Apply;
    if schedule == [] {
      assert [] + [w] == [w];
    } else {
      var v := schedule[0];
      assert (schedule + [w])[1..] == schedule[1..] + [w];
      if v < |progs| && pc[v] < |progs[v]| {
        RunSnoc(progs, pc[v := pc[v] + 1], Apply(s, progs[v][pc[v]]), schedule[1..], w);
      } else {
        RunSnoc(progs, pc, s, schedule[1..], w);
      }
    }
  }

  /** No counter of checked bytes is less than before. */
  predicate Grown(s: Shared, s': Shared) {
    && s.checkedBytes <= s'.checkedBytes && |s.checkedIn| == |s'.checkedIn|
    && forall f :: 0 <= f < |s.checkedIn| ==> s.checkedIn[f] <= s'.checkedIn[f]
  }

  lemma OneTurnGrows(progs: seq<seq<Add>>, pc: seq<nat>, s: Shared, w: nat)
    requires |pc| == |progs|
    ensures Grown(s, Run(progs, pc, s, [w]).1)
  {
  }

  lemma {:induction false} Grows(j: Job, workers: nat, schedule: seq<nat>, k: nat, m: nat)
    requires Layout.Valid(j.l) && Runs(j) && workers > 0 && k <= m <= |schedule|
    ensures Grown(At(j, workers, schedule, k), At(j, workers, schedule, m))
    decreases m
  {
    hide Run, Programs;
    if k < m {
      Grows(j, workers, schedule, k, m - 1);
      var ps, pc, s := Programs(j, workers), Begun(workers), Zeroed(|j.l.lens|);
      assert schedule[..m] == schedule[..m - 1] + [schedule[m - 1]];
      RunSnoc(ps, pc, s, schedule[..m - 1], schedule[m - 1]);
      var (pc', s') := Run(ps, pc, s, schedule[..m - 1]);
      OneTurnGrows(ps, pc', s', schedule[m - 1]);
    }
  }

  lemma {:induction false} SumLe(xs: seq<nat>, ys: seq<nat>)
    requires |xs| == |ys| && forall f :: 0 <= f < |xs| ==> xs[f] <= ys[f]
    ensures Sum(xs) <= Sum(ys)
    decreases |xs|
  {
    if xs != [] {
      SumLe(xs[..|xs| - 1], ys[..|ys| - 1]);
    }
  }

  /**
   A snapshot loads the checked bytes at one moment and each file at a later one of its own: what
   it shows still never has the files behind the total, nor beyond what was announced.
   */
  lemma LoadedInTurn(j: Job, workers: nat, schedule: seq<nat>, k: nat, moments: seq<nat>, loads: seq<nat>)
    requires Layout.Valid(j.l) && Runs(j) && workers > 0 && |moments| == |loads| == |j.l.lens|
    requires forall f :: 0 <= f < |moments| ==> k <= moments[f] <= |schedule|
    requires k <= |schedule|
    requires forall f :: 0 <= f < |loads| ==> loads[f] == At(j, workers, schedule, moments[f]).checkedIn[f]
    ensures At(j, workers, schedule, k).checkedBytes <= Sum(loads) <= PieceSum(j.l, Todo(j), PieceCount(j.l))
  {
    hide PieceCount, Programs, Run, PieceSum, Todo, At, FinalOk, Through;
    var s, end := At(j, workers, schedule, k), At(j, workers, schedule, |schedule|);
    AtInOrder(j, workers, schedule, k);
    AtInOrder(j, workers, schedule, |schedule|);
    Grows(j, workers, schedule, k, |schedule|);
    forall f | 0 <= f < |loads| ensures s.checkedIn[f] <= loads[f] <= end.checkedIn[f] {
      Grows(j, workers, schedule, k, moments[f]);
      Grows(j, workers, schedule, moments[f], |schedule|);
    }
    SumLe(s.checkedIn, loads);
    SumLe(loads, end.checkedIn);
  }

  lemma AtInOrder(j: Job, workers: nat, schedule: seq<nat>, k: nat)
    requires Layout.Valid(j.l) && Runs(j) && workers > 0 && k <= |schedule|
    ensures SnapshotOk(j, At(j, workers, schedule, k))
  {
    hide SnapshotOk, FinalOk, Run, Programs, Through;
    SnapshotsInOrder(j, workers, schedule[..k]);
  }

  /** Verified bytes loaded no later than the checked bytes are at most those; at any moment they stay within the total. */
  lemma VerifiedLoadedFirst(j: Job, workers: nat, schedule: seq<nat>, k: nat, m: nat)
    requires Layout.Valid(j.l) && Runs(j) && workers > 0 && m <= |schedule| && k <= |schedule|
    ensures At(j, workers, schedule, m).verifiedBytes <= At(j, workers, schedule, m).checkedBytes
    ensures m <= k ==> At(j, workers, schedule, m).verifiedBytes <= At(j, workers, schedule, k).checkedBytes
    ensures At(j, workers, schedule, m).verifiedBytes <= PieceSum(j.l, Good(j), PieceCount(j.l)) <= PieceSum(j.l, Todo(j), PieceCount(j.l))
  {
    hide PieceCount, PieceSum, Todo, At, Good;
    AtInOrder(j, workers, schedule, m);
    GoodWithinTodo(j, PieceCount(j.l));
    if m <= k {
      Grows(j, workers, schedule, m, k);
    }
  }

  lemma {:induction false} GoodWithinTodo(j: Job, n: nat)
    requires Layout.Valid(j.l) && Runs(j) && n <= PieceCount(j.l)
    ensures PieceSum(j.l, Good(j), n) <= PieceSum(j.l, Todo(j), n)
  {
    hide PieceCount, PieceLen, Intact, Asked;
    if n > 0 {
      GoodWithinTodo(j, n - 1);
      assert n - 1 in Good(j) ==> n - 1 in Todo(j);
    }
  }

  // What a snapshot may show -----------------------------------------------------------------------

  /** One thread goes along while the others wait. */
  lemma {:induction false} Alone(progs: seq<seq<Add>>, pc: seq<nat>, s: Shared, w: nat, n: nat)
    requires Started(progs, pc) && w < |progs| && pc[w] + n <= |progs[w]|
    ensures Run(progs, pc, s, seq(n, _ => w)).0 == pc[w := pc[w] + n]
    decreases n
  {
    hide Apply;
    var turns: seq<nat> := seq(n, _ => w);
    if n > 0 {
      assert turns[1..] == seq(n - 1, _ => w);
      Alone(progs, pc[w := pc[w] + 1], Apply(s, progs[w][pc[w]]), w, n - 1);
    } else {
      assert pc[w := pc[w]] == pc;
    }
  }

  /** What is not zero in sum is not zero in some thread. */
  lemma {:induction false} SomeThread(c: Counter, progs: seq<seq<Add>>, pc: seq<nat>, k: nat) returns (w: nat)
    requires Started(progs, pc) && k <= |progs| && Added(c, progs, pc, k) > 0
    ensures w < k && Tot(c, progs[w][..pc[w]]) > 0
  {
    hide Tot;
    if Tot(c, progs[k - 1][..pc[k - 1]]) > 0 {
      w := k - 1;
    } else {
      w := SomeThread(c, progs, pc, k - 1);
    }
  }

  lemma {:induction false} OneThread(c: Counter, progs: seq<seq<Add>>, pc: seq<nat>, k: nat, w: nat)
    requires Started(progs, pc) && w < k <= |progs|
    ensures Tot(c, progs[w][..pc[w]]) <= Added(c, progs, pc, k)
  {
    hide Tot;
    if w < k - 1 {
      OneThread(c, progs, pc, k - 1, w);
    }
  }

  /** Cut right behind the first non-empty addition to a file, a program is not settled. */
  lemma {:induction false} CutBehindFile(fc: Counter, tc: Counter, adds: seq<Add>) returns (k: nat)
    requires Tot(fc, adds) > 0 && Pair(fc, tc)
    ensures k <= |adds| && !Settled(fc, tc, adds[..k])
    decreases |adds|
  {
    var front := adds[..|adds| - 1];
    if Share(fc, adds[|adds| - 1]) > 0 {
      k := |adds|;
      assert adds[..k] == adds;
    } else {
      k := CutBehindFile(fc, tc, front);
      assert front[..k] == adds[..k];
    }
  }

  /** A thread with something to do for a counter whose target is not zero. */
  lemma BusyThread(j: Job, workers: nat, c: Counter) returns (w: nat)
    requires Layout.Valid(j.l) && Runs(j) && workers > 0 && Target(j, c, PieceCount(j.l)) > 0
    ensures w < workers && Tot(c, Programs(j, workers)[w]) > 0
  {
    hide PieceCount, Tot, Added, Target, Programs;
    var ps := Programs(j, workers);
    AllRanges(j, c, workers, workers);
    LastRange(PieceCount(j.l), workers);
    w := SomeThread(c, ps, Through(ps), workers);
    assert ps[w][..|ps[w]|] == ps[w];
  }

  ghost predicate FilesAhead(j: Job, workers: nat, schedule: seq<nat>)
    requires Layout.Valid(j.l) && Runs(j) && workers > 0
  {
    var s := At(j, workers, schedule, |schedule|); Sum(s.checkedIn) > s.checkedBytes
  }

  /** Some schedule lets a snapshot show the files ahead of the total, exactly if there is anything to check. */
  lemma FilesAheadIff(j: Job, workers: nat)
    requires Layout.Valid(j.l) && Runs(j) && workers > 0
    ensures (exists schedule: seq<nat> :: FilesAhead(j, workers, schedule)) <==> PieceSum(j.l, Todo(j), PieceCount(j.l)) > 0
  {
    hide PieceCount, PieceSum, Todo, Programs, Run, Tot, Settled, Added;
    var ps, b := Programs(j, workers), Begun(workers);
    if PieceSum(j.l, Todo(j), PieceCount(j.l)) > 0 {
      var w := BusyThread(j, workers, FileChecked);
      var k := CutBehindFile(FileChecked, BytesChecked, ps[w]);
      var turns: seq<nat> := seq(k, _ => w);
      Alone(ps, b, Zeroed(|j.l.lens|), w, k);
      AgreeIff(j, workers, turns);
      AtInOrder(j, workers, turns, |turns|);
      assert turns[..|turns|] == turns;
      assert !AllSettled(FileChecked, BytesChecked, ps, b[w := k]);
      assert FilesAhead(j, workers, turns);
    }
    if schedule: seq<nat> :| FilesAhead(j, workers, schedule) {
      AtInOrder(j, workers, schedule, |schedule|);
    }
  }

  ghost predicate Overtaken(j: Job, workers: nat, schedule: seq<nat>, k: nat, m: nat)
    requires Layout.Valid(j.l) && Runs(j) && workers > 0
  {
    k <= m <= |schedule| && At(j, workers, schedule, m).verifiedBytes > At(j, workers, schedule, k).checkedBytes
  }

  /**
   A snapshot that loads the checked bytes first may show more verified than checked, exactly if
   there is anything good.
   */
  lemma OvertakenIff(j: Job, workers: nat)
    requires Layout.Valid(j.l) && Runs(j) && workers > 0
    ensures (exists schedule: seq<nat>, k: nat, m: nat :: Overtaken(j, workers, schedule, k, m)) <==>
            PieceSum(j.l, Good(j), PieceCount(j.l)) > 0
  {
    hide PieceCount, PieceSum, Todo, Good, Programs, Run, Tot, Added;
    var ps, b := Programs(j, workers), Begun(workers);
    if PieceSum(j.l, Good(j), PieceCount(j.l)) > 0 {
      var w := BusyThread(j, workers, BytesVerified);
      var n := |ps[w]|;
      var turns: seq<nat> := seq(n, _ => w);
      Alone(ps, b, Zeroed(|j.l.lens|), w, n);
      BegunInStep(j, workers);
      RunInStep(ps, b, Zeroed(|j.l.lens|), |j.l.lens|, turns);
      OneThread(BytesVerified, ps, b[w := n], workers, w);
      assert ps[w][..n] == ps[w] && turns[..n] == turns;
      NothingYet(j, workers, turns);
      var end := At(j, workers, turns, n);
      assert Shown(end, BytesVerified) == end.verifiedBytes;
      assert Overtaken(j, workers, turns, 0, n);
    }
    if schedule: seq<nat>, k: nat, m: nat :| Overtaken(j, workers, schedule, k, m) {
      VerifiedLoadedFirst(j, workers, schedule, k, m);
    }
  }

  lemma NothingYet(j: Job, workers: nat, schedule: seq<nat>)
    requires Layout.Valid(j.l) && Runs(j) && workers > 0
    ensures At(j, workers, schedule, 0).checkedBytes == 0
  {
    hide Programs;
    assert schedule[..0] == [];
  }
}
