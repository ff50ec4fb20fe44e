/** The worker threads: any number, scheduled in any order, one piece at a time. */
module VerifyRun {
  import opened Bytes
  import opened Layout
  import opened DoneBytes
  import opened Bitfield
  import opened FileCache
  import opened Verify

  /** `ExistingVerification` */
  datatype Verification = Verification(bitfield: seq<bv8>, byteCount: nat, pieces: nat)

  datatype Job = Job(l: Info, hashes: seq<bytes>, sha1: bytes -> bytes, wanted: Option<set<nat>>, disk: Disk)

  predicate Runs(j: Job)
    requires Layout.Valid(j.l)
  {
    |j.hashes| == PieceCount(j.l)
  }

  /** Entirely on disk and with the right hash. */
  predicate Intact(j: Job, i: nat)
    requires i < |j.hashes|
  {
    var data := PieceOnDisk(j.disk, j.l, i);
    data.Some? && j.sha1(data.value) == j.hashes[i]
  }

  predicate Asked(j: Job, i: nat) { j.wanted.None? || i in j.wanted.value }

  function Todo(j: Job): (r: set<nat>)
    requires Layout.Valid(j.l)
    ensures forall i :: i in r <==> 0 <= i < PieceCount(j.l) && Asked(j, i)
  {
    set i | i in Upto(PieceCount(j.l)) && Asked(j, i)
  }

  function Good(j: Job): (r: set<nat>)
    requires Layout.Valid(j.l) && Runs(j)
    ensures forall i :: i in r <==> 0 <= i < PieceCount(j.l) && Asked(j, i) && Intact(j, i)
  {
    set i | i in Upto(PieceCount(j.l)) && Asked(j, i) && Intact(j, i)
  }

  // The split into ranges -------------------------------------------------------------------------

  function First(w: nat, chunk: nat): nat { w * chunk }

  function Last(w: nat, chunk: nat, count: nat): nat { Min(First(w, chunk) + chunk, count) }

  /** The worker whose range holds piece `i`. */
  function Owner(i: nat, chunk: nat): nat
    requires chunk > 0
  {
    i / chunk
  }

  lemma OwnerIs(i: nat, chunk: nat, w: nat)
    requires chunk > 0
    ensures Owner(i, chunk) == w <==> First(w, chunk) <= i < First(w, chunk) + chunk
  {
    assert i == (i / chunk) * chunk + i % chunk;
    if w < i / chunk {
      MulLe(w + 1, i / chunk, chunk);
      assert (w + 1) * chunk == w * chunk + chunk;
    } else if w > i / chunk {
      MulLe(i / chunk + 1, w, chunk);
      assert (i / chunk + 1) * chunk == (i / chunk) * chunk + chunk;
    }
  }

  lemma RangesCover(i: nat, count: nat, workers: nat)
    requires workers > 0 && i < count
    ensures DivCeil(count, workers) > 0 && Owner(i, DivCeil(count, workers)) < workers
  {
    var chunk := DivCeil(count, workers);
    DivCeilBounds(count, workers);
    OwnerIs(i, chunk, Owner(i, chunk));
    if Owner(i, chunk) >= workers {
      MulLe(workers, Owner(i, chunk), chunk);
    }
  }

  // Any interleaving ---------------------------------------------------------------------------------

  /** `next` piece and `local` results of every thread, who has finished, and what was merged. */
  datatype Threads = Threads(next: seq<nat>, local: seq<seq<nat>>, joined: set<nat>, verified: seq<nat>)

  /** The pieces some thread has moved past. */
  ghost predicate Passed(t: Threads, chunk: nat, i: nat)
    requires chunk > 0
  {
    Owner(i, chunk) < |t.next| && i < t.next[Owner(i, chunk)]
  }

  ghost predicate ThreadOk(t: Threads, count: nat, chunk: nat, good: set<nat>, w: nat)
    requires chunk > 0 && w < |t.next| == |t.local|
  {
    && First(w, chunk) <= t.next[w] && (t.next[w] <= Last(w, chunk, count) || t.next[w] == First(w, chunk))
    && NoRepeats(t.local[w])
    && (forall i :: i in t.local[w] <==> i in good && Owner(i, chunk) == w && i < t.next[w])
    && (w in t.joined ==> t.next[w] >= Last(w, chunk, count))
  }

  ghost predicate RunOk(t: Threads, count: nat, chunk: nat, workers: nat, good: set<nat>) {
    && chunk > 0 && |t.next| == |t.local| == workers && t.joined <= Upto(workers)
    && (forall w :: 0 <= w < workers ==> ThreadOk(t, count, chunk, good, w))
    && NoRepeats(t.verified) && (forall i :: i in t.verified <==> i in good && Owner(i, chunk) in t.joined)
  }

  lemma Begin(count: nat, chunk: nat, workers: nat, good: set<nat>)
    requires chunk > 0
    ensures var t := Threads(seq(workers, w requires w >= 0 => First(w, chunk)), seq(workers, _ => []), {}, []);
            RunOk(t, count, chunk, workers, good) && forall i :: !Passed(t, chunk, i)
  {
    hide Owner, First;
    forall i: nat ensures Owner(i, chunk) < workers ==> First(Owner(i, chunk), chunk) <= i {
      OwnerIs(i, chunk, Owner(i, chunk));
    }
  }

  /** Thread `w` moves past its next piece; `ok` tells that it passed. */
  function Advance(t: Threads, w: nat, ok: bool): Threads
    requires w < |t.next| == |t.local|
  {
    t.(next := t.next[w := t.next[w] + 1],
       local := if ok then t.local[w := t.local[w] + [t.next[w]]] else t.local)
  }

  lemma AdvanceKeeps(t: Threads, count: nat, chunk: nat, workers: nat, good: set<nat>, w: nat)
    requires RunOk(t, count, chunk, workers, good) && w < workers && t.next[w] < Last(w, chunk, count)
    ensures var i := t.next[w];
            && RunOk(Advance(t, w, i in good), count, chunk, workers, good)
            && i < count && !Passed(t, chunk, i)
            && forall k :: Passed(Advance(t, w, i in good), chunk, k) <==> Passed(t, chunk, k) || k == i
  {
    hide Owner, First;
    var i, ok := t.next[w], t.next[w] in good;
    var t' := Advance(t, w, ok);
    assert ThreadOk(t, count, chunk, good, w);
    OwnerIs(i, chunk, w);
    forall v | 0 <= v < workers ensures ThreadOk(t', count, chunk, good, v) {
      assert ThreadOk(t, count, chunk, good, v);
      if v == w {
        assert forall k :: k in t'.local[w] <==> k in t.local[w] || (ok && k == i);
      }
    }
  }

  /** Thread `w` is through and merges its results. */
  function Join(t: Threads, w: nat): Threads
    requires w < |t.local|
  {
    t.(joined := t.joined + {w}, verified := t.verified + t.local[w])
  }

  lemma JoinKeeps(t: Threads, count: nat, chunk: nat, workers: nat, good: set<nat>, w: nat)
    requires RunOk(t, count, chunk, workers, good) && (forall i :: i in good ==> i < count)
    requires w < workers && w !in t.joined && t.next[w] >= Last(w, chunk, count)
    ensures RunOk(Join(t, w), count, chunk, workers, good)
    ensures forall k :: Passed(Join(t, w), chunk, k) <==> Passed(t, chunk, k)
  {
    hide Owner, First;
    assert ThreadOk(t, count, chunk, good, w);
    var t' := Join(t, w);
    forall v | 0 <= v < workers ensures ThreadOk(t', count, chunk, good, v) {
      assert ThreadOk(t, count, chunk, good, v);
    }
    forall i ensures i in t'.verified <==> i in good && Owner(i, chunk) in t'.joined {
      if i in good && Owner(i, chunk) == w {
        OwnerIs(i, chunk, w);
      }
    }
    forall x, y | 0 <= x < y < |t'.verified| ensures t'.verified[x] != t'.verified[y] {
      var n := |t.verified|;
      if x < n && y >= n {
        assert t'.verified[x] in t.verified && t'.verified[y] in t.local[w];
      }
    }
  }

  lemma AllJoined(t: Threads, count: nat, workers: nat, good: set<nat>)
    requires workers > 0 && count > 0
    requires var chunk := DivCeil(count, workers); RunOk(t, count, chunk, workers, good) && t.joined == Upto(workers)
    requires forall i :: i in good ==> i < count
    ensures forall i :: i in t.verified <==> i in good
    ensures forall i :: 0 <= i < count ==> Passed(t, DivCeil(count, workers), i)
  {
    hide Owner, First, DivCeil;
    var chunk := DivCeil(count, workers);
    forall i | 0 <= i < count ensures Owner(i, chunk) in t.joined && Passed(t, chunk, i) {
      RangesCover(i, count, workers);
      var w := Owner(i, chunk);
      OwnerIs(i, chunk, w);
      assert ThreadOk(t, count, chunk, good, w);
    }
  }

  // The check itself -----------------------------------------------------------------------------------

  /** `total_bytes` and `total_pieces`: the work announced before the threads start. */
  method Announce(j: Job) returns (byteCount: nat, pieces: nat)
    requires Layout.Valid(j.l)
    ensures byteCount == PieceSum(j.l, Todo(j), PieceCount(j.l)) && pieces == |Todo(j)|
  {
    hide PieceCount, PieceLen;
    byteCount, pieces := 0, 0;
    ghost var so := {};
    for i := 0 to PieceCount(j.l)
      invariant byteCount == PieceSum(j.l, Todo(j), i)
      invariant pieces == |so| && forall k :: k in so <==> k < i && k in Todo(j)
    {
      if Asked(j, i) {
        byteCount := byteCount + PieceLen(j.l, i);
        pieces := pieces + 1;
        so := so + {i};
      }
    }
    assert so == Todo(j);
  }

  /** One piece: read through the thread's own handles, hashed, recorded. */
  method CheckPiece(j: Job, cache: VerifyFileCache, progress: VerifyProgress, i: nat, ghost seen: set<nat>, ghost good: set<nat>)
    returns (ok: bool)
    requires Layout.Valid(j.l) && Runs(j) && i < PieceCount(j.l) && i !in seen && i !in good
    requires cache.Valid() && cache.disk == j.disk && progress.Reflects(j.l, seen, good)
    modifies cache, progress
    ensures cache.Valid() && ok == Intact(j, i)
    ensures progress.totalBytes == old(progress.totalBytes) && progress.totalPieces == old(progress.totalPieces)
    ensures progress.Reflects(j.l, seen + {i}, if ok then good + {i} else good)
  {
    hide PieceCount, PieceOnDisk, PieceSum, Counts;
    var segs := PieceSegments(j.l, i);
    var data := ReadPiece(cache, j.l, i);
    ok := data.Some? && j.sha1(data.value) == j.hashes[i];
    progress.Record(j.l, i, segs, ok, seen, good);
  }

  lemma GoodExists(j: Job, i: nat)
    requires Layout.Valid(j.l) && Runs(j) && i in Good(j)
    ensures i < PieceCount(j.l) <= 8 * DivCeil(PieceCount(j.l), 8)
  {
    hide PieceCount;
    RoomFor(PieceCount(j.l));
  }

  lemma NextNew(q: seq<nat>, k: nat)
    requires NoRepeats(q) && k < |q|
    ensures q[k] !in q[..k] && forall i :: i in q[..k + 1] <==> i in q[..k] || i == q[k]
  {
    assert q[..k + 1] == q[..k] + [q[k]];
  }

  /** The merged results become a bitfield. */
  method Collect(j: Job, verified: seq<nat>) returns (v: Verification)
    requires Layout.Valid(j.l) && Runs(j) && NoRepeats(verified) && forall i :: i in verified <==> i in Good(j)
    ensures |v.bitfield| == DivCeil(PieceCount(j.l), 8) && Members(v.bitfield) == Good(j)
    ensures v.byteCount == PieceSum(j.l, Good(j), PieceCount(j.l)) && v.pieces == |Good(j)|
  {
    hide PieceCount, PieceLen, PieceSum, Good, SetBit, Bit, DivCeil;
    var count := PieceCount(j.l);
    var bits: seq<bv8> := seq(DivCeil(count, 8), _ => 0);
    var n := 0;
    ghost var so: set<nat> := {};
    NoMembers(bits);
    PieceSumNone(j.l, count);
    for k := 0 to |verified|
      invariant |bits| == DivCeil(count, 8) && Members(bits) == so
      invariant n == PieceSum(j.l, so, count) && |so| == k
      invariant forall i :: i in so <==> i in verified[..k]
    {
      var i := verified[k];
      GoodExists(j, i);
      NextNew(verified, k);
      OneMember(bits, i);
      PieceSumAdd(j.l, so, i, count);
      SetBitIs(bits, i, i);
      bits := SetBit(bits, i);
      n := n + PieceLen(j.l, i);
      so := so + {i};
    }
    assert verified[..|verified|] == verified;
    assert so == Good(j);
    v := Verification(bits, n, |verified|);
  }

  /** The threads are in order and have moved past exactly `passed`. */
  ghost predicate Tracks(j: Job, t: Threads, workers: nat, passed: set<nat>)
    requires Layout.Valid(j.l) && Runs(j) && workers > 0 && PieceCount(j.l) > 0
  {
    var chunk := DivCeil(PieceCount(j.l), workers);
    && RunOk(t, PieceCount(j.l), chunk, workers, Good(j))
    && (forall i :: i in passed <==> 0 <= i < PieceCount(j.l) && Passed(t, chunk, i))
  }

  lemma TracksShape(j: Job, t: Threads, workers: nat, passed: set<nat>)
    requires Layout.Valid(j.l) && Runs(j) && workers > 0 && PieceCount(j.l) > 0 && Tracks(j, t, workers, passed)
    ensures |t.next| == |t.local| == workers && t.joined <= Upto(workers) && passed <= Upto(PieceCount(j.l))
  {
    hide PieceCount, ThreadOk, Passed;
  }

  lemma TracksAdvance(j: Job, t: Threads, workers: nat, passed: set<nat>, w: nat)
    requires Layout.Valid(j.l) && Runs(j) && workers > 0 && PieceCount(j.l) > 0 && Tracks(j, t, workers, passed)
    requires w < workers && |t.next| == workers && t.next[w] < Last(w, DivCeil(PieceCount(j.l), workers), PieceCount(j.l))
    ensures var i := t.next[w];
            && i < PieceCount(j.l) && i !in passed && |t.local| == workers
            && Advance(t, w, i in Good(j)).joined == t.joined
            && Tracks(j, Advance(t, w, i in Good(j)), workers, passed + {i})
  {
    hide PieceCount, RunOk, Passed, DivCeil, Last, Good, Todo;
    TracksShape(j, t, workers, passed);
    AdvanceKeeps(t, PieceCount(j.l), DivCeil(PieceCount(j.l), workers), workers, Good(j), w);
  }

  lemma TracksJoin(j: Job, t: Threads, workers: nat, passed: set<nat>, w: nat)
    requires Layout.Valid(j.l) && Runs(j) && workers > 0 && PieceCount(j.l) > 0 && Tracks(j, t, workers, passed)
    requires w < workers && w !in t.joined && |t.next| == |t.local| == workers
    requires t.next[w] >= Last(w, DivCeil(PieceCount(j.l), workers), PieceCount(j.l))
    ensures Tracks(j, Join(t, w), workers, passed)
  {
    hide PieceCount, RunOk, Passed, DivCeil, Join, Last;
    JoinKeeps(t, PieceCount(j.l), DivCeil(PieceCount(j.l), workers), workers, Good(j), w);
  }

  lemma TracksBegin(j: Job, workers: nat)
    requires Layout.Valid(j.l) && Runs(j) && workers > 0 && PieceCount(j.l) > 0
    ensures DivCeil(PieceCount(j.l), workers) > 0
    ensures Tracks(j, Threads(seq(workers, w requires w >= 0 => First(w, DivCeil(PieceCount(j.l), workers))),
                              seq(workers, _ => []), {}, []), workers, {})
  {
    hide PieceCount, RunOk, Passed, DivCeil, First;
    RangesCover(0, PieceCount(j.l), workers);
    Begin(PieceCount(j.l), DivCeil(PieceCount(j.l), workers), workers, Good(j));
  }

  lemma TracksEnd(j: Job, t: Threads, workers: nat, passed: set<nat>)
    requires Layout.Valid(j.l) && Runs(j) && workers > 0 && PieceCount(j.l) > 0 && Tracks(j, t, workers, passed)
    requires t.joined == Upto(workers)
    ensures NoRepeats(t.verified) && (forall i :: i in t.verified <==> i in Good(j))
    ensures passed * Todo(j) == Todo(j) && passed * Good(j) == Good(j)
  {
    hide PieceCount, ThreadOk, Passed, DivCeil, Intact, Asked, Owner;
    AllJoined(t, PieceCount(j.l), workers, Good(j));
  }

  /** What holds between any two steps of the threads. */
  ghost predicate Consistent(j: Job, t: Threads, workers: nat, caches: seq<VerifyFileCache>, progress: VerifyProgress,
                             passed: set<nat>)
    requires Layout.Valid(j.l) && Runs(j) && workers > 0 && PieceCount(j.l) > 0
    reads caches, progress
  {
    && Tracks(j, t, workers, passed) && Separate(caches, j.disk, workers)
    && progress.Reflects(j.l, passed * Todo(j), passed * Good(j))
    && progress.totalBytes == PieceSum(j.l, Todo(j), PieceCount(j.l)) && progress.totalPieces == |Todo(j)|
  }

  lemma OneMore(passed: set<nat>, i: nat, s: set<nat>)
    requires i !in passed
    ensures (passed + {i}) * s == if i in s then passed * s + {i} else passed * s
    ensures i !in passed * s
  {
  }

  lemma PieceClass(j: Job, i: nat)
    requires Layout.Valid(j.l) && Runs(j) && i < PieceCount(j.l)
    ensures i in Todo(j) <==> Asked(j, i)
    ensures i in Good(j) <==> Asked(j, i) && Intact(j, i)
  {
    hide PieceCount, Asked, Intact;
  }

  /** The other threads' handles are not touched. */
  method CheckWith(j: Job, caches: seq<VerifyFileCache>, w: nat, progress: VerifyProgress, i: nat,
                   ghost seen: set<nat>, ghost good: set<nat>)
    returns (ok: bool)
    requires Layout.Valid(j.l) && Runs(j) && i < PieceCount(j.l) && i !in seen && i !in good
    requires w < |caches| && Separate(caches, j.disk, |caches|) && progress.Reflects(j.l, seen, good)
    modifies caches, progress
    ensures Separate(caches, j.disk, |caches|) && ok == Intact(j, i)
    ensures progress.totalBytes == old(progress.totalBytes) && progress.totalPieces == old(progress.totalPieces)
    ensures progress.Reflects(j.l, seen + {i}, if ok then good + {i} else good)
  {
    hide PieceCount, PieceSum, Intact, Counts;
    ok := CheckPiece(j, caches[w], progress, i, seen, good);
  }

  lemma SeparateMany(caches: seq<VerifyFileCache>, disk: Disk, workers: nat)
    requires Separate(caches, disk, workers)
    ensures |caches| == workers
  {
  }

  /** Thread `w` takes one piece of its range. */
  method StepThread(j: Job, t: Threads, workers: nat, w: nat, caches: seq<VerifyFileCache>, progress: VerifyProgress,
                    ghost passed: set<nat>)
    returns (t': Threads)
    requires Layout.Valid(j.l) && Runs(j) && workers > 0 && PieceCount(j.l) > 0
    requires Consistent(j, t, workers, caches, progress, passed)
    requires w < workers == |t.next| && t.next[w] < Last(w, DivCeil(PieceCount(j.l), workers), PieceCount(j.l))
    modifies caches, progress
    ensures t'.joined == t.joined && t.next[w] < PieceCount(j.l) && t.next[w] !in passed
    ensures Consistent(j, t', workers, caches, progress, passed + {t.next[w]})
  {
    hide PieceCount, PieceSum, Tracks, Intact, Asked, First, Last, DivCeil, PieceOnDisk, Counts, Advance, Todo, Good, Separate;
    TracksShape(j, t, workers, passed);
    TracksAdvance(j, t, workers, passed, w);
    var i := t.next[w];
    OneMore(passed, i, Todo(j));
    OneMore(passed, i, Good(j));
    PieceClass(j, i);
    SeparateMany(caches, j.disk, workers);
    if !Asked(j, i) {
      t' := Advance(t, w, false);
    } else {
      var ok := CheckWith(j, caches, w, progress, i, passed * Todo(j), passed * Good(j));
      t' := Advance(t, w, ok);
    }
  }

  /** Runs the threads in any interleaving until all have merged their results. */
  method RunThreads(j: Job, t0: Threads, workers: nat, caches: seq<VerifyFileCache>, progress: VerifyProgress)
    returns (verified: seq<nat>)
    requires Layout.Valid(j.l) && Runs(j) && workers > 0 && PieceCount(j.l) > 0
    requires Consistent(j, t0, workers, caches, progress, {})
    modifies caches, progress
    ensures NoRepeats(verified) && forall i :: i in verified <==> i in Good(j)
    ensures progress.Reflects(j.l, Todo(j), Good(j))
    ensures progress.totalBytes == PieceSum(j.l, Todo(j), PieceCount(j.l)) && progress.totalPieces == |Todo(j)|
  {
    hide PieceCount, PieceSum, Tracks, First, DivCeil, Counts, Separate, Todo, Good, Join, Last;
    var t := t0;
    ghost var passed: set<nat> := {};
    while t.joined != Upto(workers)
      invariant Consistent(j, t, workers, caches, progress, passed)
      decreases |Upto(PieceCount(j.l)) - passed| + |Upto(workers) - t.joined|
    {
      TracksShape(j, t, workers, passed);
      var w :| w in Upto(workers) && w !in t.joined;
      if t.next[w] < Last(w, DivCeil(PieceCount(j.l), workers), PieceCount(j.l)) {
        ghost var i := t.next[w];
        t := StepThread(j, t, workers, w, caches, progress, passed);
        Shrinks(Upto(PieceCount(j.l)), passed, i);
        passed := passed + {i};
      } else {
        TracksJoin(j, t, workers, passed, w);
        Shrinks(Upto(workers), t.joined, w);
        JoinedIs(t, w);
        t := Join(t, w);
      }
    }
    TracksEnd(j, t, workers, passed);
    verified := t.verified;
  }

  lemma JoinedIs(t: Threads, w: nat)
    requires w < |t.local|
    ensures Join(t, w).joined == t.joined + {w}
  {
  }

  /** `verify_existing_files_blocking` for any number of threads and any scheduling of them. */
  method VerifyExisting(j: Job, workers: nat, progress: VerifyProgress) returns (v: Verification)
    requires Layout.Valid(j.l) && workers > 0
    modifies progress
    ensures PieceCount(j.l) == 0 || !Runs(j) ==> v == Verification([], 0, 0) && unchanged(progress)
    ensures PieceCount(j.l) > 0 && Runs(j) ==>
              && |v.bitfield| == DivCeil(PieceCount(j.l), 8) && Members(v.bitfield) == Good(j)
              && v.byteCount == PieceSum(j.l, Good(j), PieceCount(j.l)) && v.pieces == |Good(j)|
              && progress.Reflects(j.l, Todo(j), Good(j))
              && progress.totalBytes == progress.checkedBytes && progress.totalPieces == progress.checkedPieces
  {
    hide PieceCount, PieceSum, Tracks, First, DivCeil, Counts, Separate, Members, Todo, Good;
    var count := PieceCount(j.l);
    if count == 0 || |j.hashes| != count {
      return Verification([], 0, 0);
    }
    var total, pieces := Announce(j);
    progress.Reset(j.l, total, pieces);
    var chunk := DivCeil(count, workers);
    TracksBegin(j, workers);
    var caches := OpenCaches(j.disk, workers);
    var t := Threads(seq(workers, w requires w >= 0 => First(w, chunk)), seq(workers, _ => []), {}, []);
    assert {} * Todo(j) == {} && {} * Good(j) == {};
    var verified := RunThreads(j, t, workers, caches, progress);
    v := Collect(j, verified);
  }

  lemma Shrinks(all: set<nat>, so: set<nat>, x: nat)
    requires x in all && x !in so
    ensures |all - (so + {x})| < |all - so|
  {
    assert all - so == (all - (so + {x})) + {x};
  }

  /** One cache of eight handles for each thread. */
  ghost predicate Separate(caches: seq<VerifyFileCache>, disk: Disk, workers: nat)
    reads caches
  {
    && |caches| == workers
    && (forall v, w :: 0 <= v < w < workers ==> caches[v] != caches[w])
    && (forall w :: 0 <= w < workers ==> caches[w].Valid() && caches[w].disk == disk)
  }

  method OpenCaches(disk: Disk, workers: nat) returns (caches: seq<VerifyFileCache>)
    ensures Separate(caches, disk, workers) && fresh(caches)
  {
    caches := [];
    for w := 0 to workers
      invariant Separate(caches, disk, w) && fresh(caches)
    {
      var cache := new VerifyFileCache(disk, 8);
      caches := caches + [cache];
    }
  }

  /** When nothing is deselected, every file ends up checked in full. */
  lemma AllFilesChecked(j: Job, p: VerifyProgress)
    requires Layout.Valid(j.l) && Runs(j) && j.wanted.None? && p.Reflects(j.l, Todo(j), Good(j))
    ensures p.checkedIn == j.l.lens && p.checkedBytes == Total(j.l)
  {
    hide PieceCount, PieceSum, DoneIn;
    assert Todo(j) == AllPieces(j.l);
    forall f | 0 <= f < |j.l.lens| ensures p.checkedIn[f] == j.l.lens[f] {
      FileComplete(j.l, Todo(j), f);
    }
    CountsSum(j.l, p.checkedIn, Todo(j));
  }

  /** What is asked for: every piece without a selection, the selected ones otherwise. */
  lemma TodoIs(j: Job, i: nat)
    requires Layout.Valid(j.l)
    ensures i in Todo(j) <==> i < PieceCount(j.l) && (match j.wanted case None => true case Some(m) => i in m)
  {
    hide PieceCount;
  }

  /** And of these, the good pieces are those that can be read in full and have the expected hash. */
  lemma GoodIs(j: Job, i: nat)
    requires Layout.Valid(j.l) && Runs(j)
    ensures i in Good(j) <==>
            i in Todo(j) && i < |j.hashes| && exists data: bytes :: PieceOnDisk(j.disk, j.l, i) == Some(data) && j.sha1(data) == j.hashes[i]
  {
    hide PieceCount, PieceOnDisk;
  }
}
