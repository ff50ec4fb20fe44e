/**
 What a task finds after a restart: the done pieces of the download state machine, stored in
 files, are exactly what a check of the existing data and the resume file give back.
 */
module Restart {
  import opened Bytes
  import opened Layout
  import opened Store
  import Bitfield
  import FileCache
  import Resume
  import Swarm
  import SwarmInv
  import SwarmSteps
  import VerifyRun

  /** The files with a handle; the others do not exist. */
  function OnDisk(files: Files, open: set<nat>): (disk: FileCache.Disk)
    ensures |disk| == |files|
  {
    seq(|files|, f requires 0 <= f < |files| => if f in open then FileCache.Readable(files[f]) else FileCache.Absent)
  }

  function Lengths(files: Files, open: set<nat>): (lens: seq<nat>)
    ensures |lens| == |files|
  {
    seq(|files|, f requires 0 <= f < |files| => if f in open then |files[f]| else 0)
  }

  /** The length found of a file is that of what can be read of it, nought if there is none. */
  lemma LengthIsReadable(files: Files, open: set<nat>, f: nat)
    requires f < |files|
    ensures OnDisk(files, open)[f] == (if f in open then FileCache.Readable(files[f]) else FileCache.Absent)
    ensures Lengths(files, open)[f] == match OnDisk(files, open)[f] case Readable(content) => |content| case _ => 0
  {
  }

  /** Every segment of the piece, even an empty one, is in a file with a handle. */
  predicate AllOpen(l: Info, open: set<nat>, i: nat) { AllIn(Segments(l, i), open) }

  lemma SegmentOnDisk(l: Info, files: Files, open: set<nat>, i: nat, data: bytes, s: Seg, a: nat)
    requires Valid(l) && i < PieceCount(l) && |data| == PieceLen(l, i) && |files| == |l.lens| && Stored(l, files, open, i, data)
    requires InFile(l, s) && SegStart(l, s) == a && PieceStart(l, i) <= a && a + s.len <= PieceEnd(l, i)
    requires s.len == 0 ==> s.off == 0
    ensures PieceLen(l, i) == PieceEnd(l, i) - PieceStart(l, i)
    ensures FileCache.Covered(OnDisk(files, open), s) <==> s.file in open
    ensures s.file in open ==>
              FileCache.Open(OnDisk(files, open), s.file, s.off + s.len).value[s.off..s.off + s.len]
              == data[a - PieceStart(l, i)..a - PieceStart(l, i) + s.len]
  {
    hide PieceCount, Stored, Offset;
    PieceBounds(l, i);
    if s.file in open {
      SegmentReads(l, files, open, i, data, s, a);
    }
  }

  predicate AllIn(segs: seq<Seg>, open: set<nat>) {
    forall k :: 0 <= k < |segs| ==> segs[k].file in open
  }

  predicate EmptyAtZero(segs: seq<Seg>) {
    forall k :: 0 <= k < |segs| && segs[k].len == 0 ==> segs[k].off == 0
  }

  lemma HeadAndTail(segs: seq<Seg>, open: set<nat>)
    requires segs != [] && EmptyAtZero(segs)
    ensures EmptyAtZero(segs[1..]) && (segs[0].len == 0 ==> segs[0].off == 0)
    ensures AllIn(segs, open) <==> segs[0].file in open && AllIn(segs[1..], open)
  {
    assert forall k :: 0 < k < |segs| ==> segs[k] == segs[1..][k - 1];
  }

  lemma ReadHead(disk: FileCache.Disk, segs: seq<Seg>)
    requires segs != []
    ensures var s := segs[0];
            FileCache.ReadSegments(disk, segs) ==
              if !FileCache.Covered(disk, s) || FileCache.ReadSegments(disk, segs[1..]).None? then None
              else Some(FileCache.Open(disk, s.file, s.off + s.len).value[s.off..s.off + s.len]
                        + FileCache.ReadSegments(disk, segs[1..]).value)
  {
  }

  lemma {:induction false} SegmentsOnDisk(l: Info, files: Files, open: set<nat>, i: nat, data: bytes, segs: seq<Seg>, a: nat)
    requires Valid(l) && i < PieceCount(l) && |data| == PieceLen(l, i) && |files| == |l.lens| && Stored(l, files, open, i, data)
    requires Chain(l, segs, a, PieceEnd(l, i)) && PieceStart(l, i) <= a <= PieceEnd(l, i) && EmptyAtZero(segs)
    ensures PieceLen(l, i) == PieceEnd(l, i) - PieceStart(l, i)
    ensures FileCache.ReadSegments(OnDisk(files, open), segs) ==
            if AllIn(segs, open) then Some(data[a - PieceStart(l, i)..]) else None
    decreases |segs|
  {
    hide PieceCount, Stored, Offset, FileCache.Open, FileCache.Covered, FileCache.ReadSegments, OnDisk, AllIn, EmptyAtZero;
    PieceBounds(l, i);
    if segs == [] {
      NothingToRead(OnDisk(files, open), open);
      assert data[a - PieceStart(l, i)..] == [];
    } else {
      var s := segs[0];
      HeadAndTail(segs, open);
      ChainOrdered(l, segs[1..], a + s.len, PieceEnd(l, i));
      SegmentOnDisk(l, files, open, i, data, s, a);
      SegmentsOnDisk(l, files, open, i, data, segs[1..], a + s.len);
      ReadHead(OnDisk(files, open), segs);
      var p := a - PieceStart(l, i);
      assert data[p..p + s.len] + data[p + s.len..] == data[p..];
    }
  }

  lemma NothingToRead(disk: FileCache.Disk, open: set<nat>)
    ensures FileCache.ReadSegments(disk, []) == Some([]) && AllIn([], open)
  {
  }

  /** A stored piece can be read back from the files as it was written, unless it reaches into an absent file. */
  lemma StoredIsOnDisk(l: Info, files: Files, open: set<nat>, i: nat, data: bytes)
    requires Valid(l) && i < PieceCount(l) && |data| == PieceLen(l, i) && |files| == |l.lens| && Stored(l, files, open, i, data)
    ensures FileCache.PieceOnDisk(OnDisk(files, open), l, i) == if AllOpen(l, open, i) then Some(data) else None
  {
    hide PieceCount, Stored, Segments, OnDisk;
    PieceBounds(l, i);
    SegmentsChain(l, i);
    forall k | 0 <= k < |Segments(l, i)| ensures Segments(l, i)[k].len == 0 ==> Segments(l, i)[k].off == 0 {
      SegmentNotEmpty(l, i, k);
    }
    SegmentsOnDisk(l, files, open, i, data, Segments(l, i), PieceStart(l, i));
  }

  lemma OpenIsWithin(l: Info, files: Files, open: set<nat>, i: nat)
    requires |files| == |l.lens| && FileCache.PieceOnDisk(OnDisk(files, open), l, i).Some?
    ensures Resume.WithinFiles(l, Lengths(files, open), i)
  {
    hide Segments;
    FileCache.ReadableIff(OnDisk(files, open), Segments(l, i));
    forall k | 0 <= k < |Segments(l, i)|
      ensures var s := Segments(l, i)[k]; s.file < |files| && s.off + s.len <= Lengths(files, open)[s.file] {
      assert FileCache.Covered(OnDisk(files, open), Segments(l, i)[k]);
    }
  }

  /** The store stands for every done piece with the contents on record. */
  ghost predicate Keeps(contents: map<nat, bytes>, s: Swarm.State) {
    forall i :: i in s.done ==> i in s.disk && i in contents && contents[i] == s.disk[i]
  }

  /**
   In any reachable state of the download, with the accepted pieces in a store: every done piece
   that is out of the cache and within the selected files passes a check of the existing data,
   and is believed when it is read back from a resume file.
   */
  lemma DoneSurvivesRestart(cfg: Swarm.Config, s: Swarm.State, store: PieceStore, saved: seq<bv8>)
    requires Swarm.ValidConfig(cfg) && SwarmInv.Inv(cfg, s)
    requires store.Valid() && store.l == cfg.layout && Keeps(store.contents, s)
    ensures var job := VerifyRun.Job(cfg.layout, cfg.hashes, cfg.sha1, None, OnDisk(store.files, store.open));
            VerifyRun.Runs(job) &&
            forall i :: i in s.done && !InCache(store.cache, i) && AllOpen(cfg.layout, store.open, i) ==>
              && i in VerifyRun.Good(job)
              && (i in Bitfield.Members(saved) ==>
                    i in Resume.Believed(cfg.layout, Lengths(store.files, store.open), saved))
  {
    var l := cfg.layout;
    var job := VerifyRun.Job(l, cfg.hashes, cfg.sha1, None, OnDisk(store.files, store.open));
    forall i | i in s.done && !InCache(store.cache, i) && AllOpen(l, store.open, i)
      ensures i in VerifyRun.Good(job)
      ensures i in Bitfield.Members(saved) ==> i in Resume.Believed(l, Lengths(store.files, store.open), saved) {
      DonePiece(cfg, s, i);
      ContentsAre(l, store.files, store.open, store.cache, store.contents, i);
      OneSurvives(cfg, store.files, store.open, i, s.disk[i], saved);
    }
  }

  lemma DonePiece(cfg: Swarm.Config, s: Swarm.State, i: nat)
    requires SwarmInv.Inv(cfg, s) && i in s.done
    ensures i in s.disk && i < |cfg.hashes| && cfg.sha1(s.disk[i]) == cfg.hashes[i]
  {
  }

  lemma OneSurvives(cfg: Swarm.Config, files: Files, open: set<nat>, i: nat, data: bytes, saved: seq<bv8>)
    requires Swarm.ValidConfig(cfg) && |files| == |cfg.layout.lens| && i < PieceCount(cfg.layout)
    requires |data| == PieceLen(cfg.layout, i) && Stored(cfg.layout, files, open, i, data) && AllOpen(cfg.layout, open, i)
    requires cfg.sha1(data) == cfg.hashes[i]
    ensures i in VerifyRun.Good(VerifyRun.Job(cfg.layout, cfg.hashes, cfg.sha1, None, OnDisk(files, open)))
    ensures i in Bitfield.Members(saved) ==> i in Resume.Believed(cfg.layout, Lengths(files, open), saved)
  {
    hide PieceCount, Stored, AllOpen, OnDisk, Resume.WithinFiles, FileCache.PieceOnDisk;
    StoredIsOnDisk(cfg.layout, files, open, i, data);
    OpenIsWithin(cfg.layout, files, open, i);
  }

  // The download and its store together -----------------------------------------------------------

  lemma FillWritesNothing(cfg: Swarm.Config, s: Swarm.State, id: nat)
    requires Swarm.ValidConfig(cfg) && SwarmInv.Inv(cfg, s) && id in s.peers
    ensures Swarm.Fill(cfg, s, id).0.done == s.done && Swarm.Fill(cfg, s, id).0.disk == s.disk
    ensures Swarm.FillIfUnchoked(cfg, s, id).done == s.done && Swarm.FillIfUnchoked(cfg, s, id).disk == s.disk
  {
    hide SwarmInv.Inv, Swarm.Fill;
    SwarmSteps.FillKeepsInv(cfg, s, id);
  }

  /** Only a received block writes, and then one piece that was missing. */
  lemma PieceWrites(cfg: Swarm.Config, s: Swarm.State, id: nat, i: nat, begin: nat, block: bytes, order: seq<nat>, writeOk: bool)
    requires Swarm.ValidConfig(cfg) && SwarmInv.Inv(cfg, s) && id in s.peers
    requires Swarm.Enumerates(order, s.peers[id].blocks[(i, begin) := block], i)
    ensures var s' := Swarm.OnPiece(cfg, s, id, i, begin, block, order, writeOk);
            WritesOne(s, s', i) && (!writeOk ==> s'.done == s.done)
  {
    var p := s.peers[id];
    if i in p.queued {
      hide Swarm.Fill, Swarm.Finish, Swarm.Enumerates, SwarmInv.OwnershipOk, SwarmInv.DiskOk;
      hide SwarmInv.WindowOk, SwarmInv.CacheOk, SwarmInv.QueueOk;
      SwarmInv.ReceiveKeepsPeer(cfg, p, i, begin, block);
      var p' := Swarm.Adjust(cfg, Swarm.ReceiveBlock(p, i, begin, block));
      var t := Swarm.SetPeer(s, id, p');
      if Swarm.PieceComplete(p', i) {
        SwarmSteps.FinishKeepsInv(cfg, s, t, id, i, order, writeOk);
        SwarmSteps.FinishHasPeer(cfg, t, id, i, order, writeOk);
        FinishWrites(cfg, t, id, i, order, writeOk);
        FillWritesNothing(cfg, Swarm.Finish(cfg, t, id, i, order, writeOk), id);
      } else {
        SwarmSteps.InvSetPeer(cfg, s, id, p');
        FillWritesNothing(cfg, t, id);
      }
    }
  }

  predicate WritesOne(s: Swarm.State, s': Swarm.State, i: nat) {
    if s'.done == s.done then s'.disk == s.disk
    else i !in s.done && s'.done == s.done + {i} && i in s'.disk && s'.disk == s.disk[i := s'.disk[i]]
  }

  lemma FinishWrites(cfg: Swarm.Config, t: Swarm.State, id: nat, i: nat, order: seq<nat>, writeOk: bool)
    requires id in t.peers && Swarm.Enumerates(order, t.peers[id].blocks, i)
    ensures WritesOne(t, Swarm.Finish(cfg, t, id, i, order, writeOk), i)
    ensures !writeOk ==> Swarm.Finish(cfg, t, id, i, order, writeOk).done == t.done
  {
    hide Swarm.Assemble, Swarm.Enumerates;
  }

  /** No other event touches the disk, and no write that fails. */
  lemma StepWrites(cfg: Swarm.Config, s: Swarm.State, e: Swarm.Event)
    requires Swarm.ValidConfig(cfg) && SwarmInv.Inv(cfg, s) && Swarm.Enabled(cfg, s, e)
    ensures var s' := Swarm.Step(cfg, s, e);
            && WritesOne(s, s', if e.Received? then e.piece else 0)
            && (!e.Received? || !e.writeOk ==> s'.done == s.done && s'.disk == s.disk)
  {
    hide SwarmInv.Inv, Swarm.Enumerates, Swarm.FillIfUnchoked, Swarm.Fill, Swarm.Interest, Swarm.OnPiece, SwarmInv.PeerOk;
    hide Swarm.AllWantedDone, SwarmInv.WindowOk, Swarm.Shrink, Swarm.Expire;
    match e
    case Join(id, held, choked, interested) =>
      var p := Swarm.FreshPeer(cfg, held, choked, interested);
      SwarmInv.CleanPeer(cfg, p);
      SwarmSteps.InvSetPeer(cfg, s, id, p);
      FillWritesNothing(cfg, Swarm.SetPeer(s, id, p), id);
    case Haves(id, pieces) =>
      InformedKeeps(cfg, s, id, pieces);
      FillWritesNothing(cfg, Swarm.Informed(cfg, s, id, pieces), id);
    case Unchoked(id) =>
      AllowedKeeps(cfg, s, id);
      FillWritesNothing(cfg, Swarm.Allowed(cfg, s, id), id);
    case Received(id, i, begin, block, order, writeOk) => PieceWrites(cfg, s, id, i, begin, block, order, writeOk);
    case Tick(id, stalled, overdue) =>
      ExpiredKeeps(cfg, s, id, stalled, overdue);
      FillWritesNothing(cfg, Swarm.Expired(cfg, s, id, stalled, overdue), id);
    case _ =>
  }

  lemma InterestWritesNothing(cfg: Swarm.Config, s: Swarm.State, id: nat)
    requires Valid(cfg.layout) && id in s.peers
    ensures Swarm.Interest(cfg, s, id).done == s.done && Swarm.Interest(cfg, s, id).disk == s.disk
  {
  }

  lemma InformedKeeps(cfg: Swarm.Config, s: Swarm.State, id: nat, more: set<nat>)
    requires Swarm.ValidConfig(cfg) && SwarmInv.Inv(cfg, s) && id in s.peers
    ensures var t := Swarm.Informed(cfg, s, id, more);
            SwarmInv.Inv(cfg, t) && id in t.peers && t.done == s.done && t.disk == s.disk
  {
    hide SwarmInv.Inv, Swarm.Interest, SwarmInv.WindowOk, PieceCount;
    var p := s.peers[id];
    var p' := p.(have := p.have + (set i | i in more && i < PieceCount(cfg.layout)));
    SwarmSteps.WindowKept(cfg, s, id, p.inFlight);
    SwarmSteps.SameWindow(p, p');
    SwarmSteps.PeerChangeKeepsInv(cfg, s, id, p');
    SwarmSteps.InterestKeepsInv(cfg, Swarm.SetPeer(s, id, p'), id);
    InterestWritesNothing(cfg, Swarm.SetPeer(s, id, p'), id);
  }

  lemma AllowedKeeps(cfg: Swarm.Config, s: Swarm.State, id: nat)
    requires Swarm.ValidConfig(cfg) && SwarmInv.Inv(cfg, s) && id in s.peers
    ensures var t := Swarm.Allowed(cfg, s, id);
            SwarmInv.Inv(cfg, t) && id in t.peers && t.done == s.done && t.disk == s.disk
  {
    hide SwarmInv.Inv, Swarm.Interest, SwarmInv.WindowOk;
    var p := s.peers[id];
    SwarmSteps.WindowKept(cfg, s, id, p.inFlight);
    SwarmSteps.SameWindow(p, p.(choked := false));
    SwarmSteps.PeerChangeKeepsInv(cfg, s, id, p.(choked := false));
    SwarmSteps.InterestKeepsInv(cfg, Swarm.SetPeer(s, id, p.(choked := false)), id);
    InterestWritesNothing(cfg, Swarm.SetPeer(s, id, p.(choked := false)), id);
  }

  lemma ExpiredKeeps(cfg: Swarm.Config, s: Swarm.State, id: nat, stalled: bool, overdue: bool)
    requires SwarmInv.Inv(cfg, s) && id in s.peers
    ensures var t := Swarm.Expired(cfg, s, id, stalled, overdue);
            SwarmInv.Inv(cfg, t) && id in t.peers && t.done == s.done && t.disk == s.disk
  {
    hide SwarmInv.Inv, Swarm.Shrink, Swarm.Expire, SwarmInv.WindowOk;
    var p := Swarm.Shrink(cfg, s.peers[id], stalled);
    SwarmSteps.WindowKept(cfg, s, id, s.peers[id].inFlight);
    SwarmSteps.ShrinkKeepsWindow(cfg, s.peers[id], stalled);
    SwarmSteps.ExpireKeeps(p, overdue);
    SwarmSteps.PeerChangeKeepsInv(cfg, s, id, Swarm.Expire(p, overdue));
  }

  /** The event as it came out: whether the write succeeded is for the store to say. */
  function Outcome(e: Swarm.Event, writeOk: bool): Swarm.Event {
    if e.Received? then e.(writeOk := writeOk) else e
  }

  lemma OutcomeEnabled(cfg: Swarm.Config, s: Swarm.State, e: Swarm.Event, writeOk: bool)
    requires Swarm.Enabled(cfg, s, e)
    ensures Swarm.Enabled(cfg, s, Outcome(e, writeOk))
  {
    hide Swarm.Enumerates;
  }

  /** Recording a piece, or anything at all about a piece that is not done, keeps the done ones. */
  lemma KeepsMore(contents: map<nat, bytes>, contents': map<nat, bytes>, s: Swarm.State, s': Swarm.State, i: nat)
    requires Keeps(contents, s) && WritesOne(s, s', i) && i !in s.done
    requires forall j :: j != i && j in contents ==> j in contents' && contents'[j] == contents[j]
    requires s'.done != s.done ==> i in contents' && i in s'.disk && contents'[i] == s'.disk[i]
    ensures Keeps(contents', s')
  {
  }

  /** A task: the download state, the store its pieces go to, and the piece map. */
  class Task {
    const cfg: Swarm.Config
    const store: PieceStore
    const pieces: Bitfield.PieceMap
    var s: Swarm.State

    /** The store stands for every done piece, and the map names exactly the done ones. */
    ghost predicate Valid()
      reads this, store, pieces
    {
      && Swarm.ValidConfig(cfg) && SwarmInv.Inv(cfg, s)
      && store.Valid() && store.l == cfg.layout && store.Fits() && Keeps(store.contents, s)
      && pieces.Valid() && pieces.count == PieceCount(cfg.layout) && pieces.Pieces() == s.done
    }

    constructor (cfg: Swarm.Config, files: Files, open: set<nat>, wanted: Option<set<nat>>, cacheLimit: nat)
      requires Swarm.ValidConfig(cfg) && |files| == |cfg.layout.lens|
      ensures Valid() && this.cfg == cfg && s == Swarm.Start(map[], wanted) && fresh(store) && fresh(pieces)
      ensures store.open == open && store.limit == cacheLimit
    {
      hide SwarmInv.Inv, PieceCount, Holds;
      this.cfg := cfg;
      store := new PieceStore(cfg.layout, open, files);
      pieces := new Bitfield.PieceMap(PieceCount(cfg.layout));
      s := Swarm.Start(map[], wanted);
      new;
      var _ := store.SetCacheLimit(cacheLimit);
      EmptyStart(cfg, wanted);
    }

    /**
     One event: the state machine steps, and a piece it would accept goes to the store. It is marked
     in the map if and only if no write failed, neither its own nor one that was to make room for it.
     */
    method Handle(e: Swarm.Event) returns (ok: bool)
      requires Valid() && Swarm.Enabled(cfg, s, e)
      modifies this, store, pieces
      ensures Valid() && Swarm.Enabled(cfg, old(s), Outcome(e, ok)) && s == Swarm.Step(cfg, old(s), Outcome(e, ok))
      ensures store.failures == old(store.failures) + if ok then 0 else 1
    {
      hide SwarmInv.Inv, Swarm.Enabled, Swarm.Step, PieceCount, Holds, Keeps, InCache, Outcome;
      OutcomeEnabled(cfg, s, e, true);
      OutcomeEnabled(cfg, s, e, false);
      SwarmSteps.StepKeepsInv(cfg, s, Outcome(e, true));
      StepWrites(cfg, s, Outcome(e, true));
      var before, after := s, Swarm.Step(cfg, s, Outcome(e, true));
      ok := true;
      if after.done != before.done {
        assert Outcome(e, true).Received?;
        var i := Outcome(e, true).piece;
        ok := Save(before, after, i);
        if ok {
          AcceptedFits(cfg, after, i);
          pieces.Set(i);
        } else {
          OutcomeFails(e);
          SwarmSteps.StepKeepsInv(cfg, s, Outcome(e, false));
          StepWrites(cfg, s, Outcome(e, false));
          after := Swarm.Step(cfg, s, Outcome(e, false));
          SameKeeps(store.contents, before, after);
        }
      } else {
        SameKeeps(store.contents, before, after);
      }
      s := after;
    }

    /** `write_piece` of an accepted piece. */
    method Save(before: Swarm.State, after: Swarm.State, i: nat) returns (ok: bool)
      requires Swarm.ValidConfig(cfg) && SwarmInv.Inv(cfg, after) && WritesOne(before, after, i) && after.done != before.done
      requires store.Valid() && store.l == cfg.layout && store.Fits() && Keeps(store.contents, before)
      modifies store
      ensures store.Valid() && store.Fits() && Keeps(store.contents, before) && (ok ==> Keeps(store.contents, after))
      ensures store.failures == old(store.failures) + if ok then 0 else 1
    {
      hide SwarmInv.Inv, PieceCount, Holds, Keeps, InCache, EntriesFit;
      AcceptedFits(cfg, after, i);
      if store.PassesBy(|after.disk[i]|) {
        TooBigToCache(store.l, store.files, store.open, store.cache, store.contents, i, store.limit);
      }
      ghost var was := store.contents;
      ok := store.WritePiece(i, after.disk[i]);
      KeepsMore(was, store.contents, before, before, i);
      if ok {
        KeepsMore(was, store.contents, before, after, i);
      }
    }

    /** The cache may be flushed at any time. */
    method FlushCache() returns (ok: bool)
      requires Valid()
      modifies store
      ensures Valid() && (ok <==> store.cache == [])
    {
      hide SwarmInv.Inv, PieceCount, Holds, Keeps;
      ok := store.Flush();
    }

    /** What is written to the resume file: the done pieces that are not waiting in the cache. */
    method SaveResume() returns (saved: seq<bv8>)
      requires Valid()
      ensures |saved| == DivCeil(PieceCount(cfg.layout), 8)
      ensures forall i :: i in Bitfield.Members(saved) <==> i in s.done && !InCache(store.cache, i)
    {
      hide SwarmInv.Inv, PieceCount, Holds;
      saved := store.DurableBitfield(pieces);
    }
  }

  lemma OutcomeFails(e: Swarm.Event)
    requires Outcome(e, true).Received?
    ensures Outcome(e, false).Received? && !Outcome(e, false).writeOk
  {
  }

  lemma SameKeeps(contents: map<nat, bytes>, s: Swarm.State, s': Swarm.State)
    requires Keeps(contents, s) && s'.done == s.done && s'.disk == s.disk
    ensures Keeps(contents, s')
  {
  }

  lemma EmptyStart(cfg: Swarm.Config, wanted: Option<set<nat>>)
    requires Swarm.ValidConfig(cfg)
    ensures SwarmInv.Inv(cfg, Swarm.Start(map[], wanted))
  {
    SwarmSteps.StartInv(cfg, map[], wanted);
  }

  lemma AcceptedFits(cfg: Swarm.Config, s: Swarm.State, i: nat)
    requires Swarm.ValidConfig(cfg) && SwarmInv.Inv(cfg, s) && i in s.disk
    ensures i < PieceCount(cfg.layout) && |s.disk[i]| == PieceLen(cfg.layout, i)
  {
    hide PieceCount;
  }

  /**
   Whatever a task has handled: read back after a restart, every saved piece within the selected
   files is believed and passes the check of existing data.
   */
  lemma SavedIsFound(task: Task, saved: seq<bv8>)
    requires task.Valid() && (forall i :: i in Bitfield.Members(saved) ==> i in task.s.done && !InCache(task.store.cache, i))
    ensures var l, st := task.cfg.layout, task.store;
            var job := VerifyRun.Job(l, task.cfg.hashes, task.cfg.sha1, None, OnDisk(st.files, st.open));
            VerifyRun.Runs(job) &&
            forall i :: i in Bitfield.Members(saved) && AllOpen(l, st.open, i) ==>
              i in VerifyRun.Good(job) && i in Resume.Believed(l, Lengths(st.files, st.open), saved)
  {
    hide SwarmInv.Inv, PieceCount, AllOpen, VerifyRun.Good, Resume.Believed, OnDisk, Lengths;
    DoneSurvivesRestart(task.cfg, task.s, task.store, saved);
  }
}
