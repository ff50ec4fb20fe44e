/**
 Assembling a piece from blocks that came in any order, some of them twice: if every cached
 block is a true slice of the piece, a full counter means the whole piece.
 */
module SwarmBlocks {
  import opened Bytes
  import opened Layout
  import opened Swarm
  import opened SwarmInv
  import opened SwarmSteps
  import opened SwarmProgress
  import Wire

  /** The block of `orig` that a request at `begin` asks for. */
  function TrueBlock(orig: bytes, begin: nat): bytes
    requires begin <= |orig|
  {
    orig[begin..Min(begin + Wire.BLOCK_SIZE, |orig|)]
  }

  predicate Boundary(orig: bytes, begin: nat) { begin % Wire.BLOCK_SIZE == 0 && begin < |orig| }

  /** Every cached block of piece `i` is a true slice at a request boundary. */
  predicate Honest(blocks: map<Key, bytes>, i: nat, orig: bytes) {
    forall k :: k in blocks && k.0 == i ==> Boundary(orig, k.1) && blocks[k] == TrueBlock(orig, k.1)
  }

  /** `data` agrees with `orig` on the blocks of `order`. */
  predicate Filled(data: bytes, orig: bytes, order: seq<nat>) {
    && |data| == |orig|
    && forall b, x :: b in order && Boundary(orig, b) && b <= x < Min(b + Wire.BLOCK_SIZE, |orig|) ==> data[x] == orig[x]
  }

  lemma SpliceBlock(data: bytes, orig: bytes, b: nat, before: seq<nat>)
    requires Filled(data, orig, before) && Boundary(orig, b)
    ensures b + |TrueBlock(orig, b)| <= |data|
    ensures Filled(Splice(data, b, TrueBlock(orig, b)), orig, before + [b])
  {
    var x := TrueBlock(orig, b);
    var r := Splice(data, b, x);
    forall y | 0 <= y < |r| ensures r[y] == if b <= y < b + |x| then orig[y] else data[y] {}
  }

  /** Whatever the order, copying true blocks into the buffer fills it with the piece's bytes. */
  lemma {:induction false} AssembleFills(blocks: map<Key, bytes>, i: nat, data: bytes, order: seq<nat>, orig: bytes, before: seq<nat>)
    requires Honest(blocks, i, orig) && (forall b :: b in order ==> (i, b) in blocks) && Filled(data, orig, before)
    ensures Assemble(blocks, i, data, order).Some?
    ensures Filled(Assemble(blocks, i, data, order).value, orig, before + order)
    decreases |order|
  {
    hide Filled;
    if order == [] {
      assert before + order == before;
    } else {
      assert Boundary(orig, order[0]) && blocks[(i, order[0])] == TrueBlock(orig, order[0]);
      SpliceBlock(data, orig, order[0], before);
      AssembleFills(blocks, i, Splice(data, order[0], TrueBlock(orig, order[0])), order[1..], orig, before + [order[0]]);
      assert before + [order[0]] + order[1..] == before + order;
    }
  }

  /** A full counter of true blocks means every block is there. */
  lemma FullMeansAll(p: Peer, i: nat, n: nat, orig: bytes)
    requires Honest(p.blocks, i, orig) && n == DivCeil(|orig|, Wire.BLOCK_SIZE) && |KeysOf(p.blocks, i)| >= n
    ensures forall k :: 0 <= k < n ==> BlockKey(i, k) in p.blocks
  {
    KeysBelowSize(i, n);
    forall key | key in KeysOf(p.blocks, i) ensures key in KeysBelow(i, n) {
      BoundaryBelow(orig, key.1);
      assert key == BlockKey(i, key.1 / Wire.BLOCK_SIZE);
    }
    CardLe(KeysOf(p.blocks, i), KeysBelow(i, n));
  }

  lemma BoundaryBelow(orig: bytes, b: nat)
    requires Boundary(orig, b)
    ensures b / Wire.BLOCK_SIZE < DivCeil(|orig|, Wire.BLOCK_SIZE) && b == b / Wire.BLOCK_SIZE * Wire.BLOCK_SIZE
  {
  }

  /** A buffer filled by all its blocks is the piece. */
  lemma AllFilled(data: bytes, orig: bytes, order: seq<nat>)
    requires Filled(data, orig, order)
    requires forall k :: 0 <= k < DivCeil(|orig|, Wire.BLOCK_SIZE) ==> k * Wire.BLOCK_SIZE in order
    ensures data == orig
  {
    forall x | 0 <= x < |orig| ensures data[x] == orig[x] {
      var k := x / Wire.BLOCK_SIZE;
      assert k * Wire.BLOCK_SIZE in order && Boundary(orig, k * Wire.BLOCK_SIZE);
    }
  }

  /**
   If every cached block is a true slice, then for any arrival order, repeats, timeouts and
   re-requests, completion means the assembled buffer is the original piece.
   */
  lemma CompleteMeansWhole(cfg: Config, p: Peer, i: nat, order: seq<nat>, orig: bytes)
    requires ValidConfig(cfg) && |orig| == PieceLen(cfg.layout, i)
    requires (forall j :: GotOf(p, j) == |KeysOf(p.blocks, j)|) && (i in p.need ==> p.need[i] == NumBlocks(cfg, i))
    requires PieceComplete(p, i) && Honest(p.blocks, i, orig) && Enumerates(order, p.blocks, i)
    ensures Assemble(p.blocks, i, Zeros(PieceLen(cfg.layout, i)), order) == Some(orig)
  {
    hide KeysOf, Honest, BlockKey, Filled;
    var n := NumBlocks(cfg, i);
    FullMeansAll(p, i, n, orig);
    NothingFilled(orig);
    AssembleFills(p.blocks, i, Zeros(|orig|), order, orig, []);
    assert [] + order == order;
    forall k | 0 <= k < n ensures k * Wire.BLOCK_SIZE in order {
      KeyIs(i, k);
      assert (i, k * Wire.BLOCK_SIZE) in p.blocks;
    }
    AllFilled(Assemble(p.blocks, i, Zeros(|orig|), order).value, orig, order);
  }

  lemma KeyIs(i: nat, k: nat)
    ensures BlockKey(i, k) == (i, k * Wire.BLOCK_SIZE)
  {
  }

  lemma NothingFilled(orig: bytes)
    ensures Filled(Zeros(|orig|), orig, [])
  {
  }

  /**
   A true block that completes a piece gets it onto the disk exactly as it was published, when
   the piece hashes to its expected value and the write succeeds.
   */
  lemma HonestPieceAccepted(cfg: Config, s: State, id: nat, i: nat, begin: nat, order: seq<nat>, orig: bytes)
    requires ValidConfig(cfg) && Inv(cfg, s) && id in s.peers && i in s.peers[id].queued
    requires |orig| == PieceLen(cfg.layout, i) && i < |cfg.hashes| && cfg.sha1(orig) == cfg.hashes[i]
    requires Boundary(orig, begin) && Honest(s.peers[id].blocks, i, orig)
    requires Enumerates(order, s.peers[id].blocks[(i, begin) := TrueBlock(orig, begin)], i)
    requires PieceComplete(Adjust(cfg, ReceiveBlock(s.peers[id], i, begin, TrueBlock(orig, begin))), i)
    ensures var s' := OnPiece(cfg, s, id, i, begin, TrueBlock(orig, begin), order, true);
            i in s'.done && i in s'.disk && s'.disk[i] == orig
  {
    hide OwnershipOk, DiskOk, Enumerates, Honest, Fill, PieceComplete, WindowOk, NumBlocks;
    var p, block := s.peers[id], TrueBlock(orig, begin);
    assert PeerOk(cfg, p);
    ReceiveFields(cfg, p, i, begin, block);
    var p' := Adjust(cfg, ReceiveBlock(p, i, begin, block));
    StillHonest(p.blocks, i, begin, orig);
    assert p'.blocks == p.blocks[(i, begin) := block];
    CompleteMeansWhole(cfg, p', i, order, orig);
    NotDoneYet(s, id, i);
    var t := SetPeer(s, id, p');
    ReceiveKeepsPeer(cfg, p, i, begin, block);
    FinishKeepsInv(cfg, s, t, id, i, order, true);
    FinishHasPeer(cfg, t, id, i, order, true);
    FillKeepsInv(cfg, Finish(cfg, t, id, i, order, true), id);
  }

  lemma NotDoneYet(s: State, id: nat, i: nat)
    requires OwnershipOk(s) && id in s.peers && i in s.peers[id].queued
    ensures i !in s.done
  {
    assert Owns(s, id, i);
  }

  lemma StillHonest(blocks: map<Key, bytes>, i: nat, begin: nat, orig: bytes)
    requires Honest(blocks, i, orig) && Boundary(orig, begin)
    ensures Honest(blocks[(i, begin) := TrueBlock(orig, begin)], i, orig)
  {
  }

  // Honest runs -----------------------------------------------------------------------------------

  /** Some pieces as they were published; nothing is assumed of the others. */
  type Content = map<nat, bytes>

  /** Each of these pieces has its exact length. */
  ghost predicate Exact(cfg: Config, orig: Content) {
    forall i :: i in orig ==> |orig[i]| == PieceLen(cfg.layout, i)
  }

  /** A block received for one of these pieces is the true one. */
  predicate HonestBlock(i: nat, begin: nat, block: bytes, orig: Content) {
    i in orig ==> Boundary(orig[i], begin) && block == TrueBlock(orig[i], begin)
  }

  predicate HonestEvent(e: Event, orig: Content) {
    e.Received? ==> HonestBlock(e.piece, e.begin, e.block, orig)
  }

  ghost predicate HonestPeer(p: Peer, orig: Content) {
    forall i :: i in orig ==> Honest(p.blocks, i, orig[i])
  }

  /** Of these pieces all caches hold true blocks and the disk holds the published bytes. */
  ghost predicate Truthful(s: State, orig: Content) {
    && (forall id :: id in s.peers ==> HonestPeer(s.peers[id], orig))
    && (forall i :: i in s.disk && i in orig ==> s.disk[i] == orig[i])
  }

  lemma TruthfulSetPeer(s: State, id: nat, p: Peer, orig: Content)
    requires Truthful(s, orig) && HonestPeer(p, orig)
    ensures Truthful(SetPeer(s, id, p), orig)
  {
    hide HonestPeer;
  }

  lemma FewerBlocks(p: Peer, q: Peer, orig: Content)
    requires HonestPeer(p, orig) && forall k :: k in q.blocks ==> k in p.blocks && q.blocks[k] == p.blocks[k]
    ensures HonestPeer(q, orig)
  {
    forall i | i in orig ensures Honest(q.blocks, i, orig[i]) {
      assert Honest(p.blocks, i, orig[i]);
    }
  }

  lemma TruthfulFrame(s: State, s': State, id: nat, orig: Content)
    requires Truthful(s, orig) && id in s.peers && FillFrame(s, s', id)
    ensures Truthful(s', orig)
  {
    FewerBlocks(s.peers[id], s'.peers[id], orig);
    forall id' | id' in s'.peers ensures HonestPeer(s'.peers[id'], orig) {
      assert id' != id ==> s'.peers[id'] == s.peers[id'];
    }
  }

  lemma HonestReceive(cfg: Config, p: Peer, i: nat, begin: nat, block: bytes, orig: Content)
    requires HonestPeer(p, orig) && HonestBlock(i, begin, block, orig)
    ensures HonestPeer(Adjust(cfg, ReceiveBlock(p, i, begin, block)), orig)
  {
    hide Honest;
    var q := Adjust(cfg, ReceiveBlock(p, i, begin, block));
    forall j | j in orig ensures Honest(q.blocks, j, orig[j]) {
      assert Honest(p.blocks, j, orig[j]);
      if j == i {
        StillHonest(p.blocks, i, begin, orig[i]);
      } else {
        OtherPieceHonest(p.blocks, j, (i, begin), block, orig[j]);
      }
    }
  }

  lemma OtherPieceHonest(blocks: map<Key, bytes>, j: nat, key: Key, x: bytes, orig: bytes)
    requires Honest(blocks, j, orig) && key.0 != j
    ensures Honest(blocks[key := x], j, orig)
  {
  }

  /** A completed piece of true blocks is written exactly as published. */
  lemma HonestFinish(cfg: Config, s: State, t: State, id: nat, i: nat, order: seq<nat>, writeOk: bool, orig: Content)
    requires ValidConfig(cfg) && Exact(cfg, orig) && Truthful(t, orig) && id in t.peers
    requires (forall j :: GotOf(t.peers[id], j) == |KeysOf(t.peers[id].blocks, j)|)
    requires i in t.peers[id].need ==> t.peers[id].need[i] == NumBlocks(cfg, i)
    requires PieceComplete(t.peers[id], i) && Enumerates(order, t.peers[id].blocks, i)
    ensures Truthful(Finish(cfg, t, id, i, order, writeOk), orig)
  {
    hide Honest, Enumerates, NumBlocks, PieceComplete;
    var p := t.peers[id];
    assert HonestPeer(p, orig);
    if i in orig {
      assert Honest(p.blocks, i, orig[i]);
      CompleteMeansWhole(cfg, p, i, order, orig[i]);
    }
    FewerBlocks(p, Forget(p, i), orig);
  }

  lemma HonestFill(cfg: Config, s: State, id: nat, orig: Content)
    requires ValidConfig(cfg) && Inv(cfg, s) && id in s.peers && Truthful(s, orig)
    ensures Truthful(Fill(cfg, s, id).0, orig)
  {
    hide Inv, Fill, Truthful;
    FillKeepsInv(cfg, s, id);
    TruthfulFrame(s, Fill(cfg, s, id).0, id, orig);
  }

  /** The state right after a true block was cached. */
  lemma HonestCached(cfg: Config, s: State, id: nat, i: nat, begin: nat, block: bytes, orig: Content)
    requires ValidConfig(cfg) && Inv(cfg, s) && Truthful(s, orig) && id in s.peers && i in s.peers[id].queued
    requires HonestBlock(i, begin, block, orig)
    ensures var p := s.peers[id];
            var p' := Adjust(cfg, ReceiveBlock(p, i, begin, block));
            && Truthful(SetPeer(s, id, p'), orig) && p'.queued == p.queued
            && p'.blocks == p.blocks[(i, begin) := block]
            && (forall j :: GotOf(p', j) == |KeysOf(p'.blocks, j)|)
            && (i in p'.need ==> p'.need[i] == NumBlocks(cfg, i))
            && (if PieceComplete(p', i) then PeerOk(cfg, Forget(p', i)) else PeerOk(cfg, p'))
  {
    hide OwnershipOk, DiskOk, NumBlocks, PieceComplete, HonestPeer, WindowOk, HonestBlock, QueueOk;
    var p := s.peers[id];
    assert PeerOk(cfg, p);
    ReceiveFields(cfg, p, i, begin, block);
    ReceiveKeepsPeer(cfg, p, i, begin, block);
    HonestReceive(cfg, p, i, begin, block, orig);
    TruthfulSetPeer(s, id, Adjust(cfg, ReceiveBlock(p, i, begin, block)), orig);
  }

  lemma HonestPiece(cfg: Config, s: State, id: nat, i: nat, begin: nat, block: bytes, order: seq<nat>, writeOk: bool, orig: Content)
    requires ValidConfig(cfg) && Exact(cfg, orig) && Inv(cfg, s) && Truthful(s, orig) && id in s.peers
    requires HonestBlock(i, begin, block, orig)
    requires Enumerates(order, s.peers[id].blocks[(i, begin) := block], i)
    ensures Truthful(OnPiece(cfg, s, id, i, begin, block, order, writeOk), orig)
  {
    hide Inv, Fill, Finish, Enumerates, PieceComplete, Truthful, HonestBlock, PeerOk, Exact;
    hide Adjust, ReceiveBlock, Forget, NumBlocks, GotOf, KeysOf;
    var p := s.peers[id];
    if i in p.queued {
      HonestCached(cfg, s, id, i, begin, block, orig);
      var p' := Adjust(cfg, ReceiveBlock(p, i, begin, block));
      var t := SetPeer(s, id, p');
      if PieceComplete(p', i) {
        HonestFinish(cfg, s, t, id, i, order, writeOk, orig);
        FinishKeepsInv(cfg, s, t, id, i, order, writeOk);
        FinishHasPeer(cfg, t, id, i, order, writeOk);
        HonestFill(cfg, Finish(cfg, t, id, i, order, writeOk), id, orig);
      } else {
        InvSetPeer(cfg, s, id, p');
        HonestFill(cfg, t, id, orig);
      }
    }
  }

  lemma HonestFillIf(cfg: Config, s: State, id: nat, orig: Content)
    requires ValidConfig(cfg) && Inv(cfg, s) && id in s.peers && Truthful(s, orig)
    ensures Truthful(FillIfUnchoked(cfg, s, id), orig)
  {
    hide Inv, Fill, Truthful;
    HonestFill(cfg, s, id, orig);
  }

  /** A change to one session that caches nothing new. */
  lemma TruthfulChange(s: State, id: nat, p: Peer, orig: Content)
    requires Truthful(s, orig) && id in s.peers
    requires forall k :: k in p.blocks ==> k in s.peers[id].blocks && p.blocks[k] == s.peers[id].blocks[k]
    ensures Truthful(SetPeer(s, id, p), orig)
  {
    hide HonestPeer;
    FewerBlocks(s.peers[id], p, orig);
  }

  lemma TruthfulRelease(s: State, id: nat, orig: Content)
    requires Truthful(s, orig) && id in s.peers
    ensures Truthful(ReleaseAll(s, id), orig)
  {
    TruthfulChange(s, id, s.peers[id].(queued := []), orig);
  }

  lemma TruthfulInterest(cfg: Config, s: State, id: nat, orig: Content)
    requires Valid(cfg.layout) && Truthful(s, orig) && id in s.peers
    ensures Truthful(Interest(cfg, s, id), orig) && id in Interest(cfg, s, id).peers
  {
    hide Truthful;
    TruthfulChange(s, id, s.peers[id].(interested := true), orig);
  }

  lemma HonestJoin(cfg: Config, s: State, id: nat, held: set<nat>, choked: bool, interested: bool, orig: Content)
    requires ValidConfig(cfg) && Inv(cfg, s) && Truthful(s, orig) && id !in s.peers
    ensures Truthful(FillIfUnchoked(cfg, SetPeer(s, id, FreshPeer(cfg, held, choked, interested)), id), orig)
  {
    hide Inv, FillIfUnchoked, Truthful, PeerOk;
    var p := FreshPeer(cfg, held, choked, interested);
    CleanPeer(cfg, p);
    InvSetPeer(cfg, s, id, p);
    assert HonestPeer(p, orig);
    TruthfulSetPeer(s, id, p, orig);
    HonestFillIf(cfg, SetPeer(s, id, p), id, orig);
  }

  lemma HonestHave(cfg: Config, s: State, id: nat, more: set<nat>, orig: Content)
    requires ValidConfig(cfg) && Inv(cfg, s) && Truthful(s, orig) && id in s.peers
    ensures Truthful(OnHave(cfg, s, id, more), orig)
  {
    hide Inv, Interest, FillIfUnchoked, Truthful, WindowOk;
    var p := s.peers[id];
    var p' := p.(have := p.have + (set i | i in more && i < PieceCount(cfg.layout)));
    WindowKept(cfg, s, id, p.inFlight);
    SameWindow(p, p');
    PeerChangeKeepsInv(cfg, s, id, p');
    TruthfulChange(s, id, p', orig);
    InterestKeepsInv(cfg, SetPeer(s, id, p'), id);
    TruthfulInterest(cfg, SetPeer(s, id, p'), id, orig);
    HonestFillIf(cfg, Interest(cfg, SetPeer(s, id, p'), id), id, orig);
  }

  lemma HonestUnchoke(cfg: Config, s: State, id: nat, orig: Content)
    requires ValidConfig(cfg) && Inv(cfg, s) && Truthful(s, orig) && id in s.peers
    ensures Truthful(OnUnchoke(cfg, s, id), orig)
  {
    hide Inv, Interest, Fill, Truthful, WindowOk;
    var p := s.peers[id];
    var s1 := SetPeer(s, id, p.(choked := false));
    WindowKept(cfg, s, id, p.inFlight);
    SameWindow(p, p.(choked := false));
    PeerChangeKeepsInv(cfg, s, id, p.(choked := false));
    TruthfulChange(s, id, p.(choked := false), orig);
    InterestKeepsInv(cfg, s1, id);
    TruthfulInterest(cfg, s1, id, orig);
    HonestFill(cfg, Interest(cfg, s1, id), id, orig);
  }

  lemma HonestTick(cfg: Config, s: State, id: nat, stalled: bool, overdue: bool, orig: Content)
    requires ValidConfig(cfg) && Inv(cfg, s) && Truthful(s, orig) && id in s.peers
    ensures Truthful(OnTick(cfg, s, id, stalled, overdue), orig)
  {
    hide Inv, FillIfUnchoked, Shrink, Expire, Truthful, WindowOk;
    var p := Shrink(cfg, s.peers[id], stalled);
    var p' := Expire(p, overdue);
    WindowKept(cfg, s, id, s.peers[id].inFlight);
    ShrinkKeepsWindow(cfg, s.peers[id], stalled);
    ExpireKeeps(p, overdue);
    PeerChangeKeepsInv(cfg, s, id, p');
    TruthfulChange(s, id, p', orig);
    HonestFillIf(cfg, SetPeer(s, id, p'), id, orig);
  }

  lemma HonestStep(cfg: Config, s: State, e: Event, orig: Content)
    requires ValidConfig(cfg) && Exact(cfg, orig) && Inv(cfg, s) && Truthful(s, orig)
    requires Enabled(cfg, s, e) && HonestEvent(e, orig)
    ensures Truthful(Step(cfg, s, e), orig)
  {
    hide Inv, Enumerates, FillIfUnchoked, OnHave, OnUnchoke, OnPiece, OnTick, FreshPeer, HonestBlock, Exact, HonestPeer;
    match e
    case Join(id, held, choked, interested) => HonestJoin(cfg, s, id, held, choked, interested, orig);
    case Leave(id) => TruthfulRelease(s, id, orig);
    case Evict(id) =>
      TruthfulRelease(s, id, orig);
      var s' := ReleaseAll(s, id);
      TruthfulChange(s', id, s'.peers[id].(listed := false), orig);
    case Haves(id, pieces) => HonestHave(cfg, s, id, pieces, orig);
    case HaveNone(id) => TruthfulChange(s, id, s.peers[id].(have := {}), orig);
    case Choked(id) =>
      TruthfulRelease(s, id, orig);
      var s' := ReleaseAll(s, id);
      TruthfulChange(s', id, s'.peers[id].(choked := true, inFlight := {}, blocks := map[], need := map[], got := map[]), orig);
    case Unchoked(id) => HonestUnchoke(cfg, s, id, orig);
    case Suggested(id, i) => TruthfulChange(s, id, TakePiece(cfg, s, id, i).peers[id], orig);
    case Rejected(id, i, begin) => TruthfulChange(s, id, OnReject(s, id, i, begin).peers[id], orig);
    case Received(id, i, begin, block, order, writeOk) => HonestPiece(cfg, s, id, i, begin, block, order, writeOk, orig);
    case Tick(id, stalled, overdue) => HonestTick(cfg, s, id, stalled, overdue, orig);
    case Select(_) =>
    case Seek(_) =>
    case Verifying(_) =>
  }

  /**
   Over any run in which the blocks delivered for some pieces are true, from any number of peers,
   with anything at all delivered for other pieces and any timeouts, rejects, chokes and evictions
   in between, those pieces stand on disk exactly as published.
   */
  lemma {:induction false} HonestRun(cfg: Config, s: State, run: seq<Event>, orig: Content)
    requires ValidConfig(cfg) && Exact(cfg, orig) && Inv(cfg, s) && Truthful(s, orig) && Possible(cfg, s, run)
    requires forall k :: 0 <= k < |run| ==> HonestEvent(run[k], orig)
    ensures Truthful(After(cfg, s, run), orig)
    decreases |run|
  {
    hide Inv, Step, Enabled, Truthful, Exact;
    if run != [] {
      StepKeepsInv(cfg, s, run[0]);
      HonestStep(cfg, s, run[0], orig);
      HonestRun(cfg, Step(cfg, s, run[0]), run[1..], orig);
    }
  }

  /** A download from nothing: a done piece whose blocks were all true is the published piece. */
  lemma DownloadIsTrue(cfg: Config, wanted: Option<set<nat>>, run: seq<Event>, orig: Content)
    requires ValidConfig(cfg) && Exact(cfg, orig) && Possible(cfg, Start(map[], wanted), run)
    requires forall k :: 0 <= k < |run| ==> HonestEvent(run[k], orig)
    ensures var s := After(cfg, Start(map[], wanted), run);
            forall i :: i in s.done && i in orig ==> i in s.disk && s.disk[i] == orig[i]
  {
    hide Exact, HonestEvent;
    EveryRun(cfg, map[], wanted, run);
    HonestRun(cfg, Start(map[], wanted), run, orig);
  }
}
