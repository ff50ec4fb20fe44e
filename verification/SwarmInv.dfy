/** What every step of the download state machine keeps. */
module SwarmInv {
  import opened Bytes
  import opened Layout
  import opened Swarm
  import Playhead
  import Wire

  // The invariant -----------------------------------------------------------------------------

  /** The cached blocks of piece `i`. */
  function KeysOf(blocks: map<Key, bytes>, i: nat): set<Key> { set k | k in blocks && k.0 == i }

  predicate WindowOk(p: Peer) {
    PIPELINE_MIN <= p.window <= PIPELINE_MAX && |p.inFlight| <= PIPELINE_MAX
  }

  /** Counters equal cached blocks, requests outstanding are not cached, no counter is full. */
  ghost predicate CacheOk(cfg: Config, p: Peer) {
    && p.inFlight !! p.blocks.Keys
    && (forall i :: GotOf(p, i) == |KeysOf(p.blocks, i)|)
    && p.got.Keys <= p.need.Keys
    && (forall i :: i in p.need ==> p.need[i] == NumBlocks(cfg, i) && (p.need[i] > 0 ==> GotOf(p, i) < p.need[i]))
  }

  /** Queued pieces without any block: suggested by the peer though they do not exist. */
  function Hollow(cfg: Config, q: seq<nat>): set<nat> { set i | i in q && NumBlocks(cfg, i) == 0 }

  predicate QueueOk(cfg: Config, p: Peer) {
    && NoRepeats(p.queued) && |p.queued| <= MAX_QUEUED_HARD
    && (forall i :: i in p.queued ==> i in p.need)
    && |Hollow(cfg, p.queued)| <= MAX_QUEUED
  }

  ghost predicate PeerOk(cfg: Config, p: Peer) {
    WindowOk(p) && CacheOk(cfg, p) && QueueOk(cfg, p)
  }

  predicate Owns(s: State, id: nat, i: nat) { id in s.peers && i in s.peers[id].queued }

  /** `taken` is exactly the disjoint union of the queues, and nothing queued is done. */
  ghost predicate OwnershipOk(s: State) {
    && (forall i :: i in s.taken <==> exists id :: Owns(s, id, i))
    && (forall id, id', i :: Owns(s, id, i) && Owns(s, id', i) ==> id == id')
    && (forall id, i :: Owns(s, id, i) ==> i !in s.done)
  }

  /** Every done piece is on disk in full and hashes to its expected value. */
  predicate DiskOk(cfg: Config, s: State) {
    && s.done == s.disk.Keys
    && (forall i :: i in s.disk ==>
          i < |cfg.hashes| && |s.disk[i]| == PieceLen(cfg.layout, i) && cfg.sha1(s.disk[i]) == cfg.hashes[i])
  }

  ghost predicate Inv(cfg: Config, s: State) {
    && DiskOk(cfg, s) && OwnershipOk(s)
    && (forall id :: id in s.peers ==> PeerOk(cfg, s.peers[id]))
  }

  // Ownership ------------------------------------------------------------------------------------

  /** Only the queues, the taken set and the done set matter to ownership. */
  lemma OwnershipSame(s: State, s': State)
    requires OwnershipOk(s) && s'.taken == s.taken && s'.done == s.done
    requires forall id, i :: Owns(s', id, i) <==> Owns(s, id, i)
    ensures OwnershipOk(s')
  {
    forall i | i in s.taken ensures exists id :: Owns(s', id, i) {
      var id :| Owns(s, id, i);
      assert Owns(s', id, i);
    }
  }

  lemma OwnershipSetPeer(s: State, id: nat, p: Peer)
    requires OwnershipOk(s) && (if id in s.peers then p.queued == s.peers[id].queued else p.queued == [])
    ensures OwnershipOk(SetPeer(s, id, p))
  {
    OwnershipSame(s, SetPeer(s, id, p));
  }

  lemma OwnershipTake(cfg: Config, s: State, id: nat, i: nat)
    requires OwnershipOk(s) && id in s.peers && i !in s.taken && i !in s.done
    ensures OwnershipOk(TakePiece(cfg, s, id, i)) && i !in s.peers[id].queued
  {
    var s' := TakePiece(cfg, s, id, i);
    assert !Owns(s, id, i);
    forall id', j ensures Owns(s', id', j) <==> Owns(s, id', j) || (id' == id && j == i) {}
    forall j ensures j in s'.taken <==> exists id' :: Owns(s', id', j) {
      if j == i {
        assert Owns(s', id, i);
      } else if j in s.taken {
        var id' :| Owns(s, id', j);
        assert Owns(s', id', j);
      }
    }
  }

  /** A session gives up the pieces of `gone`: they leave its queue and the taken set. */
  lemma OwnershipDrop(s: State, id: nat, gone: set<nat>, s': State)
    requires OwnershipOk(s) && id in s.peers
    requires forall i :: i in gone ==> i in s.peers[id].queued
    requires s'.taken == s.taken - gone
    requires forall i :: i in s'.done ==> i in s.done || i in gone
    requires forall id', i :: Owns(s', id', i) <==> Owns(s, id', i) && !(id' == id && i in gone)
    ensures OwnershipOk(s')
  {
    forall j ensures j in s'.taken <==> exists id' :: Owns(s', id', j) {
      if j in s'.taken {
        var id' :| Owns(s, id', j);
        assert Owns(s', id', j);
      } else if id' :| Owns(s', id', j) {
        assert Owns(s, id', j) && j in s.taken && j in gone;
        assert Owns(s, id, j);
      }
    }
    forall id', i | Owns(s', id', i) ensures i !in s'.done {
      if i in gone {
        assert Owns(s, id, i) && Owns(s, id', i);
      }
    }
  }

  lemma OwnershipReleaseAll(s: State, id: nat)
    requires OwnershipOk(s) && id in s.peers
    ensures OwnershipOk(ReleaseAll(s, id))
  {
    OwnershipDrop(s, id, (set i | i in s.peers[id].queued), ReleaseAll(s, id));
  }

  // The peer's own bookkeeping ----------------------------------------------------------------------

  lemma BlocksExist(cfg: Config, i: nat)
    requires ValidConfig(cfg)
    ensures NumBlocks(cfg, i) > 0 <==> i < PieceCount(cfg.layout)
  {
    PieceBounds(cfg.layout, i);
    DivCeilBounds(PieceLen(cfg.layout, i), Wire.BLOCK_SIZE);
  }

  lemma {:induction false} RegisterAllNoop(cfg: Config, need: map<nat, nat>, q: seq<nat>)
    requires forall i :: i in q ==> i in need
    ensures RegisterAll(cfg, need, q) == need
    decreases |q|
  {
    if q != [] {
      RegisterAllNoop(cfg, need, q[1..]);
    }
  }

  lemma AskKeepsPeer(cfg: Config, p: Peer, key: Key)
    requires PeerOk(cfg, p) && |p.inFlight| < p.window && key !in p.blocks && key !in p.inFlight
    ensures PeerOk(cfg, p.(inFlight := p.inFlight + {key}))
  {
    hide NumBlocks, KeysOf, Hollow;
    var p' := p.(inFlight := p.inFlight + {key});
    assert forall i :: GotOf(p', i) == GotOf(p, i);
  }

  lemma TakeKeepsPeer(cfg: Config, p: Peer, i: nat)
    requires PeerOk(cfg, p) && i !in p.queued && |p.queued| < MAX_QUEUED_HARD
    requires NumBlocks(cfg, i) > 0 || |p.queued| < MAX_QUEUED
    ensures PeerOk(cfg, p.(queued := p.queued + [i], need := Register(p.need, i, NumBlocks(cfg, i))))
  {
    hide NumBlocks, KeysOf;
    var p' := p.(queued := p.queued + [i], need := Register(p.need, i, NumBlocks(cfg, i)));
    assert forall j :: GotOf(p', j) == GotOf(p, j);
    HollowGrows(cfg, p.queued, i);
  }

  lemma HollowGrows(cfg: Config, q: seq<nat>, i: nat)
    ensures |Hollow(cfg, q + [i])| <= if NumBlocks(cfg, i) > 0 then |Hollow(cfg, q)| else |q| + 1
  {
    hide NumBlocks;
    if NumBlocks(cfg, i) > 0 {
      assert Hollow(cfg, q + [i]) == Hollow(cfg, q);
    } else {
      HollowSmall(cfg, q + [i]);
    }
  }

  lemma {:induction false} HollowSmall(cfg: Config, q: seq<nat>)
    ensures |Hollow(cfg, q)| <= |q|
  {
    hide NumBlocks;
    if q == [] {
      assert Hollow(cfg, q) == {};
    } else {
      HollowSmall(cfg, q[1..]);
      assert q == [q[0]] + q[1..];
      assert Hollow(cfg, q) <= Hollow(cfg, q[1..]) + {q[0]};
      CardLe(Hollow(cfg, q), Hollow(cfg, q[1..]) + {q[0]});
    }
  }

  lemma HollowShrinks(cfg: Config, q: seq<nat>, r: seq<nat>)
    requires forall i :: i in r ==> i in q
    ensures |Hollow(cfg, r)| <= |Hollow(cfg, q)|
  {
    hide NumBlocks;
    CardLe(Hollow(cfg, r), Hollow(cfg, q));
  }

  lemma {:induction false} WithoutKeeps(q: seq<nat>, i: nat)
    requires NoRepeats(q)
    ensures NoRepeats(Without(q, i)) && |Without(q, i)| <= |q|
  {
    if q != [] {
      WithoutKeeps(q[1..], i);
      var r := Without(q[1..], i);
      if q[0] != i {
        forall y | 0 <= y < |r| ensures r[y] != q[0] {
          assert r[y] in q[1..];
        }
      }
    }
  }

  /** A block received once more, or for the first time, keeps counters and cache in step. */
  lemma ReceiveCounts(p: Peer, i: nat, begin: nat, block: bytes)
    requires forall j :: GotOf(p, j) == |KeysOf(p.blocks, j)|
    ensures var p' := ReceiveBlock(p, i, begin, block);
            forall j :: GotOf(p', j) == |KeysOf(p'.blocks, j)|
  {
    var p' := ReceiveBlock(p, i, begin, block);
    forall j ensures GotOf(p', j) == |KeysOf(p'.blocks, j)| {
      if j == i && (i, begin) !in p.blocks {
        assert KeysOf(p'.blocks, i) == KeysOf(p.blocks, i) + {(i, begin)};
      } else {
        assert KeysOf(p'.blocks, j) == KeysOf(p.blocks, j);
      }
    }
  }

  lemma ForgetCounts(p: Peer, i: nat)
    requires forall j :: GotOf(p, j) == |KeysOf(p.blocks, j)|
    ensures forall j :: GotOf(Forget(p, i), j) == |KeysOf(Forget(p, i).blocks, j)|
  {
    var p' := Forget(p, i);
    forall j ensures GotOf(p', j) == |KeysOf(p'.blocks, j)| {
      assert KeysOf(p'.blocks, j) == if j == i then {} else KeysOf(p.blocks, j);
    }
  }

  /** What receiving a block leaves as it was. */
  lemma ReceiveFields(cfg: Config, p: Peer, i: nat, begin: nat, block: bytes)
    requires PeerOk(cfg, p) && i in p.queued
    ensures var p' := Adjust(cfg, ReceiveBlock(p, i, begin, block));
            && WindowOk(p') && p'.queued == p.queued && p'.need == p.need
            && p'.inFlight !! p'.blocks.Keys && p'.got.Keys <= p'.need.Keys
            && (forall j :: GotOf(p', j) == |KeysOf(p'.blocks, j)|)
            && (forall j :: j != i ==> GotOf(p', j) == GotOf(p, j))
            && i in p'.got
  {
    hide NumBlocks, KeysOf, Hollow, GotOf, WindowOk, QueueOk, Adjust, ReceiveBlock;
    var r := ReceiveBlock(p, i, begin, block);
    ReceiveCounts(p, i, begin, block);
    ReceivedOnly(cfg, p, i, begin, block);
    AdjustOnly(cfg, r);
  }

  lemma AdjustOnly(cfg: Config, p: Peer)
    requires WindowOk(p)
    ensures var q := Adjust(cfg, p);
            WindowOk(q) && q == p.(window := q.window) && forall j :: GotOf(q, j) == GotOf(p, j)
  {
  }

  lemma ReceivedOnly(cfg: Config, p: Peer, i: nat, begin: nat, block: bytes)
    requires PeerOk(cfg, p) && i in p.queued
    ensures var r := ReceiveBlock(p, i, begin, block);
            && WindowOk(r) && r.queued == p.queued && r.need == p.need
            && r.inFlight !! r.blocks.Keys && r.got.Keys <= r.need.Keys
            && (forall j :: j != i ==> GotOf(r, j) == GotOf(p, j))
            && i in r.got
  {
    hide NumBlocks, KeysOf, Hollow;
    CardLe(ReceiveBlock(p, i, begin, block).inFlight, p.inFlight);
    AlreadyCounted(p, i, begin);
  }

  lemma AlreadyCounted(p: Peer, i: nat, begin: nat)
    requires forall j :: GotOf(p, j) == |KeysOf(p.blocks, j)|
    ensures (i, begin) in p.blocks ==> i in p.got
  {
    if (i, begin) in p.blocks {
      assert (i, begin) in KeysOf(p.blocks, i);
    }
  }

  /** Receiving a block of a queued piece keeps the peer in order unless it completes the piece. */
  lemma ReceiveKeepsPeer(cfg: Config, p: Peer, i: nat, begin: nat, block: bytes)
    requires PeerOk(cfg, p) && i in p.queued
    ensures var p' := Adjust(cfg, ReceiveBlock(p, i, begin, block));
            if PieceComplete(p', i) then PeerOk(cfg, Forget(p', i)) else PeerOk(cfg, p')
  {
    hide NumBlocks, KeysOf, Hollow, ReceiveBlock, Adjust, GotOf, Forget;
    ReceiveFields(cfg, p, i, begin, block);
    var p' := Adjust(cfg, ReceiveBlock(p, i, begin, block));
    if PieceComplete(p', i) {
      ForgetCounts(p', i);
      ForgetOthers(p', i);
      WithoutKeeps(p.queued, i);
      HollowShrinks(cfg, p.queued, Without(p.queued, i));
    } else {
      GotWhenReceived(p', i);
    }
  }

  lemma GotWhenReceived(p: Peer, i: nat)
    requires i in p.got && !PieceComplete(p, i) && i in p.need
    ensures p.need[i] > 0 ==> GotOf(p, i) < p.need[i]
  {
  }

  lemma ForgetOthers(p: Peer, i: nat)
    requires p.inFlight !! p.blocks.Keys && p.got.Keys <= p.need.Keys
    ensures var f := Forget(p, i);
            && f.inFlight <= p.inFlight && |f.inFlight| <= |p.inFlight| && f.inFlight !! f.blocks.Keys
            && f.got.Keys <= f.need.Keys && f.window == p.window && f.queued == Without(p.queued, i)
            && (forall j :: j in f.need ==> j != i && j in p.need && f.need[j] == p.need[j] && GotOf(f, j) == GotOf(p, j))
            && (forall j :: j in f.queued ==> j in p.queued && (j in p.need ==> j in f.need))
  {
    CardLe(Forget(p, i).inFlight, p.inFlight);
  }

  lemma CleanPeer(cfg: Config, p: Peer)
    requires WindowOk(p) && p.queued == [] && p.blocks == map[] && p.need == map[] && p.got == map[] && p.inFlight == {}
    ensures PeerOk(cfg, p)
  {
    assert forall i :: KeysOf(p.blocks, i) == {};
    assert Hollow(cfg, p.queued) == {};
  }

  /** Fields outside the bookkeeping, an empty queue, fewer outstanding requests, another window. */
  lemma PeerOkWeaken(cfg: Config, p: Peer, p': Peer)
    requires PeerOk(cfg, p) && WindowOk(p')
    requires p'.blocks == p.blocks && p'.need == p.need && p'.got == p.got && p'.inFlight <= p.inFlight
    requires p'.queued == p.queued || p'.queued == []
    ensures PeerOk(cfg, p')
  {
    hide NumBlocks, KeysOf, Hollow;
    assert forall i :: GotOf(p', i) == GotOf(p, i);
    if p'.queued == [] {
      HollowShrinks(cfg, p.queued, []);
    }
  }
}
