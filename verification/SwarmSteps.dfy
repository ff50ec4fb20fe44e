/** Every step keeps the invariant, so every run does. */
module SwarmSteps {
  import opened Bytes
  import opened Layout
  import opened Swarm
  import opened SwarmInv
  import Playhead
  import Wire

  // Candidates -------------------------------------------------------------------------------

  lemma {:induction false} CandidatesAre(s: State, id: nat, i: nat, count: nat)
    requires id in s.peers && i <= count
    ensures var cs := CandidatesFrom(s, id, i, count);
            && (forall c :: c in cs ==> i <= c.idx < count && Eligible(s, id, c.idx) && c.rarity == Rarity(s, c.idx))
            && (forall j :: i <= j < count && Eligible(s, id, j) ==> Playhead.Candidate(j, Rarity(s, j)) in cs)
            && Playhead.Distinct(cs)
    decreases count - i
  {
    hide Rarity, Eligible;
    if i < count {
      CandidatesAre(s, id, i + 1, count);
      var rest := CandidatesFrom(s, id, i + 1, count);
      var one := if Eligible(s, id, i) then [Playhead.Candidate(i, Rarity(s, i))] else [];
      assert CandidatesFrom(s, id, i, count) == one + rest;
      forall j | i <= j < count && Eligible(s, id, j) ensures Playhead.Candidate(j, Rarity(s, j)) in one + rest {
        if j == i {
          assert (one + rest)[0] == Playhead.Candidate(i, Rarity(s, i));
        }
      }
    }
  }

  /**
   `assign_piece` returns nothing exactly when no piece is held by the peer, missing, wanted and
   free; otherwise such a piece that precedes all others in the playhead order.
   */
  lemma PickIsBest(cfg: Config, s: State, id: nat)
    requires Valid(cfg.layout) && id in s.peers
    ensures match Pick(cfg, s, id)
            case None => forall j :: 0 <= j < PieceCount(cfg.layout) && Eligible(s, id, j) ==> j in s.taken
            case Some(i) =>
              && i < PieceCount(cfg.layout) && Eligible(s, id, i) && i !in s.taken
              && forall j :: 0 <= j < PieceCount(cfg.layout) && Eligible(s, id, j) && j !in s.taken && j != i ==>
                   Playhead.Before(cfg.layout, s.playhead,
                                   Playhead.Candidate(i, Rarity(s, i)), Playhead.Candidate(j, Rarity(s, j)))
  {
    hide Rarity, Eligible, PieceCount, Playhead.Before, Playhead.Ordered, CandidatesFrom;
    var n, cs := PieceCount(cfg.layout), Candidates(cfg, s, id);
    CandidatesAre(s, id, 0, n);
    Playhead.PickIsLeast(cfg.layout, s.playhead, cs, s.taken);
    match Pick(cfg, s, id)
    case None =>
      forall j | 0 <= j < n && Eligible(s, id, j) ensures j in s.taken {
        assert Playhead.Candidate(j, Rarity(s, j)) in cs;
      }
    case Some(i) =>
      var c :| c in cs && c.idx == i && c.idx !in s.taken
               && forall d :: d in cs && d.idx !in s.taken && d != c ==> Playhead.Before(cfg.layout, s.playhead, c, d);
      assert c == Playhead.Candidate(i, Rarity(s, i));
      forall j | 0 <= j < n && Eligible(s, id, j) && j !in s.taken && j != i
        ensures Playhead.Before(cfg.layout, s.playhead, c, Playhead.Candidate(j, Rarity(s, j))) {
        assert Playhead.Candidate(j, Rarity(s, j)) in cs;
      }
  }

  /** Neither eligibility nor rarity depends on what is taken, so a piece taken on changes no candidate. */
  lemma {:induction false} SameCandidates(s: State, t: State, id: nat, i: nat, count: nat)
    requires id in s.peers && i <= count && t.peers.Keys == s.peers.Keys
    requires t.done == s.done && t.wanted == s.wanted && t.verifying == s.verifying
    requires forall other :: other in s.peers ==>
               t.peers[other].have == s.peers[other].have && t.peers[other].listed == s.peers[other].listed
    ensures CandidatesFrom(t, id, i, count) == CandidatesFrom(s, id, i, count)
    decreases count - i
  {
    if i < count {
      SameCandidates(s, t, id, i + 1, count);
      assert Holders(t, i) == Holders(s, i);
    }
  }

  /** Up to `k` pieces assigned one after the other, each taken on before the next is picked. */
  function Taking(cfg: Config, s: State, id: nat, k: nat): seq<nat>
    requires Valid(cfg.layout) && id in s.peers
    decreases k
  {
    if k == 0 then []
    else
      match Pick(cfg, s, id)
      case None => []
      case Some(i) => [i] + Taking(cfg, TakePiece(cfg, s, id, i), id, k - 1)
  }

  lemma {:induction false} TakingIsPicks(cfg: Config, s: State, id: nat, k: nat)
    requires Valid(cfg.layout) && id in s.peers
    ensures Taking(cfg, s, id, k)
            == Playhead.Picks(Playhead.Ordered(cfg.layout, s.playhead, Candidates(cfg, s, id)), s.taken, k)
    decreases k
  {
    hide Playhead.Ordered, Playhead.FirstFree, CandidatesFrom, PieceCount, NumBlocks, Rarity, Eligible;
    if k > 0 {
      match Pick(cfg, s, id)
      case None =>
      case Some(i) =>
        var t := TakePiece(cfg, s, id, i);
        SameCandidates(s, t, id, 0, PieceCount(cfg.layout));
        TakingIsPicks(cfg, t, id, k - 1);
    }
  }

  /**
   Any number of assignments in a row go through the eligible free pieces in playhead order:
   the first `k` of them, and all of them if there are fewer.
   */
  lemma TakenInOrder(cfg: Config, s: State, id: nat, k: nat)
    requires Valid(cfg.layout) && id in s.peers
    ensures var free := Playhead.Free(Playhead.Ordered(cfg.layout, s.playhead, Candidates(cfg, s, id)), s.taken);
            && Playhead.InOrder(cfg.layout, s.playhead, free)
            && (forall c :: c in free ==> Eligible(s, id, c.idx) && c.idx !in s.taken && c.rarity == Rarity(s, c.idx))
            && (forall i :: 0 <= i < PieceCount(cfg.layout) && Eligible(s, id, i) && i !in s.taken ==>
                  Playhead.Candidate(i, Rarity(s, i)) in free)
            && Taking(cfg, s, id, k) == Playhead.Indices(free[..Min(k, |free|)])
  {
    hide Playhead.Ordered, Playhead.InOrder, Playhead.Free, CandidatesFrom, PieceCount, Rarity, Eligible, Taking, Playhead.Picks;
    CandidatesAre(s, id, 0, PieceCount(cfg.layout));
    TakingIsPicks(cfg, s, id, k);
    Playhead.PicksAreSorted(cfg.layout, s.playhead, Candidates(cfg, s, id), s.taken, k);
  }

  // The fill loop --------------------------------------------------------------------------------

  lemma InvSetPeer(cfg: Config, s: State, id: nat, p: Peer)
    requires Inv(cfg, s) && PeerOk(cfg, p)
    requires if id in s.peers then p.queued == s.peers[id].queued else p.queued == []
    ensures Inv(cfg, SetPeer(s, id, p))
  {
    hide PeerOk, OwnershipOk;
    OwnershipSetPeer(s, id, p);
  }

  lemma TurnKeepsInv(cfg: Config, s: State, id: nat)
    requires ValidConfig(cfg) && Inv(cfg, s) && id in s.peers
    ensures match TurnOf(cfg, s, id)
            case Ask(i, k) => Inv(cfg, AskBlock(s, id, i, k)) && i in s.peers[id].queued && k < NumBlocks(cfg, i)
            case Take(i) => Inv(cfg, TakePiece(cfg, s, id, i)) && i < PieceCount(cfg.layout)
            case Stop => true
  {
    hide PeerOk, OwnershipOk, NextBlock, Pick, NumBlocks, Eligible, PieceCount;
    var p := s.peers[id];
    match TurnOf(cfg, s, id)
    case Ask(i, k) =>
      AskKeepsPeer(cfg, p, BlockKey(i, k));
      InvSetPeer(cfg, s, id, p.(inFlight := p.inFlight + {BlockKey(i, k)}));
    case Take(i) =>
      PickIsBest(cfg, s, id);
      EligibleMissing(s, id, i);
      BlocksExist(cfg, i);
      OwnershipTake(cfg, s, id, i);
      TakeKeepsPeer(cfg, p, i);
    case Stop =>
  }

  lemma EligibleMissing(s: State, id: nat, i: nat)
    requires id in s.peers && Eligible(s, id, i)
    ensures i !in s.done
  {
  }

  /** What filling one session's pipeline leaves alone. */
  predicate FillFrame(s: State, s': State, id: nat)
    requires id in s.peers
  {
    && s'.done == s.done && s'.disk == s.disk && s'.wanted == s.wanted && s'.playhead == s.playhead && s'.verifying == s.verifying
    && s'.peers.Keys == s.peers.Keys && s.taken <= s'.taken
    && (forall id' :: id' in s.peers && id' != id ==> s'.peers[id'] == s.peers[id'])
    && (var p, p' := s.peers[id], s'.peers[id];
        && p.queued <= p'.queued && p.inFlight <= p'.inFlight
        && p' == p.(queued := p'.queued, inFlight := p'.inFlight, need := p'.need, asked := p'.asked))
  }

  lemma FillFrameTrans(s: State, t: State, u: State, id: nat)
    requires id in s.peers && id in t.peers && FillFrame(s, t, id) && FillFrame(t, u, id)
    ensures FillFrame(s, u, id)
  {
  }

  lemma {:induction false} FillLoopKeepsInv(cfg: Config, s: State, id: nat)
    requires ValidConfig(cfg) && Inv(cfg, s) && id in s.peers
    ensures Inv(cfg, FillLoop(cfg, s, id).0) && FillFrame(s, FillLoop(cfg, s, id).0, id)
    decreases Slack(s, id)
  {
    hide Inv, NumBlocks, TurnOf, Slack;
    SlackFalls(cfg, s, id);
    TurnKeepsInv(cfg, s, id);
    match TurnOf(cfg, s, id)
    case Stop =>
    case Take(i) =>
      FillLoopKeepsInv(cfg, TakePiece(cfg, s, id, i), id);
      FillFrameTrans(s, TakePiece(cfg, s, id, i), FillLoop(cfg, s, id).0, id);
    case Ask(i, k) =>
      FillLoopKeepsInv(cfg, AskBlock(s, id, i, k), id);
      FillFrameTrans(s, AskBlock(s, id, i, k), FillLoop(cfg, s, id).0, id);
  }

  /** Registering the queue again changes nothing. */
  lemma RegisterAgain(cfg: Config, s: State, id: nat)
    requires Inv(cfg, s) && id in s.peers
    ensures var p := s.peers[id]; SetPeer(s, id, p.(need := RegisterAll(cfg, p.need, p.queued))) == s
  {
    hide OwnershipOk, DiskOk, WindowOk, CacheOk;
    var p := s.peers[id];
    assert PeerOk(cfg, p);
    RegisterAllNoop(cfg, p.need, p.queued);
    assert s.peers[id := p] == s.peers;
  }

  lemma FillKeepsInv(cfg: Config, s: State, id: nat)
    requires ValidConfig(cfg) && Inv(cfg, s) && id in s.peers
    ensures Inv(cfg, Fill(cfg, s, id).0) && FillFrame(s, Fill(cfg, s, id).0, id)
  {
    hide Inv, FillLoop, RegisterAll, WindowOk;
    RegisterAgain(cfg, s, id);
    FillLoopKeepsInv(cfg, s, id);
    var r := FillLoop(cfg, s, id);
    SentKeepsInv(cfg, r.0, id, r.1);
    FillFrameTrans(s, r.0, Sent(r.0, id, r.1), id);
  }

  lemma SentKeepsInv(cfg: Config, s: State, id: nat, sent: seq<Wire.Message>)
    requires Inv(cfg, s) && id in s.peers
    ensures Inv(cfg, Sent(s, id, sent)) && FillFrame(s, Sent(s, id, sent), id)
  {
    hide Inv, WindowOk;
    WindowKept(cfg, s, id, s.peers[id].inFlight);
    SameWindow(s.peers[id], s.peers[id].(asked := true));
    PeerChangeKeepsInv(cfg, s, id, s.peers[id].(asked := true));
  }

  lemma FillIfKeepsInv(cfg: Config, s: State, id: nat)
    requires ValidConfig(cfg) && Inv(cfg, s) && id in s.peers
    ensures Inv(cfg, FillIfUnchoked(cfg, s, id)) && FillIfUnchoked(cfg, s, id).done == s.done
  {
    hide Inv, Fill;
    FillKeepsInv(cfg, s, id);
  }

  // The handlers ---------------------------------------------------------------------------------

  /** Accepting and dropping a completed piece. */
  lemma FinishKeepsInv(cfg: Config, s: State, t: State, id: nat, i: nat, order: seq<nat>, writeOk: bool)
    requires ValidConfig(cfg) && Inv(cfg, s) && id in s.peers && i in s.peers[id].queued
    requires id in t.peers && t == SetPeer(s, id, t.peers[id]) && t.peers[id].queued == s.peers[id].queued
    requires Enumerates(order, t.peers[id].blocks, i) && PeerOk(cfg, Forget(t.peers[id], i))
    ensures Inv(cfg, Finish(cfg, t, id, i, order, writeOk)) && s.done <= Finish(cfg, t, id, i, order, writeOk).done
  {
    hide PeerOk, Assemble, Enumerates, OwnershipOk;
    var u := Finish(cfg, t, id, i, order, writeOk);
    forall id', j ensures Owns(u, id', j) <==> Owns(s, id', j) && !(id' == id && j in {i}) {}
    OwnershipDrop(s, id, {i}, u);
    forall id' | id' in u.peers ensures PeerOk(cfg, u.peers[id']) {
      assert id' != id ==> u.peers[id'] == s.peers[id'];
    }
  }

  lemma PieceKeepsInv(cfg: Config, s: State, id: nat, i: nat, begin: nat, block: bytes, order: seq<nat>, writeOk: bool)
    requires ValidConfig(cfg) && Inv(cfg, s) && id in s.peers
    requires Enumerates(order, s.peers[id].blocks[(i, begin) := block], i)
    ensures var s' := OnPiece(cfg, s, id, i, begin, block, order, writeOk); Inv(cfg, s') && s.done <= s'.done
  {
    var p := s.peers[id];
    if i in p.queued {
      hide Fill, Finish, Enumerates, OwnershipOk, DiskOk, WindowOk, CacheOk, QueueOk;
      ReceiveKeepsPeer(cfg, p, i, begin, block);
      var p' := Adjust(cfg, ReceiveBlock(p, i, begin, block));
      var t := SetPeer(s, id, p');
      if PieceComplete(p', i) {
        FinishKeepsInv(cfg, s, t, id, i, order, writeOk);
        FinishHasPeer(cfg, t, id, i, order, writeOk);
        FillKeepsInv(cfg, Finish(cfg, t, id, i, order, writeOk), id);
      } else {
        InvSetPeer(cfg, s, id, p');
        FillKeepsInv(cfg, t, id);
      }
    }
  }

  /** The state a received block of a queued piece leaves before the pipeline is filled. */
  function Settled(cfg: Config, s: State, id: nat, i: nat, begin: nat, block: bytes, order: seq<nat>, writeOk: bool): (r: State)
    requires Valid(cfg.layout) && id in s.peers && Enumerates(order, s.peers[id].blocks[(i, begin) := block], i)
    ensures id in r.peers
  {
    var p := Adjust(cfg, ReceiveBlock(s.peers[id], i, begin, block));
    var t := SetPeer(s, id, p);
    if PieceComplete(p, i) then Finish(cfg, t, id, i, order, writeOk) else t
  }

  lemma BlockReceived(cfg: Config, s: State, id: nat, i: nat, begin: nat, block: bytes, order: seq<nat>, writeOk: bool)
    requires ValidConfig(cfg) && Inv(cfg, s) && id in s.peers && i in s.peers[id].queued
    requires Enumerates(order, s.peers[id].blocks[(i, begin) := block], i)
    ensures var p' := Adjust(cfg, ReceiveBlock(s.peers[id], i, begin, block));
            && Enumerates(order, p'.blocks, i)
            && (var u := Settled(cfg, s, id, i, begin, block, order, writeOk);
                && Inv(cfg, u) && s.done <= u.done
                && OnPiece(cfg, s, id, i, begin, block, order, writeOk) == Fill(cfg, u, id).0
                && Fill(cfg, u, id).0.done == u.done)
  {
    hide Fill, Finish, Enumerates, OwnershipOk, DiskOk, WindowOk, CacheOk, QueueOk;
    var p := s.peers[id];
    ReceiveKeepsPeer(cfg, p, i, begin, block);
    var p' := Adjust(cfg, ReceiveBlock(p, i, begin, block));
    var t := SetPeer(s, id, p');
    if PieceComplete(p', i) {
      FinishKeepsInv(cfg, s, t, id, i, order, writeOk);
      FinishHasPeer(cfg, t, id, i, order, writeOk);
      FillKeepsInv(cfg, Finish(cfg, t, id, i, order, writeOk), id);
    } else {
      InvSetPeer(cfg, s, id, p');
      FillKeepsInv(cfg, t, id);
    }
  }

  lemma FinishHasPeer(cfg: Config, t: State, id: nat, i: nat, order: seq<nat>, writeOk: bool)
    requires id in t.peers && Enumerates(order, t.peers[id].blocks, i)
    ensures id in Finish(cfg, t, id, i, order, writeOk).peers
  {
  }

  /** Exactly the pieces in the session's queue are free again; what others own and what is done stays. */
  ghost predicate Freed(s: State, s': State, id: nat)
    requires id in s.peers
  {
    && s'.done == s.done && s'.disk == s.disk
    && (forall i :: i in s'.taken <==> i in s.taken && i !in s.peers[id].queued)
    && (forall i :: i in s.peers[id].queued ==> i in s.taken)
    && (forall other :: other in s.peers && other != id ==> other in s'.peers && s'.peers[other] == s.peers[other])
  }

  lemma ReleaseFrees(cfg: Config, s: State, id: nat)
    requires Inv(cfg, s) && id in s.peers
    ensures Freed(s, ReleaseAll(s, id), id)
  {
    hide PeerOk, DiskOk;
    forall i | i in s.peers[id].queued ensures i in s.taken {
      assert Owns(s, id, i);
    }
  }

  lemma ReleaseKeepsInv(cfg: Config, s: State, id: nat)
    requires Inv(cfg, s) && id in s.peers
    ensures Inv(cfg, ReleaseAll(s, id))
  {
    hide OwnershipOk, NumBlocks;
    OwnershipReleaseAll(s, id);
    assert PeerOk(cfg, s.peers[id]);
    PeerOkWeaken(cfg, s.peers[id], s.peers[id].(queued := []));
  }

  /** A choke frees exactly the pieces of the session, and drops its queue, requests and cache. */
  lemma ChokeKeepsInv(cfg: Config, s: State, id: nat)
    requires Inv(cfg, s) && id in s.peers
    ensures Inv(cfg, OnChoke(s, id)) && Freed(s, OnChoke(s, id), id)
    ensures var p := OnChoke(s, id).peers[id]; p.choked && p.queued == [] && p.inFlight == {} && p.blocks == map[]
  {
    hide OwnershipOk, CacheOk, QueueOk;
    ReleaseKeepsInv(cfg, s, id);
    ReleaseFrees(cfg, s, id);
    var s' := ReleaseAll(s, id);
    var p := s'.peers[id].(choked := true, inFlight := {}, blocks := map[], need := map[], got := map[]);
    assert PeerOk(cfg, s.peers[id]);
    CleanPeer(cfg, p);
    InvSetPeer(cfg, s', id, p);
  }

  /** A session that leaves frees exactly its own pieces. */
  lemma LeaveKeepsInv(cfg: Config, s: State, id: nat)
    requires Inv(cfg, s) && id in s.peers
    ensures var t := ReleaseAll(s, id);
            var s' := t.(peers := t.peers - {id});
            Inv(cfg, s') && Freed(s, s', id)
  {
    hide PeerOk, OwnershipOk;
    ReleaseKeepsInv(cfg, s, id);
    ReleaseFrees(cfg, s, id);
    var s' := ReleaseAll(s, id);
    OwnershipSame(s', s'.(peers := s'.peers - {id}));
  }

  /** Changes to a session that touch neither its queue nor its cache. */
  lemma PeerChangeKeepsInv(cfg: Config, s: State, id: nat, p: Peer)
    requires Inv(cfg, s) && id in s.peers && WindowOk(p)
    requires var o := s.peers[id];
             p.blocks == o.blocks && p.need == o.need && p.got == o.got && p.inFlight <= o.inFlight && p.queued == o.queued
    ensures Inv(cfg, SetPeer(s, id, p))
  {
    hide OwnershipOk, DiskOk, WindowOk, CacheOk, QueueOk;
    assert PeerOk(cfg, s.peers[id]);
    PeerOkWeaken(cfg, s.peers[id], p);
    InvSetPeer(cfg, s, id, p);
  }

  lemma WindowKept(cfg: Config, s: State, id: nat, fewer: set<Key>)
    requires Inv(cfg, s) && id in s.peers && fewer <= s.peers[id].inFlight
    ensures WindowOk(s.peers[id]) && WindowOk(s.peers[id].(inFlight := fewer))
  {
    hide OwnershipOk, DiskOk, CacheOk, QueueOk;
    assert PeerOk(cfg, s.peers[id]);
    CardLe(fewer, s.peers[id].inFlight);
  }

  lemma InterestKeepsInv(cfg: Config, s: State, id: nat)
    requires ValidConfig(cfg) && Inv(cfg, s) && id in s.peers
    ensures Inv(cfg, Interest(cfg, s, id)) && Interest(cfg, s, id).done == s.done && id in Interest(cfg, s, id).peers
  {
    hide Inv, Eligible;
    WindowKept(cfg, s, id, s.peers[id].inFlight);
    PeerChangeKeepsInv(cfg, s, id, s.peers[id].(interested := true));
  }

  lemma HaveKeepsInv(cfg: Config, s: State, id: nat, more: set<nat>)
    requires ValidConfig(cfg) && Inv(cfg, s) && id in s.peers
    ensures Inv(cfg, OnHave(cfg, s, id, more)) && OnHave(cfg, s, id, more).done == s.done
  {
    hide Inv, Interest, FillIfUnchoked, WindowOk;
    var p := s.peers[id];
    var p' := p.(have := p.have + (set i | i in more && i < PieceCount(cfg.layout)));
    WindowKept(cfg, s, id, p.inFlight);
    SameWindow(p, p');
    PeerChangeKeepsInv(cfg, s, id, p');
    InterestKeepsInv(cfg, SetPeer(s, id, p'), id);
    FillIfKeepsInv(cfg, Interest(cfg, SetPeer(s, id, p'), id), id);
  }

  lemma SameWindow(p: Peer, p': Peer)
    requires WindowOk(p) && p'.window == p.window && p'.inFlight == p.inFlight
    ensures WindowOk(p')
  {
  }

  lemma UnchokeKeepsInv(cfg: Config, s: State, id: nat)
    requires ValidConfig(cfg) && Inv(cfg, s) && id in s.peers
    ensures Inv(cfg, OnUnchoke(cfg, s, id)) && OnUnchoke(cfg, s, id).done == s.done
  {
    hide Inv, Interest, Fill, WindowOk;
    var p := s.peers[id];
    WindowKept(cfg, s, id, p.inFlight);
    SameWindow(p, p.(choked := false));
    PeerChangeKeepsInv(cfg, s, id, p.(choked := false));
    var s1 := SetPeer(s, id, p.(choked := false));
    InterestKeepsInv(cfg, s1, id);
    FillKeepsInv(cfg, Interest(cfg, s1, id), id);
  }

  lemma SuggestKeepsInv(cfg: Config, s: State, id: nat, i: nat)
    requires ValidConfig(cfg) && Inv(cfg, s) && id in s.peers
    ensures Inv(cfg, OnSuggest(cfg, s, id, i)) && OnSuggest(cfg, s, id, i).done == s.done
  {
    hide OwnershipOk, PeerOk, NumBlocks, AllWantedDone;
    if OnSuggest(cfg, s, id, i) != s {
      OwnershipTake(cfg, s, id, i);
      TakeKeepsPeer(cfg, s.peers[id], i);
    }
  }

  /** The window grows exactly while it is adaptive, three quarters full and below 256, by a quarter or up to 256. */
  lemma GrowsWhenBusy(cfg: Config, p: Peer)
    requires WindowOk(p)
    ensures var q := Adjust(cfg, p);
            && WindowOk(q) && q == p.(window := q.window) && p.window <= q.window <= p.window + p.window / 4
            && (q.window > p.window ==> q.window == if p.window + p.window / 4 < 256 then p.window + p.window / 4 else 256)
            && (q.window > p.window <==> cfg.fixedWindow.None? && 4 * |p.inFlight| >= 3 * p.window && p.window < PIPELINE_MAX)
  {
  }

  /** Shrinking halves the window at most and touches nothing else but the stall counter. */
  lemma ShrinkKeepsWindow(cfg: Config, p: Peer, stalled: bool)
    requires WindowOk(p)
    ensures var q := Shrink(cfg, p, stalled);
            && WindowOk(q) && WindowOk(q.(inFlight := {})) && q == p.(window := q.window, stale := q.stale)
            && q.window <= p.window && p.window <= 2 * q.window + 1
            && (q.window < p.window ==> stalled && p.stale >= 3 && q.stale == 0)
  {
  }

  lemma ExpireKeeps(p: Peer, overdue: bool)
    requires WindowOk(p) && WindowOk(p.(inFlight := {}))
    ensures var q := Expire(p, overdue);
            && WindowOk(q) && q.inFlight <= p.inFlight && q == p.(inFlight := q.inFlight, asked := q.asked)
  {
  }

  lemma TickKeepsInv(cfg: Config, s: State, id: nat, stalled: bool, overdue: bool)
    requires ValidConfig(cfg) && Inv(cfg, s) && id in s.peers
    ensures Inv(cfg, OnTick(cfg, s, id, stalled, overdue)) && OnTick(cfg, s, id, stalled, overdue).done == s.done
  {
    hide Inv, FillIfUnchoked, Shrink, Expire, WindowOk;
    var p := Shrink(cfg, s.peers[id], stalled);
    var p' := Expire(p, overdue);
    WindowKept(cfg, s, id, s.peers[id].inFlight);
    ShrinkKeepsWindow(cfg, s.peers[id], stalled);
    ExpireKeeps(p, overdue);
    PeerChangeKeepsInv(cfg, s, id, p');
    FillIfKeepsInv(cfg, SetPeer(s, id, p'), id);
  }

  lemma JoinKeepsInv(cfg: Config, s: State, id: nat, held: set<nat>, choked: bool, interested: bool)
    requires ValidConfig(cfg) && Inv(cfg, s) && id !in s.peers
    ensures var s' := FillIfUnchoked(cfg, SetPeer(s, id, FreshPeer(cfg, held, choked, interested)), id);
            Inv(cfg, s') && s'.done == s.done
  {
    hide Inv, FillIfUnchoked, PeerOk;
    var p := FreshPeer(cfg, held, choked, interested);
    CleanPeer(cfg, p);
    InvSetPeer(cfg, s, id, p);
    FillIfKeepsInv(cfg, SetPeer(s, id, p), id);
  }

  /** Every step keeps the invariant and never unmarks a piece. */
  lemma StepKeepsInv(cfg: Config, s: State, e: Event)
    requires ValidConfig(cfg) && Inv(cfg, s) && Enabled(cfg, s, e)
    ensures Inv(cfg, Step(cfg, s, e)) && s.done <= Step(cfg, s, e).done
  {
    hide Inv, Enumerates, FillIfUnchoked, OnHave, OnUnchoke, OnSuggest, OnPiece, OnTick, WindowOk, FreshPeer;
    match e
    case Join(id, held, choked, interested) => JoinKeepsInv(cfg, s, id, held, choked, interested);
    case Leave(id) => LeaveKeepsInv(cfg, s, id);
    case Evict(id) =>
      ReleaseKeepsInv(cfg, s, id);
      var s' := ReleaseAll(s, id);
      WindowKept(cfg, s', id, s'.peers[id].inFlight);
      SameWindow(s'.peers[id], s'.peers[id].(listed := false));
      PeerChangeKeepsInv(cfg, s', id, s'.peers[id].(listed := false));
    case Haves(id, pieces) => HaveKeepsInv(cfg, s, id, pieces);
    case HaveNone(id) =>
      WindowKept(cfg, s, id, s.peers[id].inFlight);
      SameWindow(s.peers[id], s.peers[id].(have := {}));
      PeerChangeKeepsInv(cfg, s, id, s.peers[id].(have := {}));
    case Choked(id) => ChokeKeepsInv(cfg, s, id);
    case Unchoked(id) => UnchokeKeepsInv(cfg, s, id);
    case Suggested(id, i) => SuggestKeepsInv(cfg, s, id, i);
    case Rejected(id, i, begin) =>
      var p := s.peers[id];
      WindowKept(cfg, s, id, p.inFlight - {(i, begin)});
      SameWindow(p.(inFlight := p.inFlight - {(i, begin)}), p.(inFlight := p.inFlight - {(i, begin)}, stale := p.stale + 1));
      PeerChangeKeepsInv(cfg, s, id, p.(inFlight := p.inFlight - {(i, begin)}, stale := p.stale + 1));
    case Received(id, i, begin, block, order, writeOk) => PieceKeepsInv(cfg, s, id, i, begin, block, order, writeOk);
    case Tick(id, stalled, overdue) => TickKeepsInv(cfg, s, id, stalled, overdue);
    case Select(wanted) => SettingsKeepInv(cfg, s, s.(wanted := wanted));
    case Seek(playhead) => SettingsKeepInv(cfg, s, s.(playhead := playhead));
    case Verifying(on) => SettingsKeepInv(cfg, s, s.(verifying := on));
  }

  lemma SettingsKeepInv(cfg: Config, s: State, s': State)
    requires Inv(cfg, s)
    requires s' == s.(wanted := s'.wanted, playhead := s'.playhead, verifying := s'.verifying)
    ensures Inv(cfg, s')
  {
    hide PeerOk;
    OwnershipSame(s, s');
  }

  lemma StartInv(cfg: Config, done: map<nat, bytes>, wanted: Option<set<nat>>)
    requires DiskOk(cfg, Start(done, wanted))
    ensures Inv(cfg, Start(done, wanted))
  {
  }

  /**
   In every state any run can reach: peer queues are pairwise disjoint and `taken` is exactly
   their union, no queued piece is done, every done piece is on disk and hashes to its expected
   value, cached blocks and counters agree, and the done set has only grown.
   */
  lemma {:induction false} RunKeepsInv(cfg: Config, s: State, run: seq<Event>)
    requires ValidConfig(cfg) && Inv(cfg, s) && Possible(cfg, s, run)
    ensures Inv(cfg, After(cfg, s, run)) && s.done <= After(cfg, s, run).done
    decreases |run|
  {
    hide Inv, Step, Enabled;
    if run != [] {
      StepKeepsInv(cfg, s, run[0]);
      RunKeepsInv(cfg, Step(cfg, s, run[0]), run[1..]);
    }
  }

  /** From any start whose pieces on disk hash right, an empty one included, every run stays in order. */
  lemma EveryRun(cfg: Config, content: map<nat, bytes>, wanted: Option<set<nat>>, run: seq<Event>)
    requires ValidConfig(cfg) && DiskOk(cfg, Start(content, wanted)) && Possible(cfg, Start(content, wanted), run)
    ensures Inv(cfg, After(cfg, Start(content, wanted), run))
    ensures content.Keys <= After(cfg, Start(content, wanted), run).done
  {
    hide Inv, DiskOk;
    StartInv(cfg, content, wanted);
    RunKeepsInv(cfg, Start(content, wanted), run);
  }
}
