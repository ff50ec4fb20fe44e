/** What each event does to the session it is about, said of the fields themselves. */
module SwarmEffects {
  import opened Bytes
  import opened Layout
  import opened Swarm
  import opened SwarmInv
  import opened SwarmSteps
  import opened SwarmProgress
  import Playhead
  import Wire

  /** The peer holds the piece; it is missing here, wanted, and no check of existing data is running. */
  predicate Useful(cfg: Config, s: State, id: nat, i: nat)
    requires Valid(cfg.layout) && id in s.peers
  {
    && i < PieceCount(cfg.layout) && i in s.peers[id].have && i !in s.done
    && !s.verifying && (s.wanted.None? || i in s.wanted.value)
  }

  /** And no session has it in its queue. */
  ghost predicate Available(cfg: Config, s: State, id: nat, i: nat)
    requires Valid(cfg.layout) && id in s.peers
  {
    Useful(cfg, s, id, i) && forall other :: other in s.peers ==> i !in s.peers[other].queued
  }

  /** Only this session, the taken set and nothing else has changed. */
  predicate Apart(s: State, s': State, id: nat) {
    && s'.done == s.done && s'.disk == s.disk
    && s'.wanted == s.wanted && s'.playhead == s.playhead && s'.verifying == s.verifying
    && s'.peers.Keys == s.peers.Keys + {id}
    && (forall other :: other in s.peers && other != id ==> s'.peers[other] == s.peers[other])
  }

  lemma UsefulIs(cfg: Config, s: State, id: nat, i: nat)
    requires Valid(cfg.layout) && id in s.peers && i < PieceCount(cfg.layout)
    ensures Useful(cfg, s, id, i) <==> Eligible(s, id, i)
    ensures Useful(cfg, s, id, i) ==> !AllWantedDone(cfg, s)
  {
    hide PieceCount;
  }

  lemma AvailableIsFree(cfg: Config, s: State, id: nat, i: nat)
    requires Inv(cfg, s) && ValidConfig(cfg) && id in s.peers && Available(cfg, s, id, i)
    ensures i !in s.taken && i < PieceCount(cfg.layout) && Eligible(s, id, i)
  {
    hide PeerOk, DiskOk, PieceCount;
    assert forall other :: !Owns(s, other, i);
  }

  /** A fill of an unchoked, interested session leaves nothing outstanding only for want of pieces. */
  lemma FillStarts(cfg: Config, s: State, id: nat, i: nat)
    requires ValidConfig(cfg) && Inv(cfg, s) && id in s.peers && !s.peers[id].choked && s.peers[id].interested
    requires Available(cfg, s, id, i)
    ensures var (s', sent) := Fill(cfg, s, id);
            id in s'.peers && s'.peers[id].inFlight != {} && (s.peers[id].inFlight == {} ==> sent != [])
  {
    hide Inv, Fill, PieceCount, Eligible, Available, RealRequest, Wire.AllSendable, KeysAsked;
    AvailableIsFree(cfg, s, id, i);
    FillKeepsInv(cfg, s, id);
    FillAsks(cfg, s, id);
    NoStall(cfg, s, id);
    NothingAsked();
    var s' := Fill(cfg, s, id).0;
    if s'.peers[id].inFlight == {} {
      StillEligible(s, s', id, i);
      OthersLack(cfg, s, s', id, i);
    }
  }

  lemma StillEligible(s: State, s': State, id: nat, i: nat)
    requires id in s.peers && FillFrame(s, s', id) && Eligible(s, id, i)
    ensures Eligible(s', id, i)
  {
  }

  lemma OthersLack(cfg: Config, s: State, s': State, id: nat, i: nat)
    requires ValidConfig(cfg) && id in s.peers && FillFrame(s, s', id) && Available(cfg, s, id, i)
    ensures !(exists other :: other != id && Owns(s', other, i))
  {
    hide PieceCount;
  }

  /** Interest is declared exactly when something useful is there, and never taken back. */
  lemma InterestEffect(cfg: Config, s: State, id: nat)
    requires Valid(cfg.layout) && id in s.peers
    ensures var s' := Interest(cfg, s, id);
            && Apart(s, s', id) && s'.taken == s.taken && s'.peers[id] == s.peers[id].(interested := s'.peers[id].interested)
            && (s'.peers[id].interested <==> s.peers[id].interested || exists i :: Useful(cfg, s, id, i))
  {
    hide PieceCount, Eligible, AllWantedDone, Useful;
    forall i | 0 <= i < PieceCount(cfg.layout) ensures Useful(cfg, s, id, i) <==> Eligible(s, id, i) {
      UsefulIs(cfg, s, id, i);
    }
    forall i: nat | Useful(cfg, s, id, i) ensures 0 <= i < PieceCount(cfg.layout) && !AllWantedDone(cfg, s) {
      UsefulExists(cfg, s, id, i);
      UsefulIs(cfg, s, id, i);
    }
  }

  lemma UsefulExists(cfg: Config, s: State, id: nat, i: nat)
    requires Valid(cfg.layout) && id in s.peers && Useful(cfg, s, id, i)
    ensures i < PieceCount(cfg.layout)
  {
    hide PieceCount;
  }

  /** What a message leaves after interest and a fill: `p` is the session as the message made it. */
  ghost predicate Settles(cfg: Config, s: State, s': State, id: nat, p: Peer)
    requires Valid(cfg.layout)
  {
    && Apart(s, s', id) && id in s'.peers && s.taken <= s'.taken
    && (var t, q := SetPeer(s, id, p), s'.peers[id];
        && q.have == p.have && q.choked == p.choked && q.listed == p.listed && q.window == p.window
        && q.blocks == p.blocks && p.queued <= q.queued && p.inFlight <= q.inFlight
        && (q.interested <==> p.interested || exists i :: Useful(cfg, t, id, i))
        && (!q.choked && (exists i :: Available(cfg, t, id, i)) ==> q.inFlight != {}))
  }

  /** Interest, then a fill unless choked. */
  lemma InterestThenFill(cfg: Config, s: State, id: nat, p: Peer)
    requires ValidConfig(cfg) && Inv(cfg, SetPeer(s, id, p))
    ensures Settles(cfg, s, FillIfUnchoked(cfg, Interest(cfg, SetPeer(s, id, p), id), id), id, p)
    ensures var u := Interest(cfg, SetPeer(s, id, p), id);
            && id in u.peers
            && (!p.choked && p.inFlight == {} && (exists i :: Available(cfg, SetPeer(s, id, p), id, i)) ==> Fill(cfg, u, id).1 != [])
  {
    hide Inv, Interest, Fill, Useful, Available, PieceCount;
    var t := SetPeer(s, id, p);
    var u := Interest(cfg, t, id);
    InterestEffect(cfg, t, id);
    InterestKeepsInv(cfg, t, id);
    FillKeepsInv(cfg, u, id);
    if i :| Available(cfg, t, id, i) {
      AvailableIsUseful(cfg, t, u, id, i);
      if !p.choked {
        FillStarts(cfg, u, id, i);
      }
    }
  }

  lemma AvailableIsUseful(cfg: Config, s: State, u: State, id: nat, i: nat)
    requires Valid(cfg.layout) && id in s.peers && Available(cfg, s, id, i)
    requires id in u.peers && Apart(s, u, id) && u.peers[id] == s.peers[id].(interested := u.peers[id].interested)
    ensures Useful(cfg, s, id, i) && Available(cfg, u, id, i)
  {
    hide PieceCount;
  }

  // The events --------------------------------------------------------------------------------------

  /**
   After an unchoke the session is not choked, is interested if anything useful is there, and has
   something outstanding if any such piece is available.
   */
  lemma UnchokeEffect(cfg: Config, s: State, id: nat)
    requires ValidConfig(cfg) && Inv(cfg, s) && id in s.peers
    ensures Settles(cfg, s, Step(cfg, s, Unchoked(id)), id, s.peers[id].(choked := false))
    ensures s.peers[id].inFlight == {} && (exists i :: Available(cfg, s, id, i)) ==> Fill(cfg, Allowed(cfg, s, id), id).1 != []
  {
    hide Inv, Interest, Fill, WindowOk, Available, Settles;
    var p := s.peers[id].(choked := false);
    WindowKept(cfg, s, id, p.inFlight);
    SameWindow(s.peers[id], p);
    PeerChangeKeepsInv(cfg, s, id, p);
    InterestEffect(cfg, SetPeer(s, id, p), id);
    InterestThenFill(cfg, s, id, p);
    if i :| Available(cfg, s, id, i) {
      SameAvailable(cfg, s, id, p, i);
    }
  }

  lemma SameAvailable(cfg: Config, s: State, id: nat, p: Peer, i: nat)
    requires Valid(cfg.layout) && id in s.peers && p.have == s.peers[id].have && p.queued == s.peers[id].queued
    requires Available(cfg, s, id, i)
    ensures Available(cfg, SetPeer(s, id, p), id, i)
  {
    hide PieceCount;
  }

  /** New pieces of a peer: those that exist are added, and interest and requests follow. */
  lemma HaveEffect(cfg: Config, s: State, id: nat, more: set<nat>)
    requires ValidConfig(cfg) && Inv(cfg, s) && id in s.peers
    ensures var s' := Step(cfg, s, Haves(id, more));
            && id in s'.peers && (forall i :: i in s'.peers[id].have <==> i in s.peers[id].have || (i in more && i < PieceCount(cfg.layout)))
            && Settles(cfg, s, s', id, s.peers[id].(have := s'.peers[id].have))
  {
    hide Inv, Interest, Fill, WindowOk, Settles, PieceCount;
    var have := s.peers[id].have + (set i | i in more && i < PieceCount(cfg.layout));
    var p := s.peers[id].(have := have);
    WindowKept(cfg, s, id, p.inFlight);
    SameWindow(s.peers[id], p);
    PeerChangeKeepsInv(cfg, s, id, p);
    InterestThenFill(cfg, s, id, p);
    SettlesHave(cfg, s, Step(cfg, s, Haves(id, more)), id, p);
  }

  lemma SettlesHave(cfg: Config, s: State, s': State, id: nat, p: Peer)
    requires Valid(cfg.layout) && Settles(cfg, s, s', id, p)
    ensures id in s'.peers && s'.peers[id].have == p.have
  {
    hide Useful, Available;
  }

  /** A session that leaves, or is struck off the table, frees exactly its own pieces. */
  lemma LeaveEffect(cfg: Config, s: State, id: nat)
    requires ValidConfig(cfg) && Inv(cfg, s) && id in s.peers
    ensures var s' := Step(cfg, s, Leave(id)); Freed(s, s', id) && s'.peers.Keys == s.peers.Keys - {id}
    ensures var s' := Step(cfg, s, Evict(id));
            && Freed(s, s', id) && s'.peers.Keys == s.peers.Keys
            && s'.peers[id].queued == [] && !s'.peers[id].listed
            && s'.peers[id] == s.peers[id].(queued := [], listed := false)
  {
    hide Inv;
    ReleaseFrees(cfg, s, id);
  }

  /** A choke frees its pieces, and nothing of them is kept. */
  lemma ChokeEffect(cfg: Config, s: State, id: nat)
    requires ValidConfig(cfg) && Inv(cfg, s) && id in s.peers
    ensures var s' := Step(cfg, s, Choked(id));
            && Freed(s, s', id) && s'.peers.Keys == s.peers.Keys
            && (var p := s'.peers[id];
                && p.choked && p.queued == [] && p.inFlight == {} && p.blocks == map[] && p.need == map[] && p.got == map[]
                && p.have == s.peers[id].have && p.interested == s.peers[id].interested && p.window == s.peers[id].window)
  {
    hide Inv;
    ReleaseFrees(cfg, s, id);
  }

  /**
   A suggested piece is queued exactly when it is missing, in no queue, the queue is shorter than
   four, and not everything wanted is there; in all other cases nothing changes.
   */
  lemma SuggestEffect(cfg: Config, s: State, id: nat, i: nat)
    requires ValidConfig(cfg) && Inv(cfg, s) && id in s.peers
    ensures var s' := Step(cfg, s, Suggested(id, i));
            var open := match s.wanted
                        case None => exists j :: 0 <= j < PieceCount(cfg.layout) && j !in s.done
                        case Some(m) => m == {} || exists j :: j in m && j !in s.done;
            if open && i !in s.done && |s.peers[id].queued| < 4 && (forall other :: other in s.peers ==> i !in s.peers[other].queued)
            then && Apart(s, s', id) && s'.taken == s.taken + {i}
                 && s'.peers[id].queued == s.peers[id].queued + [i]
                 && s'.peers[id] == s.peers[id].(queued := s'.peers[id].queued, need := s'.peers[id].need)
                 && i in s'.peers[id].need
            else s' == s
  {
    hide PeerOk, DiskOk, PieceCount, NumBlocks;
    forall other | other in s.peers && i in s.peers[other].queued ensures i in s.taken {
      assert Owns(s, other, i);
    }
    if i in s.taken {
      var other :| Owns(s, other, i);
    }
    OpenIs(cfg, s);
  }

  lemma OpenIs(cfg: Config, s: State)
    requires Valid(cfg.layout)
    ensures AllWantedDone(cfg, s) <==>
            match s.wanted
            case None => forall j :: 0 <= j < PieceCount(cfg.layout) ==> j in s.done
            case Some(m) => m != {} && forall j :: j in m ==> j in s.done
  {
    hide PieceCount;
  }

  /** A new session: the pieces that exist, the whole window or the configured one within bounds, and a first fill. */
  lemma JoinEffect(cfg: Config, s: State, id: nat, held: set<nat>, choked: bool, interested: bool)
    requires ValidConfig(cfg) && Inv(cfg, s) && id !in s.peers
    ensures var s' := Step(cfg, s, Join(id, held, choked, interested));
            && Apart(s, s', id) && id in s'.peers && s.taken <= s'.taken
            && (var p := s'.peers[id];
                && (forall i :: i in p.have <==> i in held && i < PieceCount(cfg.layout))
                && p.choked == choked && p.interested == interested && p.listed && p.blocks == map[] && p.got == map[] && p.stale == 0
                && p.window == (match cfg.fixedWindow
                                case None => 256
                                case Some(w) => if w < 16 then 16 else if w > 256 then 256 else w)
                && (choked || !interested ==> p.queued == [] && p.inFlight == {} && !p.asked)
                && (!choked && interested && (exists i :: Useful(cfg, s', id, i) && forall other :: other in s.peers ==> i !in s.peers[other].queued)
                    ==> p.inFlight != {} && p.asked))
  {
    hide Inv, Fill, WindowOk, PieceCount, PeerOk, Useful;
    var p := FreshPeer(cfg, held, choked, interested);
    var t := Joined(cfg, s, id, held, choked, interested);
    CleanPeer(cfg, p);
    InvSetPeer(cfg, s, id, p);
    FillKeepsInv(cfg, t, id);
    FillAsks(cfg, t, id);
    if choked || !interested {
      ChokedFill(cfg, t, id);
    }
    var s' := Step(cfg, s, Join(id, held, choked, interested));
    if !choked && interested {
      forall i | Useful(cfg, s', id, i) && (forall other :: other in s.peers ==> i !in s.peers[other].queued)
        ensures Fill(cfg, t, id).0.peers[id].inFlight != {} && Fill(cfg, t, id).1 != [] {
        JoinAvailable(cfg, s, t, s', id, i);
        FillStarts(cfg, t, id, i);
      }
    }
  }

  lemma ChokedFill(cfg: Config, s: State, id: nat)
    requires Valid(cfg.layout) && id in s.peers && (s.peers[id].choked || !s.peers[id].interested)
    ensures Fill(cfg, s, id) == (s, [])
  {
  }

  lemma JoinAvailable(cfg: Config, s: State, t: State, s': State, id: nat, i: nat)
    requires Valid(cfg.layout) && id !in s.peers && id in t.peers && t.peers.Keys == s.peers.Keys + {id} && t.peers[id].queued == []
    requires forall other :: other in s.peers ==> t.peers[other] == s.peers[other] && i !in s.peers[other].queued
    requires id in s'.peers && FillFrame(t, s', id) && Useful(cfg, s', id, i)
    ensures Available(cfg, t, id, i)
  {
    hide PieceCount;
  }

  lemma NoneEffect(cfg: Config, s: State, id: nat)
    requires ValidConfig(cfg) && id in s.peers
    ensures var t := Step(cfg, s, HaveNone(id)); Apart(s, t, id) && t.taken == s.taken && t.peers[id] == s.peers[id].(have := {})
  {
  }

  /** A reject gives up that request and no other, and counts as a stalled tick. */
  lemma RejectEffect(cfg: Config, s: State, id: nat, i: nat, begin: nat)
    requires ValidConfig(cfg) && id in s.peers
    ensures var t := Step(cfg, s, Rejected(id, i, begin));
            && Apart(s, t, id) && t.taken == s.taken
            && (var p, q := s.peers[id], t.peers[id];
                && (forall k :: k in q.inFlight <==> k in p.inFlight && k != (i, begin)) && q.stale == p.stale + 1
                && q == p.(inFlight := q.inFlight, stale := q.stale))
  {
  }

  /**
   A tick gives up overdue requests if some went out since the last block, forgets that they did, and
   remembers only those it sends itself; a session that may not ask is otherwise left as it is.
   */
  lemma TickEffect(cfg: Config, s: State, id: nat, stalled: bool, overdue: bool)
    requires ValidConfig(cfg) && Inv(cfg, s) && id in s.peers
    ensures var t := Step(cfg, s, Tick(id, stalled, overdue));
            && Apart(s, t, id)
            && (var p, q := s.peers[id], t.peers[id];
                var dropped := overdue && p.asked && p.inFlight != {};
                && q.window == Shrink(cfg, p, stalled).window && q.stale == Shrink(cfg, p, stalled).stale
                && q == p.(window := q.window, stale := q.stale, queued := q.queued, inFlight := q.inFlight, need := q.need, asked := q.asked)
                && (if dropped then q.asked <==> q.inFlight != {} else p.inFlight <= q.inFlight && (p.asked ==> q.asked))
                && (p.choked || !p.interested ==>
                      && t.taken == s.taken
                      && q == p.(window := q.window, stale := q.stale, inFlight := if dropped then {} else p.inFlight, asked := p.asked && !dropped)))
  {
    hide Inv, Fill, Batch, Shrink, WindowOk;
    var p, u := s.peers[id], Expired(cfg, s, id, stalled, overdue);
    WindowKept(cfg, s, id, p.inFlight);
    ShrinkKeepsWindow(cfg, p, stalled);
    ExpireKeeps(Shrink(cfg, p, stalled), overdue);
    PeerChangeKeepsInv(cfg, s, id, u.peers[id]);
    FillAsks(cfg, u, id);
    FillKeepsInv(cfg, u, id);
    BatchCounts(cfg, u.peers[id], Fill(cfg, u, id).0.peers[id], Fill(cfg, u, id).1);
    if p.choked || !p.interested {
      ChokedFill(cfg, u, id);
    }
  }

  lemma BatchCounts(cfg: Config, p: Peer, p': Peer, sent: seq<Wire.Message>)
    requires Batch(cfg, p, p', sent)
    ensures |p'.inFlight| == |p.inFlight| + |sent|
  {
  }

  /** Selection, playhead and the check of existing data touch no session. */
  lemma SettingsEffect(cfg: Config, s: State, wanted: Option<set<nat>>, playhead: Option<nat>, on: bool)
    requires ValidConfig(cfg)
    ensures Step(cfg, s, Select(wanted)) == s.(wanted := wanted) && Step(cfg, s, Seek(playhead)) == s.(playhead := playhead)
    ensures Step(cfg, s, Verifying(on)) == s.(verifying := on)
  {
  }

  // Received blocks --------------------------------------------------------------------------------

  /** A block of a piece that is not in the queue changes nothing. */
  lemma UnqueuedEffect(cfg: Config, s: State, e: Event)
    requires ValidConfig(cfg) && Enabled(cfg, s, e) && e.Received? && e.piece !in s.peers[e.id].queued
    ensures Step(cfg, s, e) == s
  {
    hide Enumerates;
  }

  /** The cached blocks of the piece, copied in this order, give something with the expected hash. */
  predicate Genuine(cfg: Config, cache: map<Key, bytes>, i: nat, order: seq<nat>)
    requires forall b :: b in order ==> (i, b) in cache
  {
    var data := Assemble(cache, i, Zeros(PieceLen(cfg.layout, i)), order);
    data.Some? && i < |cfg.hashes| && cfg.sha1(data.value) == cfg.hashes[i]
  }

  /**
   A block of a queued piece joins the cache, and the window grows if the requests left fill it. If it is the last of its piece, the piece leaves the
   cache instead, and is done exactly if its blocks assemble to something with the expected hash
   and the write succeeds; nothing else ever becomes done.
   */
  lemma ReceivedEffect(cfg: Config, s: State, id: nat, i: nat, begin: nat, block: bytes, order: seq<nat>, writeOk: bool)
    requires ValidConfig(cfg) && Inv(cfg, s) && id in s.peers && i in s.peers[id].queued
    requires Enumerates(order, s.peers[id].blocks[(i, begin) := block], i)
    ensures var s' := Step(cfg, s, Received(id, i, begin, block, order, writeOk));
            var cache := s.peers[id].blocks[(i, begin) := block];
            var complete := NumBlocks(cfg, i) > 0 && |KeysOf(cache, i)| >= NumBlocks(cfg, i);
            && id in s'.peers && s'.peers[id].stale == 0
            && s'.peers[id].window == Adjust(cfg, s.peers[id].(inFlight := s.peers[id].inFlight - {(i, begin)})).window
            && s'.peers[id].blocks == (if complete then map k | k in cache && k.0 != i :: cache[k] else cache)
            && (i in s'.done <==> complete && writeOk && Genuine(cfg, cache, i, order))
            && (forall j :: j != i ==> (j in s'.done <==> j in s.done))
  {
    hide Inv, Fill, Settled, Assemble, NumBlocks, PieceCount, PieceLen, KeysOf, Genuine;
    BlockReceived(cfg, s, id, i, begin, block, order, writeOk);
    SettledIs(cfg, s, id, i, begin, block, order, writeOk);
    CompleteIff(cfg, s, id, i, begin, block);
    FillKeepsInv(cfg, Settled(cfg, s, id, i, begin, block, order, writeOk), id);
    QueuedMissing(cfg, s, id, i);
  }

  lemma QueuedMissing(cfg: Config, s: State, id: nat, i: nat)
    requires Inv(cfg, s) && id in s.peers && i in s.peers[id].queued
    ensures i !in s.done
  {
    hide PeerOk, DiskOk;
    assert Owns(s, id, i);
  }

  /** With counters in step, a piece is complete when as many of its blocks are cached as it has. */
  lemma CompleteIff(cfg: Config, s: State, id: nat, i: nat, begin: nat, block: bytes)
    requires Inv(cfg, s) && id in s.peers && i in s.peers[id].queued
    ensures PieceComplete(Adjust(cfg, ReceiveBlock(s.peers[id], i, begin, block)), i) <==>
            NumBlocks(cfg, i) > 0 && |KeysOf(s.peers[id].blocks[(i, begin) := block], i)| >= NumBlocks(cfg, i)
  {
    hide NumBlocks, OwnershipOk, DiskOk, KeysOf, WindowOk, Adjust;
    var p := s.peers[id];
    assert PeerOk(cfg, p);
    ReceiveFields(cfg, p, i, begin, block);
    var r := ReceiveBlock(p, i, begin, block);
    AdjustBlocks(cfg, r);
  }

  lemma AdjustBlocks(cfg: Config, p: Peer)
    ensures Adjust(cfg, p) == p.(window := Adjust(cfg, p).window)
  {
  }

  lemma SettledIs(cfg: Config, s: State, id: nat, i: nat, begin: nat, block: bytes, order: seq<nat>, writeOk: bool)
    requires Valid(cfg.layout) && id in s.peers && Enumerates(order, s.peers[id].blocks[(i, begin) := block], i)
    ensures var cache := s.peers[id].blocks[(i, begin) := block];
            var complete := PieceComplete(Adjust(cfg, ReceiveBlock(s.peers[id], i, begin, block)), i);
            var u := Settled(cfg, s, id, i, begin, block, order, writeOk);
            && u.peers[id].stale == 0
            && u.peers[id].window == Adjust(cfg, s.peers[id].(inFlight := s.peers[id].inFlight - {(i, begin)})).window
            && u.peers[id].blocks == (if complete then map k | k in cache && k.0 != i :: cache[k] else cache)
            && (i in u.done <==> i in s.done || (complete && writeOk && Genuine(cfg, cache, i, order)))
            && (forall j :: j != i ==> (j in u.done <==> j in s.done))
  {
    hide Assemble, Adjust, PieceComplete, PieceLen;
    AdjustBlocks(cfg, ReceiveBlock(s.peers[id], i, begin, block));
    SameAdjust(cfg, ReceiveBlock(s.peers[id], i, begin, block), s.peers[id].(inFlight := s.peers[id].inFlight - {(i, begin)}));
  }

  lemma SameAdjust(cfg: Config, p: Peer, q: Peer)
    requires p.window == q.window && p.inFlight == q.inFlight
    ensures Adjust(cfg, p).window == Adjust(cfg, q).window
  {
  }

  // Picking ------------------------------------------------------------------------------------------

  /**
   The piece assigned is useful and free, and comes before every other such piece: held by fewer
   connected peers, or nearer to the playhead as `Along` says. Nothing is assigned only if there is none.
   */
  lemma PickMeans(cfg: Config, s: State, id: nat)
    requires Valid(cfg.layout) && id in s.peers
    requires Total(cfg.layout) <= U64_MAX && (s.playhead.Some? ==> s.playhead.value <= U64_MAX)
    ensures match Pick(cfg, s, id)
            case None => forall j :: Useful(cfg, s, id, j) ==> j in s.taken
            case Some(i) =>
              && Useful(cfg, s, id, i) && i !in s.taken
              && forall j :: Useful(cfg, s, id, j) && j !in s.taken && j != i ==>
                   Playhead.Along(cfg.layout, s.playhead, Playhead.Candidate(i, |Holders(s, i)|), Playhead.Candidate(j, |Holders(s, j)|))
  {
    hide PieceCount, Eligible, Pick, Useful, Playhead.Before, Playhead.Along, Playhead.Precedes, Total;
    PickIsBest(cfg, s, id);
    forall j: nat | j < PieceCount(cfg.layout) ensures Useful(cfg, s, id, j) <==> Eligible(s, id, j) {
      UsefulIs(cfg, s, id, j);
    }
    forall j: nat | Useful(cfg, s, id, j) ensures j < PieceCount(cfg.layout) {
      UsefulExists(cfg, s, id, j);
    }
    if Pick(cfg, s, id).Some? {
      var i := Pick(cfg, s, id).value;
      var a := Playhead.Candidate(i, Rarity(s, i));
      forall j | Useful(cfg, s, id, j) && j !in s.taken && j != i
        ensures Playhead.Along(cfg.layout, s.playhead, a, Playhead.Candidate(j, |Holders(s, j)|)) {
        var b := Playhead.Candidate(j, Rarity(s, j));
        Playhead.BeforeIsPrecedes(cfg.layout, s.playhead, a, b);
        Playhead.PrecedesAlong(cfg.layout, s.playhead, a, b);
      }
    }
  }

  // Rarity -------------------------------------------------------------------------------------------

  /** How many listed sessions hold a piece: nobody among none, and one more for each that does. */
  lemma RarityIs(s: State, id: nat, i: nat)
    requires id in s.peers
    ensures Rarity(s, i) == Rarity(s.(peers := s.peers - {id}), i) + (if s.peers[id].listed && i in s.peers[id].have then 1 else 0)
    ensures s.peers.Keys == {id} ==> Rarity(s.(peers := s.peers - {id}), i) == 0
  {
    var t := s.(peers := s.peers - {id});
    var one: set<nat> := if s.peers[id].listed && i in s.peers[id].have then {id} else {};
    assert id !in Holders(t, i);
    assert Holders(s, i) == Holders(t, i) + one;
    Disjoint(Holders(t, i), one);
    if s.peers.Keys == {id} {
      assert t.peers == map[];
      assert Holders(t, i) == {};
    }
  }

  lemma Disjoint(a: set<nat>, b: set<nat>)
    requires a !! b
    ensures |a + b| == |a| + |b|
  {
  }
}
