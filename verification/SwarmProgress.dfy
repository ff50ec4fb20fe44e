/** The request pipeline never stalls, never overruns its window, and asks only for real blocks. */
module SwarmProgress {
  import opened Bytes
  import opened Layout
  import opened Swarm
  import opened SwarmInv
  import opened SwarmSteps
  import Wire

  lemma {:induction false} FillLoopStops(cfg: Config, s: State, id: nat)
    requires Valid(cfg.layout) && id in s.peers
    ensures TurnOf(cfg, FillLoop(cfg, s, id).0, id) == Stop
    decreases Slack(s, id)
  {
    hide TurnOf, Slack, NumBlocks;
    SlackFalls(cfg, s, id);
    match TurnOf(cfg, s, id)
    case Stop =>
    case Take(i) => FillLoopStops(cfg, TakePiece(cfg, s, id, i), id);
    case Ask(i, k) => FillLoopStops(cfg, AskBlock(s, id, i, k), id);
  }

  /** When nothing is left to ask for, every block of every queued piece is cached or outstanding. */
  lemma {:induction false} NothingMissing(cfg: Config, p: Peer, q: seq<nat>, i: nat, k: nat)
    requires NextBlock(cfg, p, q).None? && i in q && k < NumBlocks(cfg, i)
    ensures BlockKey(i, k) in p.blocks || BlockKey(i, k) in p.inFlight
    decreases |q|
  {
    hide NumBlocks;
    if q[0] != i {
      NothingMissing(cfg, p, q[1..], i, k);
    }
  }

  /** Every block of the piece before the `n`-th is cached or outstanding. */
  ghost predicate NothingBefore(p: Peer, i: nat, n: nat) {
    forall j :: 0 <= j < n ==> BlockKey(i, j) in p.blocks || BlockKey(i, j) in p.inFlight
  }

  /** The next block to ask for is the first one missing of the first piece in the queue that misses any. */
  lemma {:induction false} NextIsFirst(cfg: Config, p: Peer, q: seq<nat>)
    ensures match NextBlock(cfg, p, q)
            case None => forall x :: 0 <= x < |q| ==> NothingBefore(p, q[x], NumBlocks(cfg, q[x]))
            case Some((i, k)) =>
              && k < NumBlocks(cfg, i) && BlockKey(i, k) !in p.blocks && BlockKey(i, k) !in p.inFlight && NothingBefore(p, i, k)
              && exists x :: 0 <= x < |q| && q[x] == i && forall y :: 0 <= y < x ==> NothingBefore(p, q[y], NumBlocks(cfg, q[y]))
    decreases |q|
  {
    hide NumBlocks, BlockKey, MissingBlock, NothingBefore;
    if q != [] {
      FirstMissing(p, q[0], 0, NumBlocks(cfg, q[0]));
      BeforeIs(p, q[0], NumBlocks(cfg, q[0]));
      if MissingBlock(p, q[0], 0, NumBlocks(cfg, q[0])).None? {
        NextIsFirst(cfg, p, q[1..]);
        if NextBlock(cfg, p, q[1..]).Some? {
          var x :| 0 <= x < |q[1..]| && q[1..][x] == NextBlock(cfg, p, q[1..]).value.0
                   && forall y :: 0 <= y < x ==> NothingBefore(p, q[1..][y], NumBlocks(cfg, q[1..][y]));
          assert q[x + 1] == q[1..][x];
          forall y | 0 <= y < x + 1 ensures NothingBefore(p, q[y], NumBlocks(cfg, q[y])) {
            if y > 0 {
              assert q[1..][y - 1] == q[y];
            }
          }
        } else {
          forall y | 0 <= y < |q| ensures NothingBefore(p, q[y], NumBlocks(cfg, q[y])) {
            if y > 0 {
              assert q[1..][y - 1] == q[y];
            }
          }
        }
      } else {
        BeforeIs(p, q[0], MissingBlock(p, q[0], 0, NumBlocks(cfg, q[0])).value);
      }
    }
  }

  lemma BeforeIs(p: Peer, i: nat, n: nat)
    ensures NothingBefore(p, i, n) <==> forall j :: 0 <= j < n ==> BlockKey(i, j) in p.blocks || BlockKey(i, j) in p.inFlight
  {
  }

  lemma {:induction false} FirstMissing(p: Peer, i: nat, k: nat, n: nat)
    requires k <= n
    ensures match MissingBlock(p, i, k, n)
            case None => forall j :: k <= j < n ==> BlockKey(i, j) in p.blocks || BlockKey(i, j) in p.inFlight
            case Some(r) => k <= r < n && BlockKey(i, r) !in p.blocks && BlockKey(i, r) !in p.inFlight
                            && forall j :: k <= j < r ==> BlockKey(i, j) in p.blocks || BlockKey(i, j) in p.inFlight
    decreases n - k
  {
    hide BlockKey;
    if k < n {
      FirstMissing(p, i, k + 1, n);
    }
  }

  function KeysBelow(i: nat, n: nat): set<Key> {
    if n == 0 then {} else KeysBelow(i, n - 1) + {BlockKey(i, n - 1)}
  }

  lemma {:induction false} KeysBelowSize(i: nat, n: nat)
    ensures |KeysBelow(i, n)| == n
    ensures forall key :: key in KeysBelow(i, n) ==> exists k :: 0 <= k < n && key == BlockKey(i, k)
    ensures forall k :: 0 <= k < n ==> BlockKey(i, k) in KeysBelow(i, n)
  {
    if n > 0 {
      KeysBelowSize(i, n - 1);
    }
  }

  /** A queued piece that exists always lacks a block. */
  lemma QueuedLacksBlock(cfg: Config, p: Peer, i: nat) returns (k: nat)
    requires PeerOk(cfg, p) && i in p.queued && NumBlocks(cfg, i) > 0
    ensures k < NumBlocks(cfg, i) && BlockKey(i, k) !in p.blocks
  {
    hide NumBlocks, Hollow, BlockKey;
    var n := NumBlocks(cfg, i);
    if forall k :: 0 <= k < n ==> BlockKey(i, k) in p.blocks {
      KeysBelowSize(i, n);
      AllInCache(p, i, n);
      CardLe(KeysBelow(i, n), KeysOf(p.blocks, i));
      assert false;
    } else {
      k :| 0 <= k < n && BlockKey(i, k) !in p.blocks;
    }
  }

  lemma {:induction false} AllInCache(p: Peer, i: nat, n: nat)
    requires forall k :: 0 <= k < n ==> BlockKey(i, k) in p.blocks
    ensures KeysBelow(i, n) <= KeysOf(p.blocks, i)
  {
    if n > 0 {
      AllInCache(p, i, n - 1);
      assert BlockKey(i, n - 1) in p.blocks;
    }
  }

  /** A queue of pieces without blocks is short of its capacity. */
  lemma HollowHasRoom(cfg: Config, p: Peer)
    requires PeerOk(cfg, p) && forall i :: i in p.queued ==> NumBlocks(cfg, i) == 0
    ensures |p.queued| < Capacity(cfg, p)
  {
    hide NumBlocks;
    AllHollow(cfg, p.queued);
    if p.queued != [] {
      assert p.queued[0] in p.queued;
      assert DivCeil(p.window, 1) == p.window;
    }
  }

  lemma {:induction false} AllHollow(cfg: Config, q: seq<nat>)
    requires NoRepeats(q) && forall i :: i in q ==> NumBlocks(cfg, i) == 0
    ensures |q| == |Hollow(cfg, q)|
  {
    hide NumBlocks;
    if q == [] {
      assert Hollow(cfg, q) == {};
    } else {
      AllHollow(cfg, q[1..]);
      assert q == [q[0]] + q[1..];
      assert Hollow(cfg, q) == Hollow(cfg, q[1..]) + {q[0]};
      assert q[0] !in q[1..];
    }
  }

  /** With nothing outstanding, the loop stops only for want of pieces. */
  lemma StopMeansNoPiece(cfg: Config, s: State, id: nat)
    requires ValidConfig(cfg) && Inv(cfg, s) && id in s.peers
    requires TurnOf(cfg, s, id) == Stop && s.peers[id].inFlight == {}
    ensures forall i :: i in s.peers[id].queued ==> i >= PieceCount(cfg.layout)
    ensures Pick(cfg, s, id).None?
  {
    hide OwnershipOk, DiskOk, CacheOk, QueueOk, NextBlock, Pick, Capacity, NumBlocks, PieceCount;
    var p := s.peers[id];
    assert PeerOk(cfg, p);
    forall i | i in p.queued ensures NumBlocks(cfg, i) == 0 && i >= PieceCount(cfg.layout) {
      BlocksExist(cfg, i);
      if NumBlocks(cfg, i) > 0 {
        var k := QueuedLacksBlock(cfg, p, i);
        if NextBlock(cfg, p, p.queued).None? {
          NothingMissing(cfg, p, p.queued, i, k);
        }
      }
    }
    HollowHasRoom(cfg, p);
    NextNeedsBlocks(cfg, p);
  }

  lemma NextNeedsBlocks(cfg: Config, p: Peer)
    requires forall i :: i in p.queued ==> NumBlocks(cfg, i) == 0
    ensures NextBlock(cfg, p, p.queued).None?
  {
    hide NumBlocks;
  }

  /**
   No stall: when `fill_pipeline` returns for an unchoked, interested session with nothing
   outstanding, the session owns no piece that exists, and every piece the peer holds that is
   missing and wanted is in another session's queue. This holds whatever was suggested.
   */
  lemma NoStall(cfg: Config, s: State, id: nat)
    requires ValidConfig(cfg) && Inv(cfg, s) && id in s.peers
    requires !s.peers[id].choked && s.peers[id].interested
    ensures var s' := Fill(cfg, s, id).0;
            id in s'.peers && s'.peers[id].inFlight == {} ==>
              && (forall i :: i in s'.peers[id].queued ==> i >= PieceCount(cfg.layout))
              && (forall i :: 0 <= i < PieceCount(cfg.layout) && Eligible(s', id, i) ==>
                    exists id' :: id' != id && Owns(s', id', i))
  {
    hide FillLoop, RegisterAll, TurnOf, DiskOk, CacheOk, QueueOk, Eligible, PieceCount;
    FillKeepsInv(cfg, s, id);
    RegisterAgain(cfg, s, id);
    var s' := Fill(cfg, s, id).0;
    if s'.peers[id].inFlight == {} {
      assert PeerOk(cfg, s'.peers[id]);
      assert MayFill(s.peers[id]) by { NothingOutstanding(cfg, s, s', id); }
      FillLoopStops(cfg, s, id);
      NothingSentThen(cfg, s, id);
      StopMeansNoPiece(cfg, s', id);
      PickIsBest(cfg, s', id);
      forall i | 0 <= i < PieceCount(cfg.layout) && Eligible(s', id, i) ensures exists id' :: id' != id && Owns(s', id', i) {
        assert i in s'.taken;
        var id' :| Owns(s', id', i);
      }
    }
  }

  /** While existing data is being checked no session takes on a piece, and none declares interest. */
  lemma VerifyingTakesNone(cfg: Config, s: State, id: nat)
    requires ValidConfig(cfg) && Inv(cfg, s) && id in s.peers && s.verifying
    ensures Fill(cfg, s, id).0.taken == s.taken && Fill(cfg, s, id).0.peers[id].queued == s.peers[id].queued
    ensures Interest(cfg, s, id) == s
  {
    hide FillLoop, RegisterAll, Inv, PieceCount;
    RegisterAgain(cfg, s, id);
    LoopTakesNone(cfg, s, id);
    assert forall i :: !Eligible(s, id, i);
  }

  lemma {:induction false} LoopTakesNone(cfg: Config, s: State, id: nat)
    requires ValidConfig(cfg) && id in s.peers && s.verifying
    ensures FillLoop(cfg, s, id).0.taken == s.taken
    ensures FillLoop(cfg, s, id).0.peers[id].queued == s.peers[id].queued
    decreases Slack(s, id)
  {
    hide Slack, NextBlock, Pick, Eligible, NumBlocks, Capacity;
    SlackFalls(cfg, s, id);
    match TurnOf(cfg, s, id)
    case Stop =>
    case Take(i) => PickWantsNone(cfg, s, id);
    case Ask(i, k) => LoopTakesNone(cfg, AskBlock(s, id, i, k), id);
  }

  lemma PickWantsNone(cfg: Config, s: State, id: nat)
    requires ValidConfig(cfg) && id in s.peers && s.verifying
    ensures Pick(cfg, s, id).None?
  {
    hide Pick, PieceCount;
    PickIsBest(cfg, s, id);
  }

  /** A fill that leaves nothing outstanding asked for nothing. */
  lemma NothingSentThen(cfg: Config, s: State, id: nat)
    requires ValidConfig(cfg) && Inv(cfg, s) && id in s.peers && MayFill(s.peers[id])
    requires Fill(cfg, s, id).0.peers[id].inFlight == {}
    ensures Fill(cfg, s, id).0 == FillLoop(cfg, s, id).0
  {
    hide Inv, FillLoop, RegisterAll, RealRequest, Wire.AllSendable, KeysAsked;
    RegisterAgain(cfg, s, id);
    FillRequests(cfg, s, id);
  }

  lemma NothingOutstanding(cfg: Config, s: State, s': State, id: nat)
    requires Inv(cfg, s) && id in s.peers && id in s'.peers && FillFrame(s, s', id) && s'.peers[id].inFlight == {}
    ensures |s.peers[id].inFlight| < s.peers[id].window
  {
    hide OwnershipOk, DiskOk, CacheOk, QueueOk;
    assert PeerOk(cfg, s.peers[id]);
    assert s.peers[id].inFlight == {};
  }

  // Requests -----------------------------------------------------------------------------------------

  /** A request for block `k` of piece `i`, with its exact length. */
  predicate RealRequest(cfg: Config, m: Wire.Message) {
    && Valid(cfg.layout) && m.Request? && m.index < PieceCount(cfg.layout) && m.begin % Wire.BLOCK_SIZE == 0
    && m.begin < PieceLen(cfg.layout, m.index)
    && m.length == Min(PieceLen(cfg.layout, m.index) - m.begin, Wire.BLOCK_SIZE) > 0
  }

  lemma RequestIsReal(cfg: Config, i: nat, k: nat)
    requires ValidConfig(cfg) && k < NumBlocks(cfg, i)
    ensures RealRequest(cfg, RequestOf(cfg, i, k)) && RequestOf(cfg, i, k).index == i && RequestOf(cfg, i, k).begin == k * 16384
    ensures Wire.Sendable(RequestOf(cfg, i, k))
  {
    hide PieceCount;
    BlocksExist(cfg, i);
    DivCeilBounds(PieceLen(cfg.layout, i), Wire.BLOCK_SIZE);
    PieceBounds(cfg.layout, i);
  }

  function KeysAsked(ms: seq<Wire.Message>): set<Key> {
    set m | m in ms && m.Request? :: (m.index, m.begin)
  }

  /**
   What a batch of requests is to the session before and after: only blocks that exist, of
   queued pieces, none of them cached, each newly outstanding and asked for once, never beyond
   the window, and together a well-formed stream of messages.
   */
  ghost predicate Batch(cfg: Config, p: Peer, p': Peer, sent: seq<Wire.Message>) {
    && (forall m :: m in sent ==> RealRequest(cfg, m) && m.index in p'.queued && (m.index, m.begin) !in p.blocks)
    && Wire.AllSendable(sent)
    && p'.inFlight == p.inFlight + KeysAsked(sent)
    && |p'.inFlight| == |p.inFlight| + |sent|
    && |p'.inFlight| <= Max(|p.inFlight|, p.window)
  }

  lemma BatchAsk(cfg: Config, p: Peer, p': Peer, i: nat, k: nat, sent: seq<Wire.Message>)
    requires ValidConfig(cfg) && k < NumBlocks(cfg, i) && i in p'.queued && |p.inFlight| < p.window
    requires BlockKey(i, k) !in p.blocks && BlockKey(i, k) !in p.inFlight
    requires Batch(cfg, p.(inFlight := p.inFlight + {BlockKey(i, k)}), p', sent)
    ensures Batch(cfg, p, p', [RequestOf(cfg, i, k)] + sent)
  {
    hide NumBlocks, RealRequest, Wire.Sendable, PieceCount;
    RequestIsReal(cfg, i, k);
    FirstAsked(cfg, i, k, sent);
  }

  /** One fill asks for real blocks only, each once, within the window. */
  lemma {:induction false} FillRequests(cfg: Config, s: State, id: nat)
    requires ValidConfig(cfg) && Inv(cfg, s) && id in s.peers
    ensures var (s', sent) := FillLoop(cfg, s, id); Batch(cfg, s.peers[id], s'.peers[id], sent)
    decreases Slack(s, id)
  {
    hide Inv, TurnOf, Slack, NumBlocks, Batch, RequestOf;
    SlackFalls(cfg, s, id);
    TurnKeepsInv(cfg, s, id);
    AskIsNew(cfg, s, id);
    match TurnOf(cfg, s, id)
    case Stop =>
      EmptyBatch(cfg, s.peers[id]);
    case Take(i) =>
      FillRequests(cfg, TakePiece(cfg, s, id, i), id);
      SameBatch(cfg, s.peers[id], TakePiece(cfg, s, id, i).peers[id],
                FillLoop(cfg, s, id).0.peers[id], FillLoop(cfg, s, id).1);
    case Ask(i, k) =>
      var t := AskBlock(s, id, i, k);
      FillRequests(cfg, t, id);
      FillLoopKeepsInv(cfg, t, id);
      BatchAsk(cfg, s.peers[id], FillLoop(cfg, t, id).0.peers[id], i, k, FillLoop(cfg, t, id).1);
  }

  lemma EmptyBatch(cfg: Config, p: Peer)
    ensures Batch(cfg, p, p, [])
  {
  }

  lemma SameBatch(cfg: Config, p: Peer, q: Peer, p': Peer, sent: seq<Wire.Message>)
    requires q.blocks == p.blocks && q.inFlight == p.inFlight && q.window == p.window && Batch(cfg, q, p', sent)
    ensures Batch(cfg, p, p', sent)
  {
    hide RealRequest, Wire.AllSendable, KeysAsked;
  }

  lemma AskIsNew(cfg: Config, s: State, id: nat)
    requires Valid(cfg.layout) && id in s.peers
    ensures match TurnOf(cfg, s, id)
            case Ask(i, k) =>
              var p := s.peers[id];
              BlockKey(i, k) !in p.blocks && BlockKey(i, k) !in p.inFlight && |p.inFlight| < p.window
            case _ => true
  {
    hide Pick, NumBlocks;
  }

  lemma FirstAsked(cfg: Config, i: nat, k: nat, sent: seq<Wire.Message>)
    requires RequestOf(cfg, i, k).begin == k * Wire.BLOCK_SIZE
    ensures KeysAsked([RequestOf(cfg, i, k)] + sent) == {BlockKey(i, k)} + KeysAsked(sent)
    ensures ([RequestOf(cfg, i, k)] + sent)[1..] == sent
  {
    var all := [RequestOf(cfg, i, k)] + sent;
    assert all[0] in all;
    forall m | m in sent ensures m in all {}
  }

  /** The queue has room for enough pieces to fill the window and no more than that, within its bounds. */
  lemma QueueFillsWindow(cfg: Config, p: Peer)
    ensures var cap := Capacity(cfg, p);
            var perPiece := if p.queued == [] then 16 else Max(NumBlocks(cfg, p.queued[0]), 1);
            && 4 <= cap <= 64 && (cap < 64 ==> cap * perPiece >= p.window)
            && (cap > 4 ==> (cap - 1) * perPiece < p.window)
  {
    hide NumBlocks;
    var perPiece := if p.queued == [] then 16 else Max(NumBlocks(cfg, p.queued[0]), 1);
    DivCeilBounds(p.window, perPiece);
    if Capacity(cfg, p) < MAX_QUEUED_HARD {
      MulLe(DivCeil(p.window, perPiece), Capacity(cfg, p), perPiece);
    }
    if Capacity(cfg, p) > MAX_QUEUED {
      MulLe(Capacity(cfg, p) - 1, DivCeil(p.window, perPiece) - 1, perPiece);
    }
  }

  /** The same of a whole fill, which also remembers that requests went out. */
  lemma FillAsks(cfg: Config, s: State, id: nat)
    requires ValidConfig(cfg) && Inv(cfg, s) && id in s.peers
    ensures var (s', sent) := Fill(cfg, s, id);
            && id in s'.peers && Batch(cfg, s.peers[id], s'.peers[id], sent)
            && s'.peers[id].asked == (s.peers[id].asked || sent != [])
  {
    hide Inv, FillLoop, RegisterAll, RealRequest, Wire.AllSendable, KeysAsked;
    if MayFill(s.peers[id]) {
      RegisterAgain(cfg, s, id);
      FillRequests(cfg, s, id);
      FillKeepsInv(cfg, s, id);
      LoopKeepsAsked(cfg, s, id);
    } else {
      EmptyBatch(cfg, s.peers[id]);
    }
  }

  lemma {:induction false} LoopKeepsAsked(cfg: Config, s: State, id: nat)
    requires Valid(cfg.layout) && id in s.peers
    ensures var s' := FillLoop(cfg, s, id).0; id in s'.peers && s'.peers[id].asked == s.peers[id].asked
    decreases Slack(s, id)
  {
    hide TurnOf, Slack, NumBlocks, RequestOf;
    SlackFalls(cfg, s, id);
    match TurnOf(cfg, s, id)
    case Stop =>
    case Take(i) => LoopKeepsAsked(cfg, TakePiece(cfg, s, id, i), id);
    case Ask(i, k) => LoopKeepsAsked(cfg, AskBlock(s, id, i, k), id);
  }

  /**
   Requests that are overdue at a tick are dropped and asked anew exactly when requests went out
   since the last block. Otherwise each of them stays outstanding and none is sent again.
   */
  lemma OverdueAskedAgain(cfg: Config, s: State, id: nat, stalled: bool, i: nat)
    requires ValidConfig(cfg) && Inv(cfg, s) && id in s.peers && !s.peers[id].choked && s.peers[id].interested
    requires s.peers[id].inFlight != {} && i in s.peers[id].queued && i < PieceCount(cfg.layout)
    ensures var p, t := s.peers[id], Expired(cfg, s, id, stalled, true);
            var s', sent := OnTick(cfg, s, id, stalled, true), AskIfUnchoked(cfg, t, id);
            && id in s'.peers
            && (if p.asked then s'.peers[id].inFlight == KeysAsked(sent) && sent != []
                else p.inFlight <= s'.peers[id].inFlight && KeysAsked(sent) !! p.inFlight)
  {
    hide Inv, Fill, RealRequest, Wire.AllSendable, KeysAsked, WindowOk, Shrink, PieceCount;
    var p, t := s.peers[id], Expired(cfg, s, id, stalled, true);
    WindowKept(cfg, s, id, p.inFlight);
    ShrinkKeepsWindow(cfg, p, stalled);
    ExpireKeeps(Shrink(cfg, p, stalled), true);
    PeerChangeKeepsInv(cfg, s, id, t.peers[id]);
    FillAsks(cfg, t, id);
    FillKeepsInv(cfg, t, id);
    NoStall(cfg, t, id);
    var s', sent := OnTick(cfg, s, id, stalled, true), AskIfUnchoked(cfg, t, id);
    QueuedStill(p.queued, s'.peers[id].queued, i);
    if p.asked {
      if sent == [] {
        NothingAsked();
      }
    } else {
      NewKeys(p.inFlight, KeysAsked(sent), sent);
    }
  }

  lemma QueuedStill(q: seq<nat>, q': seq<nat>, i: nat)
    requires q <= q' && i in q
    ensures i in q'
  {
    var k :| 0 <= k < |q| && q[k] == i;
    assert q'[k] == i;
  }

  lemma NothingAsked()
    ensures KeysAsked([]) == {}
  {
  }

  lemma {:induction false} KeysAtMost(sent: seq<Wire.Message>)
    ensures |KeysAsked(sent)| <= |sent|
  {
    if sent == [] {
      NothingAsked();
    } else {
      KeysAtMost(sent[1..]);
      assert sent == [sent[0]] + sent[1..];
      var one := if sent[0].Request? then {(sent[0].index, sent[0].begin)} else {};
      assert KeysAsked(sent) <= one + KeysAsked(sent[1..]);
      CardLe(KeysAsked(sent), one + KeysAsked(sent[1..]));
    }
  }

  /** As many more keys as messages means all of them are new. */
  lemma NewKeys(before: set<Key>, asked: set<Key>, sent: seq<Wire.Message>)
    requires asked == KeysAsked(sent) && |before + asked| == |before| + |sent|
    ensures asked !! before
  {
    KeysAtMost(sent);
    assert before + asked == before + (asked - before);
    assert |asked - before| == |sent|;
    CardLe(asked - before, asked);
  }
}
