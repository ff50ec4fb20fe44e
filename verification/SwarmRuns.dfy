/** Two short runs of one session on a torrent of one piece, for what filling and ticks do not promise. */
module SwarmRuns {
  import opened Bytes
  import opened Layout
  import opened Swarm
  import opened SwarmInv
  import opened SwarmSteps
  import opened SwarmProgress
  import opened SwarmQuiet
  import opened SwarmWindow
  import Wire

  /** One file, one piece of `n` blocks. */
  function OnePiece(n: nat, hash: bytes, sha1: bytes -> bytes): Config {
    Config(Info(n * Wire.BLOCK_SIZE, [n * Wire.BLOCK_SIZE]), [hash], sha1, None)
  }

  lemma OnePieceIs(n: nat, hash: bytes, sha1: bytes -> bytes)
    requires 0 < n <= PIPELINE_MAX
    ensures var cfg := OnePiece(n, hash, sha1);
            && ValidConfig(cfg) && PieceCount(cfg.layout) == 1 && PieceLen(cfg.layout, 0) == n * Wire.BLOCK_SIZE
            && NumBlocks(cfg, 0) == n && cfg.fixedWindow.None?
  {
    var cfg := OnePiece(n, hash, sha1);
    var l := cfg.layout;
    assert l.lens[..|l.lens| - 1] == [];
    assert Sum([]) == 0;
    assert Total(l) == n * Wire.BLOCK_SIZE;
    DivCeilBounds(Total(l), l.pieceLength);
    var count := PieceCount(l);
    if count >= 2 {
      MulLe(1, count - 1, l.pieceLength);
    }
    PieceBounds(l, 0);
    DivCeilBounds(n * Wire.BLOCK_SIZE, Wire.BLOCK_SIZE);
  }

  /** A peer that holds the piece, has unchoked us and interests us. */
  const JOIN := Join(0, {0}, false, true)

  function Nothing(): State { Start(map[], None) }

  lemma NothingInv(cfg: Config)
    requires ValidConfig(cfg)
    ensures Inv(cfg, Nothing())
  {
    StartInv(cfg, map[], None);
  }

  function Seen(cfg: Config): State
    requires Valid(cfg.layout)
  {
    Joined(cfg, Nothing(), 0, {0}, false, true)
  }

  lemma SeenIs(cfg: Config)
    requires ValidConfig(cfg) && PieceCount(cfg.layout) == 1 && cfg.fixedWindow.None?
    ensures var s := Seen(cfg);
            && Inv(cfg, s) && s.peers == map[0 := Peer({0}, false, true, true, [], PIPELINE_MAX, {}, map[], map[], map[], 0, false)]
            && s.done == {} && s.wanted == None && s.playhead == None && !s.verifying
            && Enabled(cfg, Nothing(), JOIN) && Step(cfg, Nothing(), JOIN) == Fill(cfg, s, 0).0
  {
    hide PeerOk, Inv, Fill, PieceCount;
    NothingInv(cfg);
    var p := FreshPeer(cfg, {0}, false, true);
    CleanPeer(cfg, p);
    InvSetPeer(cfg, Nothing(), 0, p);
    assert p.have == {0};
  }

  /** Only blocks of the one piece are asked for. */
  lemma AskedAreBlocks(cfg: Config, n: nat, sent: seq<Wire.Message>)
    requires ValidConfig(cfg) && PieceCount(cfg.layout) == 1 && PieceLen(cfg.layout, 0) == n * Wire.BLOCK_SIZE
    requires forall m :: m in sent ==> RealRequest(cfg, m)
    ensures KeysAsked(sent) <= KeysBelow(0, n)
  {
    hide KeysBelow, RealRequest;
    forall m | m in sent && m.Request? ensures (m.index, m.begin) in KeysBelow(0, n) {
      AskedIsBlock(cfg, n, m);
    }
  }

  lemma AskedIsBlock(cfg: Config, n: nat, m: Wire.Message)
    requires ValidConfig(cfg) && PieceCount(cfg.layout) == 1 && PieceLen(cfg.layout, 0) == n * Wire.BLOCK_SIZE
    requires RealRequest(cfg, m)
    ensures m.Request? && (m.index, m.begin) in KeysBelow(0, n)
  {
    hide PieceCount, PieceLen, KeysBelow;
    KeysBelowSize(0, n);
    var k := m.begin / Wire.BLOCK_SIZE;
    assert m.begin == k * Wire.BLOCK_SIZE && k < n;
    assert (m.index, m.begin) == BlockKey(0, k);
  }

  lemma SomethingAsked(cfg: Config, s: State, sent: seq<Wire.Message>)
    requires ValidConfig(cfg) && PieceCount(cfg.layout) == 1 && Inv(cfg, s) && s.peers.Keys == {0} && s.done == {}
    requires s.wanted == None && !s.verifying
    requires var p := s.peers[0]; !p.choked && p.interested && p.inFlight == {} && 0 in p.have
    requires sent == Fill(cfg, s, 0).1
    ensures sent != [] && 0 in Fill(cfg, s, 0).0.peers[0].queued
  {
    hide Inv, Fill, PieceCount, Wire.AllSendable;
    FillAsks(cfg, s, 0);
    FillKeepsInv(cfg, s, 0);
    NoStall(cfg, s, 0);
    var s' := Fill(cfg, s, 0).0;
    assert Eligible(s', 0, 0);
    assert forall id' :: Owns(s', id', 0) ==> id' == 0;
    assert s'.peers[0].inFlight != {};
    var m := sent[0];
    assert m in sent && m.index == 0;
  }

  lemma NothingLeft(cfg: Config, s: State, n: nat)
    requires ValidConfig(cfg) && Inv(cfg, s) && 0 in s.peers && MayFill(s.peers[0]) && NumBlocks(cfg, 0) == n
    requires var p := Fill(cfg, s, 0).0.peers[0]; |p.inFlight| < p.window && 0 in p.queued && p.blocks == map[]
    ensures KeysBelow(0, n) <= Fill(cfg, s, 0).0.peers[0].inFlight
  {
    hide Inv, FillLoop, RegisterAll, NextBlock, Pick, NumBlocks, KeysBelow, Capacity;
    RegisterAgain(cfg, s, 0);
    FillLoopStops(cfg, s, 0);
    var r := FillLoop(cfg, s, 0).0;
    var p := r.peers[0];
    KeysBelowSize(0, n);
    forall k | 0 <= k < n ensures BlockKey(0, k) in p.inFlight {
      NothingMissing(cfg, p, p.queued, 0, k);
    }
  }

  /** On joining all blocks are asked for, up to the largest window. */
  lemma JoinAsksAll(cfg: Config, n: nat)
    requires ValidConfig(cfg) && PieceCount(cfg.layout) == 1 && cfg.fixedWindow.None?
    requires PieceLen(cfg.layout, 0) == n * Wire.BLOCK_SIZE && NumBlocks(cfg, 0) == n && 0 < n <= PIPELINE_MAX
    ensures var s := Fill(cfg, Seen(cfg), 0).0;
            && Inv(cfg, s) && s.peers.Keys == {0} && s.done == {} && s.wanted == None && s.playhead == None
            && (var p := s.peers[0];
                && p == Peer({0}, false, true, true, p.queued, PIPELINE_MAX, KeysBelow(0, n), map[], p.need, map[], 0, true)
                && 0 in p.queued)
  {
    hide Inv, Fill, FillLoop, PieceCount, PieceLen, NumBlocks, RealRequest, Wire.AllSendable, KeysAsked, KeysBelow, Seen;
    SeenIs(cfg);
    var s0 := Seen(cfg);
    var s, sent := Fill(cfg, s0, 0).0, Fill(cfg, s0, 0).1;
    FillAsks(cfg, s0, 0);
    FillKeepsInv(cfg, s0, 0);
    AskedAreBlocks(cfg, n, sent);
    KeysBelowSize(0, n);
    CardLe(s.peers[0].inFlight, KeysBelow(0, n));
    SomethingAsked(cfg, s0, sent);
    if |s.peers[0].inFlight| < PIPELINE_MAX {
      NothingLeft(cfg, s0, n);
    }
  }

  // Runs event by event ------------------------------------------------------------------------

  lemma Then(cfg: Config, s: State, e: Event, rest: seq<Event>)
    requires Valid(cfg.layout) && Enabled(cfg, s, e) && Possible(cfg, Step(cfg, s, e), rest)
    ensures Possible(cfg, s, [e] + rest) && After(cfg, s, [e] + rest) == After(cfg, Step(cfg, s, e), rest)
  {
    hide Step, Enabled;
    assert ([e] + rest)[1..] == rest;
  }

  lemma NoMore(cfg: Config, s: State)
    requires Valid(cfg.layout)
    ensures Possible(cfg, s, []) && After(cfg, s, []) == s
  {
  }

  lemma DifferentKeys()
    ensures BlockKey(0, 0) != BlockKey(0, 1) && BlockKey(0, 1) != BlockKey(0, 2) && BlockKey(0, 2) != BlockKey(0, 0)
  {
  }

  /** A request of an existing block is rejected. */
  lemma OneRejected(cfg: Config, s: State, k: nat)
    requires Valid(cfg.layout) && 0 in s.peers && BlockKey(0, k) in s.peers[0].inFlight
    ensures var e := Rejected(0, 0, k * Wire.BLOCK_SIZE);
            && Enabled(cfg, s, e) && Step(cfg, s, e).peers.Keys == s.peers.Keys
            && (var p, p' := s.peers[0], Step(cfg, s, e).peers[0];
                && p' == p.(inFlight := p.inFlight - {BlockKey(0, k)}, stale := p.stale + 1)
                && |p'.inFlight| == |p.inFlight| - 1)
  {
  }

  /** A stalled tick that finds more outstanding than half the window leaves them outstanding. */
  lemma Halved(cfg: Config, s: State)
    requires Valid(cfg.layout) && cfg.fixedWindow.None? && 0 in s.peers
    requires var p := s.peers[0]; p.stale == 3 && p.window == PIPELINE_MAX && |p.inFlight| > PIPELINE_MAX / 2
    ensures var e := Tick(0, true, false);
            && Enabled(cfg, s, e) && Step(cfg, s, e).peers.Keys == s.peers.Keys
            && Step(cfg, s, e).peers[0] == s.peers[0].(window := PIPELINE_MAX / 2, stale := 0)
  {
    hide FillLoop, RegisterAll;
    assert s.peers[0].inFlight != {};
  }

  function RejectThree(): seq<Event> {
    [JOIN] + ([Rejected(0, 0, 0 * Wire.BLOCK_SIZE)] + ([Rejected(0, 0, 1 * Wire.BLOCK_SIZE)]
    + ([Rejected(0, 0, 2 * Wire.BLOCK_SIZE)] + ([Tick(0, true, false)] + []))))
  }

  /**
   A full window of 256 requests, three rejects and one stalled tick: 253 requests are outstanding
   in a window of 128.
   */
  lemma WindowOverrun(hash: bytes, sha1: bytes -> bytes)
    ensures var cfg := OnePiece(PIPELINE_MAX, hash, sha1);
            && ValidConfig(cfg) && Possible(cfg, Nothing(), RejectThree())
            && (var s := After(cfg, Nothing(), RejectThree());
                && s.peers.Keys == {0} && |s.peers[0].inFlight| == 253 && s.peers[0].window == 128)
  {
    hide Step, Enabled, Inv, KeysBelow, BlockKey, NumBlocks, PieceCount, PieceLen, Possible, After, OnePiece, Nothing, Seen;
    var n, b := PIPELINE_MAX, Wire.BLOCK_SIZE;
    var cfg := OnePiece(n, hash, sha1);
    OnePieceIs(n, hash, sha1);
    SeenIs(cfg);
    JoinAsksAll(cfg, n);
    KeysBelowSize(0, n);
    DifferentKeys();
    var s1 := Step(cfg, Nothing(), JOIN);
    OneRejected(cfg, s1, 0);
    var s2 := Step(cfg, s1, Rejected(0, 0, 0 * b));
    OneRejected(cfg, s2, 1);
    var s3 := Step(cfg, s2, Rejected(0, 0, 1 * b));
    OneRejected(cfg, s3, 2);
    var s4 := Step(cfg, s3, Rejected(0, 0, 2 * b));
    Halved(cfg, s4);
    var s5 := Step(cfg, s4, Tick(0, true, false));
    NoMore(cfg, s5);
    Then(cfg, s4, Tick(0, true, false), []);
    Then(cfg, s3, Rejected(0, 0, 2 * b), [Tick(0, true, false)] + []);
    Then(cfg, s2, Rejected(0, 0, 1 * b), [Rejected(0, 0, 2 * b)] + ([Tick(0, true, false)] + []));
    Then(cfg, s1, Rejected(0, 0, 0 * b), [Rejected(0, 0, 1 * b)] + ([Rejected(0, 0, 2 * b)] + ([Tick(0, true, false)] + [])));
    Then(cfg, Nothing(), JOIN, RejectThree()[1..]);
  }

  // A block that leaves nothing to ask for ---------------------------------------------------------

  function FirstBlock(block: bytes): Event { Received(0, 0, 0, block, [0], true) }

  lemma FirstOfTwoPeer(cfg: Config, p: Peer, block: bytes)
    requires PeerOk(cfg, p) && NumBlocks(cfg, 0) == 2
    requires p.inFlight == KeysBelow(0, 2) && p.blocks == map[] && p.got == map[] && 0 in p.queued
    ensures var q := Adjust(cfg, ReceiveBlock(p, 0, 0, block));
            && !PieceComplete(q, 0) && q.inFlight == {BlockKey(0, 1)} && BlockKey(0, 0) in q.blocks
            && Enumerates([0], p.blocks[(0, 0) := block], 0) && StillOut(cfg, p, 0, 0, block) == {BlockKey(0, 1)}
  {
    hide NumBlocks, KeysBelow;
    TwoKeys();
    assert p.need[0] == 2;
    assert {BlockKey(0, 0), BlockKey(0, 1)} - {(0, 0)} == {BlockKey(0, 1)};
  }

  /** Both blocks asked for, the first received: nothing else to ask for, the second outstanding. */
  lemma FirstOfTwo(cfg: Config, s: State, block: bytes)
    requires ValidConfig(cfg) && PieceCount(cfg.layout) == 1 && PieceLen(cfg.layout, 0) == 2 * Wire.BLOCK_SIZE
    requires NumBlocks(cfg, 0) == 2 && Inv(cfg, s) && 0 in s.peers
    requires var p := s.peers[0]; p.inFlight == KeysBelow(0, 2) && p.blocks == map[] && p.got == map[] && 0 in p.queued
    ensures var p := s.peers[0];
            && Enumerates([0], p.blocks[(0, 0) := block], 0)
            && StillOut(cfg, p, 0, 0, block) == {BlockKey(0, 1)}
            && Fill(cfg, Settled(cfg, s, 0, 0, 0, block, [0], true), 0).1 == []
  {
    hide Fill, PieceCount, PieceLen, NumBlocks, OwnershipOk, DiskOk, PeerOk, Batch, KeysBelow, Enumerates, StillOut;
    hide Adjust, ReceiveBlock, PieceComplete, Finish;
    var p := s.peers[0];
    FirstOfTwoPeer(cfg, p, block);
    BlockReceived(cfg, s, 0, 0, 0, block, [0], true);
    var u := Settled(cfg, s, 0, 0, 0, block, [0], true);
    FillAsks(cfg, u, 0);
    NoThird(cfg, u.peers[0], Fill(cfg, u, 0).0.peers[0], Fill(cfg, u, 0).1);
  }

  lemma TwoKeys()
    ensures KeysBelow(0, 2) == {BlockKey(0, 0), BlockKey(0, 1)} && BlockKey(0, 0) == (0, 0) != BlockKey(0, 1)
  {
    assert KeysBelow(0, 2) == KeysBelow(0, 1) + {BlockKey(0, 1)};
    assert KeysBelow(0, 1) == KeysBelow(0, 0) + {BlockKey(0, 0)};
  }

  /** One of two blocks cached and the other outstanding leaves none to ask for. */
  lemma NoThird(cfg: Config, p: Peer, p': Peer, sent: seq<Wire.Message>)
    requires ValidConfig(cfg) && PieceCount(cfg.layout) == 1 && PieceLen(cfg.layout, 0) == 2 * Wire.BLOCK_SIZE
    requires BlockKey(0, 0) in p.blocks && p.inFlight == {BlockKey(0, 1)} && Batch(cfg, p, p', sent)
    ensures sent == []
  {
    hide PieceCount, PieceLen, RealRequest, KeysBelow;
    AskedAreBlocks(cfg, 2, sent);
    TwoKeys();
    NewKeys(p.inFlight, KeysAsked(sent), sent);
    assert BlockKey(0, 0) !in KeysAsked(sent);
    assert KeysAsked(sent) == {};
    assert p.inFlight + {} == p.inFlight;
  }

  /**
   A piece of two blocks, both asked for on joining, the first received: however many ticks
   follow, and however late the second is, it stays outstanding and no request goes out.
   */
  lemma NeverAskedAgain(hash: bytes, sha1: bytes -> bytes, block: bytes, ticks: seq<Event>)
    requires TicksOf(ticks, 0)
    ensures var cfg, run := OnePiece(2, hash, sha1), [JOIN] + ([FirstBlock(block)] + ticks);
            && ValidConfig(cfg) && Possible(cfg, Nothing(), run)
            && (var s := After(cfg, Nothing(), run); 0 in s.peers && s.peers[0].inFlight == {BlockKey(0, 1)})
    ensures var cfg, run := OnePiece(2, hash, sha1), [JOIN] + ([FirstBlock(block)] + []);
            && Possible(cfg, Nothing(), run)
            && (var s := After(cfg, Nothing(), run); 0 in s.peers && Sends(cfg, s, 0, ticks) == [])
  {
    hide Step, Inv, KeysBelow, BlockKey, NumBlocks, PieceCount, PieceLen, Possible, After, OnePiece, Nothing, Seen, Sends, TicksOf;
    hide StillOut, Settled, Fill;
    var cfg, e := OnePiece(2, hash, sha1), FirstBlock(block);
    OnePieceIs(2, hash, sha1);
    SeenIs(cfg);
    JoinAsksAll(cfg, 2);
    var s1 := Step(cfg, Nothing(), JOIN);
    FirstOfTwo(cfg, s1, block);
    SilentAfterBlock(cfg, s1, 0, 0, 0, block, [0], true, ticks);
    BlockStep(cfg, s1, block);
    var s2 := Step(cfg, s1, e);
    Then(cfg, s1, e, ticks);
    Then(cfg, Nothing(), JOIN, [e] + ticks);
    NoMore(cfg, s2);
    Then(cfg, s1, e, []);
    Then(cfg, Nothing(), JOIN, [e] + []);
  }

  lemma BlockStep(cfg: Config, s: State, block: bytes)
    requires Valid(cfg.layout) && 0 in s.peers && Enumerates([0], s.peers[0].blocks[(0, 0) := block], 0)
    ensures Enabled(cfg, s, FirstBlock(block))
    ensures Step(cfg, s, FirstBlock(block)) == OnPiece(cfg, s, 0, 0, 0, block, [0], true)
  {
    hide Enumerates, OnPiece;
  }
}
