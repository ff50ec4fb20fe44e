/** Outstanding requests against the window: kept by every event but one kind of tick. */
module SwarmWindow {
  import opened Bytes
  import opened Layout
  import opened Swarm
  import opened SwarmInv
  import opened SwarmSteps
  import opened SwarmProgress
  import Wire

  predicate Within(p: Peer) { |p.inFlight| <= p.window }

  /** No session comes to exceed its window, old or new. */
  predicate KeepsWithin(s: State, s': State) {
    forall id :: id in s'.peers && (id in s.peers ==> Within(s.peers[id])) ==> Within(s'.peers[id])
  }

  predicate SameOthers(s: State, s': State, id: nat) {
    s'.peers.Keys == s.peers.Keys && forall other :: other in s.peers && other != id ==> s'.peers[other] == s.peers[other]
  }

  // What a fill does ---------------------------------------------------------------------------

  /** One session changes: no more requests outstanding, no smaller window. */
  lemma ChangeWithin(s: State, id: nat, p: Peer)
    requires if id in s.peers then p.inFlight <= s.peers[id].inFlight && p.window >= s.peers[id].window else Within(p)
    ensures KeepsWithin(s, SetPeer(s, id, p))
  {
    if id in s.peers {
      CardLe(p.inFlight, s.peers[id].inFlight);
    }
  }

  /** Only this session changes, and it stays within its window. */
  predicate Stays(s: State, s': State, id: nat) {
    id in s.peers && SameOthers(s, s', id) && (Within(s.peers[id]) ==> Within(s'.peers[id]))
  }

  lemma StaysTrans(s: State, t: State, u: State, id: nat)
    requires Stays(s, t, id) && Stays(t, u, id)
    ensures Stays(s, u, id)
  {
  }

  lemma StaysWithin(s: State, s': State, id: nat)
    requires Stays(s, s', id)
    ensures KeepsWithin(s, s')
  {
  }

  lemma TurnStays(cfg: Config, s: State, id: nat)
    requires Valid(cfg.layout) && id in s.peers
    ensures match TurnOf(cfg, s, id)
            case Ask(i, k) => Stays(s, AskBlock(s, id, i, k), id)
            case Take(i) => Stays(s, TakePiece(cfg, s, id, i), id)
            case Stop => Stays(s, s, id)
  {
    hide NextBlock, Pick, NumBlocks, Capacity;
  }

  lemma {:induction false} LoopStays(cfg: Config, s: State, id: nat)
    requires Valid(cfg.layout) && id in s.peers
    ensures Stays(s, FillLoop(cfg, s, id).0, id)
    decreases Slack(s, id)
  {
    hide Slack, TurnOf, RequestOf, Stays, NumBlocks;
    SlackFalls(cfg, s, id);
    TurnStays(cfg, s, id);
    match TurnOf(cfg, s, id)
    case Stop =>
    case Take(i) =>
      LoopStays(cfg, TakePiece(cfg, s, id, i), id);
      StaysTrans(s, TakePiece(cfg, s, id, i), FillLoop(cfg, s, id).0, id);
    case Ask(i, k) =>
      LoopStays(cfg, AskBlock(s, id, i, k), id);
      StaysTrans(s, AskBlock(s, id, i, k), FillLoop(cfg, s, id).0, id);
  }

  /** A change that touches neither window nor requests. */
  lemma SameStays(s: State, id: nat, p: Peer)
    requires id in s.peers && p.window == s.peers[id].window && p.inFlight == s.peers[id].inFlight
    ensures Stays(s, SetPeer(s, id, p), id)
  {
  }

  lemma FillStays(cfg: Config, s: State, id: nat)
    requires Valid(cfg.layout) && id in s.peers
    ensures Stays(s, Fill(cfg, s, id).0, id)
    ensures !Within(s.peers[id]) ==> Fill(cfg, s, id) == (s, [])
  {
    hide FillLoop, RegisterAll, Stays;
    var p := s.peers[id];
    SameStays(s, id, p);
    assert s.peers[id := p] == s.peers;
    if MayFill(p) {
      var q := p.(need := RegisterAll(cfg, p.need, p.queued));
      var t := SetPeer(s, id, q);
      SameStays(s, id, q);
      LoopStays(cfg, t, id);
      var r := FillLoop(cfg, t, id);
      StaysTrans(s, t, r.0, id);
      SameStays(r.0, id, r.0.peers[id].(asked := true));
      SameStays(r.0, id, r.0.peers[id]);
      StaysTrans(s, r.0, Sent(r.0, id, r.1), id);
    }
  }

  lemma FillWithin(cfg: Config, s: State, id: nat)
    requires Valid(cfg.layout) && id in s.peers
    ensures KeepsWithin(s, Fill(cfg, s, id).0) && KeepsWithin(s, FillIfUnchoked(cfg, s, id))
    ensures SameOthers(s, FillIfUnchoked(cfg, s, id), id)
    ensures Within(FillIfUnchoked(cfg, s, id).peers[id]) <==> Within(s.peers[id])
  {
    hide Fill, Within;
    FillStays(cfg, s, id);
    StaysWithin(s, Fill(cfg, s, id).0, id);
  }

  // The events ------------------------------------------------------------------------------------

  lemma InterestWithin(cfg: Config, s: State, id: nat)
    requires Valid(cfg.layout) && id in s.peers
    ensures KeepsWithin(s, Interest(cfg, s, id)) && id in Interest(cfg, s, id).peers
  {
    hide Eligible, AllWantedDone;
    ChangeWithin(s, id, s.peers[id].(interested := true));
  }

  lemma PieceWithin(cfg: Config, s: State, id: nat, i: nat, begin: nat, block: bytes, order: seq<nat>, writeOk: bool)
    requires ValidConfig(cfg) && Inv(cfg, s) && id in s.peers
    requires Enumerates(order, s.peers[id].blocks[(i, begin) := block], i)
    ensures KeepsWithin(s, OnPiece(cfg, s, id, i, begin, block, order, writeOk))
  {
    hide Fill, Settled, Enumerates, OwnershipOk, DiskOk, CacheOk, QueueOk;
    var p := s.peers[id];
    if i in p.queued {
      assert PeerOk(cfg, p);
      BlockReceived(cfg, s, id, i, begin, block, order, writeOk);
      SettledWithin(cfg, s, id, i, begin, block, order, writeOk);
      FillWithin(cfg, Settled(cfg, s, id, i, begin, block, order, writeOk), id);
    }
  }

  lemma SettledWithin(cfg: Config, s: State, id: nat, i: nat, begin: nat, block: bytes, order: seq<nat>, writeOk: bool)
    requires Valid(cfg.layout) && id in s.peers && s.peers[id].window <= PIPELINE_MAX
    requires Enumerates(order, s.peers[id].blocks[(i, begin) := block], i)
    ensures KeepsWithin(s, Settled(cfg, s, id, i, begin, block, order, writeOk))
  {
    hide Enumerates, Assemble;
    var u := Settled(cfg, s, id, i, begin, block, order, writeOk);
    var p := u.peers[id];
    assert u.peers == s.peers[id := p];
    ChangeWithin(s, id, p);
  }

  lemma KeepsTrans(s: State, t: State, u: State)
    requires KeepsWithin(s, t) && KeepsWithin(t, u)
    ensures KeepsWithin(s, u)
  {
  }

  lemma JoinWithin(cfg: Config, s: State, id: nat, held: set<nat>, choked: bool, interested: bool)
    requires Valid(cfg.layout) && id !in s.peers
    ensures KeepsWithin(s, FillIfUnchoked(cfg, Joined(cfg, s, id, held, choked, interested), id))
  {
    hide KeepsWithin, FillIfUnchoked;
    var t := Joined(cfg, s, id, held, choked, interested);
    ChangeWithin(s, id, FreshPeer(cfg, held, choked, interested));
    FillWithin(cfg, t, id);
    KeepsTrans(s, t, FillIfUnchoked(cfg, t, id));
  }

  lemma HaveWithin(cfg: Config, s: State, id: nat, more: set<nat>)
    requires Valid(cfg.layout) && id in s.peers
    ensures KeepsWithin(s, OnHave(cfg, s, id, more))
  {
    hide KeepsWithin, FillIfUnchoked, Interest, PieceCount;
    var p := s.peers[id];
    var t := SetPeer(s, id, p.(have := p.have + (set i | i in more && i < PieceCount(cfg.layout))));
    ChangeWithin(s, id, t.peers[id]);
    InterestWithin(cfg, t, id);
    KeepsTrans(s, t, Interest(cfg, t, id));
    FillWithin(cfg, Interest(cfg, t, id), id);
    KeepsTrans(s, Interest(cfg, t, id), OnHave(cfg, s, id, more));
  }

  lemma UnchokeWithin(cfg: Config, s: State, id: nat)
    requires Valid(cfg.layout) && id in s.peers
    ensures KeepsWithin(s, OnUnchoke(cfg, s, id))
  {
    hide KeepsWithin, Fill, Interest;
    var t := SetPeer(s, id, s.peers[id].(choked := false));
    ChangeWithin(s, id, t.peers[id]);
    InterestWithin(cfg, t, id);
    KeepsTrans(s, t, Interest(cfg, t, id));
    FillWithin(cfg, Interest(cfg, t, id), id);
    KeepsTrans(s, Interest(cfg, t, id), OnUnchoke(cfg, s, id));
  }

  /** Every event other than a tick keeps every session that is within its window there. */
  lemma OthersKeepWithin(cfg: Config, s: State, e: Event)
    requires ValidConfig(cfg) && Inv(cfg, s) && Enabled(cfg, s, e) && !e.Tick?
    ensures KeepsWithin(s, Step(cfg, s, e))
  {
    hide Inv, Enumerates, FillIfUnchoked, OnHave, OnUnchoke, OnPiece, OnSuggest, FreshPeer;
    match e
    case Join(id, held, choked, interested) => JoinWithin(cfg, s, id, held, choked, interested);
    case Haves(id, pieces) => HaveWithin(cfg, s, id, pieces);
    case Unchoked(id) => UnchokeWithin(cfg, s, id);
    case Received(id, i, begin, block, order, writeOk) => PieceWithin(cfg, s, id, i, begin, block, order, writeOk);
    case Rejected(id, i, begin) => ChangeWithin(s, id, OnReject(s, id, i, begin).peers[id]);
    case Suggested(id, i) => SuggestWithin(cfg, s, id, i);
    case _ =>
  }

  lemma SuggestWithin(cfg: Config, s: State, id: nat, i: nat)
    requires Valid(cfg.layout) && id in s.peers
    ensures KeepsWithin(s, OnSuggest(cfg, s, id, i))
  {
    hide AllWantedDone, NumBlocks;
  }

  /**
   When a tick halves the window below what is outstanding: an adaptive window that has stalled
   for three ticks or rejects, and no timeout that drops the requests.
   */
  predicate Overtakes(cfg: Config, p: Peer, stalled: bool, overdue: bool) {
    Halves(cfg, p, stalled) && !(p.asked && overdue) && |p.inFlight| > Max(p.window / 2, PIPELINE_MIN)
  }

  predicate Halves(cfg: Config, p: Peer, stalled: bool) {
    cfg.fixedWindow.None? && p.inFlight != {} && stalled && p.stale >= 3
  }

  /** A tick keeps its session within the window in all other cases, and the other sessions as they are. */
  lemma TickWithinIff(cfg: Config, s: State, id: nat, stalled: bool, overdue: bool)
    requires Valid(cfg.layout) && id in s.peers && Within(s.peers[id])
    ensures var s' := OnTick(cfg, s, id, stalled, overdue);
            && SameOthers(s, s', id) && (Within(s'.peers[id]) <==> !Overtakes(cfg, s.peers[id], stalled, overdue))
  {
    hide FillIfUnchoked, Fill, Shrink, Expire, Overtakes, Within;
    var t := Expired(cfg, s, id, stalled, overdue);
    ExpiredWithinIff(cfg, s.peers[id], stalled, overdue);
    FillWithin(cfg, t, id);
  }

  lemma ExpiredWithinIff(cfg: Config, p: Peer, stalled: bool, overdue: bool)
    requires Within(p)
    ensures Within(Expire(Shrink(cfg, p, stalled), overdue)) <==> !Overtakes(cfg, p, stalled, overdue)
  {
    hide Expire, Shrink;
    var q := Shrink(cfg, p, stalled);
    ExpireIs(q, overdue);
    if Halves(cfg, p, stalled) {
      ShrinkHalves(cfg, p, stalled);
    } else {
      ShrinkSpares(cfg, p, stalled);
    }
  }

  lemma ShrinkHalves(cfg: Config, p: Peer, stalled: bool)
    requires Halves(cfg, p, stalled)
    ensures Shrink(cfg, p, stalled) == p.(window := Max(p.window / 2, PIPELINE_MIN), stale := 0)
  {
  }

  /** The session after some stalled ticks in a row. */
  function StalledTicks(cfg: Config, p: Peer, n: nat): Peer { if n == 0 then p else Shrink(cfg, StalledTicks(cfg, p, n - 1), true) }

  /** From a fresh count three stalled ticks leave an adaptive window alone and the fourth halves it, not below 16. */
  lemma FourthHalves(cfg: Config, p: Peer)
    requires cfg.fixedWindow.None? && p.inFlight != {} && p.stale == 0
    ensures forall n :: 0 <= n <= 3 ==> StalledTicks(cfg, p, n) == p.(stale := n)
    ensures StalledTicks(cfg, p, 4) == p.(window := if p.window / 2 > 16 then p.window / 2 else 16)
  {
    assert StalledTicks(cfg, p, 1) == p.(stale := 1);
    assert StalledTicks(cfg, p, 2) == p.(stale := 2);
    assert StalledTicks(cfg, p, 3) == p.(stale := 3);
    assert Halves(cfg, p.(stale := 3), true);
    ShrinkHalves(cfg, p.(stale := 3), true);
  }

  lemma ShrinkSpares(cfg: Config, p: Peer, stalled: bool)
    requires !Halves(cfg, p, stalled)
    ensures var q := Shrink(cfg, p, stalled); q == p.(stale := q.stale)
  {
  }

  lemma ExpireIs(p: Peer, overdue: bool)
    ensures Expire(p, overdue).window == p.window
    ensures Expire(p, overdue).inFlight == if p.asked && p.inFlight != {} && overdue then {} else p.inFlight
  {
  }

  ghost predicate AllWithin(s: State) { forall id :: id in s.peers ==> Within(s.peers[id]) }

  /** One step from within all windows leaves them exactly at a tick that overtakes. */
  lemma StepWithinIff(cfg: Config, s: State, e: Event)
    requires ValidConfig(cfg) && Inv(cfg, s) && Enabled(cfg, s, e) && AllWithin(s)
    ensures AllWithin(Step(cfg, s, e)) <==> !(e.Tick? && Overtakes(cfg, s.peers[e.id], e.stalled, e.overdue))
  {
    hide Inv, Enumerates, OnTick, Overtakes, Within;
    if e.Tick? {
      TickWithinIff(cfg, s, e.id, e.stalled, e.overdue);
    } else {
      hide Step;
      OthersKeepWithin(cfg, s, e);
    }
  }

  /** Some tick of the run overtakes. */
  ghost predicate Overtaking(cfg: Config, s: State, run: seq<Event>)
    requires Valid(cfg.layout) && Possible(cfg, s, run)
    decreases |run|
  {
    run != [] && (var e := run[0];
                  || (e.Tick? && Overtakes(cfg, s.peers[e.id], e.stalled, e.overdue))
                  || Overtaking(cfg, Step(cfg, s, e), run[1..]))
  }

  /** Requests outstanding stay within every window over any run in which no tick overtakes. */
  lemma {:induction false} RunKeepsWithin(cfg: Config, s: State, run: seq<Event>)
    requires ValidConfig(cfg) && Inv(cfg, s) && AllWithin(s) && Possible(cfg, s, run) && !Overtaking(cfg, s, run)
    ensures AllWithin(After(cfg, s, run))
    decreases |run|
  {
    hide Inv, Step, Enabled, AllWithin, Overtakes;
    if run != [] {
      StepKeepsInv(cfg, s, run[0]);
      StepWithinIff(cfg, s, run[0]);
      RunKeepsWithin(cfg, Step(cfg, s, run[0]), run[1..]);
    }
  }
}
