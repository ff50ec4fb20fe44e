/** Requests that no tick asks for again: outstanding after a block that left nothing new to ask for. */
module SwarmQuiet {
  import opened Bytes
  import opened Layout
  import opened Swarm
  import opened SwarmInv
  import opened SwarmSteps
  import opened SwarmProgress
  import Playhead
  import Wire

  /** The session has nothing to ask for: a fill changes and sends nothing. */
  predicate Idle(cfg: Config, s: State, id: nat)
    requires Valid(cfg.layout) && id in s.peers
  {
    Fill(cfg, s, id) == (s, [])
  }

  lemma StopIsIdle(cfg: Config, s: State, id: nat)
    requires ValidConfig(cfg) && Inv(cfg, s) && id in s.peers && (MayFill(s.peers[id]) ==> TurnOf(cfg, s, id) == Stop)
    ensures Idle(cfg, s, id)
  {
    hide Inv, TurnOf, RegisterAll;
    RegisterAgain(cfg, s, id);
  }

  lemma IdleIsStop(cfg: Config, s: State, id: nat)
    requires ValidConfig(cfg) && Inv(cfg, s) && id in s.peers && MayFill(s.peers[id]) && Idle(cfg, s, id)
    ensures TurnOf(cfg, s, id) == Stop
  {
    hide Inv, TurnOf, RegisterAll, FillLoop;
    RegisterAgain(cfg, s, id);
    FillLoopStops(cfg, s, id);
  }

  /** A fill that sends nothing leaves the session idle. */
  lemma SilentFill(cfg: Config, s: State, id: nat)
    requires ValidConfig(cfg) && Inv(cfg, s) && id in s.peers && Fill(cfg, s, id).1 == []
    ensures var s' := Fill(cfg, s, id).0; Inv(cfg, s') && id in s'.peers && Idle(cfg, s', id)
  {
    hide Inv, TurnOf, RegisterAll, FillLoop;
    RegisterAgain(cfg, s, id);
    FillKeepsInv(cfg, s, id);
    if MayFill(s.peers[id]) {
      FillLoopStops(cfg, s, id);
    }
    StopIsIdle(cfg, Fill(cfg, s, id).0, id);
  }

  // Ticks of an idle session ---------------------------------------------------------------------

  /** A smaller window gives an idle session nothing to do. */
  lemma SmallerStops(cfg: Config, s: State, id: nat, p: Peer)
    requires ValidConfig(cfg) && Inv(cfg, s) && id in s.peers && TurnOf(cfg, s, id) == Stop
    requires p == s.peers[id].(window := p.window, stale := p.stale) && p.window <= s.peers[id].window
    ensures TurnOf(cfg, SetPeer(s, id, p), id) == Stop
  {
    hide Inv, NextBlock, Pick, NumBlocks, Capacity, PieceCount, Eligible, Playhead.Before;
    var o, t := s.peers[id], SetPeer(s, id, p);
    if |p.inFlight| < p.window {
      var next := NextBlock(cfg, p, p.queued);
      if next.Some? {
        NothingMissing(cfg, o, o.queued, next.value.0, next.value.1);
        assert false;
      }
      SmallerCapacity(cfg, o, p);
      forall i ensures Eligible(t, id, i) == Eligible(s, id, i) {
        SameEligible(s, t, id, i);
      }
      SamePick(cfg, s, t, id);
    }
  }

  lemma SmallerCapacity(cfg: Config, o: Peer, p: Peer)
    requires p.queued == o.queued && p.window <= o.window
    ensures Capacity(cfg, p) <= Capacity(cfg, o)
  {
    hide NumBlocks;
    var perPiece := if p.queued == [] then 16 else Max(NumBlocks(cfg, p.queued[0]), 1);
    DivCeilMonotone(p.window, o.window, perPiece);
  }

  lemma DivCeilMonotone(a: nat, b: nat, c: nat)
    requires a <= b && c > 0
    ensures DivCeil(a, c) <= DivCeil(b, c)
  {
    DivCeilBounds(a, c);
    DivCeilBounds(b, c);
    if DivCeil(a, c) > DivCeil(b, c) {
      MulLe(DivCeil(b, c), DivCeil(a, c) - 1, c);
    }
  }

  lemma SameEligible(s: State, t: State, id: nat, i: nat)
    requires id in s.peers && id in t.peers && t.peers[id].have == s.peers[id].have
    requires t.done == s.done && t.wanted == s.wanted && t.verifying == s.verifying
    ensures Eligible(t, id, i) == Eligible(s, id, i)
  {
  }

  lemma SamePick(cfg: Config, s: State, t: State, id: nat)
    requires ValidConfig(cfg) && id in s.peers && id in t.peers && t.taken == s.taken
    requires forall i :: Eligible(t, id, i) == Eligible(s, id, i)
    ensures Pick(cfg, s, id).None? ==> Pick(cfg, t, id).None?
  {
    hide Pick, PieceCount, Eligible, Playhead.Before;
    PickIsBest(cfg, s, id);
    PickIsBest(cfg, t, id);
  }

  lemma IdleTick(cfg: Config, s: State, id: nat, stalled: bool, overdue: bool)
    requires ValidConfig(cfg) && Inv(cfg, s) && id in s.peers && Idle(cfg, s, id) && !s.peers[id].asked
    ensures var s' := OnTick(cfg, s, id, stalled, overdue);
            && s' == SetPeer(s, id, Shrink(cfg, s.peers[id], stalled))
            && AskIfUnchoked(cfg, Expired(cfg, s, id, stalled, overdue), id) == []
            && Inv(cfg, s') && Idle(cfg, s', id)
  {
    hide Inv, Fill, Shrink, TurnOf, WindowOk;
    var p, q := s.peers[id], Shrink(cfg, s.peers[id], stalled);
    WindowKept(cfg, s, id, p.inFlight);
    ShrinkKeepsWindow(cfg, p, stalled);
    PeerChangeKeepsInv(cfg, s, id, q);
    var t := SetPeer(s, id, q);
    if MayFill(q) {
      IdleIsStop(cfg, s, id);
      SmallerStops(cfg, s, id, q);
    }
    StopIsIdle(cfg, t, id);
  }

  // Any number of ticks ----------------------------------------------------------------------------

  ghost predicate TicksOf(run: seq<Event>, id: nat) { forall k :: 0 <= k < |run| ==> run[k].Tick? && run[k].id == id }

  /** All that the ticks send. */
  function Sends(cfg: Config, s: State, id: nat, run: seq<Event>): seq<Wire.Message>
    requires Valid(cfg.layout) && id in s.peers && TicksOf(run, id)
    decreases |run|
  {
    if run == [] then []
    else
      var e := run[0];
      FillHasPeer(cfg, Expired(cfg, s, id, e.stalled, e.overdue), id);
      AskIfUnchoked(cfg, Expired(cfg, s, id, e.stalled, e.overdue), id) + Sends(cfg, Step(cfg, s, e), id, run[1..])
  }

  lemma FillHasPeer(cfg: Config, s: State, id: nat)
    requires Valid(cfg.layout) && id in s.peers
    ensures id in FillIfUnchoked(cfg, s, id).peers
  {
    hide FillLoop, RegisterAll;
  }

  /** However many ticks follow, an idle session that asked for nothing since the last block never asks again. */
  lemma {:induction false} TicksSendNothing(cfg: Config, s: State, id: nat, run: seq<Event>)
    requires ValidConfig(cfg) && Inv(cfg, s) && id in s.peers && Idle(cfg, s, id) && !s.peers[id].asked && TicksOf(run, id)
    ensures Possible(cfg, s, run) && Sends(cfg, s, id, run) == []
    ensures var s' := After(cfg, s, run); id in s'.peers && s'.peers[id].inFlight == s.peers[id].inFlight && !s'.peers[id].asked
    decreases |run|
  {
    hide Inv, Idle, OnTick, AskIfUnchoked, Expired, Shrink, WindowOk;
    if run != [] {
      var e := run[0];
      IdleTick(cfg, s, id, e.stalled, e.overdue);
      WindowKept(cfg, s, id, s.peers[id].inFlight);
      ShrinkKeepsWindow(cfg, s.peers[id], e.stalled);
      TicksSendNothing(cfg, Step(cfg, s, e), id, run[1..]);
    }
  }

  // The block before them ---------------------------------------------------------------------------

  /** What a received block leaves outstanding before the refill. */
  function StillOut(cfg: Config, p: Peer, i: nat, begin: nat, block: bytes): set<Key> {
    if PieceComplete(Adjust(cfg, ReceiveBlock(p, i, begin, block)), i) then set k | k in p.inFlight && k.0 != i
    else p.inFlight - {(i, begin)}
  }

  lemma SettledPeer(cfg: Config, s: State, id: nat, i: nat, begin: nat, block: bytes, order: seq<nat>, writeOk: bool)
    requires Valid(cfg.layout) && id in s.peers && Enumerates(order, s.peers[id].blocks[(i, begin) := block], i)
    ensures var p := Settled(cfg, s, id, i, begin, block, order, writeOk).peers[id];
            !p.asked && p.inFlight == StillOut(cfg, s.peers[id], i, begin, block)
  {
    hide Enumerates, Assemble, Accept;
  }

  /**
   After a received block requests count as sent exactly when the refill sent some. If it sent
   none, the session is idle, and what was outstanding is only given up by another event.
   */
  lemma BlockSettles(cfg: Config, s: State, id: nat, i: nat, begin: nat, block: bytes, order: seq<nat>, writeOk: bool)
    requires ValidConfig(cfg) && Inv(cfg, s) && id in s.peers && i in s.peers[id].queued
    requires Enumerates(order, s.peers[id].blocks[(i, begin) := block], i)
    ensures var s' := OnPiece(cfg, s, id, i, begin, block, order, writeOk);
            var sent := Fill(cfg, Settled(cfg, s, id, i, begin, block, order, writeOk), id).1;
            && Inv(cfg, s') && id in s'.peers && (s'.peers[id].asked <==> sent != [])
            && s'.peers[id].inFlight == StillOut(cfg, s.peers[id], i, begin, block) + KeysAsked(sent)
            && (sent == [] ==> Idle(cfg, s', id))
  {
    hide Inv, Enumerates, Settled, OnPiece, Fill, Idle, StillOut, RealRequest, KeysAsked, Wire.AllSendable;
    BlockReceived(cfg, s, id, i, begin, block, order, writeOk);
    SettledPeer(cfg, s, id, i, begin, block, order, writeOk);
    var u := Settled(cfg, s, id, i, begin, block, order, writeOk);
    FillAsks(cfg, u, id);
    FillKeepsInv(cfg, u, id);
    if Fill(cfg, u, id).1 == [] {
      SilentFill(cfg, u, id);
    }
  }

  /** A block whose refill sends nothing, then any number of ticks: no request is ever sent again. */
  lemma SilentAfterBlock(cfg: Config, s: State, id: nat, i: nat, begin: nat, block: bytes, order: seq<nat>, writeOk: bool,
                         run: seq<Event>)
    requires ValidConfig(cfg) && Inv(cfg, s) && id in s.peers && i in s.peers[id].queued
    requires Enumerates(order, s.peers[id].blocks[(i, begin) := block], i)
    requires Fill(cfg, Settled(cfg, s, id, i, begin, block, order, writeOk), id).1 == []
    requires TicksOf(run, id)
    ensures var t := OnPiece(cfg, s, id, i, begin, block, order, writeOk);
            && id in t.peers && Possible(cfg, t, run) && Sends(cfg, t, id, run) == []
            && (var s' := After(cfg, t, run);
                id in s'.peers && s'.peers[id].inFlight == StillOut(cfg, s.peers[id], i, begin, block))
  {
    hide Inv, Enumerates, Settled, OnPiece, Fill, Idle, StillOut, Possible, After, TicksOf;
    BlockSettles(cfg, s, id, i, begin, block, order, writeOk);
    NothingAsked();
    TicksSendNothing(cfg, OnPiece(cfg, s, id, i, begin, block, order, writeOk), id, run);
  }
}
