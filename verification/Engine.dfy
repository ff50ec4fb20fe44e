/** The engine's download state as its methods mutate it, proved against the steps of Swarm. */
module Engine {
  import opened Bytes
  import opened Layout
  import opened Swarm
  import opened SwarmInv
  import opened SwarmSteps
  import opened SwarmProgress
  import opened SwarmEffects
  import Playhead
  import Wire

  class TorrentEngine {
    const cfg: Config
    var done: set<nat>
    var disk: map<nat, bytes>
    var taken: set<nat>
    var peers: map<nat, Peer>
    var wanted: Option<set<nat>>
    var playhead: Option<nat>
    var verifying: bool

    constructor (cfg: Config, content: map<nat, bytes>, wanted: Option<set<nat>>)
      requires ValidConfig(cfg) && DiskOk(cfg, Start(content, wanted))
      ensures this.cfg == cfg && View() == Start(content, wanted) && Valid()
    {
      this.cfg := cfg;
      done, disk, taken, peers := content.Keys, content, {}, map[];
      this.wanted, playhead, verifying := wanted, None, false;
    }

    function View(): State
      reads this
    {
      State(done, disk, taken, peers, wanted, playhead, verifying)
    }

    ghost predicate Valid()
      reads this
    {
      ValidConfig(cfg) && Inv(cfg, View())
    }

    /** The pieces the peer holds that are missing and wanted, with their rarity. */
    method CollectCandidates(id: nat) returns (cs: seq<Playhead.Candidate>)
      requires ValidConfig(cfg) && id in peers
      ensures cs == Candidates(cfg, View(), id)
    {
      hide Eligible, Rarity, PieceCount;
      var count := PieceCount(cfg.layout);
      cs := [];
      for idx := 0 to count
        invariant cs + CandidatesFrom(View(), id, idx, count) == Candidates(cfg, View(), id)
      {
        ghost var rest := CandidatesFrom(View(), id, idx + 1, count);
        if Eligible(View(), id, idx) {
          var c := Playhead.Candidate(idx, Rarity(View(), idx));
          assert cs + ([c] + rest) == cs + [c] + rest;
          cs := cs + [c];
        } else {
          assert [] + rest == rest;
        }
      }
    }

    /** `assign_piece`: rank the candidates, then take the first that is free. */
    method AssignPiece(id: nat) returns (r: Option<nat>)
      requires ValidConfig(cfg) && id in peers
      modifies this`taken
      ensures r == Pick(cfg, old(View()), id)
      ensures taken == old(taken) + (if r.Some? then {r.value} else {})
    {
      hide Eligible, Rarity, CandidatesFrom, Playhead.Ordered, Playhead.InOrder, PieceCount;
      ghost var s := View();
      var cs := CollectCandidates(id);
      CandidatesAre(s, id, 0, PieceCount(cfg.layout));
      var a := new Playhead.Candidate[|cs|](i requires 0 <= i < |cs| => cs[i]);
      assert a[..] == cs;
      Playhead.Order(cfg.layout, playhead, a);
      for k := 0 to a.Length
        invariant taken == s.taken
        invariant Playhead.FirstFree(a[k..], taken) == Pick(cfg, s, id)
      {
        assert a[k..][1..] == a[k + 1..];
        if a[k].idx !in taken {
          taken := taken + {a[k].idx};
          return Some(a[k].idx);
        }
      }
      return None;
    }

    /** The first block of the queue neither cached nor outstanding. */
    method FindNext(p: Peer) returns (r: Option<(nat, nat)>)
      ensures r == NextBlock(cfg, p, p.queued)
    {
      hide NumBlocks;
      for q := 0 to |p.queued|
        invariant NextBlock(cfg, p, p.queued[q..]) == NextBlock(cfg, p, p.queued)
      {
        var i := p.queued[q];
        var n := NumBlocks(cfg, i);
        for k := 0 to n
          invariant MissingBlock(p, i, k, n) == MissingBlock(p, i, 0, n)
        {
          if BlockKey(i, k) !in p.blocks && BlockKey(i, k) !in p.inFlight {
            return Some((i, k));
          }
        }
        assert p.queued[q..][1..] == p.queued[q + 1..];
      }
      return None;
    }

    /** The thirteen bytes of a request behind their length, put together by hand. */
    method RequestBytes(i: nat, k: nat) returns (wire: bytes)
      requires ValidConfig(cfg) && k < NumBlocks(cfg, i)
      ensures IsBatch(wire, [RequestOf(cfg, i, k)])
    {
      hide NumBlocks, RequestOf, IsBatch, Wire.Sendable, Wire.Encode;
      RequestIsReal(cfg, i, k);
      RequestFits(cfg, i, k);
      var m := RequestOf(cfg, i, k);
      Wire.RequestWireIsEncoding(m.index, m.begin, m.length);
      OneSent(m);
      wire := Wire.RequestWire(m.index, m.begin, m.length);
    }

    /** One turn of the fill loop; `wire` is the request it adds to the batch. */
    method FillTurn(id: nat) returns (more: bool, wire: bytes)
      requires Valid() && id in peers
      modifies this`peers, this`taken
      ensures id in peers
      ensures View() == Turned(cfg, old(View()), id) && more == (TurnOf(cfg, old(View()), id) != Stop)
      ensures IsBatch(wire, Added(cfg, TurnOf(cfg, old(View()), id)))
    {
      hide Inv, TurnOf, Capacity, NumBlocks, RequestOf, IsBatch, Pick, NextBlock, AskBlock, TakePiece, Turned, Added;
      ghost var s := View();
      var p := peers[id];
      NothingSent();
      if |p.inFlight| >= p.window {
        StoppingIs(cfg, s, id);
        return false, [];
      }
      var next := FindNext(p);
      if next.Some? {
        AskingIs(cfg, s, id);
        wire := AskFor(id, next.value.0, next.value.1);
        return true, wire;
      }
      if |p.queued| >= Capacity(cfg, p) {
        StoppingIs(cfg, s, id);
        return false, [];
      }
      more := TakeTurn(id);
      return more, [];
    }

    /** Nothing left to ask for, but room in the queue: the next piece, if there is one. */
    method TakeTurn(id: nat) returns (more: bool)
      requires Valid() && id in peers
      requires var p := peers[id]; |p.inFlight| < p.window && NextBlock(cfg, p, p.queued).None? && |p.queued| < Capacity(cfg, p)
      modifies this`peers, this`taken
      ensures id in peers
      ensures View() == Turned(cfg, old(View()), id) && more == (TurnOf(cfg, old(View()), id) != Stop)
      ensures Added(cfg, TurnOf(cfg, old(View()), id)) == []
    {
      hide Inv, TurnOf, Capacity, NumBlocks, Pick, NextBlock, TakePiece, Turned, Added;
      ghost var s := View();
      TakingIs(cfg, s, id);
      var pick := AssignPiece(id);
      if pick.None? {
        assert View() == s;
        return false;
      }
      TakeOn(s, id, pick.value);
      return true;
    }

    /** The block is outstanding from now on. */
    method AskFor(id: nat, i: nat, k: nat) returns (wire: bytes)
      requires Valid() && id in peers && k < NumBlocks(cfg, i)
      modifies this`peers
      ensures id in peers && View() == AskBlock(old(View()), id, i, k) && IsBatch(wire, [RequestOf(cfg, i, k)])
    {
      hide Inv, NumBlocks, RequestOf, IsBatch;
      wire := RequestBytes(i, k);
      peers := peers[id := peers[id].(inFlight := peers[id].inFlight + {BlockKey(i, k)})];
    }

    /** The piece just assigned joins the queue. */
    method TakeOn(ghost s: State, id: nat, i: nat)
      requires id in peers && View() == s.(taken := s.taken + {i})
      modifies this`peers
      ensures id in peers && View() == TakePiece(cfg, s, id, i)
    {
      hide NumBlocks;
      var p := peers[id];
      peers := peers[id := p.(queued := p.queued + [i], need := Register(p.need, i, NumBlocks(cfg, i)))];
    }

    /**
     `fill_pipeline`: asks for blocks and takes on pieces until the window is full or nothing
     is left, and batches the requests into one write.
     */
    method FillPipeline(id: nat) returns (batch: bytes)
      requires Valid() && id in peers
      modifies this`peers, this`taken
      ensures Valid() && id in peers && View() == Fill(cfg, old(View()), id).0
      ensures IsBatch(batch, Fill(cfg, old(View()), id).1)
    {
      hide Inv, FillLoop, RegisterAll, TurnOf, Turned, RequestOf, IsBatch, NumBlocks, Slack;
      ghost var s0 := View();
      batch := [];
      NothingSent();
      if !MayFill(peers[id]) {
        return;
      }
      RegisterAgain(cfg, s0, id);
      peers := peers[id := peers[id].(need := RegisterAll(cfg, peers[id].need, peers[id].queued))];
      assert View() == s0;
      ghost var sent: seq<Wire.Message> := [];
      assert [] + FillLoop(cfg, s0, id).1 == FillLoop(cfg, s0, id).1;
      var more := true;
      while more
        invariant id in peers && Inv(cfg, View())
        invariant FillLoop(cfg, View(), id).0 == FillLoop(cfg, s0, id).0
        invariant sent + FillLoop(cfg, View(), id).1 == FillLoop(cfg, s0, id).1
        invariant IsBatch(batch, sent)
        invariant !more ==> TurnOf(cfg, View(), id) == Stop
        decreases more, Slack(View(), id)
      {
        ghost var s := View();
        ghost var added := Added(cfg, TurnOf(cfg, s, id));
        TurnedKeeps(cfg, s, id);
        if TurnOf(cfg, s, id) != Stop {
          LoopStep(cfg, s, id);
        }
        var wire: bytes;
        more, wire := FillTurn(id);
        BatchGrows(batch, sent, wire, added);
        assert View() == Turned(cfg, s, id);
        assert sent + (added + FillLoop(cfg, View(), id).1) == (sent + added) + FillLoop(cfg, View(), id).1;
        if TurnOf(cfg, s, id) == Stop {
          assert sent + added == sent;
        }
        batch := batch + wire;
        sent := sent + added;
      }
      Stopped(cfg, View(), id);
      assert sent + [] == sent;
      SentKeepsInv(cfg, View(), id, sent);
      BatchEmpty(batch, sent);
      if batch != [] {
        peers := peers[id := peers[id].(asked := true)];
      }
    }

    /** `adjust_pipeline` */
    method AdjustPipeline(id: nat)
      requires id in peers
      modifies this`peers
      ensures View() == SetPeer(old(View()), id, Adjust(cfg, old(peers)[id]))
    {
      var p := peers[id];
      var window := p.window;
      if cfg.fixedWindow.None? && |p.inFlight| * 4 >= window * 3 {
        window := Min(window + Max(window / 4, 1), PIPELINE_MAX);
      }
      peers := peers[id := p.(window := window)];
    }

    /** `accept_piece`: nothing is written or marked unless the hash agrees. */
    method AcceptPiece(i: nat, data: bytes, writeOk: bool) returns (ok: bool)
      requires i < |cfg.hashes|
      modifies this`done, this`disk
      ensures View() == Accept(cfg, old(View()), i, data, writeOk)
      ensures ok == (i !in old(done) && i in done)
      ensures ok ==> disk[i] == data && cfg.sha1(data) == cfg.hashes[i] && writeOk
    {
      if i in done || cfg.sha1(data) != cfg.hashes[i] || !writeOk {
        return false;
      }
      disk := disk[i := data];
      done := done + {i};
      ok := true;
    }

    /** `release_all_pieces`: empties the queue, then frees its pieces one by one. */
    method ReleaseAllPieces(id: nat)
      requires id in peers
      modifies this`peers, this`taken
      ensures View() == ReleaseAll(old(View()), id)
    {
      var queue := peers[id].queued;
      peers := peers[id := peers[id].(queued := [])];
      for q := 0 to |queue|
        invariant peers == old(peers)[id := old(peers)[id].(queued := [])]
        invariant taken == old(taken) - (set i | i in queue[..q])
      {
        taken := taken - {queue[q]};
      }
      assert queue[..|queue|] == queue;
    }

    /** Copies the cached blocks of a completed piece in whatever order the cache yields them. */
    method Gather(blocks: map<Key, bytes>, i: nat) returns (data: Option<bytes>, ghost order: seq<nat>)
      ensures Enumerates(order, blocks, i)
      ensures data == Assemble(blocks, i, Zeros(PieceLen(cfg.layout, i)), order)
    {
      hide Assemble;
      var buffer := Zeros(PieceLen(cfg.layout, i));
      ghost var zeros := buffer;
      var left := blocks.Keys;
      order := [];
      AssembleNone(blocks, i, buffer);
      while left != {}
        invariant left <= blocks.Keys && Listed(order, blocks, i, left)
        invariant Assemble(blocks, i, zeros, order) == Some(buffer)
        decreases |left|
      {
        var key: Key :| key in left;
        left := left - {key};
        if key.0 == i {
          AssembleOne(blocks, i, zeros, order, key.1);
          order := order + [key.1];
          if key.1 + |blocks[key]| > |buffer| {
            order := ListRest(blocks, i, zeros, order, left);
            return None, order;
          }
          buffer := Splice(buffer, key.1, blocks[key]);
        }
      }
      return Some(buffer), order;
    }

    /** The completed piece leaves the session whether or not it was accepted. */
    method FinishPiece(id: nat, i: nat, writeOk: bool) returns (ghost order: seq<nat>)
      requires id in peers && i < |cfg.hashes|
      modifies this`peers, this`taken, this`done, this`disk
      ensures Enumerates(order, old(peers)[id].blocks, i)
      ensures View() == Finish(cfg, old(View()), id, i, order, writeOk)
    {
      hide Enumerates, Assemble;
      var p := peers[id];
      var data;
      data, order := Gather(p.blocks, i);
      if data.Some? {
        var _ := AcceptPiece(i, data.value, writeOk);
      }
      taken := taken - {i};
      peers := peers[id := Forget(p, i)];
    }

    /** The block goes into the cache; its request is no longer outstanding. */
    method CacheBlock(id: nat, i: nat, begin: nat, block: bytes)
      requires id in peers
      modifies this`peers
      ensures View() == SetPeer(old(View()), id, ReceiveBlock(old(peers)[id], i, begin, block))
    {
      var p := peers[id];
      if (i, begin) !in p.blocks {
        p := p.(got := p.got[i := (if i in p.got then p.got[i] else 0) + 1]);
      }
      p := p.(blocks := p.blocks[(i, begin) := block]);
      p := p.(inFlight := p.inFlight - {(i, begin)}, asked := false, stale := 0);
      peers := peers[id := p];
    }

    /** A block arrives: cached and counted, the window adjusted, a complete piece finished, the pipeline filled. */
    method PieceReceived(id: nat, i: nat, begin: nat, block: bytes, writeOk: bool)
      returns (batch: bytes, ghost order: seq<nat>)
      requires Valid() && id in peers
      modifies this`peers, this`taken, this`done, this`disk
      ensures Valid() && old(done) <= done
      ensures Enumerates(order, old(peers)[id].blocks[(i, begin) := block], i)
      ensures View() == OnPiece(cfg, old(View()), id, i, begin, block, order, writeOk)
      ensures if i in old(peers)[id].queued
              then IsBatch(batch, Fill(cfg, Settled(cfg, old(View()), id, i, begin, block, order, writeOk), id).1)
              else batch == []
    {
      hide Inv, Enumerates, Fill, Finish, Adjust, ReceiveBlock, PieceComplete, NumBlocks, IsBatch;
      ghost var s := View();
      var p := peers[id];
      order := ListAll(p.blocks[(i, begin) := block], i);
      PieceKeepsInv(cfg, s, id, i, begin, block, order, writeOk);
      if i !in p.queued {
        return [], order;
      }
      CacheBlock(id, i, begin, block);
      p := peers[id];
      AdjustPipeline(id);
      AdjustKeepsBlocks(cfg, s.peers[id], i, begin, block);
      ghost var t := SetPeer(s, id, Adjust(cfg, p));
      assert View().peers == t.peers;
      CompleteExists(cfg, s, id, i, begin, block);
      if PieceComplete(peers[id], i) {
        order := FinishPiece(id, i, writeOk);
      }
      BlockReceived(cfg, s, id, i, begin, block, order, writeOk);
      batch := FillPipeline(id);
    }

    /** `choke`: every piece and everything outstanding or cached is given up. */
    method Choked(id: nat)
      requires Valid() && id in peers
      modifies this`peers, this`taken
      ensures Valid() && View() == OnChoke(old(View()), id)
      ensures Freed(old(View()), View(), id) && id in peers && peers[id].choked && peers[id].queued == []
    {
      hide Inv, Freed;
      ChokeKeepsInv(cfg, View(), id);
      ReleaseAllPieces(id);
      peers := peers[id := peers[id].(choked := true, inFlight := {}, blocks := map[], need := map[], got := map[])];
    }

    /** `ensure_interested`: `said` tells that the message is sent now. */
    method EnsureInterested(id: nat) returns (said: bool)
      requires Valid() && id in peers
      modifies this`peers
      ensures Valid() && id in peers && View() == Interest(cfg, old(View()), id)
      ensures said == (!old(peers)[id].interested && peers[id].interested)
    {
      hide Inv, Eligible, PieceCount, AllWantedDone, Interest;
      ghost var s := View();
      var p := peers[id];
      InterestKeepsInv(cfg, s, id);
      InterestIs(cfg, s, id);
      if p.interested {
        return false;
      }
      var count, has := PieceCount(cfg.layout), false;
      for i := 0 to count
        invariant peers == s.peers
        invariant has == exists j :: 0 <= j < i && Eligible(s, id, j)
      {
        has := has || Eligible(View(), id, i);
      }
      said := has && !AllWantedDone(cfg, View());
      if said {
        peers := peers[id := p.(interested := true)];
      }
    }

    /** `unchoke`: the session may ask again, and does so if anything is available. */
    method Unchoked(id: nat) returns (said: bool, batch: bytes)
      requires Valid() && id in peers
      modifies this`peers, this`taken
      ensures Valid() && View() == OnUnchoke(cfg, old(View()), id)
      ensures IsBatch(batch, Fill(cfg, Allowed(cfg, old(View()), id), id).1)
      ensures id in peers && !peers[id].choked && old(peers)[id].inFlight <= peers[id].inFlight
      ensures old(peers)[id].inFlight == {} && (exists i :: Available(cfg, old(View()), id, i)) ==> batch != []
    {
      hide Inv, Fill, Interest, WindowOk, IsBatch, Useful, Available;
      ghost var s := View();
      UnchokeEffect(cfg, s, id);
      var p := peers[id];
      WindowKept(cfg, s, id, p.inFlight);
      SameWindow(p, p.(choked := false));
      PeerChangeKeepsInv(cfg, s, id, p.(choked := false));
      peers := peers[id := p.(choked := false)];
      said := EnsureInterested(id);
      batch := FillPipeline(id);
      BatchEmpty(batch, Fill(cfg, Allowed(cfg, s, id), id).1);
    }

    /** `suggest piece` */
    method Suggested(id: nat, i: nat)
      requires Valid() && id in peers
      modifies this`peers, this`taken
      ensures Valid() && View() == OnSuggest(cfg, old(View()), id, i)
    {
      hide Inv, AllWantedDone, NumBlocks;
      SuggestKeepsInv(cfg, View(), id, i);
      var p := peers[id];
      if !AllWantedDone(cfg, View()) && i !in done && |p.queued| < MAX_QUEUED && i !in p.queued && i !in taken {
        taken := taken + {i};
        peers := peers[id := p.(queued := p.queued + [i], need := Register(p.need, i, NumBlocks(cfg, i)))];
      }
    }

    /** `shrink_stalled_pipeline`: a window stalled for more than three ticks is halved. */
    method ShrinkStalled(id: nat, stalled: bool)
      requires Valid() && id in peers
      modifies this`peers
      ensures Valid() && View() == SetPeer(old(View()), id, Shrink(cfg, old(peers)[id], stalled))
    {
      hide Inv, WindowOk;
      var p := peers[id];
      WindowKept(cfg, View(), id, p.inFlight);
      ShrinkKeepsWindow(cfg, p, stalled);
      PeerChangeKeepsInv(cfg, View(), id, Shrink(cfg, p, stalled));
      if cfg.fixedWindow.None? && p.inFlight != {} && stalled {
        p := p.(stale := p.stale + 1);
        if p.stale > 3 {
          p := p.(window := Max(p.window / 2, PIPELINE_MIN), stale := 0);
        }
      }
      peers := peers[id := p];
    }

    /** The periodic tick: shrink, then the requests that timed out, then the pipeline. */
    method Ticked(id: nat, stalled: bool, overdue: bool) returns (batch: bytes)
      requires Valid() && id in peers
      modifies this`peers, this`taken
      ensures Valid() && View() == OnTick(cfg, old(View()), id, stalled, overdue)
      ensures IsBatch(batch, AskIfUnchoked(cfg, Expired(cfg, old(View()), id, stalled, overdue), id))
    {
      hide Inv, Fill, WindowOk, IsBatch, Shrink;
      ShrinkStalled(id, stalled);
      var p := peers[id];
      WindowKept(cfg, View(), id, {});
      ExpireKeeps(p, overdue);
      PeerChangeKeepsInv(cfg, View(), id, Expire(p, overdue));
      if p.asked && p.inFlight != {} && overdue {
        peers := peers[id := p.(inFlight := {}, asked := false)];
      }
      assert peers == old(peers)[id := Expire(p, overdue)];
      batch := [];
      NothingSent();
      if !peers[id].choked {
        batch := FillPipeline(id);
      }
    }

    /** `reject`: the request is no longer outstanding. */
    method Rejected(id: nat, i: nat, begin: nat)
      requires Valid() && id in peers
      modifies this`peers
      ensures Valid() && View() == OnReject(old(View()), id, i, begin)
    {
      hide Inv, Enabled;
      ghost var e := Event.Rejected(id, i, begin);
      assert Enabled(cfg, View(), e) by { AnyTime(cfg, View(), e); }
      StepKeepsInv(cfg, View(), e);
      var p := peers[id];
      p := p.(inFlight := p.inFlight - {(i, begin)});
      peers := peers[id := p.(stale := p.stale + 1)];
    }

    /** `have`, `bitfield` and `have all`: pieces beyond the last one are ignored. */
    method HavesReceived(id: nat, pieces: seq<nat>) returns (said: bool, batch: bytes)
      requires Valid() && id in peers
      modifies this`peers, this`taken
      ensures Valid() && View() == OnHave(cfg, old(View()), id, Members(pieces))
      ensures IsBatch(batch, AskIfUnchoked(cfg, Informed(cfg, old(View()), id, Members(pieces)), id))
    {
      hide Inv, Fill, Interest, WindowOk, PieceCount, IsBatch;
      ghost var s := View();
      var p := peers[id];
      var count, have := PieceCount(cfg.layout), p.have;
      for k := 0 to |pieces|
        invariant peers == s.peers && taken == s.taken
        invariant have == p.have + (set i | i in Members(pieces[..k]) && i < count)
      {
        if pieces[k] < count {
          have := have + {pieces[k]};
        }
      }
      assert pieces[..|pieces|] == pieces;
      HaveStep(cfg, s, id, Members(pieces), have);
      WindowKept(cfg, s, id, p.inFlight);
      SameWindow(p, p.(have := have));
      PeerChangeKeepsInv(cfg, s, id, p.(have := have));
      peers := peers[id := p.(have := have)];
      said := EnsureInterested(id);
      batch := [];
      NothingSent();
      if !peers[id].choked {
        batch := FillPipeline(id);
      }
    }

    /** `have none` */
    method NoneReceived(id: nat)
      requires Valid() && id in peers
      modifies this`peers
      ensures Valid() && View() == Step(cfg, old(View()), HaveNone(id))
    {
      hide Inv, Enabled;
      AnyTime(cfg, View(), HaveNone(id));
      StepKeepsInv(cfg, View(), HaveNone(id));
      peers := peers[id := peers[id].(have := {})];
    }

    /** A session starts: with a full window, or the configured one within its bounds. */
    method RegisterPeer(id: nat, held: set<nat>, choked: bool, interested: bool) returns (batch: bytes)
      requires Valid() && id !in peers
      modifies this`peers, this`taken
      ensures Valid() && View() == Step(cfg, old(View()), Join(id, held, choked, interested))
      ensures IsBatch(batch, AskIfUnchoked(cfg, Joined(cfg, old(View()), id, held, choked, interested), id))
    {
      hide Inv, Fill, PeerOk, IsBatch;
      ghost var s := View();
      var window := if cfg.fixedWindow.None? then PIPELINE_MAX else Min(Max(cfg.fixedWindow.value, PIPELINE_MIN), PIPELINE_MAX);
      var have := set i | i in held && i < PieceCount(cfg.layout);
      var p := Peer(have, choked, interested, true, [], window, {}, map[], map[], map[], 0, false);
      assert p == FreshPeer(cfg, held, choked, interested);
      CleanPeer(cfg, p);
      InvSetPeer(cfg, s, id, p);
      peers := peers[id := p];
      batch := [];
      NothingSent();
      if !choked {
        batch := FillPipeline(id);
      }
    }

    /** `unregister_peer`: frees the pieces and strikes the session off the peers table. */
    method UnregisterPeer(id: nat)
      requires Valid() && id in peers
      modifies this`peers, this`taken
      ensures Valid() && View() == Step(cfg, old(View()), Evict(id))
      ensures Freed(old(View()), View(), id) && id in peers && peers[id].queued == [] && !peers[id].listed
    {
      hide Inv, Enabled, Freed;
      LeaveEffect(cfg, View(), id);
      AnyTime(cfg, View(), Evict(id));
      StepKeepsInv(cfg, View(), Evict(id));
      ReleaseAllPieces(id);
      peers := peers[id := peers[id].(listed := false)];
    }
  }

  function Members(q: seq<nat>): (r: set<nat>)
    ensures forall i :: i in r <==> i in q
  {
    set i | i in q
  }

  lemma HaveStep(cfg: Config, s: State, id: nat, more: set<nat>, have: set<nat>)
    requires Valid(cfg.layout) && id in s.peers
    requires forall i :: i in have <==> i in s.peers[id].have || (i in more && i < PieceCount(cfg.layout))
    ensures Informed(cfg, s, id, more) == Interest(cfg, SetPeer(s, id, s.peers[id].(have := have)), id)
  {
    hide FillIfUnchoked, Interest, PieceCount;
    assert have == s.peers[id].have + (set i | i in more && i < PieceCount(cfg.layout));
  }

  /** Only a new session and a received block have conditions of their own. */
  lemma AnyTime(cfg: Config, s: State, e: Event)
    requires e.Rejected? || e.HaveNone? || e.Evict?
    requires e.id in s.peers
    ensures Enabled(cfg, s, e)
  {
  }

  /** The message a turn adds to the batch. */
  function Added(cfg: Config, t: Turn): seq<Wire.Message> {
    if t.Ask? then [RequestOf(cfg, t.i, t.k)] else []
  }

  /** The state a turn leaves. */
  function Turned(cfg: Config, s: State, id: nat): State
    requires Valid(cfg.layout) && id in s.peers
  {
    var t := TurnOf(cfg, s, id);
    if t.Ask? then AskBlock(s, id, t.i, t.k) else if t.Take? then TakePiece(cfg, s, id, t.i) else s
  }

  // The turn, from what the loop body found out.

  lemma StoppingIs(cfg: Config, s: State, id: nat)
    requires Valid(cfg.layout) && id in s.peers
    requires var p := s.peers[id]; |p.inFlight| >= p.window || (NextBlock(cfg, p, p.queued).None? && |p.queued| >= Capacity(cfg, p))
    ensures TurnOf(cfg, s, id) == Stop && Turned(cfg, s, id) == s && Added(cfg, Stop) == []
  {
    hide NextBlock, Capacity, Pick;
  }

  lemma AskingIs(cfg: Config, s: State, id: nat)
    requires Valid(cfg.layout) && id in s.peers
    requires var p := s.peers[id]; |p.inFlight| < p.window && NextBlock(cfg, p, p.queued).Some?
    ensures var (i, k) := NextBlock(cfg, s.peers[id], s.peers[id].queued).value;
            && TurnOf(cfg, s, id) == Ask(i, k) && k < NumBlocks(cfg, i)
            && Turned(cfg, s, id) == AskBlock(s, id, i, k) && Added(cfg, Ask(i, k)) == [RequestOf(cfg, i, k)]
  {
    hide Capacity, Pick, NumBlocks, AskBlock, RequestOf;
  }

  lemma TakingIs(cfg: Config, s: State, id: nat)
    requires Valid(cfg.layout) && id in s.peers
    requires var p := s.peers[id]; |p.inFlight| < p.window && NextBlock(cfg, p, p.queued).None? && |p.queued| < Capacity(cfg, p)
    ensures var pick := Pick(cfg, s, id);
            && Turned(cfg, s, id) == (if pick.Some? then TakePiece(cfg, s, id, pick.value) else s)
            && Added(cfg, TurnOf(cfg, s, id)) == [] && (TurnOf(cfg, s, id) == Stop <==> pick.None?)
  {
    hide NextBlock, Capacity, Pick, TakePiece;
  }

  /** One write carrying the messages one after the other. */
  predicate IsBatch(wire: bytes, sent: seq<Wire.Message>) {
    Wire.AllSendable(sent) && wire == Wire.EncodeAll(sent)
  }

  lemma NothingSent()
    ensures IsBatch([], [])
  {
  }

  lemma BatchEmpty(batch: bytes, sent: seq<Wire.Message>)
    requires IsBatch(batch, sent)
    ensures batch == [] <==> sent == []
  {
  }

  lemma OneSent(m: Wire.Message)
    requires Wire.Sendable(m)
    ensures IsBatch(Wire.Encode(m), [m])
  {
    hide Wire.Sendable, Wire.Encode;
    Wire.EncodeAppend([], m);
    assert [] + [m] == [m];
  }

  lemma BatchGrows(batch: bytes, sent: seq<Wire.Message>, wire: bytes, added: seq<Wire.Message>)
    requires IsBatch(batch, sent) && IsBatch(wire, added) && |added| <= 1
    ensures IsBatch(batch + wire, sent + added)
  {
    hide Wire.Sendable, Wire.Encode;
    if added == [] {
      assert sent + added == sent && batch + wire == batch;
    } else {
      Wire.EncodeAppend(sent, added[0]);
      OneSent(added[0]);
      assert [added[0]] == added;
    }
  }

  lemma RequestFits(cfg: Config, i: nat, k: nat)
    requires Wire.Sendable(RequestOf(cfg, i, k))
    ensures var m := RequestOf(cfg, i, k);
            m.Request? && m.index <= U32_MAX && m.begin <= U32_MAX && m.length <= U32_MAX
            && m == Wire.Request(m.index, m.begin, m.length)
  {
  }

  /** One unfolding of the fill loop. */
  lemma LoopStep(cfg: Config, s: State, id: nat)
    requires Valid(cfg.layout) && id in s.peers && TurnOf(cfg, s, id) != Stop
    ensures var s' := Turned(cfg, s, id);
            && id in s'.peers && FillLoop(cfg, s, id).0 == FillLoop(cfg, s', id).0
            && FillLoop(cfg, s, id).1 == Added(cfg, TurnOf(cfg, s, id)) + FillLoop(cfg, s', id).1
  {
    hide TurnOf, RequestOf;
  }

  lemma Stopped(cfg: Config, s: State, id: nat)
    requires Valid(cfg.layout) && id in s.peers && TurnOf(cfg, s, id) == Stop
    ensures FillLoop(cfg, s, id) == (s, [])
  {
    hide TurnOf;
  }

  lemma TurnedKeeps(cfg: Config, s: State, id: nat)
    requires ValidConfig(cfg) && Inv(cfg, s) && id in s.peers
    ensures var s' := Turned(cfg, s, id);
            && id in s'.peers && Inv(cfg, s')
            && (TurnOf(cfg, s, id) != Stop ==> Slack(s', id) < Slack(s, id))
            && (TurnOf(cfg, s, id) == Stop ==> s' == s && Added(cfg, Stop) == [])
  {
    hide Inv, TurnOf, Slack;
    TurnKeepsInv(cfg, s, id);
    SlackFalls(cfg, s, id);
  }

  lemma InterestIs(cfg: Config, s: State, id: nat)
    requires Valid(cfg.layout) && id in s.peers
    ensures var p := s.peers[id];
            var some := exists i :: 0 <= i < PieceCount(cfg.layout) && Eligible(s, id, i);
            && (p.interested || AllWantedDone(cfg, s) || !some ==> Interest(cfg, s, id) == s)
            && (!p.interested && !AllWantedDone(cfg, s) && some ==>
                  Interest(cfg, s, id) == SetPeer(s, id, p.(interested := true)))
  {
    hide Eligible, PieceCount;
  }

  // Gathering a piece ---------------------------------------------------------------------------

  /** `order` lists, without repeats, the offsets of piece `i` that are not in `left`. */
  ghost predicate Listed(order: seq<nat>, blocks: map<Key, bytes>, i: nat, left: set<Key>) {
    && (forall b :: b in order <==> (i, b) in blocks && (i, b) !in left)
    && (forall x, y :: 0 <= x < y < |order| ==> order[x] != order[y])
  }

  lemma AssembleNone(blocks: map<Key, bytes>, i: nat, data: bytes)
    ensures Assemble(blocks, i, data, []) == Some(data)
  {
  }

  lemma {:induction false} AssembleOne(blocks: map<Key, bytes>, i: nat, data: bytes, order: seq<nat>, off: nat)
    requires forall b :: b in order ==> (i, b) in blocks
    requires (i, off) in blocks
    ensures forall b :: b in order + [off] ==> (i, b) in blocks
    ensures var x := blocks[(i, off)];
            var r := Assemble(blocks, i, data, order);
            Assemble(blocks, i, data, order + [off])
            == if r.None? || off + |x| > |r.value| then None else Some(Splice(r.value, off, x))
    decreases |order|
  {
    if order == [] {
      assert [] + [off] == [off] && [off][1..] == [];
      AssembleNone(blocks, i, data);
    } else {
      assert (order + [off])[1..] == order[1..] + [off] && (order + [off])[0] == order[0];
      if order[0] + |blocks[(i, order[0])]| <= |data| {
        AssembleOne(blocks, i, Splice(data, order[0], blocks[(i, order[0])]), order[1..], off);
      }
    }
  }

  /** Completes the listing; what did not fit so far does not fit with more. */
  lemma {:induction false} ListRest(blocks: map<Key, bytes>, i: nat, data: bytes, order: seq<nat>, left: set<Key>)
    returns (all: seq<nat>)
    requires left <= blocks.Keys && Listed(order, blocks, i, left)
    ensures Enumerates(all, blocks, i)
    ensures Assemble(blocks, i, data, order).None? ==> Assemble(blocks, i, data, all).None?
    decreases |left|
  {
    hide Assemble;
    if left == {} {
      all := order;
    } else {
      var key: Key :| key in left;
      if key.0 == i {
        AssembleOne(blocks, i, data, order, key.1);
        all := ListRest(blocks, i, data, order + [key.1], left - {key});
      } else {
        all := ListRest(blocks, i, data, order, left - {key});
      }
    }
  }

  lemma ListAll(blocks: map<Key, bytes>, i: nat) returns (all: seq<nat>)
    ensures Enumerates(all, blocks, i)
  {
    hide Assemble;
    all := ListRest(blocks, i, [], [], blocks.Keys);
  }

  lemma AdjustKeepsBlocks(cfg: Config, p: Peer, i: nat, begin: nat, block: bytes)
    ensures var r := ReceiveBlock(p, i, begin, block);
            r.blocks == p.blocks[(i, begin) := block] && Adjust(cfg, r) == r.(window := Adjust(cfg, r).window)
  {
  }

  /** A piece can only complete if it exists. */
  lemma CompleteExists(cfg: Config, s: State, id: nat, i: nat, begin: nat, block: bytes)
    requires ValidConfig(cfg) && Inv(cfg, s) && id in s.peers && i in s.peers[id].queued
    ensures PieceComplete(Adjust(cfg, ReceiveBlock(s.peers[id], i, begin, block)), i) ==> i < |cfg.hashes|
  {
    hide NumBlocks, OwnershipOk, DiskOk;
    BlocksExist(cfg, i);
  }
}
