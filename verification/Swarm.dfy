/**
 The download state machine: which peer fetches which piece, which blocks are outstanding,
 and when a piece counts as done. Every handler of the peer message loop is one step.
 */
module Swarm {
  import opened Bytes
  import opened Layout
  import Playhead
  import Wire

  const PIPELINE_MIN := 16
  const PIPELINE_MAX := 256
  const MAX_QUEUED := 4
  const MAX_QUEUED_HARD := 64

  /** What is fixed for a task; `fixedWindow` is a configured pipeline depth, if not adaptive. */
  datatype Config = Config(layout: Info, hashes: seq<bytes>, sha1: bytes -> bytes, fixedWindow: Option<nat>)

  /** The piece length fits the u32 arithmetic of requests, and there is one hash per piece. */
  predicate ValidConfig(cfg: Config) {
    && Valid(cfg.layout) && cfg.layout.pieceLength <= U32_MAX
    && |cfg.hashes| == PieceCount(cfg.layout) <= U32_MAX
  }

  type Key = (nat, nat)

  /**
   PeerCell and PeerCtx of one session; `listed` tells whether the peers table still has it, and
   `asked` whether requests went out since the last block came.
   */
  datatype Peer = Peer(
    have: set<nat>,
    choked: bool,
    interested: bool,
    listed: bool,
    queued: seq<nat>,
    window: nat,
    inFlight: set<Key>,
    blocks: map<Key, bytes>,
    need: map<nat, nat>,
    got: map<nat, nat>,
    stale: nat,
    asked: bool)

  /** `verifying` is set while existing data is being checked; no piece is wanted meanwhile. */
  datatype State = State(
    done: set<nat>,
    disk: map<nat, bytes>,
    taken: set<nat>,
    peers: map<nat, Peer>,
    wanted: Option<set<nat>>,
    playhead: Option<nat>,
    verifying: bool)

  function NumBlocks(cfg: Config, i: nat): nat { Wire.NumBlocks(PieceLen(cfg.layout, i)) }

  predicate Wanted(s: State, i: nat) { !s.verifying && (s.wanted.None? || i in s.wanted.value) }

  predicate AllWantedDone(cfg: Config, s: State)
    requires Valid(cfg.layout)
  {
    match s.wanted
    case None => Upto(PieceCount(cfg.layout)) <= s.done
    case Some(m) => m != {} && m <= s.done
  }

  // Selection of pieces --------------------------------------------------------------------

  /** The connected sessions that hold a piece. */
  function Holders(s: State, i: nat): set<nat> { set id | id in s.peers && s.peers[id].listed && i in s.peers[id].have }

  function Rarity(s: State, i: nat): nat { |Holders(s, i)| }

  /** Held by the peer, missing here, and wanted. */
  predicate Eligible(s: State, id: nat, i: nat)
    requires id in s.peers
  {
    i in s.peers[id].have && i !in s.done && Wanted(s, i)
  }

  function CandidatesFrom(s: State, id: nat, i: nat, count: nat): seq<Playhead.Candidate>
    requires id in s.peers && i <= count
    decreases count - i
  {
    if i == count then []
    else
      (if Eligible(s, id, i) then [Playhead.Candidate(i, Rarity(s, i))] else [])
      + CandidatesFrom(s, id, i + 1, count)
  }

  function Candidates(cfg: Config, s: State, id: nat): seq<Playhead.Candidate>
    requires Valid(cfg.layout) && id in s.peers
  {
    CandidatesFrom(s, id, 0, PieceCount(cfg.layout))
  }

  /** `assign_piece`: the piece it takes. */
  function Pick(cfg: Config, s: State, id: nat): Option<nat>
    requires Valid(cfg.layout) && id in s.peers
  {
    Playhead.FirstFree(Playhead.Ordered(cfg.layout, s.playhead, Candidates(cfg, s, id)), s.taken)
  }

  // The request pipeline ----------------------------------------------------------------------

  function BlockKey(i: nat, k: nat): Key { (i, k * Wire.BLOCK_SIZE) }

  /** The first block of piece `i`, from block `k` on, neither received nor outstanding. */
  function MissingBlock(p: Peer, i: nat, k: nat, n: nat): (r: Option<nat>)
    requires k <= n
    ensures r.Some? ==> k <= r.value < n && BlockKey(i, r.value) !in p.blocks && BlockKey(i, r.value) !in p.inFlight
    ensures r.None? ==> forall j :: k <= j < n ==> BlockKey(i, j) in p.blocks || BlockKey(i, j) in p.inFlight
    decreases n - k
  {
    if k == n then None
    else if BlockKey(i, k) !in p.blocks && BlockKey(i, k) !in p.inFlight then Some(k)
    else MissingBlock(p, i, k + 1, n)
  }

  /** The next block to ask for, by queue position: a piece and the number of the block in it. */
  function NextBlock(cfg: Config, p: Peer, queue: seq<nat>): (r: Option<(nat, nat)>)
    ensures r.Some? ==>
              var (i, k) := r.value;
              i in queue && k < NumBlocks(cfg, i) && BlockKey(i, k) !in p.blocks && BlockKey(i, k) !in p.inFlight
  {
    if queue == [] then None
    else
      match MissingBlock(p, queue[0], 0, NumBlocks(cfg, queue[0]))
      case Some(k) => Some((queue[0], k))
      case None => NextBlock(cfg, p, queue[1..])
  }

  /** How many pieces the queue may hold: enough to fill the window, at least 4, at most 64. */
  function Capacity(cfg: Config, p: Peer): nat {
    var perPiece := if p.queued == [] then 16 else Max(NumBlocks(cfg, p.queued[0]), 1);
    Min(Max(DivCeil(p.window, perPiece), MAX_QUEUED), MAX_QUEUED_HARD)
  }

  function Register(need: map<nat, nat>, i: nat, n: nat): map<nat, nat> {
    if i in need then need else need[i := n]
  }

  function RegisterAll(cfg: Config, need: map<nat, nat>, queue: seq<nat>): map<nat, nat>
    decreases |queue|
  {
    if queue == [] then need
    else RegisterAll(cfg, Register(need, queue[0], NumBlocks(cfg, queue[0])), queue[1..])
  }

  /** One turn of the fill loop: ask for a block, or take on a piece, or stop. */
  datatype Turn = Ask(i: nat, k: nat) | Take(i: nat) | Stop

  function TurnOf(cfg: Config, s: State, id: nat): Turn
    requires Valid(cfg.layout) && id in s.peers
  {
    var p := s.peers[id];
    if |p.inFlight| >= p.window then Stop
    else
      match NextBlock(cfg, p, p.queued)
      case Some((i, k)) => Ask(i, k)
      case None =>
        if |p.queued| >= Capacity(cfg, p) then Stop
        else
          match Pick(cfg, s, id)
          case Some(i) => Take(i)
          case None => Stop
  }

  function SetPeer(s: State, id: nat, p: Peer): State { s.(peers := s.peers[id := p]) }

  function AskBlock(s: State, id: nat, i: nat, k: nat): State
    requires id in s.peers
  {
    var p := s.peers[id];
    SetPeer(s, id, p.(inFlight := p.inFlight + {BlockKey(i, k)}))
  }

  function TakePiece(cfg: Config, s: State, id: nat, i: nat): State
    requires id in s.peers
  {
    var p := s.peers[id];
    SetPeer(s.(taken := s.taken + {i}), id,
            p.(queued := p.queued + [i], need := Register(p.need, i, NumBlocks(cfg, i))))
  }

  /** What is left to do: slots in the window and places in the queue. */
  function Slack(s: State, id: nat): nat
    requires id in s.peers
  {
    var p := s.peers[id];
    Max(0, p.window - |p.inFlight|) + Max(0, MAX_QUEUED_HARD - |p.queued|)
  }

  lemma SlackFalls(cfg: Config, s: State, id: nat)
    requires Valid(cfg.layout) && id in s.peers
    ensures match TurnOf(cfg, s, id)
            case Ask(i, k) => Slack(AskBlock(s, id, i, k), id) < Slack(s, id)
            case Take(i) => Slack(TakePiece(cfg, s, id, i), id) < Slack(s, id)
            case Stop => true
  {
    hide NextBlock, Pick, NumBlocks;
  }

  /** A request as it was decided: piece, offset and length. */
  function RequestOf(cfg: Config, i: nat, k: nat): Wire.Message {
    var begin := k * Wire.BLOCK_SIZE;
    Wire.Request(i, begin, Min(Max(PieceLen(cfg.layout, i) - begin, 0), Wire.BLOCK_SIZE))
  }

  /** The fill loop: the state it ends in and the requests it sends, in order. */
  function FillLoop(cfg: Config, s: State, id: nat): (r: (State, seq<Wire.Message>))
    requires Valid(cfg.layout) && id in s.peers
    ensures id in r.0.peers
    decreases Slack(s, id)
  {
    SlackFalls(cfg, s, id);
    match TurnOf(cfg, s, id)
    case Stop => (s, [])
    case Take(i) => FillLoop(cfg, TakePiece(cfg, s, id, i), id)
    case Ask(i, k) =>
      var (s', sent) := FillLoop(cfg, AskBlock(s, id, i, k), id);
      (s', [RequestOf(cfg, i, k)] + sent)
  }

  predicate MayFill(p: Peer) { !p.choked && p.interested && |p.inFlight| < p.window }

  /** `fill_pipeline` */
  function Fill(cfg: Config, s: State, id: nat): (State, seq<Wire.Message>)
    requires Valid(cfg.layout) && id in s.peers
  {
    var p := s.peers[id];
    if !MayFill(p) then (s, [])
    else
      var r := FillLoop(cfg, SetPeer(s, id, p.(need := RegisterAll(cfg, p.need, p.queued))), id);
      (Sent(r.0, id, r.1), r.1)
  }

  /** Requests that went out are remembered until the next block. */
  function Sent(s: State, id: nat, sent: seq<Wire.Message>): State
    requires id in s.peers
  {
    if sent == [] then s else SetPeer(s, id, s.peers[id].(asked := true))
  }

  // Received blocks ------------------------------------------------------------------------------

  function GotOf(p: Peer, i: nat): nat { if i in p.got then p.got[i] else 0 }

  predicate PieceComplete(p: Peer, i: nat) {
    i in p.need && i in p.got && p.need[i] > 0 && p.got[i] >= p.need[i]
  }

  /** The block goes into the cache; only a first copy counts. */
  function ReceiveBlock(p: Peer, i: nat, begin: nat, block: bytes): Peer {
    p.(blocks := p.blocks[(i, begin) := block],
       got := if (i, begin) in p.blocks then p.got else p.got[i := GotOf(p, i) + 1],
       inFlight := p.inFlight - {(i, begin)},
       stale := 0,
       asked := false)
  }

  /** `adjust_pipeline`: a window three quarters full grows by a quarter. */
  function Adjust(cfg: Config, p: Peer): Peer {
    if cfg.fixedWindow.Some? || |p.inFlight| * 4 < p.window * 3 then p
    else p.(window := Min(p.window + Max(p.window / 4, 1), PIPELINE_MAX))
  }

  /** `shrink_stalled_pipeline`; `stalled` says that no block came for over five seconds. */
  function Shrink(cfg: Config, p: Peer, stalled: bool): Peer {
    if cfg.fixedWindow.Some? || p.inFlight == {} || !stalled then p
    else if p.stale + 1 > 3 then p.(window := Max(p.window / 2, PIPELINE_MIN), stale := 0)
    else p.(stale := p.stale + 1)
  }

  function Splice(data: bytes, off: nat, x: bytes): bytes
    requires off + |x| <= |data|
  {
    data[..off] + x + data[off + |x|..]
  }

  /** Copies the cached blocks of piece `i` into the buffer in some order; None if one does not fit. */
  function Assemble(blocks: map<Key, bytes>, i: nat, data: bytes, order: seq<nat>): (r: Option<bytes>)
    requires forall b :: b in order ==> (i, b) in blocks
    ensures r.Some? ==> |r.value| == |data|
    decreases |order|
  {
    if order == [] then Some(data)
    else
      var x := blocks[(i, order[0])];
      if order[0] + |x| > |data| then None
      else Assemble(blocks, i, Splice(data, order[0], x), order[1..])
  }

  function Zeros(n: nat): bytes { seq(n, _ => 0) }

  /** An enumeration of the offsets of the cached blocks of piece `i`, as a hash map may give it. */
  ghost predicate Enumerates(order: seq<nat>, blocks: map<Key, bytes>, i: nat) {
    && (forall b :: b in order <==> (i, b) in blocks)
    && (forall x, y :: 0 <= x < y < |order| ==> order[x] != order[y])
  }

  /** `accept_piece`: checked against the expected hash, written, marked. */
  function Accept(cfg: Config, s: State, i: nat, data: bytes, writeOk: bool): State {
    if i in s.done || i >= |cfg.hashes| || cfg.sha1(data) != cfg.hashes[i] || !writeOk then s
    else s.(disk := s.disk[i := data], done := s.done + {i})
  }

  function Without(q: seq<nat>, i: nat): (r: seq<nat>)
    ensures forall x :: x in r <==> x in q && x != i
  {
    if q == [] then [] else (if q[0] == i then [] else [q[0]]) + Without(q[1..], i)
  }

  /** The piece leaves the session: slot, cache, outstanding requests and counters. */
  function Forget(p: Peer, i: nat): Peer {
    p.(queued := Without(p.queued, i),
       blocks := (map k | k in p.blocks && k.0 != i :: p.blocks[k]),
       inFlight := (set k | k in p.inFlight && k.0 != i),
       need := p.need - {i},
       got := p.got - {i})
  }

  function Finish(cfg: Config, s: State, id: nat, i: nat, order: seq<nat>, writeOk: bool): State
    requires id in s.peers && Enumerates(order, s.peers[id].blocks, i)
  {
    var p := s.peers[id];
    var s1 := match Assemble(p.blocks, i, Zeros(PieceLen(cfg.layout, i)), order)
              case Some(data) => Accept(cfg, s, i, data, writeOk)
              case None => s;
    SetPeer(s1.(taken := s1.taken - {i}), id, Forget(p, i))
  }

  function OnPiece(cfg: Config, s: State, id: nat, i: nat, begin: nat, block: bytes, order: seq<nat>, writeOk: bool): State
    requires Valid(cfg.layout) && id in s.peers
    requires Enumerates(order, s.peers[id].blocks[(i, begin) := block], i)
  {
    var p := s.peers[id];
    if i !in p.queued then s
    else
      var p' := Adjust(cfg, ReceiveBlock(p, i, begin, block));
      var s' := SetPeer(s, id, p');
      Fill(cfg, if PieceComplete(p', i) then Finish(cfg, s', id, i, order, writeOk) else s', id).0
  }

  // The other handlers ---------------------------------------------------------------------------

  /** `release_all_pieces` */
  function ReleaseAll(s: State, id: nat): State
    requires id in s.peers
  {
    var p := s.peers[id];
    SetPeer(s.(taken := s.taken - (set i | i in p.queued)), id, p.(queued := []))
  }

  function OnChoke(s: State, id: nat): State
    requires id in s.peers
  {
    var s' := ReleaseAll(s, id);
    SetPeer(s', id, s'.peers[id].(choked := true, inFlight := {}, blocks := map[], need := map[], got := map[]))
  }

  /** `ensure_interested`: once something the peer holds is missing and wanted. */
  function Interest(cfg: Config, s: State, id: nat): State
    requires Valid(cfg.layout) && id in s.peers
  {
    var p := s.peers[id];
    if p.interested || AllWantedDone(cfg, s)
       || !(exists i :: i in Upto(PieceCount(cfg.layout)) && Eligible(s, id, i)) then s
    else SetPeer(s, id, p.(interested := true))
  }

  function FillIfUnchoked(cfg: Config, s: State, id: nat): State
    requires Valid(cfg.layout) && id in s.peers
  {
    if s.peers[id].choked then s else Fill(cfg, s, id).0
  }

  /** The requests that go out with it. */
  function AskIfUnchoked(cfg: Config, s: State, id: nat): seq<Wire.Message>
    requires Valid(cfg.layout) && id in s.peers
  {
    if s.peers[id].choked then [] else Fill(cfg, s, id).1
  }

  /** What the peer holds grew; interest may follow. */
  function Informed(cfg: Config, s: State, id: nat, more: set<nat>): State
    requires Valid(cfg.layout) && id in s.peers
  {
    var p := s.peers[id];
    Interest(cfg, SetPeer(s, id, p.(have := p.have + (set i | i in more && i < PieceCount(cfg.layout)))), id)
  }

  /** New piece information: `have`, `bitfield` and `have all`. */
  function OnHave(cfg: Config, s: State, id: nat, more: set<nat>): State
    requires Valid(cfg.layout) && id in s.peers
  {
    FillIfUnchoked(cfg, Informed(cfg, s, id, more), id)
  }

  function Allowed(cfg: Config, s: State, id: nat): State
    requires Valid(cfg.layout) && id in s.peers
  {
    Interest(cfg, SetPeer(s, id, s.peers[id].(choked := false)), id)
  }

  function OnUnchoke(cfg: Config, s: State, id: nat): State
    requires Valid(cfg.layout) && id in s.peers
  {
    Fill(cfg, Allowed(cfg, s, id), id).0
  }

  /** A suggested piece is queued whether or not it exists or is wanted. */
  function OnSuggest(cfg: Config, s: State, id: nat, i: nat): State
    requires Valid(cfg.layout) && id in s.peers
  {
    var p := s.peers[id];
    if AllWantedDone(cfg, s) || i in s.done || |p.queued| >= MAX_QUEUED || i in p.queued || i in s.taken then s
    else TakePiece(cfg, s, id, i)
  }

  function OnReject(s: State, id: nat, i: nat, begin: nat): State
    requires id in s.peers
  {
    var p := s.peers[id];
    SetPeer(s, id, p.(inFlight := p.inFlight - {(i, begin)}, stale := p.stale + 1))
  }

  /**
   Drops outstanding requests when no block came for over thirty seconds (`overdue`), but only if
   requests went out since the last block.
   */
  function Expire(p: Peer, overdue: bool): Peer {
    if p.asked && p.inFlight != {} && overdue then p.(inFlight := {}, asked := false) else p
  }

  function Expired(cfg: Config, s: State, id: nat, stalled: bool, overdue: bool): State
    requires id in s.peers
  {
    SetPeer(s, id, Expire(Shrink(cfg, s.peers[id], stalled), overdue))
  }

  /** The ten-second tick: shrink a stalled window, drop requests that timed out, fill again. */
  function OnTick(cfg: Config, s: State, id: nat, stalled: bool, overdue: bool): State
    requires Valid(cfg.layout) && id in s.peers
  {
    FillIfUnchoked(cfg, Expired(cfg, s, id, stalled, overdue), id)
  }

  function FreshPeer(cfg: Config, have: set<nat>, choked: bool, interested: bool): Peer
    requires Valid(cfg.layout)
  {
    var window := match cfg.fixedWindow
                  case None => PIPELINE_MAX
                  case Some(w) => Min(Max(w, PIPELINE_MIN), PIPELINE_MAX);
    Peer((set i | i in have && i < PieceCount(cfg.layout)), choked, interested, true, [], window, {}, map[], map[], map[], 0, false)
  }

  function Joined(cfg: Config, s: State, id: nat, held: set<nat>, choked: bool, interested: bool): State
    requires Valid(cfg.layout)
  {
    SetPeer(s, id, FreshPeer(cfg, held, choked, interested))
  }

  // Runs -------------------------------------------------------------------------------------------

  datatype Event =
    | Join(id: nat, held: set<nat>, choked: bool, interested: bool)
    | Leave(id: nat)
    | Evict(id: nat)
    | Haves(id: nat, pieces: set<nat>)
    | HaveNone(id: nat)
    | Choked(id: nat)
    | Unchoked(id: nat)
    | Suggested(id: nat, piece: nat)
    | Rejected(id: nat, piece: nat, begin: nat)
    | Received(id: nat, piece: nat, begin: nat, block: bytes, order: seq<nat>, writeOk: bool)
    | Tick(id: nat, stalled: bool, overdue: bool)
    | Select(wanted: Option<set<nat>>)
    | Seek(playhead: Option<nat>)
    | Verifying(on: bool)

  ghost predicate Enabled(cfg: Config, s: State, e: Event) {
    match e
    case Join(id, _, _, _) => id !in s.peers
    case Select(_) => true
    case Seek(_) => true
    case Verifying(_) => true
    case Received(id, i, begin, block, order, _) =>
      id in s.peers && Enumerates(order, s.peers[id].blocks[(i, begin) := block], i)
    case _ => e.id in s.peers
  }

  /** One step; an evicted session may still handle messages until it leaves. */
  function Step(cfg: Config, s: State, e: Event): State
    requires Valid(cfg.layout) && Enabled(cfg, s, e)
  {
    match e
    case Join(id, held, choked, interested) =>
      FillIfUnchoked(cfg, Joined(cfg, s, id, held, choked, interested), id)
    case Leave(id) =>
      var s' := ReleaseAll(s, id);
      s'.(peers := s'.peers - {id})
    case Evict(id) =>
      var s' := ReleaseAll(s, id);
      SetPeer(s', id, s'.peers[id].(listed := false))
    case Haves(id, pieces) => OnHave(cfg, s, id, pieces)
    case HaveNone(id) => SetPeer(s, id, s.peers[id].(have := {}))
    case Choked(id) => OnChoke(s, id)
    case Unchoked(id) => OnUnchoke(cfg, s, id)
    case Suggested(id, i) => OnSuggest(cfg, s, id, i)
    case Rejected(id, i, begin) => OnReject(s, id, i, begin)
    case Received(id, i, begin, block, order, writeOk) => OnPiece(cfg, s, id, i, begin, block, order, writeOk)
    case Tick(id, stalled, overdue) => OnTick(cfg, s, id, stalled, overdue)
    case Select(wanted) => s.(wanted := wanted)
    case Seek(playhead) => s.(playhead := playhead)
    case Verifying(on) => s.(verifying := on)
  }

  ghost predicate Possible(cfg: Config, s: State, run: seq<Event>)
    requires Valid(cfg.layout)
    decreases |run|
  {
    run == [] || (Enabled(cfg, s, run[0]) && Possible(cfg, Step(cfg, s, run[0]), run[1..]))
  }

  function After(cfg: Config, s: State, run: seq<Event>): State
    requires Valid(cfg.layout) && Possible(cfg, s, run)
    decreases |run|
  {
    if run == [] then s else After(cfg, Step(cfg, s, run[0]), run[1..])
  }

  /** Before any peer: nothing done, or what the resume file or a disk check established. */
  function Start(done: map<nat, bytes>, wanted: Option<set<nat>>): State {
    State(done.Keys, done, {}, map[], wanted, None, false)
  }
}
