/** The metadata accumulator as the engine mutates it, proved against the functions of Metadata. */
module MetadataAccum {
  import opened Bytes
  import opened Metadata
  import Torrent

  class Accumulator {
    var pieces: map<nat, bytes>
    var expectedSize: Option<nat>
    var requested: set<nat>
    var installed: Option<bytes>

    constructor ()
      ensures View() == Empty(None)
    {
      pieces, expectedSize, requested, installed := map[], None, {}, None;
    }

    ghost function View(): State
      reads this
    {
      State(pieces, expectedSize, requested, installed)
    }

    method Reset()
      modifies this
      ensures View() == Empty(old(installed))
    {
      pieces, expectedSize, requested := map[], None, {};
    }

    method Assemble() returns (r: Option<bytes>)
      ensures r == Assembled(View())
    {
      if expectedSize.None? || |pieces| != Count(expectedSize.value) {
        return None;
      }
      var count := Count(expectedSize.value);
      var out: bytes := [];
      assert forall x: bytes :: [] + x == x;
      for i := 0 to count
        invariant match JoinFrom(pieces, i, count)
                  case None => JoinFrom(pieces, 0, count) == None
                  case Some(rest) => JoinFrom(pieces, 0, count) == Some(out + rest)
      {
        if i !in pieces {
          return None;
        }
        Regroup(out, pieces[i], JoinFrom(pieces, i + 1, count));
        out := out + pieces[i];
      }
      assert out + [] == out;
      return Some(out);
    }

    static lemma Regroup(x: bytes, y: bytes, z: Option<bytes>)
      ensures z.Some? ==> (x + y) + z.value == x + (y + z.value)
    {
    }

    method NextPiece() returns (r: Option<nat>)
      modifies this`requested
      ensures r == Next(old(View()))
      ensures requested == old(requested) + (if r.Some? then {r.value} else {})
    {
      if expectedSize.None? {
        return None;
      }
      var count := Count(expectedSize.value);
      for i := 0 to count
        invariant requested == old(requested)
        invariant NextFrom(View(), i, count) == Next(View())
      {
        if i !in requested && i !in pieces {
          requested := requested + {i};
          return Some(i);
        }
      }
      return None;
    }

    method ReleaseUnreceived()
      modifies this`requested
      ensures View() == Release(old(View()))
    {
      if expectedSize.None? {
        if 0 !in pieces {
          requested := requested - {0};
        }
        return;
      }
      var count := Count(expectedSize.value);
      for i := 0 to count
        invariant requested == set k | k in old(requested) && (k >= i || k in pieces)
      {
        if i in requested && i !in pieces {
          requested := requested - {i};
        }
      }
    }

    method HandlePayload(env: Env, payload: bytes, installOk: bool) returns (r: Outcome)
      modifies this
      ensures (View(), r) == Handle(env, old(View()), payload, installOk)
      ensures Classify(payload).Rejected? ==>
                && r == Failed && pieces == old(pieces) && expectedSize == old(expectedSize) && installed == old(installed)
                && forall k :: k in requested <==> k in old(requested) && Classify(payload).asked != Some(k)
      ensures Classify(payload).Data? && old(expectedSize) != Some(Classify(payload).total) ==> requested == {}
    {
      hide Classify, Assembled, Torrent.ParseInfoBytes;
      match Classify(payload) {
        case Invalid => return Failed;
        case Ignored => return Fine;
        case Rejected(p) =>
          if p.Some? {
            requested := requested - {p.value};
          }
          return Failed;
        case Data(piece, total, content) =>
          if expectedSize != Some(total) {
            expectedSize := Some(total);
            pieces := map[];
            requested := {};
          }
          pieces := pieces[piece := content];
          var assembled := Assemble();
          if assembled.None? {
            return Fine;
          }
          var meta := Torrent.ParseInfoBytes(env.torrent, assembled.value);
          if meta.Err? {
            Reset();
            return Failed;
          }
          if meta.value.infoHash != env.infoHash {
            Reset();
            return Failed;
          }
          if !installOk {
            return Failed;
          }
          installed := assembled;
          return Fine;
      }
    }
  }
}
