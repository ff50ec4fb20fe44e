/** Files opened on demand while existing data is checked, and pieces read through them. */
module FileCache {
  import opened Bytes
  import opened Layout

  /** A path of the layout on a disk that does not change meanwhile. */
  datatype Entry = Absent | Locked(size: nat) | Readable(content: bytes)

  type Disk = seq<Entry>

  /** Opening file `fi` afresh, when it is at least `need` bytes long. */
  function Open(disk: Disk, fi: nat, need: nat): Option<bytes> {
    if fi < |disk| && disk[fi].Readable? && |disk[fi].content| >= need then Some(disk[fi].content) else None
  }

  /** The queue lists the open handles once each, and a handle reads its file. */
  ghost predicate InOrder(disk: Disk, handles: map<nat, bytes>, order: seq<nat>) {
    && |handles| == |order|
    && NoRepeats(order) && (forall fi :: fi in order <==> fi in handles)
    && (forall fi :: fi in handles ==> fi < |disk| && disk[fi] == Readable(handles[fi]))
  }

  lemma CloseOldest(disk: Disk, handles: map<nat, bytes>, order: seq<nat>)
    requires InOrder(disk, handles, order) && order != []
    ensures InOrder(disk, handles - {order[0]}, order[1..])
  {
    assert (handles - {order[0]}).Keys == handles.Keys - {order[0]};
    assert forall x :: x in order[1..] <==> x in order && x != order[0];
  }

  lemma OpenNext(disk: Disk, handles: map<nat, bytes>, order: seq<nat>, fi: nat)
    requires InOrder(disk, handles, order) && fi !in handles && fi < |disk| && disk[fi].Readable?
    ensures InOrder(disk, handles[fi := disk[fi].content], order + [fi])
  {
    assert handles[fi := disk[fi].content].Keys == handles.Keys + {fi};
  }

  /** `VerifyFileCache`; a handle stands for the content it reads. */
  class VerifyFileCache {
    const disk: Disk
    const limit: nat
    var handles: map<nat, bytes>
    var order: seq<nat>

    ghost predicate Valid()
      reads this
    {
      InOrder(disk, handles, order) && |handles| <= limit && limit >= 1
    }

    constructor (disk: Disk, limit: nat)
      ensures Valid() && this.disk == disk && this.limit == Max(limit, 1) && handles == map[]
    {
      this.disk, this.limit, handles, order := disk, Max(limit, 1), map[], [];
    }

    /** Answers as an uncached open would; a new handle replaces the oldest one when the cache is full. */
    method File(fi: nat, need: nat) returns (r: Option<bytes>)
      requires Valid()
      modifies this
      ensures Valid() && r == Open(disk, fi, need)
      ensures r.Some? ==> fi in handles
      ensures fi in old(handles) || r.None? ==> handles == old(handles) && order == old(order)
      ensures fi !in old(handles) && r.Some? ==>
                order == (if |old(order)| == limit then old(order)[1..] else old(order)) + [fi]
    {
      if fi in handles {
        return if |handles[fi]| < need then None else Some(handles[fi]);
      }
      if fi >= |disk| || disk[fi].Absent? {
        return None;
      }
      var size := if disk[fi].Locked? then disk[fi].size else |disk[fi].content|;
      if size < need || disk[fi].Locked? {
        return None;
      }
      if |handles| >= limit {
        CloseOldest(disk, handles, order);
        handles := handles - {order[0]};
        order := order[1..];
      }
      OpenNext(disk, handles, order, fi);
      handles := handles[fi := disk[fi].content];
      order := order + [fi];
      r := Some(handles[fi]);
    }
  }

  // Reading a piece ---------------------------------------------------------------------------

  /** The content of the segments one after the other; None if a file is missing or too short. */
  function ReadSegments(disk: Disk, segs: seq<Seg>): (r: Option<bytes>)
    ensures r.Some? ==> |r.value| == SumLen(segs)
  {
    if segs == [] then Some([])
    else
      var s := segs[0];
      match Open(disk, s.file, s.off + s.len)
      case None => None
      case Some(content) =>
        match ReadSegments(disk, segs[1..])
        case None => None
        case Some(rest) => Some(content[s.off..s.off + s.len] + rest)
  }

  function PieceOnDisk(disk: Disk, l: Info, i: nat): Option<bytes> { ReadSegments(disk, Segments(l, i)) }

  /** The file is there and reaches to the end of the segment, even of an empty one. */
  predicate Covered(disk: Disk, s: Seg) { Open(disk, s.file, s.off + s.len).Some? }

  function Prepend(buf: bytes, r: Option<bytes>): Option<bytes> {
    if r.Some? then Some(buf + r.value) else None
  }

  lemma ReadStep(disk: Disk, segs: seq<Seg>, k: nat, buf: bytes)
    requires k < |segs|
    ensures var s := segs[k];
            Prepend(buf, ReadSegments(disk, segs[k..])) ==
              if !Covered(disk, s) then None
              else Prepend(buf + Open(disk, s.file, s.off + s.len).value[s.off..s.off + s.len], ReadSegments(disk, segs[k + 1..]))
  {
    var s := segs[k];
    assert segs[k..][0] == s && segs[k..][1..] == segs[k + 1..];
    if Covered(disk, s) && ReadSegments(disk, segs[k + 1..]).Some? {
      var x, rest := Open(disk, s.file, s.off + s.len).value[s.off..s.off + s.len], ReadSegments(disk, segs[k + 1..]).value;
      assert buf + (x + rest) == (buf + x) + rest;
    }
  }

  /** `read_piece_into` */
  method ReadPiece(cache: VerifyFileCache, l: Info, i: nat) returns (r: Option<bytes>)
    requires Layout.Valid(l) && cache.Valid()
    modifies cache
    ensures cache.Valid() && r == PieceOnDisk(cache.disk, l, i)
  {
    hide PieceLen, SumLen, PieceOnDisk, Prepend;
    var need := PieceLen(l, i);
    var segs := PieceSegments(l, i);
    var buf := ReadAll(cache, segs);
    SegmentLengths(l, i);
    r := if buf.Some? && |buf.value| == need then buf else None;
    ReadWhole(cache.disk, l, i);
  }

  method ReadAll(cache: VerifyFileCache, segs: seq<Seg>) returns (r: Option<bytes>)
    requires cache.Valid()
    modifies cache
    ensures cache.Valid() && r == ReadSegments(cache.disk, segs)
  {
    hide Open, ReadSegments, Prepend, Covered;
    var buf: bytes := [];
    PrependNothing(ReadSegments(cache.disk, segs));
    assert segs[0..] == segs;
    for k := 0 to |segs|
      invariant cache.Valid()
      invariant Prepend(buf, ReadSegments(cache.disk, segs[k..])) == ReadSegments(cache.disk, segs)
    {
      var s := segs[k];
      ReadStep(cache.disk, segs, k, buf);
      var file := cache.File(s.file, s.off + s.len);
      OpenLength(cache.disk, s);
      if file.None? {
        return None;
      }
      buf := buf + file.value[s.off..s.off + s.len];
    }
    NothingMore(cache.disk, segs, buf);
    r := Some(buf);
  }

  lemma ReadWhole(disk: Disk, l: Info, i: nat)
    requires Layout.Valid(l)
    ensures PieceOnDisk(disk, l, i) == ReadSegments(disk, Segments(l, i))
    ensures PieceOnDisk(disk, l, i).Some? ==> |PieceOnDisk(disk, l, i).value| == PieceLen(l, i)
  {
    SegmentLengths(l, i);
  }

  lemma PrependNothing(r: Option<bytes>)
    ensures Prepend([], r) == r
  {
    if r.Some? {
      assert [] + r.value == r.value;
    }
  }

  lemma OpenLength(disk: Disk, s: Seg)
    ensures var r := Open(disk, s.file, s.off + s.len);
            (Covered(disk, s) <==> r.Some?) && (r.Some? ==> |r.value| >= s.off + s.len)
  {
  }

  lemma NothingMore(disk: Disk, segs: seq<Seg>, buf: bytes)
    ensures Prepend(buf, ReadSegments(disk, segs[|segs|..])) == Some(buf)
  {
    assert segs[|segs|..] == [] && buf + [] == buf;
  }

  // What a piece read from disk is ----------------------------------------------------------------

  /** A piece can be read exactly when every one of its segments is covered. */
  lemma {:induction false} ReadableIff(disk: Disk, segs: seq<Seg>)
    ensures ReadSegments(disk, segs).Some? <==> forall k :: 0 <= k < |segs| ==> Covered(disk, segs[k])
  {
    hide Covered;
    if segs != [] {
      ReadableIff(disk, segs[1..]);
      CoveredHead(disk, segs);
      assert forall k :: 0 < k < |segs| ==> segs[k] == segs[1..][k - 1];
    }
  }

  lemma CoveredHead(disk: Disk, segs: seq<Seg>)
    requires segs != []
    ensures ReadSegments(disk, segs).Some? <==> Covered(disk, segs[0]) && ReadSegments(disk, segs[1..]).Some?
  {
  }

  lemma {:induction false} ReadByte(disk: Disk, l: Info, segs: seq<Seg>, a: nat, b: nat, f: nat, d: nat)
    requires Chain(l, segs, a, b) && ReadSegments(disk, segs).Some?
    requires f < |l.lens| && d < l.lens[f] && a <= Offset(l, f) + d < b
    ensures f < |disk| && disk[f].Readable? && d < |disk[f].content|
    ensures |ReadSegments(disk, segs).value| == b - a
    ensures ReadSegments(disk, segs).value[Offset(l, f) + d - a] == disk[f].content[d]
    decreases |segs|
  {
    hide Offset;
    var s := segs[0];
    var g := Offset(l, f) + d;
    ChainSum(l, segs, a, b);
    if g < a + s.len {
      FileOfByte(l, f, s.file, g);
    } else {
      ReadByte(disk, l, segs[1..], a + s.len, b, f, d);
    }
  }

  /** Every byte of a piece read from disk is the byte of the file that the layout puts there. */
  lemma PieceIsContent(disk: Disk, l: Info, i: nat, f: nat, d: nat)
    requires Layout.Valid(l) && i < PieceCount(l) && PieceOnDisk(disk, l, i).Some?
    requires f < |l.lens| && d < l.lens[f] && PieceStart(l, i) <= Offset(l, f) + d < PieceEnd(l, i)
    ensures f < |disk| && disk[f].Readable? && d < |disk[f].content|
    ensures |PieceOnDisk(disk, l, i).value| == PieceLen(l, i)
    ensures PieceOnDisk(disk, l, i).value[Offset(l, f) + d - PieceStart(l, i)] == disk[f].content[d]
  {
    PieceBounds(l, i);
    SegmentsChain(l, i);
    ReadByte(disk, l, Segments(l, i), PieceStart(l, i), PieceEnd(l, i), f, d);
  }
}
