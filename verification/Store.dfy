/** Piece storage over files, with a write-back cache in front. */
module Store {
  import opened Bytes
  import opened Layout
  import opened Bitfield

  type Files = seq<bytes>

  function ByteAt(files: Files, f: nat, d: nat): Option<byte> {
    if f < |files| && d < |files[f]| then Some(files[f][d]) else None
  }

  // Writing and reading segments -----------------------------------------------------------------

  /** A write at an offset; a gap before it reads as zeros, an empty write does nothing. */
  function Patch(content: bytes, off: nat, x: bytes): bytes {
    if x == [] then content
    else if off >= |content| then content + seq(off - |content|, _ => 0) + x
    else content[..off] + x + (if off + |x| <= |content| then content[off + |x|..] else [])
  }

  lemma PatchIs(content: bytes, off: nat, x: bytes, d: nat)
    ensures var p := Patch(content, off, x);
            && (off <= d < off + |x| ==> d < |p| && p[d] == x[d - off])
            && (!(off <= d < off + |x|) && d < |content| ==> d < |p| && p[d] == content[d])
  {
  }

  /** The data lands in the files that have a handle. */
  function WriteSegments(files: Files, open: set<nat>, segs: seq<Seg>, data: bytes): (r: Files)
    requires |data| == SumLen(segs)
    ensures |r| == |files|
    decreases |segs|
  {
    if segs == [] then files
    else
      var s := segs[0];
      var next := if s.file in open && s.file < |files| then files[s.file := Patch(files[s.file], s.off, data[..s.len])] else files;
      WriteSegments(next, open, segs[1..], data[s.len..])
  }

  /** The part of a piece that lies in files with a handle. */
  function Visible(open: set<nat>, segs: seq<Seg>, data: bytes): bytes
    requires |data| == SumLen(segs)
    decreases |segs|
  {
    if segs == [] then []
    else (if segs[0].file in open then data[..segs[0].len] else []) + Visible(open, segs[1..], data[segs[0].len..])
  }

  function ReadSegment(files: Files, s: Seg): Option<bytes> {
    if s.len == 0 then Some([])
    else if s.file < |files| && s.off + s.len <= |files[s.file]| then Some(files[s.file][s.off..s.off + s.len])
    else None
  }

  /** Byte `d` of file `f` after a write: the data where the chain covers it, else what was there. */
  lemma {:induction false} WrittenByte(l: Info, files: Files, open: set<nat>, segs: seq<Seg>, data: bytes, a: nat, b: nat, f: nat, d: nat)
    requires Chain(l, segs, a, b) && |data| == SumLen(segs) == b - a && |files| == |l.lens|
    requires f < |l.lens| && d < l.lens[f]
    ensures var g, out := Offset(l, f) + d, WriteSegments(files, open, segs, data);
            && (f in open && a <= g < b ==> ByteAt(out, f, d) == Some(data[g - a]))
            && ((f !in open || !(a <= g < b)) && ByteAt(files, f, d).Some? ==> ByteAt(out, f, d) == ByteAt(files, f, d))
    decreases |segs|
  {
    hide Offset, Patch;
    if segs != [] {
      var s := segs[0];
      ChainSum(l, segs[1..], a + s.len, b);
      var g := Offset(l, f) + d;
      var next := if s.file in open then files[s.file := Patch(files[s.file], s.off, data[..s.len])] else files;
      PatchIs(files[s.file], s.off, data[..s.len], d);
      if a <= g < a + s.len {
        FileOfByte(l, f, s.file, g);
      }
      WrittenByte(l, next, open, segs[1..], data[s.len..], a + s.len, b, f, d);
    }
  }

  // What a piece on files means --------------------------------------------------------------------

  /** Every byte of the piece that has a file with a handle is there. */
  ghost predicate Stored(l: Info, files: Files, open: set<nat>, i: nat, data: bytes)
    requires |data| == PieceLen(l, i)
  {
    forall f, d: nat :: f in open && f < |l.lens| && HoldsByte(l, i, f, d) ==>
      ByteAt(files, f, d) == Some(data[Offset(l, f) + d - PieceStart(l, i)])
  }

  lemma WriteStores(l: Info, files: Files, open: set<nat>, i: nat, data: bytes)
    requires Valid(l) && i < PieceCount(l) && |data| == PieceLen(l, i) && |files| == |l.lens|
    ensures SumLen(Segments(l, i)) == |data|
    ensures Stored(l, WriteSegments(files, open, Segments(l, i), data), open, i, data)
  {
    hide Offset, Segments, PieceCount;
    SegmentLengths(l, i);
    SegmentsChain(l, i);
    PieceBounds(l, i);
    var out := WriteSegments(files, open, Segments(l, i), data);
    forall f, d: nat | f in open && f < |l.lens| && HoldsByte(l, i, f, d)
      ensures ByteAt(out, f, d) == Some(data[Offset(l, f) + d - PieceStart(l, i)]) {
      WrittenByte(l, files, open, Segments(l, i), data, PieceStart(l, i), PieceEnd(l, i), f, d);
    }
  }

  /** Writing one piece leaves every other stored piece stored. */
  lemma WriteKeepsOthers(l: Info, files: Files, open: set<nat>, i: nat, data: bytes, j: nat, other: bytes)
    requires Valid(l) && i < PieceCount(l) && |data| == PieceLen(l, i) && |files| == |l.lens|
    requires j != i && |other| == PieceLen(l, j) && Stored(l, files, open, j, other)
    ensures SumLen(Segments(l, i)) == |data|
    ensures Stored(l, WriteSegments(files, open, Segments(l, i), data), open, j, other)
  {
    hide Offset, Segments, PieceCount;
    SegmentLengths(l, i);
    SegmentsChain(l, i);
    PieceBounds(l, i);
    var out := WriteSegments(files, open, Segments(l, i), data);
    forall f, d: nat | f in open && f < |l.lens| && HoldsByte(l, j, f, d)
      ensures ByteAt(out, f, d) == Some(other[Offset(l, f) + d - PieceStart(l, j)]) {
      OtherPiece(l, j, i, Offset(l, f) + d);
      WrittenByte(l, files, open, Segments(l, i), data, PieceStart(l, i), PieceEnd(l, i), f, d);
    }
  }

  /** Whatever was written, complete or not, lies within piece `i`. */
  ghost predicate OnlyPiece(l: Info, i: nat, was: Files, files: Files) {
    && |files| == |was|
    && forall f: nat, d: nat :: f < |l.lens| && d < l.lens[f] && !HoldsByte(l, i, f, d) && ByteAt(was, f, d).Some? ==>
         ByteAt(files, f, d) == ByteAt(was, f, d)
  }

  /** Any part of a segment of the piece. */
  lemma PartOnlyPiece(l: Info, i: nat, was: Files, files: Files, s: Seg, x: bytes)
    requires OnlyPiece(l, i, was, files) && s.file < |files| && |x| <= s.len
    requires InFile(l, s) && PieceStart(l, i) <= SegStart(l, s) && SegStart(l, s) + s.len <= PieceEnd(l, i)
    ensures OnlyPiece(l, i, was, files[s.file := Patch(files[s.file], s.off, x)])
  {
    hide Offset, Patch, PieceEnd;
    var out := files[s.file := Patch(files[s.file], s.off, x)];
    forall f: nat, d: nat | f < |l.lens| && d < l.lens[f] && !HoldsByte(l, i, f, d) && ByteAt(was, f, d).Some?
      ensures ByteAt(out, f, d) == ByteAt(was, f, d) {
      assert ByteAt(files, f, d) == ByteAt(was, f, d);
      if f == s.file {
        PatchIs(files[f], s.off, x, d);
      }
    }
  }

  /** A piece keeps what another piece's write cannot reach. */
  lemma StoredElsewhere(l: Info, was: Files, files: Files, open: set<nat>, i: nat, j: nat, other: bytes)
    requires Valid(l) && OnlyPiece(l, i, was, files)
    requires j != i && |other| == PieceLen(l, j) && Stored(l, was, open, j, other)
    ensures Stored(l, files, open, j, other)
  {
    hide Offset;
    forall f, d: nat | f in open && f < |l.lens| && HoldsByte(l, j, f, d)
      ensures ByteAt(files, f, d) == Some(other[Offset(l, f) + d - PieceStart(l, j)]) {
      OtherPiece(l, j, i, Offset(l, f) + d);
    }
  }

  /** A segment of a stored piece reads back as its part of the data. */
  lemma SegmentReads(l: Info, files: Files, open: set<nat>, i: nat, data: bytes, s: Seg, a: nat)
    requires Valid(l) && i < PieceCount(l) && |data| == PieceLen(l, i) && Stored(l, files, open, i, data)
    requires InFile(l, s) && SegStart(l, s) == a && PieceStart(l, i) <= a && a + s.len <= PieceEnd(l, i) && s.file in open
    ensures PieceLen(l, i) == PieceEnd(l, i) - PieceStart(l, i)
    ensures ReadSegment(files, s) == Some(data[a - PieceStart(l, i)..a - PieceStart(l, i) + s.len])
  {
    hide Offset, PieceCount;
    PieceBounds(l, i);
    var p := a - PieceStart(l, i);
    forall d: nat | s.off <= d < s.off + s.len ensures ByteAt(files, s.file, d) == Some(data[p + d - s.off]) {
      assert HoldsByte(l, i, s.file, d);
    }
    if s.len > 0 {
      assert ByteAt(files, s.file, s.off + s.len - 1).Some?;
      var part := files[s.file][s.off..s.off + s.len];
      forall k | 0 <= k < s.len ensures part[k] == data[p..p + s.len][k] {
        assert ByteAt(files, s.file, s.off + k) == Some(data[p + (s.off + k) - s.off]);
      }
      assert part == data[p..p + s.len];
    } else {
      assert data[p..p + s.len] == [];
    }
  }

  // The store ------------------------------------------------------------------------------------------

  datatype Cached = Cached(index: nat, data: bytes)

  function CacheSize(cache: seq<Cached>): nat {
    if cache == [] then 0 else |cache[0].data| + CacheSize(cache[1..])
  }

  lemma {:induction false} SizeAppend(a: seq<Cached>, b: seq<Cached>)
    ensures CacheSize(a + b) == CacheSize(a) + CacheSize(b)
  {
    if a == [] {
      assert a + b == b;
    } else {
      SizeAppend(a[1..], b);
      assert (a + b)[1..] == a[1..] + b;
    }
  }

  lemma SizeWithout(cache: seq<Cached>, pos: nat)
    requires pos < |cache|
    ensures CacheSize(cache) == CacheSize(cache[..pos] + cache[pos + 1..]) + |cache[pos].data|
  {
    SizeAppend(cache[..pos], cache[pos..]);
    SizeAppend(cache[..pos], cache[pos + 1..]);
    assert cache == cache[..pos] + cache[pos..];
    assert cache[pos..][1..] == cache[pos + 1..];
  }

  /** The entries of other pieces, in order. */
  function Others(cache: seq<Cached>, i: nat): seq<Cached> {
    if cache == [] then [] else (if cache[0].index == i then [] else [cache[0]]) + Others(cache[1..], i)
  }

  lemma {:induction false} AllOthers(cache: seq<Cached>, i: nat)
    requires forall x :: 0 <= x < |cache| ==> cache[x].index != i
    ensures Others(cache, i) == cache
  {
    if cache != [] {
      AllOthers(cache[1..], i);
    }
  }

  lemma {:induction false} OthersAround(cache: seq<Cached>, pos: nat)
    requires pos < |cache| && forall x :: 0 <= x < |cache| && x != pos ==> cache[x].index != cache[pos].index
    ensures Others(cache, cache[pos].index) == cache[..pos] + cache[pos + 1..]
  {
    if pos == 0 {
      AllOthers(cache[1..], cache[0].index);
      assert cache[..0] + cache[1..] == cache[1..];
    } else {
      OthersAround(cache[1..], pos - 1);
      assert cache[..pos] + cache[pos + 1..] == [cache[0]] + (cache[1..][..pos - 1] + cache[1..][pos..]);
    }
  }

  predicate InCache(cache: seq<Cached>, i: nat) { exists k :: 0 <= k < |cache| && cache[k].index == i }

  /** The pieces and contents the store stands for, in the cache or on the files. */
  ghost predicate Holds(l: Info, files: Files, open: set<nat>, cache: seq<Cached>, contents: map<nat, bytes>)
    requires Valid(l)
  {
    && (forall x, y :: 0 <= x < y < |cache| ==> cache[x].index != cache[y].index)
    && (forall x :: 0 <= x < |cache| ==> cache[x].index in contents && contents[cache[x].index] == cache[x].data)
    && (forall i :: i in contents ==> i < PieceCount(l) && |contents[i]| == PieceLen(l, i))
    && (forall i :: i in contents && !InCache(cache, i) ==> Stored(l, files, open, i, contents[i]))
  }

  lemma CachedOnce(l: Info, files: Files, open: set<nat>, cache: seq<Cached>, contents: map<nat, bytes>, pos: nat)
    requires Valid(l) && Holds(l, files, open, cache, contents) && pos < |cache|
    ensures forall x :: 0 <= x < |cache| && x != pos ==> cache[x].index != cache[pos].index
  {
    hide Stored, InCache, PieceCount;
  }

  /** What `durable_bitfield` names: with the limit 0 the cache is not looked at. */
  predicate Claimed(marked: set<nat>, cache: seq<Cached>, limit: nat, i: nat) {
    i in marked && (limit == 0 || !InCache(cache, i))
  }

  /** It names only pieces that left the cache, whatever is marked, exactly if the limit is not 0 or the cache is empty. */
  lemma ClaimedLeftIff(cache: seq<Cached>, limit: nat)
    ensures (forall marked: set<nat>, i :: Claimed(marked, cache, limit, i) ==> !InCache(cache, i)) <==> limit != 0 || cache == []
  {
    if limit == 0 && cache != [] {
      FirstCached(cache);
      assert Claimed({cache[0].index}, cache, limit, cache[0].index);
    }
  }

  /** A write past the cache meets an older copy there for some piece exactly if some entry is larger than the limit. */
  lemma OlderCopyIff(l: Info, files: Files, open: set<nat>, cache: seq<Cached>, contents: map<nat, bytes>, limit: nat)
    requires Valid(l) && Holds(l, files, open, cache, contents)
    ensures (exists i :: InCache(cache, i) && (limit == 0 || PieceLen(l, i) > limit)) <==> !EntriesFit(cache, limit)
  {
    hide Holds, PieceCount, PieceLen;
    if i :| InCache(cache, i) && (limit == 0 || PieceLen(l, i) > limit) {
      var pos :| 0 <= pos < |cache| && cache[pos].index == i;
      CachedIs(l, files, open, cache, contents, pos);
    }
    if !EntriesFit(cache, limit) {
      var pos :| 0 <= pos < |cache| && |cache[pos].data| > limit;
      CachedIs(l, files, open, cache, contents, pos);
      assert InCache(cache, cache[pos].index);
    }
  }

  lemma HoldsWrite(l: Info, files: Files, open: set<nat>, cache: seq<Cached>, contents: map<nat, bytes>, i: nat, data: bytes)
    requires Valid(l) && |files| == |l.lens| && Holds(l, files, open, cache, contents)
    requires i < PieceCount(l) && |data| == PieceLen(l, i) && !InCache(cache, i)
    ensures SumLen(Segments(l, i)) == |data|
    ensures Holds(l, WriteSegments(files, open, Segments(l, i), data), open, cache, contents[i := data])
  {
    hide Stored, Segments, PieceCount, WriteSegments, InCache, SumLen;
    WriteStores(l, files, open, i, data);
    assert forall x :: 0 <= x < |cache| ==> cache[x].index != i by { NotCached(cache, i); }
    forall j | j in contents && j != i && !InCache(cache, j)
      ensures Stored(l, WriteSegments(files, open, Segments(l, i), data), open, j, contents[j]) {
      WriteKeepsOthers(l, files, open, i, data, j, contents[j]);
    }
  }

  /** A write of piece `i` that fails anywhere spoils at most that piece, and not even that if it is cached. */
  lemma HoldsFailed(l: Info, was: Files, files: Files, open: set<nat>, cache: seq<Cached>, contents: map<nat, bytes>, i: nat)
    requires Valid(l) && OnlyPiece(l, i, was, files) && Holds(l, was, open, cache, contents)
    ensures Holds(l, files, open, cache, if InCache(cache, i) then contents else contents - {i})
  {
    hide Stored, OnlyPiece, PieceCount;
    forall j | j in contents && j != i && !InCache(cache, j) ensures Stored(l, files, open, j, contents[j]) {
      StoredElsewhere(l, was, files, open, i, j, contents[j]);
    }
  }

  lemma NotCached(cache: seq<Cached>, i: nat)
    requires !InCache(cache, i)
    ensures forall x :: 0 <= x < |cache| ==> cache[x].index != i
  {
  }

  lemma TailCached(cache: seq<Cached>, j: nat)
    requires cache != []
    ensures InCache(cache, j) ==> j == cache[0].index || InCache(cache[1..], j)
  {
    if k :| 0 < k < |cache| && cache[k].index == j {
      assert cache[1..][k - 1].index == j;
    }
  }

  /** The oldest entry goes to the files. */
  lemma HoldsEvict(l: Info, files: Files, open: set<nat>, cache: seq<Cached>, contents: map<nat, bytes>)
    requires Valid(l) && |files| == |l.lens| && Holds(l, files, open, cache, contents) && cache != []
    ensures cache[0].index < PieceCount(l) && |cache[0].data| == PieceLen(l, cache[0].index)
    ensures SumLen(Segments(l, cache[0].index)) == |cache[0].data|
    ensures Holds(l, WriteSegments(files, open, Segments(l, cache[0].index), cache[0].data), open, cache[1..], contents)
  {
    var i, data := cache[0].index, cache[0].data;
    hide Stored, Segments, PieceCount, WriteSegments, SumLen;
    WriteStores(l, files, open, i, data);
    forall j | j in contents && !InCache(cache[1..], j)
      ensures Stored(l, WriteSegments(files, open, Segments(l, i), data), open, j, contents[j]) {
      if j != i {
        TailCached(cache, j);
        WriteKeepsOthers(l, files, open, i, data, j, contents[j]);
      }
    }
  }

  lemma HoldsRemove(l: Info, files: Files, open: set<nat>, cache: seq<Cached>, contents: map<nat, bytes>, pos: nat)
    requires Valid(l) && Holds(l, files, open, cache, contents) && pos < |cache|
    ensures var rest := cache[..pos] + cache[pos + 1..];
            !InCache(rest, cache[pos].index) && Holds(l, files, open, rest, contents - {cache[pos].index})
  {
    hide Stored, PieceCount;
    var rest, i := cache[..pos] + cache[pos + 1..], cache[pos].index;
    forall j | j in contents && j != i && !InCache(rest, j) ensures !InCache(cache, j) {
      if k :| 0 <= k < |cache| && cache[k].index == j {
        assert rest[if k < pos then k else k - 1].index == j;
      }
    }
  }

  lemma HoldsPush(l: Info, files: Files, open: set<nat>, cache: seq<Cached>, contents: map<nat, bytes>, i: nat, data: bytes)
    requires Valid(l) && Holds(l, files, open, cache, contents) && !InCache(cache, i)
    requires i < PieceCount(l) && |data| == PieceLen(l, i)
    ensures Holds(l, files, open, cache + [Cached(i, data)], contents[i := data])
  {
    hide Stored, PieceCount;
    var more := cache + [Cached(i, data)];
    NotCached(cache, i);
    forall j | j in contents && j != i && !InCache(more, j) ensures !InCache(cache, j) {
      StaysCached(cache, Cached(i, data), j);
    }
    StaysCached(cache, Cached(i, data), i);
  }

  lemma OneCached(cache: seq<Cached>, c: Cached, j: nat)
    ensures InCache(cache + [c], j) <==> InCache(cache, j) || j == c.index
  {
    StaysCached(cache, c, j);
    var more := cache + [c];
    if k :| 0 <= k < |more| && more[k].index == j && k < |cache| {
      assert cache[k].index == j;
    }
  }

  lemma NothingCached(l: Info, files: Files, open: set<nat>, cache: seq<Cached>, contents: map<nat, bytes>, limit: nat)
    requires Valid(l) && Holds(l, files, open, cache, contents) && EntriesFit(cache, limit) && (cache == [] || limit == 0)
    ensures cache == [] && forall i :: !InCache(cache, i)
  {
    if cache != [] {
      CachedIs(l, files, open, cache, contents, 0);
    }
  }

  lemma FirstCached(cache: seq<Cached>)
    requires cache != []
    ensures InCache(cache, cache[0].index)
  {
  }

  lemma NothingWritten(l: Info, i: nat, files: Files)
    ensures OnlyPiece(l, i, files, files)
  {
  }

  lemma AllWritten(files: Files, open: set<nat>, data: bytes, written: nat)
    requires written <= |data| && |data| - written == SumLen([])
    ensures WriteSegments(files, open, [], data[written..]) == files
  {
  }

  /** The next segment of a chain lies where the chain stands. */
  lemma ChainHead(l: Info, segs: seq<Seg>, k: nat, a: nat, b: nat)
    requires k < |segs| && Chain(l, segs[k..], a, b)
    ensures var s := segs[k];
            && InFile(l, s) && SegStart(l, s) == a && a + s.len <= b
            && Chain(l, segs[k + 1..], a + s.len, b)
  {
    hide Offset;
    assert segs[k..][0] == segs[k] && segs[k..][1..] == segs[k + 1..];
    ChainSum(l, segs[k + 1..], a + segs[k].len, b);
  }

  lemma StaysCached(cache: seq<Cached>, c: Cached, j: nat)
    ensures InCache(cache, j) || c.index == j ==> InCache(cache + [c], j)
  {
    var more := cache + [c];
    if k :| 0 <= k < |cache| && cache[k].index == j {
      assert more[k].index == j;
    } else {
      assert more[|cache|] == c;
    }
  }

  lemma WriteStep(files: Files, open: set<nat>, segs: seq<Seg>, data: bytes, k: nat, written: nat)
    requires k < |segs| && written <= |data| && |data| - written == SumLen(segs[k..])
    ensures var s := segs[k];
            && written + s.len <= |data| && |data| - (written + s.len) == SumLen(segs[k + 1..])
            && WriteSegments(files, open, segs[k..], data[written..]) ==
                 WriteSegments(if s.file in open && s.file < |files|
                               then files[s.file := Patch(files[s.file], s.off, data[written..written + s.len])] else files,
                               open, segs[k + 1..], data[written + s.len..])
  {
    hide Patch;
    var s := segs[k];
    assert segs[k..][0] == s && segs[k..][1..] == segs[k + 1..];
    assert data[written..][..s.len] == data[written..written + s.len];
    assert data[written..][s.len..] == data[written + s.len..];
  }

  lemma LongerHolds(l: Info, was: Files, files: Files, open: set<nat>, cache: seq<Cached>, contents: map<nat, bytes>)
    requires Valid(l) && Holds(l, was, open, cache, contents) && |files| == |was|
    requires forall f :: 0 <= f < |files| ==> was[f] <= files[f]
    ensures Holds(l, files, open, cache, contents)
  {
    hide PieceCount, InCache, Offset;
    forall i | i in contents && !InCache(cache, i) ensures Stored(l, files, open, i, contents[i]) {
      forall f, d: nat | f in open && f < |l.lens| && HoldsByte(l, i, f, d)
        ensures ByteAt(files, f, d) == Some(contents[i][Offset(l, f) + d - PieceStart(l, i)]) {
        assert ByteAt(was, f, d).Some?;
      }
    }
  }

  /** What a cached piece is, and that it takes room. */
  lemma CachedIs(l: Info, files: Files, open: set<nat>, cache: seq<Cached>, contents: map<nat, bytes>, pos: nat)
    requires Valid(l) && Holds(l, files, open, cache, contents) && pos < |cache|
    ensures var c := cache[pos];
            && c.index in contents && contents[c.index] == c.data && c.index < PieceCount(l)
            && 0 < |c.data| == PieceLen(l, c.index) <= CacheSize(cache)
  {
    hide PieceCount, Stored, InCache;
    PieceBounds(l, cache[pos].index);
    SizeWithout(cache, pos);
  }

  lemma ContentsAre(l: Info, files: Files, open: set<nat>, cache: seq<Cached>, contents: map<nat, bytes>, i: nat)
    requires Valid(l) && Holds(l, files, open, cache, contents) && i in contents
    ensures i < PieceCount(l) && |contents[i]| == PieceLen(l, i)
    ensures !InCache(cache, i) ==> Stored(l, files, open, i, contents[i])
  {
    hide PieceCount, Stored, InCache;
  }

  /** No entry is larger than the cache may be. */
  predicate EntriesFit(cache: seq<Cached>, limit: nat) {
    forall x :: 0 <= x < |cache| ==> |cache[x].data| <= limit
  }

  lemma SmallFits(cache: seq<Cached>, limit: nat)
    requires CacheSize(cache) <= limit
    ensures EntriesFit(cache, limit)
  {
    forall x | 0 <= x < |cache| ensures |cache[x].data| <= limit {
      SizeWithout(cache, x);
    }
  }

  /** A piece larger than the cache has no older copy in it. */
  lemma TooBigToCache(l: Info, files: Files, open: set<nat>, cache: seq<Cached>, contents: map<nat, bytes>, i: nat, limit: nat)
    requires Valid(l) && Holds(l, files, open, cache, contents) && EntriesFit(cache, limit)
    requires limit == 0 || PieceLen(l, i) > limit
    ensures !InCache(cache, i)
  {
    hide Holds, PieceCount, CacheSize;
    if pos :| 0 <= pos < |cache| && cache[pos].index == i {
      CachedIs(l, files, open, cache, contents, pos);
    }
  }

  lemma SizePush(cache: seq<Cached>, c: Cached)
    ensures CacheSize(cache + [c]) == CacheSize(cache) + |c.data|
  {
    SizeAppend(cache, [c]);
  }

  lemma VisibleFrom(open: set<nat>, segs: seq<Seg>, data: bytes)
    requires |data| == SumLen(segs)
    ensures [] + Visible(open, segs[0..], data[0..]) == Visible(open, segs, data)
  {
    assert segs[0..] == segs && data[0..] == data;
  }

  lemma VisibleStep(open: set<nat>, segs: seq<Seg>, data: bytes, k: nat, written: nat, out: bytes)
    requires k < |segs| && written <= |data| && |data| - written == SumLen(segs[k..])
    ensures var s := segs[k];
            && written + s.len <= |data| && |data| - (written + s.len) == SumLen(segs[k + 1..])
            && out + Visible(open, segs[k..], data[written..]) ==
                 (if s.file in open then out + data[written..written + s.len] else out)
                 + Visible(open, segs[k + 1..], data[written + s.len..])
  {
    var s := segs[k];
    assert segs[k..][0] == s && segs[k..][1..] == segs[k + 1..];
    assert data[written..][..s.len] == data[written..written + s.len];
    assert data[written..][s.len..] == data[written + s.len..];
  }

  lemma VisibleEnd(open: set<nat>, segs: seq<Seg>, data: bytes, written: nat, out: bytes)
    requires written <= |data| && |data| - written == SumLen(segs[|segs|..])
    ensures out + Visible(open, segs[|segs|..], data[written..]) == out
  {
  }

  /** What was read is the visible part of the data up to segment `k`. */
  ghost predicate ReadSoFar(l: Info, open: set<nat>, i: nat, segs: seq<Seg>, data: bytes, k: nat, at: nat, out: bytes) {
    && |data| == SumLen(segs) && k <= |segs| && at <= |data| && |data| - at == SumLen(segs[k..])
    && Chain(l, segs[k..], PieceStart(l, i) + at, PieceEnd(l, i))
    && out + Visible(open, segs[k..], data[at..]) == Visible(open, segs, data)
  }

  lemma ReadStep(l: Info, files: Files, open: set<nat>, i: nat, segs: seq<Seg>, data: bytes, k: nat, at: nat, out: bytes)
    requires Valid(l) && i < PieceCount(l) && |data| == PieceLen(l, i) && Stored(l, files, open, i, data)
    requires k < |segs| && ReadSoFar(l, open, i, segs, data, k, at, out)
    ensures var s := segs[k];
            && (s.file in open ==> ReadSegment(files, s).Some?)
            && ReadSoFar(l, open, i, segs, data, k + 1, at + s.len,
                         if s.file in open then out + ReadSegment(files, s).value else out)
  {
    hide Stored, PieceCount, Offset, Visible, SumLen;
    var s := segs[k];
    assert segs[k..][0] == s && segs[k..][1..] == segs[k + 1..];
    VisibleStep(open, segs, data, k, at, out);
    ChainOrdered(l, segs[k + 1..], PieceStart(l, i) + at + s.len, PieceEnd(l, i));
    if s.file in open {
      SegmentReads(l, files, open, i, data, s, PieceStart(l, i) + at);
    }
  }

  /** `PieceStore`; `contents` is what it stands for. */
  class PieceStore {
    const l: Info
    const open: set<nat>
    var files: Files
    var cache: seq<Cached>
    var cacheBytes: nat
    var limit: nat
    ghost var contents: map<nat, bytes>
    /** Writes that failed so far. */
    ghost var failures: nat

    ghost predicate Valid()
      reads this
    {
      && Layout.Valid(l) && |files| == |l.lens| && cacheBytes == CacheSize(cache)
      && Holds(l, files, open, cache, contents)
    }

    constructor (l: Info, open: set<nat>, files: Files)
      requires Layout.Valid(l) && |files| == |l.lens|
      ensures Valid() && this.l == l && this.open == open && this.files == files && contents == map[]
      ensures cache == [] && limit == 0
    {
      this.l, this.open, this.files := l, open, files;
      cache, cacheBytes, limit, contents, failures := [], 0, 0, map[], 0;
    }

    /** `preallocate`: lengthens the files with a handle, never truncates. */
    method Preallocate()
      requires Valid()
      modifies this`files
      ensures Valid()
      ensures forall f :: 0 <= f < |files| && f in open ==> |files[f]| >= l.lens[f]
    {
      ghost var was := files;
      for f := 0 to |files|
        invariant |files| == |was|
        invariant forall g :: 0 <= g < |files| ==> was[g] <= files[g]
        invariant forall g :: 0 <= g < f && g in open ==> |files[g]| >= l.lens[g]
      {
        if f in open && |files[f]| < l.lens[f] {
          files := files[f := files[f] + seq(l.lens[f] - |files[f]|, _ => 0)];
        }
      }
      LongerHolds(l, was, files, open, cache, contents);
    }

    /** A write to a file, which may fail after any part of it. */
    method WriteAt(s: Seg, part: bytes) returns (ok: bool)
      requires s.file < |files|
      modifies this`files, this`failures
      ensures failures == old(failures) + if ok then 0 else 1
      ensures ok ==> files == old(files)[s.file := Patch(old(files)[s.file], s.off, part)]
      ensures !ok ==> exists n :: 0 <= n <= |part| && files == old(files)[s.file := Patch(old(files)[s.file], s.off, part[..n])]
    {
      ok := *;
      var n: nat :| n <= |part|;
      if ok {
        n := |part|;
        assert part[..n] == part;
      } else {
        failures := failures + 1;
      }
      files := files[s.file := Patch(files[s.file], s.off, part[..n])];
    }

    /** `write_piece_direct`: the segments one by one until a write fails. */
    method WriteDirect(i: nat, data: bytes) returns (ok: bool)
      requires Layout.Valid(l) && |files| == |l.lens| && i < PieceCount(l) && |data| == PieceLen(l, i)
      modifies this`files, this`failures
      ensures failures == old(failures) + if ok then 0 else 1
      ensures SumLen(Segments(l, i)) == |data|
      ensures ok ==> files == WriteSegments(old(files), open, Segments(l, i), data)
      ensures |files| == |l.lens| && OnlyPiece(l, i, old(files), files)
    {
      hide Patch, SumLen, OnlyPiece, PieceCount, Chain, WriteSegments;
      SegmentLengths(l, i);
      SegmentsChain(l, i);
      PieceBounds(l, i);
      var segs := PieceSegments(l, i);
      var written: nat := 0;
      assert segs[0..] == segs && data[0..] == data;
      NothingWritten(l, i, files);
      for k := 0 to |segs|
        invariant |files| == |l.lens| && written <= |data| && |data| - written == SumLen(segs[k..])
        invariant WriteSegments(files, open, segs[k..], data[written..]) == WriteSegments(old(files), open, segs, data)
        invariant Chain(l, segs[k..], PieceStart(l, i) + written, PieceEnd(l, i))
        invariant OnlyPiece(l, i, old(files), files) && failures == old(failures)
      {
        var s := segs[k];
        WriteStep(files, open, segs, data, k, written);
        ChainHead(l, segs, k, PieceStart(l, i) + written, PieceEnd(l, i));
        var part := data[written..written + s.len];
        written := written + s.len;
        if s.file in open && s.file < |files| {
          ghost var before := files;
          var done := WriteAt(s, part);
          if !done {
            ghost var n :| 0 <= n <= |part| && files == before[s.file := Patch(before[s.file], s.off, part[..n])];
            PartOnlyPiece(l, i, old(files), before, s, part[..n]);
            return false;
          }
          PartOnlyPiece(l, i, old(files), before, s, part);
        }
      }
      assert segs[|segs|..] == [];
      AllWritten(files, open, data, written);
      return true;
    }

    /** No entry is larger than the limit. */
    ghost predicate Fits()
      reads this
    {
      EntriesFit(cache, limit)
    }

    /**
     `evict_to_limit`: the oldest pieces go to the files first, and no more of them than needed. A
     piece whose write fails stays in front.
     */
    method EvictToLimit() returns (ok: bool)
      requires Valid()
      modifies this`files, this`cache, this`cacheBytes, this`failures
      ensures Valid() && (ok <==> cacheBytes <= limit) && failures == old(failures) + if ok then 0 else 1
      ensures exists n :: 0 <= n <= |old(cache)| && cache == old(cache)[n..] && (n > 0 ==> CacheSize(old(cache)[n - 1..]) > limit)
      ensures old(Fits()) ==> Fits()
    {
      hide Holds, WriteSegments, PieceCount, SumLen, OnlyPiece, InCache;
      ghost var n := 0;
      assert cache == old(cache)[0..];
      while cacheBytes > limit
        invariant Valid() && n <= |old(cache)| && cache == old(cache)[n..] && failures == old(failures)
        invariant n > 0 ==> CacheSize(old(cache)[n - 1..]) > limit
        decreases |cache|
      {
        ok := EvictOldest();
        if !ok {
          return;
        }
        n := n + 1;
      }
      return true;
    }

    /** One turn of eviction and of the flush. */
    method EvictOldest() returns (ok: bool)
      requires Valid() && cache != []
      modifies this`files, this`cache, this`cacheBytes, this`failures
      ensures Valid() && failures == old(failures) + if ok then 0 else 1
      ensures cache == if ok then old(cache)[1..] else old(cache)
    {
      hide Holds, WriteSegments, PieceCount, SumLen, OnlyPiece, InCache;
      var oldest := cache[0];
      HoldsEvict(l, files, open, cache, contents);
      cache := cache[1..];
      cacheBytes := cacheBytes - |oldest.data|;
      ok := WriteDirect(oldest.index, oldest.data);
      if !ok {
        cacheBytes := cacheBytes + |oldest.data|;
        cache := [oldest] + cache;
        assert cache == old(cache);
        FirstCached(cache);
        HoldsFailed(l, old(files), files, open, cache, contents, oldest.index);
      }
    }

    /** `set_write_cache_limit` */
    method SetCacheLimit(limit: nat) returns (ok: bool)
      requires Valid()
      modifies this`files, this`cache, this`cacheBytes, this`limit, this`failures
      ensures Valid() && this.limit == limit && (ok <==> cacheBytes <= limit) && failures == old(failures) + if ok then 0 else 1
      ensures ok ==> Fits() && (limit == 0 ==> cache == [])
      ensures exists n :: 0 <= n <= |old(cache)| && cache == old(cache)[n..] && (n > 0 ==> CacheSize(old(cache)[n - 1..]) > limit)
    {
      hide Holds, CacheSize, EntriesFit;
      this.limit := limit;
      ok := EvictToLimit();
      if ok {
        SmallFits(cache, limit);
        if cache != [] {
          CachedIs(l, files, open, cache, contents, 0);
        }
      }
    }

    /** `flush_write_cache`: everything goes to the files, oldest first, up to a write that fails. */
    method Flush() returns (ok: bool)
      requires Valid()
      modifies this`files, this`cache, this`cacheBytes, this`failures
      ensures Valid() && (ok <==> cache == []) && failures == old(failures) + if ok then 0 else 1
      ensures exists n :: 0 <= n <= |old(cache)| && cache == old(cache)[n..]
      ensures old(Fits()) ==> Fits()
    {
      hide Holds, CacheSize;
      ghost var n := 0;
      assert cache == old(cache)[0..];
      while cache != []
        invariant Valid() && n <= |old(cache)| && cache == old(cache)[n..] && failures == old(failures)
        decreases |cache|
      {
        ok := EvictOldest();
        if !ok {
          return;
        }
        n := n + 1;
      }
      return true;
    }

    method Position(i: nat) returns (pos: Option<nat>)
      ensures pos.Some? ==> pos.value < |cache| && cache[pos.value].index == i
      ensures pos.None? ==> !InCache(cache, i)
    {
      for k := 0 to |cache|
        invariant forall j :: 0 <= j < k ==> cache[j].index != i
      {
        if cache[k].index == i {
          return Some(k);
        }
      }
      pos := None;
    }

    /** Whether `write_piece` passes by the cache. */
    predicate PassesBy(size: nat)
      reads this
    {
      limit == 0 || size > limit
    }

    /**
     `write_piece`: the piece is in the store, in the cache even if an eviction failed. Passing by
     the cache, a write that fails spoils the piece, and an older copy left in the cache by a failed
     change of the limit wins over any write.
     */
    method WritePiece(i: nat, data: bytes) returns (ok: bool)
      requires Valid() && i < PieceCount(l) && |data| == PieceLen(l, i)
      modifies this`files, this`cache, this`cacheBytes, this`contents, this`failures
      ensures Valid() && failures == old(failures) + if ok then 0 else 1
      ensures old(Fits()) ==> Fits()
      ensures !PassesBy(|data|) ==>
                && contents == old(contents)[i := data] && (ok <==> cacheBytes <= limit)
                && (var queue := Others(old(cache), i) + [Cached(i, data)];
                    exists n :: 0 <= n <= |queue| && cache == queue[n..] && (n > 0 ==> CacheSize(queue[n - 1..]) > limit))
      ensures PassesBy(|data|) ==>
                && cache == old(cache)
                && contents == if InCache(cache, i) then old(contents) else if ok then old(contents)[i := data] else old(contents) - {i}
    {
      hide Holds, WriteSegments, PieceCount, SumLen, CacheSize, InCache, OnlyPiece, EntriesFit;
      if limit == 0 || |data| > limit {
        ok := WriteDirect(i, data);
        HoldsFailed(l, old(files), files, open, cache, contents, i);
        if !InCache(cache, i) {
          HoldsWrite(l, old(files), open, cache, contents, i, data);
          contents := if ok then contents[i := data] else contents - {i};
        }
        return;
      }
      Enqueue(i, data);
      ok := EvictToLimit();
    }

    /** An older copy of the piece leaves the cache. */
    method Drop(i: nat)
      requires Valid()
      modifies this`cache, this`cacheBytes, this`contents
      ensures Valid() && cache == Others(old(cache), i) && !InCache(cache, i)
      ensures contents == if InCache(old(cache), i) then old(contents) - {i} else old(contents)
      ensures old(Fits()) ==> Fits()
    {
      hide Holds, PieceCount, CacheSize;
      var pos := Position(i);
      if pos.Some? {
        HoldsRemove(l, files, open, cache, contents, pos.value);
        SizeWithout(cache, pos.value);
        CachedOnce(l, files, open, cache, contents, pos.value);
        OthersAround(cache, pos.value);
        cacheBytes := cacheBytes - |cache[pos.value].data|;
        contents := contents - {i};
        cache := cache[..pos.value] + cache[pos.value + 1..];
      } else {
        NotCached(cache, i);
        AllOthers(cache, i);
      }
    }

    /** The piece joins the cache behind all others, in place of an older copy. */
    method Enqueue(i: nat, data: bytes)
      requires Valid() && i < PieceCount(l) && |data| == PieceLen(l, i)
      modifies this`cache, this`cacheBytes, this`contents
      ensures Valid() && contents == old(contents)[i := data]
      ensures cache == Others(old(cache), i) + [Cached(i, data)]
      ensures old(Fits()) && |data| <= limit ==> Fits()
    {
      hide Holds, PieceCount, CacheSize, InCache;
      Drop(i);
      HoldsPush(l, files, open, cache, contents, i, data);
      SizePush(cache, Cached(i, data));
      cache := cache + [Cached(i, data)];
      cacheBytes := cacheBytes + |data|;
      contents := contents[i := data];
    }

    /** `durable_bitfield`: what the resume file may claim, the pieces of the map that are not waiting in the cache. */
    method DurableBitfield(map0: PieceMap) returns (bits: seq<bv8>)
      requires Valid() && map0.Valid() && map0.count == PieceCount(l)
      ensures |bits| == |map0.bits|
      ensures forall i :: i in Members(bits) <==> Claimed(map0.Pieces(), cache, limit, i)
      ensures Fits() ==> forall i :: i in Members(bits) <==> i in map0.Pieces() && !InCache(cache, i)
    {
      hide Holds, Stored, SetBit, ClearBit, Bit, PieceCount;
      bits := map0.bits;
      if limit == 0 || cache == [] {
        if Fits() {
          NothingCached(l, files, open, cache, contents, limit);
        }
        return;
      }
      for k := 0 to |cache|
        invariant |bits| == |map0.bits|
        invariant forall i :: i in Members(bits) <==> i in map0.Pieces() && !InCache(cache[..k], i)
      {
        CachedIs(l, files, open, cache, contents, k);
        RoomFor(map0.count);
        var c := cache[k].index;
        OneMember(bits, c);
        SetBitIs(bits, c, c);
        bits := ClearBit(bits, c);
        forall i ensures InCache(cache[..k + 1], i) <==> InCache(cache[..k], i) || i == c {
          assert cache[..k + 1] == cache[..k] + [cache[k]];
          OneCached(cache[..k], cache[k], i);
        }
      }
      assert cache[..|cache|] == cache;
    }

    /** The visible part of a cached piece, cut out segment by segment. */
    method CutCached(segs: seq<Seg>, data: bytes) returns (out: bytes)
      requires |data| == SumLen(segs)
      ensures out == Visible(open, segs, data)
    {
      hide SumLen, Visible;
      out := [];
      var written: nat := 0;
      VisibleFrom(open, segs, data);
      assert segs[0..] == segs;
      for k := 0 to |segs|
        invariant written <= |data| && |data| - written == SumLen(segs[k..])
        invariant out + Visible(open, segs[k..], data[written..]) == Visible(open, segs, data)
      {
        VisibleStep(open, segs, data, k, written, out);
        var s := segs[k];
        var end := Min(written + s.len, |data|);
        var part := data[Min(written, |data|)..end];
        written := written + s.len;
        if s.file in open {
          out := out + part;
        }
      }
      VisibleEnd(open, segs, data, written, out);
    }

    /** The segments read from the files with a handle; None if a file is too short. */
    method ReadFiles(i: nat, segs: seq<Seg>, ghost data: bytes) returns (r: Option<bytes>)
      requires Layout.Valid(l)
      ensures (&& i < PieceCount(l) && |data| == PieceLen(l, i) && Stored(l, files, open, i, data)
               && ReadSoFar(l, open, i, segs, data, 0, 0, [])) ==> r == Some(Visible(open, segs, data))
    {
      hide PieceCount, PieceLen, SumLen, Stored, Visible, Chain;
      var out: bytes := [];
      ghost var at: nat := 0;
      ghost var there := i < PieceCount(l) && |data| == PieceLen(l, i) && Stored(l, files, open, i, data)
                         && ReadSoFar(l, open, i, segs, data, 0, 0, []);
      for k := 0 to |segs|
        invariant there ==> ReadSoFar(l, open, i, segs, data, k, at, out)
      {
        var s := segs[k];
        if there {
          ReadStep(l, files, open, i, segs, data, k, at, out);
        }
        at := at + s.len;
        if s.file in open {
          var part := ReadSegment(files, s);
          if part.None? {
            return None;
          }
          out := out + part.value;
        }
      }
      if there {
        VisibleEnd(open, segs, data, at, out);
      }
      return Some(out);
    }

    /** `read_piece`: a stored piece reads the same from the cache and from the files. */
    method ReadPiece(i: nat) returns (r: Option<bytes>)
      requires Valid()
      ensures i in contents ==>
                |contents[i]| == SumLen(Segments(l, i)) && r == Some(Visible(open, Segments(l, i), contents[i]))
    {
      hide Holds, PieceCount, PieceLen, SumLen, InCache, Stored, Visible, ReadSoFar;
      var pos := Position(i);
      var segs := PieceSegments(l, i);
      SegmentLengths(l, i);
      if pos.Some? {
        CachedIs(l, files, open, cache, contents, pos.value);
        var out := CutCached(segs, cache[pos.value].data);
        return Some(out);
      }
      if i in contents {
        ContentsAre(l, files, open, cache, contents, i);
        NothingRead(l, open, i, contents[i]);
      }
      r := ReadFiles(i, segs, if i in contents then contents[i] else []);
    }
  }

  /**
   One piece in the cache, then the limit set to 0, then the piece written anew. If the change of
   the limit failed, the piece is named as durable though it waits in the cache, and the newer
   write is lost.
   */
  method ShrinkAndRewrite(l: Info, open: set<nat>, files: Files, i: nat, data: bytes, newer: bytes)
    returns (store: PieceStore, shrunk: bool, bits: seq<bv8>)
    requires Layout.Valid(l) && |files| == |l.lens| && i < PieceCount(l) && |data| == |newer| == PieceLen(l, i)
    ensures fresh(store) && store.Valid() && store.limit == 0
    ensures shrunk ==> store.cache == []
    ensures !shrunk ==>
              && store.cache == [Cached(i, data)] && i in Members(bits)
              && i in store.contents && store.contents[i] == data
  {
    hide Holds, PieceCount, CacheSize, Claimed, PieceLen;
    store := OneWaiting(l, open, files, i, data);
    ghost var one := store.cache;
    shrunk := store.SetCacheLimit(0);
    ghost var n :| 0 <= n <= |one| && store.cache == one[n..];
    OneOrNone(one, n);
    bits := NameAll(store);
    if !shrunk {
      FirstCached(store.cache);
      ClaimedAt0(store.cache, PieceCount(l), i);
      CachedIs(l, store.files, store.open, store.cache, store.contents, 0);
    }
    var _ := store.WritePiece(i, newer);
  }

  /** A new store with one piece waiting in a cache that just holds it. */
  method OneWaiting(l: Info, open: set<nat>, files: Files, i: nat, data: bytes) returns (store: PieceStore)
    requires Layout.Valid(l) && |files| == |l.lens| && i < PieceCount(l) && |data| == PieceLen(l, i)
    ensures fresh(store) && store.Valid() && store.l == l && store.cache == [Cached(i, data)]
  {
    hide Holds, PieceCount, PieceLen, CacheSize, EntriesFit, InCache, Others;
    store := new PieceStore(l, open, files);
    LongPiece(l, i);
    var _ := store.SetCacheLimit(|data|);
    assert store.cache == [];
    NoOthers(i);
    var _ := store.WritePiece(i, data);
    OnlyEntry(store.cache, i, data);
  }

  lemma NoOthers(i: nat)
    ensures Others([], i) == []
  {
  }

  lemma OnlyEntry(cache: seq<Cached>, i: nat, data: bytes)
    requires exists n ::
               0 <= n <= |[] + [Cached(i, data)]| && cache == ([] + [Cached(i, data)])[n..]
               && (n > 0 ==> CacheSize(([] + [Cached(i, data)])[n - 1..]) > |data|)
    ensures cache == [Cached(i, data)]
  {
    OneFits(i, data);
    var one := [Cached(i, data)];
    assert [] + one == one && one[0..] == one;
  }

  lemma LongPiece(l: Info, i: nat)
    requires Valid(l) && i < PieceCount(l)
    ensures PieceLen(l, i) > 0
  {
    PieceBounds(l, i);
  }

  lemma OneOrNone(one: seq<Cached>, n: nat)
    requires |one| == 1 && n <= 1
    ensures one[n..] == (if n == 0 then one else [])
    ensures CacheSize([]) == 0
  {
  }

  /** What would be saved if every piece were marked. */
  method NameAll(store: PieceStore) returns (bits: seq<bv8>)
    requires store.Valid()
    ensures forall k :: k in Members(bits) <==> Claimed(Upto(PieceCount(store.l)), store.cache, store.limit, k)
  {
    hide Holds, PieceCount, Claimed;
    var all := new PieceMap(PieceCount(store.l));
    all.SetAll();
    bits := store.DurableBitfield(all);
  }

  lemma ClaimedAt0(cache: seq<Cached>, count: nat, i: nat)
    requires i < count
    ensures Claimed(Upto(count), cache, 0, i)
  {
  }

  lemma OneFits(i: nat, data: bytes)
    ensures CacheSize([Cached(i, data)]) == |data|
  {
  }

  lemma NothingRead(l: Info, open: set<nat>, i: nat, data: bytes)
    requires Valid(l) && i < PieceCount(l) && |data| == PieceLen(l, i)
    ensures ReadSoFar(l, open, i, Segments(l, i), data, 0, 0, [])
  {
    hide PieceCount;
    SegmentsChain(l, i);
    SegmentLengths(l, i);
    assert Segments(l, i)[0..] == Segments(l, i);
    VisibleFrom(open, Segments(l, i), data);
  }
}
