/** Scanning a stream for a synchronisation marker behind random padding. */
module Sync {
  import opened Bytes
  import opened Connection

  const SCAN_LIMIT := 512
  const CHUNK := 128

  predicate MarkAt(s: bytes, p: nat, m: bytes) {
    p + |m| <= |s| && s[p..p + |m|] == m
  }

  /** The offset of the first occurrence of `m` at or after `i`. */
  function FirstFrom(s: bytes, m: bytes, i: nat): (r: Option<nat>)
    ensures r.Some? ==> i <= r.value && MarkAt(s, r.value, m) && forall p :: i <= p < r.value ==> !MarkAt(s, p, m)
    ensures r.None? ==> forall p :: i <= p ==> !MarkAt(s, p, m)
    decreases |s| - i
  {
    if i + |m| > |s| then None
    else if s[i..i + |m|] == m then Some(i)
    else FirstFrom(s, m, i + 1)
  }

  function First(s: bytes, m: bytes): (r: Option<nat>)
    ensures r.Some? ==> MarkAt(s, r.value, m) && forall p :: 0 <= p < r.value ==> !MarkAt(s, p, m)
    ensures r.None? ==> forall p: nat :: !MarkAt(s, p, m)
  {
    FirstFrom(s, m, 0)
  }

  /** The first occurrence is the one occurrence with none before it. */
  lemma FirstIs(s: bytes, m: bytes, p: nat)
    requires MarkAt(s, p, m) && forall k :: 0 <= k < p ==> !MarkAt(s, k, m)
    ensures First(s, m) == Some(p)
  {
  }

  lemma MarkExtends(s: bytes, tail: bytes, k: nat, m: bytes)
    requires k + |m| <= |s|
    ensures MarkAt(s + tail, k, m) <==> MarkAt(s, k, m)
  {
    var t := s + tail;
    assert forall i :: k <= i < k + |m| ==> t[i] == s[i];
    assert t[k..k + |m|] == s[k..k + |m|];
  }

  /** More bytes after the marker do not change where it is found. */
  lemma FirstExtends(s: bytes, m: bytes, tail: bytes)
    requires First(s, m).Some?
    ensures First(s + tail, m) == First(s, m)
  {
    var p := First(s, m).value;
    MarkExtends(s, tail, p, m);
    forall k | 0 <= k < p ensures !MarkAt(s + tail, k, m) {
      MarkExtends(s, tail, k, m);
    }
    FirstIs(s + tail, m, p);
  }

  /** No marker starts in the first `n` bytes. */
  ghost predicate Clear(s: bytes, n: nat, m: bytes) {
    forall p :: 0 <= p < n ==> !MarkAt(s, p, m)
  }

  /** The stream is what was dropped, the window, and what is still unread. */
  ghost predicate Parts(s: bytes, pre: bytes, buf: bytes, rest: bytes) {
    s == pre + buf + rest
  }

  lemma DropFromWindow(s: bytes, pre: bytes, buf: bytes, rest: bytes, k: nat)
    requires Parts(s, pre, buf, rest) && k <= |buf|
    ensures Parts(s, pre + buf[..k], buf[k..], rest)
  {
    assert buf == buf[..k] + buf[k..];
  }

  lemma ExtendWindow(s: bytes, pre: bytes, buf: bytes, chunk: bytes, rest: bytes)
    requires Parts(s, pre, buf, chunk + rest)
    ensures Parts(s, pre, buf + chunk, rest)
  {
  }

  /** A marker lying wholly inside a window of the stream is a marker of the window. */
  lemma MarkInWindow(s: bytes, pre: bytes, buf: bytes, rest: bytes, p: nat, m: bytes)
    requires Parts(s, pre, buf, rest) && |pre| <= p && p + |m| <= |pre| + |buf|
    ensures MarkAt(s, p, m) <==> MarkAt(buf, p - |pre|, m)
  {
    assert s[p..p + |m|] == buf[p - |pre|..p - |pre| + |m|];
  }

  /** The first marker of the window is the first of the stream if none started before it. */
  lemma FoundInWindow(s: bytes, pre: bytes, buf: bytes, rest: bytes, m: bytes)
    requires Parts(s, pre, buf, rest) && Clear(s, |pre|, m) && First(buf, m).Some?
    ensures First(s, m) == Some(|pre| + First(buf, m).value)
    ensures First(buf, m).value + |m| <= |buf|
    ensures buf[First(buf, m).value + |m|..] + rest == s[|pre| + First(buf, m).value + |m|..]
  {
    var q := First(buf, m).value;
    MarkInWindow(s, pre, buf, rest, |pre| + q, m);
    forall p | 0 <= p < |pre| + q ensures !MarkAt(s, p, m) {
      if p >= |pre| {
        MarkInWindow(s, pre, buf, rest, p, m);
      }
    }
    FirstIs(s, m, |pre| + q);
  }

  /** Without a marker in the window, none starts early enough to fit in it. */
  lemma ClearWindow(s: bytes, pre: bytes, buf: bytes, rest: bytes, m: bytes)
    requires Parts(s, pre, buf, rest) && Clear(s, |pre|, m) && First(buf, m).None?
    requires m != [] && |buf| >= |m|
    ensures Clear(s, |pre| + |buf| - (|m| - 1), m)
  {
    forall p | 0 <= p < |pre| + |buf| - (|m| - 1) ensures !MarkAt(s, p, m) {
      if p >= |pre| {
        MarkInWindow(s, pre, buf, rest, p, m);
      }
    }
  }

  lemma ClearIsFirst(s: bytes, n: nat, m: bytes)
    requires Clear(s, n, m)
    ensures First(s, m).None? || (First(s, m).value >= n && n + |m| <= |s|)
  {
  }

  datatype ScanResult = Found(leftover: bytes) | LimitExceeded | Closed

  /** What a scan may report of the stream `s` when `unread` of it is left. */
  ghost predicate ScanCorrect(s: bytes, m: bytes, r: ScanResult, unread: bytes) {
    var first := First(s, m);
    match r
    case Found(leftover) => first.Some? && first.value < SCAN_LIMIT + CHUNK && leftover + unread == s[first.value + |m|..]
    case LimitExceeded => first.None? || first.value > SCAN_LIMIT
    case Closed => first.None?
  }

  // The scan as a function of its reads -----------------------------------------------------------

  function Joined(chunks: seq<bytes>): bytes {
    if chunks == [] then [] else chunks[0] + Joined(chunks[1..])
  }

  lemma {:induction false} JoinedSnoc(chunks: seq<bytes>, x: bytes)
    ensures Joined(chunks + [x]) == Joined(chunks) + x
  {
    if chunks == [] {
      assert [] + [x] == [x] && [x][1..] == [] && x + [] == x == [] + x;
    } else {
      JoinedSnoc(chunks[1..], x);
      assert (chunks + [x])[1..] == chunks[1..] + [x];
      assert chunks[0] + (Joined(chunks[1..]) + x) == (chunks[0] + Joined(chunks[1..])) + x;
    }
  }

  /** Bytes no marker can start in any more: all but the last |m| - 1 of the window. */
  function Stale(m: bytes, buf: bytes): nat { Max(|buf| - Max(|m| - 1, 0), 0) }

  /** What the reads, in order, lead to from a window; no more reads stands for the end of the stream. */
  function Scanned(m: bytes, buf: bytes, scanned: nat, chunks: seq<bytes>): ScanResult
    decreases |chunks|
  {
    var pos := First(buf, m);
    if pos.Some? then Found(buf[pos.value + |m|..])
    else if scanned + Stale(m, buf) > SCAN_LIMIT then LimitExceeded
    else if chunks == [] then Closed
    else Scanned(m, buf[Stale(m, buf)..] + chunks[0], scanned + Stale(m, buf), chunks[1..])
  }

  /** One more read: the window and count reached so far go on from there. */
  ghost predicate Reaches(m: bytes, chunks: seq<bytes>, buf: bytes, scanned: nat) {
    forall more: seq<bytes> :: Scanned(m, [], 0, chunks + more) == Scanned(m, buf, scanned, more)
  }

  lemma ReachesStart(m: bytes)
    ensures Reaches(m, [], [], 0)
  {
    forall more: seq<bytes> ensures Scanned(m, [], 0, [] + more) == Scanned(m, [], 0, more) {
      assert [] + more == more;
    }
  }

  lemma ReachesNext(m: bytes, chunks: seq<bytes>, buf: bytes, scanned: nat, chunk: bytes)
    requires Reaches(m, chunks, buf, scanned) && First(buf, m).None? && scanned + Stale(m, buf) <= SCAN_LIMIT
    ensures Reaches(m, chunks + [chunk], buf[Stale(m, buf)..] + chunk, scanned + Stale(m, buf))
  {
    hide First, Stale;
    StaleFits(m, buf);
    forall more: seq<bytes>
      ensures Scanned(m, [], 0, chunks + [chunk] + more)
           == Scanned(m, buf[Stale(m, buf)..] + chunk, scanned + Stale(m, buf), more) {
      assert chunks + [chunk] + more == chunks + ([chunk] + more);
      assert ([chunk] + more)[1..] == more && ([chunk] + more)[0] == chunk;
      assert Scanned(m, [], 0, chunks + ([chunk] + more)) == Scanned(m, buf, scanned, [chunk] + more);
    }
  }

  lemma StaleFits(m: bytes, buf: bytes)
    ensures Stale(m, buf) <= |buf|
  {
  }

  /** What the scan answers when it stops here. */
  lemma ReachesEnd(m: bytes, chunks: seq<bytes>, buf: bytes, scanned: nat)
    requires Reaches(m, chunks, buf, scanned)
    ensures var r := Scanned(m, [], 0, chunks);
            match First(buf, m)
            case Some(p) => p + |m| <= |buf| && r == Found(buf[p + |m|..])
            case None => r == if scanned + Stale(m, buf) > SCAN_LIMIT then LimitExceeded else Closed
  {
    assert chunks + [] == chunks;
  }

  lemma StaleIs(m: bytes, buf: bytes)
    requires m != []
    ensures Stale(m, buf) == if |buf| > |m| - 1 then |buf| - (|m| - 1) else 0
  {
  }

  /** The scan of `s` after some reads: what it dropped, its window, and what is still unread. */
  ghost predicate Scanning(s: bytes, m: bytes, pre: bytes, buf: bytes, chunks: seq<bytes>, rest: bytes) {
    && Parts(s, pre, buf, rest) && |pre| <= SCAN_LIMIT && Clear(s, |pre|, m)
    && |buf| <= Max(|m| - 1, 0) + CHUNK
    && s == Joined(chunks) + rest && Reaches(m, chunks, buf, |pre|)
  }

  /** Wherever it stops, the answer is right and a function of the reads. */
  lemma StopsRight(s: bytes, m: bytes, pre: bytes, buf: bytes, chunks: seq<bytes>, rest: bytes)
    requires m != [] && Scanning(s, m, pre, buf, chunks, rest)
    ensures s == Joined(chunks) + rest
    ensures var r := Scanned(m, [], 0, chunks);
            match First(buf, m)
            case Some(p) => p + |m| <= |buf| && r == Found(buf[p + |m|..]) && ScanCorrect(s, m, r, rest)
            case None =>
              if |pre| + Stale(m, buf) > SCAN_LIMIT then r == LimitExceeded && ScanCorrect(s, m, r, rest)
              else r == Closed && (rest == [] ==> ScanCorrect(s, m, r, rest))
  {
    hide First, MarkAt, Clear, Parts, Reaches, Joined, Scanned, Stale;
    ReachesEnd(m, chunks, buf, |pre|);
    StaleIs(m, buf);
    if First(buf, m).Some? {
      FoundInWindow(s, pre, buf, rest, m);
    } else {
      ClearSoFar(s, m, pre, buf, rest);
      ClearIsFirst(s, |pre| + Stale(m, buf), m);
      if rest == [] {
        AllRead(s, pre, buf);
      }
    }
  }

  /** No marker starts among the bytes that are dropped now. */
  lemma ClearSoFar(s: bytes, m: bytes, pre: bytes, buf: bytes, rest: bytes)
    requires m != [] && Parts(s, pre, buf, rest) && Clear(s, |pre|, m) && First(buf, m).None?
    ensures Clear(s, |pre| + Stale(m, buf), m)
  {
    hide First, MarkAt, Clear, Parts;
    StaleIs(m, buf);
    if |buf| >= |m| {
      ClearWindow(s, pre, buf, rest, m);
    }
  }

  lemma GoesOn(s: bytes, m: bytes, pre: bytes, buf: bytes, chunks: seq<bytes>, rest: bytes, chunk: bytes, rest': bytes)
    requires m != [] && Scanning(s, m, pre, buf, chunks, rest) && First(buf, m).None?
    requires |pre| + Stale(m, buf) <= SCAN_LIMIT && rest == chunk + rest' && |chunk| <= CHUNK
    ensures var k := Stale(m, buf);
            k <= |buf| && Scanning(s, m, pre + buf[..k], buf[k..] + chunk, chunks + [chunk], rest')
  {
    hide First, MarkAt, Clear, Parts, Reaches, Joined, Scanned, Stale;
    StaleIs(m, buf);
    ClearSoFar(s, m, pre, buf, rest);
    var k := Stale(m, buf);
    DropFromWindow(s, pre, buf, rest, k);
    ExtendWindow(s, pre + buf[..k], buf[k..], chunk, rest');
    ReachesNext(m, chunks, buf, |pre|, chunk);
    JoinedNext(chunks, chunk, rest');
  }

  lemma ScanStarts(s: bytes, m: bytes)
    ensures Scanning(s, m, [], [], [], s)
  {
    hide Reaches;
    ReachesStart(m);
    NothingClear(s, m);
    NothingJoined(s);
  }

  /**
   For every chunking of the stream: the first marker is found whenever it starts at offset
   512 or earlier, none starting after 639 is accepted, and no byte after it is lost. The result
   is a function of the reads it made.
   */
  method ScanSync(conn: Conn, m: bytes) returns (r: ScanResult, ghost chunks: seq<bytes>)
    requires m != []
    modifies conn`incoming
    ensures ScanCorrect(old(conn.incoming), m, r, conn.incoming)
    ensures r == Scanned(m, [], 0, chunks) && old(conn.incoming) == Joined(chunks) + conn.incoming
  {
    hide First, Scanning, Joined, Scanned, Stale, ScanCorrect;
    chunks := [];
    ghost var s := conn.incoming;
    ghost var pre: bytes := [];
    var buf: bytes := [];
    var scanned := 0;
    var keep := |m| - 1;
    ScanStarts(s, m);
    while true
      invariant Scanning(s, m, pre, buf, chunks, conn.incoming) && |pre| == scanned
      decreases |conn.incoming|
    {
      StopsRight(s, m, pre, buf, chunks, conn.incoming);
      StaleIs(m, buf);
      var pos := First(buf, m);
      if pos.Some? {
        return Found(buf[pos.value + |m|..]), chunks;
      }
      ghost var window, unread, dropped := buf, conn.incoming, pre;
      if |buf| > keep {
        var safe := |buf| - keep;
        scanned := scanned + safe;
        pre := pre + buf[..safe];
        buf := buf[safe..];
      }
      if scanned > SCAN_LIMIT {
        return LimitExceeded, chunks;
      }
      var chunk := conn.Read(CHUNK);
      if chunk == [] {
        return Closed, chunks;
      }
      GoesOn(s, m, dropped, window, chunks, unread, chunk, conn.incoming);
      assert |window| <= keep ==> pre == dropped + window[..0] && buf == window[0..];
      buf := buf + chunk;
      chunks := chunks + [chunk];
    }
  }

  lemma JoinedNext(chunks: seq<bytes>, chunk: bytes, rest: bytes)
    ensures Joined(chunks) + (chunk + rest) == Joined(chunks + [chunk]) + rest
  {
    JoinedSnoc(chunks, chunk);
  }

  lemma NothingJoined(s: bytes)
    ensures s == Joined([]) + s
  {
  }

  lemma AllRead(s: bytes, pre: bytes, buf: bytes)
    requires Parts(s, pre, buf, [])
    ensures |s| == |pre| + |buf|
  {
  }

  lemma NothingClear(s: bytes, m: bytes)
    ensures Clear(s, 0, m) && Parts(s, [], [], s)
  {
  }

  // The late zone: both outcomes occur ----------------------------------------------------------------

  /** The stream in reads of one byte. */
  function Singles(s: bytes): seq<bytes> { seq(|s|, i requires 0 <= i < |s| => [s[i]]) }

  /** The start of the window after `n` bytes read one by one. */
  function WindowStart(n: nat, m: bytes): nat { Max(n - |m|, 0) }

  lemma NoMarkYet(s: bytes, m: bytes, n: nat)
    requires m != [] && n <= |s| && First(s, m).Some? && WindowStart(n, m) < First(s, m).value
    ensures First(s[WindowStart(n, m)..n], m).None?
    ensures Stale(m, s[WindowStart(n, m)..n]) == if n >= |m| then 1 else 0
  {
    var lo := WindowStart(n, m);
    var buf := s[lo..n];
    if First(buf, m).Some? {
      assert Parts(s, s[..lo], buf, s[n..]);
      MarkInWindow(s, s[..lo], buf, s[n..], lo, m);
    }
  }

  /** One step of the scan over a byte read alone. */
  lemma SlowStep(s: bytes, m: bytes, n: nat, chunks: seq<bytes>)
    requires m != [] && n < |s| && First(s, m).Some? && WindowStart(n, m) < First(s, m).value
    requires WindowStart(n + 1, m) <= SCAN_LIMIT && chunks != [] && chunks[0] == [s[n]]
    ensures Scanned(m, s[WindowStart(n, m)..n], WindowStart(n, m), chunks)
         == Scanned(m, s[WindowStart(n + 1, m)..n + 1], WindowStart(n + 1, m), chunks[1..])
  {
    hide First;
    NoMarkYet(s, m, n);
    var lo, stale := WindowStart(n, m), if n >= |m| then 1 else 0;
    assert lo + stale == WindowStart(n + 1, m);
    assert s[lo..n][stale..] + [s[n]] == s[lo + stale..n + 1];
  }

  lemma SinglesStep(s: bytes, n: nat)
    requires n < |s|
    ensures Singles(s[n..]) != [] && Singles(s[n..])[0] == [s[n]] && Singles(s[n..])[1..] == Singles(s[n + 1..])
  {
  }

  lemma {:induction false} SlowFrom(s: bytes, m: bytes, n: nat)
    requires m != [] && n <= |s| && First(s, m).Some? && First(s, m).value > SCAN_LIMIT && WindowStart(n, m) <= SCAN_LIMIT
    ensures Scanned(m, s[WindowStart(n, m)..n], WindowStart(n, m), Singles(s[n..])) == LimitExceeded
    decreases |s| - n
  {
    hide First, Singles;
    NoMarkYet(s, m, n);
    MarkFits(s, m);
    if WindowStart(n + 1, m) <= SCAN_LIMIT {
      SinglesStep(s, n);
      SlowStep(s, m, n, Singles(s[n..]));
      SlowFrom(s, m, n + 1);
    }
  }

  lemma MarkFits(s: bytes, m: bytes)
    requires First(s, m).Some?
    ensures First(s, m).value + |m| <= |s|
  {
  }

  /** Read byte by byte, a marker beyond offset 512 is always refused. */
  lemma LateMarkRefused(s: bytes, m: bytes)
    requires m != [] && First(s, m).Some? && First(s, m).value > SCAN_LIMIT
    ensures Joined(Singles(s)) == s && Scanned(m, [], 0, Singles(s)) == LimitExceeded
  {
    hide First, Singles;
    SlowFrom(s, m, 0);
    assert s[0..0] == [] && s[0..] == s;
    JoinedSingles(s);
  }

  lemma {:induction false} JoinedSingles(s: bytes)
    ensures Joined(Singles(s)) == s
  {
    if s != [] {
      JoinedSingles(s[1..]);
      assert Singles(s)[1..] == Singles(s[1..]);
      assert s == [s[0]] + s[1..];
    }
  }

  /** The reads that wait until 512 offsets are ruled out and then take a full chunk. */
  function LuckyReads(s: bytes, m: bytes, n: nat): seq<bytes>
    requires n <= SCAN_LIMIT + |m| - 1 <= |s|
  {
    var k := SCAN_LIMIT + |m| - 1;
    Singles(s[n..k]) + [s[k..Min(k + CHUNK, |s|)]]
  }

  lemma {:induction false} FastFrom(s: bytes, m: bytes, n: nat)
    requires m != [] && First(s, m).Some? && SCAN_LIMIT < First(s, m).value < SCAN_LIMIT + CHUNK
    requires n <= SCAN_LIMIT + |m| - 1 <= |s|
    ensures var end := Min(SCAN_LIMIT + |m| - 1 + CHUNK, |s|);
            && First(s, m).value + |m| <= end
            && Scanned(m, s[WindowStart(n, m)..n], WindowStart(n, m), LuckyReads(s, m, n)) == Found(s[First(s, m).value + |m|..end])
    decreases SCAN_LIMIT + |m| - n
  {
    hide First, Singles;
    MarkFits(s, m);
    var k := SCAN_LIMIT + |m| - 1;
    var chunks := LuckyReads(s, m, n);
    if n < k {
      FirstSingle(s[n..k]);
      assert s[n..k][0] == s[n] && s[n..k][1..] == s[n + 1..k];
      assert chunks[0] == [s[n]] && chunks[1..] == LuckyReads(s, m, n + 1);
      SlowStep(s, m, n, chunks);
      FastFrom(s, m, n + 1);
    } else {
      NoSingles(s, k);
      LastRead(s, m, chunks);
    }
  }

  lemma FirstSingle(t: bytes)
    requires t != []
    ensures Singles(t) == [[t[0]]] + Singles(t[1..])
  {
  }

  lemma NoSingles(s: bytes, k: nat)
    requires k <= |s|
    ensures Singles(s[k..k]) == []
  {
  }

  /** The chunk read once offset 512 is ruled out contains any marker up to offset 639. */
  lemma LastRead(s: bytes, m: bytes, chunks: seq<bytes>)
    requires m != [] && First(s, m).Some? && SCAN_LIMIT < First(s, m).value < SCAN_LIMIT + CHUNK
    requires var k := SCAN_LIMIT + |m| - 1; k <= |s| && chunks == [s[k..Min(k + CHUNK, |s|)]]
    ensures var k, end := SCAN_LIMIT + |m| - 1, Min(SCAN_LIMIT + |m| - 1 + CHUNK, |s|);
            && First(s, m).value + |m| <= end
            && Scanned(m, s[WindowStart(k, m)..k], WindowStart(k, m), chunks) == Found(s[First(s, m).value + |m|..end])
  {
    hide First;
    MarkFits(s, m);
    var k, end, p := SCAN_LIMIT + |m| - 1, Min(SCAN_LIMIT + |m| - 1 + CHUNK, |s|), First(s, m).value;
    NoMarkYet(s, m, k);
    var lo := WindowStart(k, m);
    var buf := s[lo..k][1..] + s[k..end];
    assert buf == s[SCAN_LIMIT..end];
    WindowMark(s, m, SCAN_LIMIT, end);
    assert Scanned(m, buf, SCAN_LIMIT, []) == Found(buf[p - SCAN_LIMIT + |m|..]);
    assert buf[p - SCAN_LIMIT + |m|..] == s[p + |m|..end];
  }

  /** The first marker of a window that starts before it and holds it whole. */
  lemma WindowMark(s: bytes, m: bytes, lo: nat, end: nat)
    requires First(s, m).Some? && lo <= First(s, m).value && First(s, m).value + |m| <= end <= |s|
    ensures First(s[lo..end], m) == Some(First(s, m).value - lo)
  {
    var p, buf := First(s, m).value, s[lo..end];
    assert Parts(s, s[..lo], buf, s[end..]);
    MarkInWindow(s, s[..lo], buf, s[end..], p, m);
    forall k | 0 <= k < p - lo ensures !MarkAt(buf, k, m) {
      if k + |m| <= |buf| {
        MarkInWindow(s, s[..lo], buf, s[end..], lo + k, m);
      }
    }
    FirstIs(buf, m, p - lo);
  }

  /** With luckier reads the same marker is found, up to offset 639. */
  lemma LateMarkFound(s: bytes, m: bytes)
    requires m != [] && First(s, m).Some? && SCAN_LIMIT < First(s, m).value < SCAN_LIMIT + CHUNK
    ensures SCAN_LIMIT + |m| - 1 <= |s| && Scanned(m, [], 0, LuckyReads(s, m, 0)).Found?
    ensures Joined(LuckyReads(s, m, 0)) <= s
  {
    hide First, Singles, Scanned, LuckyReads;
    MarkFits(s, m);
    FastFrom(s, m, 0);
    assert s[0..0] == [];
    LuckyJoined(s, m);
  }

  lemma LuckyJoined(s: bytes, m: bytes)
    requires m != [] && SCAN_LIMIT + |m| - 1 <= |s|
    ensures Joined(LuckyReads(s, m, 0)) <= s
  {
    hide Singles;
    var k := SCAN_LIMIT + |m| - 1;
    var last := s[k..Min(k + CHUNK, |s|)];
    JoinedSnoc(Singles(s[0..k]), last);
    JoinedSingles(s[0..k]);
    assert s[0..k] + last == s[..Min(k + CHUNK, |s|)];
  }
}
