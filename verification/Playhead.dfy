/**
 The order in which missing pieces are fetched: rarest first, except near the playhead of a
 running player, where the order is by position.
 */
module Playhead {
  import opened Bytes
  import opened Layout

  const STREAM_WINDOW := 32 * 1024 * 1024
  const NEXT_WINDOW := 128 * 1024 * 1024
  const BACK_WINDOW := 8 * 1024 * 1024

  datatype Tier = Stream | Next | Soon | Backfill

  function Rank(t: Tier): nat {
    match t
    case Stream => 0
    case Next => 1
    case Soon => 2
    case Backfill => 3
  }

  /** u64 addition that stops at the maximum. */
  function SatAdd(a: nat, b: nat): nat { Min(a + b, U64_MAX) }

  function SatSub(a: nat, b: nat): nat { if a >= b then a - b else 0 }

  predicate Overlaps(aStart: nat, aEnd: nat, bStart: nat, bEnd: nat) {
    aStart < bEnd && bStart < aEnd
  }

  function TierOf(start: nat, end: nat, playhead: nat): Tier {
    var streamEnd := SatAdd(playhead, STREAM_WINDOW);
    if Overlaps(start, end, playhead, streamEnd) then Stream
    else if Overlaps(start, end, streamEnd, SatAdd(playhead, NEXT_WINDOW)) then Next
    else if Overlaps(start, end, SatSub(playhead, BACK_WINDOW), playhead) then Soon
    else Backfill
  }

  /** A missing piece and how many connected peers hold it. */
  datatype Candidate = Candidate(idx: nat, rarity: nat)

  /** The byte range `assign_piece` attributes to a piece. */
  function RangeOf(l: Info, idx: nat): (nat, nat) {
    var pl := Max(PieceLen(l, 0), 1);
    (idx * pl, Min(idx * pl + pl, Total(l)))
  }

  datatype SortKey = SortKey(tier: nat, first: nat, second: nat)

  /** By tier; inside a window by position, elsewhere by rarity. Without a playhead by rarity. */
  function KeyOf(l: Info, playhead: Option<nat>, c: Candidate): SortKey {
    match playhead
    case None => SortKey(0, c.rarity, c.idx)
    case Some(p) =>
      var (start, end) := RangeOf(l, c.idx);
      var t := TierOf(start, end, p);
      if t == Backfill then SortKey(Rank(t), c.rarity, c.idx) else SortKey(Rank(t), c.idx, c.rarity)
  }

  predicate KeyLess(a: SortKey, b: SortKey) {
    a.tier < b.tier || (a.tier == b.tier && (a.first < b.first || (a.first == b.first && a.second < b.second)))
  }

  predicate Before(l: Info, ph: Option<nat>, a: Candidate, b: Candidate) {
    KeyLess(KeyOf(l, ph, a), KeyOf(l, ph, b))
  }

  /** Candidates with different piece numbers are never tied. */
  lemma BeforeIsTotal(l: Info, ph: Option<nat>, a: Candidate, b: Candidate, c: Candidate)
    ensures a.idx != b.idx ==> Before(l, ph, a, b) || Before(l, ph, b, a)
    ensures !(Before(l, ph, a, b) && Before(l, ph, b, a))
    ensures Before(l, ph, a, b) && Before(l, ph, b, c) ==> Before(l, ph, a, c)
  {
    hide TierOf, RangeOf;
  }

  /** Sorted, hence without repeated piece numbers. */
  predicate InOrder(l: Info, ph: Option<nat>, cs: seq<Candidate>) {
    forall i, j :: 0 <= i < j < |cs| ==> Before(l, ph, cs[i], cs[j])
  }

  predicate Distinct(cs: seq<Candidate>) {
    forall i, j :: 0 <= i < j < |cs| ==> cs[i].idx != cs[j].idx
  }

  function InsertSorted(l: Info, ph: Option<nat>, c: Candidate, cs: seq<Candidate>): seq<Candidate> {
    if cs == [] then [c]
    else if Before(l, ph, c, cs[0]) then [c] + cs
    else [cs[0]] + InsertSorted(l, ph, c, cs[1..])
  }

  function Ordered(l: Info, ph: Option<nat>, cs: seq<Candidate>): seq<Candidate> {
    if cs == [] then [] else InsertSorted(l, ph, cs[0], Ordered(l, ph, cs[1..]))
  }

  lemma InOrderCons(l: Info, ph: Option<nat>, c: Candidate, cs: seq<Candidate>)
    requires InOrder(l, ph, cs) && forall d :: d in cs ==> Before(l, ph, c, d)
    ensures InOrder(l, ph, [c] + cs)
  {
    hide Before;
  }

  lemma InOrderTail(l: Info, ph: Option<nat>, cs: seq<Candidate>)
    requires InOrder(l, ph, cs) && cs != []
    ensures InOrder(l, ph, cs[1..]) && forall d :: d in cs[1..] ==> Before(l, ph, cs[0], d)
  {
    hide Before;
  }

  lemma {:induction false} InsertKeeps(l: Info, ph: Option<nat>, c: Candidate, cs: seq<Candidate>)
    requires InOrder(l, ph, cs) && (forall d :: d in cs ==> d.idx != c.idx)
    ensures InOrder(l, ph, InsertSorted(l, ph, c, cs))
    ensures multiset(InsertSorted(l, ph, c, cs)) == multiset(cs) + multiset{c}
  {
    hide Before, InOrder;
    if cs == [] {
      InOrderCons(l, ph, c, []) by { NothingInOrder(l, ph); }
      assert [c] + [] == [c];
    } else {
      InOrderTail(l, ph, cs);
      assert cs == [cs[0]] + cs[1..];
      if Before(l, ph, c, cs[0]) {
        forall d | d in cs ensures Before(l, ph, c, d) {
          BeforeIsTotal(l, ph, c, cs[0], d);
        }
        InOrderCons(l, ph, c, cs);
      } else {
        assert cs[0] in cs;
        BeforeIsTotal(l, ph, c, cs[0], c);
        InsertKeeps(l, ph, c, cs[1..]);
        var t := InsertSorted(l, ph, c, cs[1..]);
        forall d | d in t ensures Before(l, ph, cs[0], d) {
          assert d in multiset(t);
        }
        InOrderCons(l, ph, cs[0], t);
      }
    }
  }

  /** The order is a rearrangement of the candidates into increasing keys. */
  lemma {:induction false} OrderedIsSorted(l: Info, ph: Option<nat>, cs: seq<Candidate>)
    requires Distinct(cs)
    ensures InOrder(l, ph, Ordered(l, ph, cs)) && multiset(Ordered(l, ph, cs)) == multiset(cs)
  {
    hide InOrder;
    if cs == [] {
      NothingInOrder(l, ph);
    } else {
      assert cs == [cs[0]] + cs[1..];
      OrderedIsSorted(l, ph, cs[1..]);
      var t := Ordered(l, ph, cs[1..]);
      forall d | d in t ensures d.idx != cs[0].idx {
        assert d in multiset(t);
        assert d in cs[1..];
      }
      InsertKeeps(l, ph, cs[0], t);
    }
  }

  lemma NothingInOrder(l: Info, ph: Option<nat>)
    ensures InOrder(l, ph, [])
  {
  }

  /** `order`: the slice is sorted in place. */
  method Order(l: Info, ph: Option<nat>, a: array<Candidate>)
    requires Distinct(a[..])
    modifies a
    ensures a[..] == Ordered(l, ph, old(a[..]))
    ensures InOrder(l, ph, a[..]) && multiset(a[..]) == multiset(old(a[..]))
    ensures Valid(l) && Total(l) <= U64_MAX && (ph.Some? ==> ph.value <= U64_MAX)
            && (forall c :: c in old(a[..]) ==> c.idx < PieceCount(l)) ==>
              forall i, j :: 0 <= i < j < a.Length ==> Along(l, ph, a[i], a[j])
  {
    hide InOrder, Ordered, Distinct, Along, PieceCount, Total;
    ghost var was := a[..];
    var sorted := Ordered(l, ph, a[..]);
    OrderedIsSorted(l, ph, was);
    assert |sorted| == |multiset(sorted)| == |multiset(was)| == a.Length;
    forall i | 0 <= i < a.Length {
      a[i] := sorted[i];
    }
    assert a[..] == sorted;
    if Valid(l) && Total(l) <= U64_MAX && (ph.Some? ==> ph.value <= U64_MAX) && (forall c :: c in was ==> c.idx < PieceCount(l)) {
      OrderedMeans(l, ph, was);
    }
  }

  // Picking ---------------------------------------------------------------------------------

  function FirstFree(cs: seq<Candidate>, taken: set<nat>): (r: Option<nat>)
    ensures r.Some? ==> r.value !in taken
  {
    if cs == [] then None
    else if cs[0].idx !in taken then Some(cs[0].idx)
    else FirstFree(cs[1..], taken)
  }

  lemma {:induction false} FirstFreeIs(l: Info, ph: Option<nat>, cs: seq<Candidate>, taken: set<nat>)
    requires InOrder(l, ph, cs)
    ensures FirstFree(cs, taken).None? <==> forall c :: c in cs ==> c.idx in taken
    ensures FirstFree(cs, taken).Some? ==>
              exists c :: c in cs && c.idx == FirstFree(cs, taken).value
                          && forall d :: d in cs && d.idx !in taken && d != c ==> Before(l, ph, c, d)
  {
    hide Before;
    if cs != [] {
      if cs[0].idx in taken {
        FirstFreeIs(l, ph, cs[1..], taken);
        assert forall c :: c in cs <==> c == cs[0] || c in cs[1..];
      } else {
        assert cs[0] in cs;
      }
    }
  }

  /**
   The pick is nothing exactly when every candidate is taken, and otherwise the free candidate
   that comes before all other free ones.
   */
  lemma PickIsLeast(l: Info, ph: Option<nat>, cs: seq<Candidate>, taken: set<nat>)
    requires Distinct(cs)
    ensures var r := FirstFree(Ordered(l, ph, cs), taken);
            && (r.None? <==> forall c :: c in cs ==> c.idx in taken)
            && (r.Some? ==> exists c :: c in cs && c.idx == r.value && c.idx !in taken
                              && forall d :: d in cs && d.idx !in taken && d != c ==> Before(l, ph, c, d))
  {
    OrderedIsSorted(l, ph, cs);
    var o := Ordered(l, ph, cs);
    FirstFreeIs(l, ph, o, taken);
    forall c ensures c in cs <==> c in o {
      assert c in cs <==> c in multiset(cs);
      assert c in o <==> c in multiset(o);
    }
  }

  /** Successive picks with nothing released in between: each pick is taken before the next. */
  function Picks(cs: seq<Candidate>, taken: set<nat>, k: nat): seq<nat>
    decreases k
  {
    if k == 0 then []
    else
      match FirstFree(cs, taken)
      case None => []
      case Some(x) => [x] + Picks(cs, taken + {x}, k - 1)
  }

  /** The candidates not taken, in the given order. */
  function Free(cs: seq<Candidate>, taken: set<nat>): seq<Candidate> {
    if cs == [] then []
    else (if cs[0].idx !in taken then [cs[0]] else []) + Free(cs[1..], taken)
  }

  function Indices(cs: seq<Candidate>): seq<nat> { seq(|cs|, i requires 0 <= i < |cs| => cs[i].idx) }

  lemma {:induction false} FreeMembers(cs: seq<Candidate>, taken: set<nat>)
    ensures forall c :: c in Free(cs, taken) <==> c in cs && c.idx !in taken
  {
    if cs != [] {
      FreeMembers(cs[1..], taken);
      assert forall c :: c in cs <==> c == cs[0] || c in cs[1..];
    }
  }

  lemma {:induction false} FreeFirst(cs: seq<Candidate>, taken: set<nat>)
    requires Distinct(cs)
    ensures FirstFree(cs, taken).None? <==> Free(cs, taken) == []
    ensures Free(cs, taken) != [] ==>
              var x := Free(cs, taken)[0].idx;
              FirstFree(cs, taken) == Some(x) && Free(cs, taken + {x}) == Free(cs, taken)[1..]
  {
    if cs != [] {
      FreeFirst(cs[1..], taken);
      if cs[0].idx !in taken {
        OtherStillFree(cs[1..], taken, cs[0].idx);
        assert ([cs[0]] + Free(cs[1..], taken))[1..] == Free(cs[1..], taken);
      } else {
        assert [] + Free(cs[1..], taken) == Free(cs[1..], taken);
      }
    }
  }

  lemma {:induction false} OtherStillFree(cs: seq<Candidate>, taken: set<nat>, x: nat)
    requires forall i :: 0 <= i < |cs| ==> cs[i].idx != x
    ensures Free(cs, taken + {x}) == Free(cs, taken)
  {
    if cs != [] {
      OtherStillFree(cs[1..], taken, x);
    }
  }

  lemma {:induction false} PicksAre(cs: seq<Candidate>, taken: set<nat>, k: nat)
    requires Distinct(cs)
    ensures Picks(cs, taken, k) == Indices(Free(cs, taken)[..Min(k, |Free(cs, taken)|)])
    decreases k
  {
    hide Free, FirstFree, Distinct, Indices;
    FreeFirst(cs, taken);
    var free := Free(cs, taken);
    var m := Min(k, |free|);
    if m == 0 {
      NoIndices(free[..m]);
    } else {
      PicksAre(cs, taken + {free[0].idx}, k - 1);
      FirstIndex(free, m);
    }
  }

  lemma NoIndices(cs: seq<Candidate>)
    requires cs == []
    ensures Indices(cs) == []
  {
  }

  lemma FirstIndex(cs: seq<Candidate>, m: nat)
    requires 0 < m <= |cs|
    ensures Indices(cs[..m]) == [cs[0].idx] + Indices(cs[1..][..m - 1])
  {
    var rest := cs[1..][..m - 1];
    assert forall i :: 0 <= i < |rest| ==> rest[i] == cs[..m][i + 1];
  }

  lemma {:induction false} FreeInOrder(l: Info, ph: Option<nat>, cs: seq<Candidate>, taken: set<nat>)
    requires InOrder(l, ph, cs)
    ensures InOrder(l, ph, Free(cs, taken))
  {
    hide Before;
    if cs != [] {
      InOrderTail(l, ph, cs);
      FreeInOrder(l, ph, cs[1..], taken);
      if cs[0].idx !in taken {
        var rest := Free(cs[1..], taken);
        FreeMembers(cs[1..], taken);
        forall i, j | 0 <= i < j < |[cs[0]] + rest| ensures Before(l, ph, ([cs[0]] + rest)[i], ([cs[0]] + rest)[j]) {
          if i == 0 {
            assert rest[j - 1] in cs[1..];
            var m :| 0 <= m < |cs[1..]| && cs[1..][m] == rest[j - 1];
            assert Before(l, ph, cs[0], cs[m + 1]);
          } else {
            assert Before(l, ph, rest[i - 1], rest[j - 1]);
          }
        }
      }
    }
  }

  /**
   With nothing released in between, k successive picks are exactly the first k free candidates
   in the playhead order, and so come out sorted.
   */
  lemma PicksAreSorted(l: Info, ph: Option<nat>, cs: seq<Candidate>, taken: set<nat>, k: nat)
    requires Distinct(cs)
    ensures var free := Free(Ordered(l, ph, cs), taken);
            && InOrder(l, ph, free) && (forall c :: c in free <==> c in cs && c.idx !in taken)
            && Picks(Ordered(l, ph, cs), taken, k) == Indices(free[..Min(k, |free|)])
  {
    hide Before, Ordered, InOrder, Picks;
    var os := Ordered(l, ph, cs);
    OrderedIsSorted(l, ph, cs);
    OrderedDistinct(l, ph, cs);
    FreeMembers(os, taken);
    FreeInOrder(l, ph, os, taken);
    PicksAre(os, taken, k);
  }

  lemma {:induction false} InsertDistinct(l: Info, ph: Option<nat>, c: Candidate, cs: seq<Candidate>)
    requires Distinct(cs) && (forall d :: d in cs ==> d.idx != c.idx)
    ensures Distinct(InsertSorted(l, ph, c, cs))
    ensures forall d :: d in InsertSorted(l, ph, c, cs) <==> d == c || d in cs
  {
    hide Before;
    if cs != [] {
      assert cs == [cs[0]] + cs[1..];
      if !Before(l, ph, c, cs[0]) {
        assert cs[0] in cs;
        InsertDistinct(l, ph, c, cs[1..]);
        var t := InsertSorted(l, ph, c, cs[1..]);
        forall j | 0 <= j < |t| ensures t[j].idx != cs[0].idx {
          assert t[j] in t;
        }
      }
    }
  }

  /** Sorting gives no piece twice. */
  lemma {:induction false} OrderedDistinct(l: Info, ph: Option<nat>, cs: seq<Candidate>)
    requires Distinct(cs)
    ensures Distinct(Ordered(l, ph, cs)) && forall d :: d in Ordered(l, ph, cs) <==> d in cs
  {
    hide Before, InsertSorted;
    if cs != [] {
      assert cs == [cs[0]] + cs[1..];
      OrderedDistinct(l, ph, cs[1..]);
      InsertDistinct(l, ph, cs[0], Ordered(l, ph, cs[1..]));
    }
  }

  // The stream window ----------------------------------------------------------------------------

  /** For the piece ranges used, a window is one contiguous run of piece numbers. */
  lemma WindowIsRun(l: Info, idx: nat, from: nat, to: nat)
    requires Valid(l) && idx < PieceCount(l)
    ensures var (start, end) := RangeOf(l, idx);
            Overlaps(start, end, from, to) <==>
              from < Total(l) && from / Max(PieceLen(l, 0), 1) <= idx && idx * Max(PieceLen(l, 0), 1) < to
  {
    FirstPieceLen(l);
    DivLe(from, PieceLen(l, 0), idx);
  }

  lemma DivLe(from: nat, pl: nat, idx: nat)
    requires pl > 0
    ensures from / pl <= idx <==> from < idx * pl + pl
  {
    var q := from / pl;
    assert q * pl <= from < q * pl + pl;
    if q <= idx {
      MulLe(q, idx, pl);
    } else {
      MulLe(idx + 1, q, pl);
      assert (idx + 1) * pl == idx * pl + pl;
    }
  }

  /** The length used for the ranges is the piece length, or the whole content if that is shorter. */
  lemma FirstPieceLen(l: Info)
    requires Valid(l) && PieceCount(l) > 0
    ensures PieceLen(l, 0) == Min(Total(l), l.pieceLength) > 0
    ensures PieceCount(l) > 1 ==> PieceLen(l, 0) == l.pieceLength
    ensures forall idx :: 0 <= idx < PieceCount(l) ==> idx * PieceLen(l, 0) < Total(l)
  {
    PieceBounds(l, 0);
    PieceBounds(l, 1);
    forall idx | 0 <= idx < PieceCount(l) ensures idx * PieceLen(l, 0) < Total(l) {
      PieceBounds(l, idx);
      if PieceCount(l) == 1 {
        assert idx == 0;
      }
    }
  }

  /**
   The most urgent tier is exactly the run of pieces that cover the 32 MiB from the playhead,
   cut at the largest offset there is, and is empty once the playhead is past the end.
   */
  lemma StreamTierIsRun(l: Info, idx: nat, p: nat)
    requires Valid(l) && idx < PieceCount(l)
    ensures var (start, end) := RangeOf(l, idx);
            TierOf(start, end, p) == Stream <==>
              p < Total(l) && p / PieceLen(l, 0) <= idx && idx * PieceLen(l, 0) < SatAdd(p, STREAM_WINDOW)
  {
    WindowIsRun(l, idx, p, SatAdd(p, STREAM_WINDOW));
    FirstPieceLen(l);
  }

  // What the order means -------------------------------------------------------------------------

  /** The piece holds a byte of the content between two offsets. */
  ghost predicate HoldsWithin(l: Info, idx: nat, from: nat, to: nat)
    requires Valid(l)
  {
    exists g: nat :: from <= g < to && g < Total(l) && g / l.pieceLength == idx
  }

  /**
   How urgent a piece is for a player at offset `p`: 0 if it holds a byte of the 32 MiB from there,
   1 of those up to 128 MiB, 2 of the 8 MiB before, 3 if none of these. Windows end at the largest
   64-bit offset.
   */
  ghost function Urgency(l: Info, p: nat, idx: nat): nat
    requires Valid(l)
  {
    if HoldsWithin(l, idx, p, Min(p + 0x200_0000, U64_MAX)) then 0
    else if HoldsWithin(l, idx, Min(p + 0x200_0000, U64_MAX), Min(p + 0x800_0000, U64_MAX)) then 1
    else if HoldsWithin(l, idx, Max(p - 0x80_0000, 0), p) then 2
    else 3
  }

  /** Rarer first, and among equally rare ones the lower number. */
  predicate RarerFirst(a: Candidate, b: Candidate) { a.rarity < b.rarity || (a.rarity == b.rarity && a.idx < b.idx) }

  /** Without a playhead rarer first; with one the more urgent, inside a window the lower number, outside all rarer first. */
  ghost predicate Precedes(l: Info, ph: Option<nat>, a: Candidate, b: Candidate)
    requires Valid(l)
  {
    match ph
    case None => RarerFirst(a, b)
    case Some(p) =>
      var x, y := Urgency(l, p, a.idx), Urgency(l, p, b.idx);
      x < y || (x == y && if x < 3 then a.idx < b.idx else RarerFirst(a, b))
  }

  /** The range attributed to a piece is exactly its bytes. */
  lemma RangeIsBytes(l: Info, idx: nat, g: nat)
    requires Valid(l) && idx < PieceCount(l) && g < Total(l)
    ensures var (start, end) := RangeOf(l, idx); start < end <= Total(l) && (start <= g < end <==> g / l.pieceLength == idx)
  {
    FirstPieceLen(l);
    PieceBounds(l, idx);
    var pl := PieceLen(l, 0);
    DivIs(g, l.pieceLength, idx);
    if PieceCount(l) == 1 {
      PieceBounds(l, 1);
      assert l.pieceLength >= Total(l) && idx == 0 && pl == Total(l);
    } else {
      assert pl == l.pieceLength;
    }
  }

  lemma DivIs(g: nat, d: nat, q: nat)
    requires d > 0
    ensures g / d == q <==> q * d <= g < q * d + d
  {
    var r := g / d;
    assert r * d <= g < r * d + d;
    if r < q {
      MulLe(r + 1, q, d);
      assert (r + 1) * d == r * d + d;
    } else if r > q {
      MulLe(q + 1, r, d);
      assert (q + 1) * d == q * d + d;
    }
  }

  /** Two ranges overlap exactly when they share a byte, as long as the window is not empty inside the other. */
  lemma OverlapIsByte(l: Info, idx: nat, from: nat, to: nat)
    requires Valid(l) && idx < PieceCount(l) && (from < to || to == 0 || from >= Total(l))
    ensures var (start, end) := RangeOf(l, idx); Overlaps(start, end, from, to) <==> HoldsWithin(l, idx, from, to)
  {
    hide PieceCount, RangeOf;
    var (start, end) := RangeOf(l, idx);
    if g: nat :| from <= g < to && g < Total(l) && g / l.pieceLength == idx {
      RangeIsBytes(l, idx, g);
    }
    PieceHasByte(l, idx);
    if Overlaps(start, end, from, to) {
      var g := Max(start, from);
      RangeIsBytes(l, idx, g);
      assert from <= g < to && g < Total(l) && g / l.pieceLength == idx;
    }
  }

  lemma PieceHasByte(l: Info, idx: nat)
    requires Valid(l) && idx < PieceCount(l)
    ensures var (start, end) := RangeOf(l, idx); start < end <= Total(l)
  {
    FirstPieceLen(l);
    RangeIsBytes(l, idx, idx * PieceLen(l, 0));
  }

  lemma TierIsUrgency(l: Info, p: nat, idx: nat)
    requires Valid(l) && Total(l) <= U64_MAX && p <= U64_MAX && idx < PieceCount(l)
    ensures var (start, end) := RangeOf(l, idx); Rank(TierOf(start, end, p)) == Urgency(l, p, idx)
  {
    hide PieceCount, RangeOf, Overlaps, HoldsWithin;
    var stream, next := SatAdd(p, STREAM_WINDOW), SatAdd(p, NEXT_WINDOW);
    OverlapIsByte(l, idx, p, stream);
    OverlapIsByte(l, idx, stream, next);
    OverlapIsByte(l, idx, SatSub(p, BACK_WINDOW), p);
  }

  /** The comparison by keys is that order. */
  lemma BeforeIsPrecedes(l: Info, ph: Option<nat>, a: Candidate, b: Candidate)
    requires Valid(l) && Total(l) <= U64_MAX && (ph.Some? ==> ph.value <= U64_MAX)
    requires a.idx < PieceCount(l) && b.idx < PieceCount(l) && a.idx != b.idx
    ensures Before(l, ph, a, b) <==> Precedes(l, ph, a, b)
  {
    hide PieceCount, RangeOf, TierOf, Urgency;
    if ph.Some? {
      TierIsUrgency(l, ph.value, a.idx);
      TierIsUrgency(l, ph.value, b.idx);
    }
  }

  /** Everything earlier precedes everything later. */
  ghost predicate InPlace(l: Info, ph: Option<nat>, cs: seq<Candidate>)
    requires Valid(l)
  {
    forall i, j :: 0 <= i < j < |cs| ==> Precedes(l, ph, cs[i], cs[j])
  }

  /** Sorted by keys is sorted by rarity, or by urgency, position and rarity. */
  lemma InOrderIsInPlace(l: Info, ph: Option<nat>, cs: seq<Candidate>)
    requires Valid(l) && Total(l) <= U64_MAX && (ph.Some? ==> ph.value <= U64_MAX)
    requires Distinct(cs) && (forall c :: c in cs ==> c.idx < PieceCount(l))
    ensures InOrder(l, ph, cs) <==> InPlace(l, ph, cs)
  {
    hide PieceCount, Before, Precedes;
    forall i, j | 0 <= i < j < |cs| ensures Before(l, ph, cs[i], cs[j]) <==> Precedes(l, ph, cs[i], cs[j]) {
      BeforeIsPrecedes(l, ph, cs[i], cs[j]);
    }
  }

  /**
   Without a playhead rarity never falls along the order, and equal rarity goes by number. With one,
   no more urgent piece comes after a less urgent one, numbers rise inside each window, and outside
   all windows it is rarity again.
   */
  lemma OrderedMeans(l: Info, ph: Option<nat>, cs: seq<Candidate>)
    requires Valid(l) && Total(l) <= U64_MAX && (ph.Some? ==> ph.value <= U64_MAX)
    requires Distinct(cs) && (forall c :: c in cs ==> c.idx < PieceCount(l))
    ensures var o := Ordered(l, ph, cs);
            && multiset(o) == multiset(cs)
            && (forall i, j :: 0 <= i < j < |o| ==> Along(l, ph, o[i], o[j]))
  {
    hide PieceCount, Before, InOrder, Ordered, Precedes, Along;
    var o := Ordered(l, ph, cs);
    OrderedIsSorted(l, ph, cs);
    OrderedDistinct(l, ph, cs);
    InOrderIsInPlace(l, ph, o);
    forall i, j | 0 <= i < j < |o| ensures Along(l, ph, o[i], o[j]) {
      PrecedesAlong(l, ph, o[i], o[j]);
    }
  }

  /** What is said of two pieces of which the first comes earlier. */
  ghost predicate Along(l: Info, ph: Option<nat>, a: Candidate, b: Candidate)
    requires Valid(l)
  {
    && (ph.None? ==> a.rarity <= b.rarity && (a.rarity == b.rarity ==> a.idx < b.idx))
    && (ph.Some? ==>
          var x, y := Urgency(l, ph.value, a.idx), Urgency(l, ph.value, b.idx);
          && x <= y && (x == y && x < 3 ==> a.idx < b.idx)
          && (x == y == 3 ==> a.rarity <= b.rarity && (a.rarity == b.rarity ==> a.idx < b.idx)))
  }

  lemma PrecedesAlong(l: Info, ph: Option<nat>, a: Candidate, b: Candidate)
    requires Valid(l) && Precedes(l, ph, a, b)
    ensures Along(l, ph, a, b)
  {
    hide Urgency;
  }
}
