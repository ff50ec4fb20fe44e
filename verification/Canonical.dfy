/** Which accepted texts the printer reproduces. */
module Canonical {
  import opened Bytes
  import opened Bencode

  // The condition, read off the text ------------------------------------------------------

  /** No integer starts with a plus sign and the keys of every dictionary rise, at any depth. */
  predicate Canonical(s: bytes, pos: nat, depth: nat)
    requires pos <= |s|
    decreases |s| - pos, 0
  {
    if pos == |s| then true
    else if s[pos] == CH_I then pos + 1 < |s| && s[pos + 1] != CH_PLUS
    else if s[pos] == CH_L then CanonicalItems(s, pos + 1, depth)
    else if s[pos] == CH_D then CanonicalEntries(s, pos + 1, depth, None)
    else true
  }

  predicate CanonicalItems(s: bytes, pos: nat, depth: nat)
    requires pos <= |s|
    decreases |s| - pos, 1
  {
    if pos < |s| && s[pos] != CH_E && ParseValue(s, pos, depth + 1).Ok? then
      Canonical(s, pos, depth + 1) && CanonicalItems(s, ParseValue(s, pos, depth + 1).value.1, depth)
    else true
  }

  /** `last` is the key before this entry. */
  predicate CanonicalEntries(s: bytes, pos: nat, depth: nat, last: Option<bytes>)
    requires pos <= |s|
    decreases |s| - pos, 1
  {
    if pos < |s| && s[pos] != CH_E && ParseRaw(s, pos).Ok? then
      var (k, p) := ParseRaw(s, pos).value;
      && (last.Some? ==> LexLess(last.value, k))
      && (ParseValue(s, p, depth + 1).Ok? ==>
            Canonical(s, p, depth + 1) && CanonicalEntries(s, ParseValue(s, p, depth + 1).value.1, depth, Some(k)))
    else true
  }

  // Numbers ---------------------------------------------------------------------------------

  /** Digits without a leading zero are the printed form of their value. */
  lemma {:induction false} DigitsUnique(t: bytes)
    requires t != [] && AllDigits(t) && (t[0] == CH_0 ==> |t| == 1)
    ensures Digits(DigitsValue(t)) == t && (t[0] != CH_0 ==> DigitsValue(t) > 0)
  {
    var front, last := t[..|t| - 1], t[|t| - 1];
    assert t == front + [last];
    if front == [] {
      assert DigitsValue(front) == 0;
    } else {
      DigitsUnique(front);
      var a := DigitsValue(front);
      assert DigitsValue(t) / 10 == a && DigitsValue(t) % 10 == last - CH_0;
    }
  }

  lemma IntReprints(t: bytes)
    requires ValidIntText(t) && ParseI64(t).Some? && t[0] != CH_PLUS
    ensures Decimal(ParseI64(t).value) == t
  {
    hide Digits, DigitsValue;
    if t[0] == CH_MINUS {
      DigitsUnique(t[1..]);
      assert t == [CH_MINUS] + t[1..];
    } else {
      DigitsUnique(t);
    }
  }

  lemma RawReprints(s: bytes, pos: nat)
    requires pos <= |s| && ParseRaw(s, pos).Ok?
    ensures EncodeStr(ParseRaw(s, pos).value.0) == s[pos..ParseRaw(s, pos).value.1]
  {
    hide Digits, DigitsValue;
    var (n, p) := ParseLength(s, pos).value;
    var e := ScanDigits(s, pos);
    DigitsUnique(s[pos..e]);
    assert s[pos..p + n] == s[pos..e] + [CH_COLON] + s[p..p + n];
  }

  lemma IntTextReprints(s: bytes, pos: nat)
    requires pos < |s| && s[pos] == CH_I && ParseInt(s, pos).Ok? && pos + 1 < |s| && s[pos + 1] != CH_PLUS
    ensures Encode(ParseInt(s, pos).value.0) == s[pos..ParseInt(s, pos).value.1]
  {
    hide ValidIntText, ParseI64, Decimal, ScanTo;
    var e := ScanTo(s, pos + 1, CH_E);
    var t := s[pos + 1..e];
    TextNotEmpty(t);
    IntReprints(t);
    assert s[pos..e + 1] == [CH_I] + (t + [CH_E]);
  }

  lemma TextNotEmpty(t: bytes)
    requires ValidIntText(t)
    ensures t != []
  {
  }

  // Canonical text is reproduced ---------------------------------------------------------------

  lemma {:induction false} Reprints(s: bytes, pos: nat, d: nat)
    requires pos <= |s| && ParseValue(s, pos, d).Ok? && Canonical(s, pos, d)
    ensures Encode(ParseValue(s, pos, d).value.0) == s[pos..ParseValue(s, pos, d).value.1]
    decreases |s| - pos, 0
  {
    hide ParseItems, ParseEntries, ParseInt, ParseRaw, EncodeItems, EncodeEntries, EncodeStr, CanonicalItems, CanonicalEntries;
    var (v, q) := ParseValue(s, pos, d).value;
    if s[pos] == CH_I {
      IntTextReprints(s, pos);
    } else if s[pos] == CH_L {
      ItemsReprint(s, pos + 1, d, []);
      assert s[pos..q] == [CH_L] + s[pos + 1..q];
      NothingPrinted();
    } else if s[pos] == CH_D {
      EntriesReprint(s, pos + 1, d, [], None);
      assert s[pos..q] == [CH_D] + s[pos + 1..q];
      NothingPrinted();
    } else {
      RawReprints(s, pos);
    }
  }

  lemma NothingPrinted()
    ensures EncodeItems([]) == EncodeEntries([]) == []
    ensures forall x: bytes :: [] + x == x
  {
  }

  lemma {:induction false} ItemsReprint(s: bytes, pos: nat, d: nat, acc: seq<Value>)
    requires pos <= |s| && ParseItems(s, pos, d, acc).Ok? && CanonicalItems(s, pos, d)
    ensures var (v, q) := ParseItems(s, pos, d, acc).value;
            v.List? && EncodeItems(v.items) + [CH_E] == EncodeItems(acc) + s[pos..q]
    decreases |s| - pos, 1
  {
    hide ParseValue, Canonical, Encode, EncodeItems;
    var q := ParseItems(s, pos, d, acc).value.1;
    if s[pos] == CH_E {
      assert s[pos..pos + 1] == [CH_E];
    } else {
      var (x, p) := ParseValue(s, pos, d + 1).value;
      Reprints(s, pos, d + 1);
      ItemsReprint(s, p, d, acc + [x]);
      ItemsAppend(acc, x);
      assert s[pos..q] == s[pos..p] + s[p..q];
      assert (EncodeItems(acc) + Encode(x)) + s[p..q] == EncodeItems(acc) + (Encode(x) + s[p..q]);
    }
  }

  lemma {:induction false} ItemsAppend(acc: seq<Value>, x: Value)
    ensures EncodeItems(acc + [x]) == EncodeItems(acc) + Encode(x)
    decreases |acc|
  {
    hide Encode;
    if acc == [] {
      assert [] + [x] == [x] && [x][1..] == [] && Encode(x) + [] == Encode(x) == [] + Encode(x);
    } else {
      ItemsAppend(acc[1..], x);
      assert (acc + [x])[1..] == acc[1..] + [x];
      assert Encode(acc[0]) + (EncodeItems(acc[1..]) + Encode(x)) == (Encode(acc[0]) + EncodeItems(acc[1..])) + Encode(x);
    }
  }

  /** The key of the last entry so far. */
  function LastKey(acc: seq<Entry>): Option<bytes> {
    if acc == [] then None else Some(acc[|acc| - 1].key)
  }

  lemma InsertRising(acc: seq<Entry>, k: bytes, v: Value)
    requires Sorted(acc) && (acc != [] ==> LexLess(LastKey(acc).value, k))
    ensures Insert(acc, k, v) == acc + [Entry(k, v)] && Sorted(acc + [Entry(k, v)])
  {
    forall j | 0 <= j < |acc| ensures LexLess(acc[j].key, k) {
      if j < |acc| - 1 {
        LexTrans(acc[j].key, acc[|acc| - 1].key, k);
      }
    }
    InsertLast(acc, k, v);
  }

  lemma {:induction false} EntriesReprint(s: bytes, pos: nat, d: nat, acc: seq<Entry>, last: Option<bytes>)
    requires pos <= |s| && ParseEntries(s, pos, d, acc).Ok? && CanonicalEntries(s, pos, d, last)
    requires Sorted(acc) && last == LastKey(acc)
    ensures var (v, q) := ParseEntries(s, pos, d, acc).value;
            v.Dict? && EncodeEntries(v.entries) + [CH_E] == EncodeEntries(acc) + s[pos..q]
    decreases |s| - pos, 1
  {
    hide ParseValue, ParseRaw, Canonical, Encode, EncodeStr, EncodeEntries, Insert, Sorted, LexLess;
    var q := ParseEntries(s, pos, d, acc).value.1;
    if s[pos] == CH_E {
      assert s[pos..pos + 1] == [CH_E];
    } else {
      var (k, m) := ParseRaw(s, pos).value;
      var (x, p) := ParseValue(s, m, d + 1).value;
      RawReprints(s, pos);
      Reprints(s, m, d + 1);
      InsertRising(acc, k, x);
      EntriesReprint(s, p, d, acc + [Entry(k, x)], Some(k));
      EntriesAppend(acc, Entry(k, x));
      assert s[pos..q] == s[pos..m] + (s[m..p] + s[p..q]);
      var a, b, c, r := EncodeEntries(acc), EncodeStr(k), Encode(x), s[p..q];
      assert (a + (b + c)) + r == a + (b + (c + r));
    }
  }

  lemma {:induction false} EntriesAppend(acc: seq<Entry>, e: Entry)
    ensures EncodeEntries(acc + [e]) == EncodeEntries(acc) + (EncodeStr(e.key) + Encode(e.val))
    decreases |acc|
  {
    hide Encode, EncodeStr;
    var x := EncodeStr(e.key) + Encode(e.val);
    if acc == [] {
      assert [] + [e] == [e] && [e][1..] == [];
      assert Encode(e.val) + [] == Encode(e.val) && [] + x == x;
    } else {
      EntriesAppend(acc[1..], e);
      assert (acc + [e])[1..] == acc[1..] + [e];
      var a, b, r := EncodeStr(acc[0].key), Encode(acc[0].val), EncodeEntries(acc[1..]);
      assert a + (b + (r + x)) == (a + (b + r)) + x;
    }
  }

  // What the printer writes is canonical ----------------------------------------------------------

  lemma {:induction false} PrintedIsCanonical(v: Value, t: bytes, q: nat, depth: nat)
    requires Wf(v) && depth + Height(v) <= MAX_DEPTH && At(t, q, Encode(v))
    ensures q <= |t| && Canonical(t, q, depth)
    decreases v, 0
  {
    hide At, Encode, EncodeStr, EncodeItems, EncodeEntries, CanonicalItems, CanonicalEntries;
    EncodeHead(v);
    HeadAt(v, t, q);
    match v
    case Int(i) => NoPlus(i, t, q);
    case Str(_) =>
    case List(items) =>
      ContainerLayout(v, t, q);
      PrintedItems(items, t, q + 1, depth);
    case Dict(es) =>
      ContainerLayout(v, t, q);
      PrintedEntries(es, t, q + 1, depth, None);
  }

  lemma NoPlus(i: int, t: bytes, q: nat)
    requires At(t, q, Encode(Int(i)))
    ensures q + 1 < |t| && t[q + 1] != CH_PLUS
  {
    var d := Decimal(i);
    assert d != [] && d[0] != CH_PLUS;
    AtIndex(t, q, [CH_I] + (d + [CH_E]), 1);
  }

  lemma {:induction false} PrintedItems(items: seq<Value>, t: bytes, q: nat, depth: nat)
    requires WfItems(items) && depth + HeightItems(items) <= MAX_DEPTH
    requires At(t, q, EncodeItems(items) + [CH_E])
    ensures q <= |t| && CanonicalItems(t, q, depth)
    decreases items, 1
  {
    hide At, ParseValue, Encode, EncodeItems, Canonical;
    ItemsLayout(items, t, q);
    if items != [] {
      ValueAt(items[0], t, q, depth + 1);
      PrintedIsCanonical(items[0], t, q, depth + 1);
      PrintedItems(items[1..], t, q + |Encode(items[0])|, depth);
    }
  }

  lemma {:induction false} PrintedEntries(es: seq<Entry>, t: bytes, q: nat, depth: nat, last: Option<bytes>)
    requires WfEntries(es) && depth + HeightEntries(es) <= MAX_DEPTH && Sorted(es)
    requires es != [] && last.Some? ==> LexLess(last.value, es[0].key)
    requires At(t, q, EncodeEntries(es) + [CH_E])
    ensures q <= |t| && CanonicalEntries(t, q, depth, last)
    decreases es, 1
  {
    hide At, ParseValue, ParseRaw, Encode, EncodeStr, EncodeEntries, Canonical, LexLess;
    EntriesLayout(es, t, q);
    if es != [] {
      var k := EncodeStr(es[0].key);
      StrAt(t, q, es[0].key);
      ValueAt(es[0].val, t, q + |k|, depth + 1);
      PrintedIsCanonical(es[0].val, t, q + |k|, depth + 1);
      PrintedEntries(es[1..], t, q + |k| + |Encode(es[0].val)|, depth, Some(es[0].key));
    }
  }

  // Exactly when -------------------------------------------------------------------------------------

  /** Re-encoding what was decoded gives the input back if and only if the input is canonical. */
  lemma ReencodesIff(s: bytes)
    requires Decode(s).Ok?
    ensures Encode(Decode(s).value) == s <==> Canonical(s, 0, 0)
  {
    var v := Decode(s).value;
    ParsedIsWf(s, 0, 0);
    if Canonical(s, 0, 0) {
      Reprints(s, 0, 0);
      assert s[0..|s|] == s;
    }
    if Encode(v) == s {
      assert At(s, 0, Encode(v));
      PrintedIsCanonical(v, s, 0, 0);
    }
  }

  /** A plus sign is accepted and lost: `i+5e` decodes to 5, which prints without it. */
  lemma PlusIsLost()
    ensures Decode([CH_I, CH_PLUS, 53, CH_E]) == Ok(Int(5)) && Encode(Int(5)) != [CH_I, CH_PLUS, 53, CH_E]
  {
    var s: bytes := [CH_I, CH_PLUS, 53, CH_E];
    assert ScanTo(s, 2, CH_E) == ScanTo(s, 3, CH_E) == 3;
    assert ScanTo(s, 1, CH_E) == 3;
    var t := s[1..3];
    assert t == [CH_PLUS, 53] && t[1..] == [53];
    assert [53][..0] == [];
    assert DigitsValue([53]) == 5;
    assert ParseI64(t) == Some(5);
    ReencodesIff(s);
  }

  /** A dictionary of two entries as it may stand in a text, in any order of the keys. */
  function TwoEntries(a: Entry, b: Entry): bytes { [CH_D] + (EncodeEntries([a, b]) + [CH_E]) }

  lemma AtWhole(t: bytes)
    ensures At(t, 0, t)
  {
  }

  /** One entry read at a known place. */
  lemma OneEntry(e: Entry, rest: seq<Entry>, t: bytes, q: nat, acc: seq<Entry>)
    requires WfEntries([e] + rest) && HeightEntries([e] + rest) <= MAX_DEPTH && At(t, q, EncodeEntries([e] + rest) + [CH_E])
    ensures ([e] + rest)[1..] == rest
    ensures var r := q + |EncodeStr(e.key)| + |Encode(e.val)|;
            && r <= |t| && ParseEntries(t, q, 0, acc) == ParseEntries(t, r, 0, Insert(acc, e.key, e.val))
            && At(t, r, EncodeEntries(rest) + [CH_E])
            && q < |t| && t[q] != CH_E && ParseRaw(t, q) == Ok((e.key, q + |EncodeStr(e.key)|))
            && ParseValue(t, q + |EncodeStr(e.key)|, 1) == Ok((e.val, r))
  {
    hide At, ParseValue, ParseEntries, ParseRaw, Encode, EncodeStr, EncodeEntries, Insert;
    var es := [e] + rest;
    assert es[0] == e && es[1..] == rest;
    EntriesLayout(es, t, q);
    EntriesStep(t, q, 0, acc);
    StrAt(t, q, e.key);
    ValueAt(e.val, t, q + |EncodeStr(e.key)|, 1);
    AtInside(t, q + |EncodeStr(e.key)| + |Encode(e.val)|, EncodeEntries(rest) + [CH_E]);
  }

  lemma AtInside(t: bytes, q: nat, x: bytes)
    requires At(t, q, x)
    ensures q <= |t|
  {
  }

  /** Both entries read one after the other. */
  lemma TwoRead(a: Entry, b: Entry)
    requires WfEntries([a, b]) && HeightEntries([a, b]) <= MAX_DEPTH
    ensures var t := TwoEntries(a, b);
            var m := 1 + |EncodeStr(a.key)| + |Encode(a.val)|;
            var r := m + |EncodeStr(b.key)| + |Encode(b.val)|;
            && m <= r < |t| && r + 1 == |t| && t[0] == CH_D && t[1] != CH_E && t[m] != CH_E
            && ParseRaw(t, 1) == Ok((a.key, 1 + |EncodeStr(a.key)|))
            && ParseValue(t, 1 + |EncodeStr(a.key)|, 1) == Ok((a.val, m))
            && ParseRaw(t, m) == Ok((b.key, m + |EncodeStr(b.key)|))
            && ParseEntries(t, 1, 0, []) == Ok((Dict(Insert(Insert([], a.key, a.val), b.key, b.val)), |t|))
  {
    hide At, ParseValue, ParseEntries, ParseRaw, Encode, EncodeStr, Insert, WfEntries, HeightEntries;
    var t := TwoEntries(a, b);
    var m := 1 + |EncodeStr(a.key)| + |Encode(a.val)|;
    var r := m + |EncodeStr(b.key)| + |Encode(b.val)|;
    TwoLayout(a, b);
    assert [a] + [b] == [a, b] && [b] + [] == [b];
    OneEntry(a, [b], t, 1, []);
    TailWf(a, b);
    OneEntry(b, [], t, m, Insert([], a.key, a.val));
    EntriesLayout([], t, r);
    EntriesStep(t, r, 0, Insert(Insert([], a.key, a.val), b.key, b.val));
  }

  lemma TailWf(a: Entry, b: Entry)
    requires WfEntries([a, b]) && HeightEntries([a, b]) <= MAX_DEPTH
    ensures WfEntries([b]) && HeightEntries([b]) <= MAX_DEPTH
  {
    assert [a, b][1..] == [b];
  }

  lemma TwoLayout(a: Entry, b: Entry)
    ensures var t := TwoEntries(a, b);
            && t != [] && t[0] == CH_D && At(t, 1, EncodeEntries([a, b]) + [CH_E])
            && |t| == 2 + |EncodeStr(a.key)| + |Encode(a.val)| + |EncodeStr(b.key)| + |Encode(b.val)|
  {
    hide Encode, EncodeStr;
    var t := TwoEntries(a, b);
    AtWhole(t);
    AtSplit(t, 0, [CH_D], EncodeEntries([a, b]) + [CH_E]);
    assert [a, b][1..] == [b] && [b][1..] == [];
    assert EncodeEntries([]) == [];
    assert EncodeEntries([b]) == EncodeStr(b.key) + (Encode(b.val) + []);
    assert EncodeEntries([a, b]) == EncodeStr(a.key) + (Encode(a.val) + EncodeEntries([b]));
  }

  lemma BothInserted(a: Entry, b: Entry)
    requires a.key == b.key || LexLess(b.key, a.key)
    ensures Insert(Insert([], a.key, a.val), b.key, b.val) == if a.key == b.key then [b] else [b, a]
  {
    assert Insert([], a.key, a.val) == [a] && [a][1..] == [];
    assert [b] + [] == [b] && [b] + [a] == [b, a];
  }

  /** Two entries whose keys do not rise, unsorted or the same, are accepted and printed differently. */
  lemma OrderIsLost(a: Entry, b: Entry)
    requires WfEntries([a, b]) && HeightEntries([a, b]) <= MAX_DEPTH && !LexLess(a.key, b.key)
    ensures Decode(TwoEntries(a, b)) == Ok(Dict(if a.key == b.key then [b] else [b, a]))
    ensures Encode(Decode(TwoEntries(a, b)).value) != TwoEntries(a, b)
  {
    hide ParseValue, ParseEntries, ParseRaw, Encode, EncodeStr, EncodeEntries, TwoEntries, WfEntries, HeightEntries;
    var t := TwoEntries(a, b);
    TwoRead(a, b);
    ValueStep(t, 0, 0);
    LexTotal(a.key, b.key);
    BothInserted(a, b);
    NotRising(t, a, b);
    ReencodesIff(t);
  }

  lemma NotRising(t: bytes, a: Entry, b: Entry)
    requires t == TwoEntries(a, b) && WfEntries([a, b]) && HeightEntries([a, b]) <= MAX_DEPTH && !LexLess(a.key, b.key)
    ensures !Canonical(t, 0, 0)
  {
    hide ParseValue, ParseEntries, ParseRaw, Encode, EncodeStr, EncodeEntries, TwoEntries, WfEntries, HeightEntries, LexLess;
    TwoRead(a, b);
    assert !CanonicalEntries(t, 1 + |EncodeStr(a.key)| + |Encode(a.val)|, 0, Some(a.key));
  }
}
