/**
 Bencoding (BEP 3): the printer, the recursive parser with its depth limit, and the
 top-level parser that records the raw byte range of every value.
 */
module Bencode {
  import opened Bytes

  const MAX_DEPTH := 64
  const I64_MIN := -0x8000_0000_0000_0000
  const I64_MAX := 0x7FFF_FFFF_FFFF_FFFF

  const CH_I: byte := 'i' as int
  const CH_L: byte := 'l' as int
  const CH_D: byte := 'd' as int
  const CH_E: byte := 'e' as int
  const CH_COLON: byte := ':' as int
  const CH_MINUS: byte := '-' as int
  const CH_PLUS: byte := '+' as int
  const CH_0: byte := '0' as int

  /** A dictionary is a BTreeMap: its entries in strictly increasing key order. */
  datatype Value =
    | Int(i: int)
    | Str(s: bytes)
    | List(items: seq<Value>)
    | Dict(entries: seq<Entry>)

  datatype Entry = Entry(key: bytes, val: Value)

  datatype Error =
    | UnexpectedEof(offset: nat)
    | InvalidToken(offset: nat, byte: byte)
    | InvalidInteger(offset: nat)
    | InvalidLength(offset: nat)
    | LengthOverflow(offset: nat, len: nat, remaining: nat)
    | DepthLimit(limit: nat)
    | TrailingData(count: nat)

  // Ordered dictionaries -----------------------------------------------------

  predicate LexLess(a: bytes, b: bytes) {
    b != [] && (a == [] || a[0] < b[0] || (a[0] == b[0] && LexLess(a[1..], b[1..])))
  }

  lemma LexTotal(a: bytes, b: bytes)
    ensures LexLess(a, b) || a == b || LexLess(b, a)
    ensures !(LexLess(a, b) && LexLess(b, a)) && !LexLess(a, a)
  {
    if a != [] && b != [] && a[0] == b[0] {
      LexTotal(a[1..], b[1..]);
      assert a == [a[0]] + a[1..] && b == [b[0]] + b[1..];
    }
    if a != [] {
      LexTotal(a[1..], a[1..]);
    }
  }

  lemma LexTrans(a: bytes, b: bytes, c: bytes)
    requires LexLess(a, b) && LexLess(b, c)
    ensures LexLess(a, c)
  {
    if a != [] && a[0] == b[0] && b[0] == c[0] {
      LexTrans(a[1..], b[1..], c[1..]);
    }
  }

  predicate Sorted(es: seq<Entry>) {
    forall i, j :: 0 <= i < j < |es| ==> LexLess(es[i].key, es[j].key)
  }

  /** BTreeMap::insert: a key already present keeps its place and takes the new value. */
  function Insert(es: seq<Entry>, key: bytes, val: Value): (r: seq<Entry>) {
    if es == [] then [Entry(key, val)]
    else if es[0].key == key then [Entry(key, val)] + es[1..]
    else if LexLess(key, es[0].key) then [Entry(key, val)] + es
    else [es[0]] + Insert(es[1..], key, val)
  }

  function Lookup(es: seq<Entry>, key: bytes): Option<Value> {
    if es == [] then None
    else if es[0].key == key then Some(es[0].val)
    else Lookup(es[1..], key)
  }

  lemma {:induction false} InsertKeys(es: seq<Entry>, key: bytes, val: Value, e: Entry)
    ensures e in Insert(es, key, val) ==> e == Entry(key, val) || e in es
  {
    if es != [] && es[0].key != key && !LexLess(key, es[0].key) {
      InsertKeys(es[1..], key, val, e);
    }
  }

  /** Insertion keeps the key order and is a map update. */
  lemma {:induction false} InsertIsUpdate(es: seq<Entry>, key: bytes, val: Value, k: bytes)
    requires Sorted(es)
    ensures Sorted(Insert(es, key, val))
    ensures Lookup(Insert(es, key, val), k) == if k == key then Some(val) else Lookup(es, k)
  {
    if es != [] && es[0].key != key {
      LexTotal(es[0].key, key);
      if LexLess(key, es[0].key) {
        forall j | 0 < j < |es| ensures LexLess(key, es[j].key) {
          LexTrans(key, es[0].key, es[j].key);
        }
        LookupBelow(es, key);
      } else {
        InsertIsUpdate(es[1..], key, val, k);
        var r := Insert(es[1..], key, val);
        forall j | 0 <= j < |r| ensures LexLess(es[0].key, r[j].key) {
          InsertKeys(es[1..], key, val, r[j]);
        }
      }
    }
  }

  lemma {:induction false} LookupBelow(es: seq<Entry>, key: bytes)
    requires forall j :: 0 <= j < |es| ==> LexLess(key, es[j].key)
    ensures Lookup(es, key) == None
  {
    if es != [] {
      LexTotal(key, es[0].key);
      LookupBelow(es[1..], key);
    }
  }

  /** A key above all others goes to the end. */
  lemma {:induction false} InsertLast(es: seq<Entry>, key: bytes, val: Value)
    requires forall j :: 0 <= j < |es| ==> LexLess(es[j].key, key)
    ensures Insert(es, key, val) == es + [Entry(key, val)]
  {
    if es != [] {
      LexTotal(es[0].key, key);
      InsertLast(es[1..], key, val);
      assert es == [es[0]] + es[1..];
    }
  }

  // Well-formed values: what the Rust types can hold ---------------------------

  predicate Wf(v: Value)
    decreases v
  {
    match v
    case Int(i) => I64_MIN <= i <= I64_MAX
    case Str(s) => |s| <= U64_MAX
    case List(items) => WfItems(items)
    case Dict(es) => Sorted(es) && WfEntries(es)
  }

  predicate WfItems(items: seq<Value>)
    decreases items
  {
    items != [] ==> Wf(items[0]) && WfItems(items[1..])
  }

  predicate WfEntries(es: seq<Entry>)
    decreases es
  {
    es != [] ==> |es[0].key| <= U64_MAX && Wf(es[0].val) && WfEntries(es[1..])
  }

  /** Number of nesting levels below the root of the value. */
  function Height(v: Value): nat
    decreases v
  {
    match v
    case List(items) => HeightItems(items)
    case Dict(es) => HeightEntries(es)
    case _ => 0
  }

  function HeightItems(items: seq<Value>): nat
    decreases items
  {
    if items == [] then 0 else Max(1 + Height(items[0]), HeightItems(items[1..]))
  }

  function HeightEntries(es: seq<Entry>): nat
    decreases es
  {
    if es == [] then 0 else Max(1 + Height(es[0].val), HeightEntries(es[1..]))
  }

  // Decimal numbers ----------------------------------------------------------

  predicate IsDigit(b: byte) { 48 <= b <= 57 }

  predicate AllDigits(t: bytes) { forall k :: 0 <= k < |t| ==> IsDigit(t[k]) }

  function Digits(n: nat): (r: bytes)
    ensures r != [] && AllDigits(r) && (n > 0 ==> r[0] != CH_0) && (n < 10 ==> |r| == 1)
  {
    if n < 10 then [CH_0 + n] else Digits(n / 10) + [CH_0 + n % 10]
  }

  function DigitsValue(t: bytes): nat
    requires AllDigits(t)
  {
    if t == [] then 0 else 10 * DigitsValue(t[..|t| - 1]) + (t[|t| - 1] - CH_0)
  }

  lemma {:induction false} DigitsRoundTrip(n: nat)
    ensures DigitsValue(Digits(n)) == n
    ensures Digits(n)[0] == CH_0 ==> |Digits(n)| == 1
  {
    if n >= 10 {
      DigitsRoundTrip(n / 10);
      assert Digits(n)[..|Digits(n)| - 1] == Digits(n / 10);
    } else {
      assert Digits(n)[..0] == [];
    }
  }

  /** `i64::to_string`. */
  function Decimal(i: int): bytes {
    if i < 0 then [CH_MINUS] + Digits(-i) else Digits(i)
  }

  /** `str::parse::<u64>` on text already known to hold digits only. */
  function ParseU64(t: bytes): Option<nat>
    requires AllDigits(t)
  {
    if t == [] || DigitsValue(t) > U64_MAX then None else Some(DigitsValue(t))
  }

  /** `str::parse::<i64>`: one optional sign, then digits, and the value must fit. */
  function ParseI64(t: bytes): (r: Option<int>)
    ensures r.Some? ==> I64_MIN <= r.value <= I64_MAX
  {
    if t == [] then None
    else
      var signed := t[0] == CH_MINUS || t[0] == CH_PLUS;
      var ds := if signed then t[1..] else t;
      if ds == [] || !AllDigits(ds) then None
      else
        var v := if t[0] == CH_MINUS then -(DigitsValue(ds) as int) else DigitsValue(ds);
        if I64_MIN <= v <= I64_MAX then Some(v) else None
  }

  /** The format rule checked before the number is parsed: no leading zero, no "-0". */
  predicate ValidIntText(t: bytes) {
    && t != []
    && !(t[0] == CH_0 && |t| > 1)
    && !(|t| >= 2 && t[0] == CH_MINUS && t[1] == CH_0)
    && !(t[0] == CH_MINUS && |t| == 1)
  }

  lemma DecimalIsValid(i: int)
    ensures ValidIntText(Decimal(i))
    ensures forall k :: 0 <= k < |Decimal(i)| ==> Decimal(i)[k] != CH_E
  {
    DigitsRoundTrip(if i < 0 then -i else i);
  }

  lemma DecimalRoundTrip(i: int)
    requires I64_MIN <= i <= I64_MAX
    ensures ParseI64(Decimal(i)) == Some(i)
  {
    hide Digits, DigitsValue;
    DigitsRoundTrip(if i < 0 then -i else i);
    if i < 0 {
      assert Decimal(i)[1..] == Digits(-i);
    }
  }

  // The printer --------------------------------------------------------------

  function EncodeStr(s: bytes): bytes { Digits(|s|) + [CH_COLON] + s }

  function Encode(v: Value): (r: bytes)
    decreases v
  {
    match v
    case Int(i) => [CH_I] + (Decimal(i) + [CH_E])
    case Str(s) => EncodeStr(s)
    case List(items) => [CH_L] + (EncodeItems(items) + [CH_E])
    case Dict(es) => [CH_D] + (EncodeEntries(es) + [CH_E])
  }

  function EncodeItems(items: seq<Value>): bytes
    decreases items
  {
    if items == [] then [] else Encode(items[0]) + EncodeItems(items[1..])
  }

  function EncodeEntries(es: seq<Entry>): bytes
    decreases es
  {
    if es == [] then []
    else EncodeStr(es[0].key) + (Encode(es[0].val) + EncodeEntries(es[1..]))
  }

  // The parser, as a function of the input and the position ------------------

  function ScanTo(s: bytes, pos: nat, stop: byte): (r: nat)
    requires pos <= |s|
    ensures pos <= r <= |s| && (r < |s| ==> s[r] == stop)
    ensures forall k :: pos <= k < r ==> s[k] != stop
    decreases |s| - pos
  {
    if pos == |s| || s[pos] == stop then pos else ScanTo(s, pos + 1, stop)
  }

  function ScanDigits(s: bytes, pos: nat): (r: nat)
    requires pos <= |s|
    ensures pos <= r <= |s| && (r < |s| ==> !IsDigit(s[r]))
    ensures AllDigits(s[pos..r])
    decreases |s| - pos
  {
    if pos == |s| || !IsDigit(s[pos]) then pos
    else
      var r := ScanDigits(s, pos + 1);
      assert s[pos..r] == [s[pos]] + s[pos + 1..r];
      r
  }

  type Parsed<+T> = Result<(T, nat), Error>

  function ParseInt(s: bytes, pos: nat): (r: Parsed<Value>)
    requires pos < |s|
    ensures r.Ok? ==> pos < r.value.1 <= |s|
  {
    var e := ScanTo(s, pos + 1, CH_E);
    if e == |s| then Err(UnexpectedEof(e))
    else
      var text := s[pos + 1..e];
      if !ValidIntText(text) then Err(InvalidInteger(pos))
      else match ParseI64(text)
        case None => Err(InvalidInteger(pos))
        case Some(v) => Ok((Int(v), e + 1))
  }

  function ParseLength(s: bytes, pos: nat): (r: Parsed<nat>)
    requires pos <= |s|
    ensures r.Ok? ==> pos + 1 < r.value.1 <= |s| && r.value.0 <= U64_MAX && IsDigit(s[pos])
  {
    var e := ScanDigits(s, pos);
    if e == |s| then Err(UnexpectedEof(e))
    else if s[e] != CH_COLON then Err(InvalidLength(e))
    else
      var text := s[pos..e];
      if |text| > 1 && text[0] == CH_0 then Err(InvalidLength(pos))
      else match ParseU64(text)
        case None => Err(InvalidLength(pos))
        case Some(n) => Ok((n, e + 1))
  }

  function ParseRaw(s: bytes, pos: nat): (r: Parsed<bytes>)
    requires pos <= |s|
    ensures r.Ok? ==> pos < r.value.1 <= |s| && IsDigit(s[pos]) && |r.value.0| <= U64_MAX
  {
    match ParseLength(s, pos)
    case Err(e) => Err(e)
    case Ok((n, p)) =>
      if n > |s| - p then Err(LengthOverflow(p, n, |s| - p))
      else Ok((s[p..p + n], p + n))
  }

  function ParseValue(s: bytes, pos: nat, depth: nat): (r: Parsed<Value>)
    requires pos <= |s|
    ensures r.Ok? ==> pos < r.value.1 <= |s|
    decreases |s| - pos, 0
  {
    if depth > MAX_DEPTH then Err(DepthLimit(MAX_DEPTH))
    else if pos == |s| then Err(UnexpectedEof(pos))
    else if s[pos] == CH_I then ParseInt(s, pos)
    else if s[pos] == CH_L then ParseItems(s, pos + 1, depth, [])
    else if s[pos] == CH_D then ParseEntries(s, pos + 1, depth, [])
    else if IsDigit(s[pos]) then
      match ParseRaw(s, pos)
      case Err(e) => Err(e)
      case Ok((b, p)) => Ok((Str(b), p))
    else Err(InvalidToken(pos, s[pos]))
  }

  function ParseItems(s: bytes, pos: nat, depth: nat, acc: seq<Value>): (r: Parsed<Value>)
    requires pos <= |s|
    ensures r.Ok? ==> pos < r.value.1 <= |s|
    decreases |s| - pos, 1
  {
    if pos == |s| then Err(UnexpectedEof(pos))
    else if s[pos] == CH_E then Ok((List(acc), pos + 1))
    else match ParseValue(s, pos, depth + 1)
      case Err(e) => Err(e)
      case Ok((v, p)) => ParseItems(s, p, depth, acc + [v])
  }

  function ParseEntries(s: bytes, pos: nat, depth: nat, acc: seq<Entry>): (r: Parsed<Value>)
    requires pos <= |s|
    ensures r.Ok? ==> pos < r.value.1 <= |s|
    decreases |s| - pos, 1
  {
    if pos == |s| then Err(UnexpectedEof(pos))
    else if s[pos] == CH_E then Ok((Dict(acc), pos + 1))
    else if IsDigit(s[pos]) then
      match ParseRaw(s, pos)
      case Err(e) => Err(e)
      case Ok((k, p)) =>
        match ParseValue(s, p, depth + 1)
        case Err(e) => Err(e)
        case Ok((v, q)) => ParseEntries(s, q, depth, Insert(acc, k, v))
    else Err(InvalidToken(pos, s[pos]))
  }

  function DecodePrefix(s: bytes): Parsed<Value> { ParseValue(s, 0, 0) }

  function Decode(s: bytes): Result<Value, Error> {
    match ParseValue(s, 0, 0)
    case Err(e) => Err(e)
    case Ok((v, p)) => if p != |s| then Err(TrailingData(|s| - p)) else Ok(v)
  }

  // The top-level parser, which also records where each value stands ----------

  type Ranges = map<bytes, (nat, nat)>

  datatype Root = Root(entries: seq<Entry>, ranges: Ranges)

  function ParseRootEntries(s: bytes, pos: nat, acc: seq<Entry>, ranges: Ranges): (r: Result<Root, Error>)
    requires pos <= |s|
    decreases |s| - pos
  {
    if pos == |s| then Err(UnexpectedEof(pos))
    else if s[pos] == CH_E then
      if pos + 1 != |s| then Err(TrailingData(|s| - (pos + 1))) else Ok(Root(acc, ranges))
    else
      match ParseRaw(s, pos)
      case Err(e) => Err(e)
      case Ok((k, p)) =>
        match ParseValue(s, p, 1)
        case Err(e) => Err(e)
        case Ok((v, q)) => ParseRootEntries(s, q, Insert(acc, k, v), ranges[k := (p, q)])
  }

  function ParseRoot(s: bytes): Result<Root, Error> {
    if s == [] || s[0] != CH_D then Err(InvalidToken(0, if s == [] then 0 else s[0]))
    else ParseRootEntries(s, 1, [], map[])
  }

  // Round trip: printing then parsing ----------------------------------------

  lemma StrAt(t: bytes, q: nat, s: bytes)
    requires |s| <= U64_MAX && At(t, q, EncodeStr(s))
    ensures ParseRaw(t, q) == Ok((s, q + |EncodeStr(s)|))
  {
    hide Digits, ScanDigits, DigitsValue;
    var ds := Digits(|s|);
    assert EncodeStr(s) == ds + ([CH_COLON] + s);
    AtSplit(t, q, ds, [CH_COLON] + s);
    AtSplit(t, q + |ds|, [CH_COLON], s);
    AtIndex(t, q + |ds|, [CH_COLON], 0);
    ScanDigitsAt(t, q, ds);
    DigitsRoundTrip(|s|);
    RawAt(t, q, ds, s);
  }

  /** Behind a length written in full, the string is cut out. */
  lemma RawAt(t: bytes, q: nat, ds: bytes, s: bytes)
    requires AllDigits(ds) && ds != [] && (|ds| > 1 ==> ds[0] != CH_0) && DigitsValue(ds) == |s| <= U64_MAX
    requires At(t, q, ds) && At(t, q + |ds| + 1, s) && t[q + |ds|] == CH_COLON && ScanDigits(t, q) == q + |ds|
    ensures ParseRaw(t, q) == Ok((s, q + |ds| + 1 + |s|))
  {
    hide ScanDigits, DigitsValue, AllDigits;
  }

  lemma {:induction false} ScanDigitsAt(t: bytes, q: nat, ds: bytes)
    requires AllDigits(ds) && At(t, q, ds) && q + |ds| < |t| && !IsDigit(t[q + |ds|])
    ensures ScanDigits(t, q) == q + |ds|
  {
    var r := ScanDigits(t, q);
    if r < q + |ds| {
      AtIndex(t, q, ds, r - q);
    }
    if r > q + |ds| {
      ScanDigitsPrefix(t, q, q + |ds|);
    }
  }

  lemma ScanDigitsPrefix(t: bytes, q: nat, k: nat)
    requires q <= |t| && q <= k < ScanDigits(t, q)
    ensures IsDigit(t[k])
  {
    assert t[k] == t[q..ScanDigits(t, q)][k - q];
  }

  lemma IntScanAt(t: bytes, q: nat, d: bytes)
    requires At(t, q, [CH_I] + (d + [CH_E])) && forall k :: 0 <= k < |d| ==> d[k] != CH_E
    ensures q < |t| && ScanTo(t, q + 1, CH_E) == q + 1 + |d| < |t|
    ensures t[q + 1..q + 1 + |d|] == d
  {
    AtSplit(t, q, [CH_I], d + [CH_E]);
    AtSplit(t, q + 1, d, [CH_E]);
    AtIndex(t, q + 1 + |d|, [CH_E], 0);
    var e := ScanTo(t, q + 1, CH_E);
    if e < q + 1 + |d| {
      AtIndex(t, q + 1, d, e - q - 1);
    }
  }

  lemma IntAt(t: bytes, q: nat, i: int)
    requires I64_MIN <= i <= I64_MAX && At(t, q, Encode(Int(i)))
    ensures q < |t| && ParseInt(t, q) == Ok((Int(i), q + |Encode(Int(i))|))
  {
    hide At, ValidIntText, ParseI64, Decimal, ScanTo;
    DecimalIsValid(i);
    DecimalRoundTrip(i);
    IntScanAt(t, q, Decimal(i));
  }

  lemma EncodeHead(v: Value)
    ensures Encode(v) != [] && Encode(v)[0] != CH_E
    ensures match v
            case Int(_) => Encode(v)[0] == CH_I
            case Str(s) => IsDigit(Encode(v)[0]) && Encode(v) == EncodeStr(s)
            case List(items) => Encode(v)[0] == CH_L && |Encode(v)| == |EncodeItems(items)| + 2
            case Dict(es) => Encode(v)[0] == CH_D && |Encode(v)| == |EncodeEntries(es)| + 2
  {
  }

  /** One unfolding of the parser, by the byte it looks at. */
  lemma ValueStep(t: bytes, q: nat, depth: nat)
    requires q < |t| && depth <= MAX_DEPTH
    ensures t[q] == CH_I ==> ParseValue(t, q, depth) == ParseInt(t, q)
    ensures t[q] == CH_L ==> ParseValue(t, q, depth) == ParseItems(t, q + 1, depth, [])
    ensures t[q] == CH_D ==> ParseValue(t, q, depth) == ParseEntries(t, q + 1, depth, [])
    ensures IsDigit(t[q]) && ParseRaw(t, q).Ok? ==>
              ParseValue(t, q, depth) == Ok((Str(ParseRaw(t, q).value.0), ParseRaw(t, q).value.1))
  {
  }

  lemma ItemsStep(t: bytes, q: nat, depth: nat, acc: seq<Value>)
    requires q < |t|
    ensures t[q] == CH_E ==> ParseItems(t, q, depth, acc) == Ok((List(acc), q + 1))
    ensures t[q] != CH_E && ParseValue(t, q, depth + 1).Err? ==> ParseItems(t, q, depth, acc).Err?
    ensures t[q] != CH_E && ParseValue(t, q, depth + 1).Ok? ==>
              var (v, p) := ParseValue(t, q, depth + 1).value;
              ParseItems(t, q, depth, acc) == ParseItems(t, p, depth, acc + [v])
  {
  }

  lemma EntriesStep(t: bytes, q: nat, depth: nat, acc: seq<Entry>)
    requires q < |t|
    ensures t[q] == CH_E ==> ParseEntries(t, q, depth, acc) == Ok((Dict(acc), q + 1))
    ensures IsDigit(t[q]) && ParseRaw(t, q).Ok? ==>
              var (k, p) := ParseRaw(t, q).value;
              && (ParseValue(t, p, depth + 1).Err? ==> ParseEntries(t, q, depth, acc).Err?)
              && (ParseValue(t, p, depth + 1).Ok? ==>
                    var (v, r) := ParseValue(t, p, depth + 1).value;
                    ParseEntries(t, q, depth, acc) == ParseEntries(t, r, depth, Insert(acc, k, v)))
  {
  }

  /** Where the pieces of an encoded list or dictionary stand. */
  lemma ItemsLayout(items: seq<Value>, t: bytes, q: nat)
    requires At(t, q, EncodeItems(items) + [CH_E])
    ensures q < |t| && (items == [] <==> t[q] == CH_E)
    ensures items != [] ==>
              var x := Encode(items[0]);
              At(t, q, x) && At(t, q + |x|, EncodeItems(items[1..]) + [CH_E])
  {
    hide At, Encode;
    if items == [] {
      AtIndex(t, q, EncodeItems(items) + [CH_E], 0);
    } else {
      var x, rest := Encode(items[0]), EncodeItems(items[1..]);
      assert EncodeItems(items) + [CH_E] == x + (rest + [CH_E]);
      AtSplit(t, q, x, rest + [CH_E]);
      EncodeHead(items[0]);
      AtIndex(t, q, x, 0);
    }
  }

  lemma EntriesLayout(es: seq<Entry>, t: bytes, q: nat)
    requires At(t, q, EncodeEntries(es) + [CH_E])
    ensures q < |t| && (es == [] <==> t[q] == CH_E) && (es != [] ==> IsDigit(t[q]))
    ensures es != [] ==>
              var k, x := EncodeStr(es[0].key), Encode(es[0].val);
              && At(t, q, k) && At(t, q + |k|, x)
              && At(t, q + |k| + |x|, EncodeEntries(es[1..]) + [CH_E])
  {
    hide At, Encode, EncodeStr;
    if es == [] {
      AtIndex(t, q, EncodeEntries(es) + [CH_E], 0);
    } else {
      EncodeHead(Str(es[0].key));
      var k, x, rest := EncodeStr(es[0].key), Encode(es[0].val), EncodeEntries(es[1..]);
      assert EncodeEntries(es) + [CH_E] == k + (x + (rest + [CH_E]));
      AtSplit(t, q, k, x + (rest + [CH_E]));
      AtSplit(t, q + |k|, x, rest + [CH_E]);
      AtIndex(t, q, k, 0);
    }
  }

  lemma ContainerLayout(v: Value, t: bytes, q: nat)
    requires (v.List? || v.Dict?) && At(t, q, Encode(v))
    ensures v.List? ==> At(t, q + 1, EncodeItems(v.items) + [CH_E])
    ensures v.Dict? ==> At(t, q + 1, EncodeEntries(v.entries) + [CH_E])
  {
    if v.List? {
      AtSplit(t, q, [CH_L], EncodeItems(v.items) + [CH_E]);
    } else {
      AtSplit(t, q, [CH_D], EncodeEntries(v.entries) + [CH_E]);
    }
  }

  lemma HeadAt(v: Value, t: bytes, q: nat)
    requires At(t, q, Encode(v))
    ensures q < |t| && t[q] == Encode(v)[0]
  {
    EncodeHead(v);
    AtIndex(t, q, Encode(v), 0);
  }

  /** Wherever the encoding of a value stands, the parser reads exactly that value. */
  lemma {:induction false} ValueAt(v: Value, t: bytes, q: nat, depth: nat)
    requires Wf(v) && depth + Height(v) <= MAX_DEPTH && At(t, q, Encode(v))
    ensures ParseValue(t, q, depth) == Ok((v, q + |Encode(v)|))
    decreases v, 0
  {
    hide At, Encode, EncodeStr, EncodeItems, EncodeEntries;
    hide ParseValue, ParseItems, ParseEntries, ParseInt, ParseRaw;
    EncodeHead(v);
    HeadAt(v, t, q);
    ValueStep(t, q, depth);
    match v
    case Int(i) => IntAt(t, q, i);
    case Str(s) => StrAt(t, q, s);
    case List(items) =>
      ContainerLayout(v, t, q);
      ItemsAt(items, t, q + 1, depth, []);
      assert [] + items == items;
    case Dict(es) =>
      ContainerLayout(v, t, q);
      assert [] + es == es;
      EntriesAt(es, t, q + 1, depth, []);
  }

  lemma {:induction false} ItemsAt(items: seq<Value>, t: bytes, q: nat, depth: nat, acc: seq<Value>)
    requires WfItems(items) && depth + HeightItems(items) <= MAX_DEPTH
    requires At(t, q, EncodeItems(items) + [CH_E])
    ensures ParseItems(t, q, depth, acc) == Ok((List(acc + items), q + |EncodeItems(items)| + 1))
    decreases items, 1
  {
    hide At, ParseValue, ParseItems, Encode;
    ItemsLayout(items, t, q);
    ItemsStep(t, q, depth, acc);
    if items == [] {
      assert acc + items == acc;
    } else {
      ValueAt(items[0], t, q, depth + 1);
      ItemsAt(items[1..], t, q + |Encode(items[0])|, depth, acc + [items[0]]);
      assert acc + [items[0]] + items[1..] == acc + items;
    }
  }

  lemma {:induction false} EntriesAt(es: seq<Entry>, t: bytes, q: nat, depth: nat, acc: seq<Entry>)
    requires WfEntries(es) && depth + HeightEntries(es) <= MAX_DEPTH
    requires Sorted(acc + es)
    requires At(t, q, EncodeEntries(es) + [CH_E])
    ensures ParseEntries(t, q, depth, acc) == Ok((Dict(acc + es), q + |EncodeEntries(es)| + 1))
    decreases es, 1
  {
    hide At, ParseValue, ParseEntries, ParseRaw, Encode, EncodeStr, Insert;
    EntriesLayout(es, t, q);
    EntriesStep(t, q, depth, acc);
    if es == [] {
      assert acc + es == acc;
    } else {
      var k := EncodeStr(es[0].key);
      StrAt(t, q, es[0].key);
      ValueAt(es[0].val, t, q + |k|, depth + 1);
      InsertNext(acc, es);
      EntriesAt(es[1..], t, q + |k| + |Encode(es[0].val)|, depth, acc + [es[0]]);
      assert acc + [es[0]] + es[1..] == acc + es;
    }
  }

  lemma InsertNext(acc: seq<Entry>, es: seq<Entry>)
    requires es != [] && Sorted(acc + es)
    ensures Insert(acc, es[0].key, es[0].val) == acc + [es[0]]
    ensures Sorted(acc + [es[0]] + es[1..])
  {
    assert acc + [es[0]] + es[1..] == acc + es;
    forall j | 0 <= j < |acc| ensures LexLess(acc[j].key, es[0].key) {
      assert (acc + es)[j] == acc[j] && (acc + es)[|acc|] == es[0];
    }
    InsertLast(acc, es[0].key, es[0].val);
  }

  /** decode_prefix(encode(v) ++ rest) == (v, |encode(v)|). */
  lemma PrefixRoundTrip(v: Value, rest: bytes)
    requires Wf(v) && Height(v) <= MAX_DEPTH
    ensures DecodePrefix(Encode(v) + rest) == Ok((v, |Encode(v)|))
  {
    ValueAt(v, Encode(v) + rest, 0, 0);
  }

  /** Deeper values are refused: the depth limit is exact. */
  lemma DepthLimitExact(v: Value)
    requires Wf(v)
    ensures Decode(Encode(v)).Ok? <==> Height(v) <= 64
    ensures Height(v) <= 64 ==> Decode(Encode(v)) == Ok(v)
  {
    if Height(v) <= MAX_DEPTH {
      PrefixRoundTrip(v, []);
      assert Encode(v) + [] == Encode(v);
    } else {
      TooDeepAt(v, Encode(v), 0, 0);
    }
  }

  lemma {:induction false} TooDeepAt(v: Value, t: bytes, q: nat, depth: nat)
    requires Wf(v) && depth + Height(v) > MAX_DEPTH && At(t, q, Encode(v))
    ensures ParseValue(t, q, depth).Err?
    decreases v, 0
  {
    if depth <= MAX_DEPTH {
      hide At, ParseValue, ParseItems, ParseEntries;
      EncodeHead(v);
      HeadAt(v, t, q);
      ValueStep(t, q, depth);
      ContainerLayout(v, t, q);
      if v.List? {
        TooDeepItems(v.items, t, q + 1, depth, []);
      } else {
        TooDeepEntries(v.entries, t, q + 1, depth, []);
      }
    }
  }

  lemma {:induction false} TooDeepItems(items: seq<Value>, t: bytes, q: nat, depth: nat, acc: seq<Value>)
    requires WfItems(items) && depth <= MAX_DEPTH < depth + HeightItems(items)
    requires At(t, q, EncodeItems(items) + [CH_E])
    ensures ParseItems(t, q, depth, acc).Err?
    decreases items, 1
  {
    hide At, ParseValue, ParseItems, Encode;
    ItemsLayout(items, t, q);
    ItemsStep(t, q, depth, acc);
    if depth + 1 + Height(items[0]) > MAX_DEPTH {
      TooDeepAt(items[0], t, q, depth + 1);
    } else {
      ValueAt(items[0], t, q, depth + 1);
      TooDeepItems(items[1..], t, q + |Encode(items[0])|, depth, acc + [items[0]]);
    }
  }

  lemma {:induction false} TooDeepEntries(es: seq<Entry>, t: bytes, q: nat, depth: nat, acc: seq<Entry>)
    requires WfEntries(es) && depth <= MAX_DEPTH < depth + HeightEntries(es)
    requires At(t, q, EncodeEntries(es) + [CH_E])
    ensures ParseEntries(t, q, depth, acc).Err?
    decreases es, 1
  {
    hide At, ParseValue, ParseEntries, ParseRaw, Encode, EncodeStr, Insert;
    EntriesLayout(es, t, q);
    EntriesStep(t, q, depth, acc);
    var k := EncodeStr(es[0].key);
    StrAt(t, q, es[0].key);
    if depth + 1 + Height(es[0].val) > MAX_DEPTH {
      TooDeepAt(es[0].val, t, q + |k|, depth + 1);
    } else {
      ValueAt(es[0].val, t, q + |k|, depth + 1);
      TooDeepEntries(es[1..], t, q + |k| + |Encode(es[0].val)|, depth, Insert(acc, es[0].key, es[0].val));
    }
  }

  // What the parser accepts ------------------------------------------------------

  lemma {:induction false} AppendItem(items: seq<Value>, v: Value)
    ensures WfItems(items + [v]) <==> WfItems(items) && Wf(v)
    ensures HeightItems(items + [v]) == Max(HeightItems(items), 1 + Height(v))
  {
    if items == [] {
      assert items + [v] == [v];
      assert WfItems([v][1..]) && HeightItems([v][1..]) == 0;
    } else {
      AppendItem(items[1..], v);
      assert (items + [v])[1..] == items[1..] + [v];
    }
  }

  lemma {:induction false} InsertEntry(es: seq<Entry>, k: bytes, v: Value)
    requires WfEntries(es) && Wf(v) && |k| <= U64_MAX
    ensures WfEntries(Insert(es, k, v))
    ensures HeightEntries(Insert(es, k, v)) <= Max(HeightEntries(es), 1 + Height(v))
  {
    var r := Insert(es, k, v);
    if es == [] || es[0].key == k || LexLess(k, es[0].key) {
      assert r[1..] == if es == [] then [] else if es[0].key == k then es[1..] else es;
    } else {
      InsertEntry(es[1..], k, v);
      assert r[1..] == Insert(es[1..], k, v);
    }
  }

  /** Every parsed value is one the types can hold, within the depth limit. */
  lemma {:induction false} ParsedIsWf(s: bytes, pos: nat, depth: nat)
    requires pos <= |s| && ParseValue(s, pos, depth).Ok?
    ensures var v := ParseValue(s, pos, depth).value.0; Wf(v) && depth + Height(v) <= MAX_DEPTH
    decreases |s| - pos, 0
  {
    if s[pos] == CH_L {
      ParsedItemsWf(s, pos + 1, depth, []);
    } else if s[pos] == CH_D {
      ParsedEntriesWf(s, pos + 1, depth, []);
    }
  }

  lemma {:induction false} ParsedItemsWf(s: bytes, pos: nat, depth: nat, acc: seq<Value>)
    requires pos <= |s| && ParseItems(s, pos, depth, acc).Ok?
    requires WfItems(acc) && depth + HeightItems(acc) <= MAX_DEPTH
    ensures var v := ParseItems(s, pos, depth, acc).value.0; Wf(v) && depth + Height(v) <= MAX_DEPTH
    decreases |s| - pos, 1
  {
    hide ParseValue;
    if s[pos] != CH_E {
      var (v, p) := ParseValue(s, pos, depth + 1).value;
      ParsedIsWf(s, pos, depth + 1);
      AppendItem(acc, v);
      ParsedItemsWf(s, p, depth, acc + [v]);
    }
  }

  lemma {:induction false} ParsedEntriesWf(s: bytes, pos: nat, depth: nat, acc: seq<Entry>)
    requires pos <= |s| && ParseEntries(s, pos, depth, acc).Ok?
    requires Sorted(acc) && WfEntries(acc) && depth + HeightEntries(acc) <= MAX_DEPTH
    ensures var v := ParseEntries(s, pos, depth, acc).value.0; Wf(v) && depth + Height(v) <= MAX_DEPTH
    decreases |s| - pos, 1
  {
    hide ParseValue, ParseRaw, Insert;
    if s[pos] != CH_E {
      var (k, p) := ParseRaw(s, pos).value;
      var (v, q) := ParseValue(s, p, depth + 1).value;
      ParsedIsWf(s, p, depth + 1);
      InsertEntry(acc, k, v);
      InsertIsUpdate(acc, k, v, k);
      ParsedEntriesWf(s, q, depth, Insert(acc, k, v));
    }
  }

  /**
   Non-canonical input is accepted, yet re-encoding is stable: whatever `decode` accepts,
   decoding the re-encoding gives the same value back.
   */
  lemma DecodeEncodeStable(s: bytes)
    requires Decode(s).Ok?
    ensures Decode(Encode(Decode(s).value)) == Ok(Decode(s).value)
  {
    ParsedIsWf(s, 0, 0);
    DepthLimitExact(Decode(s).value);
  }

  // Locality: a value's meaning is in its own bytes -------------------------------

  lemma ScanToLocal(s: bytes, pos: nat, stop: byte, t: bytes, q: nat)
    requires pos <= |s|
    requires var e := ScanTo(s, pos, stop); e < |s| && At(t, q, s[pos..e + 1])
    ensures ScanTo(t, q, stop) == q + ScanTo(s, pos, stop) - pos
  {
    var e := ScanTo(s, pos, stop);
    AtCut(s, pos, e, e + 1, t, q);
    AtIndex(t, q, s[pos..e + 1], e - pos);
    var r := ScanTo(t, q, stop);
    if r < q + e - pos {
      AtIndex(t, q, s[pos..e + 1], r - q);
    }
  }

  lemma IntLocal(s: bytes, pos: nat, t: bytes, q: nat)
    requires pos < |s| && ParseInt(s, pos).Ok?
    requires At(t, q, s[pos..ParseInt(s, pos).value.1])
    ensures q < |t| && t[q] == s[pos]
    ensures ParseInt(t, q) == Ok((ParseInt(s, pos).value.0, q + ParseInt(s, pos).value.1 - pos))
  {
    hide At, ValidIntText, ParseI64, ScanTo;
    var e := ScanTo(s, pos + 1, CH_E);
    AtCut(s, pos, pos + 1, e + 1, t, q);
    AtCut(s, pos + 1, e, e + 1, t, q + 1);
    ScanToLocal(s, pos + 1, CH_E, t, q + 1);
    AtBounds(t, q + 1, s[pos + 1..e]);
    AtBounds(t, q, s[pos..e + 1]);
  }

  lemma AtBounds(t: bytes, q: nat, x: bytes)
    requires At(t, q, x)
    ensures q + |x| <= |t| && t[q..q + |x|] == x
  {
  }

  lemma RawLocal(s: bytes, pos: nat, t: bytes, q: nat)
    requires pos <= |s| && ParseRaw(s, pos).Ok?
    requires At(t, q, s[pos..ParseRaw(s, pos).value.1])
    ensures q < |t| && t[q] == s[pos]
    ensures ParseRaw(t, q) == Ok((ParseRaw(s, pos).value.0, q + ParseRaw(s, pos).value.1 - pos))
  {
    hide At, ParseU64, ScanDigits;
    var (n, p) := ParseLength(s, pos).value;
    var e := p - 1;
    AtCut(s, pos, e, p + n, t, q);
    AtCut(s, e, p, p + n, t, q + e - pos);
    ScanDigitsAt(t, q, s[pos..e]);
    AtBounds(t, q, s[pos..e]);
    AtBounds(t, q + p - pos, s[p..p + n]);
  }

  /** The same bytes elsewhere, at no greater depth, parse to the same value. */
  lemma {:induction false} ValueLocal(s: bytes, pos: nat, d: nat, t: bytes, q: nat, d': nat)
    requires pos <= |s| && d' <= d && ParseValue(s, pos, d).Ok?
    requires At(t, q, s[pos..ParseValue(s, pos, d).value.1])
    ensures ParseValue(t, q, d') == Ok((ParseValue(s, pos, d).value.0, q + ParseValue(s, pos, d).value.1 - pos))
    decreases |s| - pos, 0
  {
    hide At, ParseItems, ParseEntries, ParseInt, ParseRaw;
    var e := ParseValue(s, pos, d).value.1;
    AtCut(s, pos, pos + 1, e, t, q);
    if s[pos] == CH_I {
      IntLocal(s, pos, t, q);
    } else if s[pos] == CH_L {
      ItemsLocal(s, pos + 1, d, t, q + 1, d', []);
    } else if s[pos] == CH_D {
      EntriesLocal(s, pos + 1, d, t, q + 1, d', []);
    } else {
      RawLocal(s, pos, t, q);
    }
  }

  lemma {:induction false} ItemsLocal(s: bytes, pos: nat, d: nat, t: bytes, q: nat, d': nat, acc: seq<Value>)
    requires pos <= |s| && d' <= d && ParseItems(s, pos, d, acc).Ok?
    requires At(t, q, s[pos..ParseItems(s, pos, d, acc).value.1])
    ensures ParseItems(t, q, d', acc)
         == Ok((ParseItems(s, pos, d, acc).value.0, q + ParseItems(s, pos, d, acc).value.1 - pos))
    decreases |s| - pos, 1
  {
    hide At, ParseValue;
    var e := ParseItems(s, pos, d, acc).value.1;
    AtCut(s, pos, pos + 1, e, t, q);
    if s[pos] != CH_E {
      var (v, p) := ParseValue(s, pos, d + 1).value;
      AtCut(s, pos, p, e, t, q);
      ValueLocal(s, pos, d + 1, t, q, d' + 1);
      ItemsLocal(s, p, d, t, q + p - pos, d', acc + [v]);
    }
  }

  lemma {:induction false} EntriesLocal(s: bytes, pos: nat, d: nat, t: bytes, q: nat, d': nat, acc: seq<Entry>)
    requires pos <= |s| && d' <= d && ParseEntries(s, pos, d, acc).Ok?
    requires At(t, q, s[pos..ParseEntries(s, pos, d, acc).value.1])
    ensures ParseEntries(t, q, d', acc)
         == Ok((ParseEntries(s, pos, d, acc).value.0, q + ParseEntries(s, pos, d, acc).value.1 - pos))
    decreases |s| - pos, 1
  {
    hide At, ParseValue, ParseRaw, Insert;
    var e := ParseEntries(s, pos, d, acc).value.1;
    AtCut(s, pos, pos + 1, e, t, q);
    if s[pos] != CH_E {
      var (k, p) := ParseRaw(s, pos).value;
      var (v, r) := ParseValue(s, p, d + 1).value;
      AtCut(s, pos, p, e, t, q);
      AtCut(s, p, r, e, t, q + p - pos);
      RawLocal(s, pos, t, q);
      ValueLocal(s, p, d + 1, t, q + p - pos, d' + 1);
      EntriesLocal(s, r, d, t, q + r - pos, d', Insert(acc, k, v));
    }
  }

  // The top-level parser agrees with the plain one -------------------------------

  lemma {:induction false} RootEntriesAgree(s: bytes, pos: nat, acc: seq<Entry>, ranges: Ranges)
    requires pos <= |s|
    ensures var full, root := ParseEntries(s, pos, 0, acc), ParseRootEntries(s, pos, acc, ranges);
            && (root.Ok? <==> full.Ok? && full.value.1 == |s|)
            && (root.Ok? ==> full.value.0 == Dict(root.value.entries))
    decreases |s| - pos
  {
    hide ParseValue, ParseRaw, Insert;
    if pos < |s| && s[pos] != CH_E && ParseRaw(s, pos).Ok? {
      var (k, p) := ParseRaw(s, pos).value;
      if ParseValue(s, p, 1).Ok? {
        var (v, q) := ParseValue(s, p, 1).value;
        RootEntriesAgree(s, q, Insert(acc, k, v), ranges[k := (p, q)]);
      }
    }
  }

  /** parse_root accepts exactly the inputs `decode` accepts as a dictionary, with the same map. */
  lemma RootIsDecode(s: bytes)
    ensures ParseRoot(s).Ok? <==> Decode(s).Ok? && Decode(s).value.Dict?
    ensures ParseRoot(s).Ok? ==> Decode(s) == Ok(Dict(ParseRoot(s).value.entries))
  {
    if s != [] && s[0] == CH_D {
      RootEntriesAgree(s, 1, [], map[]);
      ValueStep(s, 0, 0);
    } else if s != [] && s[0] == CH_L && Decode(s).Ok? {
      ItemsIsList(s, 1, 0, []);
    }
  }

  lemma {:induction false} ItemsIsList(s: bytes, pos: nat, depth: nat, acc: seq<Value>)
    requires pos <= |s| && ParseItems(s, pos, depth, acc).Ok?
    ensures ParseItems(s, pos, depth, acc).value.0.List?
    decreases |s| - pos
  {
    hide ParseValue;
    if s[pos] != CH_E {
      var (v, p) := ParseValue(s, pos, depth + 1).value;
      ItemsIsList(s, p, depth, acc + [v]);
    }
  }

  /** Each range is the standalone encoding of the value kept under its key. */
  ghost predicate RangesDecode(s: bytes, es: seq<Entry>, ranges: Ranges) {
    forall k :: (k in ranges <==> Lookup(es, k).Some?) &&
                (k in ranges ==> RangeDecodes(s, ranges[k], Lookup(es, k).value))
  }

  predicate RangeDecodes(s: bytes, r: (nat, nat), v: Value) {
    r.0 < r.1 <= |s| && Decode(s[r.0..r.1]) == Ok(v)
  }

  lemma {:induction false} RootEntriesRanges(s: bytes, pos: nat, acc: seq<Entry>, ranges: Ranges)
    requires pos <= |s| && ParseRootEntries(s, pos, acc, ranges).Ok?
    requires Sorted(acc) && RangesDecode(s, acc, ranges)
    ensures var root := ParseRootEntries(s, pos, acc, ranges).value;
            Sorted(root.entries) && RangesDecode(s, root.entries, root.ranges)
    decreases |s| - pos
  {
    hide ParseValue, ParseRaw, Insert, Lookup, RangeDecodes, Sorted;
    if s[pos] != CH_E {
      var (k, p) := ParseRaw(s, pos).value;
      var (v, q) := ParseValue(s, p, 1).value;
      SliceDecodes(s, p, 1);
      var acc', ranges' := Insert(acc, k, v), ranges[k := (p, q)];
      forall k' ensures (k' in ranges' <==> Lookup(acc', k').Some?) &&
                        (k' in ranges' ==> RangeDecodes(s, ranges'[k'], Lookup(acc', k').value)) {
        InsertIsUpdate(acc, k, v, k');
      }
      InsertIsUpdate(acc, k, v, k);
      RootEntriesRanges(s, q, acc', ranges');
    }
  }

  lemma SliceDecodes(s: bytes, p: nat, depth: nat)
    requires p <= |s| && ParseValue(s, p, depth).Ok?
    ensures RangeDecodes(s, (p, ParseValue(s, p, depth).value.1), ParseValue(s, p, depth).value.0)
  {
    var (v, q) := ParseValue(s, p, depth).value;
    ValueLocal(s, p, depth, s[p..q], 0, 0);
  }

  /** Each recorded byte range, decoded alone, yields that key's value; no key lacks a range. */
  lemma RootRangesDecode(s: bytes)
    requires ParseRoot(s).Ok?
    ensures RangesDecode(s, ParseRoot(s).value.entries, ParseRoot(s).value.ranges)
  {
    RootEntriesRanges(s, 1, [], map[]);
  }

  // Nesting of the text: the depth a parse really needs ------------------------------

  /**
   How deep the text of an accepted value nests. It can exceed the height of the value,
   because an entry whose key is repeated is parsed and then overwritten.
   */
  function Nesting(s: bytes, pos: nat, depth: nat): nat
    requires pos <= |s| && ParseValue(s, pos, depth).Ok?
    decreases |s| - pos, 0
  {
    if s[pos] == CH_L then NestingItems(s, pos + 1, depth, [])
    else if s[pos] == CH_D then NestingEntries(s, pos + 1, depth, [])
    else 0
  }

  function NestingItems(s: bytes, pos: nat, depth: nat, acc: seq<Value>): nat
    requires pos <= |s| && ParseItems(s, pos, depth, acc).Ok?
    decreases |s| - pos, 1
  {
    if s[pos] == CH_E then 0
    else
      var (v, p) := ParseValue(s, pos, depth + 1).value;
      Max(1 + Nesting(s, pos, depth + 1), NestingItems(s, p, depth, acc + [v]))
  }

  function NestingEntries(s: bytes, pos: nat, depth: nat, acc: seq<Entry>): nat
    requires pos <= |s| && ParseEntries(s, pos, depth, acc).Ok?
    decreases |s| - pos, 1
  {
    if s[pos] == CH_E then 0
    else
      var (k, p) := ParseRaw(s, pos).value;
      var (v, q) := ParseValue(s, p, depth + 1).value;
      Max(1 + Nesting(s, p, depth + 1), NestingEntries(s, q, depth, Insert(acc, k, v)))
  }

  /** Accepted text parses at another depth exactly when its nesting still fits, to the same value. */
  lemma {:induction false} NestingExact(s: bytes, pos: nat, d: nat, d': nat)
    requires pos <= |s| && ParseValue(s, pos, d).Ok?
    ensures d + Nesting(s, pos, d) <= MAX_DEPTH
    ensures if d' + Nesting(s, pos, d) <= MAX_DEPTH then ParseValue(s, pos, d') == ParseValue(s, pos, d)
            else ParseValue(s, pos, d').Err?
    decreases |s| - pos, 0
  {
    hide ParseItems, ParseEntries, ParseInt, ParseRaw, NestingItems, NestingEntries;
    if s[pos] == CH_L {
      NestingItemsExact(s, pos + 1, d, Min(d', MAX_DEPTH), []);
    } else if s[pos] == CH_D {
      NestingEntriesExact(s, pos + 1, d, Min(d', MAX_DEPTH), []);
    }
  }

  lemma {:induction false} NestingItemsExact(s: bytes, pos: nat, d: nat, d': nat, acc: seq<Value>)
    requires pos <= |s| && d <= MAX_DEPTH && d' <= MAX_DEPTH && ParseItems(s, pos, d, acc).Ok?
    ensures d + NestingItems(s, pos, d, acc) <= MAX_DEPTH
    ensures if d' + NestingItems(s, pos, d, acc) <= MAX_DEPTH then ParseItems(s, pos, d', acc) == ParseItems(s, pos, d, acc)
            else ParseItems(s, pos, d', acc).Err?
    decreases |s| - pos, 1
  {
    hide ParseValue, Nesting;
    if s[pos] != CH_E {
      var (v, p) := ParseValue(s, pos, d + 1).value;
      NestingExact(s, pos, d + 1, d' + 1);
      NestingItemsExact(s, p, d, d', acc + [v]);
    }
  }

  lemma {:induction false} NestingEntriesExact(s: bytes, pos: nat, d: nat, d': nat, acc: seq<Entry>)
    requires pos <= |s| && d <= MAX_DEPTH && d' <= MAX_DEPTH && ParseEntries(s, pos, d, acc).Ok?
    ensures d + NestingEntries(s, pos, d, acc) <= MAX_DEPTH
    ensures if d' + NestingEntries(s, pos, d, acc) <= MAX_DEPTH then ParseEntries(s, pos, d', acc) == ParseEntries(s, pos, d, acc)
            else ParseEntries(s, pos, d', acc).Err?
    decreases |s| - pos, 1
  {
    hide ParseValue, ParseRaw, Nesting, Insert;
    if s[pos] != CH_E {
      var (k, p) := ParseRaw(s, pos).value;
      var (v, q) := ParseValue(s, p, d + 1).value;
      NestingExact(s, p, d + 1, d' + 1);
      NestingEntriesExact(s, q, d, d', Insert(acc, k, v));
    }
  }

  /** The nesting of the canonical text of a value is the height of the value. */
  lemma NestingOfEncoding(v: Value)
    requires Wf(v) && Height(v) <= MAX_DEPTH
    ensures ParseValue(Encode(v), 0, 0).Ok? && Nesting(Encode(v), 0, 0) == Height(v)
  {
    var t := Encode(v);
    AtSplit(t, 0, t, []);
    ValueAt(v, t, 0, 0);
    var d := MAX_DEPTH - Height(v);
    ValueAt(v, t, 0, d);
    NestingExact(t, 0, 0, d);
    NestingExact(t, 0, 0, d + 1);
    TooDeepAt(v, t, 0, d + 1);
  }

  // The format itself ---------------------------------------------------------------------------

  /** The four kinds of values as BEP 3 writes them. */
  lemma FormatIs(i: int, s: bytes, items: seq<Value>, es: seq<Entry>)
    ensures Encode(Int(i)) == Ascii("i") + Decimal(i) + Ascii("e")
    ensures Encode(Str(s)) == Decimal(|s|) + Ascii(":") + s
    ensures Encode(List(items)) == Ascii("l") + EncodeItems(items) + Ascii("e")
    ensures Encode(Dict(es)) == Ascii("d") + EncodeEntries(es) + Ascii("e")
  {
    assert Ascii("i") == [CH_I] && Ascii("e") == [CH_E] && Ascii("l") == [CH_L] && Ascii("d") == [CH_D] && Ascii(":") == [CH_COLON];
  }

  /** Decimal numbers have the sign first and their last digit last. */
  lemma DecimalIs(n: nat, d: nat)
    requires d < 10
    ensures Decimal(d) == [48 + d] && (n > 0 ==> Decimal(10 * n + d) == Decimal(n) + [48 + d]) && (n > 0 ==> Decimal(0 - (n as int)) == Ascii("-") + Decimal(n))
  {
    assert Ascii("-") == [CH_MINUS];
    assert (10 * n + d) / 10 == n && (10 * n + d) % 10 == d;
  }

  /** Keys are ordered byte by byte, a prefix before what extends it. */
  lemma {:induction false} LexIs(a: bytes, b: bytes, k: nat)
    requires k <= |a| && k <= |b| && a[..k] == b[..k]
    ensures k < |a| && k < |b| && a[k] != b[k] ==> (LexLess(a, b) <==> a[k] < b[k])
    ensures k == |a| && k < |b| ==> LexLess(a, b)
    ensures k == |b| ==> !LexLess(a, b)
    decreases k
  {
    if k > 0 {
      assert a[0] == a[..k][0] == b[0] && a[1..][..k - 1] == a[..k][1..] == b[1..][..k - 1];
      LexIs(a[1..], b[1..], k - 1);
    }
  }
}
