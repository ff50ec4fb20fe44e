/**
 The bencode parser and printer as the object code runs them: a cursor that every method
 advances and a buffer every call appends to, each proved against the functions in Bencode.
 */
module BencodeParser {
  import opened Bytes
  import opened Bencode

  /** The outcome of a method that moves the cursor to `pos`, against the function's result. */
  ghost predicate Agrees<T(!new)>(r: Result<T, Error>, spec: Parsed<T>, pos: nat) {
    match spec
    case Err(e) => r == Err(e)
    case Ok((v, p)) => r == Ok(v) && pos == p
  }

  class Parser {
    const input: bytes
    var pos: nat

    constructor (input: bytes)
      ensures this.input == input && pos == 0
    {
      this.input := input;
      pos := 0;
    }

    method ParseValue(depth: nat) returns (r: Result<Value, Error>)
      requires pos <= |input|
      modifies this`pos
      ensures pos <= |input| && Agrees(r, Bencode.ParseValue(input, old(pos), depth), pos)
      decreases |input| - pos, 1
    {
      if depth > MAX_DEPTH {
        return Err(DepthLimit(MAX_DEPTH));
      }
      if pos == |input| {
        return Err(UnexpectedEof(pos));
      }
      var b := input[pos];
      if b == CH_I {
        r := ParseInt();
      } else if b == CH_L {
        r := ParseList(depth);
      } else if b == CH_D {
        r := ParseDict(depth);
      } else if IsDigit(b) {
        var raw := ParseRawBytes();
        match raw {
          case Err(e) => r := Err(e);
          case Ok(s) => r := Ok(Str(s));
        }
      } else {
        r := Err(InvalidToken(pos, b));
      }
    }

    method ParseInt() returns (r: Result<Value, Error>)
      requires pos < |input|
      modifies this`pos
      ensures pos <= |input| && Agrees(r, Bencode.ParseInt(input, old(pos)), pos)
    {
      var start := pos;
      pos := pos + 1;
      while pos < |input| && input[pos] != CH_E
        invariant start < pos <= |input|
        invariant ScanTo(input, pos, CH_E) == ScanTo(input, start + 1, CH_E)
      {
        pos := pos + 1;
      }
      if pos == |input| {
        return Err(UnexpectedEof(pos));
      }
      var text := input[start + 1..pos];
      pos := pos + 1;
      if !ValidIntText(text) {
        return Err(InvalidInteger(start));
      }
      match ParseI64(text) {
        case None => return Err(InvalidInteger(start));
        case Some(v) => return Ok(Int(v));
      }
    }

    method ParseLength() returns (r: Result<nat, Error>)
      requires pos <= |input|
      modifies this`pos
      ensures pos <= |input| && Agrees(r, Bencode.ParseLength(input, old(pos)), pos)
    {
      var start := pos;
      while pos < |input| && input[pos] != CH_COLON
        invariant start <= pos <= |input|
        invariant ScanDigits(input, pos) == ScanDigits(input, start)
      {
        if !IsDigit(input[pos]) {
          return Err(InvalidLength(pos));
        }
        pos := pos + 1;
      }
      if pos == |input| {
        return Err(UnexpectedEof(pos));
      }
      var text := input[start..pos];
      if |text| > 1 && text[0] == CH_0 {
        return Err(InvalidLength(start));
      }
      match ParseU64(text) {
        case None => return Err(InvalidLength(start));
        case Some(n) =>
          pos := pos + 1;
          return Ok(n);
      }
    }

    method ParseRawBytes() returns (r: Result<bytes, Error>)
      requires pos <= |input|
      modifies this`pos
      ensures pos <= |input| && Agrees(r, ParseRaw(input, old(pos)), pos)
    {
      var len := ParseLength();
      match len {
        case Err(e) => return Err(e);
        case Ok(n) =>
          if n > |input| - pos {
            return Err(LengthOverflow(pos, n, |input| - pos));
          }
          var data := input[pos..pos + n];
          pos := pos + n;
          return Ok(data);
      }
    }

    method ParseList(depth: nat) returns (r: Result<Value, Error>)
      requires pos < |input|
      modifies this`pos
      ensures pos <= |input| && Agrees(r, ParseItems(input, old(pos) + 1, depth, []), pos)
      decreases |input| - pos, 0
    {
      hide Bencode.ParseValue;
      pos := pos + 1;
      var items: seq<Value> := [];
      while true
        invariant old(pos) < pos <= |input|
        invariant ParseItems(input, pos, depth, items) == ParseItems(input, old(pos) + 1, depth, [])
        decreases |input| - pos
      {
        if pos == |input| {
          return Err(UnexpectedEof(pos));
        }
        if input[pos] == CH_E {
          pos := pos + 1;
          return Ok(List(items));
        }
        var v := ParseValue(depth + 1);
        match v {
          case Err(e) => return Err(e);
          case Ok(x) => items := items + [x];
        }
      }
    }

    method ParseDict(depth: nat) returns (r: Result<Value, Error>)
      requires pos < |input|
      modifies this`pos
      ensures pos <= |input| && Agrees(r, ParseEntries(input, old(pos) + 1, depth, []), pos)
      decreases |input| - pos, 0
    {
      hide Bencode.ParseValue, ParseRaw, Insert;
      pos := pos + 1;
      var entries: seq<Entry> := [];
      while true
        invariant old(pos) < pos <= |input|
        invariant ParseEntries(input, pos, depth, entries) == ParseEntries(input, old(pos) + 1, depth, [])
        decreases |input| - pos
      {
        if pos == |input| {
          return Err(UnexpectedEof(pos));
        }
        if input[pos] == CH_E {
          pos := pos + 1;
          return Ok(Dict(entries));
        }
        if !IsDigit(input[pos]) {
          return Err(InvalidToken(pos, input[pos]));
        }
        var k := ParseRawBytes();
        if k.Err? {
          return Err(k.error);
        }
        var v := ParseValue(depth + 1);
        if v.Err? {
          return Err(v.error);
        }
        entries := Insert(entries, k.value, v.value);
      }
    }

    method ParseRoot() returns (r: Result<Root, Error>)
      requires pos == 0
      modifies this`pos
      ensures r == Bencode.ParseRoot(input)
    {
      hide Bencode.ParseValue, ParseRaw, Insert;
      if input == [] || input[0] != CH_D {
        return Err(InvalidToken(0, if input == [] then 0 else input[0]));
      }
      pos := 1;
      var entries: seq<Entry>, ranges: Ranges := [], map[];
      while true
        invariant 1 <= pos <= |input|
        invariant ParseRootEntries(input, pos, entries, ranges) == Bencode.ParseRoot(input)
        decreases |input| - pos
      {
        if pos == |input| {
          return Err(UnexpectedEof(pos));
        }
        if input[pos] == CH_E {
          pos := pos + 1;
          break;
        }
        var k := ParseRawBytes();
        if k.Err? {
          return Err(k.error);
        }
        var start := pos;
        var v := ParseValue(1);
        if v.Err? {
          return Err(v.error);
        }
        ranges := ranges[k.value := (start, pos)];
        entries := Insert(entries, k.value, v.value);
      }
      if pos != |input| {
        return Err(TrailingData(|input| - pos));
      }
      return Ok(Root(entries, ranges));
    }
  }

  /** `decode`: one value and nothing after it. */
  method DecodeAll(input: bytes) returns (r: Result<Value, Error>)
    ensures r == Decode(input)
  {
    var p := new Parser(input);
    r := p.ParseValue(0);
    if r.Ok? && p.pos != |input| {
      r := Err(TrailingData(|input| - p.pos));
    }
  }

  class Buffer {
    var data: bytes

    constructor ()
      ensures data == []
    {
      data := [];
    }
  }

  method WriteStr(s: bytes, out: Buffer)
    modifies out
    ensures out.data == old(out.data) + EncodeStr(s)
  {
    out.data := out.data + Digits(|s|);
    out.data := out.data + [CH_COLON];
    out.data := out.data + s;
  }

  method WriteValue(v: Value, out: Buffer)
    modifies out
    ensures out.data == old(out.data) + Encode(v)
    decreases v
  {
    match v
    case Int(i) =>
      out.data := out.data + [CH_I];
      out.data := out.data + Decimal(i);
      out.data := out.data + [CH_E];
    case Str(s) =>
      WriteStr(s, out);
    case List(items) =>
      out.data := out.data + [CH_L];
      ghost var start := out.data;
      for k := 0 to |items|
        invariant out.data + EncodeItems(items[k..]) == start + EncodeItems(items)
      {
        ghost var before := out.data;
        WriteValue(items[k], out);
        assert items[k..][1..] == items[k + 1..];
        Assoc(before, Encode(items[k]), EncodeItems(items[k + 1..]));
      }
      assert out.data == start + EncodeItems(items);
      out.data := out.data + [CH_E];
      Assoc(old(out.data), [CH_L], EncodeItems(items) + [CH_E]);
      Assoc(start, EncodeItems(items), [CH_E]);
    case Dict(entries) =>
      out.data := out.data + [CH_D];
      ghost var start := out.data;
      for k := 0 to |entries|
        invariant out.data + EncodeEntries(entries[k..]) == start + EncodeEntries(entries)
      {
        ghost var before := out.data;
        WriteStr(entries[k].key, out);
        WriteValue(entries[k].val, out);
        assert entries[k..][1..] == entries[k + 1..];
        Assoc(before, EncodeStr(entries[k].key), Encode(entries[k].val));
        Assoc(before, EncodeStr(entries[k].key), Encode(entries[k].val) + EncodeEntries(entries[k + 1..]));
        Assoc(before + EncodeStr(entries[k].key), Encode(entries[k].val), EncodeEntries(entries[k + 1..]));
      }
      assert out.data == start + EncodeEntries(entries);
      out.data := out.data + [CH_E];
      Assoc(old(out.data), [CH_D], EncodeEntries(entries) + [CH_E]);
      Assoc(start, EncodeEntries(entries), [CH_E]);
  }

  lemma Assoc(a: bytes, b: bytes, c: bytes)
    ensures (a + b) + c == a + (b + c)
  {
  }
}
