/**
 `_bdecode_at` and `bdecode` of ci/torrentlib.py as they stand: offsets are Python integers, so a negative
 string length can move the parser back, even before the document, and it need not return.  Each function
 takes a bound on its nested calls and loop rounds; None means that it has not returned within it.
 */
module BencodingReader {
  import opened Options
  import opened Bencoding

  /** A value with the offset behind it, or an exception. */
  datatype Parsed<T> = Parsed(value: T, next: int) | Raised(reason: Reason)

  /** Python's reading of an index into `n` bytes: a negative one counts from the end. */
  function Clamp(n: nat, x: int): (r: nat)
    ensures r <= n
  {
    if x < 0 then (if n + x < 0 then 0 else n + x) else if x > n then n else x
  }

  /** `data[a:b]` */
  function Slice(data: Bytes, a: int, b: int): Bytes {
    var lo, hi := Clamp(|data|, a), Clamp(|data|, b);
    if lo <= hi then data[lo..hi] else []
  }

  /** `data.find(c, from)` */
  function FindFrom(data: Bytes, c: Byte, from: int): Option<nat> {
    Find(data, c, if from < 0 then Clamp(|data|, from) else from)
  }

  function ReadInt(parse: Conversion, data: Bytes, i: int): Parsed<Value> {
    var end := FindFrom(data, 'e', i);
    if end.None? then Raised(ValueError)
    else
      var number := parse(Slice(data, i + 1, end.value));
      if number.None? then Raised(ValueError) else Parsed(Int(number.value), end.value + 1)
  }

  function ReadText(parse: Conversion, data: Bytes, i: int): Parsed<Value> {
    var colon := FindFrom(data, ':', i);
    if colon.None? then Raised(ValueError)
    else
      var length := parse(Slice(data, i, colon.value));
      if length.None? then Raised(ValueError)
      else
        var end := colon.value + 1 + length.value;
        if end > |data| then Raised(ValueError) else Parsed(Text(Slice(data, colon.value + 1, end)), end)
  }

  function AsList(r: Option<Parsed<seq<Value>>>): Option<Parsed<Value>> {
    match r
    case None => None
    case Some(Raised(reason)) => Some(Raised(reason))
    case Some(Parsed(items, next)) => Some(Parsed(List(items), next))
  }

  function AsDict(r: Option<Parsed<seq<Entry>>>): Option<Parsed<Value>> {
    match r
    case None => None
    case Some(Raised(reason)) => Some(Raised(reason))
    case Some(Parsed(entries, next)) => Some(Parsed(Dict(entries), next))
  }

  /** `_bdecode_at` */
  function ReadAt(parse: Conversion, data: Bytes, i: int, calls: nat): Option<Parsed<Value>>
    decreases calls, 0
  {
    if calls == 0 then None
    else
      var kind := Slice(data, i, i + 1);
      if kind == ['i'] then Some(ReadInt(parse, data, i))
      else if kind == ['l'] then AsList(ReadList(parse, data, i + 1, [], calls - 1))
      else if kind == ['d'] then AsDict(ReadDict(parse, data, i + 1, [], calls - 1))
      else Some(ReadText(parse, data, i))
  }

  /** The loop over a list, from the offset it has reached. */
  function ReadList(parse: Conversion, data: Bytes, i: int, out: seq<Value>, calls: nat): Option<Parsed<seq<Value>>>
    decreases calls, 0
  {
    if calls == 0 then None
    else if i >= |data| then Some(Raised(ValueError))
    else if Slice(data, i, i + 1) == ['e'] then Some(Parsed(out, i + 1))
    else
      match ReadAt(parse, data, i, calls - 1)
      case None => None
      case Some(Raised(reason)) => Some(Raised(reason))
      case Some(Parsed(value, next)) => ReadList(parse, data, next, out + [value], calls - 1)
  }

  /** A key and its value; the key is hashed after both have been read. */
  function ReadEntry(parse: Conversion, data: Bytes, i: int, calls: nat): Option<Parsed<Entry>>
    decreases calls, 1
  {
    match ReadAt(parse, data, i, calls)
    case None => None
    case Some(Raised(reason)) => Some(Raised(reason))
    case Some(Parsed(key, afterKey)) =>
      match ReadAt(parse, data, afterKey, calls)
      case None => None
      case Some(Raised(reason)) => Some(Raised(reason))
      case Some(Parsed(value, next)) =>
        Some(if AsKey(key).None? then Raised(Unhashable) else Parsed(Entry(AsKey(key).value, value), next))
  }

  /** The loop over a dictionary. */
  function ReadDict(parse: Conversion, data: Bytes, i: int, out: seq<Entry>, calls: nat): Option<Parsed<seq<Entry>>>
    decreases calls, 0
  {
    if calls == 0 then None
    else if i >= |data| then Some(Raised(ValueError))
    else if Slice(data, i, i + 1) == ['e'] then Some(Parsed(out, i + 1))
    else
      match ReadEntry(parse, data, i, calls - 1)
      case None => None
      case Some(Raised(reason)) => Some(Raised(reason))
      case Some(Parsed(entry, next)) => ReadDict(parse, data, next, Put(out, entry.key, entry.value), calls - 1)
  }

  /** `bdecode` */
  function Bdecode(data: Bytes, calls: nat): Option<Parsed<Value>> {
    match ReadAt(ParseInt, data, 0, calls)
    case None => None
    case Some(Raised(reason)) => Some(Raised(reason))
    case Some(Parsed(value, next)) => Some(if next == |data| then Parsed(value, next) else Raised(ValueError))
  }

  /** `_bdecode_at`, given up after `calls` nested calls and rounds. */
  method BdecodeAt(parse: Conversion, data: Bytes, i: int, calls: nat) returns (r: Option<Parsed<Value>>)
    ensures r == ReadAt(parse, data, i, calls)
    decreases calls, 1
  {
    if calls == 0 {
      return None;
    }
    var kind := Slice(data, i, i + 1);
    if kind == ['i'] {
      return Some(ReadInt(parse, data, i));
    }
    if kind == ['l'] {
      var items := BdecodeList(parse, data, i + 1, calls - 1);
      return AsList(items);
    }
    if kind == ['d'] {
      var entries := BdecodeDict(parse, data, i + 1, calls - 1);
      return AsDict(entries);
    }
    return Some(ReadText(parse, data, i));
  }

  /** Its loop over a list. */
  method BdecodeList(parse: Conversion, data: Bytes, i: int, calls: nat) returns (r: Option<Parsed<seq<Value>>>)
    ensures r == ReadList(parse, data, i, [], calls)
    decreases calls, 0
  {
    var offset, out: seq<Value>, left: nat := i, [], calls;
    while left > 0
      invariant left <= calls && ReadList(parse, data, i, [], calls) == ReadList(parse, data, offset, out, left)
      decreases left
    {
      if offset >= |data| {
        return Some(Raised(ValueError));
      }
      if Slice(data, offset, offset + 1) == ['e'] {
        return Some(Parsed(out, offset + 1));
      }
      var item := BdecodeAt(parse, data, offset, left - 1);
      match item {
        case None => return None;
        case Some(Raised(reason)) => return Some(Raised(reason));
        case Some(Parsed(value, next)) => out, offset, left := out + [value], next, left - 1;
      }
    }
    return None;
  }

  /** Its loop over a dictionary. */
  method BdecodeDict(parse: Conversion, data: Bytes, i: int, calls: nat) returns (r: Option<Parsed<seq<Entry>>>)
    ensures r == ReadDict(parse, data, i, [], calls)
    decreases calls, 0
  {
    var offset, out: seq<Entry>, left: nat := i, [], calls;
    while left > 0
      invariant left <= calls && ReadDict(parse, data, i, [], calls) == ReadDict(parse, data, offset, out, left)
      decreases left
    {
      if offset >= |data| {
        return Some(Raised(ValueError));
      }
      if Slice(data, offset, offset + 1) == ['e'] {
        return Some(Parsed(out, offset + 1));
      }
      var entry := BdecodeEntry(parse, data, offset, left - 1);
      match entry {
        case None => return None;
        case Some(Raised(reason)) => return Some(Raised(reason));
        case Some(Parsed(e, next)) => out, offset, left := Put(out, e.key, e.value), next, left - 1;
      }
    }
    return None;
  }

  method BdecodeEntry(parse: Conversion, data: Bytes, i: int, calls: nat) returns (r: Option<Parsed<Entry>>)
    ensures r == ReadEntry(parse, data, i, calls)
    decreases calls, 2
  {
    var key := BdecodeAt(parse, data, i, calls);
    if key.None? {
      return None;
    }
    if key.value.Raised? {
      return Some(Raised(key.value.reason));
    }
    var value := BdecodeAt(parse, data, key.value.next, calls);
    if value.None? {
      return None;
    }
    if value.value.Raised? {
      return Some(Raised(value.value.reason));
    }
    var hashed := AsKey(key.value.value);
    if hashed.None? {
      return Some(Raised(Unhashable));
    }
    return Some(Parsed(Entry(hashed.value, value.value.value), value.value.next));
  }
}
