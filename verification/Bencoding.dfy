/**
 Bencoding (ci/torrentlib.py): the printer `bencode`, and the parser `_bdecode_at` that works on
 offsets into the document.  A byte is written as the character with that code.
 */
module Bencoding {
  import opened Options

  /** A byte, as the character of that code; nothing here needs that there are only 256 of them. */
  type Byte = char
  type Bytes = seq<Byte>

  datatype Key = ByteKey(bytes: Bytes) | IntKey(number: int)

  /** The Python values that matter here; the entries of a dictionary stand in insertion order. */
  datatype Value =
    | Int(number: int)
    | Text(bytes: Bytes)
    | Bool(flag: bool)
    | List(items: seq<Value>)
    | Dict(entries: seq<Entry>)

  datatype Entry = Entry(key: Key, value: Value)

  function KeyValue(key: Key): Value {
    match key
    case ByteKey(bytes) => Text(bytes)
    case IntKey(number) => Int(number)
  }

  // ----- numerals

  function Digit(d: nat): Byte
    requires d < 10
  {
    ('0' as int + d) as char
  }

  predicate IsDigit(c: Byte) {
    '0' <= c <= '9'
  }

  function DigitOf(c: Byte): nat
    requires IsDigit(c)
  {
    c as int - '0' as int
  }

  /** `%d` of a natural number */
  function Decimal(n: nat): Bytes {
    if n < 10 then [Digit(n)] else Decimal(n / 10) + [Digit(n % 10)]
  }

  function ShowInt(n: int): Bytes {
    if n < 0 then ['-'] + Decimal(-n) else Decimal(n)
  }

  predicate IsSpace(c: Byte) {
    c == ' ' || '\t' <= c <= '\r'
  }

  function Strip(s: Bytes): Bytes {
    if s == [] then []
    else if IsSpace(s[0]) then Strip(s[1..])
    else if IsSpace(s[|s| - 1]) then Strip(s[..|s| - 1])
    else s
  }

  /** Digits, single underscores between them allowed. */
  function Numeral(s: Bytes): Option<nat> {
    if s == [] || !IsDigit(s[|s| - 1]) then None
    else
      var digit, rest := DigitOf(s[|s| - 1]), s[..|s| - 1];
      if rest == [] then Some(digit)
      else
        var higher := Numeral(if rest[|rest| - 1] == '_' then rest[..|rest| - 1] else rest);
        if higher.Some? then Some(10 * higher.value + digit) else None
  }

  /** Python's `int` applied to bytes */
  function ParseInt(s: Bytes): Option<int> {
    var t := Strip(s);
    if t == [] then None
    else if t[0] == '-' then
      var magnitude := Numeral(t[1..]);
      if magnitude.Some? then Some(-(magnitude.value as int)) else None
    else
      var magnitude := Numeral(if t[0] == '+' then t[1..] else t);
      if magnitude.Some? then Some(magnitude.value as int) else None
  }

  // ----- sorting by key

  predicate LexLess(a: Bytes, b: Bytes) {
    b != [] && (a == [] || a[0] < b[0] || (a[0] == b[0] && LexLess(a[1..], b[1..])))
  }

  predicate KeyLess(a: Key, b: Key) {
    match (a, b)
    case (ByteKey(x), ByteKey(y)) => LexLess(x, y)
    case (IntKey(x), IntKey(y)) => x < y
    case (ByteKey(_), IntKey(_)) => true
    case (IntKey(_), ByteKey(_)) => false
  }

  function Insert(entry: Entry, sorted: seq<Entry>): (r: seq<Entry>)
    ensures |r| == |sorted| + 1
  {
    if sorted == [] || KeyLess(entry.key, sorted[0].key) then [entry] + sorted
    else [sorted[0]] + Insert(entry, sorted[1..])
  }

  function SortByKey(entries: seq<Entry>): (sorted: seq<Entry>)
    ensures |sorted| == |entries|
  {
    if entries == [] then [] else Insert(entries[0], SortByKey(entries[1..]))
  }

  /** Sorting keeps the entries. */
  lemma {:induction false} SortHolds(entries: seq<Entry>)
    ensures forall entry :: entry in SortByKey(entries) <==> entry in entries
  {
    if entries != [] {
      SortHolds(entries[1..]);
      InsertHolds(entries[0], SortByKey(entries[1..]));
      assert entries == [entries[0]] + entries[1..];
    }
  }

  lemma InsertHolds(entry: Entry, sorted: seq<Entry>)
    ensures forall other :: other in Insert(entry, sorted) <==> other == entry || other in sorted
  {
    if sorted != [] {
      assert sorted == [sorted[0]] + sorted[1..];
    }
  }

  // ----- the printer

  /** What a Python dictionary guarantees: no key twice, at any depth. */
  ghost predicate WellFormed(v: Value) {
    match v
    case List(items) => forall i :: 0 <= i < |items| ==> WellFormed(items[i])
    case Dict(entries) =>
      && (forall i :: 0 <= i < |entries| ==> WellFormed(entries[i].value))
      && Distinct(entries)
    case _ => true
  }

  ghost predicate Distinct(entries: seq<Entry>) {
    forall i, j :: 0 <= i < j < |entries| ==> entries[i].key != entries[j].key
  }

  /** No boolean anywhere, and no dictionary that mixes byte and integer keys. */
  predicate Encodable(v: Value) {
    match v
    case Bool(_) => false
    case List(items) => forall i :: 0 <= i < |items| ==> Encodable(items[i])
    case Dict(entries) =>
      && (forall i :: 0 <= i < |entries| ==> Encodable(entries[i].value))
      && (forall i, j :: 0 <= i < j < |entries| ==> (entries[i].key.ByteKey? <==> entries[j].key.ByteKey?))
    case _ => true
  }

  function EncodeText(b: Bytes): Bytes {
    Decimal(|b|) + [':'] + b
  }

  function EncodeInt(n: int): Bytes {
    ['i'] + ShowInt(n) + ['e']
  }

  function EncodeKey(key: Key): Bytes {
    match key
    case ByteKey(bytes) => EncodeText(bytes)
    case IntKey(number) => EncodeInt(number)
  }

  ghost predicate ItemsOf(items: seq<Value>, whole: Value) {
    whole.List? && Encodable(whole) && forall item :: item in items ==> item in whole.items
  }

  ghost predicate EntriesOf(entries: seq<Entry>, whole: Value) {
    whole.Dict? && Encodable(whole) && forall entry :: entry in entries ==> entry in whole.entries
  }

  /** `bencode` where it does not raise */
  function Encode(v: Value): Bytes
    requires Encodable(v)
    decreases v, 1, 0
  {
    match v
    case Int(number) => EncodeInt(number)
    case Text(bytes) => EncodeText(bytes)
    case List(items) => ['l'] + EncodeItems(items, v) + ['e']
    case Dict(entries) =>
      SortHolds(entries);
      ['d'] + EncodeEntries(SortByKey(entries), v) + ['e']
  }

  function EncodeItems(items: seq<Value>, whole: Value): Bytes
    requires ItemsOf(items, whole)
    decreases whole, 0, |items|
  {
    if items == [] then []
    else
      assert items[0] in whole.items;
      Encode(items[0]) + EncodeItems(items[1..], whole)
  }

  function EncodeEntries(entries: seq<Entry>, whole: Value): Bytes
    requires EntriesOf(entries, whole)
    decreases whole, 0, |entries|
  {
    if entries == [] then []
    else
      assert entries[0] in whole.entries;
      (EncodeKey(entries[0].key) + Encode(entries[0].value)) + EncodeEntries(entries[1..], whole)
  }

  datatype Encoded = Document(bytes: Bytes) | TypeError

  function Bencode(v: Value): Encoded {
    if Encodable(v) then Document(Encode(v)) else TypeError
  }

  // ----- the parser

  /** `part` stands in `data` at offset `i`. */
  predicate Holds(data: Bytes, i: nat, part: Bytes) {
    i + |part| <= |data| && data[i..i + |part|] == part
  }

  datatype Reason = ValueError | Unhashable | NoProgress

  /** A value with the offset behind it, or a failure.  `NoProgress` stands for a string whose
      negative length moves the offset to or before its own start. */
  datatype Decoded<T> = Ok(value: T, next: nat) | Err(reason: Reason)

  /** The first place of a byte at or after an offset. */
  function Find(data: Bytes, c: Byte, from: nat): (r: Option<nat>)
    ensures r.Some? ==> from <= r.value < |data| && data[r.value] == c
    decreases |data| - from
  {
    if from >= |data| then None else if data[from] == c then Some(from) else Find(data, c, from + 1)
  }

  /** The conversion of digits to a number: `int`, which is `ParseInt`. */
  type Conversion = Bytes -> Option<int>

  function DecodeInt(parse: Conversion, data: Bytes, i: nat): (r: Decoded<Value>)
    requires i < |data| && data[i] == 'i'
    ensures r.Ok? ==> i < r.next <= |data|
  {
    var end := Find(data, 'e', i);
    if end.None? then Err(ValueError)
    else
      var number := parse(data[i + 1..end.value]);
      if number.None? then Err(ValueError) else Ok(Int(number.value), end.value + 1)
  }

  function DecodeText(parse: Conversion, data: Bytes, i: nat): (r: Decoded<Value>)
    ensures r.Ok? ==> i < r.next <= |data|
  {
    var colon := Find(data, ':', i);
    if colon.None? then Err(ValueError)
    else
      var length := parse(data[i..colon.value]);
      if length.None? then Err(ValueError)
      else
        var end := colon.value + 1 + length.value;
        if end > |data| then Err(ValueError)
        else if end <= i then Err(NoProgress)
        else Ok(Text(if end < colon.value + 1 then [] else data[colon.value + 1..end]), end)
  }

  function AsKey(v: Value): Option<Key> {
    match v
    case Text(bytes) => Some(ByteKey(bytes))
    case Int(number) => Some(IntKey(number))
    case _ => None
  }

  /** Assignment to a dictionary: a known key keeps its place. */
  function Put(entries: seq<Entry>, key: Key, value: Value): seq<Entry> {
    if entries == [] then [Entry(key, value)]
    else if entries[0].key == key then [Entry(key, value)] + entries[1..]
    else [entries[0]] + Put(entries[1..], key, value)
  }

  /** `_bdecode_at` as far as it moves forward; BencodingReader.dfy has it with every offset. */
  function DecodeAt(parse: Conversion, data: Bytes, i: nat): (r: Decoded<Value>)
    ensures r.Ok? ==> i < r.next <= |data|
    decreases |data| - i, 1
  {
    if i < |data| && data[i] == 'i' then DecodeInt(parse, data, i)
    else if i < |data| && data[i] == 'l' then
      match DecodeList(parse, data, i + 1, [])
      case Ok(items, next) => Ok(List(items), next)
      case Err(reason) => Err(reason)
    else if i < |data| && data[i] == 'd' then
      match DecodeDict(parse, data, i + 1, [])
      case Ok(entries, next) => Ok(Dict(entries), next)
      case Err(reason) => Err(reason)
    else DecodeText(parse, data, i)
  }

  function DecodeList(parse: Conversion, data: Bytes, i: nat, out: seq<Value>): (r: Decoded<seq<Value>>)
    ensures r.Ok? ==> i < r.next <= |data|
    decreases |data| - i, 2
  {
    if i >= |data| then Err(ValueError)
    else if data[i] == 'e' then Ok(out, i + 1)
    else
      match DecodeAt(parse, data, i)
      case Ok(value, next) => DecodeList(parse, data, next, out + [value])
      case Err(reason) => Err(reason)
  }

  /** A key and its value; the key must be hashable. */
  function DecodeEntry(parse: Conversion, data: Bytes, i: nat): (r: Decoded<Entry>)
    ensures r.Ok? ==> i < r.next <= |data|
    decreases |data| - i, 2
  {
    match DecodeAt(parse, data, i)
    case Err(reason) => Err(reason)
    case Ok(key, afterKey) =>
      match DecodeAt(parse, data, afterKey)
      case Err(reason) => Err(reason)
      case Ok(value, next) => if AsKey(key).None? then Err(Unhashable) else Ok(Entry(AsKey(key).value, value), next)
  }

  function DecodeDict(parse: Conversion, data: Bytes, i: nat, out: seq<Entry>): (r: Decoded<seq<Entry>>)
    ensures r.Ok? ==> i < r.next <= |data|
    decreases |data| - i, 3
  {
    if i >= |data| then Err(ValueError)
    else if data[i] == 'e' then Ok(out, i + 1)
    else
      match DecodeEntry(parse, data, i)
      case Ok(entry, next) => DecodeDict(parse, data, next, Put(out, entry.key, entry.value))
      case Err(reason) => Err(reason)
  }
}
