/** The parser undoes the printer at any offset of any document. */
module BencodingProofs {
  import opened Options
  import opened Bencoding

  // ----- numerals

  predicate AllDigits(s: Bytes) {
    forall i :: 0 <= i < |s| ==> IsDigit(s[i])
  }

  lemma {:induction false} DecimalHolds(n: nat)
    ensures Decimal(n) != [] && AllDigits(Decimal(n)) && Numeral(Decimal(n)) == Some(n)
  {
    if n >= 10 {
      DecimalHolds(n / 10);
      var higher := Decimal(n / 10);
      assert Decimal(n)[..|Decimal(n)| - 1] == higher;
      assert IsDigit(higher[|higher| - 1]);
    } else {
      assert Decimal(n)[..0] == [];
    }
  }

  lemma NotStripped(s: Bytes)
    requires s != [] && !IsSpace(s[0]) && !IsSpace(s[|s| - 1])
    ensures Strip(s) == s
  {
  }

  lemma NegativeHolds(n: nat)
    ensures ParseInt(['-'] + Decimal(n)) == Some(-(n as int))
    ensures 'e' !in ['-'] + Decimal(n)
  {
    var s := ['-'] + Decimal(n);
    DecimalHolds(n);
    assert IsDigit(s[|s| - 1]);
    NotStripped(s);
    assert s[1..] == Decimal(n);
  }

  lemma NaturalHolds(n: nat)
    ensures Decimal(n) != [] && IsDigit(Decimal(n)[0]) && ParseInt(Decimal(n)) == Some(n)
    ensures 'e' !in Decimal(n) && ':' !in Decimal(n)
  {
    DecimalHolds(n);
    NotStripped(Decimal(n));
  }

  lemma ShowIntHolds(n: int)
    ensures ParseInt(ShowInt(n)) == Some(n) && 'e' !in ShowInt(n)
  {
    if n < 0 {
      NegativeHolds(-n);
    } else {
      NaturalHolds(n);
    }
  }

  /** What the parser needs of the conversion: it undoes printing. */
  ghost predicate Converts(parse: Conversion) {
    forall n :: parse(ShowInt(n)) == Some(n)
  }

  lemma ParseIntConverts()
    ensures Converts(ParseInt)
  {
    forall n
      ensures ParseInt(ShowInt(n)) == Some(n)
    {
      ShowIntHolds(n);
    }
  }

  lemma DecimalPlain(n: nat)
    ensures Decimal(n) != [] && IsDigit(Decimal(n)[0]) && 'e' !in Decimal(n) && ':' !in Decimal(n)
    ensures ShowInt(n) == Decimal(n)
  {
    NaturalHolds(n);
  }

  lemma ShowIntPlain(n: int)
    ensures 'e' !in ShowInt(n)
  {
    ShowIntHolds(n);
  }

  // ----- documents that hold an encoding at an offset

  lemma HoldsSplit(data: Bytes, i: nat, a: Bytes, b: Bytes)
    requires Holds(data, i, a + b)
    ensures Holds(data, i, a) && Holds(data, i + |a|, b)
  {
    assert data[i..i + |a|] == data[i..i + |a + b|][..|a|] == a;
    assert data[i + |a|..i + |a| + |b|] == data[i..i + |a + b|][|a|..] == b;
  }

  lemma HoldsAt(data: Bytes, i: nat, part: Bytes, k: nat)
    requires Holds(data, i, part) && k < |part|
    ensures data[i + k] == part[k]
  {
    assert data[i..i + |part|][k] == data[i + k];
  }

  lemma {:induction false} FindAt(data: Bytes, c: Byte, from: nat, k: nat)
    requires from <= k < |data| && data[k] == c && c !in data[from..k]
    ensures Find(data, c, from) == Some(k)
    decreases k - from
  {
    if from < k {
      assert data[from] == data[from..k][0] && data[from..k][1..] == data[from + 1..k];
      FindAt(data, c, from + 1, k);
    }
  }

  lemma HoldsText(data: Bytes, i: nat, b: Bytes)
    requires Holds(data, i, EncodeText(b))
    ensures var colon := i + |Decimal(|b|)|;
            colon + 1 + |b| <= |data| && data[i..colon] == Decimal(|b|) && data[colon] == ':' &&
            data[colon + 1..colon + 1 + |b|] == b
  {
    var digits := Decimal(|b|);
    HoldsSplit(data, i, digits + [':'], b);
    HoldsSplit(data, i, digits, [':']);
    HoldsAt(data, i + |digits|, [':'], 0);
  }

  lemma TextShape(data: Bytes, i: nat, b: Bytes)
    requires Holds(data, i, EncodeText(b))
    ensures var colon := i + |Decimal(|b|)|;
            && i < colon && colon + 1 + |b| <= |data| && data[i..colon] == Decimal(|b|) && data[colon] == ':'
            && data[colon + 1..colon + 1 + |b|] == b && ':' !in Decimal(|b|) && IsDigit(data[i])
  {
    HoldsText(data, i, b);
    DecimalPlain(|b|);
    assert data[i] == data[i..i + |Decimal(|b|)|][0];
  }

  lemma ConvertsLength(parse: Conversion, b: Bytes)
    requires Converts(parse)
    ensures parse(Decimal(|b|)) == Some(|b|) && |EncodeText(b)| == |Decimal(|b|)| + 1 + |b|
  {
    DecimalPlain(|b|);
    assert parse(ShowInt(|b|)) == Some(|b|);
  }

  lemma DecodeTextAt(parse: Conversion, data: Bytes, i: nat, b: Bytes)
    requires Converts(parse) && Holds(data, i, EncodeText(b))
    ensures i < |data| && IsDigit(data[i])
    ensures DecodeText(parse, data, i) == Ok(Text(b), i + |EncodeText(b)|)
    ensures DecodeAt(parse, data, i) == DecodeText(parse, data, i)
  {
    TextShape(data, i, b);
    ConvertsLength(parse, b);
    DecodeTextFrom(parse, data, i, i + |Decimal(|b|)|, Decimal(|b|), b);
  }

  lemma TextKind(parse: Conversion, data: Bytes, i: nat)
    requires i < |data| && IsDigit(data[i])
    ensures DecodeAt(parse, data, i) == DecodeText(parse, data, i)
  {
  }

  lemma TextBetween(parse: Conversion, data: Bytes, i: nat, colon: nat, digits: Bytes, b: Bytes)
    requires i < colon && colon + 1 + |b| <= |data| && data[colon] == ':' && data[i..colon] == digits && ':' !in digits
    requires parse(digits) == Some(|b|) && data[colon + 1..colon + 1 + |b|] == b
    ensures DecodeText(parse, data, i) == Ok(Text(b), colon + 1 + |b|)
  {
    FindAt(data, ':', i, colon);
  }

  lemma DecodeTextFrom(parse: Conversion, data: Bytes, i: nat, colon: nat, digits: Bytes, b: Bytes)
    requires i < colon && colon + 1 + |b| <= |data| && data[colon] == ':' && data[i..colon] == digits && ':' !in digits
    requires parse(digits) == Some(|b|) && data[colon + 1..colon + 1 + |b|] == b && IsDigit(data[i])
    ensures DecodeText(parse, data, i) == Ok(Text(b), colon + 1 + |b|)
    ensures DecodeAt(parse, data, i) == DecodeText(parse, data, i)
  {
    TextKind(parse, data, i);
    TextBetween(parse, data, i, colon, digits, b);
  }

  lemma DecodeIntAt(parse: Conversion, data: Bytes, i: nat, n: int)
    requires Converts(parse) && Holds(data, i, EncodeInt(n))
    ensures DecodeAt(parse, data, i) == Ok(Int(n), i + |EncodeInt(n)|)
    ensures i < |data| && data[i] == 'i'
  {
    ShowIntPlain(n);
    var body := ['i'] + ShowInt(n);
    HoldsSplit(data, i, body, ['e']);
    HoldsAt(data, i, body, 0);
    var end := i + |body|;
    HoldsAt(data, end, ['e'], 0);
    assert data[i..end] == body;
    assert data[i + 1..end] == body[1..] == ShowInt(n);
    FindAt(data, 'e', i, end);
  }

  lemma DecodeKeyAt(parse: Conversion, data: Bytes, i: nat, key: Key)
    requires Converts(parse) && Holds(data, i, EncodeKey(key))
    ensures DecodeAt(parse, data, i) == Ok(KeyValue(key), i + |EncodeKey(key)|)
    ensures AsKey(KeyValue(key)) == Some(key)
    ensures i < |data| && data[i] != 'e'
  {
    match key
    case ByteKey(bytes) => DecodeTextAt(parse, data, i, bytes);
    case IntKey(number) => DecodeIntAt(parse, data, i, number);
  }

  // ----- the canonical form: every dictionary sorted

  ghost function Canon(v: Value): Value
    requires Encodable(v)
    decreases v, 1, 0
  {
    match v
    case List(items) => List(CanonItems(items, v))
    case Dict(entries) =>
      SortHolds(entries);
      Dict(CanonEntries(SortByKey(entries), v))
    case _ => v
  }

  ghost function CanonItems(items: seq<Value>, whole: Value): (r: seq<Value>)
    requires ItemsOf(items, whole)
    ensures |r| == |items|
    decreases whole, 0, |items|
  {
    if items == [] then []
    else
      assert items[0] in whole.items;
      [Canon(items[0])] + CanonItems(items[1..], whole)
  }

  ghost function CanonEntries(entries: seq<Entry>, whole: Value): (r: seq<Entry>)
    requires EntriesOf(entries, whole)
    ensures |r| == |entries| && forall i :: 0 <= i < |r| ==> r[i].key == entries[i].key
    decreases whole, 0, |entries|
  {
    if entries == [] then []
    else
      assert entries[0] in whole.entries;
      [Entry(entries[0].key, Canon(entries[0].value))] + CanonEntries(entries[1..], whole)
  }

  // ----- sorting keeps keys distinct

  lemma {:induction false} InsertDistinct(entry: Entry, sorted: seq<Entry>)
    requires Distinct(sorted) && forall other :: other in sorted ==> other.key != entry.key
    ensures Distinct(Insert(entry, sorted))
    decreases |sorted|
  {
    if sorted != [] && !KeyLess(entry.key, sorted[0].key) {
      InsertDistinct(entry, sorted[1..]);
      InsertHolds(entry, sorted[1..]);
      var rest := Insert(entry, sorted[1..]);
      forall i | 0 <= i < |rest|
        ensures rest[i].key != sorted[0].key
      {
        assert rest[i] in rest;
      }
    }
  }

  lemma {:induction false} SortDistinct(entries: seq<Entry>)
    requires Distinct(entries)
    ensures Distinct(SortByKey(entries))
    decreases |entries|
  {
    if entries != [] {
      SortDistinct(entries[1..]);
      SortHolds(entries[1..]);
      forall other | other in SortByKey(entries[1..])
        ensures other.key != entries[0].key
      {
        assert other in entries[1..];
      }
      InsertDistinct(entries[0], SortByKey(entries[1..]));
    }
  }

  // ----- the round trip

  lemma PutNew(entries: seq<Entry>, key: Key, value: Value)
    requires forall entry :: entry in entries ==> entry.key != key
    ensures Put(entries, key, value) == entries + [Entry(key, value)]
  {
    if entries != [] {
      PutNew(entries[1..], key, value);
      assert [entries[0]] + (entries[1..] + [Entry(key, value)]) == entries + [Entry(key, value)];
    }
  }

  lemma HoldsFirst(data: Bytes, i: nat, c: Byte, rest: Bytes)
    requires Holds(data, i, [c] + rest + ['e'])
    ensures i < |data| && data[i] == c && Holds(data, i + 1, rest + ['e'])
  {
    assert [c] + rest + ['e'] == [c] + (rest + ['e']);
    HoldsSplit(data, i, [c], rest + ['e']);
    HoldsAt(data, i, [c], 0);
  }

  lemma HoldsLast(data: Bytes, i: nat)
    requires Holds(data, i, [] + ['e'])
    ensures i < |data| && data[i] == 'e'
  {
    HoldsAt(data, i, ['e'], 0);
  }

  lemma HoldsItem(data: Bytes, i: nat, items: seq<Value>, whole: Value)
    requires ItemsOf(items, whole) && items != []
    requires Holds(data, i, EncodeItems(items, whole) + ['e'])
    ensures items[0] in whole.items && Encodable(items[0]) && Holds(data, i, Encode(items[0]))
    ensures Holds(data, i + |Encode(items[0])|, EncodeItems(items[1..], whole) + ['e'])
  {
    assert items[0] in whole.items;
    var first, rest := Encode(items[0]), EncodeItems(items[1..], whole);
    assert EncodeItems(items, whole) + ['e'] == first + (rest + ['e']);
    HoldsSplit(data, i, first, rest + ['e']);
  }

  ghost function EncodeEntry(entry: Entry): Bytes
    requires Encodable(entry.value)
  {
    EncodeKey(entry.key) + Encode(entry.value)
  }

  lemma EntriesSplit(entries: seq<Entry>, whole: Value)
    requires EntriesOf(entries, whole) && entries != []
    ensures entries[0] in whole.entries && Encodable(entries[0].value) && EntriesOf(entries[1..], whole)
    ensures EncodeEntries(entries, whole) + ['e'] == EncodeEntry(entries[0]) + (EncodeEntries(entries[1..], whole) + ['e'])
  {
    assert entries[0] in entries && entries[0] in whole.entries;
    var first, rest := EncodeEntry(entries[0]), EncodeEntries(entries[1..], whole);
    assert (first + rest) + ['e'] == first + (rest + ['e']);
  }

  lemma HoldsEntry(data: Bytes, i: nat, entries: seq<Entry>, whole: Value)
    requires EntriesOf(entries, whole) && entries != []
    requires Holds(data, i, EncodeEntries(entries, whole) + ['e'])
    ensures entries[0] in whole.entries && Encodable(entries[0].value) && Holds(data, i, EncodeEntry(entries[0]))
    ensures Holds(data, i + |EncodeEntry(entries[0])|, EncodeEntries(entries[1..], whole) + ['e'])
  {
    EntriesSplit(entries, whole);
    HoldsSplit(data, i, EncodeEntry(entries[0]), EncodeEntries(entries[1..], whole) + ['e']);
  }

  lemma ListStep(parse: Conversion, data: Bytes, i: nat, out: seq<Value>, value: Value, next: nat)
    ensures i < |data| && data[i] != 'e' && DecodeAt(parse, data, i) == Ok(value, next)
        ==> DecodeList(parse, data, i, out) == DecodeList(parse, data, next, out + [value])
  {
  }

  lemma EntryStep(parse: Conversion, data: Bytes, i: nat, key: Key, afterKey: nat, value: Value, next: nat)
    ensures DecodeAt(parse, data, i) == Ok(KeyValue(key), afterKey) && DecodeAt(parse, data, afterKey) == Ok(value, next)
        ==> DecodeEntry(parse, data, i) == Ok(Entry(key, value), next)
  {
    assert AsKey(KeyValue(key)) == Some(key);
  }

  lemma DictStep(parse: Conversion, data: Bytes, i: nat, out: seq<Entry>, entry: Entry, next: nat)
    ensures i < |data| && data[i] != 'e' && DecodeEntry(parse, data, i) == Ok(entry, next)
        ==> DecodeDict(parse, data, i, out) == DecodeDict(parse, data, next, Put(out, entry.key, entry.value))
  {
  }

  /** Assigning the first of some entries that have distinct keys appends it. */
  lemma PutFirst(out: seq<Entry>, entries: seq<Entry>)
    requires entries != [] && Distinct(out + entries)
    ensures Put(out, entries[0].key, entries[0].value) == out + [entries[0]]
  {
    forall i | 0 <= i < |out|
      ensures out[i].key != entries[0].key
    {
      assert (out + entries)[i].key != (out + entries)[|out|].key;
    }
    PutNew(out, entries[0].key, entries[0].value);
  }

  lemma MemberWellFormed(whole: Value, entry: Entry)
    requires whole.Dict? && WellFormed(whole) && entry in whole.entries
    ensures WellFormed(entry.value) && entry.value < whole
  {
  }

  lemma CanonSorted(v: Value)
    requires v.Dict? && WellFormed(v) && Encodable(v)
    ensures EntriesOf(SortByKey(v.entries), v) && Distinct([] + CanonEntries(SortByKey(v.entries), v))
  {
    SortHolds(v.entries);
    SortDistinct(v.entries);
    var canon := CanonEntries(SortByKey(v.entries), v);
    assert [] + canon == canon;
  }

  lemma ListKind(parse: Conversion, data: Bytes, i: nat, items: seq<Value>, next: nat)
    ensures i < |data| && data[i] == 'l' && DecodeList(parse, data, i + 1, []) == Ok(items, next)
        ==> DecodeAt(parse, data, i) == Ok(List(items), next)
  {
  }

  lemma DictKind(parse: Conversion, data: Bytes, i: nat, entries: seq<Entry>, next: nat)
    ensures i < |data| && data[i] == 'd' && DecodeDict(parse, data, i + 1, []) == Ok(entries, next)
        ==> DecodeAt(parse, data, i) == Ok(Dict(entries), next)
  {
  }

  lemma {:induction false} DecodeEncodeList(parse: Conversion, data: Bytes, i: nat, v: Value)
    requires Converts(parse) && WellFormed(v) && Encodable(v) && Holds(data, i, Encode(v)) && v.List?
    ensures DecodeAt(parse, data, i) == Ok(Canon(v), i + |Encode(v)|)
    ensures i < |data| && data[i] != 'e'
    decreases v, 1, 0
  {
    HoldsFirst(data, i, 'l', EncodeItems(v.items, v));
    DecodeEncodeItems(parse, data, i + 1, v.items, v, []);
    assert [] + CanonItems(v.items, v) == CanonItems(v.items, v);
    ListKind(parse, data, i, CanonItems(v.items, v), i + |Encode(v)|);
  }

  lemma {:induction false} DecodeEncodeDict(parse: Conversion, data: Bytes, i: nat, v: Value)
    requires Converts(parse) && WellFormed(v) && Encodable(v) && Holds(data, i, Encode(v)) && v.Dict?
    ensures DecodeAt(parse, data, i) == Ok(Canon(v), i + |Encode(v)|)
    ensures i < |data| && data[i] != 'e'
    decreases v, 1, 0
  {
    CanonSorted(v);
    var sorted := SortByKey(v.entries);
    HoldsFirst(data, i, 'd', EncodeEntries(sorted, v));
    DecodeEncodeEntries(parse, data, i + 1, sorted, v, []);
    assert [] + CanonEntries(sorted, v) == CanonEntries(sorted, v);
    DictKind(parse, data, i, CanonEntries(sorted, v), i + |Encode(v)|);
  }

  /** Parsing the encoding of a value, wherever it stands, yields the value and the offset behind it. */
  lemma {:induction false} DecodeEncode(parse: Conversion, data: Bytes, i: nat, v: Value)
    requires Converts(parse) && WellFormed(v) && Encodable(v) && Holds(data, i, Encode(v))
    ensures DecodeAt(parse, data, i) == Ok(Canon(v), i + |Encode(v)|)
    ensures i < |data| && data[i] != 'e'
    decreases v, 1, 1
  {
    match v
    case Int(number) => DecodeIntAt(parse, data, i, number);
    case Text(bytes) => DecodeTextAt(parse, data, i, bytes);
    case List(_) => DecodeEncodeList(parse, data, i, v);
    case Dict(_) => DecodeEncodeDict(parse, data, i, v);
  }

  /** The same for the source's own conversion. */
  lemma DecodeEncodeInt(data: Bytes, i: nat, v: Value)
    requires WellFormed(v) && Encodable(v) && Holds(data, i, Encode(v))
    ensures DecodeAt(ParseInt, data, i) == Ok(Canon(v), i + |Encode(v)|)
  {
    ParseIntConverts();
    DecodeEncode(ParseInt, data, i, v);
  }

  lemma ItemsJoin(items: seq<Value>, whole: Value, out: seq<Value>)
    requires ItemsOf(items, whole) && items != []
    ensures items[0] in whole.items && Encodable(items[0])
    ensures (out + [Canon(items[0])]) + CanonItems(items[1..], whole) == out + CanonItems(items, whole)
    ensures |EncodeItems(items, whole)| == |Encode(items[0])| + |EncodeItems(items[1..], whole)|
  {
    assert items[0] in whole.items;
    assert CanonItems(items, whole) == [Canon(items[0])] + CanonItems(items[1..], whole);
  }

  lemma {:induction false} DecodeEncodeItem(parse: Conversion, data: Bytes, i: nat, item: Value, out: seq<Value>, next: nat, longer: seq<Value>)
    requires Converts(parse) && WellFormed(item) && Encodable(item) && Holds(data, i, Encode(item))
    requires next == i + |Encode(item)| && longer == out + [Canon(item)]
    ensures DecodeList(parse, data, i, out) == DecodeList(parse, data, next, longer)
    decreases item, 2, 0
  {
    DecodeEncode(parse, data, i, item);
    ListStep(parse, data, i, out, Canon(item), next);
  }

  lemma {:induction false} DecodeEncodeItems(parse: Conversion, data: Bytes, i: nat, items: seq<Value>, whole: Value, out: seq<Value>)
    requires Converts(parse) && WellFormed(whole) && ItemsOf(items, whole)
    requires Holds(data, i, EncodeItems(items, whole) + ['e'])
    ensures DecodeList(parse, data, i, out) == Ok(out + CanonItems(items, whole), i + |EncodeItems(items, whole)| + 1)
    decreases whole, 0, |items|
  {
    if items == [] {
      HoldsLast(data, i);
      assert out + [] == out;
    } else {
      HoldsItem(data, i, items, whole);
      var next, longer := i + |Encode(items[0])|, out + [Canon(items[0])];
      DecodeEncodeItem(parse, data, i, items[0], out, next, longer);
      DecodeEncodeItems(parse, data, next, items[1..], whole, longer);
      ItemsJoin(items, whole, out);
    }
  }

  ghost function CanonEntry(entry: Entry): Entry
    requires Encodable(entry.value)
  {
    Entry(entry.key, Canon(entry.value))
  }

  lemma EntriesJoin(entries: seq<Entry>, whole: Value, out: seq<Entry>)
    requires EntriesOf(entries, whole) && entries != []
    ensures entries[0] in whole.entries && Encodable(entries[0].value)
    ensures (out + [CanonEntry(entries[0])]) + CanonEntries(entries[1..], whole) == out + CanonEntries(entries, whole)
    ensures CanonEntries(entries, whole)[0] == CanonEntry(entries[0])
    ensures |EncodeEntries(entries, whole)| == |EncodeEntry(entries[0])| + |EncodeEntries(entries[1..], whole)|
  {
    assert entries[0] in whole.entries;
    assert CanonEntries(entries, whole) == [CanonEntry(entries[0])] + CanonEntries(entries[1..], whole);
  }

  lemma HoldsParts(data: Bytes, i: nat, entry: Entry)
    requires Encodable(entry.value) && Holds(data, i, EncodeEntry(entry))
    ensures Holds(data, i, EncodeKey(entry.key)) && Holds(data, i + |EncodeKey(entry.key)|, Encode(entry.value))
    ensures |EncodeEntry(entry)| == |EncodeKey(entry.key)| + |Encode(entry.value)|
  {
    HoldsSplit(data, i, EncodeKey(entry.key), Encode(entry.value));
  }

  /** The first entry of an encoded dictionary, ready to be read. */
  lemma FirstEntry(data: Bytes, i: nat, entries: seq<Entry>, whole: Value)
    requires EntriesOf(entries, whole) && entries != []
    requires Holds(data, i, EncodeEntries(entries, whole) + ['e'])
    ensures var e := entries[0];
      && e in whole.entries && Encodable(e.value)
      && Holds(data, i, EncodeKey(e.key)) && Holds(data, i + |EncodeKey(e.key)|, Encode(e.value))
      && |EncodeEntry(e)| == |EncodeKey(e.key)| + |Encode(e.value)|
  {
    HoldsEntry(data, i, entries, whole);
    HoldsParts(data, i, entries[0]);
  }

  lemma {:induction false} DecodeEncodeEntry(parse: Conversion, data: Bytes, i: nat, entry: Entry)
    requires Converts(parse) && WellFormed(entry.value) && Encodable(entry.value)
    requires Holds(data, i, EncodeKey(entry.key)) && Holds(data, i + |EncodeKey(entry.key)|, Encode(entry.value))
    ensures i < |data| && data[i] != 'e'
    ensures DecodeEntry(parse, data, i) == Ok(CanonEntry(entry), i + |EncodeKey(entry.key)| + |Encode(entry.value)|)
    decreases entry.value, 2, 0
  {
    var at := i + |EncodeKey(entry.key)|;
    DecodeKeyAt(parse, data, i, entry.key);
    DecodeEncode(parse, data, at, entry.value);
    EntryStep(parse, data, i, entry.key, at, Canon(entry.value), at + |Encode(entry.value)|);
  }

  lemma {:induction false} DecodeEncodeHead(
    parse: Conversion, data: Bytes, i: nat, entries: seq<Entry>, whole: Value)
    requires Converts(parse) && WellFormed(whole) && EntriesOf(entries, whole) && entries != []
    requires Holds(data, i, EncodeEntries(entries, whole) + ['e'])
    ensures entries[0] in whole.entries && Encodable(entries[0].value) && i < |data| && data[i] != 'e'
    ensures DecodeEntry(parse, data, i) == Ok(CanonEntry(entries[0]), i + |EncodeEntry(entries[0])|)
    decreases whole, 0, 0
  {
    FirstEntry(data, i, entries, whole);
    MemberWellFormed(whole, entries[0]);
    DecodeEncodeEntry(parse, data, i, entries[0]);
  }

  lemma {:induction false} DecodeEncodeFirst(
    parse: Conversion, data: Bytes, i: nat, entries: seq<Entry>, whole: Value, out: seq<Entry>, next: nat, longer: seq<Entry>)
    requires Converts(parse) && WellFormed(whole) && EntriesOf(entries, whole) && entries != []
    requires Holds(data, i, EncodeEntries(entries, whole) + ['e']) && Distinct(out + CanonEntries(entries, whole))
    requires entries[0] in whole.entries && CanonEntries(entries, whole)[0] == CanonEntry(entries[0])
    requires next == i + |EncodeEntry(entries[0])| && longer == out + [CanonEntry(entries[0])]
    ensures DecodeDict(parse, data, i, out) == DecodeDict(parse, data, next, longer)
    decreases whole, 0, 1
  {
    DecodeEncodeHead(parse, data, i, entries, whole);
    PutFirst(out, CanonEntries(entries, whole));
    DictStep(parse, data, i, out, CanonEntry(entries[0]), next);
  }

  lemma {:induction false} DecodeEncodeEntries(parse: Conversion, data: Bytes, i: nat, entries: seq<Entry>, whole: Value, out: seq<Entry>)
    requires Converts(parse) && WellFormed(whole) && EntriesOf(entries, whole)
    requires Holds(data, i, EncodeEntries(entries, whole) + ['e']) && Distinct(out + CanonEntries(entries, whole))
    ensures DecodeDict(parse, data, i, out) == Ok(out + CanonEntries(entries, whole), i + |EncodeEntries(entries, whole)| + 1)
    decreases whole, 0, |entries| + 2
  {
    if entries == [] {
      HoldsLast(data, i);
      assert out + [] == out;
    } else {
      HoldsEntry(data, i, entries, whole);
      EntriesJoin(entries, whole, out);
      var next, longer := i + |EncodeEntry(entries[0])|, out + [CanonEntry(entries[0])];
      DecodeEncodeFirst(parse, data, i, entries, whole, out, next, longer);
      DecodeEncodeEntries(parse, data, next, entries[1..], whole, longer);
    }
  }
}
