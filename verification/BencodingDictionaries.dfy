/** Dictionaries that the parser builds. */
module BencodingDictionaries {
  import opened Options
  import opened Bencoding
  import opened BencodingReader
  import opened BencodingReturns

  /** Assigning to a key that is there replaces its value where it stands. */
  lemma {:induction false} PutKnown(entries: seq<Entry>, key: Key, value: Value, i: nat)
    requires i < |entries| && entries[i].key == key && forall j :: 0 <= j < i ==> entries[j].key != key
    ensures Put(entries, key, value) == entries[i := Entry(key, value)]
  {
    if i > 0 {
      PutKnown(entries[1..], key, value, i - 1);
      assert entries[i := Entry(key, value)] == [entries[0]] + entries[1..][i - 1 := Entry(key, value)];
    }
  }

  /** Any other is added behind the rest. */
  lemma {:induction false} PutNew(entries: seq<Entry>, key: Key, value: Value)
    requires forall j :: 0 <= j < |entries| ==> entries[j].key != key
    ensures Put(entries, key, value) == entries + [Entry(key, value)]
  {
    if entries != [] {
      PutNew(entries[1..], key, value);
      assert entries == [entries[0]] + entries[1..];
    }
  }

  lemma PutDistinct(entries: seq<Entry>, key: Key, value: Value)
    requires Distinct(entries)
    ensures Distinct(Put(entries, key, value))
    ensures forall entry :: entry in Put(entries, key, value) ==> entry in entries || entry == Entry(key, value)
  {
    if i :| 0 <= i < |entries| && entries[i].key == key {
      PutKnown(entries, key, value, i);
    } else {
      PutNew(entries, key, value);
    }
  }

  ghost predicate EntriesWellFormed(entries: seq<Entry>) {
    Distinct(entries) && forall i :: 0 <= i < |entries| ==> WellFormed(entries[i].value)
  }

  lemma PutWellFormed(entries: seq<Entry>, entry: Entry)
    requires EntriesWellFormed(entries) && WellFormed(entry.value)
    ensures EntriesWellFormed(Put(entries, entry.key, entry.value))
  {
    PutDistinct(entries, entry.key, entry.value);
    var r := Put(entries, entry.key, entry.value);
    forall i | 0 <= i < |r|
      ensures WellFormed(r[i].value)
    {
      assert r[i] in r;
    }
  }

  ghost predicate ItemsWellFormed(items: seq<Value>) {
    forall i :: 0 <= i < |items| ==> WellFormed(items[i])
  }

  /** A property that the parser's ways of making a value keep. */
  ghost predicate Kept(good: Value -> bool, items: seq<Value> -> bool, entries: seq<Entry> -> bool) {
    && (forall n :: good(Int(n))) && (forall b :: good(Text(b)))
    && items([]) && (forall out, v :: items(out) && good(v) ==> items(out + [v]))
    && entries([]) && (forall out, e: Entry :: entries(out) && good(e.value) ==> entries(Put(out, e.key, e.value)))
    && (forall out :: items(out) ==> good(List(out))) && (forall out :: entries(out) ==> good(Dict(out)))
  }

  /** Whatever is returned has the property. */
  predicate All<T>(r: Option<Parsed<T>>, good: T -> bool) {
    r.Some? && r.value.Parsed? ==> good(r.value.value)
  }

  lemma LeafKept(parse: Conversion, data: Bytes, i: int, calls: nat,
                 good: Value -> bool, items: seq<Value> -> bool, entries: seq<Entry> -> bool)
    requires Kept(good, items, entries) && calls > 0 && !Nested(data, i)
    ensures All(ReadAt(parse, data, i, calls), good)
  {
    var r := ReadAt(parse, data, i, calls);
    assert r == Some(ReadInt(parse, data, i)) || r == Some(ReadText(parse, data, i));
  }

  lemma {:induction false} AtKept(parse: Conversion, data: Bytes, i: int, calls: nat,
                                  good: Value -> bool, items: seq<Value> -> bool, entries: seq<Entry> -> bool)
    requires Kept(good, items, entries)
    ensures All(ReadAt(parse, data, i, calls), good)
    decreases calls, 0
  {
    if calls > 0 {
      if Kind(data, i) == ['l'] {
        AtList(parse, data, i, calls);
        ListKept(parse, data, i + 1, [], calls - 1, good, items, entries);
      } else if Kind(data, i) == ['d'] {
        AtDict(parse, data, i, calls);
        DictKept(parse, data, i + 1, [], calls - 1, good, items, entries);
      } else {
        LeafKept(parse, data, i, calls, good, items, entries);
      }
    }
  }

  lemma {:induction false} ListKept(parse: Conversion, data: Bytes, i: int, out: seq<Value>, calls: nat,
                                    good: Value -> bool, items: seq<Value> -> bool, entries: seq<Entry> -> bool)
    requires Kept(good, items, entries) && items(out)
    ensures All(ReadList(parse, data, i, out, calls), items)
    decreases calls, 0
  {
    if calls > 0 && Continues(data, i) {
      AtKept(parse, data, i, calls - 1, good, items, entries);
      match ReadAt(parse, data, i, calls - 1)
      case Some(Parsed(value, next)) => ListKept(parse, data, next, out + [value], calls - 1, good, items, entries);
      case _ =>
    }
  }

  lemma {:induction false} EntryKept(parse: Conversion, data: Bytes, i: int, calls: nat,
                                     good: Value -> bool, items: seq<Value> -> bool, entries: seq<Entry> -> bool)
    requires Kept(good, items, entries)
    ensures All(ReadEntry(parse, data, i, calls), (e: Entry) => good(e.value))
    decreases calls, 1
  {
    match ReadAt(parse, data, i, calls)
    case Some(Parsed(_, afterKey)) => AtKept(parse, data, afterKey, calls, good, items, entries);
    case _ =>
  }

  lemma {:induction false} DictKept(parse: Conversion, data: Bytes, i: int, out: seq<Entry>, calls: nat,
                                    good: Value -> bool, items: seq<Value> -> bool, entries: seq<Entry> -> bool)
    requires Kept(good, items, entries) && entries(out)
    ensures All(ReadDict(parse, data, i, out, calls), entries)
    decreases calls, 0
  {
    if calls > 0 && Continues(data, i) {
      EntryKept(parse, data, i, calls - 1, good, items, entries);
      match ReadEntry(parse, data, i, calls - 1)
      case Some(Parsed(entry, next)) =>
        DictKept(parse, data, next, Put(out, entry.key, entry.value), calls - 1, good, items, entries);
      case _ =>
    }
  }

  lemma WellFormedKept()
    ensures Kept(v => WellFormed(v), items => ItemsWellFormed(items), entries => EntriesWellFormed(entries))
  {
    forall out, e: Entry | EntriesWellFormed(out) && WellFormed(e.value)
      ensures EntriesWellFormed(Put(out, e.key, e.value))
    {
      PutWellFormed(out, e);
    }
  }

  /** No dictionary that the parser returns has a key twice, at any depth, whatever the document. */
  lemma ReadsWellFormed(parse: Conversion, data: Bytes, i: int, calls: nat)
    ensures var r := ReadAt(parse, data, i, calls); r.Some? && r.value.Parsed? ==> WellFormed(r.value.value)
  {
    WellFormedKept();
    AtKept(parse, data, i, calls, v => WellFormed(v), items => ItemsWellFormed(items), entries => EntriesWellFormed(entries));
  }
}
