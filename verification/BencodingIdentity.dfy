/** Two values have the same encoding exactly when Python holds them equal. */
module BencodingIdentity {
  import opened Bencoding
  import opened BencodingProofs

  /** Python's `==`: dictionaries are equal when they hold equal values under the same keys,
      whatever the order of insertion. */
  ghost predicate SameValue(v: Value, w: Value)
    decreases v
  {
    match (v, w)
    case (List(xs), List(ys)) => |xs| == |ys| && forall i :: 0 <= i < |xs| ==> SameValue(xs[i], ys[i])
    case (Dict(es), Dict(fs)) =>
      && (forall i :: 0 <= i < |es| ==> exists j :: 0 <= j < |fs| && es[i].key == fs[j].key && SameValue(es[i].value, fs[j].value))
      && (forall j :: 0 <= j < |fs| ==> HasKey(es, fs[j].key))
    case _ => v == w
  }

  ghost predicate HasKey(entries: seq<Entry>, key: Key) {
    exists i :: 0 <= i < |entries| && entries[i].key == key
  }

  // ----- the order of keys

  lemma Lex(a: Bytes, b: Bytes, k: nat)
    requires k <= |a| && k < |b| && a[..k] == b[..k] && (k == |a| || a[k] < b[k])
    ensures LexLess(a, b)
    decreases k
  {
    if k > 0 {
      assert a[0] == a[..k][0] == b[..k][0] == b[0];
      assert a[1..][..k - 1] == a[..k][1..] && b[1..][..k - 1] == b[..k][1..];
      Lex(a[1..], b[1..], k - 1);
    }
  }

  /** The first of two texts ends, or has the smaller byte, where they first differ. */
  ghost predicate Precedes(a: Bytes, b: Bytes, k: nat) {
    k <= |a| && k < |b| && a[..k] == b[..k] && (k == |a| || a[k] < b[k])
  }

  lemma {:induction false} LexPrecedes(a: Bytes, b: Bytes) returns (k: nat)
    requires LexLess(a, b)
    ensures Precedes(a, b, k)
    decreases |a|
  {
    if a == [] || a[0] < b[0] {
      k := 0;
    } else {
      k := LexPrecedes(a[1..], b[1..]);
      assert a[..k + 1] == [a[0]] + a[1..][..k] && b[..k + 1] == [b[0]] + b[1..][..k];
      k := k + 1;
    }
  }

  /** Keys of bytes stand in the order of their bytes, integer keys in the order of the numbers. */
  lemma KeyOrderExactly(a: Key, b: Key)
    ensures a.ByteKey? && b.ByteKey? ==> (KeyLess(a, b) <==> exists k :: Precedes(a.bytes, b.bytes, k))
    ensures a.IntKey? && b.IntKey? ==> (KeyLess(a, b) <==> a.number < b.number)
  {
    if a.ByteKey? && b.ByteKey? {
      if LexLess(a.bytes, b.bytes) {
        var k := LexPrecedes(a.bytes, b.bytes);
      }
      if k :| Precedes(a.bytes, b.bytes, k) {
        Lex(a.bytes, b.bytes, k);
      }
    }
  }

  lemma {:induction false} LexTotal(a: Bytes, b: Bytes)
    ensures a == b || LexLess(a, b) || LexLess(b, a)
    ensures !(LexLess(a, b) && LexLess(b, a))
    decreases |a|
  {
    if a != [] && b != [] && a[0] == b[0] {
      LexTotal(a[1..], b[1..]);
      assert a == [a[0]] + a[1..] && b == [b[0]] + b[1..];
    }
  }

  lemma {:induction false} LexTransitive(a: Bytes, b: Bytes, c: Bytes)
    requires LexLess(a, b) && LexLess(b, c)
    ensures LexLess(a, c)
    decreases |a|
  {
    if a != [] && a[0] == b[0] == c[0] {
      LexTransitive(a[1..], b[1..], c[1..]);
    }
  }

  lemma KeyTotal(a: Key, b: Key)
    ensures a == b || KeyLess(a, b) || KeyLess(b, a)
    ensures !(KeyLess(a, b) && KeyLess(b, a)) && !KeyLess(a, a)
  {
    if a.ByteKey? && b.ByteKey? {
      LexTotal(a.bytes, b.bytes);
    }
    if a.ByteKey? {
      LexTotal(a.bytes, a.bytes);
    }
  }

  lemma KeyTransitive(a: Key, b: Key, c: Key)
    requires KeyLess(a, b) && KeyLess(b, c)
    ensures KeyLess(a, c)
  {
    if a.ByteKey? && c.ByteKey? {
      LexTransitive(a.bytes, b.bytes, c.bytes);
    }
  }

  // ----- sorting is canonical

  ghost predicate Increasing(entries: seq<Entry>) {
    forall i, j :: 0 <= i < j < |entries| ==> KeyLess(entries[i].key, entries[j].key)
  }

  lemma {:induction false} InsertIncreasing(entry: Entry, sorted: seq<Entry>)
    requires Increasing(sorted) && forall other :: other in sorted ==> other.key != entry.key
    ensures Increasing(Insert(entry, sorted))
    decreases |sorted|
  {
    if sorted != [] {
      KeyTotal(entry.key, sorted[0].key);
      assert sorted[0] in sorted;
      if KeyLess(entry.key, sorted[0].key) {
        forall j | 0 < j < |sorted|
          ensures KeyLess(entry.key, sorted[j].key)
        {
          KeyTransitive(entry.key, sorted[0].key, sorted[j].key);
        }
      } else {
        InsertIncreasing(entry, sorted[1..]);
        InsertHolds(entry, sorted[1..]);
        var rest := Insert(entry, sorted[1..]);
        forall j | 0 <= j < |rest|
          ensures KeyLess(sorted[0].key, rest[j].key)
        {
          assert rest[j] in rest;
        }
      }
    }
  }

  lemma {:induction false} SortIncreasing(entries: seq<Entry>)
    requires Distinct(entries)
    ensures Increasing(SortByKey(entries))
    decreases |entries|
  {
    if entries != [] {
      SortIncreasing(entries[1..]);
      SortHolds(entries[1..]);
      forall other | other in SortByKey(entries[1..])
        ensures other.key != entries[0].key
      {
        assert other in entries[1..];
      }
      InsertIncreasing(entries[0], SortByKey(entries[1..]));
    }
  }

  ghost predicate KeysWithin(a: seq<Entry>, b: seq<Entry>) {
    forall i :: 0 <= i < |a| ==> HasKey(b, a[i].key)
  }

  /** Increasing sequences with the same keys agree key by key. */
  lemma {:induction false} SameKeysAligned(a: seq<Entry>, b: seq<Entry>, k: nat)
    requires Increasing(a) && Increasing(b) && KeysWithin(a, b) && KeysWithin(b, a)
    requires k < |a|
    ensures k < |b| && a[k].key == b[k].key
  {
    if k > 0 {
      SameKeysAligned(a, b, k - 1);
    }
    var j := KeyIndex(b, a[k].key);
    if j < k {
      SameKeysAligned(a, b, j);
      KeyTotal(a[j].key, a[k].key);
      assert false;
    }
    if j > k {
      var i := KeyIndex(a, b[k].key);
      KeyTotal(b[k].key, b[j].key);
      if i < k {
        SameKeysAligned(a, b, i);
        assert false;
      } else if i > k {
        assert false;
      }
    }
  }

  lemma KeyIndex(entries: seq<Entry>, key: Key) returns (j: nat)
    requires HasKey(entries, key)
    ensures j < |entries| && entries[j].key == key
  {
    j :| 0 <= j < |entries| && entries[j].key == key;
  }

  // ----- equal values have equal encodings

  lemma SortedWithin(es: seq<Entry>, fs: seq<Entry>)
    requires KeysWithin(es, fs)
    ensures KeysWithin(SortByKey(es), SortByKey(fs))
  {
    var s, t := SortByKey(es), SortByKey(fs);
    SortHolds(es);
    SortHolds(fs);
    forall k | 0 <= k < |s|
      ensures HasKey(t, s[k].key)
    {
      assert s[k] in s && s[k] in es;
      var i :| 0 <= i < |es| && es[i] == s[k];
      assert HasKey(fs, es[i].key);
      var j := KeyIndex(fs, es[i].key);
      assert fs[j] in fs && fs[j] in t;
    }
  }

  lemma SameLength(a: seq<Entry>, b: seq<Entry>)
    requires Increasing(a) && Increasing(b) && KeysWithin(a, b) && KeysWithin(b, a)
    ensures |a| == |b|
  {
    if |a| > 0 {
      SameKeysAligned(a, b, |a| - 1);
    }
    if |b| > 0 {
      SameKeysAligned(b, a, |b| - 1);
    }
  }

  lemma SortedSameKeys(es: seq<Entry>, fs: seq<Entry>)
    requires Distinct(es) && Distinct(fs) && KeysWithin(es, fs) && KeysWithin(fs, es)
    ensures |es| == |fs| && Increasing(SortByKey(fs))
    ensures forall k :: 0 <= k < |es| ==> SortByKey(es)[k].key == SortByKey(fs)[k].key
  {
    SortedWithin(es, fs);
    SortedWithin(fs, es);
    SortIncreasing(es);
    SortIncreasing(fs);
    SameLength(SortByKey(es), SortByKey(fs));
    forall k | 0 <= k < |es|
      ensures SortByKey(es)[k].key == SortByKey(fs)[k].key
    {
      SameKeysAligned(SortByKey(es), SortByKey(fs), k);
    }
  }

  lemma SameValueKeys(v: Value, w: Value)
    requires v.Dict? && w.Dict? && SameValue(v, w)
    ensures KeysWithin(v.entries, w.entries) && KeysWithin(w.entries, v.entries)
  {
  }

  /** An entry of one of two equal dictionaries has its counterpart in the other. */
  lemma Counterpart(v: Value, w: Value, entry: Entry) returns (other: Entry)
    requires v.Dict? && w.Dict? && SameValue(v, w) && entry in v.entries
    ensures other in w.entries && other.key == entry.key && SameValue(entry.value, other.value)
  {
    var i :| 0 <= i < |v.entries| && v.entries[i] == entry;
    var j :| 0 <= j < |w.entries| && v.entries[i].key == w.entries[j].key && SameValue(v.entries[i].value, w.entries[j].value);
    other := w.entries[j];
  }

  lemma UniqueKey(t: seq<Entry>, k: nat, entry: Entry)
    requires Increasing(t) && k < |t| && entry in t && entry.key == t[k].key
    ensures entry == t[k]
  {
    var m :| 0 <= m < |t| && t[m] == entry;
    KeyTotal(t[k].key, t[m].key);
  }

  /** Equal dictionaries, sorted, agree entry by entry. */
  lemma SortedAligned(v: Value, w: Value, k: nat)
    requires v.Dict? && w.Dict? && SameValue(v, w) && k < |v.entries| == |w.entries|
    requires Increasing(SortByKey(w.entries)) && SortByKey(v.entries)[k].key == SortByKey(w.entries)[k].key
    ensures SameValue(SortByKey(v.entries)[k].value, SortByKey(w.entries)[k].value)
  {
    var s, t := SortByKey(v.entries), SortByKey(w.entries);
    assert s[k] in v.entries by {
      SortHolds(v.entries);
      assert s[k] in s;
    }
    var other := Counterpart(v, w, s[k]);
    assert other in t by {
      SortHolds(w.entries);
    }
    UniqueKey(t, k, other);
  }

  lemma {:induction false} SameEncoding(v: Value, w: Value)
    requires WellFormed(v) && WellFormed(w) && Encodable(v) && Encodable(w) && SameValue(v, w)
    ensures Encode(v) == Encode(w)
    decreases v, 1, 0
  {
    match v
    case List(items) => SameEncodingItems(items, v, w.items, w);
    case Dict(entries) =>
      var s, t := SortByKey(v.entries), SortByKey(w.entries);
      SortHolds(v.entries);
      SortHolds(w.entries);
      SameValueKeys(v, w);
      SortedSameKeys(v.entries, w.entries);
      forall k | 0 <= k < |s|
        ensures SameValue(s[k].value, t[k].value)
      {
        SortedAligned(v, w, k);
      }
      SameEncodingEntries(s, v, t, w);
    case _ =>
  }

  lemma {:induction false} SameEncodingItems(xs: seq<Value>, v: Value, ys: seq<Value>, w: Value)
    requires WellFormed(v) && WellFormed(w) && ItemsOf(xs, v) && ItemsOf(ys, w)
    requires |xs| == |ys| && forall i :: 0 <= i < |xs| ==> SameValue(xs[i], ys[i])
    ensures EncodeItems(xs, v) == EncodeItems(ys, w)
    decreases v, 0, |xs|
  {
    if xs != [] {
      assert xs[0] in v.items && ys[0] in w.items;
      SameEncoding(xs[0], ys[0]);
      SameEncodingItems(xs[1..], v, ys[1..], w);
    }
  }

  lemma {:induction false} SameEncodingEntries(es: seq<Entry>, v: Value, fs: seq<Entry>, w: Value)
    requires WellFormed(v) && WellFormed(w) && EntriesOf(es, v) && EntriesOf(fs, w)
    requires |es| == |fs|
    requires forall i :: 0 <= i < |es| ==> es[i].key == fs[i].key && SameValue(es[i].value, fs[i].value)
    ensures EncodeEntries(es, v) == EncodeEntries(fs, w)
    decreases v, 0, |es|
  {
    if es != [] {
      assert es[0] in v.entries && fs[0] in w.entries;
      SameEncoding(es[0].value, fs[0].value);
      SameEncodingEntries(es[1..], v, fs[1..], w);
    }
  }

  // ----- equal canonical forms belong to equal values

  lemma {:induction false} SameCanon(v: Value, w: Value)
    requires Encodable(v) && Encodable(w) && Canon(v) == Canon(w)
    ensures SameValue(v, w)
    decreases v, 1, 0
  {
    match v
    case List(items) => SameCanonItems(items, v, w.items, w);
    case Dict(entries) =>
      var s, t := SortByKey(v.entries), SortByKey(w.entries);
      SortHolds(v.entries);
      SortHolds(w.entries);
      SameCanonEntries(s, v, t, w);
      forall i | 0 <= i < |v.entries|
        ensures exists j :: 0 <= j < |w.entries| && v.entries[i].key == w.entries[j].key && SameValue(v.entries[i].value, w.entries[j].value)
      {
        assert v.entries[i] in s;
        var k :| 0 <= k < |s| && s[k] == v.entries[i];
        assert t[k] in t && t[k] in w.entries;
      }
      forall j | 0 <= j < |w.entries|
        ensures HasKey(v.entries, w.entries[j].key)
      {
        assert w.entries[j] in t;
        var k :| 0 <= k < |t| && t[k] == w.entries[j];
        assert s[k] in s && s[k] in v.entries;
      }
    case _ =>
  }

  lemma {:induction false} SameCanonItems(xs: seq<Value>, v: Value, ys: seq<Value>, w: Value)
    requires ItemsOf(xs, v) && ItemsOf(ys, w) && CanonItems(xs, v) == CanonItems(ys, w)
    ensures |xs| == |ys| && forall i :: 0 <= i < |xs| ==> SameValue(xs[i], ys[i])
    decreases v, 0, |xs|
  {
    if xs != [] {
      assert xs[0] in v.items && ys[0] in w.items;
      assert CanonItems(xs, v)[0] == CanonItems(ys, w)[0];
      assert CanonItems(xs, v)[1..] == CanonItems(ys, w)[1..];
      SameCanon(xs[0], ys[0]);
      SameCanonItems(xs[1..], v, ys[1..], w);
    }
  }

  lemma {:induction false} SameCanonEntries(es: seq<Entry>, v: Value, fs: seq<Entry>, w: Value)
    requires EntriesOf(es, v) && EntriesOf(fs, w) && CanonEntries(es, v) == CanonEntries(fs, w)
    ensures |es| == |fs|
    ensures forall i :: 0 <= i < |es| ==> es[i].key == fs[i].key && SameValue(es[i].value, fs[i].value)
    decreases v, 0, |es|
  {
    if es != [] {
      assert es[0] in v.entries && fs[0] in w.entries;
      assert CanonEntries(es, v)[0] == CanonEntries(fs, w)[0];
      assert CanonEntries(es, v)[1..] == CanonEntries(fs, w)[1..];
      SameCanon(es[0].value, fs[0].value);
      SameCanonEntries(es[1..], v, fs[1..], w);
    }
  }

  lemma DecodeWhole(v: Value)
    requires WellFormed(v) && Encodable(v)
    ensures DecodeAt(ParseInt, Encode(v), 0) == Ok(Canon(v), |Encode(v)|)
  {
    assert Encode(v)[0..0 + |Encode(v)|] == Encode(v);
    DecodeEncodeInt(Encode(v), 0, v);
  }

  /** The encoding is injective up to Python equality and blind to insertion order. */
  lemma EncodingIdentifies(v: Value, w: Value)
    requires WellFormed(v) && WellFormed(w) && Encodable(v) && Encodable(w)
    ensures Encode(v) == Encode(w) <==> SameValue(v, w)
  {
    if SameValue(v, w) {
      SameEncoding(v, w);
    }
    if Encode(v) == Encode(w) {
      DecodeWhole(v);
      DecodeWhole(w);
      SameCanon(v, w);
    }
  }

  /** No encoding is a proper prefix of another. */
  lemma EncodingIsSelfDelimiting(v: Value, w: Value)
    requires WellFormed(v) && WellFormed(w) && Encodable(v) && Encodable(w)
    requires Encode(v) <= Encode(w)
    ensures Encode(v) == Encode(w)
  {
    var data := Encode(w);
    assert data[0..0 + |Encode(v)|] == Encode(v) && data[0..0 + |data|] == data;
    DecodeEncodeInt(data, 0, v);
    DecodeEncodeInt(data, 0, w);
  }

  // ----- what cannot be encoded

  /** `w` is `v` or stands somewhere in it. */
  ghost predicate Inside(w: Value, v: Value)
    decreases v
  {
    w == v ||
    match v
    case List(items) => exists i :: 0 <= i < |items| && Inside(w, items[i])
    case Dict(entries) => exists i :: 0 <= i < |entries| && Inside(w, entries[i].value)
    case _ => false
  }

  /** A dictionary with a key of bytes and one that is an integer. */
  ghost predicate MixesKeys(v: Value) {
    v.Dict? && exists i, j :: 0 <= i < |v.entries| && 0 <= j < |v.entries| && v.entries[i].key.ByteKey? && v.entries[j].key.IntKey?
  }

  ghost predicate Objectionable(v: Value) {
    v.Bool? || MixesKeys(v)
  }

  lemma UnmixedKeys(v: Value)
    requires v.Dict?
    ensures MixesKeys(v) <==>
      exists i, j :: 0 <= i < j < |v.entries| && !(v.entries[i].key.ByteKey? <==> v.entries[j].key.ByteKey?)
  {
    if i, j :| 0 <= i < |v.entries| && 0 <= j < |v.entries| && v.entries[i].key.ByteKey? && v.entries[j].key.IntKey? {
      if i < j {
        assert !(v.entries[i].key.ByteKey? <==> v.entries[j].key.ByteKey?);
      } else {
        assert !(v.entries[j].key.ByteKey? <==> v.entries[i].key.ByteKey?);
      }
    }
  }

  lemma {:induction false} ObjectionInside(v: Value) returns (w: Value)
    requires !Encodable(v)
    ensures Inside(w, v) && Objectionable(w)
    decreases v
  {
    w := v;
    match v
    case List(items) =>
      var i :| 0 <= i < |items| && !Encodable(items[i]);
      w := ObjectionInside(items[i]);
    case Dict(entries) =>
      UnmixedKeys(v);
      if i :| 0 <= i < |entries| && !Encodable(entries[i].value) {
        w := ObjectionInside(entries[i].value);
      }
    case _ =>
  }

  lemma {:induction false} EncodableInside(v: Value, w: Value)
    requires Encodable(v) && Inside(w, v)
    ensures !Objectionable(w)
    decreases v
  {
    if w == v {
      if v.Dict? {
        UnmixedKeys(v);
      }
    } else {
      match v
      case List(items) =>
        var i :| 0 <= i < |items| && Inside(w, items[i]);
        EncodableInside(items[i], w);
      case Dict(entries) =>
        var i :| 0 <= i < |entries| && Inside(w, entries[i].value);
        EncodableInside(entries[i].value, w);
    }
  }

  /** `bencode` raises exactly if a boolean stands anywhere in the value, or a dictionary that mixes byte and
      integer keys. */
  lemma TypeErrorExactly(v: Value)
    ensures Bencode(v) == TypeError <==> exists w :: Inside(w, v) && Objectionable(w)
  {
    if Encodable(v) {
      if w :| Inside(w, v) && Objectionable(w) {
        EncodableInside(v, w);
      }
    } else {
      var w := ObjectionInside(v);
    }
  }
}
