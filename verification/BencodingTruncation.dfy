/** Documents that end too early or too late are refused. */
module BencodingTruncation {
  import opened Options
  import opened Bencoding
  import opened BencodingReader
  import opened BencodingReaderProofs

  /** Of a document that is cut off the parser reads the same, or misses something; and what it reads of the
      shorter one it reads of the longer. */
  ghost predicate Cut<T>(full: Decoded<T>, cut: Decoded<T>) {
    && (full.Ok? ==> cut == full || cut == Err(ValueError))
    && (cut.Ok? ==> full == cut)
  }

  lemma {:induction false} FindCut(data: Bytes, c: Byte, i: nat, n: nat)
    requires n <= |data|
    ensures Find(data[..n], c, i) ==
      if Find(data, c, i).Some? && Find(data, c, i).value < n then Find(data, c, i) else None
    decreases |data| - i
  {
    if i < n && data[i] != c {
      FindCut(data, c, i + 1, n);
    }
  }

  lemma IntCut(parse: Conversion, data: Bytes, i: nat, n: nat)
    requires i < n <= |data| && data[i] == 'i'
    ensures Cut(DecodeInt(parse, data, i), DecodeInt(parse, data[..n], i))
  {
    FindCut(data, 'e', i, n);
    var end := Find(data, 'e', i);
    if end.Some? && end.value < n {
      assert data[..n][i + 1..end.value] == data[i + 1..end.value];
    }
  }

  lemma TextCut(parse: Conversion, data: Bytes, i: nat, n: nat)
    requires n <= |data|
    ensures Cut(DecodeText(parse, data, i), DecodeText(parse, data[..n], i))
  {
    FindCut(data, ':', i, n);
    var colon := Find(data, ':', i);
    if colon.Some? && colon.value < n {
      assert data[..n][i..colon.value] == data[i..colon.value];
      var length := parse(data[i..colon.value]);
      if length.Some? {
        var end := colon.value + 1 + length.value;
        if colon.value + 1 <= end <= n {
          assert data[..n][colon.value + 1..end] == data[colon.value + 1..end];
        }
      }
    }
  }

  lemma NothingLeft(parse: Conversion, data: Bytes)
    ensures DecodeAt(parse, data, |data|) == Err(ValueError)
  {
  }

  lemma {:induction false} ValueCut(parse: Conversion, data: Bytes, i: nat, n: nat)
    requires i <= n <= |data|
    ensures Cut(DecodeAt(parse, data, i), DecodeAt(parse, data[..n], i))
    decreases |data| - i, 1
  {
    var cut := data[..n];
    if i == n {
      NothingLeft(parse, cut);
    } else {
      assert cut[i] == data[i];
      if data[i] == 'i' {
        IntCut(parse, data, i, n);
      } else if data[i] == 'l' {
        ListCut(parse, data, i + 1, [], n);
      } else if data[i] == 'd' {
        DictCut(parse, data, i + 1, [], n);
      } else {
        TextCut(parse, data, i, n);
      }
    }
  }

  lemma {:induction false} ListCut(parse: Conversion, data: Bytes, i: nat, out: seq<Value>, n: nat)
    requires i <= n <= |data|
    ensures Cut(DecodeList(parse, data, i, out), DecodeList(parse, data[..n], i, out))
    decreases |data| - i, 2
  {
    if i < n && data[i] != 'e' {
      assert data[..n][i] == data[i];
      ValueCut(parse, data, i, n);
      match DecodeAt(parse, data[..n], i)
      case Ok(value, next) => ListCut(parse, data, next, out + [value], n);
      case Err(_) =>
    }
  }

  lemma {:induction false} EntryCut(parse: Conversion, data: Bytes, i: nat, n: nat)
    requires i <= n <= |data|
    ensures Cut(DecodeEntry(parse, data, i), DecodeEntry(parse, data[..n], i))
    decreases |data| - i, 2
  {
    ValueCut(parse, data, i, n);
    match DecodeAt(parse, data[..n], i)
    case Ok(_, afterKey) => ValueCut(parse, data, afterKey, n);
    case Err(_) =>
  }

  lemma {:induction false} DictCut(parse: Conversion, data: Bytes, i: nat, out: seq<Entry>, n: nat)
    requires i <= n <= |data|
    ensures Cut(DecodeDict(parse, data, i, out), DecodeDict(parse, data[..n], i, out))
    decreases |data| - i, 3
  {
    if i < n && data[i] != 'e' {
      assert data[..n][i] == data[i];
      EntryCut(parse, data, i, n);
      match DecodeEntry(parse, data[..n], i)
      case Ok(entry, next) => DictCut(parse, data, next, Put(out, entry.key, entry.value), n);
      case Err(_) =>
    }
  }

  /** A document cut short anywhere, or with anything behind its end, is refused, be it written by `bencode`
      or not, as long as the parser moves forward on it. */
  lemma WrongEndRefused(data: Bytes, v: Value, n: nat, more: Bytes, calls: nat)
    requires DecodeAt(ParseInt, data, 0) == Ok(v, |data|) && calls >= Need(data + more, 0)
    ensures n < |data| ==> Bdecode(data[..n], calls) == Some(Raised(ValueError))
    ensures Bdecode(data + more, calls) == if more == [] then Some(Parsed(v, |data|)) else Some(Raised(ValueError))
  {
    if n < |data| {
      ValueCut(ParseInt, data, 0, n);
      AtAgrees(ParseInt, data[..n], 0, calls);
    }
    var longer := data + more;
    assert longer[..|data|] == data;
    LongerReads(longer, |data|, v);
    AtAgrees(ParseInt, longer, 0, calls);
  }

  /** What stands behind a value does not change how it is read. */
  lemma LongerReads(longer: Bytes, n: nat, v: Value)
    requires n <= |longer| && DecodeAt(ParseInt, longer[..n], 0) == Ok(v, n)
    ensures DecodeAt(ParseInt, longer, 0) == Ok(v, n)
  {
    ValueCut(ParseInt, longer, 0, n);
  }
}
