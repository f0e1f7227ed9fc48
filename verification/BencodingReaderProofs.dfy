/** When the parser of BencodingReader.dfy returns, and with what. */
module BencodingReaderProofs {
  import opened Options
  import opened Bencoding
  import opened BencodingProofs
  import opened BencodingReader

  // ----- moving forward, the two parsers agree

  function Lift<T>(d: Decoded<T>): Parsed<T> {
    match d
    case Ok(value, next) => Parsed(value, next)
    case Err(reason) => Raised(reason)
  }

  lemma SliceForward(data: Bytes, a: nat, b: nat)
    requires a <= b <= |data|
    ensures Slice(data, a, b) == data[a..b]
  {
  }

  lemma KindAt(data: Bytes, i: nat)
    ensures Slice(data, i, i + 1) == if i < |data| then [data[i]] else []
  {
  }

  lemma IntAgrees(parse: Conversion, data: Bytes, i: nat)
    requires i < |data| && data[i] == 'i'
    ensures ReadInt(parse, data, i) == Lift(DecodeInt(parse, data, i))
  {
    var end := Find(data, 'e', i);
    if end.Some? {
      SliceForward(data, i + 1, end.value);
    }
  }

  lemma TextAgrees(parse: Conversion, data: Bytes, i: nat)
    requires DecodeText(parse, data, i) != Err(NoProgress)
    ensures ReadText(parse, data, i) == Lift(DecodeText(parse, data, i))
  {
    var colon := Find(data, ':', i);
    if colon.Some? {
      SliceForward(data, i, colon.value);
      var length := parse(data[i..colon.value]);
      if length.Some? {
        var end := colon.value + 1 + length.value;
        if colon.value + 1 <= end <= |data| {
          SliceForward(data, colon.value + 1, end);
        }
      }
    }
  }

  /** Calls and rounds that suffice from an offset on. */
  function Need(data: Bytes, i: nat): nat {
    if i < |data| then 2 * (|data| - i) + 1 else 1
  }

  /** The reader returns what the forward parser says, unless that makes no progress. */
  ghost predicate Agrees<T>(read: Option<Parsed<T>>, decoded: Decoded<T>) {
    decoded != Err(NoProgress) ==> read == Some(Lift(decoded))
  }

  lemma {:induction false} AtAgrees(parse: Conversion, data: Bytes, i: nat, calls: nat)
    requires calls >= Need(data, i)
    ensures Agrees(ReadAt(parse, data, i, calls), DecodeAt(parse, data, i))
    decreases |data| - i, 1
  {
    KindAt(data, i);
    if i < |data| && data[i] == 'i' {
      IntAgrees(parse, data, i);
    } else if i < |data| && data[i] == 'l' {
      ListAgrees(parse, data, i + 1, [], calls - 1);
    } else if i < |data| && data[i] == 'd' {
      DictAgrees(parse, data, i + 1, [], calls - 1);
    } else if DecodeText(parse, data, i) != Err(NoProgress) {
      TextAgrees(parse, data, i);
    }
  }

  /** One round of the loop over a list. */
  lemma ListRound(parse: Conversion, data: Bytes, i: nat, out: seq<Value>, calls: nat)
    requires calls > 0 && i < |data| && data[i] != 'e'
    ensures var item := DecodeAt(parse, data, i);
      && Agrees(ReadAt(parse, data, i, calls - 1), item)
      && (item.Ok? ==> Agrees(ReadList(parse, data, item.next, out + [item.value], calls - 1),
                              DecodeList(parse, data, item.next, out + [item.value])))
      ==> Agrees(ReadList(parse, data, i, out, calls), DecodeList(parse, data, i, out))
  {
    KindAt(data, i);
  }

  lemma {:induction false} ListAgrees(parse: Conversion, data: Bytes, i: nat, out: seq<Value>, calls: nat)
    requires calls >= Need(data, i) + 1
    ensures Agrees(ReadList(parse, data, i, out, calls), DecodeList(parse, data, i, out))
    decreases |data| - i, 2
  {
    if i >= |data| || data[i] == 'e' {
      KindAt(data, i);
    } else {
      AtAgrees(parse, data, i, calls - 1);
      var item := DecodeAt(parse, data, i);
      if item.Ok? {
        ListAgrees(parse, data, item.next, out + [item.value], calls - 1);
      }
      ListRound(parse, data, i, out, calls);
    }
  }

  lemma {:induction false} EntryAgrees(parse: Conversion, data: Bytes, i: nat, calls: nat)
    requires calls >= Need(data, i)
    ensures Agrees(ReadEntry(parse, data, i, calls), DecodeEntry(parse, data, i))
    decreases |data| - i, 2
  {
    AtAgrees(parse, data, i, calls);
    var key := DecodeAt(parse, data, i);
    if key.Ok? {
      AtAgrees(parse, data, key.next, calls);
    }
  }

  /** One round of the loop over a dictionary. */
  lemma DictRound(parse: Conversion, data: Bytes, i: nat, out: seq<Entry>, calls: nat)
    requires calls > 0 && i < |data| && data[i] != 'e'
    ensures var item := DecodeEntry(parse, data, i);
      && Agrees(ReadEntry(parse, data, i, calls - 1), item)
      && (item.Ok? ==> Agrees(ReadDict(parse, data, item.next, Put(out, item.value.key, item.value.value), calls - 1),
                              DecodeDict(parse, data, item.next, Put(out, item.value.key, item.value.value))))
      ==> Agrees(ReadDict(parse, data, i, out, calls), DecodeDict(parse, data, i, out))
  {
    KindAt(data, i);
  }

  lemma {:induction false} DictAgrees(parse: Conversion, data: Bytes, i: nat, out: seq<Entry>, calls: nat)
    requires calls >= Need(data, i) + 1
    ensures Agrees(ReadDict(parse, data, i, out, calls), DecodeDict(parse, data, i, out))
    decreases |data| - i, 3
  {
    if i >= |data| || data[i] == 'e' {
      KindAt(data, i);
    } else {
      EntryAgrees(parse, data, i, calls - 1);
      var item := DecodeEntry(parse, data, i);
      if item.Ok? {
        DictAgrees(parse, data, item.next, Put(out, item.value.key, item.value.value), calls - 1);
      }
      DictRound(parse, data, i, out, calls);
    }
  }

  // ----- which strings it reads

  /** The offsets at which the parser, started at `i`, begins to read a string. */
  function TextsAt(parse: Conversion, data: Bytes, i: nat): seq<nat>
    decreases |data| - i, 1
  {
    if i < |data| && data[i] == 'i' then []
    else if i < |data| && data[i] == 'l' then TextsInList(parse, data, i + 1)
    else if i < |data| && data[i] == 'd' then TextsInDict(parse, data, i + 1)
    else [i]
  }

  function TextsInList(parse: Conversion, data: Bytes, i: nat): seq<nat>
    decreases |data| - i, 2
  {
    if i >= |data| || data[i] == 'e' then []
    else
      TextsAt(parse, data, i) +
      match DecodeAt(parse, data, i)
      case Ok(_, next) => TextsInList(parse, data, next)
      case Err(_) => []
  }

  function TextsInEntry(parse: Conversion, data: Bytes, i: nat): seq<nat>
    decreases |data| - i, 2
  {
    TextsAt(parse, data, i) +
    match DecodeAt(parse, data, i)
    case Ok(_, afterKey) => TextsAt(parse, data, afterKey)
    case Err(_) => []
  }

  function TextsInDict(parse: Conversion, data: Bytes, i: nat): seq<nat>
    decreases |data| - i, 3
  {
    if i >= |data| || data[i] == 'e' then []
    else
      TextsInEntry(parse, data, i) +
      match DecodeEntry(parse, data, i)
      case Ok(_, next) => TextsInDict(parse, data, next)
      case Err(_) => []
  }

  /** The length written at the start of a string, if there is one. */
  function LengthAt(parse: Conversion, data: Bytes, i: nat): Option<int> {
    var colon := Find(data, ':', i);
    if colon.None? then None else parse(data[i..colon.value])
  }

  /** The string at `i` ends at or before its own start. */
  predicate Retreats(parse: Conversion, data: Bytes, i: nat) {
    var colon, length := Find(data, ':', i), LengthAt(parse, data, i);
    colon.Some? && length.Some? && colon.value + 1 + length.value <= i
  }

  lemma RetreatStops(parse: Conversion, data: Bytes, i: nat)
    ensures DecodeText(parse, data, i) == Err(NoProgress) <==> Retreats(parse, data, i)
  {
  }

  lemma NonNegativeAdvances(parse: Conversion, data: Bytes, i: nat)
    requires LengthAt(parse, data, i).None? || LengthAt(parse, data, i).value >= 0
    ensures !Retreats(parse, data, i)
  {
  }

  ghost predicate SomeRetreats(parse: Conversion, data: Bytes, texts: seq<nat>) {
    exists k :: 0 <= k < |texts| && Retreats(parse, data, texts[k])
  }

  lemma RetreatsJoin(parse: Conversion, data: Bytes, a: seq<nat>, b: seq<nat>)
    ensures SomeRetreats(parse, data, a + b) <==> SomeRetreats(parse, data, a) || SomeRetreats(parse, data, b)
  {
    var all := a + b;
    if SomeRetreats(parse, data, all) {
      var k :| 0 <= k < |all| && Retreats(parse, data, all[k]);
      if k < |a| {
        assert Retreats(parse, data, a[k]);
      } else {
        assert Retreats(parse, data, b[k - |a|]);
      }
    }
    if SomeRetreats(parse, data, a) {
      var k :| 0 <= k < |a| && Retreats(parse, data, a[k]);
      assert Retreats(parse, data, all[k]);
    }
    if SomeRetreats(parse, data, b) {
      var k :| 0 <= k < |b| && Retreats(parse, data, b[k]);
      assert Retreats(parse, data, all[|a| + k]);
    }
  }

  /** The parser stops moving forward exactly at a string it reads that ends at or before its start. */
  lemma {:induction false} NoProgressExactly(parse: Conversion, data: Bytes, i: nat)
    ensures DecodeAt(parse, data, i) == Err(NoProgress) <==> SomeRetreats(parse, data, TextsAt(parse, data, i))
    decreases |data| - i, 1
  {
    if i < |data| && data[i] == 'i' {
    } else if i < |data| && data[i] == 'l' {
      ListNoProgress(parse, data, i + 1, []);
    } else if i < |data| && data[i] == 'd' {
      DictNoProgress(parse, data, i + 1, []);
    } else {
      assert TextsAt(parse, data, i)[0] == i;
      RetreatStops(parse, data, i);
    }
  }

  lemma {:induction false} ListNoProgress(parse: Conversion, data: Bytes, i: nat, out: seq<Value>)
    ensures DecodeList(parse, data, i, out) == Err(NoProgress) <==> SomeRetreats(parse, data, TextsInList(parse, data, i))
    decreases |data| - i, 2
  {
    if i < |data| && data[i] != 'e' {
      NoProgressExactly(parse, data, i);
      match DecodeAt(parse, data, i)
      case Ok(value, next) =>
        ListNoProgress(parse, data, next, out + [value]);
        RetreatsJoin(parse, data, TextsAt(parse, data, i), TextsInList(parse, data, next));
      case Err(_) => RetreatsJoin(parse, data, TextsAt(parse, data, i), []);
    }
  }

  lemma {:induction false} EntryNoProgress(parse: Conversion, data: Bytes, i: nat)
    ensures DecodeEntry(parse, data, i) == Err(NoProgress) <==> SomeRetreats(parse, data, TextsInEntry(parse, data, i))
    decreases |data| - i, 2
  {
    NoProgressExactly(parse, data, i);
    match DecodeAt(parse, data, i)
    case Ok(_, afterKey) =>
      NoProgressExactly(parse, data, afterKey);
      RetreatsJoin(parse, data, TextsAt(parse, data, i), TextsAt(parse, data, afterKey));
    case Err(_) => RetreatsJoin(parse, data, TextsAt(parse, data, i), []);
  }

  lemma {:induction false} DictNoProgress(parse: Conversion, data: Bytes, i: nat, out: seq<Entry>)
    ensures DecodeDict(parse, data, i, out) == Err(NoProgress) <==> SomeRetreats(parse, data, TextsInDict(parse, data, i))
    decreases |data| - i, 3
  {
    if i < |data| && data[i] != 'e' {
      EntryNoProgress(parse, data, i);
      match DecodeEntry(parse, data, i)
      case Ok(entry, next) =>
        DictNoProgress(parse, data, next, Put(out, entry.key, entry.value));
        RetreatsJoin(parse, data, TextsInEntry(parse, data, i), TextsInDict(parse, data, next));
      case Err(_) => RetreatsJoin(parse, data, TextsInEntry(parse, data, i), []);
    }
  }

  // ----- when it returns

  /** No string that the parser reads has a negative length. */
  ghost predicate NonNegativeLengths(parse: Conversion, data: Bytes, i: nat) {
    var texts := TextsAt(parse, data, i);
    forall k :: 0 <= k < |texts| ==>
      LengthAt(parse, data, texts[k]).None? || LengthAt(parse, data, texts[k]).value >= 0
  }

  /** If none retreats, the parser returns within a bound on calls and rounds, with what the forward parser says. */
  lemma ParserReturns(parse: Conversion, data: Bytes, i: nat, calls: nat)
    requires !SomeRetreats(parse, data, TextsAt(parse, data, i)) && calls >= Need(data, i)
    ensures ReadAt(parse, data, i, calls) == Some(Lift(DecodeAt(parse, data, i)))
  {
    NoProgressExactly(parse, data, i);
    AtAgrees(parse, data, i, calls);
  }

  /** In particular on every document in which the strings it reads have no negative length. */
  lemma ParserProgresses(parse: Conversion, data: Bytes, i: nat, calls: nat)
    requires NonNegativeLengths(parse, data, i) && calls >= Need(data, i)
    ensures DecodeAt(parse, data, i) != Err(NoProgress)
    ensures ReadAt(parse, data, i, calls) == Some(Lift(DecodeAt(parse, data, i)))
  {
    var texts := TextsAt(parse, data, i);
    forall k | 0 <= k < |texts|
      ensures !Retreats(parse, data, texts[k])
    {
      NonNegativeAdvances(parse, data, texts[k]);
    }
    NoProgressExactly(parse, data, i);
    ParserReturns(parse, data, i, calls);
  }

  /** Wherever an encoding stands, the source's parser returns its value and the offset behind it. */
  lemma ReadEncoding(data: Bytes, i: nat, v: Value, calls: nat)
    requires WellFormed(v) && Encodable(v) && Holds(data, i, Encode(v)) && calls >= Need(data, i)
    ensures ReadAt(ParseInt, data, i, calls) == Some(Parsed(Canon(v), i + |Encode(v)|))
  {
    DecodeEncodeInt(data, i, v);
    ReadsDecoded(ParseInt, data, i, calls, Canon(v), i + |Encode(v)|);
  }

  lemma ReadsDecoded(parse: Conversion, data: Bytes, i: nat, calls: nat, v: Value, next: nat)
    requires calls >= Need(data, i)
    ensures DecodeAt(parse, data, i) == Ok(v, next) ==> ReadAt(parse, data, i, calls) == Some(Parsed(v, next))
  {
    AtAgrees(parse, data, i, calls);
  }

  /** `bdecode` inverts `bencode` */
  lemma BdecodeBencode(v: Value, calls: nat)
    requires WellFormed(v) && Encodable(v) && calls >= 2 * |Encode(v)| + 1
    ensures Bencode(v) == Document(Encode(v))
    ensures Bdecode(Encode(v), calls) == Some(Parsed(Canon(v), |Encode(v)|))
  {
    assert Encode(v)[0..0 + |Encode(v)|] == Encode(v);
    ReadEncoding(Encode(v), 0, v, calls);
  }

  // ----- negative offsets

  /** A negative offset counts from the end: it reads what the same place reads from the front, but for
      the last byte, which no slice of one byte at offset -1 contains. */
  lemma NegativeOffsets(parse: Conversion, data: Bytes, i: nat)
    requires i < |data|
    ensures i + 1 < |data| ==> Slice(data, i - |data|, i - |data| + 1) == [data[i]]
    ensures i + 1 < |data| ==> ReadInt(parse, data, i - |data|) == ReadInt(parse, data, i)
    ensures ReadText(parse, data, i - |data|) == ReadText(parse, data, i)
    ensures Slice(data, -1, 0) == []
  {
    assert FindFrom(data, ':', i - |data|) == Find(data, ':', i) && FindFrom(data, 'e', i - |data|) == Find(data, 'e', i);
  }

  // ----- going back

  lemma OneDigit(c: Byte)
    requires IsDigit(c)
    ensures ParseInt([c]) == Some(DigitOf(c)) && ParseInt(['-', c]) == Some(-(DigitOf(c) as int))
  {
    assert [c][..0] == [] && Numeral([c]) == Some(DigitOf(c));
    assert Strip([c]) == [c] && Strip(['-', c]) == ['-', c];
    assert ['-', c][1..] == [c];
  }

  const LOOPING: Bytes := ['l', '-', '3', ':', 'e']

  lemma LoopingText()
    ensures Slice(LOOPING, 1, 2) == ['-'] && ReadText(ParseInt, LOOPING, 1) == Parsed(Text([]), 1)
  {
    assert Find(LOOPING, ':', 1) == Some(3);
    assert Slice(LOOPING, 1, 3) == ['-', '3'];
    OneDigit('3');
  }

  lemma {:induction false} LoopingList(out: seq<Value>, calls: nat)
    ensures ReadList(ParseInt, LOOPING, 1, out, calls) == None
    decreases calls
  {
    if calls > 0 {
      LoopingText();
      LoopingList(out + [Text([])], calls - 1);
    }
  }

  /** On `l-3:e` the length brings the parser back to the string it has just read, and it never returns. */
  lemma NegativeLengthRepeats(calls: nat)
    ensures Bdecode(LOOPING, calls) == None
  {
    if calls > 0 {
      assert Slice(LOOPING, 0, 1) == ['l'];
      LoopingList([], calls - 1);
    }
  }

  const RETURNING: Bytes := ['l', 'i', '5', 'e', '-', '4', ':']

  lemma ReturningItems()
    ensures ReadInt(ParseInt, RETURNING, 1) == Parsed(Int(5), 4)
    ensures ReadText(ParseInt, RETURNING, 4) == Parsed(Text([]), 3)
  {
    assert Find(RETURNING, 'e', 1) == Some(3);
    assert Slice(RETURNING, 2, 3) == ['5'];
    OneDigit('5');
    assert Find(RETURNING, ':', 4) == Some(6);
    assert Slice(RETURNING, 4, 6) == ['-', '4'];
    OneDigit('4');
  }

  lemma ReturningList(calls: nat)
    requires calls >= 4
    ensures ReadList(ParseInt, RETURNING, 1, [], calls) == Some(Parsed([Int(5), Text([])], 4))
  {
    ReturningItems();
    assert Slice(RETURNING, 1, 2) == ['i'] && Slice(RETURNING, 4, 5) == ['-'] && Slice(RETURNING, 3, 4) == ['e'];
    assert ReadAt(ParseInt, RETURNING, 1, calls - 1) == Some(Parsed(Int(5), 4));
    assert ReadAt(ParseInt, RETURNING, 4, calls - 2) == Some(Parsed(Text([]), 3));
    assert [] + [Int(5)] == [Int(5)] && [Int(5)] + [Text([])] == [Int(5), Text([])];
    assert ReadList(ParseInt, RETURNING, 3, [Int(5), Text([])], calls - 2) == Some(Parsed([Int(5), Text([])], 4));
    assert ReadList(ParseInt, RETURNING, 4, [Int(5)], calls - 1) == Some(Parsed([Int(5), Text([])], 4));
  }

  /** Going back need not repeat: on `li5e-4:` the parser returns, short of the end of the document. */
  lemma NegativeLengthMayReturn(calls: nat)
    requires calls >= 5
    ensures ReadAt(ParseInt, RETURNING, 0, calls) == Some(Parsed(List([Int(5), Text([])]), 4))
    ensures Bdecode(RETURNING, calls) == Some(Raised(ValueError))
  {
    assert Slice(RETURNING, 0, 1) == ['l'];
    ReturningList(calls - 1);
  }

  /** A colon inside a string is not the end of a length: `3:-1:` reads one string, of length three. */
  lemma InnerColonIsHarmless()
    ensures NonNegativeLengths(ParseInt, EncodeText(['-', '1', ':']), 0)
  {
    var b: Bytes := ['-', '1', ':'];
    var data := EncodeText(b);
    assert Decimal(3) == ['3'] && data == ['3', ':', '-', '1', ':'];
    OneDigit('3');
    assert Find(data, ':', 0) == Some(1) && data[0..1] == ['3'];
    assert data[0] == '3' && TextsAt(ParseInt, data, 0) == [0];
  }
}
