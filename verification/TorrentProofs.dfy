/** Which texts contain the info key's bytes, how a metainfo file is laid out, and what is read back from
    it beside the identity, which is in TorrentIdentity.dfy. */
module TorrentProofs {
  import opened Options
  import opened Bencoding
  import opened BencodingProofs
  import opened BencodingIdentity
  import opened Torrent

  // ----- occurrences of the pattern

  ghost predicate Occurs(data: Bytes) {
    exists s: nat :: Holds(data, s, INFO_PATTERN)
  }

  /** A text whose encoding contains the pattern: it does itself, or it begins with `info` and the
      last digit of its length is 4. */
  predicate Imitates(text: Bytes) {
    FindPattern(text, INFO_PATTERN, 0).Some? || (|text| % 10 == 4 && Holds(text, 0, INFO))
  }

  lemma PatternAt(data: Bytes, s: nat)
    requires s + 6 <= |data|
    ensures Holds(data, s, INFO_PATTERN) <==>
            data[s] == '4' && data[s + 1] == ':' && data[s + 2] == 'i' && data[s + 3] == 'n' && data[s + 4] == 'f' && data[s + 5] == 'o'
  {
    var slice := data[s..s + 6];
    assert slice == [data[s], data[s + 1], data[s + 2], data[s + 3], data[s + 4], data[s + 5]];
    assert INFO_PATTERN == ['4', ':', 'i', 'n', 'f', 'o'];
  }

  /** Characters that can stand in the pattern only at its beginning, or nowhere. */
  predicate Opens(c: Byte) {
    c != ':' && c != 'i' && c != 'n' && c != 'f' && c != 'o'
  }

  /** An occurrence does not straddle a seam whose right side opens with another character. */
  lemma OccursJoin(a: Bytes, b: Bytes)
    requires b != [] && Opens(b[0])
    ensures Occurs(a + b) <==> Occurs(a) || Occurs(b)
  {
    if Occurs(a + b) {
      var s: nat :| Holds(a + b, s, INFO_PATTERN);
      OccursSide(a, b, s);
    }
    if Occurs(a) {
      var s: nat :| Holds(a, s, INFO_PATTERN);
      assert (a + b)[s..s + 6] == a[s..s + 6];
      assert Holds(a + b, s, INFO_PATTERN);
    }
    if Occurs(b) {
      var s: nat :| Holds(b, s, INFO_PATTERN);
      assert (a + b)[|a| + s..|a| + s + 6] == b[s..s + 6];
      assert Holds(a + b, |a| + s, INFO_PATTERN);
    }
  }

  lemma OccursSide(a: Bytes, b: Bytes, s: nat)
    requires b != [] && Opens(b[0]) && Holds(a + b, s, INFO_PATTERN)
    ensures if s < |a| then Holds(a, s, INFO_PATTERN) else Holds(b, s - |a|, INFO_PATTERN)
  {
    PatternAt(a + b, s);
    if s < |a| {
      if s + 6 > |a| {
        assert false;
      }
      assert (a + b)[s..s + 6] == a[s..s + 6];
    } else {
      assert (a + b)[s..s + 6] == b[s - |a|..s - |a| + 6];
    }
  }

  lemma NoColonNoPattern(data: Bytes)
    requires ':' !in data
    ensures !Occurs(data)
  {
    if Occurs(data) {
      var s: nat :| Holds(data, s, INFO_PATTERN);
      PatternAt(data, s);
    }
  }

  lemma {:induction false} LastDigit(n: nat)
    ensures Decimal(n)[|Decimal(n)| - 1] == Digit(n % 10)
  {
  }

  lemma InnerOccurs(text: Bytes, k: nat)
    requires Holds(text, k, INFO_PATTERN)
    ensures Occurs(EncodeText(text))
  {
    var digits, data := Decimal(|text|), EncodeText(text);
    var s := |digits| + 1 + k;
    assert data[s..s + 6] == text[k..k + 6];
    assert Holds(data, s, INFO_PATTERN);
  }

  lemma TextAt(text: Bytes, j: nat)
    requires j < |text|
    ensures |EncodeText(text)| == |Decimal(|text|)| + 1 + |text|
    ensures EncodeText(text)[|Decimal(|text|)|] == ':' && EncodeText(text)[|Decimal(|text|)| + 1 + j] == text[j]
  {
  }

  lemma SeamOccurs(text: Bytes)
    requires |text| >= 4 && |text| % 10 == 4 && text[0] == 'i' && text[1] == 'n' && text[2] == 'f' && text[3] == 'o'
    ensures Occurs(EncodeText(text))
  {
    var digits, data := Decimal(|text|), EncodeText(text);
    LastDigit(|text|);
    NaturalHolds(|text|);
    assert data[|digits| - 1] == digits[|digits| - 1];
    TextAt(text, 0);
    TextAt(text, 1);
    TextAt(text, 2);
    TextAt(text, 3);
    PatternAt(data, |digits| - 1);
    assert Holds(data, |digits| - 1, INFO_PATTERN);
  }

  lemma ImitatorOccurs(text: Bytes)
    requires Imitates(text)
    ensures Occurs(EncodeText(text))
  {
    var found := FindPattern(text, INFO_PATTERN, 0);
    if found.Some? {
      InnerOccurs(text, found.value);
    } else {
      assert text[..4] == INFO;
      assert text[0] == text[..4][0] && text[1] == text[..4][1] && text[2] == text[..4][2] && text[3] == text[..4][3];
      SeamOccurs(text);
    }
  }

  lemma TextImitates(text: Bytes, s: nat)
    requires Holds(EncodeText(text), s, INFO_PATTERN)
    ensures Imitates(text)
  {
    var digits, data := Decimal(|text|), EncodeText(text);
    NaturalHolds(|text|);
    LastDigit(|text|);
    PatternAt(data, s);
    if s + 1 < |digits| {
      assert false;
    } else if s + 1 == |digits| {
      assert data[s] == digits[s];
      assert text[..4] == [text[0], text[1], text[2], text[3]];
      assert text[..4] == [data[s + 2], data[s + 3], data[s + 4], data[s + 5]];
    } else {
      var t := s - |digits| - 1;
      assert data[s..s + 6] == text[t..t + 6];
      assert Holds(text, t, INFO_PATTERN);
    }
  }

  /** The encoding of a text contains the pattern exactly when the text imitates it. */
  lemma OccursInText(text: Bytes)
    ensures Occurs(EncodeText(text)) <==> Imitates(text)
    ensures EncodeText(text) != [] && IsDigit(EncodeText(text)[0])
  {
    NaturalHolds(|text|);
    if Occurs(EncodeText(text)) {
      var s: nat :| Holds(EncodeText(text), s, INFO_PATTERN);
      TextImitates(text, s);
    }
    if Imitates(text) {
      ImitatorOccurs(text);
    }
  }

  // ----- nested lists of texts

  ghost predicate Plain(v: Value) {
    match v
    case Text(_) => true
    case List(items) => forall i :: 0 <= i < |items| ==> Plain(items[i])
    case _ => false
  }

  lemma {:induction false} PlainEncodable(v: Value)
    requires Plain(v)
    ensures Encodable(v) && WellFormed(v)
  {
    if v.List? {
      forall i | 0 <= i < |v.items|
        ensures Encodable(v.items[i]) && WellFormed(v.items[i])
      {
        PlainEncodable(v.items[i]);
      }
    }
  }

  // ----- dictionary entries

  lemma NotImitating(text: Bytes)
    requires ':' !in text && (|text| >= 4 ==> text[0] != 'i')
    ensures !Imitates(text)
  {
    var found := FindPattern(text, INFO_PATTERN, 0);
    if found.Some? {
      PatternAt(text, found.value);
    }
  }

  lemma OneColon(rest: Bytes)
    requires ':' !in rest
    ensures !Occurs(['1', '3', ':'] + rest)
  {
    var data: Bytes := ['1', '3', ':'] + rest;
    if Occurs(data) {
      var s: nat :| Holds(data, s, INFO_PATTERN);
      PatternAt(data, s);
    }
  }

  lemma DateDigits(n: int)
    ensures ':' !in EncodeInt(n)
  {
    DecimalHolds(if n < 0 then -n else n);
  }

  /** The date entry holds one colon, behind the digit 3. */
  lemma DateHarmless(p: Publication)
    ensures !Occurs(EncodeEntry(DateEntry(p)))
  {
    var key := CREATION_DATE;
    assert Decimal(1) == ['1'] && Decimal(13) == ['1', '3'];
    var rest := key + EncodeInt(p.creationDate);
    DateDigits(p.creationDate);
    OneColon(rest);
    assert EncodeEntry(DateEntry(p)) == ['1', '3', ':'] + rest;
  }

  // ----- the sorted metainfo

  lemma AnnounceOrder()
    ensures LexLess(ANNOUNCE, ANNOUNCE_LIST) && LexLess(ANNOUNCE_LIST, COMMENT)
  {
    Lex(ANNOUNCE, ANNOUNCE_LIST, 8);
    Lex(ANNOUNCE_LIST, COMMENT, 0);
  }

  lemma CreationOrder()
    ensures LexLess(COMMENT, CREATOR) && LexLess(CREATOR, CREATION_DATE)
  {
    Lex(COMMENT, CREATOR, 1);
    Lex(CREATOR, CREATION_DATE, 5);
  }

  lemma InfoOrder()
    ensures LexLess(CREATION_DATE, INFO) && LexLess(INFO, URL_LIST)
  {
    Lex(CREATION_DATE, INFO, 0);
    Lex(INFO, URL_LIST, 0);
  }

  ghost predicate Chained(entries: seq<Entry>) {
    forall i :: 0 <= i < |entries| - 1 ==> KeyLess(entries[i].key, entries[i + 1].key)
  }

  lemma {:induction false} ChainedIncreasing(entries: seq<Entry>, i: nat, j: nat)
    requires Chained(entries) && i < j < |entries|
    ensures KeyLess(entries[i].key, entries[j].key)
    decreases j
  {
    if i < j - 1 {
      ChainedIncreasing(entries, i, j - 1);
      KeyTransitive(entries[i].key, entries[j - 1].key, entries[j].key);
    }
  }

  /** An increasing arrangement of distinct entries is what sorting yields. */
  lemma SortedIs(entries: seq<Entry>, sorted: seq<Entry>)
    requires Distinct(entries) && Chained(sorted) && forall entry :: entry in entries <==> entry in sorted
    ensures SortByKey(entries) == sorted
  {
    var s := SortByKey(entries);
    SortHolds(entries);
    SortIncreasing(entries);
    forall i, j | 0 <= i < j < |sorted|
      ensures KeyLess(sorted[i].key, sorted[j].key)
    {
      ChainedIncreasing(sorted, i, j);
    }
    assert KeysWithin(s, sorted) by {
      assert forall k :: 0 <= k < |s| ==> s[k] in sorted;
    }
    assert KeysWithin(sorted, s) by {
      assert forall k :: 0 <= k < |sorted| ==> sorted[k] in s;
    }
    SameLength(s, sorted);
    forall k | 0 <= k < |s|
      ensures s[k] == sorted[k]
    {
      SameKeysAligned(s, sorted, k);
      assert s[k] in sorted;
      var m :| 0 <= m < |sorted| && sorted[m] == s[k];
      KeyTotal(sorted[k].key, sorted[m].key);
    }
  }

  /** The entries that precede the info key in the file. */
  ghost function Front(p: Publication): seq<Entry>
    requires HasTracker(p)
  {
    [AnnounceEntry(p), TiersEntry(p)] + CommentEntries(p) + [CreatorEntry(), DateEntry(p)]
  }

  lemma KeysDiffer()
    ensures |ANNOUNCE| == 8 && |ANNOUNCE_LIST| == 13 && |COMMENT| == 7 && |CREATOR| == 10
    ensures |CREATION_DATE| == 13 && |INFO| == 4 && |URL_LIST| == 8
    ensures ANNOUNCE[0] != URL_LIST[0] && ANNOUNCE_LIST[0] != CREATION_DATE[0]
  {
  }

  lemma MetainfoDistinct(p: Publication, info: Info)
    requires HasTracker(p)
    ensures Distinct(BuildMetainfo(p, info).value.entries)
  {
    KeysDiffer();
  }

  lemma ChainFive(a: Entry, t: Entry, c: seq<Entry>, r: Entry, d: Entry, i: Entry, w: seq<Entry>)
    requires |c| <= 1 && |w| <= 1 && KeyLess(a.key, t.key) && KeyLess(t.key, r.key) && KeyLess(r.key, d.key) && KeyLess(d.key, i.key)
    requires c != [] ==> KeyLess(t.key, c[0].key) && KeyLess(c[0].key, r.key)
    requires w != [] ==> KeyLess(i.key, w[0].key)
    ensures Chained([a, t] + c + [r, d] + [i] + w)
  {
  }

  lemma FrontChained(p: Publication, info: Info)
    requires HasTracker(p)
    ensures Chained(Front(p) + [InfoEntry(info)] + WebseedEntries(p))
  {
    AnnounceOrder();
    CreationOrder();
    InfoOrder();
    LexTransitive(ANNOUNCE_LIST, COMMENT, CREATOR);
    ChainFive(AnnounceEntry(p), TiersEntry(p), CommentEntries(p), CreatorEntry(), DateEntry(p), InfoEntry(info), WebseedEntries(p));
  }

  lemma MetainfoSorted(p: Publication, info: Info)
    requires HasTracker(p)
    ensures SortByKey(BuildMetainfo(p, info).value.entries) == Front(p) + [InfoEntry(info)] + WebseedEntries(p)
  {
    MetainfoDistinct(p, info);
    FrontChained(p, info);
    SortedIs(BuildMetainfo(p, info).value.entries, Front(p) + [InfoEntry(info)] + WebseedEntries(p));
  }

  lemma TextsPlain(urls: seq<Bytes>)
    ensures Plain(List(Texts(urls)))
  {
    var items := Texts(urls);
    forall i | 0 <= i < |items|
      ensures Plain(items[i])
    {
    }
  }

  /** A tracker URL that imitates the info key. */
  ghost predicate TrackerImitates(p: Publication) {
    SomeUrlImitates(p.tiers)
  }

  ghost predicate SomeUrlImitates(tiers: seq<seq<Bytes>>) {
    exists i :: 0 <= i < |tiers| && exists j :: 0 <= j < |tiers[i]| && Imitates(tiers[i][j])
  }

  lemma TiersPlain(p: Publication)
    ensures Plain(List(TierList(p.tiers)))
  {
    var items := TierList(p.tiers);
    forall i | 0 <= i < |items|
      ensures Plain(items[i])
    {
      TextsPlain(p.tiers[i]);
    }
  }

  lemma InfoEncodable(info: Info)
    ensures Encodable(InfoValue(info)) && WellFormed(InfoValue(info))
  {
    assert |LENGTH| == 6 && |NAME| == 4 && |PIECE_LENGTH| == 12 && |PIECES| == 6 && LENGTH[0] != PIECES[0];
  }

  lemma EntriesEncodable(entries: seq<Entry>)
    requires Distinct(entries) && forall entry :: entry in entries ==> entry.key.ByteKey?
    requires forall entry :: entry in entries ==> Encodable(entry.value) && WellFormed(entry.value)
    ensures Encodable(Dict(entries)) && WellFormed(Dict(entries))
  {
    assert forall i :: 0 <= i < |entries| ==> entries[i] in entries;
  }

  lemma EntryEncodable(p: Publication, info: Info, entry: Entry)
    requires HasTracker(p) && entry in BuildMetainfo(p, info).value.entries
    ensures entry.key.ByteKey? && Encodable(entry.value) && WellFormed(entry.value)
  {
    if entry == TiersEntry(p) {
      TiersPlain(p);
      PlainEncodable(entry.value);
    } else if entry in WebseedEntries(p) {
      TextsPlain(p.webseeds);
      PlainEncodable(entry.value);
    } else if entry == InfoEntry(info) {
      InfoEncodable(info);
    } else {
      assert entry.value.Text? || entry.value.Int?;
    }
  }

  lemma MetainfoEncodable(p: Publication, info: Info)
    requires HasTracker(p)
    ensures Encodable(BuildMetainfo(p, info).value) && WellFormed(BuildMetainfo(p, info).value)
  {
    MetainfoDistinct(p, info);
    forall entry | entry in BuildMetainfo(p, info).value.entries
      ensures entry.key.ByteKey? && Encodable(entry.value) && WellFormed(entry.value)
    {
      EntryEncodable(p, info, entry);
    }
    EntriesEncodable(BuildMetainfo(p, info).value.entries);
  }

  /** The published file and what is hashed of it. */
  ghost function File(p: Publication, info: Info): Bytes
    requires HasTracker(p)
  {
    MetainfoEncodable(p, info);
    Encode(BuildMetainfo(p, info).value)
  }

  ghost function Identity(info: Info): Bytes {
    InfoEncodable(info);
    Encode(InfoValue(info))
  }

  // ----- the info key in the file

  lemma {:induction false} EncodeEntriesAppend(a: seq<Entry>, b: seq<Entry>, all: seq<Entry>, whole: Value)
    requires EntriesOf(a, whole) && EntriesOf(b, whole) && EntriesOf(all, whole) && all == a + b
    ensures EncodeEntries(all, whole) == EncodeEntries(a, whole) + EncodeEntries(b, whole)
    decreases |a|
  {
    if a == [] {
      assert all == b;
    } else {
      var rest, more := a[1..], all[1..];
      assert more == rest + b;
      EncodeEntriesCons(a[0], rest, a, whole);
      EncodeEntriesCons(a[0], more, all, whole);
      EncodeEntriesAppend(rest, b, more, whole);
      Associates(EncodeEntry(a[0]), EncodeEntries(rest, whole), EncodeEntries(b, whole));
    }
  }

  lemma Associates(a: Bytes, b: Bytes, c: Bytes)
    ensures a + (b + c) == (a + b) + c
  {
  }

  lemma EncodeEntriesCons(entry: Entry, rest: seq<Entry>, all: seq<Entry>, whole: Value)
    requires EntriesOf(all, whole) && all == [entry] + rest
    ensures Encodable(entry.value) && EntriesOf(rest, whole)
    ensures EncodeEntries(all, whole) == EncodeEntry(entry) + EncodeEntries(rest, whole)
  {
    assert all[0] in all && all[0] in whole.entries && all[1..] == rest;
  }

  /** Everything before the info key. */
  ghost function Before(p: Publication, info: Info): Bytes
    requires HasTracker(p) && EntriesOf(Front(p), BuildMetainfo(p, info).value)
  {
    ['d'] + EncodeEntries(Front(p), BuildMetainfo(p, info).value)
  }

  lemma FrontOf(p: Publication, info: Info)
    requires HasTracker(p)
    ensures var meta := BuildMetainfo(p, info).value;
            EntriesOf(Front(p), meta) && EntriesOf(WebseedEntries(p), meta) && EntriesOf([InfoEntry(info)] + WebseedEntries(p), meta)
  {
    MetainfoEncodable(p, info);
  }

  lemma InfoKey()
    ensures EncodeText(INFO) == INFO_PATTERN
  {
    assert Decimal(4) == ['4'];
  }

  /** The file is what precedes the info key, the key, the info dictionary, and the rest. */
  lemma MetainfoLayout(p: Publication, info: Info)
    requires HasTracker(p)
    ensures var meta := BuildMetainfo(p, info).value;
            Encodable(meta) && Encodable(InfoValue(info)) &&
            EntriesOf(Front(p), meta) && EntriesOf(WebseedEntries(p), meta) &&
            Encode(meta) == Before(p, info) +
                            (INFO_PATTERN + Encode(InfoValue(info)) + (EncodeEntries(WebseedEntries(p), meta) + ['e']))
  {
    var meta := BuildMetainfo(p, info).value;
    MetainfoEncodable(p, info);
    InfoEncodable(info);
    FrontOf(p, info);
    MetainfoSorted(p, info);
    InfoKey();
    var tail := [InfoEntry(info)] + WebseedEntries(p);
    assert SortByKey(meta.entries) == Front(p) + tail;
    EncodeEntriesAppend(Front(p), tail, Front(p) + tail, meta);
    assert tail[1..] == WebseedEntries(p);
    assert EncodeEntries(tail, meta) ==
           INFO_PATTERN + Encode(InfoValue(info)) + EncodeEntries(WebseedEntries(p), meta);
    Reassociate(['d'], EncodeEntries(Front(p), meta), INFO_PATTERN + Encode(InfoValue(info)), EncodeEntries(WebseedEntries(p), meta), ['e']);
  }

  lemma Reassociate(a: Bytes, b: Bytes, c: Bytes, d: Bytes, e: Bytes)
    ensures a + (b + (c + d)) + e == a + b + (c + (d + e))
  {
  }

  ghost predicate CommentImitates(p: Publication) {
    p.comment.Some? && Imitates(p.comment.value)
  }

  lemma KeysHarmless()
    ensures ':' !in ANNOUNCE && ':' !in ANNOUNCE_LIST && ':' !in COMMENT && ':' !in CREATOR && ':' !in CREATED_BY
    ensures ANNOUNCE[0] != 'i' && ANNOUNCE_LIST[0] != 'i' && COMMENT[0] != 'i' && CREATOR[0] != 'i' && CREATED_BY[0] != 'i'
  {
  }

  // ----- the whole description

  lemma {:induction false} LookupAt(entries: seq<Entry>, k: nat)
    requires Distinct(entries) && k < |entries|
    ensures Lookup(entries, entries[k].key) == Some(entries[k].value)
    decreases |entries|
  {
    if k > 0 {
      LookupAt(entries[1..], k - 1);
    }
  }

  lemma {:induction false} LookupAbsent(entries: seq<Entry>, key: Key)
    requires forall i :: 0 <= i < |entries| ==> entries[i].key != key
    ensures Lookup(entries, key) == None
    decreases |entries|
  {
    if entries != [] {
      LookupAbsent(entries[1..], key);
    }
  }

  lemma {:induction false} CanonEntriesAt(entries: seq<Entry>, whole: Value, k: nat)
    requires EntriesOf(entries, whole) && k < |entries|
    ensures entries[k] in whole.entries && Encodable(entries[k].value)
    ensures CanonEntries(entries, whole)[k] == Entry(entries[k].key, Canon(entries[k].value))
    decreases |entries|
  {
    assert entries[k] in entries;
    assert entries[0] in whole.entries;
    if k > 0 {
      CanonEntriesAt(entries[1..], whole, k - 1);
    }
  }

  /** Looking a key up in the decoded dictionary gives the decoded value that was stored under it. */
  lemma LookupCanon(v: Value, entry: Entry)
    requires v.Dict? && WellFormed(v) && Encodable(v) && entry in v.entries
    ensures Encodable(entry.value) && Canon(v).Dict? && Lookup(Canon(v).entries, entry.key) == Some(Canon(entry.value))
  {
    var sorted := SortByKey(v.entries);
    SortHolds(v.entries);
    SortDistinct(v.entries);
    assert entry in sorted;
    var k :| 0 <= k < |sorted| && sorted[k] == entry;
    CanonEntriesAt(sorted, v, k);
    LookupAt(CanonEntries(sorted, v), k);
  }

  lemma LookupCanonAbsent(v: Value, key: Key)
    requires v.Dict? && WellFormed(v) && Encodable(v) && forall entry :: entry in v.entries ==> entry.key != key
    ensures Canon(v).Dict? && Lookup(Canon(v).entries, key) == None
  {
    var sorted := SortByKey(v.entries);
    SortHolds(v.entries);
    var canon := CanonEntries(sorted, v);
    forall i | 0 <= i < |canon|
      ensures canon[i].key != key
    {
      assert sorted[i] in sorted && sorted[i] in v.entries;
    }
    LookupAbsent(canon, key);
  }

  lemma {:induction false} CanonPlain(v: Value)
    requires Plain(v) && Encodable(v)
    ensures Canon(v) == v
    decreases v, 1, 0
  {
    if v.List? {
      CanonPlainItems(v.items, v);
    }
  }

  lemma {:induction false} CanonPlainItems(items: seq<Value>, whole: Value)
    requires ItemsOf(items, whole) && Plain(whole)
    ensures CanonItems(items, whole) == items
    decreases whole, 0, |items|
  {
    if items != [] {
      assert items[0] in whole.items;
      CanonPlain(items[0]);
      CanonPlainItems(items[1..], whole);
    }
  }

  lemma TextsOfCons(url: Bytes, items: seq<Value>)
    requires TextsOf(items).Some?
    ensures TextsOf([Text(url)] + items) == Some([url] + TextsOf(items).value)
  {
    assert ([Text(url)] + items)[1..] == items;
  }

  lemma {:induction false} TextsRead(urls: seq<Bytes>)
    ensures TextsOf(Texts(urls)) == Some(urls)
    decreases |urls|
  {
    if urls != [] {
      TextsRead(urls[1..]);
      TextsOfCons(urls[0], Texts(urls[1..]));
      assert [urls[0]] + urls[1..] == urls;
    }
  }

  function AllUrls(tiers: seq<seq<Bytes>>): seq<Bytes> {
    if tiers == [] then [] else tiers[0] + AllUrls(tiers[1..])
  }

  lemma {:induction false} TiersRead(tiers: seq<seq<Bytes>>)
    ensures TierTexts(TierList(tiers)) == Some(AllUrls(tiers))
    decreases |tiers|
  {
    if tiers != [] {
      assert TierList(tiers)[1..] == TierList(tiers[1..]);
      TextsRead(tiers[0]);
      TiersRead(tiers[1..]);
    }
  }

  lemma TrackersRead(p: Publication, info: Info)
    requires HasTracker(p)
    ensures var meta := BuildMetainfo(p, info).value;
            Encodable(meta) && Trackers(Canon(meta)) == Some(AllUrls(p.tiers))
  {
    var meta := BuildMetainfo(p, info).value;
    MetainfoEncodable(p, info);
    assert TiersEntry(p) in meta.entries;
    LookupCanon(meta, TiersEntry(p));
    TiersPlain(p);
    CanonPlain(TiersEntry(p).value);
    TiersRead(p.tiers);
    assert |AllUrls(p.tiers)| > 0;
  }

  /** The trackers of any metainfo, not only a published one: those of its tiers, and the first tracker
      alone where the tiers name none or are missing. */
  lemma TrackersExactly(meta: Value, tiers: seq<seq<Bytes>>)
    requires Get(meta, "announce-list") == Some(List(TierList(tiers))) || (tiers == [] && Get(meta, "announce-list") == None)
    ensures AllUrls(tiers) != [] ==> Trackers(meta) == Some(AllUrls(tiers))
    ensures AllUrls(tiers) == [] ==>
      Trackers(meta) ==
        match Get(meta, "announce")
        case Some(Text(url)) => Some([url])
        case _ => None
  {
    TiersRead(tiers);
  }

  lemma WebseedsRead(p: Publication, info: Info)
    requires HasTracker(p)
    ensures var meta := BuildMetainfo(p, info).value;
            Encodable(meta) && Webseeds(Canon(meta)) == Some(p.webseeds)
  {
    var meta := BuildMetainfo(p, info).value;
    MetainfoEncodable(p, info);
    if p.webseeds == [] {
      KeysDiffer();
      LookupCanonAbsent(meta, ByteKey(URL_LIST));
    } else {
      var entry := WebseedEntries(p)[0];
      assert entry in meta.entries;
      LookupCanon(meta, entry);
      TextsPlain(p.webseeds);
      CanonPlain(entry.value);
      TextsRead(p.webseeds);
    }
  }

  lemma MemberRead(v: Value, i: nat)
    requires v.Dict? && WellFormed(v) && Encodable(v) && i < |v.entries|
    requires v.entries[i].key.ByteKey? && (v.entries[i].value.Text? || v.entries[i].value.Int?)
    ensures Get(Canon(v), v.entries[i].key.bytes) == Some(v.entries[i].value)
  {
    LookupCanon(v, v.entries[i]);
  }

  lemma InfoMembers(info: Info)
    ensures Encodable(InfoValue(info))
    ensures var read := Canon(InfoValue(info));
      && Get(read, "length") == Some(Int(info.length)) && Get(read, "name") == Some(Text(info.name))
      && Get(read, "piece length") == Some(Int(info.pieceLength)) && Get(read, "pieces") == Some(Text(info.pieces))
  {
    InfoEncodable(info);
    MemberRead(InfoValue(info), 0);
    MemberRead(InfoValue(info), 1);
    MemberRead(InfoValue(info), 2);
    MemberRead(InfoValue(info), 3);
  }

  /** The info dictionary of the decoded file holds what the content gave. */
  lemma InfoRead(p: Publication, info: Info)
    requires HasTracker(p)
    ensures var meta := BuildMetainfo(p, info).value;
            Encodable(meta) &&
            var read := OrEmpty(Get(Canon(meta), "info"));
            && Get(read, "length") == Some(Int(info.length)) && Get(read, "name") == Some(Text(info.name))
            && Get(read, "piece length") == Some(Int(info.pieceLength)) && Get(read, "pieces") == Some(Text(info.pieces))
  {
    var meta := BuildMetainfo(p, info).value;
    MetainfoEncodable(p, info);
    assert InfoEntry(info) in meta.entries;
    LookupCanon(meta, InfoEntry(info));
    InfoMembers(info);
  }

  lemma FirstEntriesRead(meta: Value, p: Publication, info: Info)
    requires HasTracker(p) && meta == BuildMetainfo(p, info).value && WellFormed(meta) && Encodable(meta)
    ensures Get(Canon(meta), "announce") == Some(Text(p.tiers[0][0]))
    ensures Get(Canon(meta), "created by") == Some(Text("warren-release"))
    ensures Get(Canon(meta), "creation date") == Some(Int(p.creationDate))
  {
    MemberRead(meta, 0);
    MemberRead(meta, 2);
    MemberRead(meta, 3);
  }

  lemma CommentRead(meta: Value, p: Publication, info: Info)
    requires HasTracker(p) && meta == BuildMetainfo(p, info).value && WellFormed(meta) && Encodable(meta)
    ensures Get(Canon(meta), "comment") ==
      if p.comment.Some? && p.comment.value != [] then Some(Text(p.comment.value)) else None
  {
    if CommentEntries(p) != [] {
      var i := |meta.entries| - 1;
      assert meta.entries[i] == CommentEntries(p)[0];
      MemberRead(meta, i);
    } else {
      KeysDiffer();
      LookupCanonAbsent(meta, ByteKey("comment"));
    }
  }

  /** The entries beside it: the first tracker, the creator, the date, and a comment that is not empty. */
  lemma RestRead(p: Publication, info: Info)
    requires HasTracker(p)
    ensures var meta := BuildMetainfo(p, info).value;
            && Encodable(meta)
            && Get(Canon(meta), "announce") == Some(Text(p.tiers[0][0]))
            && Get(Canon(meta), "created by") == Some(Text("warren-release"))
            && Get(Canon(meta), "creation date") == Some(Int(p.creationDate))
            && Get(Canon(meta), "comment") ==
                 if p.comment.Some? && p.comment.value != [] then Some(Text(p.comment.value)) else None
  {
    MetainfoEncodable(p, info);
    FirstEntriesRead(BuildMetainfo(p, info).value, p, info);
    CommentRead(BuildMetainfo(p, info).value, p, info);
  }
}
