/** What stands in a published file byte for byte, and what its identity tells of the content. */
module TorrentFile {
  import opened Options
  import opened Bencoding
  import opened BencodingProofs
  import opened BencodingIdentity
  import opened BencodingReader
  import opened BencodingReaderProofs
  import opened Torrent
  import opened TorrentProofs

  // ----- the file

  function Field(key: Bytes, value: Bytes): Bytes {
    EncodeText(key) + value
  }

  function TextFields(texts: seq<Bytes>): seq<Bytes> {
    seq(|texts|, i requires 0 <= i < |texts| => EncodeText(texts[i]))
  }

  /** A list of texts */
  function TextList(texts: seq<Bytes>): Bytes {
    ['l'] + Joined(TextFields(texts)) + ['e']
  }

  function TierFields(tiers: seq<seq<Bytes>>): seq<Bytes> {
    seq(|tiers|, i requires 0 <= i < |tiers| => TextList(tiers[i]))
  }

  /** The info dictionary, keys in order. */
  function InfoFields(info: Info): seq<Bytes> {
    [Field("length", EncodeInt(info.length)), Field("name", EncodeText(info.name)),
     Field("piece length", EncodeInt(info.pieceLength)), Field("pieces", EncodeText(info.pieces))]
  }

  function FileFields(p: Publication, identity: Bytes): seq<Bytes>
    requires HasTracker(p)
  {
    [Field("announce", EncodeText(p.tiers[0][0])),
     Field("announce-list", ['l'] + Joined(TierFields(p.tiers)) + ['e'])] +
    (if p.comment.Some? && p.comment.value != [] then [Field("comment", EncodeText(p.comment.value))] else []) +
    [Field("created by", EncodeText("warren-release")), Field("creation date", EncodeInt(p.creationDate)),
     Field("info", identity)] +
    (if p.webseeds != [] then [Field("url-list", TextList(p.webseeds))] else [])
  }

  lemma {:induction false} ItemsJoined(items: seq<Value>, whole: Value, parts: seq<Bytes>)
    requires ItemsOf(items, whole) && |parts| == |items|
    requires forall i :: 0 <= i < |items| ==> Encodable(items[i]) && parts[i] == Encode(items[i])
    ensures EncodeItems(items, whole) == Joined(parts)
    decreases |items|
  {
    if items != [] {
      assert items[0] in whole.items;
      ItemsJoined(items[1..], whole, parts[1..]);
    }
  }

  lemma TextListIs(texts: seq<Bytes>)
    ensures Encodable(List(Texts(texts))) && Encode(List(Texts(texts))) == TextList(texts)
  {
    var whole := List(Texts(texts));
    TextsPlain(texts);
    PlainEncodable(whole);
    ItemsJoined(whole.items, whole, TextFields(texts));
  }

  lemma TierListIs(p: Publication)
    ensures Encodable(List(TierList(p.tiers)))
    ensures Encode(List(TierList(p.tiers))) == ['l'] + Joined(TierFields(p.tiers)) + ['e']
  {
    var whole := List(TierList(p.tiers));
    TiersPlain(p);
    PlainEncodable(whole);
    forall i | 0 <= i < |whole.items|
      ensures Encodable(whole.items[i]) && TierFields(p.tiers)[i] == Encode(whole.items[i])
    {
      TextListIs(p.tiers[i]);
    }
    ItemsJoined(whole.items, whole, TierFields(p.tiers));
  }

  /** The part of one entry is its field. */
  ghost predicate Written(entry: Entry, part: Bytes) {
    Encodable(entry.value) && EncodeEntry(entry) == part
  }

  lemma {:induction false} EntriesJoined(entries: seq<Entry>, whole: Value, parts: seq<Bytes>)
    requires EntriesOf(entries, whole) && |parts| == |entries|
    requires forall i :: 0 <= i < |entries| ==> Written(entries[i], parts[i])
    ensures EncodeEntries(entries, whole) == Joined(parts)
    decreases |entries|
  {
    if entries != [] {
      assert entries[0] in entries && entries[0] in whole.entries;
      assert Written(entries[0], parts[0]);
      EntriesJoined(entries[1..], whole, parts[1..]);
    }
  }

  lemma InfoOrdered(info: Info)
    ensures SortByKey(InfoValue(info).entries) == InfoValue(info).entries
  {
    InfoEncodable(info);
    Lex(LENGTH, NAME, 0);
    Lex(NAME, PIECE_LENGTH, 0);
    Lex(PIECE_LENGTH, PIECES, 5);
    SortedIs(InfoValue(info).entries, InfoValue(info).entries);
  }

  /** The hashed bytes, in full. */
  lemma IdentityIs(info: Info)
    ensures Identity(info) == ['d'] + Joined(InfoFields(info)) + ['e']
  {
    var value := InfoValue(info);
    InfoEncodable(info);
    InfoOrdered(info);
    forall i | 0 <= i < 4
      ensures Written(value.entries[i], InfoFields(info)[i])
    {
    }
    EntriesJoined(value.entries, value, InfoFields(info));
  }

  ghost function Sorted(p: Publication, info: Info): seq<Entry>
    requires HasTracker(p)
  {
    Front(p) + [InfoEntry(info)] + WebseedEntries(p)
  }

  lemma FrontWritten(p: Publication)
    requires HasTracker(p)
    ensures Written(AnnounceEntry(p), Field("announce", EncodeText(p.tiers[0][0])))
    ensures Written(TiersEntry(p), Field("announce-list", ['l'] + Joined(TierFields(p.tiers)) + ['e']))
    ensures Written(CreatorEntry(), Field("created by", EncodeText("warren-release")))
    ensures Written(DateEntry(p), Field("creation date", EncodeInt(p.creationDate)))
  {
    TierListIs(p);
  }

  lemma RestWritten(p: Publication, info: Info)
    ensures p.comment.Some? && p.comment.value != [] ==>
      CommentEntries(p) != [] && Written(CommentEntries(p)[0], Field("comment", EncodeText(p.comment.value)))
    ensures Written(InfoEntry(info), Field("info", Identity(info)))
    ensures p.webseeds != [] ==> WebseedEntries(p) != [] && Written(WebseedEntries(p)[0], Field("url-list", TextList(p.webseeds)))
  {
    InfoEncodable(info);
    TextListIs(p.webseeds);
  }

  lemma AllWritten(p: Publication, info: Info)
    requires HasTracker(p)
    ensures |Sorted(p, info)| == |FileFields(p, Identity(info))|
    ensures forall i :: 0 <= i < |Sorted(p, info)| ==> Written(Sorted(p, info)[i], FileFields(p, Identity(info))[i])
  {
    FrontWritten(p);
    RestWritten(p, info);
  }

  /** The published file, in full. */
  lemma FileIs(p: Publication, info: Info)
    requires HasTracker(p)
    ensures File(p, info) == ['d'] + Joined(FileFields(p, Identity(info))) + ['e']
  {
    var meta := BuildMetainfo(p, info).value;
    MetainfoEncodable(p, info);
    MetainfoSorted(p, info);
    AllWritten(p, info);
    EntriesJoined(Sorted(p, info), meta, FileFields(p, Identity(info)));
  }

  /** Building fails exactly for want of a first tracker. */
  lemma BuildFailsExactly(p: Publication, info: Info)
    ensures BuildMetainfo(p, info) == None <==> p.tiers == [] || p.tiers[0] == []
  {
  }

  // ----- the identity

  lemma SameMember(a: seq<Entry>, b: seq<Entry>, i: nat)
    requires SameValue(Dict(a), Dict(b)) && i < |a| == |b| && Distinct(b) && a[i].key == b[i].key
    requires a[i].value.Text? || a[i].value.Int?
    ensures a[i].value == b[i].value
  {
    var j :| 0 <= j < |b| && a[i].key == b[j].key && SameValue(a[i].value, b[j].value);
    assert j == i;
  }

  /** Equal identities are equal info dictionaries: nothing that is hashed can be left out or mistaken. */
  lemma InfoIdentifies(a: Info, b: Info)
    ensures Identity(a) == Identity(b) <==> a == b
  {
    InfoEncodable(a);
    InfoEncodable(b);
    EncodingIdentifies(InfoValue(a), InfoValue(b));
    if Identity(a) == Identity(b) {
      SameMember(InfoValue(a).entries, InfoValue(b).entries, 0);
      SameMember(InfoValue(a).entries, InfoValue(b).entries, 1);
      SameMember(InfoValue(a).entries, InfoValue(b).entries, 2);
      SameMember(InfoValue(a).entries, InfoValue(b).entries, 3);
    }
  }

  /** Pieces at the same place have the same digest. */
  ghost predicate SameDigests(a: seq<Bytes>, b: seq<Bytes>, sha1: Bytes -> Bytes) {
    |a| == |b| && forall k :: 0 <= k < |a| ==> sha1(a[k]) == sha1(b[k])
  }

  lemma {:induction false} DigestsTell(a: seq<Bytes>, b: seq<Bytes>, sha1: Bytes -> Bytes)
    requires |a| == |b| && forall chunk :: |sha1(chunk)| == 20
    ensures Digests(a, sha1) == Digests(b, sha1) <==> SameDigests(a, b, sha1)
    decreases |a|
  {
    if a != [] {
      DigestsTell(a[1..], b[1..], sha1);
      var x, y := Digests(a, sha1), Digests(b, sha1);
      assert x[..20] == sha1(a[0]) && y[..20] == sha1(b[0]);
      assert x[20..] == Digests(a[1..], sha1) && y[20..] == Digests(b[1..], sha1);
      if SameDigests(a, b, sha1) {
        assert SameDigests(a[1..], b[1..], sha1);
      }
      if x == y {
        forall k | 0 <= k < |a|
          ensures sha1(a[k]) == sha1(b[k])
        {
          if k > 0 {
            assert a[1..][k - 1] == a[k] && b[1..][k - 1] == b[k];
          }
        }
      }
    }
  }

  lemma {:induction false} PieceCount(a: Bytes, b: Bytes, pieceLength: nat)
    requires pieceLength > 0 && |a| == |b|
    ensures |Pieces(a, pieceLength)| == |Pieces(b, pieceLength)|
    decreases |a|
  {
    if |a| > pieceLength {
      PieceCount(a[pieceLength..], b[pieceLength..], pieceLength);
    }
  }

  /**
   What the identity says of a content: two identities are equal if and only if the names, the piece
   lengths, the lengths and the digests of all pieces are.  So files of one name and piece length that
   differ have different identities, or two different pieces at one place with one digest.
   */
  lemma ContentIdentifies(a: Bytes, name: Bytes, pieceLength: nat, b: Bytes, other: Bytes, otherLength: nat, sha1: Bytes -> Bytes)
    requires pieceLength > 0 && otherLength > 0 && forall chunk :: |sha1(chunk)| == 20
    ensures Identity(ContentInfo(a, name, pieceLength, sha1)) == Identity(ContentInfo(b, other, otherLength, sha1)) <==>
      && name == other && pieceLength == otherLength && |a| == |b|
      && SameDigests(Pieces(a, pieceLength), Pieces(b, otherLength), sha1)
    ensures name == other && pieceLength == otherLength && a != b ==>
      || Identity(ContentInfo(a, name, pieceLength, sha1)) != Identity(ContentInfo(b, other, otherLength, sha1))
      || exists k :: 0 <= k < |Pieces(a, pieceLength)| == |Pieces(b, pieceLength)| &&
           Pieces(a, pieceLength)[k] != Pieces(b, pieceLength)[k] && sha1(Pieces(a, pieceLength)[k]) == sha1(Pieces(b, pieceLength)[k])
  {
    InfoIdentifies(ContentInfo(a, name, pieceLength, sha1), ContentInfo(b, other, otherLength, sha1));
    if |a| == |b| && pieceLength == otherLength {
      PieceCount(a, b, pieceLength);
      DigestsTell(Pieces(a, pieceLength), Pieces(b, pieceLength), sha1);
      PiecesHold(a, pieceLength, sha1);
      PiecesHold(b, pieceLength, sha1);
    }
  }

  // ----- reading it back

  /** Every field of a published content comes back from the file, whatever the texts in it. */
  lemma PublishedReadsBack(p: Publication, content: Bytes, name: Bytes, pieceLength: nat, sha1: Bytes -> Bytes, calls: nat)
    requires HasTracker(p) && pieceLength > 0
    requires calls >= 2 * |File(p, ContentInfo(content, name, pieceLength, sha1))| + 1
    ensures var info := ContentInfo(content, name, pieceLength, sha1);
            exists meta ::
              && Bdecode(File(p, info), calls) == Some(Parsed(meta, |File(p, info)|))
              && Describes(meta, p, content, name, pieceLength, sha1)
  {
    var info := ContentInfo(content, name, pieceLength, sha1);
    MetainfoEncodable(p, info);
    BdecodeBencode(BuildMetainfo(p, info).value, calls);
    InfoRead(p, info);
    RestRead(p, info);
    TrackersRead(p, info);
    WebseedsRead(p, info);
    assert Describes(Canon(BuildMetainfo(p, info).value), p, content, name, pieceLength, sha1);
  }

  ghost predicate Describes(meta: Value, p: Publication, content: Bytes, name: Bytes, pieceLength: nat, sha1: Bytes -> Bytes)
    requires HasTracker(p) && pieceLength > 0
  {
    var info := OrEmpty(Get(meta, "info"));
    && Get(info, "length") == Some(Int(|content|)) && Get(info, "name") == Some(Text(name))
    && Get(info, "piece length") == Some(Int(pieceLength))
    && Get(info, "pieces") == Some(Text(Digests(Pieces(content, pieceLength), sha1)))
    && Get(meta, "announce") == Some(Text(p.tiers[0][0])) && Get(meta, "created by") == Some(Text("warren-release"))
    && Get(meta, "creation date") == Some(Int(p.creationDate))
    && Get(meta, "comment") == (if p.comment.Some? && p.comment.value != [] then Some(Text(p.comment.value)) else None)
    && Trackers(meta) == Some(AllUrls(p.tiers)) && Webseeds(meta) == Some(p.webseeds)
  }
}
