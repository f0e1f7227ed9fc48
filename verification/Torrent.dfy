/**
 Metainfo files (ci/torrentlib.py): what `build_metainfo` writes and what `describe_torrent` reads
 back.  SHA-1 is a parameter; text stands for its UTF-8 bytes.
 */
module Torrent {
  import opened Options
  import opened Bencoding
  import opened BencodingReader

  const CREATED_BY: Bytes := "warren-release"
  const INFO_PATTERN: Bytes := "4:info"

  const ANNOUNCE: Bytes := "announce"
  const ANNOUNCE_LIST: Bytes := "announce-list"
  const COMMENT: Bytes := "comment"
  const CREATOR: Bytes := "created by"
  const CREATION_DATE: Bytes := "creation date"
  const INFO: Bytes := "info"
  const URL_LIST: Bytes := "url-list"
  const LENGTH: Bytes := "length"
  const NAME: Bytes := "name"
  const PIECE_LENGTH: Bytes := "piece length"
  const PIECES: Bytes := "pieces"

  /** The hashed half of a single-file metainfo. */
  datatype Info = Info(length: nat, name: Bytes, pieceLength: nat, pieces: Bytes)

  function InfoValue(info: Info): Value {
    Dict([
      Entry(ByteKey(LENGTH), Int(info.length)),
      Entry(ByteKey(NAME), Text(info.name)),
      Entry(ByteKey(PIECE_LENGTH), Int(info.pieceLength)),
      Entry(ByteKey(PIECES), Text(info.pieces))])
  }

  function Texts(urls: seq<Bytes>): (items: seq<Value>)
    ensures |items| == |urls| && forall i :: 0 <= i < |urls| ==> items[i] == Text(urls[i])
  {
    if urls == [] then [] else [Text(urls[0])] + Texts(urls[1..])
  }

  function TierList(tiers: seq<seq<Bytes>>): (items: seq<Value>)
    ensures |items| == |tiers| && forall i :: 0 <= i < |tiers| ==> items[i] == List(Texts(tiers[i]))
  {
    if tiers == [] then [] else [List(Texts(tiers[0]))] + TierList(tiers[1..])
  }

  /** What goes into a metainfo beside the file itself. */
  datatype Publication = Publication(
    tiers: seq<seq<Bytes>>,
    webseeds: seq<Bytes>,
    creationDate: int,
    comment: Option<Bytes>)

  /** `tracker_tiers[0][0]` must exist. */
  predicate HasTracker(p: Publication) {
    p.tiers != [] && p.tiers[0] != []
  }

  function AnnounceEntry(p: Publication): Entry
    requires HasTracker(p)
  {
    Entry(ByteKey(ANNOUNCE), Text(p.tiers[0][0]))
  }

  function TiersEntry(p: Publication): Entry {
    Entry(ByteKey(ANNOUNCE_LIST), List(TierList(p.tiers)))
  }

  function CreatorEntry(): Entry {
    Entry(ByteKey(CREATOR), Text(CREATED_BY))
  }

  function DateEntry(p: Publication): Entry {
    Entry(ByteKey(CREATION_DATE), Int(p.creationDate))
  }

  function InfoEntry(info: Info): Entry {
    Entry(ByteKey(INFO), InfoValue(info))
  }

  function WebseedEntries(p: Publication): seq<Entry> {
    if p.webseeds == [] then [] else [Entry(ByteKey(URL_LIST), List(Texts(p.webseeds)))]
  }

  function CommentEntries(p: Publication): seq<Entry> {
    if p.comment == None || p.comment == Some([]) then [] else [Entry(ByteKey(COMMENT), Text(p.comment.value))]
  }

  /** `build_metainfo`; `None` is the index error of an empty tracker list. */
  function BuildMetainfo(p: Publication, info: Info): Option<Value> {
    if !HasTracker(p) then None
    else Some(Dict(
      [AnnounceEntry(p), TiersEntry(p), CreatorEntry(), DateEntry(p), InfoEntry(info)]
      + WebseedEntries(p) + CommentEntries(p)))
  }

  // ----- reading back

  /** `bytes.find` */
  function FindPattern(data: Bytes, pattern: Bytes, from: nat): (r: Option<nat>)
    ensures r.Some? ==> from <= r.value && Holds(data, r.value, pattern)
    ensures r.Some? ==> forall s :: from <= s < r.value ==> !Holds(data, s, pattern)
    ensures r.None? ==> forall s :: from <= s ==> !Holds(data, s, pattern)
    decreases |data| - from
  {
    if from > |data| then None
    else if Holds(data, from, pattern) then Some(from)
    else FindPattern(data, pattern, from + 1)
  }

  function Lookup(entries: seq<Entry>, key: Key): Option<Value> {
    if entries == [] then None
    else if entries[0].key == key then Some(entries[0].value)
    else Lookup(entries[1..], key)
  }

  function Get(v: Value, key: Bytes): Option<Value> {
    if v.Dict? then Lookup(v.entries, ByteKey(key)) else None
  }

  /** The texts of a list, provided it holds nothing else. */
  function TextsOf(items: seq<Value>): Option<seq<Bytes>> {
    if items == [] then Some([])
    else
      var rest := TextsOf(items[1..]);
      if items[0].Text? && rest.Some? then Some([items[0].bytes] + rest.value) else None
  }

  /** The texts of the lists of a list. */
  function TierTexts(tiers: seq<Value>): Option<seq<Bytes>> {
    if tiers == [] then Some([])
    else
      var first, rest := if tiers[0].List? then TextsOf(tiers[0].items) else None, TierTexts(tiers[1..]);
      if first.Some? && rest.Some? then Some(first.value + rest.value) else None
  }

  function OrEmpty(v: Option<Value>): Value {
    if v.Some? then v.value else List([])
  }

  /** The tracker comprehension of `describe_torrent` */
  function Trackers(meta: Value): Option<seq<Bytes>> {
    var listed := OrEmpty(Get(meta, ANNOUNCE_LIST));
    var urls := if listed.List? then TierTexts(listed.items) else None;
    if urls == Some([]) then
      var announce := Get(meta, ANNOUNCE);
      if announce.Some? && announce.value.Text? then Some([announce.value.bytes]) else None
    else urls
  }

  function Webseeds(meta: Value): Option<seq<Bytes>> {
    var listed := OrEmpty(Get(meta, URL_LIST));
    if listed.List? then TextsOf(listed.items) else None
  }

  /** `identity` is the slice whose SHA-1 is the infohash. */
  datatype Description = Description(
    identity: Bytes, name: Bytes, size: int, trackers: seq<Bytes>, webseeds: seq<Bytes>)

  /** The bytes that `describe_torrent` hashes; None if the parser raises or has not returned within `calls`. */
  function InfoSlice(raw: Bytes, calls: nat): Option<Bytes> {
    var found := FindPattern(raw, INFO_PATTERN, 0);
    if found.None? then None
    else
      var start := found.value + |INFO_PATTERN|;
      match ReadAt(ParseInt, raw, start, calls)
      case Some(Parsed(_, end)) => Some(Slice(raw, start, end))
      case _ => None
  }

  /** `describe_torrent`; None stands for any exception it raises, or for not having returned within `calls`. */
  function Describe(raw: Bytes, calls: nat): Option<Description> {
    match Bdecode(raw, calls)
    case Some(Parsed(meta, _)) =>
      var identity, trackers, webseeds := InfoSlice(raw, calls), Trackers(meta), Webseeds(meta);
      var info := OrEmpty(Get(meta, INFO));
      var name, size := Get(info, NAME), Get(info, LENGTH);
      if identity.Some? && trackers.Some? && webseeds.Some? && name.Some? && name.value.Text? && size.Some? && size.value.Int?
      then Some(Description(identity.value, name.value.bytes, size.value.number, trackers.value, webseeds.value))
      else None
    case _ => None
  }

  // ----- pieces

  const MIN_PIECE_LENGTH := 0x40000
  const MAX_PIECE_LENGTH := 0x400000
  const TARGET_PIECES := 1500

  function Doubled(k: nat): nat {
    if k == 0 then MIN_PIECE_LENGTH else 2 * Doubled(k - 1)
  }

  /** A piece length is long enough if the piece count stays near the target, or if it is the maximum. */
  predicate LongEnough(size: nat, length: nat) {
    length >= MAX_PIECE_LENGTH || (length > 0 && size / length <= TARGET_PIECES)
  }

  function ChosenPieceLength(size: nat): nat {
    if LongEnough(size, Doubled(0)) then Doubled(0)
    else if LongEnough(size, Doubled(1)) then Doubled(1)
    else if LongEnough(size, Doubled(2)) then Doubled(2)
    else if LongEnough(size, Doubled(3)) then Doubled(3)
    else Doubled(4)
  }

  /** The smallest doubling of the minimum that keeps the piece count near the target, or the maximum. */
  method ChoosePieceLength(size: nat) returns (length: nat, ghost k: nat)
    ensures k <= 4 && length == Doubled(k) && MIN_PIECE_LENGTH <= length <= MAX_PIECE_LENGTH
    ensures length == MAX_PIECE_LENGTH || size / length <= TARGET_PIECES
    ensures forall j: nat :: j < k ==> size / Doubled(j) > TARGET_PIECES
    ensures length == ChosenPieceLength(size)
  {
    length, k := MIN_PIECE_LENGTH, 0;
    while length < MAX_PIECE_LENGTH && size / length > TARGET_PIECES
      invariant k <= 4 && length == Doubled(k) && MIN_PIECE_LENGTH <= length
      invariant length == match k case 0 => 0x40000 case 1 => 0x80000 case 2 => 0x100000 case 3 => 0x200000 case _ => 0x400000
      invariant forall j: nat :: j < k ==> size / Doubled(j) > TARGET_PIECES
      decreases MAX_PIECE_LENGTH - length
    {
      length := 2 * length;
      k := k + 1;
    }
    assert forall j: nat :: j < k ==> !LongEnough(size, Doubled(j));
    assert LongEnough(size, Doubled(k));
  }

  /** Of 256 KiB and its doublings up to 4 MiB, the least that leaves at most 1500 whole pieces, or 4 MiB. */
  lemma ChosenExactly(size: nat)
    ensures var n := ChosenPieceLength(size);
      && n in {262144, 524288, 1048576, 2097152, 4194304}
      && (n == 4194304 || size / n <= 1500)
      && forall m :: m in {262144, 524288, 1048576, 2097152, 4194304} && m < n ==> size / m > 1500
  {
    assert Doubled(1) == 524288 && Doubled(2) == 1048576 && Doubled(3) == 2097152 && Doubled(4) == 4194304;
  }

  /** The content cut into pieces, the last one possibly shorter. */
  function Pieces(content: Bytes, pieceLength: nat): seq<Bytes>
    requires pieceLength > 0
  {
    if |content| == 0 then []
    else if |content| <= pieceLength then [content]
    else [content[..pieceLength]] + Pieces(content[pieceLength..], pieceLength)
  }

  function Digests(pieces: seq<Bytes>, sha1: Bytes -> Bytes): Bytes {
    if pieces == [] then [] else sha1(pieces[0]) + Digests(pieces[1..], sha1)
  }

  method HashPieces(content: Bytes, pieceLength: nat, sha1: Bytes -> Bytes) returns (digests: Bytes)
    requires pieceLength > 0
    ensures digests == Digests(Pieces(content, pieceLength), sha1)
  {
    digests := [];
    var offset := 0;
    while offset < |content|
      invariant 0 <= offset <= |content|
      invariant digests + Digests(Pieces(content[offset..], pieceLength), sha1) == Digests(Pieces(content, pieceLength), sha1)
    {
      var end := if offset + pieceLength < |content| then offset + pieceLength else |content|;
      var chunk := content[offset..end];
      assert content[offset..][end - offset..] == content[end..];
      assert chunk == content[offset..][..end - offset];
      FirstPiece(content[offset..], pieceLength, sha1);
      assert digests + (sha1(chunk) + Digests(Pieces(content[end..], pieceLength), sha1)) ==
             digests + sha1(chunk) + Digests(Pieces(content[end..], pieceLength), sha1);
      digests := digests + sha1(chunk);
      offset := end;
    }
  }

  /** `build_info` of a file: its length, name, piece length and the digests of its pieces. */
  function ContentInfo(content: Bytes, name: Bytes, pieceLength: nat, sha1: Bytes -> Bytes): Info
    requires pieceLength > 0
  {
    Info(|content|, name, pieceLength, Digests(Pieces(content, pieceLength), sha1))
  }

  /** `build_info` with the piece length of `build_metainfo`: none or zero means the chosen one. */
  method BuildInfo(content: Bytes, name: Bytes, given: Option<nat>, sha1: Bytes -> Bytes) returns (info: Info)
    ensures given.Some? && given.value > 0 ==> info == ContentInfo(content, name, given.value, sha1)
    ensures given.None? || given.value == 0 ==> info.pieceLength == ChosenPieceLength(|content|) > 0
    ensures given.None? || given.value == 0 ==> info == ContentInfo(content, name, info.pieceLength, sha1)
  {
    var pieceLength: nat;
    if given.Some? && given.value > 0 {
      pieceLength := given.value;
    } else {
      ghost var k;
      pieceLength, k := ChoosePieceLength(|content|);
    }
    var digests := HashPieces(content, pieceLength, sha1);
    info := Info(|content|, name, pieceLength, digests);
  }

  lemma FirstPiece(content: Bytes, pieceLength: nat, sha1: Bytes -> Bytes)
    requires pieceLength > 0 && content != []
    ensures var end := if pieceLength < |content| then pieceLength else |content|;
            Digests(Pieces(content, pieceLength), sha1) ==
            sha1(content[..end]) + Digests(Pieces(content[end..], pieceLength), sha1)
  {
    if pieceLength < |content| {
      assert Pieces(content, pieceLength)[1..] == Pieces(content[pieceLength..], pieceLength);
    } else {
      assert content[..|content|] == content;
      assert Pieces(content, pieceLength)[1..] == [];
    }
  }

  function Joined(pieces: seq<Bytes>): Bytes {
    if pieces == [] then [] else pieces[0] + Joined(pieces[1..])
  }

  /** Put together the pieces are the content; all but the last are full and none is empty; and the
      digest string has twenty bytes for each. */
  lemma {:induction false} PiecesHold(content: Bytes, pieceLength: nat, sha1: Bytes -> Bytes)
    requires pieceLength > 0 && forall chunk :: |sha1(chunk)| == 20
    ensures var pieces := Pieces(content, pieceLength);
            Joined(pieces) == content &&
            (forall k :: 0 <= k < |pieces| ==> 0 < |pieces[k]| <= pieceLength) &&
            (forall k :: 0 <= k < |pieces| - 1 ==> |pieces[k]| == pieceLength)
    ensures |Digests(Pieces(content, pieceLength), sha1)| == 20 * |Pieces(content, pieceLength)|
    decreases |content|
  {
    var pieces := Pieces(content, pieceLength);
    DigestLength(pieces, sha1);
    if |content| > pieceLength {
      PiecesHold(content[pieceLength..], pieceLength, sha1);
      assert pieces[1..] == Pieces(content[pieceLength..], pieceLength);
    } else if content != [] {
      assert pieces[1..] == [];
    }
  }

  lemma {:induction false} DigestLength(pieces: seq<Bytes>, sha1: Bytes -> Bytes)
    requires forall chunk :: |sha1(chunk)| == 20
    ensures |Digests(pieces, sha1)| == 20 * |pieces|
    decreases |pieces|
  {
    if pieces != [] {
      DigestLength(pieces[1..], sha1);
    }
  }
}
