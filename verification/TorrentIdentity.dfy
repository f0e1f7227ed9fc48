/**
 The identity read back from a metainfo file: it is the published one exactly when no tracker URL and no
 comment imitates the info key, or the first that does goes on with the encoding of the info dictionary.
 */
module TorrentIdentity {
  import opened Options
  import opened Bencoding
  import opened BencodingProofs
  import opened BencodingReader
  import opened BencodingReaderProofs
  import opened Torrent
  import opened TorrentProofs

  // ----- the first match across seams

  function First(data: Bytes): Option<nat> {
    FindPattern(data, INFO_PATTERN, 0)
  }

  function Shifted(n: nat, found: Option<nat>): Option<nat> {
    if found.Some? then Some(n + found.value) else None
  }

  lemma FirstIs(data: Bytes, s: nat)
    requires Holds(data, s, INFO_PATTERN) && forall t: nat :: t < s ==> !Holds(data, t, INFO_PATTERN)
    ensures First(data) == Some(s)
  {
    assert First(data).Some?;
  }

  lemma FirstNone(data: Bytes)
    requires forall t: nat :: !Holds(data, t, INFO_PATTERN)
    ensures First(data) == None
  {
  }

  lemma StartsLeft(a: Bytes, b: Bytes, s: nat)
    requires Holds(a, s, INFO_PATTERN)
    ensures Holds(a + b, s, INFO_PATTERN)
  {
    assert (a + b)[s..s + 6] == a[s..s + 6];
  }

  lemma StartsRight(a: Bytes, b: Bytes, s: nat)
    requires Holds(b, s, INFO_PATTERN)
    ensures Holds(a + b, |a| + s, INFO_PATTERN)
  {
    assert (a + b)[|a| + s..|a| + s + 6] == b[s..s + 6];
  }

  lemma NotBefore(a: Bytes, b: Bytes, s: nat, t: nat)
    requires b != [] && Opens(b[0]) && t < s
    requires forall u: nat :: u < s && u < |a| ==> !Holds(a, u, INFO_PATTERN)
    requires forall u: nat :: |a| + u < s ==> !Holds(b, u, INFO_PATTERN)
    ensures !Holds(a + b, t, INFO_PATTERN)
  {
    if Holds(a + b, t, INFO_PATTERN) {
      OccursSide(a, b, t);
    }
  }

  /** At a seam that the pattern cannot straddle, the first match is the left side's, else the right side's. */
  lemma FirstJoin(a: Bytes, b: Bytes)
    requires b != [] && Opens(b[0])
    ensures First(a + b) == if First(a).Some? then First(a) else Shifted(|a|, First(b))
  {
    var both := a + b;
    if First(a).Some? {
      var s := First(a).value;
      StartsLeft(a, b, s);
      forall t: nat | t < s
        ensures !Holds(both, t, INFO_PATTERN)
      {
        NotBefore(a, b, s, t);
      }
      FirstIs(both, s);
    } else if First(b).Some? {
      var s := |a| + First(b).value;
      StartsRight(a, b, First(b).value);
      forall t: nat | t < s
        ensures !Holds(both, t, INFO_PATTERN)
      {
        NotBefore(a, b, s, t);
      }
      FirstIs(both, s);
    } else {
      forall t: nat
        ensures !Holds(both, t, INFO_PATTERN)
      {
        NotBefore(a, b, t + 1, t);
      }
      FirstNone(both);
    }
  }

  // ----- the part of the file before the info key

  /** A piece of the file: fixed, or the encoding of a text that the publisher chose. */
  datatype Chunk = Fixed(fixed: Bytes) | Chosen(text: Bytes) {
    function Written(): Bytes {
      if Fixed? then fixed else EncodeText(text)
    }

    /** It begins with a character that cannot stand inside the pattern. */
    predicate Opened() {
      Written() != [] && Opens(Written()[0])
    }

    /** A fixed piece does not contain the pattern. */
    ghost predicate Harmless() {
      Fixed? ==> !Occurs(fixed)
    }
  }

  function Joined(chunks: seq<Chunk>): Bytes {
    if chunks == [] then [] else chunks[0].Written() + Joined(chunks[1..])
  }

  /** Where the first chosen text that imitates the key does so; None if none imitates. */
  function Imitation(chunks: seq<Chunk>): Option<nat> {
    if chunks == [] then None
    else if chunks[0].Chosen? && Imitates(chunks[0].text) then First(EncodeText(chunks[0].text))
    else Shifted(|chunks[0].Written()|, Imitation(chunks[1..]))
  }

  ghost predicate Tidy(chunks: seq<Chunk>) {
    forall i :: 0 <= i < |chunks| ==> chunks[i].Opened() && chunks[i].Harmless()
  }

  lemma FirstIffOccurs(data: Bytes)
    ensures First(data).Some? <==> Occurs(data)
  {
  }

  lemma JoinedOpens(chunks: seq<Chunk>)
    requires Tidy(chunks) && chunks != []
    ensures Joined(chunks) != [] && Opens(Joined(chunks)[0])
  {
    assert chunks[0].Opened();
  }

  lemma FirstInChunk(c: Chunk)
    requires c.Harmless()
    ensures First(c.Written()).Some? <==> c.Chosen? && Imitates(c.text)
  {
    FirstIffOccurs(c.Written());
    if c.Chosen? {
      OccursInText(c.text);
    }
  }

  /** The first match in the joined chunks is where the first imitating text has it. */
  lemma {:induction false} FirstInChunks(chunks: seq<Chunk>)
    requires Tidy(chunks)
    ensures First(Joined(chunks)) == Imitation(chunks)
  {
    if chunks == [] {
      assert !Holds([], 0, INFO_PATTERN);
    } else {
      var rest := chunks[1..];
      assert chunks[0].Harmless();
      FirstInChunk(chunks[0]);
      FirstInChunks(rest);
      if rest == [] {
        assert chunks[0].Written() + [] == chunks[0].Written();
      } else {
        JoinedOpens(rest);
        FirstJoin(chunks[0].Written(), Joined(rest));
      }
    }
  }

  lemma {:induction false} JoinedAppend(a: seq<Chunk>, b: seq<Chunk>)
    ensures Joined(a + b) == Joined(a) + Joined(b)
  {
    if a == [] {
      assert a + b == b;
    } else {
      assert (a + b)[0] == a[0] && (a + b)[1..] == a[1..] + b;
      JoinedAppend(a[1..], b);
    }
  }

  function TextChunks(urls: seq<Bytes>): seq<Chunk> {
    if urls == [] then [] else [Chosen(urls[0])] + TextChunks(urls[1..])
  }

  function TierChunks(tiers: seq<seq<Bytes>>): seq<Chunk> {
    if tiers == [] then [] else [Fixed(['l'])] + TextChunks(tiers[0]) + [Fixed(['e'])] + TierChunks(tiers[1..])
  }

  function AnnounceChunks(p: Publication): seq<Chunk>
    requires HasTracker(p)
  {
    [Fixed(['d'] + EncodeText(ANNOUNCE)), Chosen(p.tiers[0][0])]
  }

  function ListChunks(p: Publication): seq<Chunk> {
    [Fixed(EncodeText(ANNOUNCE_LIST) + ['l'])] + TierChunks(p.tiers) + [Fixed(['e'])]
  }

  function CommentChunks(p: Publication): seq<Chunk> {
    if CommentEntries(p) == [] then [] else [Fixed(EncodeText(COMMENT)), Chosen(p.comment.value)]
  }

  ghost function LastChunk(p: Publication): Chunk {
    Fixed(EncodeEntry(CreatorEntry()) + EncodeEntry(DateEntry(p)))
  }

  /** The file up to the info key. */
  ghost function Chunks(p: Publication): seq<Chunk>
    requires HasTracker(p)
  {
    AnnounceChunks(p) + ListChunks(p) + CommentChunks(p) + [LastChunk(p)]
  }

  // ----- the chunks are what is written

  lemma {:induction false} TextsWritten(urls: seq<Bytes>, whole: Value)
    requires ItemsOf(Texts(urls), whole)
    ensures EncodeItems(Texts(urls), whole) == Joined(TextChunks(urls))
    decreases |urls|
  {
    if urls != [] {
      var items := Texts(urls);
      assert items[0] in items && items[1..] == Texts(urls[1..]);
      TextsWritten(urls[1..], whole);
    }
  }

  lemma ListWritten(urls: seq<Bytes>)
    requires Encodable(List(Texts(urls)))
    ensures Encode(List(Texts(urls))) == ['l'] + Joined(TextChunks(urls)) + ['e']
  {
    TextsWritten(urls, List(Texts(urls)));
  }

  lemma JoinedTier(urls: seq<Bytes>, rest: seq<Chunk>)
    ensures Joined([Fixed(['l'])] + TextChunks(urls) + [Fixed(['e'])] + rest) == (['l'] + Joined(TextChunks(urls)) + ['e']) + Joined(rest)
  {
    JoinedAppend([Fixed(['l'])] + TextChunks(urls) + [Fixed(['e'])], rest);
    JoinedAppend([Fixed(['l'])] + TextChunks(urls), [Fixed(['e'])]);
    JoinedAppend([Fixed(['l'])], TextChunks(urls));
    JoinedOne(['l']);
    JoinedOne(['e']);
  }

  lemma JoinedOne(b: Bytes)
    ensures Joined([Fixed(b)]) == b
  {
    assert b + [] == b;
  }

  lemma {:induction false} TiersWritten(tiers: seq<seq<Bytes>>, whole: Value)
    requires ItemsOf(TierList(tiers), whole)
    ensures EncodeItems(TierList(tiers), whole) == Joined(TierChunks(tiers))
    decreases |tiers|
  {
    if tiers != [] {
      var items := TierList(tiers);
      assert items[0] in items && items[1..] == TierList(tiers[1..]);
      TiersWritten(tiers[1..], whole);
      ListWritten(tiers[0]);
      JoinedTier(tiers[0], TierChunks(tiers[1..]));
    }
  }

  lemma AnnounceWritten(p: Publication)
    requires HasTracker(p)
    ensures Joined(AnnounceChunks(p)) == ['d'] + EncodeEntry(AnnounceEntry(p))
  {
    var a, u := ['d'] + EncodeText(ANNOUNCE), EncodeText(p.tiers[0][0]);
    assert AnnounceChunks(p)[1..] == [Chosen(p.tiers[0][0])];
    assert Joined([Chosen(p.tiers[0][0])]) == u + [];
    assert a + (u + []) == ['d'] + (EncodeText(ANNOUNCE) + u);
  }

  lemma TierEntryWritten(p: Publication)
    requires Encodable(TiersEntry(p).value)
    ensures Joined(ListChunks(p)) == EncodeEntry(TiersEntry(p))
  {
    TiersWritten(p.tiers, List(TierList(p.tiers)));
    JoinedBetween(EncodeText(ANNOUNCE_LIST), TierChunks(p.tiers));
  }

  lemma JoinedBetween(key: Bytes, chunks: seq<Chunk>)
    ensures Joined([Fixed(key + ['l'])] + chunks + [Fixed(['e'])]) == key + (['l'] + Joined(chunks) + ['e'])
  {
    JoinedAppend([Fixed(key + ['l'])] + chunks, [Fixed(['e'])]);
    JoinedAppend([Fixed(key + ['l'])], chunks);
    JoinedOne(key + ['l']);
    JoinedOne(['e']);
    assert (key + ['l']) + Joined(chunks) + ['e'] == key + (['l'] + Joined(chunks) + ['e']);
  }

  lemma CommentWritten(p: Publication)
    requires CommentEntries(p) != []
    ensures Joined(CommentChunks(p)) == EncodeEntry(CommentEntries(p)[0])
  {
    var k, u := EncodeText(COMMENT), EncodeText(p.comment.value);
    assert CommentChunks(p)[1..] == [Chosen(p.comment.value)];
    assert Joined([Chosen(p.comment.value)]) == u + [];
    assert k + (u + []) == k + u;
  }

  lemma EncodeEntriesCons(entry: Entry, rest: seq<Entry>, whole: Value)
    requires EntriesOf([entry] + rest, whole) && EntriesOf(rest, whole)
    ensures Encodable(entry.value) && EncodeEntries([entry] + rest, whole) == EncodeEntry(entry) + EncodeEntries(rest, whole)
  {
    var all := [entry] + rest;
    assert all[0] in all && all[0] in whole.entries && all[1..] == rest;
  }

  /** The last two entries before the info key. */
  lemma LastWritten(p: Publication, whole: Value)
    requires EntriesOf([CreatorEntry(), DateEntry(p)], whole)
    ensures EncodeEntries([CreatorEntry(), DateEntry(p)], whole) == LastChunk(p).Written()
  {
    var c, d := CreatorEntry(), DateEntry(p);
    assert [c] + [d] == [c, d] && [d] + [] == [d];
    assert forall entry :: entry in [d] ==> entry in [c, d];
    EncodeEntriesCons(d, [], whole);
    EncodeEntriesCons(c, [d], whole);
    assert EncodeEntry(d) + [] == EncodeEntry(d);
  }

  lemma TailWritten(p: Publication, whole: Value)
    requires HasTracker(p) && EntriesOf(Front(p), whole)
    ensures EntriesOf(CommentEntries(p) + [CreatorEntry(), DateEntry(p)], whole)
    ensures EncodeEntries(CommentEntries(p) + [CreatorEntry(), DateEntry(p)], whole) == Joined(CommentChunks(p)) + LastChunk(p).Written()
  {
    var last := [CreatorEntry(), DateEntry(p)];
    assert forall entry :: entry in CommentEntries(p) + last ==> entry in Front(p);
    assert forall entry :: entry in last ==> entry in Front(p);
    LastWritten(p, whole);
    if CommentEntries(p) == [] {
      assert CommentEntries(p) + last == last;
    } else {
      var c := CommentEntries(p)[0];
      assert CommentEntries(p) == [c];
      CommentWritten(p);
      EncodeEntriesCons(c, last, whole);
    }
  }

  /** The chunks joined are everything before the info key. */
  lemma BeforeWritten(p: Publication, info: Info)
    requires HasTracker(p)
    ensures EntriesOf(Front(p), BuildMetainfo(p, info).value) && Joined(Chunks(p)) == Before(p, info)
  {
    var whole := BuildMetainfo(p, info).value;
    FrontOf(p, info);
    var a, t := AnnounceEntry(p), TiersEntry(p);
    var tail := CommentEntries(p) + [CreatorEntry(), DateEntry(p)];
    TailWritten(p, whole);
    assert Front(p) == [a] + ([t] + tail);
    assert forall entry :: entry in [t] + tail ==> entry in Front(p);
    EncodeEntriesCons(t, tail, whole);
    EncodeEntriesCons(a, [t] + tail, whole);
    AnnounceWritten(p);
    TierEntryWritten(p);
    ChunksJoined(p);
    FourParts(['d'], EncodeEntry(a), EncodeEntry(t), Joined(CommentChunks(p)), LastChunk(p).Written());
  }

  lemma ChunksJoined(p: Publication)
    requires HasTracker(p)
    ensures Joined(Chunks(p)) ==
      Joined(AnnounceChunks(p)) + Joined(ListChunks(p)) + Joined(CommentChunks(p)) + LastChunk(p).Written()
  {
    JoinedAppend(AnnounceChunks(p) + ListChunks(p) + CommentChunks(p), [LastChunk(p)]);
    JoinedAppend(AnnounceChunks(p) + ListChunks(p), CommentChunks(p));
    JoinedAppend(AnnounceChunks(p), ListChunks(p));
    JoinedOne(LastChunk(p).fixed);
  }

  lemma FourParts(d: Bytes, a: Bytes, t: Bytes, c: Bytes, l: Bytes)
    ensures (d + a) + t + c + l == d + (a + (t + (c + l)))
  {
  }

  // ----- the chunks are tidy

  lemma TidyJoins(a: seq<Chunk>, b: seq<Chunk>)
    requires Tidy(a) && Tidy(b)
    ensures Tidy(a + b)
  {
  }

  lemma TextOpens(text: Bytes)
    ensures Chosen(text).Opened() && Chosen(text).Harmless()
  {
    OccursInText(text);
  }

  lemma {:induction false} TextsTidy(urls: seq<Bytes>)
    ensures Tidy(TextChunks(urls))
  {
    if urls != [] {
      TextOpens(urls[0]);
      TextsTidy(urls[1..]);
      TidyJoins([Chosen(urls[0])], TextChunks(urls[1..]));
    }
  }

  lemma {:induction false} TiersTidy(tiers: seq<seq<Bytes>>)
    ensures Tidy(TierChunks(tiers))
  {
    if tiers != [] {
      TextsTidy(tiers[0]);
      TiersTidy(tiers[1..]);
      NoColonNoPattern(['l']);
      NoColonNoPattern(['e']);
      TidyJoins([Fixed(['l'])], TextChunks(tiers[0]));
      TidyJoins([Fixed(['l'])] + TextChunks(tiers[0]), [Fixed(['e'])]);
      TidyJoins([Fixed(['l'])] + TextChunks(tiers[0]) + [Fixed(['e'])], TierChunks(tiers[1..]));
    }
  }

  lemma KeyHarmless(key: Bytes)
    requires ':' !in key && (|key| >= 4 ==> key[0] != 'i')
    ensures !Occurs(EncodeText(key)) && EncodeText(key) != [] && Opens(EncodeText(key)[0])
  {
    NotImitating(key);
    OccursInText(key);
  }

  lemma AnnounceTidy(p: Publication)
    requires HasTracker(p)
    ensures Tidy(AnnounceChunks(p))
  {
    KeysHarmless();
    KeyHarmless(ANNOUNCE);
    NoColonNoPattern(['d']);
    OccursJoin(['d'], EncodeText(ANNOUNCE));
    TextOpens(p.tiers[0][0]);
  }

  lemma ListTidy(p: Publication)
    ensures Tidy(ListChunks(p))
  {
    KeysHarmless();
    KeyHarmless(ANNOUNCE_LIST);
    NoColonNoPattern(['l']);
    NoColonNoPattern(['e']);
    OccursJoin(EncodeText(ANNOUNCE_LIST), ['l']);
    TiersTidy(p.tiers);
    TidyJoins([Fixed(EncodeText(ANNOUNCE_LIST) + ['l'])], TierChunks(p.tiers));
    TidyJoins([Fixed(EncodeText(ANNOUNCE_LIST) + ['l'])] + TierChunks(p.tiers), [Fixed(['e'])]);
  }

  lemma CommentTidy(p: Publication)
    ensures Tidy(CommentChunks(p))
  {
    if CommentEntries(p) != [] {
      KeysHarmless();
      KeyHarmless(COMMENT);
      TextOpens(p.comment.value);
    }
  }

  lemma LastTidy(p: Publication)
    requires HasTracker(p)
    ensures Tidy([LastChunk(p)])
  {
    KeysHarmless();
    KeyHarmless(CREATOR);
    KeyHarmless(CREATED_BY);
    OccursJoin(EncodeText(CREATOR), EncodeText(CREATED_BY));
    DateOpens(p);
    DateHarmless(p);
    OccursJoin(EncodeEntry(CreatorEntry()), EncodeEntry(DateEntry(p)));
  }

  lemma DateOpens(p: Publication)
    ensures EncodeEntry(DateEntry(p)) != [] && Opens(EncodeEntry(DateEntry(p))[0])
  {
    TextOpens(CREATION_DATE);
  }

  lemma ChunksTidy(p: Publication)
    requires HasTracker(p)
    ensures Tidy(Chunks(p))
  {
    AnnounceTidy(p);
    ListTidy(p);
    CommentTidy(p);
    LastTidy(p);
    TidyJoins(AnnounceChunks(p), ListChunks(p));
    TidyJoins(AnnounceChunks(p) + ListChunks(p), CommentChunks(p));
    TidyJoins(AnnounceChunks(p) + ListChunks(p) + CommentChunks(p), [LastChunk(p)]);
  }

  // ----- where the search hits

  /** The place of the search's hit, from the texts alone: the first imitation, or the info key itself. */
  ghost function Hit(p: Publication): nat
    requires HasTracker(p)
  {
    if Imitation(Chunks(p)).Some? then Imitation(Chunks(p)).value else |Joined(Chunks(p))|
  }

  lemma HitIn(before: Bytes, slice: Bytes, rest: Bytes)
    ensures First(before + (INFO_PATTERN + slice + rest)) == if First(before).Some? then First(before) else Some(|before|)
  {
    var after := INFO_PATTERN + slice + rest;
    assert after[0] == '4' && after[0..6] == INFO_PATTERN;
    FirstIs(after, 0);
    FirstJoin(before, after);
  }

  lemma FileLayout(p: Publication, info: Info) returns (rest: Bytes)
    requires HasTracker(p)
    ensures File(p, info) == Joined(Chunks(p)) + (INFO_PATTERN + Identity(info) + rest)
  {
    MetainfoLayout(p, info);
    BeforeWritten(p, info);
    rest := EncodeEntries(WebseedEntries(p), BuildMetainfo(p, info).value) + ['e'];
  }

  lemma HitExactly(p: Publication, info: Info)
    requires HasTracker(p)
    ensures First(File(p, info)) == Some(Hit(p))
  {
    var rest := FileLayout(p, info);
    ChunksTidy(p);
    FirstInChunks(Chunks(p));
    HitIn(Joined(Chunks(p)), Identity(info), rest);
  }

  // ----- whether a text imitates

  ghost predicate SomeImitates(chunks: seq<Chunk>) {
    exists i :: 0 <= i < |chunks| && chunks[i].Chosen? && Imitates(chunks[i].text)
  }

  lemma ImitatesJoin(a: seq<Chunk>, b: seq<Chunk>)
    ensures SomeImitates(a + b) <==> SomeImitates(a) || SomeImitates(b)
  {
    var all := a + b;
    if SomeImitates(a) {
      var i :| 0 <= i < |a| && a[i].Chosen? && Imitates(a[i].text);
      assert all[i] == a[i];
    }
    if SomeImitates(b) {
      var i :| 0 <= i < |b| && b[i].Chosen? && Imitates(b[i].text);
      assert all[|a| + i] == b[i];
    }
  }

  lemma {:induction false} ImitationIffSome(chunks: seq<Chunk>)
    ensures Imitation(chunks).Some? <==> SomeImitates(chunks)
  {
    if chunks != [] {
      ImitationIffSome(chunks[1..]);
      assert chunks == [chunks[0]] + chunks[1..];
      ImitatesJoin([chunks[0]], chunks[1..]);
      OneImitates(chunks[0]);
      if chunks[0].Chosen? {
        OccursInText(chunks[0].text);
        FirstIffOccurs(EncodeText(chunks[0].text));
      }
    }
  }

  lemma OneImitates(c: Chunk)
    ensures SomeImitates([c]) <==> c.Chosen? && Imitates(c.text)
  {
    assert [c][0] == c;
  }

  lemma {:induction false} TextsImitate(urls: seq<Bytes>)
    ensures SomeImitates(TextChunks(urls)) <==> exists j :: 0 <= j < |urls| && Imitates(urls[j])
  {
    if urls != [] {
      TextsImitate(urls[1..]);
      ImitatesJoin([Chosen(urls[0])], TextChunks(urls[1..]));
      OneImitates(Chosen(urls[0]));
      if j :| 0 <= j < |urls[1..]| && Imitates(urls[1..][j]) {
        assert Imitates(urls[j + 1]);
      }
    }
  }

  lemma {:induction false} TiersImitate(tiers: seq<seq<Bytes>>)
    ensures SomeImitates(TierChunks(tiers)) <==> SomeUrlImitates(tiers)
  {
    if tiers != [] {
      var first, rest := TextChunks(tiers[0]), TierChunks(tiers[1..]);
      TiersImitate(tiers[1..]);
      TextsImitate(tiers[0]);
      ImitatesJoin([Fixed(['l'])] + first + [Fixed(['e'])], rest);
      ImitatesJoin([Fixed(['l'])] + first, [Fixed(['e'])]);
      ImitatesJoin([Fixed(['l'])], first);
      OneImitates(Fixed(['l']));
      OneImitates(Fixed(['e']));
      UrlsSplit(tiers);
    }
  }

  lemma UrlsSplit(tiers: seq<seq<Bytes>>)
    requires tiers != []
    ensures SomeUrlImitates(tiers) <==> (exists j :: 0 <= j < |tiers[0]| && Imitates(tiers[0][j])) || SomeUrlImitates(tiers[1..])
  {
    var rest := tiers[1..];
    if SomeUrlImitates(rest) {
      var i :| 0 <= i < |rest| && exists j :: 0 <= j < |rest[i]| && Imitates(rest[i][j]);
      assert tiers[i + 1] == rest[i];
    }
    if SomeUrlImitates(tiers) {
      var i :| 0 <= i < |tiers| && exists j :: 0 <= j < |tiers[i]| && Imitates(tiers[i][j]);
      if i > 0 {
        assert rest[i - 1] == tiers[i];
      }
    }
  }

  lemma PartsImitate(p: Publication)
    requires HasTracker(p)
    ensures SomeImitates(AnnounceChunks(p)) ==> TrackerImitates(p)
    ensures SomeImitates(ListChunks(p)) <==> TrackerImitates(p)
    ensures SomeImitates(CommentChunks(p)) <==> CommentImitates(p)
    ensures !SomeImitates([LastChunk(p)])
  {
    var a, l := Fixed(EncodeText(ANNOUNCE_LIST) + ['l']), Fixed(['e']);
    TiersImitate(p.tiers);
    ImitatesJoin([a] + TierChunks(p.tiers), [l]);
    ImitatesJoin([a], TierChunks(p.tiers));
    OneImitates(a);
    OneImitates(l);
    OneImitates(LastChunk(p));
    NotImitating([]);
    if CommentEntries(p) != [] {
      var c := CommentChunks(p);
      assert c[0].Fixed? && c[1] == Chosen(p.comment.value);
    }
  }

  /** There is no imitation exactly when no tracker URL and no comment imitates the key. */
  lemma ImitationExactly(p: Publication)
    requires HasTracker(p)
    ensures Imitation(Chunks(p)).None? <==> !TrackerImitates(p) && !CommentImitates(p)
  {
    ImitationIffSome(Chunks(p));
    PartsImitate(p);
    ImitatesJoin(AnnounceChunks(p) + ListChunks(p) + CommentChunks(p), [LastChunk(p)]);
    ImitatesJoin(AnnounceChunks(p) + ListChunks(p), CommentChunks(p));
    ImitatesJoin(AnnounceChunks(p), ListChunks(p));
  }

  lemma ImitationIsEarly(p: Publication)
    requires HasTracker(p) && Imitation(Chunks(p)).Some?
    ensures Hit(p) < |Joined(Chunks(p))|
  {
    ChunksTidy(p);
    FirstInChunks(Chunks(p));
  }

  /** `find(b"4:info")` hits the info key exactly when no tracker URL and no comment imitates it. */
  lemma InfoKeyFoundExactly(p: Publication, info: Info)
    requires HasTracker(p)
    ensures EntriesOf(Front(p), BuildMetainfo(p, info).value)
    ensures First(File(p, info)) == Some(|Before(p, info)|) <==> !TrackerImitates(p) && !CommentImitates(p)
  {
    BeforeWritten(p, info);
    HitExactly(p, info);
    ImitationExactly(p);
    if Imitation(Chunks(p)).Some? {
      ImitationIsEarly(p);
    }
  }

  // ----- what is read as the identity

  lemma IdentityOpens(info: Info)
    ensures Identity(info) != [] && Identity(info)[0] == 'd'
  {
  }

  /** A slice that is the identity is where the identity stands. */
  lemma SliceHolds(raw: Bytes, start: nat, end: int, part: Bytes)
    requires start <= |raw| && part != [] && Slice(raw, start, end) == part
    ensures Holds(raw, start, part)
  {
    var hi := Clamp(|raw|, end);
    assert raw[start..hi] == part;
    assert hi == start + |part|;
  }

  lemma IdentityRead(raw: Bytes, start: nat, info: Info, calls: nat)
    requires Holds(raw, start, Identity(info)) && calls >= Need(raw, start)
    ensures ReadAt(ParseInt, raw, start, calls) == Some(Parsed(Canon(InfoValue(info)), start + |Identity(info)|))
    ensures Slice(raw, start, start + |Identity(info)|) == Identity(info)
  {
    InfoEncodable(info);
    ReadEncoding(raw, start, InfoValue(info), calls);
    SliceForward(raw, start, start + |Identity(info)|);
  }

  /** The bytes taken as the identity are the published ones exactly when these stand behind the search's hit. */
  lemma SliceExactly(raw: Bytes, hit: nat, info: Info, calls: nat)
    requires First(raw) == Some(hit) && calls >= 2 * |raw| + 1
    ensures InfoSlice(raw, calls) == Some(Identity(info)) <==> Holds(raw, hit + 6, Identity(info))
  {
    IdentityOpens(info);
    assert |INFO_PATTERN| == 6;
    var start := hit + 6;
    if Holds(raw, start, Identity(info)) {
      IdentityRead(raw, start, info, calls);
    }
    if InfoSlice(raw, calls) == Some(Identity(info)) {
      var end := ReadAt(ParseInt, raw, start, calls).value.next;
      SliceHolds(raw, start, end, Identity(info));
    }
  }

  lemma HoldsBehindKey(p: Publication, info: Info)
    requires HasTracker(p) && Imitation(Chunks(p)).None?
    ensures Holds(File(p, info), Hit(p) + 6, Identity(info))
  {
    var rest := FileLayout(p, info);
    HoldsBetween(Joined(Chunks(p)), Identity(info), rest);
  }

  lemma HoldsBetween(before: Bytes, slice: Bytes, rest: Bytes)
    ensures Holds(before + (INFO_PATTERN + slice + rest), |before| + 6, slice)
  {
    var raw := before + (INFO_PATTERN + slice + rest);
    assert raw[|before| + 6..|before| + 6 + |slice|] == slice;
  }

  /**
   The infohash read back is the one published if and only if no tracker URL and no comment imitates the
   info key, or the file goes on with the encoding of the info dictionary behind the first imitation.
   */
  lemma InfohashExactly(p: Publication, info: Info, calls: nat)
    requires HasTracker(p) && calls >= 2 * |File(p, info)| + 1
    ensures InfoSlice(File(p, info), calls) == Some(Identity(info)) <==>
      || (!TrackerImitates(p) && !CommentImitates(p))
      || Holds(File(p, info), Hit(p) + 6, Identity(info))
  {
    HitExactly(p, info);
    ImitationExactly(p);
    SliceExactly(File(p, info), Hit(p), info, calls);
    if Imitation(Chunks(p)).None? {
      HoldsBehindKey(p, info);
    }
  }

  /** A published file that nothing imitates is described as it was published. */
  lemma DescribeReadsBack(p: Publication, info: Info, calls: nat)
    requires HasTracker(p) && calls >= 2 * |File(p, info)| + 1
    requires !TrackerImitates(p) && !CommentImitates(p)
    ensures Describe(File(p, info), calls) ==
      Some(Description(Identity(info), info.name, info.length, AllUrls(p.tiers), p.webseeds))
  {
    MetainfoEncodable(p, info);
    BdecodeBencode(BuildMetainfo(p, info).value, calls);
    InfohashExactly(p, info, calls);
    TrackersRead(p, info);
    WebseedsRead(p, info);
    InfoRead(p, info);
  }

  // ----- imitations of each kind

  /** The first match in an encoded text that begins with the pattern, or with one other character. */
  lemma PlainComment(text: Bytes, k: nat)
    requires First(text) == Some(k) && !Holds(text, 0, INFO)
    ensures First(EncodeText(text)) == Some(|Decimal(|text|)| + 1 + k)
  {
    var n := |Decimal(|text|)|;
    var data := EncodeText(text);
    assert data[n + 1 + k..n + 1 + k + 6] == text[k..k + 6];
    forall t: nat | t < n + 1 + k
      ensures !Holds(data, t, INFO_PATTERN)
    {
      if Holds(data, t, INFO_PATTERN) {
        NoEarlier(text, t, k);
      }
    }
    FirstIs(data, n + 1 + k);
  }

  lemma NoEarlier(text: Bytes, t: nat, k: nat)
    requires First(text) == Some(k) && !Holds(text, 0, INFO)
    requires Holds(EncodeText(text), t, INFO_PATTERN)
    ensures t >= |Decimal(|text|)| + 1 + k
  {
    var n := |Decimal(|text|)|;
    var data := EncodeText(text);
    NaturalHolds(|text|);
    PatternAt(data, t);
    if t >= n + 1 {
      assert data[t..t + 6] == text[t - n - 1..t - n - 1 + 6];
      assert Holds(text, t - n - 1, INFO_PATTERN);
    }
  }

  lemma {:induction false} ImitationAppend(a: seq<Chunk>, b: seq<Chunk>)
    ensures Imitation(a + b) == if SomeImitates(a) then Imitation(a) else Shifted(|Joined(a)|, Imitation(b))
  {
    if a == [] {
      assert a + b == b;
    } else {
      assert (a + b)[0] == a[0] && (a + b)[1..] == a[1..] + b;
      ImitationAppend(a[1..], b);
      ImitationIffSome(a[1..]);
      assert a == [a[0]] + a[1..];
      ImitatesJoin([a[0]], a[1..]);
      OneImitates(a[0]);
    }
  }

  /** Everything before the comment's text. */
  function BeforeComment(p: Publication): Bytes
    requires HasTracker(p)
  {
    Joined(AnnounceChunks(p) + ListChunks(p)) + EncodeText(COMMENT)
  }

  lemma CommentHit(p: Publication, text: Bytes, k: nat)
    requires HasTracker(p) && !TrackerImitates(p) && p.comment == Some(text)
    requires First(text) == Some(k) && !Holds(text, 0, INFO)
    ensures CommentImitates(p) && Hit(p) == |BeforeComment(p)| + |Decimal(|text|)| + 1 + k
  {
    assert text != [];
    PartsImitate(p);
    ImitatesJoin(AnnounceChunks(p), ListChunks(p));
    PlainComment(text, k);
    var front, comment := AnnounceChunks(p) + ListChunks(p), CommentChunks(p);
    assert Chunks(p) == front + (comment + [LastChunk(p)]);
    ImitationAppend(front, comment + [LastChunk(p)]);
    ImitationAppend(comment, [LastChunk(p)]);
    assert comment[1..] == [Chosen(text)];
    assert Imitation([Chosen(text)]) == First(EncodeText(text));
  }

  lemma CommentStands(p: Publication, info: Info, text: Bytes)
    requires HasTracker(p) && p.comment == Some(text) && text != []
    ensures BeforeComment(p) + EncodeText(text) <= File(p, info)
  {
    BeforeIsPrefix(p, info);
    ChunksJoined(p);
    JoinedAppend(AnnounceChunks(p), ListChunks(p));
    CommentWritten(p);
    var front := Joined(AnnounceChunks(p) + ListChunks(p));
    PrefixOf(front, EncodeText(COMMENT), EncodeText(text), LastChunk(p).Written(), File(p, info));
  }

  lemma BeforeIsPrefix(p: Publication, info: Info)
    requires HasTracker(p)
    ensures Joined(Chunks(p)) <= File(p, info)
  {
    var rest := FileLayout(p, info);
  }

  lemma PrefixOf(a: Bytes, b: Bytes, c: Bytes, d: Bytes, raw: Bytes)
    requires a + (b + c) + d <= raw
    ensures (a + b) + c <= raw
  {
    assert a + (b + c) + d == ((a + b) + c) + d;
  }

  lemma PrefixHolds(front: Bytes, digits: Bytes, text: Bytes, raw: Bytes, k: nat)
    requires front + (digits + [':'] + text) <= raw && k <= |text|
    ensures Holds(raw, |front| + |digits| + 1 + k, text[k..])
  {
    var all := front + (digits + [':'] + text);
    var n := |front| + |digits| + 1;
    assert raw[..|all|] == all;
    assert raw[n + k..n + k + |text[k..]|] == all[n + k..n + k + |text[k..]|] == text[k..];
  }

  /** Behind the hit the file goes on with the rest of the comment. */
  lemma BehindComment(p: Publication, info: Info, text: Bytes, k: nat)
    requires HasTracker(p) && !TrackerImitates(p) && p.comment == Some(text)
    requires First(text) == Some(k) && !Holds(text, 0, INFO)
    ensures k + 6 <= |text| && Holds(File(p, info), Hit(p) + 6, text[k + 6..])
  {
    assert |INFO_PATTERN| == 6;
    CommentHit(p, text, k);
    CommentStands(p, info, text);
    PrefixHolds(BeforeComment(p), Decimal(|text|), text, File(p, info), k + 6);
  }

  lemma PatternLeads(slice: Bytes, rest: Bytes)
    ensures var text := INFO_PATTERN + slice + rest;
      First(text) == Some(0) && !Holds(text, 0, INFO) && text[6..] == slice + rest
  {
    var text := INFO_PATTERN + slice + rest;
    assert text[0..6] == INFO_PATTERN;
    FirstIs(text, 0);
    assert text[0..4][0] == '4' && INFO[0] == 'i';
  }

  lemma StandsBehind(front: Bytes, text: Bytes, raw: Bytes, start: nat, slice: Bytes, rest: Bytes)
    requires front + EncodeText(text) <= raw && start == |front| + |Decimal(|text|)| + 7
    requires |text| >= 6 && text[6..] == slice + rest
    ensures Holds(raw, start, slice)
  {
    PrefixHolds(front, Decimal(|text|), text, raw, 6);
    HoldsLeft(raw, start, text[6..], slice, rest);
  }

  lemma HarmlessHoldsAs(p: Publication, info: Info, text: Bytes, slice: Bytes, rest: Bytes)
    requires HasTracker(p) && !TrackerImitates(p) && p.comment == Some(text)
    requires First(text) == Some(0) && !Holds(text, 0, INFO) && |text| >= 6 && text[6..] == slice + rest
    ensures CommentImitates(p) && Holds(File(p, info), Hit(p) + 6, slice)
  {
    CommentHit(p, text, 0);
    CommentStands(p, info, text);
    StandsBehind(BeforeComment(p), text, File(p, info), Hit(p) + 6, slice, rest);
  }

  lemma HoldsLeft(raw: Bytes, start: nat, whole: Bytes, slice: Bytes, rest: Bytes)
    requires Holds(raw, start, whole) && whole == slice + rest
    ensures Holds(raw, start, slice)
  {
    HoldsSplit(raw, start, slice, rest);
  }

  lemma HarmlessHolds(p: Publication, info: Info, slice: Bytes, rest: Bytes)
    requires HasTracker(p) && !TrackerImitates(p) && p.comment == Some(INFO_PATTERN + slice + rest)
    ensures CommentImitates(p) && Holds(File(p, info), Hit(p) + 6, slice)
  {
    PatternLeads(slice, rest);
    HarmlessHoldsAs(p, info, p.comment.value, slice, rest);
  }

  /** Not every imitation misleads: a comment of the pattern and the info encoding itself is harmless. */
  lemma ImitatorMayBeHarmless(p: Publication, info: Info, rest: Bytes, calls: nat)
    requires HasTracker(p) && !TrackerImitates(p) && p.comment == Some(INFO_PATTERN + Identity(info) + rest)
    requires calls >= 2 * |File(p, info)| + 1
    ensures CommentImitates(p) && InfoSlice(File(p, info), calls) == Some(Identity(info))
  {
    HarmlessHolds(p, info, Identity(info), rest);
    InfohashExactly(p, info, calls);
  }

  const MISLEADING: Bytes := ['x', '4', ':', 'i', 'n', 'f', 'o', '3', ':', 'a', 'b', 'c']
  const MISREAD: Bytes := ['3', ':', 'a', 'b', 'c']

  lemma MisleadingMatch()
    ensures First(MISLEADING) == Some(1) && !Holds(MISLEADING, 0, INFO) && MISLEADING[7..] == MISREAD
    ensures Encode(Text(['a', 'b', 'c'])) == MISREAD
  {
    assert MISLEADING[1..7] == INFO_PATTERN;
    assert !Holds(MISLEADING, 0, INFO_PATTERN) by {
      PatternAt(MISLEADING, 0);
    }
    FirstIs(MISLEADING, 1);
    assert MISLEADING[0..4][0] == 'x';
    assert Decimal(3) == ['3'];
  }

  /** With the comment `x4:info3:abc` the bytes `3:abc` are taken for the info dictionary. */
  lemma MisleadingComment(p: Publication, info: Info, calls: nat)
    requires HasTracker(p) && !TrackerImitates(p) && p.comment == Some(MISLEADING)
    requires calls >= 2 * |File(p, info)| + 1
    ensures InfoSlice(File(p, info), calls) == Some(MISREAD) && MISREAD != Identity(info)
  {
    MisleadingMatch();
    IdentityOpens(info);
    BehindComment(p, info, MISLEADING, 1);
    HitExactly(p, info);
    var raw, start := File(p, info), Hit(p) + 6;
    assert |INFO_PATTERN| == 6;
    ReadEncoding(raw, start, Text(['a', 'b', 'c']), calls);
    SliceForward(raw, start, start + 5);
  }

  const UNREADABLE: Bytes := ['i', 'n', 'f', 'o', '.', 'e', 'x', 'a', 'm', 'p', 'l', 'e', ':', '1']
  const NO_LENGTH: Bytes := ['.', 'e', 'x', 'a', 'm', 'p', 'l', 'e']

  lemma UnreadableText()
    ensures EncodeText(UNREADABLE) == ['1', '4', ':'] + UNREADABLE && |UNREADABLE| == 14
  {
    assert Decimal(1) == ['1'] && Decimal(14) == ['1', '4'];
  }

  lemma UnreadableMatch()
    ensures Imitates(UNREADABLE) && First(EncodeText(UNREADABLE)) == Some(1)
    ensures EncodeText(UNREADABLE)[7..] == NO_LENGTH + [':', '1']
  {
    UnreadableText();
    assert UNREADABLE[0..4] == INFO;
    var data := EncodeText(UNREADABLE);
    assert data[1..7] == INFO_PATTERN;
    PatternAt(data, 0);
    FirstIs(data, 1);
  }

  /** The file, the search's hit, and what stands behind it. */
  lemma UnreadableHit(p: Publication, info: Info) returns (raw: Bytes, hit: nat)
    requires HasTracker(p) && p.tiers[0][0] == UNREADABLE
    ensures raw == File(p, info) && First(raw) == Some(hit) && Holds(raw, hit + 6, NO_LENGTH + [':', '1'])
  {
    raw, hit := File(p, info), Hit(p);
    HitExactly(p, info);
    AnnounceHit(p);
    AnnouncePrefix(p, info);
    UnreadableBehind(['d'] + EncodeText(ANNOUNCE), raw);
  }

  lemma UnreadableBehind(key: Bytes, raw: Bytes)
    requires key + EncodeText(UNREADABLE) <= raw
    ensures Holds(raw, |key| + 7, NO_LENGTH + [':', '1'])
  {
    UnreadableMatch();
    var text := EncodeText(UNREADABLE);
    assert (key + text)[|key| + 7..] == text[7..];
    PrefixPart(key + text, raw, |key| + 7);
  }

  lemma UnreadableImitates(p: Publication)
    requires HasTracker(p) && p.tiers[0][0] == UNREADABLE
    ensures TrackerImitates(p)
  {
    UnreadableMatch();
  }

  lemma AnnounceHit(p: Publication)
    requires HasTracker(p) && p.tiers[0][0] == UNREADABLE
    ensures Hit(p) == |['d'] + EncodeText(ANNOUNCE)| + 1
  {
    UnreadableMatch();
    var first := AnnounceChunks(p);
    var rest := ListChunks(p) + CommentChunks(p) + [LastChunk(p)];
    assert Chunks(p) == first + rest;
    assert first[1].Chosen? && Imitates(first[1].text);
    ImitationAppend(first, rest);
    assert first[1..] == [Chosen(UNREADABLE)];
    assert Imitation([Chosen(UNREADABLE)]) == Some(1);
  }

  lemma AnnouncePrefix(p: Publication, info: Info)
    requires HasTracker(p)
    ensures (['d'] + EncodeText(ANNOUNCE)) + EncodeText(p.tiers[0][0]) <= File(p, info)
  {
    BeforeIsPrefix(p, info);
    ChunksJoined(p);
    AnnounceWritten(p);
    var k, t := EncodeText(ANNOUNCE), EncodeText(p.tiers[0][0]);
    assert ['d'] + (k + t) == (['d'] + k) + t;
    assert Joined(AnnounceChunks(p)) <= Joined(Chunks(p));
  }

  lemma PrefixPart(front: Bytes, raw: Bytes, k: nat)
    requires front <= raw && k <= |front|
    ensures Holds(raw, k, front[k..])
  {
    assert raw[..|front|] == front;
    assert raw[k..k + |front[k..]|] == front[k..];
  }

  lemma NoLengthRaises(raw: Bytes, start: nat)
    requires Holds(raw, start, NO_LENGTH + [':', '1'])
    ensures Slice(raw, start, start + 1) == ['.'] && ReadText(ParseInt, raw, start) == Raised(ValueError)
  {
    var part := NO_LENGTH + [':', '1'];
    HoldsAt(raw, start, part, 0);
    HoldsAt(raw, start, part, 8);
    KindAt(raw, start);
    HoldsSplit(raw, start, NO_LENGTH, [':', '1']);
    FindAt(raw, ':', start, start + 8);
    SliceForward(raw, start, start + 8);
    NoLength();
  }

  lemma NoLength()
    ensures ParseInt(NO_LENGTH) == None
  {
    assert Strip(NO_LENGTH) == NO_LENGTH;
    assert !IsDigit(NO_LENGTH[|NO_LENGTH| - 1]);
  }

  lemma NoSlice(raw: Bytes, hit: nat, calls: nat)
    requires First(raw) == Some(hit) && Holds(raw, hit + 6, NO_LENGTH + [':', '1'])
    ensures InfoSlice(raw, calls) == None
  {
    assert |INFO_PATTERN| == 6;
    NoLengthRaises(raw, hit + 6);
  }

  lemma NoDescription(raw: Bytes, calls: nat)
    requires InfoSlice(raw, calls) == None
    ensures Describe(raw, calls) == None
  {
  }

  /** With the tracker `info.example:1` nothing can be read: what follows the hit is no length. */
  lemma UnreadableTracker(p: Publication, info: Info, calls: nat)
    requires HasTracker(p) && p.tiers[0][0] == UNREADABLE
    ensures TrackerImitates(p) && Describe(File(p, info), calls) == None
  {
    UnreadableImitates(p);
    var raw, hit := UnreadableHit(p, info);
    NoSlice(raw, hit, calls);
    NoDescription(raw, calls);
  }
}
