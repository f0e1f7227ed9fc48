/** What every run of the log stream keeps. */
module LogStreamTheorems {
  import opened Options
  import opened LogStream

  // ----- the newline search

  ghost predicate NoLine(file: Bytes, from: nat, to: nat) {
    forall i :: from <= i < to && i < |file| ==> file[i] != NEWLINE
  }

  function Max(a: nat, b: nat): nat {
    if a < b then b else a
  }

  function Min(a: nat, b: nat): nat {
    if a < b then a else b
  }

  lemma ReadShows(file: Bytes, offset: nat, n: nat, i: nat)
    requires i < |Read(file, offset, n)|
    ensures offset + i < |file| && Read(file, offset, n)[i] == file[offset + i]
  {
  }

  lemma ReadHasNoLine(file: Bytes, offset: nat, n: nat, k: nat)
    requires k <= |Read(file, offset, n)| && forall i :: 0 <= i < k ==> Read(file, offset, n)[i] != NEWLINE
    ensures NoLine(file, offset, offset + k)
  {
    forall i | offset <= i < offset + k && i < |file|
      ensures file[i] != NEWLINE
    {
      ReadShows(file, offset, n, i - offset);
      assert Read(file, offset, n)[i - offset] != NEWLINE;
    }
  }

  lemma NoLineJoins(file: Bytes, a: nat, b: nat, c: nat)
    requires a <= b && NoLine(file, a, b) && NoLine(file, b, c)
    ensures NoLine(file, a, c)
  {
  }

  /** One call that found nothing and moved on. */
  lemma Advances(file: Bytes, offset: nat, readSize: nat)
    requires var got := Read(file, offset, readSize); got != [] && IndexOf(got) == |got|
    ensures offset < offset + |Read(file, offset, readSize)| <= |file|
    ensures NoLine(file, offset, offset + |Read(file, offset, readSize)|)
  {
    var got := Read(file, offset, readSize);
    ReadHasNoLine(file, offset, readSize, |got|);
    ReadShows(file, offset, readSize, |got| - 1);
  }

  lemma FindsHere(file: Bytes, offset: nat, readSize: nat)
    requires var got := Read(file, offset, readSize); IndexOf(got) < |got|
    ensures var at := offset + IndexOf(Read(file, offset, readSize));
      at < |file| && file[at] == NEWLINE && NoLine(file, offset, at)
  {
    var got := Read(file, offset, readSize);
    ReadHasNoLine(file, offset, readSize, IndexOf(got));
    ReadShows(file, offset, readSize, IndexOf(got));
  }

  ghost predicate LeftAt(file: Bytes, offset: nat, readSize: nat, limit: nat, found: Search) {
    match found
    case Found(at) => offset < at <= |file| && file[at - 1] == NEWLINE && NoLine(file, offset, at - 1)
    case Stopped(at) => offset <= at <= Max(|file|, offset) && at + readSize > limit && NoLine(file, offset, at)
    case Endless => readSize == 0 || (NoLine(file, offset, |file|) && Max(|file|, offset) + readSize <= limit)
  }

  lemma LeftAtJoins(file: Bytes, offset: nat, next: nat, readSize: nat, limit: nat, found: Search)
    requires offset <= next <= |file| && NoLine(file, offset, next) && LeftAt(file, next, readSize, limit, found)
    ensures LeftAt(file, offset, readSize, limit, found)
  {
    match found
    case Found(at) => NoLineJoins(file, offset, next, at - 1);
    case Stopped(at) => NoLineJoins(file, offset, next, at);
    case Endless =>
      if readSize != 0 {
        NoLineJoins(file, offset, next, |file|);
      }
  }

  /**
   Where the search leaves the handle: just after the first newline at or past its start, or short of
   any newline at an offset from which another read would pass the limit.
   */
  lemma {:induction false} FindLineSpec(file: Bytes, offset: nat, readSize: nat, limit: nat)
    ensures LeftAt(file, offset, readSize, limit, FindLine(file, offset, readSize, limit))
    decreases |file| - offset
  {
    if offset + readSize <= limit {
      var got := Read(file, offset, readSize);
      if IndexOf(got) < |got| {
        FindsHere(file, offset, readSize);
      } else if got != [] {
        Advances(file, offset, readSize);
        FindLineSpec(file, offset + |got|, readSize, limit);
        LeftAtJoins(file, offset, offset + |got|, readSize, limit, FindLine(file, offset, readSize, limit));
      }
    }
  }

  /** The search never returns exactly when no newline follows and a read at the end stays within the limit. */
  lemma EndlessExactly(file: Bytes, offset: nat, readSize: nat, limit: nat)
    ensures FindLine(file, offset, readSize, limit).Endless? <==>
      if readSize == 0 then offset <= limit
      else NoLine(file, offset, |file|) && Max(|file|, offset) + readSize <= limit
  {
    FindLineSpec(file, offset, readSize, limit);
    var found := FindLine(file, offset, readSize, limit);
    if found.Found? && readSize != 0 && NoLine(file, offset, |file|) {
      assert false;
    }
  }

  /** Endless means what it says: the recursion has not returned after any number of calls. */
  lemma {:induction false} EndlessNeverReturns(file: Bytes, offset: nat, readSize: nat, limit: nat, calls: nat)
    requires FindLine(file, offset, readSize, limit).Endless?
    ensures FindLineWithin(file, offset, readSize, limit, calls) == None
    decreases calls
  {
    if calls > 0 {
      EndlessNeverReturns(file, offset + |Read(file, offset, readSize)|, readSize, limit, calls - 1);
    }
  }

  /** And every other outcome is what the recursion returns, after at most one call per byte left and one more. */
  lemma {:induction false} FindLineReturns(file: Bytes, offset: nat, readSize: nat, limit: nat, calls: nat)
    requires !FindLine(file, offset, readSize, limit).Endless?
    requires calls > Max(|file|, offset) - offset
    ensures FindLineWithin(file, offset, readSize, limit, calls) == Some(FindLine(file, offset, readSize, limit).at)
    decreases calls
  {
    if offset + readSize <= limit {
      var got := Read(file, offset, readSize);
      if IndexOf(got) == |got| {
        Advances(file, offset, readSize);
        FindLineReturns(file, offset + |got|, readSize, limit, calls - 1);
      }
    }
  }

  // ----- the size limit

  /** A chunk that one write can place: it leaves room for a header in half the file, or is refused whole. */
  ghost predicate Fits(c: Config, n: nat) {
    |c.header| + n <= c.Centre() || n > c.limit
  }

  ghost predicate FileOf(w: Written, limit: nat) {
    w.Hangs? || |w.file| < limit
  }

  lemma HalveBounded(c: Config, file: Bytes, fault: Fault)
    requires |file| < c.limit && |c.header| <= c.Centre()
    ensures FileOf(Halve(c, file, fault), c.limit)
    ensures Halve(c, file, fault).Wrote? ==>
      Halve(c, file, fault).offset == |Halve(c, file, fault).file| < |c.header| + (c.limit - c.Centre())
  {
    FindLineSpec(file, c.Centre(), c.readSize, c.limit);
  }

  lemma WriteOutBounded(c: Config, file: Bytes, offset: nat, data: Bytes, fault: Fault)
    requires offset <= |file| < c.limit && |c.header| <= c.Centre()
    requires Fits(c, |data|) || offset + |data| < c.limit
    ensures FileOf(WriteOut(c, file, offset, data, fault), c.limit)
  {
    HalveBounded(c, file, fault);
  }

  /** The chunk the event hands to a write through the handle. */
  ghost predicate ChunkFits(c: Config, s: Stream, e: Event) {
    Fits(c, if e.Log? then |e.data| else |s.buffer|)
  }

  /** Every chunk of a run fits, the flushed buffers included. */
  ghost predicate AllFit(c: Config, s: Stream, events: seq<Event>)
    requires WellFormed(s)
    decreases |events|
  {
    events != [] ==> ChunkFits(c, s, events[0]) && AllFit(c, Apply(c, s, events[0]), events[1..])
  }

  lemma ApplyBounded(c: Config, s: Stream, e: Event)
    requires WellFormed(s) && |s.file| < c.limit && |c.header| <= c.Centre() && ChunkFits(c, s, e)
    ensures |Apply(c, s, e).file| < c.limit
  {
    var io := e.io;
    WriteOutBounded(c, s.file, 0, c.header, io.header);
    var first := OpenWithHeader(c, s.file, io);
    if first.Wrote? {
      WriteOutBounded(c, first.file, first.offset, if e.Log? then e.data else s.buffer, io.data);
    }
    if s.phase.Opened? && e.Log? {
      WriteOutBounded(c, s.file, s.phase.offset, e.data, io.data);
    }
  }

  /** The file stays below the limit through writes, truncations, failures and reopens. */
  lemma {:induction false} StaysBelowLimit(c: Config, s: Stream, events: seq<Event>)
    requires WellFormed(s) && |s.file| < c.limit && |c.header| <= c.Centre() && AllFit(c, s, events)
    ensures |Run(c, s, events).file| < c.limit
    decreases |events|
  {
    if events != [] {
      ApplyBounded(c, s, events[0]);
      StaysBelowLimit(c, Apply(c, s, events[0]), events[1..]);
    }
  }

  /** A condition on the constants and the log alone: half the file holds a header and a full buffer. */
  lemma {:induction false} CapacitySuffices(c: Config, s: Stream, events: seq<Event>)
    requires WellFormed(s) && |s.buffer| <= c.capacity && |c.header| + c.capacity <= c.Centre()
    requires forall e :: e in events && e.Log? ==> Fits(c, |e.data|)
    ensures AllFit(c, s, events)
    decreases |events|
  {
    if events != [] {
      assert events[0] in events;
      CapacitySuffices(c, Apply(c, s, events[0]), events[1..]);
    }
  }

  // ----- the search ends

  ghost predicate EndsLine(data: Bytes) {
    data != [] && data[|data| - 1] == NEWLINE
  }

  /** Less than half the limit, or refused whole. */
  ghost predicate Short(c: Config, n: nat) {
    2 * n < c.limit || n > c.limit
  }

  /** A newline lies just before the handle. */
  ghost predicate AfterLine(file: Bytes, offset: nat) {
    0 < offset <= |file| && file[offset - 1] == NEWLINE
  }

  lemma PutEndsLine(file: Bytes, offset: nat, data: Bytes)
    requires offset <= |file| && EndsLine(data)
    ensures AfterLine(Put(file, offset, data), offset + |data|)
  {
    var r := Put(file, offset, data);
    assert r[offset..offset + |data|][|data| - 1] == NEWLINE;
  }

  lemma SearchEnds(c: Config, file: Bytes, offset: nat, data: Bytes)
    requires c.readSize > 0 && AfterLine(file, offset) && 2 * |data| < c.limit <= offset + |data|
    ensures !FindLine(file, c.Centre(), c.readSize, c.limit).Endless?
  {
    EndlessExactly(file, c.Centre(), c.readSize, c.limit);
    assert c.Centre() <= offset - 1 && file[offset - 1] == NEWLINE;
  }

  lemma WriteOutEnds(c: Config, file: Bytes, offset: nat, data: Bytes, fault: Fault)
    requires c.readSize > 0 && EndsLine(data) && Short(c, |data|)
    requires AfterLine(file, offset) || (offset == 0 && 2 * |data| < c.limit)
    ensures var w := WriteOut(c, file, offset, data, fault);
      !w.Hangs? && (w.Wrote? ==> AfterLine(w.file, w.offset))
  {
    if |data| <= c.limit {
      if offset + |data| >= c.limit {
        SearchEnds(c, file, offset, data);
        var w := Halve(c, file, fault);
        if w.Wrote? {
          PutEndsLine(w.file, w.offset, data);
        }
      } else {
        PutEndsLine(file, offset, data);
      }
    }
  }

  /** A queue that runs, a handle after a newline, a buffer of whole line ends. */
  ghost predicate InLines(s: Stream) {
    && !s.hung
    && (s.phase.Opened? ==> AfterLine(s.file, s.phase.offset))
    && (s.buffer == [] || EndsLine(s.buffer))
  }

  ghost predicate ChunkShort(c: Config, s: Stream, e: Event) {
    && (e.Log? ==> EndsLine(e.data) && Short(c, |e.data|))
    && (e.Tick? ==> Short(c, |s.buffer|))
  }

  ghost predicate AllShort(c: Config, s: Stream, events: seq<Event>)
    requires WellFormed(s)
    decreases |events|
  {
    events != [] ==> ChunkShort(c, s, events[0]) && AllShort(c, Apply(c, s, events[0]), events[1..])
  }

  lemma LastEndsLine(buffer: Bytes, data: Bytes, n: nat)
    requires EndsLine(data)
    ensures Last(buffer + data, n) == [] || EndsLine(Last(buffer + data, n))
  {
  }

  lemma ApplyInLines(c: Config, s: Stream, e: Event)
    requires WellFormed(s) && InLines(s) && ChunkShort(c, s, e)
    requires c.readSize > 0 && EndsLine(c.header) && 2 * |c.header| < c.limit
    ensures InLines(Apply(c, s, e))
  {
    var io := e.io;
    var data := if e.Log? then e.data else s.buffer;
    WriteOutEnds(c, s.file, 0, c.header, io.header);
    var first := OpenWithHeader(c, s.file, io);
    if first.Wrote? && data != [] {
      WriteOutEnds(c, first.file, first.offset, data, io.data);
    }
    if e.Log? {
      LastEndsLine(s.buffer, data, c.capacity);
      if s.phase.Opened? {
        WriteOutEnds(c, s.file, s.phase.offset, data, io.data);
      }
    }
  }

  /**
   When every chunk ends a line and is shorter than half the limit, flushed buffers and the header
   included, no newline search of the run is endless, whatever fails on the way.
   */
  lemma {:induction false} SearchesEnd(c: Config, s: Stream, events: seq<Event>)
    requires WellFormed(s) && InLines(s) && AllShort(c, s, events)
    requires c.readSize > 0 && EndsLine(c.header) && 2 * |c.header| < c.limit
    ensures InLines(Run(c, s, events))
    decreases |events|
  {
    if events != [] {
      ApplyInLines(c, s, events[0]);
      SearchesEnd(c, Apply(c, s, events[0]), events[1..]);
    }
  }

  // ----- what hangs

  /** A search from the middle of `file` would never return. */
  ghost predicate Fruitless(c: Config, file: Bytes) {
    c.readSize == 0 || (NoLine(file, c.Centre(), |file|) && Max(|file|, c.Centre()) + c.readSize <= c.limit)
  }

  /** No call before the search throws. */
  ghost predicate Searches(fault: Fault) {
    !fault.AtOffset? && !fault.AtSeek? && !fault.AtRead?
  }

  ghost predicate WriteHangs(c: Config, file: Bytes, offset: nat, data: Bytes, fault: Fault) {
    |data| <= c.limit <= offset + |data| && Searches(fault) && Fruitless(c, file)
  }

  lemma WriteHangsExactly(c: Config, file: Bytes, offset: nat, data: Bytes, fault: Fault)
    requires offset <= |file|
    ensures WriteOut(c, file, offset, data, fault).Hangs? <==> WriteHangs(c, file, offset, data, fault)
  {
    EndlessExactly(file, c.Centre(), c.readSize, c.limit);
  }

  /** Only a header of exactly the limit is searched for room when the file is opened. */
  ghost predicate HeaderHangs(c: Config, file: Bytes, io: Io) {
    io.opens && |c.header| == c.limit && Searches(io.header) && Fruitless(c, file)
  }

  ghost predicate HeaderFits(c: Config, io: Io) {
    io.opens && |c.header| < c.limit && !io.header.AtOffset? && !io.header.AtData?
  }

  /** What opening the file leaves when the header is shorter than the limit, as it is made to be. */
  lemma OpenHangsExactly(c: Config, file: Bytes, io: Io)
    ensures OpenWithHeader(c, file, io).Hangs? <==> HeaderHangs(c, file, io)
    ensures |c.header| != c.limit ==> (OpenWithHeader(c, file, io).Wrote? <==> HeaderFits(c, io))
    ensures HeaderFits(c, io) ==> OpenWithHeader(c, file, io) == Wrote(Put(file, 0, c.header), |c.header|)
    ensures !io.opens || |c.header| > c.limit ==> OpenWithHeader(c, file, io) == Threw(file)
  {
    WriteHangsExactly(c, file, 0, c.header, io.header);
  }

  /** A write of `data` through a file that is opened for it. */
  ghost predicate ReopenHangs(c: Config, file: Bytes, data: Bytes, io: Io) {
    var first := OpenWithHeader(c, file, io);
    HeaderHangs(c, file, io) || (first.Wrote? && WriteHangs(c, first.file, first.offset, data, io.data))
  }

  ghost predicate EventHangs(c: Config, s: Stream, e: Event) {
    Happens(s, e) &&
    match s.phase
    case Closed => e.Log? && ReopenHangs(c, s.file, e.data, e.io)
    case Opened(offset) => e.Log? && WriteHangs(c, s.file, offset, e.data, e.io.data)
    case Waiting => e.Tick? && (if s.buffer == [] then HeaderHangs(c, s.file, e.io) else ReopenHangs(c, s.file, s.buffer, e.io))
  }

  /** The exact condition under which an event hangs the queue, in any phase of the stream. */
  lemma HangsExactly(c: Config, s: Stream, e: Event)
    requires WellFormed(s) && !s.hung
    ensures Apply(c, s, e).hung <==> EventHangs(c, s, e)
  {
    var data := if e.Log? then e.data else s.buffer;
    OpenHangsExactly(c, s.file, e.io);
    var first := OpenWithHeader(c, s.file, e.io);
    if first.Wrote? {
      WriteHangsExactly(c, first.file, first.offset, data, e.io.data);
    }
    if s.phase.Opened? {
      WriteHangsExactly(c, s.file, s.phase.offset, data, e.io.data);
    }
  }

  /** A run ends hung exactly when one of its events hangs in the state it finds. */
  lemma {:induction false} RunHangsExactly(c: Config, s: Stream, events: seq<Event>)
    requires WellFormed(s) && !s.hung
    ensures Run(c, s, events).hung <==>
      exists k :: 0 <= k < |events| && EventHangs(c, Run(c, s, events[..k]), events[k])
    decreases |events|
  {
    if events != [] {
      var next, rest := Apply(c, s, events[0]), events[1..];
      HangsExactly(c, s, events[0]);
      forall k | 0 < k < |events|
        ensures Run(c, s, events[..k]) == Run(c, next, rest[..k - 1]) && rest[k - 1] == events[k]
      {
        assert events[..k][1..] == rest[..k - 1];
      }
      if next.hung {
        HungForEver(c, next, rest);
        assert EventHangs(c, Run(c, s, events[..0]), events[0]);
      } else {
        RunHangsExactly(c, next, rest);
        if k :| 0 <= k < |rest| && EventHangs(c, Run(c, next, rest[..k]), rest[k]) {
          assert EventHangs(c, Run(c, s, events[..k + 1]), events[k + 1]);
        }
      }
    }
  }

  lemma {:induction false} HungForEver(c: Config, s: Stream, events: seq<Event>)
    requires WellFormed(s) && s.hung
    ensures Run(c, s, events) == s
    decreases |events|
  {
    if events != [] {
      HungForEver(c, s, events[1..]);
    }
  }

  const SMALL: Config := Config(8, [NEWLINE], 100, 1)
  const WORKS: Io := Io(true, Fine, Fine)
  const WORD: Bytes := [65, 65, 65]

  lemma FirstWord()
    ensures Apply(SMALL, Start([]), Log(WORD, WORKS)) == Stream([NEWLINE] + WORD, Opened(4), false, [], false)
  {
    var h := OpenWithHeader(SMALL, [], WORKS);
    assert h == Wrote([NEWLINE], 1);
    assert Put([NEWLINE], 1, WORD) == [NEWLINE] + WORD;
  }

  lemma SecondWord(s: Stream)
    requires s == Stream([NEWLINE] + WORD, Opened(4), false, [], false)
    ensures Apply(SMALL, s, Log(WORD, WORKS)) == Stream([NEWLINE] + WORD + WORD, Opened(7), false, [], false)
  {
    assert Put(s.file, 4, WORD) == [NEWLINE] + WORD + WORD;
  }

  lemma ThirdWord(s: Stream)
    requires s == Stream([NEWLINE] + WORD + WORD, Opened(7), false, [], false)
    ensures Apply(SMALL, s, Log(WORD, WORKS)).hung
  {
    HangsExactly(SMALL, s, Log(WORD, WORKS));
  }

  lemma RunStep(c: Config, s: Stream, e: Event, rest: seq<Event>)
    requires WellFormed(s)
    ensures Run(c, s, [e] + rest) == Run(c, Apply(c, s, e), rest)
  {
    assert ([e] + rest)[1..] == rest;
  }

  /** Without the line ends the searches need not end: three short chunks, nothing failing. */
  lemma UnendedLinesHang()
    ensures var e := Log(WORD, WORKS); Run(SMALL, Start([]), [e] + ([e] + ([e] + []))).hung
    ensures Short(SMALL, |WORD|) && EndsLine(SMALL.header) && 2 * |SMALL.header| < SMALL.limit
  {
    var e := Log(WORD, WORKS);
    FirstWord();
    var s1 := Apply(SMALL, Start([]), e);
    SecondWord(s1);
    var s2 := Apply(SMALL, s1, e);
    ThirdWord(s2);
    RunStep(SMALL, Start([]), e, [e] + ([e] + []));
    RunStep(SMALL, s1, e, [e] + []);
    RunStep(SMALL, s2, e, []);
  }

  /** What a successful truncation retains: a suffix of the old file that begins just after its first
      newline in the second half, unless the search came within a read of the limit. */
  lemma RetainedTail(c: Config, file: Bytes, fault: Fault)
    requires Halve(c, file, fault).Wrote?
    ensures exists at: nat ::
      && Halve(c, file, fault).file == c.header + (if at <= |file| then file[at..] else [])
      && Halve(c, file, fault).offset == |Halve(c, file, fault).file|
      && c.limit / 2 <= at
      && (|| (c.limit / 2 < at <= |file| && file[at - 1] == NEWLINE && NoLine(file, c.limit / 2, at - 1))
          || (at + c.readSize > c.limit && NoLine(file, c.limit / 2, at)))
  {
    FindLineSpec(file, c.Centre(), c.readSize, c.limit);
    var at := FindLine(file, c.Centre(), c.readSize, c.limit).at;
    assert Halve(c, file, fault).file == c.header + (if at <= |file| then file[at..] else []);
  }

  /** What a truncated file would hold in the end. */
  function Halved(c: Config, file: Bytes): Bytes {
    var found := FindLine(file, c.limit / 2, c.readSize, c.limit);
    if found.Endless? then [] else c.header + Tail(file, found.at)
  }

  /** A truncation that throws leaves the file as it was, or as much of the new one as it got out: it fails
      before it truncates, or within the header, or within the tail. */
  lemma ThrownTruncation(c: Config, file: Bytes, fault: Fault)
    requires Halve(c, file, fault).Threw?
    ensures Halve(c, file, fault).file ==
      if fault.AtSeek? || fault.AtRead? || fault.AtTruncate? then file
      else if fault.AtHeader? then c.header[..Min(fault.wrote, |c.header|)]
      else Halved(c, file)[..Min(|c.header| + fault.wrote, |Halved(c, file)|)]
    ensures Halve(c, file, fault).file == file || Halve(c, file, fault).file <= Halved(c, file)
  {
  }

  /** A write that throws keeps everything before the handle, or what a truncation of it left. */
  lemma ThrownWrite(c: Config, file: Bytes, offset: nat, data: Bytes, fault: Fault)
    requires offset <= |file| && WriteOut(c, file, offset, data, fault).Threw?
    ensures var left := WriteOut(c, file, offset, data, fault).file;
      if offset + |data| < c.limit || |data| > c.limit || fault.AtOffset? then
        && |left| >= |file| && left[..offset] == file[..offset]
        && (if fault.AtData? && |data| <= c.limit then data[..Min(fault.wrote, |data|)] <= left[offset..] else left == file)
      else left == file || left <= Halved(c, file) || Halved(c, file) <= left
  {
  }

  // ----- the buffer

  /** A write of `data` through a file opened for it throws, in opening or in writing. */
  predicate OpenedWriteThrows(c: Config, file: Bytes, data: Bytes, io: Io) {
    var first := OpenWithHeader(c, file, io);
    first.Threw? || (first.Wrote? && WriteOut(c, first.file, first.offset, data, io.data).Threw?)
  }

  /** A chunk that does not reach the file now: it arrives while the stream waits, or its write throws. */
  predicate PutOff(c: Config, s: Stream, data: Bytes, io: Io)
    requires WellFormed(s)
  {
    match s.phase
    case Waiting => true
    case Opened(offset) => WriteOut(c, s.file, offset, data, io.data).Threw?
    case Closed => OpenedWriteThrows(c, s.file, data, io)
  }

  /** What the failing call left on the disk. */
  function LeftBehind(c: Config, file: Bytes, data: Bytes, io: Io): Bytes
    requires OpenedWriteThrows(c, file, data, io)
  {
    var first := OpenWithHeader(c, file, io);
    if first.Threw? then first.file else WriteOut(c, first.file, first.offset, data, io.data).file
  }

  /** A reopen that succeeds, and the flush with it if anything is buffered. */
  predicate Recovers(c: Config, s: Stream, io: Io) {
    var first := OpenWithHeader(c, s.file, io);
    first.Wrote? && (s.buffer == [] || WriteOut(c, first.file, first.offset, s.buffer, io.data).Wrote?)
  }

  /** Everything put off since the last successful reopen, untrimmed. */
  function Backlog(c: Config, s: Stream, e: Event, backlog: Bytes): Bytes
    requires WellFormed(s)
  {
    if !Happens(s, e) then backlog
    else
      match e
      case Tick(io) => if Recovers(c, s, io) then [] else backlog
      case Log(data, io) => if PutOff(c, s, data, io) then backlog + data else backlog
  }

  function RunBacklog(c: Config, s: Stream, events: seq<Event>, backlog: Bytes): Bytes
    requires WellFormed(s)
    decreases |events|
  {
    if events == [] then backlog
    else RunBacklog(c, Apply(c, s, events[0]), events[1..], Backlog(c, s, events[0], backlog))
  }

  lemma LastOfEnd(front: Bytes, end: Bytes, n: nat)
    requires n <= |end|
    ensures Last(front + end, n) == end[|end| - n..] == Last(end, n)
  {
  }

  /** Trimming early and then again is trimming once. */
  lemma LastOfLast(a: Bytes, b: Bytes, n: nat)
    ensures Last(Last(a, n) + b, n) == Last(a + b, n)
  {
    if |a| > n {
      var front, kept := a[..|a| - n], Last(a, n);
      assert front + (kept + b) == a + b;
      LastOfEnd(front, kept + b, n);
    }
  }

  /** What is put off is buffered, and the stream waits with its timer armed; nothing else makes it wait. */
  lemma PutOffWaits(c: Config, s: Stream, data: Bytes, io: Io)
    requires WellFormed(s) && !s.hung
    ensures var r := Apply(c, s, Log(data, io));
      && (r.phase.Waiting? <==> PutOff(c, s, data, io))
      && (PutOff(c, s, data, io) ==> r.timer && !r.hung && r.buffer == Last(s.buffer + data, c.capacity))
      && (!PutOff(c, s, data, io) ==> r.hung || (r.phase.Opened? && !r.timer && r.buffer == []))
  {
  }

  /** The disk then holds what the failing call left. */
  lemma PutOffLeaves(c: Config, s: Stream, data: Bytes, io: Io)
    requires WellFormed(s) && !s.hung && PutOff(c, s, data, io)
    ensures Apply(c, s, Log(data, io)).file ==
      match s.phase
      case Waiting => s.file
      case Opened(offset) => WriteOut(c, s.file, offset, data, io.data).file
      case Closed => LeftBehind(c, s.file, data, io)
  {
  }

  /** A chunk that reaches the file stands before the handle. */
  lemma LoggedStands(c: Config, s: Stream, data: Bytes, io: Io)
    requires WellFormed(s) && !s.hung && !PutOff(c, s, data, io)
    ensures var r := Apply(c, s, Log(data, io));
      !r.hung ==> |data| <= r.phase.offset <= |r.file| && r.file[r.phase.offset - |data|..r.phase.offset] == data
  {
    var first := OpenWithHeader(c, s.file, io);
    if s.phase.Opened? && WriteOut(c, s.file, s.phase.offset, data, io.data).Wrote? {
      DataStands(c, s.file, s.phase.offset, data, io.data);
    } else if first.Wrote? && WriteOut(c, first.file, first.offset, data, io.data).Wrote? {
      DataStands(c, first.file, first.offset, data, io.data);
    }
  }

  /** A tick ends the waiting exactly when reopen and flush succeed; else all that waits is kept. */
  lemma TickRecovers(c: Config, s: Stream, io: Io)
    requires WellFormed(s) && !s.hung && s.timer
    ensures var r := Apply(c, s, Tick(io));
      && (Recovers(c, s, io) ==> !r.hung && r.phase.Opened? && !r.timer && r.buffer == [])
      && (!Recovers(c, s, io) ==> r.phase.Waiting? && r.timer && r.buffer == s.buffer)
  {
  }

  lemma TickLeaves(c: Config, s: Stream, io: Io)
    requires WellFormed(s) && !s.hung && s.timer && !Recovers(c, s, io) && !Apply(c, s, Tick(io)).hung
    ensures Apply(c, s, Tick(io)).file ==
      if s.buffer == [] then OpenWithHeader(c, s.file, io).file else LeftBehind(c, s.file, s.buffer, io)
  {
  }

  lemma ApplyBuffers(c: Config, s: Stream, e: Event, backlog: Bytes)
    requires WellFormed(s) && s.buffer == Last(backlog, c.capacity)
    ensures Apply(c, s, e).buffer == Last(Backlog(c, s, e, backlog), c.capacity)
  {
    if Happens(s, e) {
      match e
      case Log(data, io) =>
        PutOffWaits(c, s, data, io);
        LastOfLast(backlog, data, c.capacity);
      case Tick(io) => TickRecovers(c, s, io);
    }
  }

  /** The buffer is the last bytes of all that was put off since the last successful reopen. */
  lemma {:induction false} BufferIsLastOfBacklog(c: Config, s: Stream, events: seq<Event>, backlog: Bytes)
    requires WellFormed(s) && s.buffer == Last(backlog, c.capacity)
    ensures Run(c, s, events).buffer == Last(RunBacklog(c, s, events, backlog), c.capacity)
    decreases |events|
  {
    if events != [] {
      ApplyBuffers(c, s, events[0], backlog);
      BufferIsLastOfBacklog(c, Apply(c, s, events[0]), events[1..], Backlog(c, s, events[0], backlog));
    }
  }

  // ----- an outage

  /** Everything logged by some events. */
  function Logged(events: seq<Event>): Bytes {
    if events == [] then [] else (if events[0].Log? then events[0].data else []) + Logged(events[1..])
  }

  /** No event of the run recovers or hangs. */
  ghost predicate KeepsWaiting(c: Config, s: Stream, events: seq<Event>)
    requires WellFormed(s)
    decreases |events|
  {
    events != [] ==>
      && (events[0].Tick? ==> !Recovers(c, s, events[0].io))
      && !Apply(c, s, events[0]).hung
      && KeepsWaiting(c, Apply(c, s, events[0]), events[1..])
  }

  lemma WaitingStep(c: Config, s: Stream, e: Event, backlog: Bytes)
    requires WellFormed(s) && s.phase.Waiting? && !s.hung && s.buffer == Last(backlog, c.capacity)
    requires (e.Tick? ==> !Recovers(c, s, e.io)) && !Apply(c, s, e).hung
    ensures Apply(c, s, e).phase.Waiting?
    ensures Apply(c, s, e).buffer == Last(backlog + Logged([e]), c.capacity)
  {
    ApplyBuffers(c, s, e, backlog);
    assert Logged([e]) == if e.Log? then e.data else [];
    assert backlog + [] == backlog;
    if e.Tick? {
      TickRecovers(c, s, e.io);
    }
  }

  lemma LoggedCons(e: Event, events: seq<Event>, backlog: Bytes)
    ensures (backlog + Logged([e])) + Logged(events) == backlog + Logged([e] + events)
  {
    assert ([e] + events)[1..] == events;
  }

  /** While the stream waits, everything logged joins the backlog. */
  lemma {:induction false} WaitingCollects(c: Config, s: Stream, events: seq<Event>, backlog: Bytes)
    requires WellFormed(s) && s.phase.Waiting? && !s.hung && KeepsWaiting(c, s, events)
    requires s.buffer == Last(backlog, c.capacity)
    ensures var r := Run(c, s, events);
      r.phase.Waiting? && !r.hung && r.buffer == Last(backlog + Logged(events), c.capacity)
    decreases |events|
  {
    if events == [] {
      assert backlog + [] == backlog;
    } else {
      var e := events[0];
      WaitingStep(c, s, e, backlog);
      WaitingCollects(c, Apply(c, s, e), events[1..], backlog + Logged([e]));
      LoggedCons(e, events[1..], backlog);
      assert [e] + events[1..] == events;
    }
  }

  /** Open again with nothing buffered, and `kept` just before the handle. */
  ghost predicate Restored(s: Stream, kept: Bytes) {
    && s.phase.Opened? && s.buffer == [] && !s.hung && !s.timer
    && |kept| <= s.phase.offset <= |s.file| && s.file[s.phase.offset - |kept|..s.phase.offset] == kept
  }

  lemma FlushStands(c: Config, s: Stream, io: Io)
    requires WellFormed(s) && !s.hung && s.timer && Recovers(c, s, io)
    ensures Restored(Apply(c, s, Tick(io)), s.buffer)
  {
    TickRecovers(c, s, io);
    var first := OpenWithHeader(c, s.file, io);
    if s.buffer != [] {
      DataStands(c, first.file, first.offset, s.buffer, io.data);
    }
  }

  /** Data that was written stands before the handle. */
  lemma DataStands(c: Config, file: Bytes, offset: nat, data: Bytes, fault: Fault)
    requires offset <= |file| && WriteOut(c, file, offset, data, fault).Wrote?
    ensures var w := WriteOut(c, file, offset, data, fault);
      |data| <= w.offset <= |w.file| && w.file[w.offset - |data|..w.offset] == data
  {
  }

  /**
   An outage ends without loss: the chunk whose write failed, and all that was logged until a reopen
   succeeded, stand before the handle then, up to the capacity of the buffer.
   */
  lemma OutageLosesNothing(c: Config, s: Stream, data: Bytes, io: Io, events: seq<Event>, last: Io)
    requires WellFormed(s) && !s.hung && !s.phase.Waiting? && PutOff(c, s, data, io)
    requires KeepsWaiting(c, Apply(c, s, Log(data, io)), events)
    requires Recovers(c, Run(c, Apply(c, s, Log(data, io)), events), last)
    ensures var r := Apply(c, Run(c, Apply(c, s, Log(data, io)), events), Tick(last));
      Restored(r, Last(data + Logged(events), c.capacity))
    ensures |data| + |Logged(events)| <= c.capacity ==> Last(data + Logged(events), c.capacity) == data + Logged(events)
  {
    var down := Down(c, s, data, io);
    OutageEnds(c, down, events, data, last);
  }

  lemma OutageEnds(c: Config, down: Stream, events: seq<Event>, data: Bytes, last: Io)
    requires WellFormed(down) && down.phase.Waiting? && !down.hung && down.buffer == Last(data, c.capacity)
    requires KeepsWaiting(c, down, events) && Recovers(c, Run(c, down, events), last)
    ensures Restored(Apply(c, Run(c, down, events), Tick(last)), Last(data + Logged(events), c.capacity))
  {
    WaitingCollects(c, down, events, data);
    FlushStands(c, Run(c, down, events), last);
  }

  lemma Down(c: Config, s: Stream, data: Bytes, io: Io) returns (down: Stream)
    requires WellFormed(s) && !s.hung && !s.phase.Waiting? && PutOff(c, s, data, io)
    ensures down == Apply(c, s, Log(data, io)) && down.phase.Waiting? && !down.hung && down.buffer == Last(data, c.capacity)
  {
    down := Apply(c, s, Log(data, io));
    PutOffWaits(c, s, data, io);
    assert s.buffer + data == data;
  }

  // ----- what the file holds

  ghost predicate Suffix(x: Bytes, all: Bytes) {
    |x| <= |all| && all[|all| - |x|..] == x
  }

  /** The file is the header and then the end of everything logged. */
  ghost predicate Holds(c: Config, file: Bytes, logged: Bytes) {
    |c.header| <= |file| && file[..|c.header|] == c.header && Suffix(file[|c.header|..], logged)
  }

  lemma SuffixGrows(x: Bytes, all: Bytes, data: Bytes)
    requires Suffix(x, all)
    ensures Suffix(x + data, all + data)
  {
  }

  lemma SuffixOfSuffix(x: Bytes, all: Bytes, k: nat)
    requires Suffix(x, all) && k <= |x|
    ensures Suffix(x[k..], all)
  {
  }

  lemma HoldsGrows(c: Config, file: Bytes, logged: Bytes, data: Bytes)
    requires Holds(c, file, logged)
    ensures Put(file, |file|, data) == file + data && Holds(c, file + data, logged + data)
  {
    SuffixGrows(file[|c.header|..], logged, data);
    assert (file + data)[|c.header|..] == file[|c.header|..] + data;
    assert (file + data)[..|c.header|] == c.header;
  }

  lemma HoldsHalved(c: Config, file: Bytes, logged: Bytes, at: nat)
    requires Holds(c, file, logged) && |c.header| <= at
    ensures Holds(c, c.header + Tail(file, at), logged)
  {
    var kept := c.header + Tail(file, at);
    assert kept[|c.header|..] == Tail(file, at) && kept[..|c.header|] == c.header;
    if at <= |file| {
      SuffixOfSuffix(file[|c.header|..], logged, at - |c.header|);
      assert file[at..] == file[|c.header|..][at - |c.header|..];
    }
  }

  lemma WriteOutHolds(c: Config, file: Bytes, logged: Bytes, data: Bytes)
    requires Holds(c, file, logged) && |c.header| + |data| <= c.Centre()
    ensures var w := WriteOut(c, file, |file|, data, Fine);
      w.Hangs? || (w.Wrote? && w.offset == |w.file| && Holds(c, w.file, logged + data) && Suffix(data, w.file))
  {
    if |file| + |data| >= c.limit {
      var w := Halve(c, file, Fine);
      if w.Wrote? {
        FindLineSpec(file, c.Centre(), c.readSize, c.limit);
        HoldsHalved(c, file, logged, FindLine(file, c.Centre(), c.readSize, c.limit).at);
        HoldsGrows(c, w.file, logged, data);
      }
    } else {
      HoldsGrows(c, file, logged, data);
    }
  }

  /** The chunks as events of a system where nothing fails. */
  function Works(chunks: seq<Bytes>): seq<Event> {
    if chunks == [] then [] else [Log(chunks[0], WORKS)] + Works(chunks[1..])
  }

  function Concat(chunks: seq<Bytes>): Bytes {
    if chunks == [] then [] else chunks[0] + Concat(chunks[1..])
  }

  ghost predicate Records(c: Config, s: Stream, logged: Bytes) {
    s.hung || (s.phase == Opened(|s.file|) && Holds(c, s.file, logged))
  }

  lemma FirstRecord(c: Config, data: Bytes)
    requires |c.header| + |data| <= c.Centre() && 0 < |c.header|
    ensures Records(c, Apply(c, Start([]), Log(data, WORKS)), data)
  {
    assert OpenWithHeader(c, [], WORKS) == Wrote(c.header, |c.header|);
    assert c.header[|c.header|..] == [] && [] + data == data;
    WriteOutHolds(c, c.header, [], data);
  }

  lemma {:induction false} RecordsOn(c: Config, s: Stream, logged: Bytes, chunks: seq<Bytes>)
    requires WellFormed(s) && Records(c, s, logged)
    requires forall i :: 0 <= i < |chunks| ==> |c.header| + |chunks[i]| <= c.Centre()
    ensures Records(c, Run(c, s, Works(chunks)), logged + Concat(chunks))
    decreases |chunks|
  {
    if chunks == [] {
      assert logged + [] == logged;
    } else {
      var e := Log(chunks[0], WORKS);
      if !s.hung {
        WriteOutHolds(c, s.file, logged, chunks[0]);
      }
      assert Works(chunks)[1..] == Works(chunks[1..]);
      RecordsOn(c, Apply(c, s, e), logged + chunks[0], chunks[1..]);
      assert (logged + chunks[0]) + Concat(chunks[1..]) == logged + Concat(chunks);
    }
  }

  /**
   On a fresh file where nothing fails, the file is at every moment the header followed by the end of
   everything logged so far, in order and without a gap, unless a newline search never returned.
   */
  lemma FileIsEndOfLog(c: Config, chunks: seq<Bytes>)
    requires 0 < |c.header| && chunks != []
    requires forall i :: 0 <= i < |chunks| ==> |c.header| + |chunks[i]| <= c.Centre()
    ensures Records(c, Run(c, Start([]), Works(chunks)), Concat(chunks))
  {
    FirstRecord(c, chunks[0]);
    assert Works(chunks)[1..] == Works(chunks[1..]);
    RecordsOn(c, Apply(c, Start([]), Log(chunks[0], WORKS)), chunks[0], chunks[1..]);
  }

  lemma {:induction false} WorksShort(c: Config, s: Stream, chunks: seq<Bytes>)
    requires WellFormed(s) && forall i :: 0 <= i < |chunks| ==> EndsLine(chunks[i]) && Short(c, |chunks[i]|)
    ensures AllShort(c, s, Works(chunks))
    decreases |chunks|
  {
    if chunks != [] {
      assert Works(chunks)[1..] == Works(chunks[1..]);
      WorksShort(c, Apply(c, s, Log(chunks[0], WORKS)), chunks[1..]);
    }
  }

  /** When header and chunks end lines there is no such search, and the file is exactly that. */
  lemma LinesAreKept(c: Config, chunks: seq<Bytes>)
    requires c.readSize > 0 && EndsLine(c.header) && chunks != []
    requires forall i :: 0 <= i < |chunks| ==> EndsLine(chunks[i]) && |c.header| + |chunks[i]| <= c.Centre()
    ensures var s := Run(c, Start([]), Works(chunks));
      !s.hung && s.phase == Opened(|s.file|) && Holds(c, s.file, Concat(chunks))
  {
    assert EndsLine(chunks[0]);
    FileIsEndOfLog(c, chunks);
    WorksShort(c, Start([]), chunks);
    SearchesEnd(c, Start([]), Works(chunks));
  }
}
