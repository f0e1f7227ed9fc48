/**
 The bounded log file of ios/WarrenLogging/LogFileOutputStream.swift as a state machine: the file, the
 handle's offset, the retry timer and the buffer.  Which system call fails, and after how many bytes,
 is a parameter of each event.
 */
module LogStream {
  import opened Options

  type Bytes = seq<bv8>

  const NEWLINE: bv8 := 10

  /** The constants of a stream; `header` is the header line with its newline. */
  datatype Config = Config(limit: nat, header: Bytes, capacity: nat, readSize: nat) {
    function Centre(): nat {
      limit / 2
    }
  }

  /** The first call that throws inside one write; a failing write leaves the bytes it got out. */
  datatype Fault =
    | Fine
    | AtOffset
    | AtSeek
    | AtRead
    | AtTruncate
    | AtHeader(wrote: nat)
    | AtTail(wrote: nat)
    | AtData(wrote: nat)

  /** What the system does with one event: the open call, the header's write, the data's write. */
  datatype Io = Io(opens: bool, header: Fault, data: Fault)

  datatype Phase = Closed | Opened(offset: nat) | Waiting

  /** `hung` marks a queue whose newline search never returns; `phase` is then what it was. */
  datatype Stream = Stream(file: Bytes, phase: Phase, timer: bool, buffer: Bytes, hung: bool)

  datatype Event = Log(data: Bytes, io: Io) | Tick(io: Io)

  // ----- the file

  function Clip(data: Bytes, n: nat): Bytes {
    if n <= |data| then data[..n] else data
  }

  /** Bytes written over a file from an offset. */
  function Put(file: Bytes, offset: nat, data: Bytes): (r: Bytes)
    requires offset <= |file|
    ensures |r| == if offset + |data| <= |file| then |file| else offset + |data|
    ensures r[..offset] == file[..offset] && r[offset..offset + |data|] == data
    ensures offset + |data| <= |file| ==> r[offset + |data|..] == file[offset + |data|..]
  {
    file[..offset] + data + (if offset + |data| <= |file| then file[offset + |data|..] else [])
  }

  /** One read of up to `n` bytes at an offset that may lie past the end. */
  function Read(file: Bytes, offset: nat, n: nat): (r: Bytes)
    ensures |r| <= n && (r == [] <==> n == 0 || |file| <= offset)
  {
    if |file| <= offset then [] else Clip(file[offset..], n)
  }

  function IndexOf(data: Bytes): (k: nat)
    ensures k <= |data| && (k < |data| ==> data[k] == NEWLINE) && forall i :: 0 <= i < k ==> data[i] != NEWLINE
  {
    if data == [] || data[0] == NEWLINE then 0 else 1 + IndexOf(data[1..])
  }

  // ----- the newline search

  datatype Search = Found(at: nat) | Stopped(at: nat) | Endless

  /** The recursive search; an empty read leaves the offset where it was, so the next call repeats it. */
  function FindLine(file: Bytes, offset: nat, readSize: nat, limit: nat): Search
    decreases |file| - offset
  {
    if offset + readSize > limit then Stopped(offset)
    else
      var got := Read(file, offset, readSize);
      if IndexOf(got) < |got| then Found(offset + IndexOf(got) + 1)
      else if got == [] then Endless
      else FindLine(file, offset + |got|, readSize, limit)
  }

  /** The same search cut off after `calls` calls: None when it has not returned by then. */
  function FindLineWithin(file: Bytes, offset: nat, readSize: nat, limit: nat, calls: nat): Option<nat>
    decreases calls
  {
    if calls == 0 then None
    else if offset + readSize > limit then Some(offset)
    else
      var got := Read(file, offset, readSize);
      if IndexOf(got) < |got| then Some(offset + IndexOf(got) + 1)
      else FindLineWithin(file, offset + |got|, readSize, limit, calls - 1)
  }

  // ----- one write

  /** What a write through a handle leaves: it returns, throws, or never returns. */
  datatype Written = Wrote(file: Bytes, offset: nat) | Threw(file: Bytes) | Hangs

  function Tail(file: Bytes, at: nat): Bytes {
    if at <= |file| then file[at..] else []
  }

  function Halve(c: Config, file: Bytes, fault: Fault): Written {
    if fault.AtSeek? || fault.AtRead? then Threw(file)
    else
      var found := FindLine(file, c.Centre(), c.readSize, c.limit);
      if found.Endless? then Hangs
      else
        var tail := Tail(file, found.at);
        match fault
        case AtTruncate => Threw(file)
        case AtHeader(n) => Threw(Clip(c.header, n))
        case AtTail(n) => Threw(c.header + Clip(tail, n))
        case _ => Wrote(c.header + tail, |c.header + tail|)
  }

  function PutData(file: Bytes, offset: nat, data: Bytes, fault: Fault): Written
    requires offset <= |file|
  {
    match fault
    case AtData(n) => Threw(Put(file, offset, Clip(data, n)))
    case _ => Wrote(Put(file, offset, data), offset + |data|)
  }

  function WriteOut(c: Config, file: Bytes, offset: nat, data: Bytes, fault: Fault): (r: Written)
    requires offset <= |file|
    ensures r.Wrote? ==> r.offset <= |r.file|
  {
    if |data| > c.limit || fault.AtOffset? then Threw(file)
    else if offset + |data| >= c.limit then
      match Halve(c, file, fault)
      case Wrote(halved, end) => PutData(halved, end, data, fault)
      case other => other
    else PutData(file, offset, data, fault)
  }

  // ----- the state machine

  /** The property observer of `state`. */
  function SetPhase(s: Stream, phase: Phase): Stream {
    s.(phase := phase,
       timer := if !s.phase.Waiting? && phase.Waiting? then true
                else if s.phase.Waiting? && !phase.Waiting? then false
                else s.timer)
  }

  function Last(data: Bytes, n: nat): Bytes {
    if |data| > n then data[|data| - n..] else data
  }

  function BufferData(c: Config, s: Stream, data: Bytes): Stream {
    s.(buffer := Last(s.buffer + data, c.capacity))
  }

  /** The handler of a failed write: keep the data, wait. */
  function Retry(c: Config, s: Stream, data: Bytes): Stream {
    SetPhase(BufferData(c, s, data), Waiting)
  }

  function OpenWithHeader(c: Config, file: Bytes, io: Io): (r: Written)
    ensures r.Wrote? ==> r.offset <= |r.file|
  {
    if !io.opens then Threw(file) else WriteOut(c, file, 0, c.header, io.header)
  }

  function LogOpened(c: Config, s: Stream, data: Bytes, fault: Fault): Stream
    requires s.phase.Opened? && s.phase.offset <= |s.file|
  {
    match WriteOut(c, s.file, s.phase.offset, data, fault)
    case Wrote(file, offset) => s.(file := file, phase := Opened(offset))
    case Threw(file) => Retry(c, s.(file := file), data)
    case Hangs => s.(hung := true)
  }

  function LogClosed(c: Config, s: Stream, data: Bytes, io: Io): Stream {
    match OpenWithHeader(c, s.file, io)
    case Wrote(file, offset) => LogOpened(c, SetPhase(s.(file := file), Opened(offset)), data, io.data)
    case Threw(file) => Retry(c, s.(file := file), data)
    case Hangs => s.(hung := true)
  }

  function Reopen(c: Config, s: Stream, io: Io): Stream {
    match OpenWithHeader(c, s.file, io)
    case Threw(file) => SetPhase(s.(file := file), Waiting)
    case Hangs => s.(hung := true)
    case Wrote(file, offset) =>
      if s.buffer == [] then SetPhase(s.(file := file), Opened(offset))
      else
        match WriteOut(c, file, offset, s.buffer, io.data)
        case Wrote(flushed, end) => SetPhase(s.(file := flushed, buffer := []), Opened(end))
        case Threw(flushed) => SetPhase(s.(file := flushed), Waiting)
        case Hangs => s.(file := file, hung := true)
  }

  /** The timer is armed exactly while waiting, and only then is anything buffered. */
  ghost predicate WellFormed(s: Stream) {
    && (s.phase.Opened? ==> s.phase.offset <= |s.file|)
    && (s.timer <==> s.phase.Waiting?)
    && (s.buffer != [] ==> s.phase.Waiting?)
  }

  /** A closed stream over a file of any content. */
  function Start(file: Bytes): Stream {
    Stream(file, Closed, false, [], false)
  }

  /** The timer fires only while armed, and nothing runs on a hung queue. */
  predicate Happens(s: Stream, e: Event) {
    !s.hung && (e.Tick? ==> s.timer)
  }

  function Apply(c: Config, s: Stream, e: Event): (r: Stream)
    requires WellFormed(s)
    ensures WellFormed(r)
  {
    if !Happens(s, e) then s
    else
      match e
      case Tick(io) => Reopen(c, s, io)
      case Log(data, io) =>
        match s.phase
        case Closed => LogClosed(c, s, data, io)
        case Opened(_) => LogOpened(c, s, data, io.data)
        case Waiting => BufferData(c, s, data)
  }

  function Run(c: Config, s: Stream, events: seq<Event>): (r: Stream)
    requires WellFormed(s)
    ensures WellFormed(r)
    decreases |events|
  {
    if events == [] then s else Run(c, Apply(c, s, events[0]), events[1..])
  }
}
