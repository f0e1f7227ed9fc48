/** The stream itself: its fields, updated step by step, follow the state machine. */
module LogFileOutputStreams {
  import opened LogStream

  datatype State = IsClosed | IsOpened | IsWaitingToReopen

  /** How a call that may throw ends. */
  datatype Ending = Returned | Raised | Stuck

  class LogFileOutputStream {
    const config: Config
    var file: Bytes
    var offset: nat
    var state: State
    var timer: bool
    var buffer: Bytes
    var hung: bool

    constructor (config: Config, file: Bytes)
      ensures this.config == config && View() == Start(file)
    {
      this.config := config;
      this.file := file;
      offset := 0;
      state := IsClosed;
      timer := false;
      buffer := [];
      hung := false;
    }

    function View(): Stream
      reads this
    {
      var phase := match state
        case IsClosed => Closed
        case IsOpened => Opened(offset)
        case IsWaitingToReopen => Waiting;
      Stream(file, phase, timer, buffer, hung)
    }

    /** The fields are those of `s`; the handle of a hung queue is wherever the search took it. */
    ghost predicate Agrees(s: Stream)
      reads this
    {
      if hung then s.hung && View() == s.(phase := View().phase) && (s.phase.Opened? <==> state.IsOpened?)
      else View() == s
    }

    ghost predicate Follows(w: Written, ending: Ending)
      reads this
    {
      match w
      case Wrote(f, o) => ending == Returned && file == f && offset == o
      case Threw(f) => ending == Raised && file == f
      case Hangs => ending == Stuck
    }

    method SetState(next: State)
      modifies this`state, this`timer
      ensures View() == SetPhase(old(View()), View().phase) && state == next
    {
      var before := state;
      state := next;
      match (before, next)
      case (IsOpened, IsWaitingToReopen) => timer := true;
      case (IsClosed, IsWaitingToReopen) => timer := true;
      case (IsWaitingToReopen, IsOpened) => timer := false;
      case (IsWaitingToReopen, IsClosed) => timer := false;
      case _ =>
    }

    method BufferIt(data: Bytes)
      modifies this`buffer
      ensures View() == BufferData(config, old(View()), data)
    {
      buffer := buffer + data;
      if |buffer| > config.capacity {
        buffer := buffer[|buffer| - config.capacity..];
      }
    }

    method ReadUntilNextLineBreak(readSize: nat, sizeLimit: nat) returns (ending: Ending)
      modifies this`offset
      ensures match FindLine(file, old(offset), readSize, sizeLimit)
        case Endless => ending == Stuck
        case found => ending == Returned && offset == found.at
      decreases |file| - offset
    {
      var current := offset;
      if current + readSize > sizeLimit {
        return Returned;
      }
      var got := Read(file, offset, readSize);
      offset := offset + |got|;
      var k := IndexOf(got);
      if k < |got| {
        offset := current + k + 1;
        return Returned;
      }
      if got == [] {
        return Stuck;
      }
      ending := ReadUntilNextLineBreak(readSize, sizeLimit);
    }

    method TruncateFileInHalf(fault: Fault) returns (ending: Ending)
      modifies this`file, this`offset
      ensures Follows(Halve(config, old(file), fault), ending)
      ensures ending == Returned ==> offset == |file|
      ensures ending == Stuck ==> file == old(file)
    {
      if fault.AtSeek? {
        return Raised;
      }
      offset := config.limit / 2;
      if fault.AtRead? {
        return Raised;
      }
      ending := ReadUntilNextLineBreak(config.readSize, config.limit);
      if ending == Stuck {
        return Stuck;
      }
      var lastHalf := Tail(file, offset);
      if fault.AtTruncate? {
        return Raised;
      }
      file, offset := [], 0;
      if fault.AtHeader? {
        file := Clip(config.header, fault.wrote);
        return Raised;
      }
      file, offset := config.header, |config.header|;
      if fault.AtTail? {
        file := file + Clip(lastHalf, fault.wrote);
        return Raised;
      }
      file, offset := file + lastHalf, offset + |lastHalf|;
      return Returned;
    }

    method Write(data: Bytes, fault: Fault) returns (ending: Ending)
      requires offset <= |file|
      modifies this`file, this`offset
      ensures Follows(WriteOut(config, old(file), old(offset), data, fault), ending)
      ensures ending == Stuck ==> file == old(file)
    {
      if |data| > config.limit || fault.AtOffset? {
        return Raised;
      }
      if offset + |data| >= config.limit {
        ending := TruncateFileInHalf(fault);
        if ending != Returned {
          return;
        }
      }
      if fault.AtData? {
        file := Put(file, offset, Clip(data, fault.wrote));
        return Raised;
      }
      file, offset := Put(file, offset, data), offset + |data|;
      return Returned;
    }

    method OpenFileWithHeader(io: Io) returns (ending: Ending)
      modifies this`file, this`offset
      ensures Follows(OpenWithHeader(config, old(file), io), ending)
      ensures ending == Stuck ==> file == old(file)
    {
      if !io.opens {
        return Raised;
      }
      offset := 0;
      ending := Write(config.header, io.header);
    }

    method WriteOnQueue(data: Bytes, io: Io)
      requires WellFormed(View()) && !hung
      modifies this
      ensures Agrees(Apply(config, old(View()), Log(data, io)))
    {
      var ending := Returned;
      match state {
        case IsWaitingToReopen =>
          BufferIt(data);
          return;
        case IsClosed =>
          ending := OpenFileWithHeader(io);
          if ending == Returned {
            SetState(IsOpened);
            ending := Write(data, io.data);
          }
        case IsOpened =>
          ending := Write(data, io.data);
      }
      match ending
      case Returned =>
      case Raised =>
        BufferIt(data);
        SetState(IsWaitingToReopen);
      case Stuck =>
        hung := true;
    }

    method ReopenFile(io: Io)
      requires WellFormed(View()) && !hung && timer
      modifies this
      ensures Agrees(Apply(config, old(View()), Tick(io)))
    {
      var ending := OpenFileWithHeader(io);
      if ending == Returned && buffer != [] {
        ending := Write(buffer, io.data);
        if ending == Returned {
          buffer := [];
        }
      }
      match ending
      case Returned => SetState(IsOpened);
      case Raised => SetState(IsWaitingToReopen);
      case Stuck => hung := true;
    }
  }
}
