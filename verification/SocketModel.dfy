/** The buffering of asio::basic_socket_streambuf against an arbitrary socket.  A schedule
    lists, one loop iteration at a time, what the clock, send or recv, and poll answer; a
    call whose schedule runs out is still waiting. */
module SocketModel {
  import opened Numerals
  import opened StreamTypes

  /** enum { buffer_size = 512 } and enum { putback_max = 8 } */
  const BUFFER_SIZE: nat := 512
  const PUTBACK_MAX: nat := 8

  datatype Error = NoError | TimedOut | WouldBlock | TryAgain | EndOfFile | Other(code: int)

  predicate Retry(ec: Error) {
    ec.WouldBlock? || ec.TryAgain?
  }

  /** What one iteration of the flush loop meets. */
  datatype SendEvent = SendEvent(now: int, bytes: int, ec: Error, poll: int, pollEc: Error)

  /** What recv answers: characters, end of stream, or an error. */
  datatype Received = Data(d: seq<byte>) | Closed | Failure(ec: Error)

  datatype RecvEvent = RecvEvent(now: int, got: Received, poll: int, pollEc: Error)

  /** What a call returns; Waiting when the schedule has run out first. */
  datatype Result = Value(c: IntType) | NotEof | Waiting

  datatype Status = Complete | Failed | Unfinished

  datatype FlushResult = FlushResult(sent: nat, status: Status, ec: Error)

  // ---------------------------------------------------------------- sending

  /** Sends out until it is all sent or the call fails; a send takes no more than it is given. */
  function Flush(out: seq<byte>, expiry: int, sched: seq<SendEvent>, ec: Error): (r: FlushResult)
    ensures r.sent <= |out| && (r.status == Complete <==> r.sent == |out|)
    decreases |sched|
  {
    if out == [] then FlushResult(0, Complete, ec)
    else if sched == [] then FlushResult(0, Unfinished, ec)
    else
      var e := sched[0];
      if expiry < e.now then FlushResult(0, Failed, TimedOut)
      else if e.bytes > 0 then
        var n := Min(e.bytes, |out|);
        var r := Flush(out[n..], expiry, sched[1..], e.ec);
        r.(sent := n + r.sent)
      else if !Retry(e.ec) then FlushResult(0, Failed, e.ec)
      else if e.poll < 0 then FlushResult(0, Failed, e.pollEc)
      else Flush(out, expiry, sched[1..], e.pollEc)
  }

  /** The output side: the put area and the wire. */
  datatype OutState = OutState(buffered: bool, pending: seq<byte>, wire: seq<byte>, expiry: int, ec: Error) {
    predicate Valid() {
      |pending| <= if buffered then BUFFER_SIZE else 0
    }
  }

  datatype OutOp =
    | Sputc(b: byte, sched: seq<SendEvent>)
    | Overflow(c: IntType, sched: seq<SendEvent>)
    | Sync(sched: seq<SendEvent>)
    | Setbuf(isNull: bool, n: int)
    | ExpiresAt(time: int)

  function FlushStep(s: OutState, c: IntType, sched: seq<SendEvent>): (r: (OutState, Result))
    requires s.Valid()
    ensures r.0.Valid()
  {
    if !s.buffered && c.Eof? then (s, NotEof)
    else
      var out := if s.buffered then s.pending else [c.c];
      var f := Flush(out, s.expiry, sched, s.ec);
      var t := s.(wire := s.wire + out[..f.sent], ec := f.ec);
      match f.status
      case Failed => (t, Value(Eof))
      case Unfinished => (t, Waiting)
      case Complete =>
        if !s.buffered then (t, Value(c))
        else if c.Eof? then (t.(pending := []), NotEof)
        else (t.(pending := [c.c]), Value(c))
  }

  function OutStep(s: OutState, op: OutOp): (r: (OutState, Result))
    requires s.Valid()
    ensures r.0.Valid()
  {
    match op
    case Sputc(b, sched) =>
      if s.buffered && |s.pending| < BUFFER_SIZE then (s.(pending := s.pending + [b]), Value(Char(b)))
      else FlushStep(s, Char(b), sched)
    case Overflow(c, sched) => FlushStep(s, c, sched)
    case Sync(sched) => FlushStep(s, Eof, sched)
    case Setbuf(isNull, n) =>
      if s.pending == [] && isNull && n == 0 then (s.(buffered := false), NotEof) else (s, Value(Eof))
    case ExpiresAt(time) => (s.(expiry := time), NotEof)
  }

  // ---------------------------------------------------------------- receiving

  datatype FillResult = FillResult(got: seq<byte>, result: Result, ec: Error)

  /** Receives until something arrives or the call fails; one recv gives at most what the get
      buffer holds behind the putback area. */
  function Fill(expiry: int, sched: seq<RecvEvent>, ec: Error): (r: FillResult)
    ensures |r.got| <= BUFFER_SIZE - PUTBACK_MAX
    ensures r.result == if r.got != [] then Value(Char(r.got[0])) else if r.result.Waiting? then Waiting else Value(Eof)
    decreases |sched|
  {
    if sched == [] then FillResult([], Waiting, ec)
    else
      var e := sched[0];
      if expiry < e.now then FillResult([], Value(Eof), TimedOut)
      else if e.got.Data? && e.got.d != [] then
        var d := e.got.d[..Min(|e.got.d|, BUFFER_SIZE - PUTBACK_MAX)];
        FillResult(d, Value(Char(d[0])), NoError)
      else if !e.got.Failure? then FillResult([], Value(Eof), EndOfFile)
      else if !Retry(e.got.ec) then FillResult([], Value(Eof), e.got.ec)
      else if e.poll < 0 then FillResult([], Value(Eof), e.pollEc)
      else Fill(expiry, sched[1..], e.pollEc)
  }

  /** The input side: the unread part of the get area. */
  datatype InState = InState(unread: seq<byte>, expiry: int, ec: Error) {
    predicate Valid() {
      |unread| <= BUFFER_SIZE - PUTBACK_MAX
    }
  }

  datatype InOp =
    | Underflow(sched: seq<RecvEvent>)
    | Sbumpc(sched: seq<RecvEvent>)
    | ReadExpiresAt(time: int)

  function UnderflowStep(s: InState, sched: seq<RecvEvent>): (r: (InState, Result))
    requires s.Valid()
    ensures r.0.Valid()
  {
    if s.unread != [] then (s, Value(Eof))
    else
      var f := Fill(s.expiry, sched, s.ec);
      (s.(unread := f.got, ec := f.ec), f.result)
  }

  function InStep(s: InState, op: InOp): (r: (InState, Result))
    requires s.Valid()
    ensures r.0.Valid()
  {
    match op
    case Underflow(sched) => UnderflowStep(s, sched)
    case Sbumpc(sched) =>
      if s.unread != [] then (s.(unread := s.unread[1..]), Value(Char(s.unread[0])))
      else
        var (t, r) := UnderflowStep(s, sched);
        if t.unread != [] then (t.(unread := t.unread[1..]), r) else (t, r)
    case ReadExpiresAt(time) => (s.(expiry := time), NotEof)
  }
}
