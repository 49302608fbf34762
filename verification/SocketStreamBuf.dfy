/** asio::basic_socket_streambuf: the get and put buffers of a socket stream. */
module SocketStreamBuf {
  import opened Numerals
  import opened StreamTypes
  import opened SocketModel

  class BasicSocketStreambuf {
    var getBuffer: array<byte>
    var putBuffer: array<byte>
    var eback: nat
    var gptr: nat
    var egptr: nat
    var pbase: nat
    var pptr: nat
    var epptr: nat
    var ec: Error
    var expiryTime: int

    /** Everything that send has put on the connection. */
    ghost var wire: seq<byte>

    ghost predicate Valid()
      reads this, getBuffer, putBuffer
    {
      && getBuffer.Length == BUFFER_SIZE && getBuffer != putBuffer
      && (putBuffer.Length == BUFFER_SIZE || putBuffer.Length == 0)
      && eback == 0 && PUTBACK_MAX <= gptr <= egptr <= BUFFER_SIZE
      && pbase == 0 && pptr <= epptr == putBuffer.Length
    }

    ghost function Out(): (s: OutState)
      requires Valid()
      reads this, getBuffer, putBuffer
      ensures s.Valid()
    {
      OutState(putBuffer.Length > 0, putBuffer[pbase..pptr], wire, expiryTime, ec)
    }

    ghost function In(): (s: InState)
      requires Valid()
      reads this, getBuffer, putBuffer
      ensures s.Valid()
    {
      InState(getBuffer[gptr..egptr], expiryTime, ec)
    }

    constructor (maxExpiryTime: int)
      ensures Valid() && fresh(getBuffer) && fresh(putBuffer)
      ensures Out() == OutState(true, [], [], maxExpiryTime, NoError)
      ensures In() == InState([], maxExpiryTime, NoError)
    {
      getBuffer := new byte[BUFFER_SIZE];
      putBuffer := new byte[BUFFER_SIZE];
      ec, expiryTime, wire := NoError, maxExpiryTime, [];
      eback, gptr, egptr, pbase, pptr, epptr := 0, 0, 0, 0, 0, 0;
      new;
      InitBuffers();
    }

    method Setg(beginning: nat, next: nat, end: nat)
      modifies this`eback, this`gptr, this`egptr
      ensures eback == beginning && gptr == next && egptr == end
    {
      eback, gptr, egptr := beginning, next, end;
    }

    method Setp(beginning: nat, end: nat)
      modifies this`pbase, this`pptr, this`epptr
      ensures pbase == pptr == beginning && epptr == end
    {
      pbase, pptr, epptr := beginning, beginning, end;
    }

    /** Empties both areas; pending output is dropped. */
    method InitBuffers()
      requires getBuffer.Length == BUFFER_SIZE && getBuffer != putBuffer
      requires putBuffer.Length == BUFFER_SIZE || putBuffer.Length == 0
      modifies this`eback, this`gptr, this`egptr, this`pbase, this`pptr, this`epptr
      ensures Valid()
      ensures Out() == OutState(putBuffer.Length > 0, [], wire, expiryTime, ec)
      ensures In() == InState([], expiryTime, ec)
    {
      Setg(0, PUTBACK_MAX, PUTBACK_MAX);
      if putBuffer.Length == 0 {
        Setp(0, 0);
      } else {
        Setp(0, putBuffer.Length);
      }
    }

    /** The loop of overflow: sends output until all of it is sent or the call fails. */
    method SendAll(output: seq<byte>, sched: seq<SendEvent>) returns (status: Status)
      requires Valid()
      modifies this`ec, this`wire
      ensures Valid()
      ensures var f := Flush(output, expiryTime, sched, old(ec));
              status == f.status && ec == f.ec && wire == old(wire) + output[..f.sent]
    {
      var outputBuffer, i := output, 0;
      ghost var sent := 0;
      while |outputBuffer| > 0
        invariant 0 <= i <= |sched| && 0 <= sent <= |output|
        invariant outputBuffer == output[sent..]
        invariant wire == old(wire) + output[..sent]
        invariant var f, g := Flush(output, expiryTime, sched, old(ec)),
                              Flush(outputBuffer, expiryTime, sched[i..], ec);
                  f == g.(sent := sent + g.sent)
        decreases |sched| - i
      {
        if i == |sched| {
          return Unfinished;
        }
        var e := sched[i];
        if expiryTime < e.now {
          ec := TimedOut;
          return Failed;
        }
        ec := e.ec;
        i := i + 1;
        if e.bytes > 0 {
          var n := Min(e.bytes, |outputBuffer|);
          wire := wire + outputBuffer[..n];
          outputBuffer := outputBuffer[n..];
          sent := sent + n;
          continue;
        }
        if !Retry(ec) {
          return Failed;
        }
        ec := e.pollEc;
        if e.poll < 0 {
          return Failed;
        }
      }
      return Complete;
    }

    method Overflow(c: IntType, sched: seq<SendEvent>) returns (r: Result)
      requires Valid()
      modifies this, putBuffer
      ensures Valid() && putBuffer == old(putBuffer) && getBuffer == old(getBuffer)
      ensures (Out(), r) == old(FlushStep(Out(), c, sched))
      ensures In() == old(In()).(ec := ec)
    {
      var output;
      if putBuffer.Length == 0 {
        if c == Eof {
          return NotEof;
        }
        output := [c.c];
      } else {
        output := putBuffer[pbase..pptr];
      }
      var status := SendAll(output, sched);
      if status == Unfinished {
        return Waiting;
      }
      if status == Failed {
        return Value(Eof);
      }
      if putBuffer.Length > 0 {
        Setp(0, putBuffer.Length);
        if c == Eof {
          return NotEof;
        }
        putBuffer[pptr] := c.c;
        pptr := pptr + 1;
        assert putBuffer[pbase..pptr] == [c.c];
      }
      return Value(c);
    }

    method Sync(sched: seq<SendEvent>) returns (r: Result)
      requires Valid()
      modifies this, putBuffer
      ensures Valid() && putBuffer == old(putBuffer) && getBuffer == old(getBuffer)
      ensures (Out(), r) == old(OutStep(Out(), SocketModel.Sync(sched)))
      ensures In() == old(In()).(ec := ec)
    {
      r := Overflow(Eof, sched);
    }

    /** std::streambuf::sputc */
    method Sputc(b: byte, sched: seq<SendEvent>) returns (r: Result)
      requires Valid()
      modifies this, putBuffer
      ensures Valid() && putBuffer == old(putBuffer) && getBuffer == old(getBuffer)
      ensures (Out(), r) == old(OutStep(Out(), SocketModel.Sputc(b, sched)))
      ensures In() == old(In()).(ec := ec)
    {
      if pptr < epptr {
        putBuffer[pptr] := b;
        pptr := pptr + 1;
        assert putBuffer[pbase..pptr] == old(putBuffer[pbase..pptr]) + [b];
        r := Value(Char(b));
      } else {
        r := Overflow(Char(b), sched);
      }
    }

    /** Switches to unbuffered output, if nothing is pending. */
    method Setbuf(isNull: bool, n: int) returns (done: bool)
      requires Valid()
      modifies this, putBuffer
      ensures Valid() && getBuffer == old(getBuffer) && (putBuffer == old(putBuffer) || fresh(putBuffer))
      ensures (Out(), if done then NotEof else Value(Eof)) == old(OutStep(Out(), SocketModel.Setbuf(isNull, n)))
      ensures In() == old(In())
    {
      if pptr == pbase && isNull && n == 0 {
        putBuffer := new byte[0];
        Setp(0, 0);
        var r := Sync([]);
        return true;
      }
      return false;
    }

    /** The loop of underflow: what recv delivers, or [] when the call fails. */
    method ReceiveSome(sched: seq<RecvEvent>) returns (got: seq<byte>, r: Result)
      requires Valid()
      modifies this`ec
      ensures FillResult(got, r, ec) == Fill(expiryTime, sched, old(ec))
    {
      var i := 0;
      while i < |sched|
        invariant 0 <= i <= |sched|
        invariant Fill(expiryTime, sched, old(ec)) == Fill(expiryTime, sched[i..], ec)
      {
        var e := sched[i];
        if expiryTime < e.now {
          ec := TimedOut;
          return [], Value(Eof);
        }
        i := i + 1;
        if e.got.Data? && e.got.d != [] {
          ec := NoError;
          got := e.got.d[..Min(|e.got.d|, BUFFER_SIZE - PUTBACK_MAX)];
          return got, Value(Char(got[0]));
        }
        if !e.got.Failure? {
          ec := EndOfFile;
          return [], Value(Eof);
        }
        ec := e.got.ec;
        if !Retry(ec) {
          return [], Value(Eof);
        }
        ec := e.pollEc;
        if e.poll < 0 {
          return [], Value(Eof);
        }
      }
      return [], Waiting;
    }

    method Underflow(sched: seq<RecvEvent>) returns (r: Result)
      requires Valid()
      modifies this`ec, this`eback, this`gptr, this`egptr, getBuffer
      ensures Valid()
      ensures (In(), r) == old(UnderflowStep(In(), sched))
      ensures Out() == old(Out()).(ec := ec)
    {
      hide Fill;
      if gptr != egptr {
        return Value(Eof);
      }
      var got;
      got, r := ReceiveSome(sched);
      if got != [] {
        Store(got);
        Setg(0, PUTBACK_MAX, PUTBACK_MAX + |got|);
      }
    }

    /** recv writes the characters behind the putback area. */
    method Store(d: seq<byte>)
      requires PUTBACK_MAX + |d| <= getBuffer.Length
      modifies getBuffer
      ensures getBuffer[PUTBACK_MAX..PUTBACK_MAX + |d|] == d
    {
      var i := 0;
      while i < |d|
        invariant 0 <= i <= |d|
        invariant forall t :: 0 <= t < i ==> getBuffer[PUTBACK_MAX + t] == d[t]
      {
        getBuffer[PUTBACK_MAX + i] := d[i];
        i := i + 1;
      }
    }

    /** std::streambuf::sbumpc, through the default uflow */
    method Sbumpc(sched: seq<RecvEvent>) returns (r: Result)
      requires Valid()
      modifies this`ec, this`eback, this`gptr, this`egptr, getBuffer
      ensures Valid()
      ensures (In(), r) == old(InStep(In(), SocketModel.Sbumpc(sched)))
      ensures Out() == old(Out()).(ec := ec)
    {
      if gptr < egptr {
        r := Value(Char(getBuffer[gptr]));
        gptr := gptr + 1;
      } else {
        r := Underflow(sched);
        if r != Waiting && r != Value(Eof) {
          gptr := gptr + 1;
        }
      }
    }

    method ExpiresAt(time: int)
      requires Valid()
      modifies this`expiryTime
      ensures Valid()
      ensures Out() == old(OutStep(Out(), SocketModel.ExpiresAt(time)).0)
      ensures In() == old(InStep(In(), ReadExpiresAt(time)).0)
    {
      expiryTime := time;
    }
  }
}
