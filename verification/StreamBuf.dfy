/** asio::basic_streambuf: one growable character array with get and put positions that the
    operations update in place. */
module StreamBuf {
  import opened Numerals
  import opened StreamTypes
  import opened StreamBufModel
  import StreamBufRuns

  class BasicStreambuf {
    const maxSize: size_t
    var buffer: array<byte>
    var capacity: size_t
    var eback: size_t
    var gptr: size_t
    var egptr: size_t
    var pptr: size_t
    var epptr: size_t

    ghost function View(): State
      reads this, buffer
    {
      State(maxSize, gptr, egptr, pptr, epptr, buffer[..])
    }

    ghost predicate Valid()
      reads this, buffer
    {
      View().Valid() && eback == 0 && buffer.Length <= capacity
    }

    constructor (maximumSize: size_t)
      ensures Valid() && fresh(buffer)
      ensures View() == Initial(maximumSize)
    {
      maxSize := maximumSize;
      var pend := Min(maximumSize, BUFFER_DELTA);
      buffer := new byte[Max(pend, 1)](_ => 0);
      capacity := Max(pend, 1);
      eback, gptr, egptr := 0, 0, 0;
      pptr, epptr := 0, pend;
    }

    method Setg(beginning: size_t, next: size_t, end: size_t)
      modifies this`eback, this`gptr, this`egptr
      ensures eback == beginning && gptr == next && egptr == end
    {
      eback, gptr, egptr := beginning, next, end;
    }

    method Setp(beginning: size_t, end: size_t)
      modifies this`pptr, this`epptr
      ensures pptr == beginning && epptr == end
    {
      pptr, epptr := beginning, end;
    }

    /** size() */
    method Length() returns (n: size_t)
      requires Valid()
      ensures n == View().Size() == |View().Data()|
    {
      n := pptr - gptr;
    }

    /** Moves n characters from offset `from` to the start; source and target may overlap. */
    method MoveToStart(from: size_t, n: size_t)
      requires from + n <= buffer.Length
      modifies buffer
      ensures buffer[..] == old(buffer[from..from + n] + buffer[n..])
    {
      var i := 0;
      while i < n
        invariant 0 <= i <= n
        invariant forall t :: 0 <= t < i ==> buffer[t] == old(buffer[from + t])
        invariant forall t :: i <= t < buffer.Length ==> buffer[t] == old(buffer[t])
      {
        buffer[i] := buffer[from + i];
        i := i + 1;
      }
    }

    /** Resizes the vector; the capacity after a reallocation is the library's choice. */
    method Resize(n: size_t)
      requires buffer.Length <= capacity
      modifies this`buffer, this`capacity
      ensures fresh(buffer)
      ensures buffer[..] == Resized(old(buffer[..]), n)
      ensures buffer.Length <= capacity && old(capacity) <= capacity
    {
      var grown := new byte[n];
      var i := 0;
      while i < n
        modifies grown
        invariant 0 <= i <= n
        invariant forall t :: 0 <= t < i ==> grown[t] == if t < buffer.Length then buffer[t] else 0
      {
        grown[i] := if i < buffer.Length then buffer[i] else 0;
        i := i + 1;
      }
      if n > capacity {
        var chosen: size_t :| n <= chosen;
        capacity := chosen;
      }
      buffer := grown;
    }

    /** The shift in reserve: the input sequence goes to the start of the array, and the put
        position that goes with that is returned; the stream's own positions stay. */
    method ShiftContents(gnext: size_t, pnext0: size_t) returns (pnext: size_t)
      requires Valid() && gnext == gptr && pnext0 == pptr
      modifies buffer
      ensures buffer[..] == old(View().Shifted())
      ensures pnext == old(View().Size())
    {
      pnext := pnext0;
      if gnext > 0 {
        pnext := pnext - gnext;
        MoveToStart(gnext, pnext);
      }
    }

    /** Makes room for n more characters; ok is false where the source throws. */
    method Reserve(n: size_t) returns (ok: bool)
      requires Valid()
      modifies this, buffer
      ensures Valid() && (buffer == old(buffer) || fresh(buffer))
      ensures ok <==> !old(View().TooLong(n))
      ensures View() == old(View().Reserve(n))
    {
      hide State.Shifted, State.Data, Resized;
      ghost var s := View();
      var gnext: size_t, pnext: size_t, pend: size_t := gptr, pptr, epptr;
      if n <= pend - pnext {
        return true;
      }
      pnext := ShiftContents(gnext, pnext);
      if n > pend - pnext {
        if n <= maxSize && pnext <= maxSize - n {
          pend := pnext + n;
          Resize(Max(pend, 1));
        } else {
          return false;
        }
      }
      ResizedToItself(s.Shifted());
      Setg(0, 0, pnext);
      Setp(pnext, pend);
      return true;
    }

    /** The output sequence for n characters: a region, or ok == false on a throw. */
    method Prepare(n: size_t) returns (ok: bool, at: size_t)
      requires Valid()
      modifies this, buffer
      ensures Valid() && (buffer == old(buffer) || fresh(buffer))
      ensures (View(), if ok then Done else Threw) == old(Step(View(), StreamBufModel.Prepare(n)))
      ensures ok ==> at == pptr && at + n <= epptr <= buffer.Length
    {
      ok := Reserve(n);
      at := pptr;
    }

    /** The caller of prepare stores characters in the region it was given. */
    method Write(at: size_t, w: seq<byte>)
      requires Valid() && Permitted(View(), StreamBufModel.Write(at, w))
      modifies buffer
      ensures Valid()
      ensures View() == old(Step(View(), StreamBufModel.Write(at, w)).0)
    {
      var i := 0;
      while i < |w|
        invariant 0 <= i <= |w|
        invariant forall t :: 0 <= t < buffer.Length ==>
          buffer[t] == if pptr + at <= t < pptr + at + i then w[t - pptr - at] else old(buffer[t])
      {
        buffer[pptr + at + i] := w[i];
        i := i + 1;
      }
    }

    method Commit(n: size_t)
      requires Valid()
      modifies this
      ensures Valid() && buffer == old(buffer)
      ensures View() == old(Step(View(), StreamBufModel.Commit(n)).0)
    {
      var m: size_t := Min(n, epptr - pptr);
      pptr := pptr + m;
      Setg(eback, gptr, pptr);
    }

    /** The array lies at `address`, and gptr() + n is computed in 64 bits.  As long as that
        does not wrap around, this is the model step; otherwise the get pointer moves by the n
        that is left after the cast to int, and inRange says whether it stays in the input
        sequence (if not, the position is not moved here). */
    method Consume(n: size_t, address: nat) returns (inRange: bool)
      requires Valid() && pptr <= INT_MAX && address + pptr <= SIZE_MAX
      modifies this
      ensures Valid() && buffer == old(buffer)
      ensures old(Permitted(View(), StreamBufModel.Consume(n, address))) ==>
        inRange && View() == old(Step(View(), StreamBufModel.Consume(n, address)).0)
      ensures inRange <==> 0 <= old(ConsumeCount(View(), n, address)) <= old(View().Size())
      ensures inRange ==>
        View() == old(View().(gptr := gptr + ConsumeCount(View(), n, address), egptr := pptr))
      ensures !inRange ==> View() == old(View().(egptr := pptr))
    {
      hide ToInt;
      ConsumeClampsIff(View(), n, address);
      var m: size_t := n;
      if egptr < pptr {
        Setg(0, gptr, pptr);
      }
      if (address + gptr + m) % (SIZE_MAX + 1) > address + pptr {
        m := pptr - gptr;
        SmallToInt(m);
      }
      var moved := ToInt(m);
      inRange := 0 <= moved <= pptr - gptr;
      if inRange {
        gptr := gptr + moved;
      }
    }

    method Underflow() returns (r: IntType)
      requires Valid()
      modifies this
      ensures Valid() && buffer == old(buffer)
      ensures (View(), Got(r)) == old(Step(View(), StreamBufModel.Underflow))
    {
      if gptr < pptr {
        Setg(0, gptr, pptr);
        return Char(buffer[gptr]);
      } else {
        return Eof;
      }
    }

    /** The request that overflow makes when the put area is full. */
    method ReserveMore() returns (ok: bool)
      requires Valid()
      modifies this, buffer
      ensures Valid() && (buffer == old(buffer) || fresh(buffer))
      ensures ok <==> !old(View().TooLong(View().OverflowRequest()))
      ensures View() == old(View().Reserve(View().OverflowRequest()))
    {
      hide State.Reserve, State.TooLong;
      var bufferSize: size_t := pptr - gptr;
      if bufferSize < maxSize && maxSize - bufferSize < BUFFER_DELTA {
        ok := Reserve(maxSize - bufferSize);
      } else {
        ok := Reserve(BUFFER_DELTA);
      }
    }

    method Overflow(c: IntType) returns (ok: bool)
      requires Valid()
      modifies this, buffer
      ensures Valid() && (buffer == old(buffer) || fresh(buffer))
      ensures (View(), if !ok then Threw else if c.Eof? then Done else Got(c))
           == old(Step(View(), StreamBufModel.Overflow(c)))
    {
      hide State.Reserve, State.OverflowRequest, State.TooLong;
      ok := true;
      if c != Eof {
        if pptr == epptr {
          FullPutArea(View());
          ok := ReserveMore();
          if !ok {
            return;
          }
        }
        buffer[pptr] := c.c;
        pptr := pptr + 1;
      }
    }

    /** std::streambuf::sputc */
    method Sputc(b: byte) returns (ok: bool)
      requires Valid()
      modifies this, buffer
      ensures Valid() && (buffer == old(buffer) || fresh(buffer))
      ensures (View(), if ok then Got(Char(b)) else Threw) == old(Step(View(), StreamBufModel.Sputc(b)))
    {
      if pptr < epptr {
        buffer[pptr] := b;
        pptr := pptr + 1;
        ok := true;
      } else {
        ok := Overflow(Char(b));
      }
    }

    /** std::streambuf::sbumpc, through the default uflow */
    method Sbumpc() returns (r: IntType)
      requires Valid()
      modifies this
      ensures Valid() && buffer == old(buffer)
      ensures (View(), Got(r)) == old(Step(View(), StreamBufModel.Sbumpc))
    {
      if gptr < egptr {
        r := Char(buffer[gptr]);
        gptr := gptr + 1;
      } else {
        r := Underflow();
        if r != Eof {
          gptr := gptr + 1;
        }
      }
    }

    /** read_size_helper(sb, max_size) */
    method ReadSize(limit: size_t) returns (n: size_t)
      requires Valid()
      ensures !View().TooLong(n)
      ensures n <= limit
      ensures n > 0 <==> limit > 0 && View().Size() < maxSize
      ensures var room := maxSize - View().Size();
              var preferred := if capacity - View().Size() > 512 then capacity - View().Size() else 512;
              n <= preferred && (n < preferred ==> n == limit || n == room)
    {
      var size := Length();
      n := Min(Max(512, capacity - size), Min(limit, maxSize - size));
    }
  }

  /** asio::read_at into a streambuf with the transfer_all condition: the device holds
      `contents` from the offset on, serves chunks whose sizes `chunk` picks round by round,
      and may fail in any round.  It ends with an error exactly if a round failed or the contents
      ran out before the buffer was full. */
  method ReadAt(b: BasicStreambuf, contents: seq<byte>, chunk: nat -> nat, fails: nat -> bool)
    returns (totalTransferred: nat, ec: bool, rounds: nat)
    requires b.Valid()
    modifies b, b.buffer
    ensures b.Valid() && (b.buffer == old(b.buffer) || fresh(b.buffer))
    ensures totalTransferred <= |contents|
    ensures b.View().Data() == old(b.View().Data()) + contents[..totalTransferred]
    ensures !ec ==> b.View().Size() == b.maxSize
    ensures ec <==> (exists r :: 0 <= r < rounds && fails(r)) || (totalTransferred == |contents| && b.View().Size() < b.maxSize)
    ensures (forall r :: 0 <= r < rounds ==> !fails(r)) ==>
      totalTransferred == Min(|contents|, b.maxSize - old(b.View().Size()))
    ensures forall r :: 0 <= r < rounds && fails(r) ==> r == rounds - 1
  {
    hide State.Data, State.TooLong;
    ec, totalTransferred, rounds := false, 0, 0;
    var bytesAvailable := b.ReadSize(65536);
    assert contents[..0] == [];
    while bytesAvailable > 0
      invariant b.Valid() && (b.buffer == old(b.buffer) || fresh(b.buffer))
      invariant totalTransferred <= |contents|
      invariant b.View().Data() == old(b.View().Data()) + contents[..totalTransferred]
      invariant !b.View().TooLong(bytesAvailable)
      invariant ec ==> bytesAvailable == 0 && rounds > 0 && b.View().Size() < b.maxSize
      invariant ec ==> fails(rounds - 1) || totalTransferred == |contents|
      invariant forall r :: 0 <= r < rounds && fails(r) ==> ec && r == rounds - 1
      invariant !ec ==> (bytesAvailable == 0 <==> b.View().Size() == b.maxSize)
      decreases !ec, b.maxSize - |b.View().Data()|
    {
      var chosen := Min(Max(1, chunk(rounds)), bytesAvailable);
      var transferred := ReadSome(b, bytesAvailable, contents[totalTransferred..], chosen, fails(rounds));
      ec := transferred == 0;
      AppendSlices(old(b.View().Data()), contents, totalTransferred, transferred);
      totalTransferred := totalTransferred + transferred;
      bytesAvailable := b.ReadSize(if ec then 0 else 65536);
      rounds := rounds + 1;
    }
  }

  lemma AppendSlices(d: seq<byte>, contents: seq<byte>, n: nat, m: nat)
    requires n + m <= |contents|
    ensures d + contents[..n] + contents[n..][..m] == d + contents[..n + m]
  {
  }

  /** One round: prepare, read_some_at, commit.  A read that succeeds transfers at least one
      character; at the end of the contents it fails. */
  method ReadSome(b: BasicStreambuf, n: size_t, rest: seq<byte>, chosen: nat, fails: bool) returns (transferred: nat)
    requires b.Valid() && !b.View().TooLong(n) && 0 < chosen <= n
    modifies b, b.buffer
    ensures b.Valid() && (b.buffer == old(b.buffer) || fresh(b.buffer))
    ensures transferred == if fails then 0 else Min(chosen, |rest|)
    ensures b.View().Data() == old(b.View().Data()) + rest[..transferred]
  {
    hide State.Reserve, State.Written, State.TooLong;
    transferred := if fails then 0 else Min(chosen, |rest|);
    StreamBufRuns.PrepareWriteCommit(b.View(), n, rest[..transferred], transferred);
    var ok, at := b.Prepare(n);
    b.Write(0, rest[..transferred]);
    b.Commit(transferred);
  }
}
