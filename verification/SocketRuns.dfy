/** What the socket stream buffers promise over every run and every schedule. */
module SocketRuns {
  import opened Numerals
  import opened StreamTypes
  import opened SocketModel

  // ---------------------------------------------------------------- one flush

  /** An iteration that ends the call without everything being sent: too late, or nothing sent
      for another reason than that the socket is busy, or no success in waiting for it. */
  predicate Fatal(e: SendEvent, expiry: int) {
    expiry < e.now || (e.bytes <= 0 && (e.ec !in {WouldBlock, TryAgain} || e.poll < 0))
  }

  /** The error that a fatal iteration leaves. */
  function Reason(e: SendEvent, expiry: int): Error {
    if expiry < e.now then TimedOut else if e.ec in {WouldBlock, TryAgain} then e.pollEc else e.ec
  }

  /** How many characters the socket takes before the first fatal iteration. */
  function Offered(sched: seq<SendEvent>, expiry: int): nat {
    if sched == [] || Fatal(sched[0], expiry) then 0
    else (if sched[0].bytes > 0 then sched[0].bytes else 0) + Offered(sched[1..], expiry)
  }

  predicate SurvivesAll(sched: seq<SendEvent>, expiry: int) {
    forall i :: 0 <= i < |sched| ==> !Fatal(sched[i], expiry)
  }

  /** A flush sends as much as the socket takes before the first fatal iteration, completes
      exactly when that is everything, and otherwise fails exactly when there is such an
      iteration. */
  lemma {:induction false} FlushSends(out: seq<byte>, expiry: int, sched: seq<SendEvent>, ec: Error)
    ensures var f := Flush(out, expiry, sched, ec);
            && f.sent == Min(Offered(sched, expiry), |out|)
            && (f.status == Complete <==> |out| <= Offered(sched, expiry))
            && (f.status == Failed ==> !SurvivesAll(sched, expiry))
            && (f.status == Unfinished ==> SurvivesAll(sched, expiry))
    decreases |sched|
  {
    if out != [] && sched != [] && !Fatal(sched[0], expiry) {
      var e := sched[0];
      if e.bytes > 0 {
        FlushSends(out[Min(e.bytes, |out|)..], expiry, sched[1..], e.ec);
      } else {
        FlushSends(out, expiry, sched[1..], e.pollEc);
      }
    }
  }

  /** If everything is not sent before the first fatal iteration, that one gives the error. */
  lemma {:induction false} FlushFailsAt(out: seq<byte>, expiry: int, sched: seq<SendEvent>, ec: Error, k: nat)
    requires k < |sched| && Fatal(sched[k], expiry) && forall i :: 0 <= i < k ==> !Fatal(sched[i], expiry)
    requires Offered(sched, expiry) < |out|
    ensures Flush(out, expiry, sched, ec).status == Failed && Flush(out, expiry, sched, ec).ec == Reason(sched[k], expiry)
    decreases k
  {
    if k > 0 {
      var e := sched[0];
      assert sched[1..][k - 1] == sched[k];
      if e.bytes > 0 {
        FlushFailsAt(out[e.bytes..], expiry, sched[1..], e.ec, k - 1);
      } else {
        FlushFailsAt(out, expiry, sched[1..], e.pollEc, k - 1);
      }
    }
  }

  /** The iteration that sends the last character gives the error code of a flush that completes;
      with nothing to send it is left as it was. */
  lemma {:induction false} FlushCompletesAt(out: seq<byte>, expiry: int, sched: seq<SendEvent>, ec: Error, k: nat)
    requires k < |sched| && forall i :: 0 <= i <= k ==> !Fatal(sched[i], expiry)
    requires Offered(sched[..k], expiry) < |out| <= Offered(sched[..k + 1], expiry)
    ensures Flush(out, expiry, sched, ec).status == Complete && Flush(out, expiry, sched, ec).ec == sched[k].ec
    ensures Flush([], expiry, sched, ec) == FlushResult(0, Complete, ec)
    decreases k
  {
    var e := sched[0];
    assert sched[..k + 1][0] == e && sched[..k + 1][1..] == sched[1..][..k];
    if k > 0 {
      assert sched[..k][0] == e && sched[..k][1..] == sched[1..][..k - 1] && sched[1..][k - 1] == sched[k];
      if e.bytes > 0 {
        FlushCompletesAt(out[e.bytes..], expiry, sched[1..], e.ec, k - 1);
      } else {
        FlushCompletesAt(out, expiry, sched[1..], e.pollEc, k - 1);
      }
    }
  }

  // ---------------------------------------------------------------- output runs

  /** The characters that an operation accepted: the one that sputc or overflow returns. */
  function Accepted(s: OutState, op: OutOp): seq<byte>
    requires s.Valid()
  {
    match op
    case Sputc(b, _) => if OutStep(s, op).1 == Value(Char(b)) then [b] else []
    case Overflow(Char(c), _) => if OutStep(s, op).1 == Value(Char(c)) then [c] else []
    case _ => []
  }

  /** What an operation has to send before it can accept anything. */
  function ToSend(s: OutState, op: OutOp): seq<byte> {
    match op
    case Sputc(b, _) => if !s.buffered then [b] else if |s.pending| < 512 then [] else s.pending
    case Overflow(c, _) => if s.buffered then s.pending else if c.Eof? then [] else [c.c]
    case Sync(_) => if s.buffered then s.pending else []
    case _ => []
  }

  function ScheduleOf(op: OutOp): seq<SendEvent> {
    if op.Sputc? || op.Overflow? || op.Sync? then op.sched else []
  }

  /** The flush that an operation performs, if there is anything to send. */
  function FlushOf(s: OutState, op: OutOp): FlushResult {
    Flush(ToSend(s, op), s.expiry, ScheduleOf(op), s.ec)
  }

  /** The socket takes some, but not all, of what is to be sent before the first fatal
      iteration or the end of the schedule. */
  predicate PartlySent(s: OutState, op: OutOp) {
    0 < Offered(ScheduleOf(op), s.expiry) < |ToSend(s, op)|
  }

  /** A call that has not completed its flush accepts nothing, leaves the put area as it was,
      and extends the wire by a prefix of what was to be sent: of the put area, or by nothing
      when the stream is unbuffered. */
  lemma IncompleteCall(s: OutState, op: OutOp)
    requires s.Valid() && FlushOf(s, op).status != Complete
    ensures var t := OutStep(s, op).0;
            && t.pending == s.pending && Accepted(s, op) == []
            && FlushOf(s, op).sent <= |s.pending|
            && t.wire == s.wire + s.pending[..FlushOf(s, op).sent]
            && (!s.buffered ==> t.wire == s.wire)
  {
  }

  /** The character that a call is to append; none, if it is only to flush. */
  function ToAppend(op: OutOp): seq<byte> {
    match op
    case Sputc(b, _) => [b]
    case Overflow(Char(c), _) => [c]
    case _ => []
  }

  lemma NothingToFlush(expiry: int, sched: seq<SendEvent>, ec: Error)
    ensures Flush([], expiry, sched, ec) == FlushResult(0, Complete, ec)
  {
  }

  /** What a call answers and does, by what there is to send and what the socket offers.  If it
      offers enough, all of it is sent and the character appended; the put area keeps it, unless
      there is none.  Otherwise the call sends what is offered and fails if there is a fatal
      iteration, and still waits if there is none.  The error code is that of the flush. */
  lemma SendAnswers(s: OutState, op: OutOp)
    requires s.Valid() && (op.Sputc? || op.Overflow? || op.Sync?)
    ensures var (t, r) := OutStep(s, op);
            var out, offered := ToSend(s, op), Offered(ScheduleOf(op), s.expiry);
            if |out| <= offered then
              && r == (if ToAppend(op) == [] then NotEof else Value(Char(ToAppend(op)[0])))
              && t.wire == s.wire + out
              && t.pending == (if !s.buffered then [] else if out == [] then s.pending + ToAppend(op) else ToAppend(op))
            else
              && r == (if SurvivesAll(ScheduleOf(op), s.expiry) then Waiting else Value(Eof))
              && t.wire == s.wire + out[..offered] && t.pending == s.pending
    ensures var t := OutStep(s, op).0;
            t.buffered == s.buffered && t.expiry == s.expiry && t.ec == FlushOf(s, op).ec
  {
    hide Flush, Offered, SurvivesAll;
    var f := FlushOf(s, op);
    NothingToFlush(s.expiry, ScheduleOf(op), s.ec);
    FlushSends(ToSend(s, op), s.expiry, ScheduleOf(op), s.ec);
    if f.status == Complete {
      assert ToSend(s, op)[..f.sent] == ToSend(s, op);
      assert s.wire + [] == s.wire;
    }
  }

  /** setbuf succeeds, and makes output unbuffered, exactly if nothing is pending and both
      arguments are zero; and the expiry time is what it is set to. */
  lemma SettingAnswers(s: OutState, isNull: bool, n: int, time: int)
    requires s.Valid()
    ensures OutStep(s, Setbuf(isNull, n))
         == if s.pending == [] && isNull && n == 0 then (OutState(false, [], s.wire, s.expiry, s.ec), NotEof)
            else (s, Value(Eof))
    ensures OutStep(s, ExpiresAt(time)) == (OutState(s.buffered, s.pending, s.wire, time, s.ec), NotEof)
  {
  }

  /** What a completed flush has put on the wire. */
  function Delivered(s: OutState, op: OutOp): seq<byte>
    requires s.Valid()
  {
    if FlushOf(s, op).status == Complete then OutStep(s, op).0.wire[|s.wire|..] else []
  }

  lemma CompleteCall(s: OutState, op: OutOp)
    requires s.Valid() && FlushOf(s, op).status == Complete
    ensures var t := OutStep(s, op).0;
            && t.wire == s.wire + Delivered(s, op)
            && t.wire + t.pending == s.wire + s.pending + Accepted(s, op)
  {
  }

  /** One call keeps wire ++ pending equal to everything accepted exactly when the socket does
      not take a part of the output only. */
  lemma CallConservesIff(s: OutState, op: OutOp)
    requires s.Valid()
    ensures OutStep(s, op).0.wire + OutStep(s, op).0.pending == s.wire + s.pending + Accepted(s, op)
       <==> !PartlySent(s, op)
  {
    hide OutStep, ToSend;
    FlushSends(ToSend(s, op), s.expiry, ScheduleOf(op), s.ec);
    if FlushOf(s, op).status == Complete {
      CompleteCall(s, op);
    } else {
      IncompleteCall(s, op);
      var n := FlushOf(s, op).sent;
      assert s.wire + s.pending[..0] == s.wire && s.wire + s.pending + [] == s.wire + s.pending;
      assert |s.wire + s.pending[..n] + s.pending| == |s.wire + s.pending| + n;
    }
  }

  /** After every prefix of a run, wire ++ pending is everything accepted so far. */
  predicate Conserved(s: OutState, ops: seq<OutOp>, accepted: seq<byte>)
    requires s.Valid()
    decreases |ops|
  {
    && s.wire + s.pending == accepted
    && (ops == [] || Conserved(OutStep(s, ops[0]).0, ops[1..], accepted + Accepted(s, ops[0])))
  }

  predicate NeverPartlySent(s: OutState, ops: seq<OutOp>)
    requires s.Valid()
    decreases |ops|
  {
    ops == [] || (!PartlySent(s, ops[0]) && NeverPartlySent(OutStep(s, ops[0]).0, ops[1..]))
  }

  /** Under every schedule the characters accepted are those on the wire followed by those
      pending, throughout a run, exactly when in no call the socket takes only a part of what
      is to be sent; such a part is sent again by the next flush. */
  lemma {:induction false} ConservedIff(s: OutState, ops: seq<OutOp>, accepted: seq<byte>)
    requires s.Valid() && s.wire + s.pending == accepted
    ensures Conserved(s, ops, accepted) <==> NeverPartlySent(s, ops)
    decreases |ops|
  {
    hide OutStep, Accepted, PartlySent;
    if ops != [] {
      CallConservesIff(s, ops[0]);
      if !PartlySent(s, ops[0]) {
        ConservedIff(OutStep(s, ops[0]).0, ops[1..], accepted + Accepted(s, ops[0]));
      }
    }
  }

  lemma InOrder(done: seq<byte>, rest: seq<byte>, more: seq<byte>, next: seq<byte>, left: seq<byte>)
    requires next + left == rest + more
    ensures done + next + left == done + rest + more
  {
    assert done + next + left == done + (next + left);
    assert done + rest + more == done + (rest + more);
  }

  /** In every run, with or without failures, what completed flushes delivered followed by
      what is pending is everything accepted so far. */
  predicate DeliversInOrder(s: OutState, ops: seq<OutOp>, accepted: seq<byte>, delivered: seq<byte>)
    requires s.Valid()
    decreases |ops|
  {
    && delivered + s.pending == accepted
    && (ops == [] ||
        DeliversInOrder(OutStep(s, ops[0]).0, ops[1..],
                        accepted + Accepted(s, ops[0]), delivered + Delivered(s, ops[0])))
  }

  lemma {:induction false} EveryRunDelivers(s: OutState, ops: seq<OutOp>, accepted: seq<byte>, delivered: seq<byte>)
    requires s.Valid() && delivered + s.pending == accepted
    ensures DeliversInOrder(s, ops, accepted, delivered)
    decreases |ops|
  {
    if ops != [] {
      var t := OutStep(s, ops[0]).0;
      hide OutStep, Accepted, Delivered, OutState.Valid;
      CallDelivers(s, ops[0]);
      var a, d := Accepted(s, ops[0]), Delivered(s, ops[0]);
      InOrder(delivered, s.pending, a, d, t.pending);
      EveryRunDelivers(t, ops[1..], accepted + a, delivered + d);
    }
  }

  lemma CallDelivers(s: OutState, op: OutOp)
    requires s.Valid()
    ensures Delivered(s, op) + OutStep(s, op).0.pending == s.pending + Accepted(s, op)
  {
    hide OutStep, FlushOf, Accepted;
    var t := OutStep(s, op).0;
    if FlushOf(s, op).status == Complete {
      CompleteCall(s, op);
      assert s.wire + Delivered(s, op) + t.pending == s.wire + (Delivered(s, op) + t.pending);
      assert s.wire + s.pending + Accepted(s, op) == s.wire + (s.pending + Accepted(s, op));
      assert (s.wire + (Delivered(s, op) + t.pending))[|s.wire|..] == Delivered(s, op) + t.pending;
      assert (s.wire + (s.pending + Accepted(s, op)))[|s.wire|..] == s.pending + Accepted(s, op);
    } else {
      IncompleteCall(s, op);
    }
  }

  /** Two characters accepted, one of them sent before the connection fails, and both of them
      sent by the next flush: the first is on the wire twice. */
  lemma PartIsSentTwice()
    ensures var s := OutState(true, [7, 8], [], 9, NoError);
            var half := Sync([SendEvent(0, 1, NoError, 0, NoError), SendEvent(0, -1, Other(1), 0, NoError)]);
            var whole := Sync([SendEvent(0, 2, NoError, 0, NoError)]);
            && OutStep(s, half).0.pending == [7, 8]
            && OutStep(OutStep(s, half).0, whole).0.wire == [7, 7, 8]
  {
  }

  // ---------------------------------------------------------------- input runs

  /** An iteration of the fill loop after which it goes round again. */
  predicate GoesRound(e: RecvEvent, expiry: int) {
    e.now <= expiry && e.got.Failure? && e.got.ec in {WouldBlock, TryAgain} && e.poll >= 0
  }

  /** What the first other iteration makes of the call. */
  function Decide(e: RecvEvent, expiry: int): FillResult {
    if expiry < e.now then FillResult([], Value(Eof), TimedOut)
    else match e.got
      case Data(d) =>
        if d == [] then FillResult([], Value(Eof), EndOfFile)
        else FillResult(if |d| <= 504 then d else d[..504], Value(Char(d[0])), NoError)
      case Closed => FillResult([], Value(Eof), EndOfFile)
      case Failure(ec) => FillResult([], Value(Eof), if ec in {WouldBlock, TryAgain} then e.pollEc else ec)
  }

  /** The first iteration that does not go round decides the call; without one it waits. */
  lemma {:induction false} FillStopsAtFirst(expiry: int, sched: seq<RecvEvent>, ec: Error, k: nat)
    requires k <= |sched| && forall i :: 0 <= i < k ==> GoesRound(sched[i], expiry)
    requires k < |sched| ==> !GoesRound(sched[k], expiry)
    ensures k < |sched| ==> Fill(expiry, sched, ec) == Decide(sched[k], expiry)
    ensures k == |sched| ==> Fill(expiry, sched, ec).result == Waiting && Fill(expiry, sched, ec).got == []
    decreases k
  {
    if k > 0 {
      FillStopsAtFirst(expiry, sched[1..], sched[0].pollEc, k - 1);
    }
  }

  /** Reading a character answers the first unread one and leaves the rest; with none unread it
      answers what the fill does and leaves the rest of what arrived.  underflow itself answers eof
      while something is unread, and otherwise what the fill does, and takes nothing. */
  lemma ReadAnswers(s: InState, sched: seq<RecvEvent>, time: int)
    requires s.Valid()
    ensures InStep(s, ReadExpiresAt(time)) == (InState(s.unread, time, s.ec), NotEof)
    ensures var f, (t, r) := Fill(s.expiry, sched, s.ec), InStep(s, Sbumpc(sched));
            if s.unread != [] then r == Value(Char(s.unread[0])) && t == s.(unread := s.unread[1..])
            else r == f.result && t == InState(if f.got == [] then [] else f.got[1..], s.expiry, f.ec)
    ensures var f, (t, r) := Fill(s.expiry, sched, s.ec), InStep(s, Underflow(sched));
            if s.unread != [] then r == Value(Eof) && t == s
            else r == f.result && t == InState(f.got, s.expiry, f.ec)
  {
    hide Fill;
  }

  /** The characters that an operation received from the socket. */
  function ReceivedBy(s: InState, op: InOp): seq<byte>
    requires s.Valid()
  {
    if s.unread == [] && !op.ReadExpiresAt? then Fill(s.expiry, op.sched, s.ec).got else []
  }

  /** The character that an operation handed to the reader. */
  function HandedOver(s: InState, op: InOp): seq<byte>
    requires s.Valid()
  {
    if !op.Sbumpc? then []
    else match InStep(s, op).1
      case Value(Char(c)) => [c]
      case _ => []
  }

  /** After every prefix of a run, everything received is what the reader was given followed
      by what is unread. */
  predicate ReadConserved(s: InState, ops: seq<InOp>, received: seq<byte>, handed: seq<byte>)
    requires s.Valid()
    decreases |ops|
  {
    && handed + s.unread == received
    && (ops == [] ||
        ReadConserved(InStep(s, ops[0]).0, ops[1..],
                      received + ReceivedBy(s, ops[0]), handed + HandedOver(s, ops[0])))
  }

  lemma ReadStepConserves(s: InState, op: InOp)
    requires s.Valid()
    ensures HandedOver(s, op) + InStep(s, op).0.unread == s.unread + ReceivedBy(s, op)
    ensures ReceivedBy(s, op) != [] ==> s.unread == []
  {
  }

  /** Under every schedule nothing received is lost, repeated or reordered: a refill happens
      only on an empty get area. */
  lemma {:induction false} EveryReadConserves(s: InState, ops: seq<InOp>, received: seq<byte>, handed: seq<byte>)
    requires s.Valid() && handed + s.unread == received
    ensures ReadConserved(s, ops, received, handed)
    decreases |ops|
  {
    hide InStep, ReceivedBy, HandedOver;
    if ops != [] {
      var t := InStep(s, ops[0]).0;
      var r, h := ReceivedBy(s, ops[0]), HandedOver(s, ops[0]);
      ReadStepConserves(s, ops[0]);
      InOrder(handed, s.unread, r, h, t.unread);
      EveryReadConserves(t, ops[1..], received + r, handed + h);
    }
  }
}
