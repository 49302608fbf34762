/** What basic_streambuf promises: about single operations, and over every run. */
module StreamBufRuns {
  import opened Numerals
  import opened StreamTypes
  import opened StreamBufModel

  // ---------------------------------------------------------------- single operations

  lemma PackedKeepsData(s: State, pend: nat)
    requires s.Valid() && s.Size() <= pend <= s.maxSize
    ensures s.Packed(pend).Valid() && s.Packed(pend).Data() == s.Data()
  {
  }

  /** prepare(n) throws if and only if size() + n > max_size(), and then moves no position;
      otherwise it keeps the input sequence, although it may move it over itself, and makes
      room for n characters after it; where there is that room already, it does nothing. */
  lemma PrepareContract(s: State, n: size_t)
    requires s.Valid()
    ensures var (t, out) := Step(s, Prepare(n));
            && (out == Threw <==> s.Size() + n > s.maxSize)
            && (out == Threw ==> t == s.(store := t.store))
            && (out != Threw ==> t.Data() == s.Data() && t.pptr + n <= t.epptr)
            && t.epptr == Max(s.epptr, if out == Threw then 0 else s.Size() + n)
            && (n <= s.epptr - s.pptr ==> t == s)
  {
    if n > s.epptr - s.pptr && !s.TooLong(n) {
      PackedKeepsData(s, Max(s.epptr, s.Size() + n));
    }
  }

  /** Filling the region that prepare(n) returned and committing m <= n characters of it
      appends exactly those. */
  lemma PrepareWriteCommit(s: State, n: size_t, w: seq<byte>, m: size_t)
    requires s.Valid() && !s.TooLong(n) && m <= |w| <= n
    ensures var t := Step(s, Prepare(n)).0;
            && Permitted(t, Write(0, w))
            && var u := Step(t, Write(0, w)).0;
            && u.Data() == s.Data()
            && Step(u, Commit(m)).0.Data() == s.Data() + w[..m]
  {
    hide State.Reserve;
    PrepareContract(s, n);
    WriteCommit(Step(s, Prepare(n)).0, w, m);
  }

  lemma WriteCommit(t: State, w: seq<byte>, m: size_t)
    requires t.Valid() && m <= |w| && t.pptr + |w| <= t.epptr
    ensures var u := Step(t, Write(0, w)).0;
            && u.Data() == t.Data()
            && Step(u, Commit(m)).0.Data() == t.Data() + w[..m]
  {
    var u := Step(t, Write(0, w)).0;
    assert u.store[u.pptr..u.pptr + m] == w[..m];
  }

  /** Appending a character succeeds if and only if size() < max_size(), and then appends
      exactly that character; a throw leaves the state as it was. */
  lemma OverflowContract(s: State, c: byte)
    requires s.Valid()
    ensures var (t, out) := Step(s, Overflow(Char(c)));
            && (out == Threw <==> s.Size() == s.maxSize)
            && (out == Threw ==> t == s)
            && (out != Threw ==> t.Data() == s.Data() + [c])
    ensures Step(s, Sputc(c)) == Step(s, Overflow(Char(c)))
  {
    if s.pptr == s.epptr && s.Size() < s.maxSize {
      PrepareContract(s, s.OverflowRequest());
      FullPutArea(s);
    }
  }

  /** Appending eof does nothing.  When the put area is full and a character fits, the buffer grows
      by 128 characters or by what is left. */
  lemma OverflowGrowth(s: State, c: byte)
    requires s.Valid()
    ensures Step(s, Overflow(Eof)) == (s, Done)
    ensures s.pptr == s.epptr && s.Size() < s.maxSize ==>
      Step(s, Overflow(Char(c))).0.epptr
        == Max(s.epptr, s.Size() + if s.maxSize - s.Size() < 128 then s.maxSize - s.Size() else 128)
  {
    if s.pptr == s.epptr && s.Size() < s.maxSize {
      PrepareContract(s, s.OverflowRequest());
      FullPutArea(s);
    }
  }

  /** Reading answers the first character of the input sequence, and eof exactly when there is
      none.  Looking at it keeps the sequence, taking it leaves the rest. */
  lemma ReadContract(s: State)
    requires s.Valid()
    ensures var (t, out) := Step(s, Underflow);
            && out == Got(if s.Data() == [] then Eof else Char(s.Data()[0]))
            && t.Data() == s.Data() && t == s.(egptr := t.egptr)
            && (s.Data() != [] ==> t.egptr == t.pptr)
    ensures var (t, out) := Step(s, Sbumpc);
            && out == Got(if s.Data() == [] then Eof else Char(s.Data()[0]))
            && t.Data() == (if s.Data() == [] then [] else s.Data()[1..])
            && t.store == s.store && t.pptr == s.pptr && t.epptr == s.epptr
  {
  }

  /** commit(n) appends the first n characters of the output sequence to the input sequence, or
      all there are. */
  lemma CommitContract(s: State, n: size_t)
    requires s.Valid()
    ensures var t := Step(s, Commit(n)).0;
            && t.Data() == s.Data() + (if n <= s.epptr - s.pptr then s.store[s.pptr..s.pptr + n] else s.store[s.pptr..s.epptr])
            && t.egptr == t.pptr && t.epptr == s.epptr && t.store == s.store
  {
    hide State.Reserve, OverflowStep, State.Put, State.Take;
    var p := s.pptr + Min(n, s.epptr - s.pptr);
    SliceOfSlice(s.store, s.gptr, s.Size(), p);
    assert s.store[s.gptr..p][..s.Size()] == s.store[s.gptr..s.pptr];
  }

  /** consume(n) removes the first n characters of the input sequence, or all there are. */
  lemma ConsumeContract(s: State, n: size_t, address: nat)
    requires s.Valid() && Permitted(s, Consume(n, address))
    ensures var t := Step(s, Consume(n, address)).0;
            && t.Data() == s.Data()[Min(n, |s.Data()|)..]
            && t.pptr == s.pptr && t.epptr == s.epptr && t.store == s.store
  {
  }

  lemma SliceOfSlice(d: seq<byte>, a: nat, n: nat, p: nat)
    requires a + n <= p <= |d|
    ensures d[a..p][n..] == d[a + n..p] && d[a..p] == d[a..p][..n] + d[a + n..p]
  {
  }

  /** A new buffer holds nothing and has room for 128 characters, or for max_size() if less. */
  lemma InitialContract(maxSize: size_t)
    ensures Initial(maxSize).Data() == [] && Initial(maxSize).gptr == 0 && Initial(maxSize).maxSize == maxSize
    ensures Initial(maxSize).epptr == if maxSize < 128 then maxSize else 128
  {
  }

  /** A sequence that repeats itself at distance p. */
  predicate Periodic(d: seq<byte>, p: nat) {
    forall i :: 0 <= i && i + p < |d| ==> d[i + p] == d[i]
  }

  /** What a throwing prepare leaves of the input sequence: wherever another character lies
      gptr further on, that one. */
  lemma ThrowingPrepare(s: State, n: size_t, i: nat)
    requires s.Valid() && s.TooLong(n) && i < s.Size()
    ensures Step(s, Prepare(n)).0.Data()[i]
         == if s.gptr + i < s.Size() then s.Data()[s.gptr + i] else s.Data()[i]
  {
    var t := Step(s, Prepare(n)).0;
    assert t.store == s.Data() + s.store[s.Size()..];
    assert t.Data()[i] == t.store[s.gptr + i];
  }

  /** A throwing prepare keeps the input sequence exactly when the sequence repeats itself at
      distance gptr; in particular when gptr is 0 or at least size(). */
  lemma ThrowKeepsDataIff(s: State, n: size_t)
    requires s.Valid() && s.TooLong(n)
    ensures Step(s, Prepare(n)).0.Data() == s.Data() <==> Periodic(s.Data(), s.gptr)
    ensures s.gptr == 0 || s.gptr >= s.Size() ==> Periodic(s.Data(), s.gptr)
  {
    hide Step, State.Data;
    var d, left := s.Data(), Step(s, Prepare(n)).0.Data();
    PrepareContract(s, n);
    assert |left| == |d|;
    forall i | 0 <= i < s.Size()
      ensures left[i] == if s.gptr + i < s.Size() then d[s.gptr + i] else d[i]
    {
      ThrowingPrepare(s, n, i);
    }
    if left == d {
      assert forall i :: 0 <= i && i + s.gptr < |d| ==> left[i] == d[s.gptr + i];
    } else {
      var i :| 0 <= i < |d| && left[i] != d[i];
      ThrowingPrepare(s, n, i);
      assert i + s.gptr < |d| && d[i + s.gptr] != d[i];
    }
  }

  // ---------------------------------------------------------------- runs

  predicate Legal(s: State, ops: seq<Op>)
    requires s.Valid()
    decreases |ops|
  {
    ops == [] || (Permitted(s, ops[0]) && Legal(Step(s, ops[0]).0, ops[1..]))
  }

  /** The state after a run. */
  function Exec(s: State, ops: seq<Op>): (t: State)
    requires s.Valid() && Legal(s, ops)
    ensures t.Valid() && t.maxSize == s.maxSize
    decreases |ops|
  {
    if ops == [] then s else Exec(Step(s, ops[0]).0, ops[1..])
  }

  /** The characters that an operation adds to the input sequence. */
  function Appended(s: State, op: Op): seq<byte>
    requires s.Valid() && Permitted(s, op)
  {
    match op
    case Commit(n) => s.store[s.pptr..s.pptr + Min(n, s.epptr - s.pptr)]
    case Overflow(Char(c)) => if Step(s, op).1 == Threw then [] else [c]
    case Sputc(c) => if Step(s, op).1 == Threw then [] else [c]
    case _ => []
  }

  /** The characters that an operation takes from it. */
  function Removed(s: State, op: Op): seq<byte>
    requires s.Valid() && Permitted(s, op)
  {
    match op
    case Consume(n, _) => s.Data()[..Min(n, s.Size())]
    case Sbumpc => (match Step(s, op).1 case Got(Char(c)) => [c] case _ => [])
    case _ => []
  }

  /** A prepare that throws and finds an input sequence which its left shift damages. */
  predicate Damages(s: State, op: Op)
    requires s.Valid()
  {
    op.Prepare? && s.TooLong(op.n) && !Periodic(s.Data(), s.gptr)
  }

  predicate Undamaged(s: State, ops: seq<Op>)
    requires s.Valid() && Legal(s, ops)
    decreases |ops|
  {
    ops == [] || (!Damages(s, ops[0]) && Undamaged(Step(s, ops[0]).0, ops[1..]))
  }

  lemma PrepareConservesIff(s: State, n: size_t)
    requires s.Valid()
    ensures Step(s, Prepare(n)).0.Data() == s.Data() <==> !Damages(s, Prepare(n))
  {
    PrepareContract(s, n);
    if s.TooLong(n) {
      ThrowKeepsDataIff(s, n);
    }
  }

  lemma PutConserves(s: State, op: Op)
    requires s.Valid() && (op.Commit? || op.Overflow? || op.Sputc?)
    ensures s.Data() + Appended(s, op) == Step(s, op).0.Data()
  {
    hide Step, State.Data;
    match op
    case Commit(n) => CommitContract(s, n);
    case Overflow(Eof) => OverflowGrowth(s, 0);
    case Overflow(Char(c)) => OverflowContract(s, c);
    case Sputc(c) => OverflowContract(s, c);
  }

  lemma GetConserves(s: State, op: Op)
    requires s.Valid() && Permitted(s, op) && (op.Consume? || op.Underflow? || op.Sbumpc?)
    ensures s.Data() == Removed(s, op) + Step(s, op).0.Data()
  {
  }

  /** One operation conserves the characters if and only if it is no damaging prepare. */
  lemma StepConservesIff(s: State, op: Op)
    requires s.Valid() && Permitted(s, op)
    ensures s.Data() + Appended(s, op) == Removed(s, op) + Step(s, op).0.Data() <==> !Damages(s, op)
  {
    hide Step;
    AppendEmpty(s.Data());
    AppendEmpty(Step(s, op).0.Data());
    if op.Prepare? {
      PrepareConservesIff(s, op.n);
    } else if op.Write? {
      WriteKeepsData(s, op.at, op.w);
    } else if op.Commit? || op.Overflow? || op.Sputc? {
      PutConserves(s, op);
    } else {
      GetConserves(s, op);
    }
  }

  lemma AppendEmpty(d: seq<byte>)
    ensures d + [] == d && [] + d == d
  {
  }

  lemma WriteKeepsData(s: State, at: nat, w: seq<byte>)
    requires s.Valid() && Permitted(s, Write(at, w))
    ensures Step(s, Write(at, w)).0.Data() == s.Data()
  {
  }

  /** First in, first out after every prefix of a run: what has been added so far is what has
      been taken so far followed by what is left, in order. */
  predicate Fifo(s: State, ops: seq<Op>, appended: seq<byte>, removed: seq<byte>)
    requires s.Valid() && Legal(s, ops)
    decreases |ops|
  {
    && appended == removed + s.Data()
    && (ops == [] ||
        Fifo(Step(s, ops[0]).0, ops[1..], appended + Appended(s, ops[0]), removed + Removed(s, ops[0])))
  }

  /** First in, first out holds throughout a run, whatever it shifts and resizes, exactly when
      no prepare in it throws on an input sequence that its shift damages. */
  lemma {:induction false} FifoIff(s: State, ops: seq<Op>, appended: seq<byte>, removed: seq<byte>)
    requires s.Valid() && Legal(s, ops)
    requires appended == removed + s.Data()
    ensures Fifo(s, ops, appended, removed) <==> Undamaged(s, ops)
    decreases |ops|
  {
    hide Step, Appended, Removed, Damages;
    if ops != [] {
      var t := Step(s, ops[0]).0;
      var a, r := Appended(s, ops[0]), Removed(s, ops[0]);
      StepConservesIff(s, ops[0]);
      AfterCommonPrefix(removed, s.Data(), a, r, t.Data());
      if Damages(s, ops[0]) {
        assert !Fifo(t, ops[1..], appended + a, removed + r);
      } else {
        FifoIff(t, ops[1..], appended + a, removed + r);
      }
    }
  }

  lemma AfterCommonPrefix(p: seq<byte>, d: seq<byte>, a: seq<byte>, r: seq<byte>, e: seq<byte>)
    ensures p + d + a == p + r + e <==> d + a == r + e
  {
    assert (p + d + a)[|p|..] == d + a && (p + r + e)[|p|..] == r + e;
    assert p + (d + a) == p + d + a && p + (r + e) == p + r + e;
  }

  /** A run in which no prepare throws is first in, first out from the empty buffer on. */
  lemma FifoWithoutThrows(maxSize: size_t, ops: seq<Op>)
    requires Legal(Initial(maxSize), ops) && NoPrepareThrows(Initial(maxSize), ops)
    ensures Fifo(Initial(maxSize), ops, [], [])
  {
    NoThrowNoDamage(Initial(maxSize), ops);
    FifoIff(Initial(maxSize), ops, [], []);
  }

  predicate NoPrepareThrows(s: State, ops: seq<Op>)
    requires s.Valid() && Legal(s, ops)
    decreases |ops|
  {
    ops == [] ||
    ((ops[0].Prepare? ==> Step(s, ops[0]).1 != Threw) && NoPrepareThrows(Step(s, ops[0]).0, ops[1..]))
  }

  lemma {:induction false} NoThrowNoDamage(s: State, ops: seq<Op>)
    requires s.Valid() && Legal(s, ops) && NoPrepareThrows(s, ops)
    ensures Undamaged(s, ops)
    decreases |ops|
  {
    if ops != [] {
      NoThrowNoDamage(Step(s, ops[0]).0, ops[1..]);
    }
  }

  lemma ExecCons(s: State, op: Op, ops: seq<Op>)
    requires s.Valid() && Permitted(s, op) && Legal(Step(s, op).0, ops)
    ensures Legal(s, [op] + ops) && Exec(s, [op] + ops) == Exec(Step(s, op).0, ops)
  {
  }

  /** A reachable state and a request for which the input sequence does not survive. */
  lemma ThrowLosesData()
    ensures var ops := [Write(0, [7, 8, 9])] + ([Commit(3)] + ([Consume(1, 4096)] + []));
            && Legal(Initial(3), ops)
            && Exec(Initial(3), ops).Data() == [8, 9]
            && Damages(Exec(Initial(3), ops), Prepare(2))
            && Step(Exec(Initial(3), ops), Prepare(2)).0.Data() == [9, 9]
  {
    var w := [7, 8, 9];
    var s1, s2, s3 := State(3, 0, 0, 0, 3, w), State(3, 0, 3, 3, 3, w), State(3, 1, 3, 3, 3, w);
    assert Step(Initial(3), Write(0, w)).0 == s1;
    assert Step(s1, Commit(3)).0 == s2;
    assert Step(s2, Consume(1, 4096)).0 == s3;
    ExecCons(s2, Consume(1, 4096), []);
    ExecCons(s1, Commit(3), [Consume(1, 4096)] + []);
    ExecCons(Initial(3), Write(0, w), [Commit(3)] + ([Consume(1, 4096)] + []));
    assert s3.Data() == [8, 9] && s3.Data()[1] != s3.Data()[0];
    assert s3.Shifted() == [8, 9, 9];
  }

  // ---------------------------------------------------------------- the end of the buffer

  /** The space that a successful reservation asks for. */
  function Requested(s: State, op: Op): nat
    requires s.Valid() && Permitted(s, op)
  {
    if Step(s, op).1 == Threw then 0
    else match op
      case Prepare(n) => s.Size() + n
      case Overflow(Char(_)) => if s.pptr == s.epptr then s.Size() + s.OverflowRequest() else 0
      case Sputc(_) => if s.pptr == s.epptr then s.Size() + s.OverflowRequest() else 0
      case _ => 0
  }

  function Peak(s: State, ops: seq<Op>): nat
    requires s.Valid() && Legal(s, ops)
    decreases |ops|
  {
    if ops == [] then 0 else Max(Requested(s, ops[0]), Peak(Step(s, ops[0]).0, ops[1..]))
  }

  lemma StepHighWater(s: State, op: Op)
    requires s.Valid() && Permitted(s, op)
    ensures Step(s, op).0.epptr == Max(s.epptr, Requested(s, op))
  {
    hide State.Shifted, State.Data, Resized, State.Reserve;
    match op
    case Prepare(n) => PrepareContract(s, n);
    case Overflow(Char(c)) => OverflowHighWater(s, c);
    case Sputc(c) => OverflowHighWater(s, c);
    case _ =>
  }

  lemma OverflowHighWater(s: State, c: byte)
    requires s.Valid()
    ensures Step(s, Overflow(Char(c))).0.epptr == Max(s.epptr, Requested(s, Overflow(Char(c))))
    ensures Step(s, Sputc(c)).0.epptr == Max(s.epptr, Requested(s, Sputc(c)))
  {
    hide State.Shifted, State.Data, Resized, State.Reserve;
    OverflowContract(s, c);
    if s.pptr == s.epptr {
      FullPutArea(s);
      PrepareContract(s, s.OverflowRequest());
    }
  }

  lemma {:induction false} ExecHighWater(s: State, ops: seq<Op>)
    requires s.Valid() && Legal(s, ops)
    ensures Exec(s, ops).epptr == Max(s.epptr, Peak(s, ops))
    decreases |ops|
  {
    if ops != [] {
      StepHighWater(s, ops[0]);
      ExecHighWater(Step(s, ops[0]).0, ops[1..]);
    }
  }

  /** Over every run the buffer ends at the largest size() + n ever reserved, or where the
      constructor put it; and the array is that long, or one character long. */
  lemma HighWaterMark(maxSize: size_t, ops: seq<Op>)
    requires Legal(Initial(maxSize), ops)
    ensures var t := Exec(Initial(maxSize), ops);
            && t.epptr == Max(Min(maxSize, BUFFER_DELTA), Peak(Initial(maxSize), ops))
            && t.Size() <= t.epptr <= maxSize
            && |t.store| == Max(t.epptr, 1)
  {
    ExecHighWater(Initial(maxSize), ops);
  }
}
