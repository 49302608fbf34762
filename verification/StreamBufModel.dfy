/** The states of asio::basic_streambuf and what its operations do to them.
    Stream positions are offsets into the one character array; eback is always 0. */
module StreamBufModel {
  import opened Numerals
  import opened StreamTypes

  type size_t = n: nat | n <= SIZE_MAX

  const INT_MAX: nat := 0x7FFF_FFFF

  /** enum { buffer_delta = 128 } */
  const BUFFER_DELTA: size_t := 128

  datatype State = State(maxSize: size_t, gptr: nat, egptr: nat, pptr: nat, epptr: nat, store: seq<byte>) {

    /** The invariant of every reachable state. */
    predicate Valid() {
      && gptr <= egptr <= pptr <= epptr <= maxSize
      && |store| == Max(epptr, 1)
    }

    function Size(): nat
      requires Valid()
    {
      pptr - gptr
    }

    /** The input sequence: what data() shows. */
    function Data(): (d: seq<byte>)
      requires Valid()
      ensures |d| == Size()
    {
      store[gptr..pptr]
    }

    /** The array once the input sequence has been moved to its start. */
    function Shifted(): (s: seq<byte>)
      requires Valid()
      ensures |s| == |store|
    {
      Data() + store[Size()..]
    }

    /** Input sequence at the start of the array, output sequence up to pend. */
    function Packed(pend: nat): State
      requires Valid()
    {
      State(maxSize, 0, Size(), Size(), pend, Resized(Shifted(), Max(pend, 1)))
    }

    /** The documented condition for std::length_error. */
    predicate TooLong(n: nat)
      requires Valid()
    {
      Size() + n > maxSize
    }

    function Reserve(n: nat): (t: State)
      requires Valid()
      ensures t.Valid() && t.maxSize == maxSize
    {
      if n <= epptr - pptr then this
      else if TooLong(n) then this.(store := Shifted())
      else Packed(Max(epptr, Size() + n))
    }

    /** How much overflow asks reserve for when the put area is full. */
    function OverflowRequest(): nat
      requires Valid()
    {
      if Size() < maxSize && maxSize - Size() < BUFFER_DELTA then maxSize - Size() else BUFFER_DELTA
    }

    function Written(at: nat, w: seq<byte>): State
      requires Valid() && pptr + at + |w| <= epptr
    {
      this.(store := store[..pptr + at] + w + store[pptr + at + |w|..])
    }

    function Put(c: byte): State
      requires Valid() && pptr < epptr
    {
      this.(store := store[pptr := c], pptr := pptr + 1)
    }

    function Take(): State
      requires Valid() && gptr < pptr
    {
      this.(gptr := gptr + 1, egptr := Max(egptr, gptr + 1))
    }
  }

  /** std::vector::resize */
  function Resized(s: seq<byte>, n: nat): (r: seq<byte>)
    ensures |r| == n
  {
    if n <= |s| then s[..n] else s + seq(n - |s|, i => 0)
  }

  lemma ResizedToItself(s: seq<byte>)
    ensures Resized(s, |s|) == s
  {
  }

  /** The state that the constructor makes. */
  function Initial(maxSize: size_t): State {
    var pend := Min(maxSize, BUFFER_DELTA);
    State(maxSize, 0, 0, 0, pend, seq(Max(pend, 1), i => 0))
  }

  datatype Op =
    | Prepare(n: size_t)
    | Write(at: nat, w: seq<byte>)  // the caller stores w in the output sequence
    | Commit(n: size_t)
    | Consume(n: size_t, address: nat)  // the array lies at this address
    | Underflow
    | Overflow(c: IntType)
    | Sputc(b: byte)
    | Sbumpc

  datatype Outcome = Done | Got(c: IntType) | Threw

  /** The caller may write only in the output sequence, and consume only as many characters as
      pointers can count, n beyond the get pointer. */
  predicate Permitted(s: State, op: Op)
    requires s.Valid()
  {
    match op
    case Write(at, w) => s.pptr + at + |w| <= s.epptr
    case Consume(n, address) => address + s.gptr + n <= SIZE_MAX
    case _ => true
  }

  /** Every operation keeps the invariant, also when it throws. */
  function Step(s: State, op: Op): (r: (State, Outcome))
    requires s.Valid() && Permitted(s, op)
    ensures r.0.Valid() && r.0.maxSize == s.maxSize
  {
    match op
    case Prepare(n) => (s.Reserve(n), if s.TooLong(n) then Threw else Done)
    case Write(at, w) => (s.Written(at, w), Done)
    case Commit(n) => var p := s.pptr + Min(n, s.epptr - s.pptr); (s.(egptr := p, pptr := p), Done)
    case Consume(n, _) => (s.(gptr := s.gptr + Min(n, s.Size()), egptr := s.pptr), Done)
    case Underflow => if s.gptr < s.pptr then (s.(egptr := s.pptr), Got(Char(s.store[s.gptr]))) else (s, Got(Eof))
    case Overflow(c) => OverflowStep(s, c)
    case Sputc(b) => if s.pptr < s.epptr then (s.Put(b), Got(Char(b))) else OverflowStep(s, Char(b))
    case Sbumpc =>
      if s.gptr < s.egptr then (s.Take(), Got(Char(s.store[s.gptr])))
      else if s.gptr < s.pptr then (s.(egptr := s.pptr).Take(), Got(Char(s.store[s.gptr])))
      else (s, Got(Eof))
  }

  function OverflowStep(s: State, c: IntType): (r: (State, Outcome))
    requires s.Valid()
    ensures r.0.Valid() && r.0.maxSize == s.maxSize
  {
    if c.Eof? then (s, Done)
    else if s.pptr < s.epptr then (s.Put(c.c), Got(c))
    else if s.Size() == s.maxSize then (s, Threw)
    else
      FullPutArea(s);
      (s.Reserve(s.OverflowRequest()).Put(c.c), Got(c))
  }

  /** With the put area full, overflow's request is too long exactly when no character fits,
      and then the input sequence starts at 0 already. */
  lemma FullPutArea(s: State)
    requires s.Valid() && s.pptr == s.epptr
    ensures s.TooLong(s.OverflowRequest()) <==> s.Size() == s.maxSize
    ensures s.Size() == s.maxSize ==> s.gptr == 0 && s.Reserve(s.OverflowRequest()) == s
    ensures var t := s.Reserve(s.OverflowRequest());
            s.Size() < s.maxSize ==> t.Valid() && t.pptr < t.epptr
  {
  }

  // ---------------------------------------------------------------- pointer arithmetic

  /** static_cast<int>: the low 32 bits, read as a signed number. */
  function ToInt(n: nat): int {
    var m := n % 0x1_0000_0000;
    if m <= INT_MAX then m else m - 0x1_0000_0000
  }

  lemma SmallToInt(n: nat)
    requires n <= INT_MAX
    ensures ToInt(n) == n
  {
  }

  /** By how much consume(n) moves the get pointer when the array lies at `address`. */
  function ConsumeCount(s: State, n: size_t, address: nat): int
    requires s.Valid()
  {
    if (address + s.gptr + n) % (SIZE_MAX + 1) > address + s.pptr then s.Size() else ToInt(n)
  }

  /** consume(n) removes what it promises, n characters or all there are, exactly if the address
      gptr() + n does not wrap around, or the cast to int hits the right number by chance. */
  lemma ConsumeClampsIff(s: State, n: size_t, address: nat)
    requires s.Valid() && s.pptr <= INT_MAX && address + s.pptr <= SIZE_MAX
    ensures ConsumeCount(s, n, address) == Min(n, s.Size()) <==>
            address + s.gptr + n <= SIZE_MAX || ToInt(n) == s.Size()
  {
    hide ToInt;
    if n <= INT_MAX {
      SmallToInt(n);
    }
  }

  /** The largest n there is: instead of everything being consumed, the get pointer moves back
      by one. */
  lemma ConsumeWraps(s: State, address: nat)
    requires s.Valid() && s.pptr <= INT_MAX && address + s.pptr <= SIZE_MAX && address + s.gptr > 0
    ensures ConsumeCount(s, SIZE_MAX, address) == -1
  {
  }
}
