/** The over-aligning allocator of any_completion_handler over a heap of bytes: each block it
    hands out is followed by a hidden slot that remembers how far the block lies behind the
    start of the raw allocation. */
module AllocatorModel {
  import opened Numerals

  /** sizeof(std::ptrdiff_t) */
  const SLOT: nat := 8

  /** PTRDIFF_MAX */
  const PTRDIFF_MAX: nat := 0x7FFF_FFFF_FFFF_FFFF

  /** A block in use: what the user asked for and, unseen by the user, the raw allocation. */
  datatype Block = Block(size: nat, align: nat, base: nat)

  datatype Heap = Heap(mem: map<nat, byte>, raw: map<nat, nat>, live: map<nat, Block>)

  /** What allocate asks the underlying allocator for. */
  function Total(size: nat, align: nat): nat
    requires align > 0
  {
    size + align - 1 + SLOT
  }

  predicate Aligned(p: nat, align: nat)
    requires align > 0
  {
    p == 0 || (p >= align && Aligned(p - align, align))
  }

  lemma {:induction false} AlignedIsMultiple(p: nat, align: nat)
    requires align > 0
    ensures Aligned(p, align) <==> p % align == 0
  {
    if p >= align {
      AlignedIsMultiple(p - align, align);
      var q, r := (p - align) / align, (p - align) % align;
      assert p - align == q * align + r;
      QuotientIs(p, q + 1, r, align);
    } else {
      QuotientIs(p, 0, p, align);
    }
  }

  /** The least multiple of align that is not below p. */
  function RoundUp(p: nat, align: nat): (q: nat)
    requires align > 0
    ensures p <= q < p + align && Aligned(q, align)
  {
    if p == 0 then 0 else if p <= align then align else RoundUp(p - align, align) + align
  }

  /** std::align: null when the aligned region does not fit. */
  function Align(align: nat, size: nat, p: nat, space: nat): (q: nat)
    requires align > 0 && p > 0
  {
    if RoundUp(p, align) - p + size <= space then RoundUp(p, align) else 0
  }

  predicate Disjoint(a: nat, n: nat, b: nat, m: nat) {
    a + n <= b || b + m <= a
  }

  /** A place where the underlying allocator can put len bytes: not null, and clear of every
      raw allocation. */
  predicate Free(h: Heap, base: nat, len: nat) {
    base > 0 && forall b :: b in h.raw ==> Disjoint(base, len, b, h.raw[b])
  }

  /** The n addresses from a on lie in the raw allocation at base. */
  predicate InsideRaw(raw: map<nat, nat>, base: nat, a: nat, n: nat) {
    base in raw && base <= a && a + n <= base + raw[base]
  }

  ghost predicate SlotHolds(mem: map<nat, byte>, a: nat, v: nat) {
    forall x :: a <= x < a + SLOT ==> x in mem && mem[x] == Bytes(v, SLOT)[x - a]
  }

  function Span(a: nat, n: nat): (s: set<nat>)
    ensures forall x :: x in s <==> a <= x < a + n
  {
    if n == 0 then {} else Span(a, n - 1) + {a + n - 1}
  }

  function Poke(mem: map<nat, byte>, a: nat, s: seq<byte>): (m: map<nat, byte>)
    ensures forall x :: x in m <==> x in mem || a <= x < a + |s|
    ensures forall x :: x in m ==> m[x] == if a <= x < a + |s| then s[x - a] else mem[x]
  {
    map x | x in mem.Keys + Span(a, |s|) :: if a <= x < a + |s| then s[x - a] else mem[x]
  }

  datatype Op =
    | Allocate(size: nat, align: nat, base: nat)  // base: where the underlying allocator puts it
    | Write(p: nat, i: nat, b: byte)              // the user stores b at offset i of block p
    | Deallocate(p: nat, size: nat, align: nat)

  ghost predicate Permitted(h: Heap, op: Op) {
    match op
    case Allocate(size, align, base) => 0 < align <= PTRDIFF_MAX && Free(h, base, Total(size, align))
    case Write(p, i, _) => p in h.live && i < h.live[p].size
    case Deallocate(p, size, align) =>
      p == 0 || (p in h.live && h.live[p].size == size && h.live[p].align == align)
  }

  ghost function Step(h: Heap, op: Op): Heap
    requires Permitted(h, op)
  {
    match op
    case Allocate(size, align, base) =>
      var p := RoundUp(base, align);
      Heap(Poke(h.mem, p + size, Bytes(p - base, SLOT)),
           h.raw[base := Total(size, align)],
           h.live[p := Block(size, align, base)])
    case Write(p, i, b) => h.(mem := h.mem[p + i := b])
    case Deallocate(p, _, _) =>
      if p == 0 then h else h.(raw := h.raw - {h.live[p].base}, live := h.live - {p})
  }

  /** A block is aligned, it and its slot lie inside its own raw allocation, and the slot
      holds the distance to the start of that. */
  ghost predicate BlockOk(h: Heap, p: nat) {
    p in h.live &&
    var b := h.live[p];
    && 0 < b.base <= p && 0 < b.align <= PTRDIFF_MAX && p - b.base < b.align && Aligned(p, b.align)
    && b.base in h.raw && h.raw[b.base] == Total(b.size, b.align)
    && SlotHolds(h.mem, p + b.size, p - b.base)
  }

  ghost predicate RawDisjoint(raw: map<nat, nat>) {
    forall a, b :: a in raw && b in raw && a != b ==> Disjoint(a, raw[a], b, raw[b])
  }

  /** The raw allocations and the blocks in use correspond one to one. */
  ghost predicate OneRawEach(h: Heap) {
    && (forall p, q :: p in h.live && q in h.live && p != q ==> h.live[p].base != h.live[q].base)
    && (forall a :: a in h.raw ==> exists p :: p in h.live && h.live[p].base == a)
  }

  ghost predicate Valid(h: Heap) {
    (forall p :: p in h.live ==> BlockOk(h, p)) && RawDisjoint(h.raw) && OneRawEach(h)
  }

  /** A block together with its slot lies inside its raw allocation. */
  lemma BlockInside(h: Heap, p: nat)
    requires BlockOk(h, p)
    ensures var b := h.live[p];
            && b.base in h.raw && 0 < b.base <= p
            && p + b.size + SLOT <= b.base + h.raw[b.base]
  {
  }

  /** The user bytes and slots of different blocks never meet. */
  lemma BlocksDisjoint(h: Heap, p: nat, q: nat)
    requires Valid(h) && p in h.live && q in h.live && p != q
    ensures Disjoint(p, h.live[p].size + SLOT, q, h.live[q].size + SLOT)
  {
    hide BlockOk;
    BlockInside(h, p);
    BlockInside(h, q);
  }

  /** A block whose slot and raw allocation are left alone stays as it was. */
  lemma BlockKept(h: Heap, t: Heap, p: nat)
    requires BlockOk(h, p) && p in t.live && t.live[p] == h.live[p]
    requires h.live[p].base in t.raw && t.raw[h.live[p].base] == h.raw[h.live[p].base]
    requires forall a :: p + h.live[p].size <= a < p + h.live[p].size + SLOT && a in h.mem ==>
               a in t.mem && t.mem[a] == h.mem[a]
    ensures BlockOk(t, p)
  {
  }

  lemma NewBlockOk(h: Heap, size: nat, align: nat, base: nat)
    requires Permitted(h, Allocate(size, align, base))
    ensures BlockOk(Step(h, Allocate(size, align, base)), RoundUp(base, align))
  {
  }

  lemma OneMoreRaw(h: Heap, size: nat, align: nat, base: nat)
    requires Valid(h) && Permitted(h, Allocate(size, align, base)) && RoundUp(base, align) !in h.live
    ensures OneRawEach(Step(h, Allocate(size, align, base)))
  {
    hide BlockOk;
    var t, p := Step(h, Allocate(size, align, base)), RoundUp(base, align);
    forall q | q in h.live
      ensures h.live[q].base != base
    {
      BlockInside(h, q);
      assert Disjoint(base, Total(size, align), h.live[q].base, h.raw[h.live[q].base]);
    }
    forall a | a in t.raw
      ensures exists q :: q in t.live && t.live[q].base == a
    {
      if a == base {
        assert t.live[p].base == a;
      } else {
        var q :| q in h.live && h.live[q].base == a;
        assert t.live[q].base == a;
      }
    }
  }

  lemma AllocateKeepsValid(h: Heap, size: nat, align: nat, base: nat)
    requires Valid(h) && Permitted(h, Allocate(size, align, base))
    ensures Valid(Step(h, Allocate(size, align, base)))
    ensures RoundUp(base, align) !in h.live
  {
    hide BlockOk, OneRawEach;
    var t, p := Step(h, Allocate(size, align, base)), RoundUp(base, align);
    NewBlockOk(h, size, align, base);
    forall q | q in h.live
      ensures q != p && BlockOk(t, q)
    {
      BlockInside(h, q);
      assert Disjoint(base, Total(size, align), h.live[q].base, h.raw[h.live[q].base]);
      BlockKept(h, t, q);
    }
    OneMoreRaw(h, size, align, base);
  }

  lemma WriteKeepsValid(h: Heap, p: nat, i: nat, b: byte)
    requires Valid(h) && Permitted(h, Write(p, i, b))
    ensures Valid(Step(h, Write(p, i, b)))
  {
    hide BlockOk;
    var t := Step(h, Write(p, i, b));
    forall q | q in h.live
      ensures BlockOk(t, q)
    {
      if q != p {
        BlocksDisjoint(h, p, q);
      }
      BlockInside(h, q);
      BlockKept(h, t, q);
    }
  }

  lemma DeallocateKeepsValid(h: Heap, p: nat, size: nat, align: nat)
    requires Valid(h) && p in h.live && Permitted(h, Deallocate(p, size, align))
    ensures Valid(Step(h, Deallocate(p, size, align)))
  {
    hide BlockOk;
    var t := Step(h, Deallocate(p, size, align));
    BlockInside(h, p);
    forall q | q in t.live
      ensures BlockOk(t, q)
    {
      BlockInside(h, q);
      BlockKept(h, t, q);
    }
    forall a | a in t.raw
      ensures exists q :: q in t.live && t.live[q].base == a
    {
      var q :| q in h.live && h.live[q].base == a;
      assert t.live[q].base == a;
    }
  }

  /** The bytes in memory from address a on. */
  predicate SlotReads(mem: map<nat, byte>, a: nat, slot: seq<byte>) {
    |slot| == SLOT && forall k :: 0 <= k < SLOT ==> a + k in mem && slot[k] == mem[a + k]
  }

  /** What deallocate reads from the slot leads back to the start of the raw allocation, and
      the length it passes on is the length of that allocation. */
  lemma SlotLeadsBack(h: Heap, p: nat, slot: seq<byte>)
    requires BlockOk(h, p) && SlotReads(h.mem, p + h.live[p].size, slot)
    ensures R256.Value(slot) + h.live[p].base == p
    ensures h.live[p].base in h.raw && h.raw[h.live[p].base] == Total(h.live[p].size, h.live[p].align)
  {
    hide Radix.Value, Bytes, Total, Aligned;
    SlotRoundTrip(p - h.live[p].base, slot);
  }

  lemma SlotRoundTrip(off: nat, slot: seq<byte>)
    requires off <= PTRDIFF_MAX && |slot| == SLOT
    requires forall k :: 0 <= k < SLOT ==> slot[k] == Bytes(off, SLOT)[k]
    ensures R256.Value(slot) == off
  {
    hide Radix.Value, Radix.Digits, Radix.Range;
    assert slot == Bytes(off, SLOT);
    EightBytes();
    ValueOfDigits(R256, off, SLOT);
  }

  /** The slot of a block in use can be read, inside the raw allocation of the block. */
  lemma SlotReadable(h: Heap, p: nat)
    requires Valid(h) && p in h.live
    ensures BlockOk(h, p)
    ensures 0 < p && InsideRaw(h.raw, h.live[p].base, p + h.live[p].size, SLOT)
    ensures forall x :: p + h.live[p].size <= x < p + h.live[p].size + SLOT ==> x in h.mem
  {
    hide OneRawEach, RawDisjoint;
    assert BlockOk(h, p);
    BlockInside(h, p);
  }

  lemma StepKeepsValid(h: Heap, op: Op)
    requires Valid(h) && Permitted(h, op)
    ensures Valid(Step(h, op))
  {
    hide Valid;
    match op
    case Allocate(size, align, base) => AllocateKeepsValid(h, size, align, base);
    case Write(p, i, b) => WriteKeepsValid(h, p, i, b);
    case Deallocate(p, size, align) =>
      if p != 0 {
        DeallocateKeepsValid(h, p, size, align);
      }
  }

  /** Blocks of one user never disturb those of another: an operation leaves the bytes of
      every other block in use as they were. */
  lemma OtherBlocksUntouched(h: Heap, op: Op, q: nat, i: nat)
    requires Valid(h) && Permitted(h, op) && q in h.live && i < h.live[q].size
    requires op.Write? ==> op.p != q || op.i != i
    ensures q + i in Step(h, op).mem <==> q + i in h.mem
    ensures q + i in h.mem ==> Step(h, op).mem[q + i] == h.mem[q + i]
  {
    hide BlockOk, OneRawEach;
    BlockInside(h, q);
    match op
    case Allocate(size, align, base) =>
      assert Disjoint(base, Total(size, align), h.live[q].base, h.raw[h.live[q].base]);
    case Write(p, j, b) =>
      if p != q {
        BlocksDisjoint(h, p, q);
      }
    case Deallocate(_, _, _) =>
  }

  /** A new block has the size and alignment asked for, at the first aligned address of its raw
      allocation; all other blocks stay in use. */
  lemma AllocateDoes(h: Heap, size: nat, align: nat, base: nat)
    requires Valid(h) && Permitted(h, Allocate(size, align, base))
    ensures var t, p := Step(h, Allocate(size, align, base)), RoundUp(base, align);
            && p !in h.live && base <= p < base + align && p % align == 0
            && t.live == h.live[p := Block(size, align, base)]
            && t.raw == h.raw[base := size + align - 1 + 8]
  {
    hide Valid, Poke, RoundUp, Aligned, Bytes, Free;
    AllocateKeepsValid(h, size, align, base);
    AlignedIsMultiple(RoundUp(base, align), align);
  }

  /** A block given back is in use no longer, nor is its raw allocation, and all others are; giving
      back null does nothing. */
  lemma DeallocateDoes(h: Heap, p: nat, size: nat, align: nat)
    requires Valid(h) && Permitted(h, Deallocate(p, size, align))
    ensures var t := Step(h, Deallocate(p, size, align));
            if p == 0 && p !in h.live then t == h
            else
              && p in h.live && h.live[p].base in h.raw
              && t == Heap(h.mem, h.raw - {h.live[p].base}, h.live - {p})
              && |t.live| < |h.live| && |t.raw| < |h.raw|
  {
    hide Valid;
    if p in h.live {
      SlotReadable(h, p);
      FewerKeys(h.live, p);
      FewerKeys(h.raw, h.live[p].base);
    }
  }

  /** A user's write goes to the one address. */
  lemma WriteDoes(h: Heap, p: nat, i: nat, b: byte)
    requires Permitted(h, Write(p, i, b))
    ensures Step(h, Write(p, i, b)) == Heap(h.mem[p + i := b], h.raw, h.live)
  {
  }

  lemma FewerKeys<V>(m: map<nat, V>, k: nat)
    requires k in m
    ensures |m - {k}| < |m|
  {
    assert (m - {k}).Keys == m.Keys - {k};
    assert |m.Keys - {k}| < |m.Keys|;
  }

  // ---------------------------------------------------------------- runs

  ghost predicate Legal(h: Heap, ops: seq<Op>)
    decreases |ops|
  {
    ops == [] || (Permitted(h, ops[0]) && Legal(Step(h, ops[0]), ops[1..]))
  }

  ghost function Exec(h: Heap, ops: seq<Op>): Heap
    requires Legal(h, ops)
    decreases |ops|
  {
    if ops == [] then h else Exec(Step(h, ops[0]), ops[1..])
  }

  lemma {:induction false} ExecKeepsValid(h: Heap, ops: seq<Op>)
    requires Valid(h) && Legal(h, ops)
    ensures Valid(Exec(h, ops))
    decreases |ops|
  {
    hide Valid, Step, Permitted;
    if ops != [] {
      StepKeepsValid(h, ops[0]);
      ExecKeepsValid(Step(h, ops[0]), ops[1..]);
    }
  }

  lemma ValidHeap(h: Heap)
    requires Valid(h)
    ensures forall p :: p in h.live ==> BlockOk(h, p)
    ensures forall p, q :: p in h.live && q in h.live && p != q ==>
              Disjoint(p, h.live[p].size + SLOT, q, h.live[q].size + SLOT)
    ensures h.live == map[] ==> h.raw == map[]
  {
  }

  /** Over every run of matched operations from an empty heap: every block in use is aligned
      and lies with its slot inside its own raw allocation, no two of them meet, and when all
      have been given back no raw allocation is left. */
  lemma EveryRun(ops: seq<Op>)
    requires Legal(Heap(map[], map[], map[]), ops)
    ensures var h := Exec(Heap(map[], map[], map[]), ops);
            && (forall p :: p in h.live ==> BlockOk(h, p))
            && (forall p, q :: p in h.live && q in h.live && p != q ==>
                  Disjoint(p, h.live[p].size + SLOT, q, h.live[q].size + SLOT))
            && (h.live == map[] ==> h.raw == map[])
  {
    hide BlockOk, Disjoint, Step, Legal, Permitted, Exec;
    ExecKeepsValid(Heap(map[], map[], map[]), ops);
    ValidHeap(Exec(Heap(map[], map[], map[]), ops));
  }
}
