/** any_completion_handler_impl::allocate and deallocate over an explicit heap of bytes. */
module AlignedAllocator {
  import opened Numerals
  import opened AllocatorModel

  class ByteHeap {
    var mem: map<nat, byte>
    var raw: map<nat, nat>

    /** The blocks that users hold; the program does not keep them. */
    ghost var live: map<nat, Block>

    ghost function View(): Heap
      reads this
    {
      Heap(mem, raw, live)
    }

    constructor ()
      ensures View() == Heap(map[], map[], map[])
    {
      mem, raw, live := map[], map[], map[];
    }

    /** The underlying allocator, which here puts the allocation at `base`. */
    method RawAllocate(n: nat, base: nat)
      requires Free(View(), base, n)
      modifies this`raw
      ensures raw == old(raw)[base := n]
    {
      raw := raw[base := n];
    }

    /** The underlying allocator takes back what it handed out, with its own length. */
    method RawDeallocate(base: nat, n: nat)
      requires base in raw && raw[base] == n
      modifies this`raw
      ensures raw == old(raw) - {base}
    {
      raw := raw - {base};
    }

    /** memcpy of the offset into the slot */
    method StoreSlot(a: nat, off: nat, ghost base: nat)
      requires InsideRaw(raw, base, a, SLOT)
      modifies this`mem
      ensures mem == Poke(old(mem), a, Bytes(off, SLOT))
    {
      mem := Poke(mem, a, Bytes(off, SLOT));
    }

    /** memcpy of the slot into an offset */
    method LoadSlot(a: nat, ghost base: nat) returns (slot: seq<byte>)
      requires InsideRaw(raw, base, a, SLOT)
      requires forall x :: a <= x < a + SLOT ==> x in mem
      ensures |slot| == SLOT && forall k :: 0 <= k < SLOT ==> a + k in mem && slot[k] == mem[a + k]
    {
      slot := [];
      while |slot| < SLOT
        invariant |slot| <= SLOT
        invariant forall k :: 0 <= k < |slot| ==> slot[k] == mem[a + k]
      {
        slot := slot + [mem[a + |slot|]];
      }
    }

    /** allocate(size, align); std::align never fails here, so that bad_alloc is not thrown. */
    method Allocate(size: nat, align: nat, where: nat) returns (p: nat)
      requires Valid(View()) && Permitted(View(), AllocatorModel.Allocate(size, align, where))
      modifies this
      ensures p != 0 && p == RoundUp(where, align) && Aligned(p, align) && p !in old(live)
      ensures View() == old(Step(View(), AllocatorModel.Allocate(size, align, where)))
      ensures Valid(View())
    {
      hide Valid, Poke, RoundUp, Aligned, Bytes;
      AllocateKeepsValid(View(), size, align, where);
      var space := size + align - 1;
      var base := where;
      RawAllocate(space + SLOT, base);
      p := Align(align, size, base, space);
      if p != 0 {
        var off := p - base;
        StoreSlot(p + size, off, base);
        live := live[p := Block(size, align, base)];
      }
    }

    /** deallocate(p, size, align), with the size and alignment that p was allocated with. */
    method Deallocate(p: nat, size: nat, align: nat)
      requires Valid(View()) && Permitted(View(), AllocatorModel.Deallocate(p, size, align))
      modifies this
      ensures View() == old(Step(View(), AllocatorModel.Deallocate(p, size, align)))
      ensures Valid(View())
    {
      hide Valid;
      StepKeepsValid(View(), AllocatorModel.Deallocate(p, size, align));
      if p != 0 {
        SlotReadable(View(), p);
        var slot := LoadSlot(p + size, live[p].base);
        SlotLeadsBack(View(), p, slot);
        var off := R256.Value(slot);
        var base := p - off;
        RawDeallocate(base, size + align - 1 + SLOT);
        live := live - {p};
      }
    }

    /** The user of block p stores a byte in it. */
    method Write(p: nat, i: nat, b: byte)
      requires Valid(View()) && Permitted(View(), AllocatorModel.Write(p, i, b))
      modifies this`mem
      ensures View() == old(Step(View(), AllocatorModel.Write(p, i, b)))
      ensures Valid(View())
    {
      hide Valid;
      WriteKeepsValid(View(), p, i, b);
      mem := mem[p + i := b];
    }

    /** any_completion_handler_allocator<T>::allocate(n): room for n elements, or null where
        it throws because the handler it came from has no table. */
    method AllocateElements(hasTable: bool, n: nat, sizeofT: nat, alignofT: nat, where: nat) returns (p: nat)
      requires Valid(View()) && Permitted(View(), AllocatorModel.Allocate(sizeofT * n, alignofT, where))
      modifies this
      ensures Valid(View())
      ensures p == 0 <==> !hasTable
      ensures hasTable ==> View() == old(Step(View(), AllocatorModel.Allocate(sizeofT * n, alignofT, where)))
      ensures !hasTable ==> View() == old(View())
    {
      if !hasTable {
        return 0;
      }
      p := Allocate(sizeofT * n, alignofT, where);
    }
  }
}
