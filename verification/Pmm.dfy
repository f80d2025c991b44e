/**
 pmm.c: the physical frame allocator.

 The bitmap lives in the first frames of the very memory it manages, one bit per frame, packed eight to a byte.
 `frames` is all of RAM.  The ghost fields give the view the rest of the kernel uses: `mem`, the frames outside
 the bitmap, and `free`, the frames the bitmap marks free.
 */
module Pmm {
  import opened Words

  /** Physical addresses have 56 bits, so frame numbers have 44. */
  const FRAME_LIMIT: nat := 0x1000_0000_0000

  function BitmapBytes(total: nat): nat {
    if total % 8 != 0 then total / 8 + 1 else total / 8
  }

  function BitmapPages(total: nat): nat {
    (BitmapBytes(total) + PAGE_SIZE - 1) / PAGE_SIZE
  }

  /** The address of the bitmap byte that holds the bit of frame index i. */
  function BitmapAddr(base: nat, i: nat): nat {
    base * PAGE_SIZE + i / 8
  }

  /** One frame holds the bits of 0x8000; the bitmap takes as many frames as it needs and not one more. */
  lemma BitmapIsTight(total: nat)
    ensures total <= 0x8000 * BitmapPages(total) < total + 0x8000
  {
    var bytes := BitmapBytes(total);
    assert total <= 8 * bytes < total + 8;
    assert bytes <= 0x1000 * BitmapPages(total) < bytes + 0x1000;
    assert bytes % 0x1000 == 0 || 8 * (bytes / 0x1000 * 0x1000) < total;
  }

  lemma BitmapAddrInBitmap(base: nat, total: nat, i: nat)
    requires i < total
    ensures base <= BitmapAddr(base, i) / PAGE_SIZE < base + BitmapPages(total)
    ensures BitmapPages(total) <= total
  {
  }

  function FrameRange(lo: nat, hi: nat): (s: set<nat>)
    ensures forall f: nat :: f in s <==> lo <= f < hi
    decreases hi - lo
  {
    if lo >= hi then {} else {lo} + FrameRange(lo + 1, hi)
  }

  lemma BitmapFits(total: nat)
    ensures BitmapPages(total) <= total
  {
  }

  ghost predicate HasFrames(frames: Mem, base: nat, total: nat) {
    forall f :: base <= f < base + total ==> f in frames
  }

  /** BITMAP_TEST(i) */
  predicate Marked(frames: Mem, base: nat, total: nat, i: nat)
    requires HasFrames(frames, base, total) && i < total
  {
    BitmapAddrInBitmap(base, total, i);
    Bit(ByteAt(frames, BitmapAddr(base, i)), i % 8)
  }

  /** A write outside the bitmap leaves every bit alone. */
  lemma MarkedDependsOnBitmapOnly(a: Mem, b: Mem, base: nat, total: nat, i: nat)
    requires HasFrames(a, base, total) && HasFrames(b, base, total) && i < total
    requires forall f :: base <= f < base + BitmapPages(total) && f < base + total ==> a[f] == b[f]
    ensures Marked(a, base, total, i) == Marked(b, base, total, i)
  {
    BitmapAddrInBitmap(base, total, i);
  }

  /** Rewriting one bitmap byte moves exactly the bits that live in it. */
  lemma MarkedAfterByteStore(a: Mem, base: nat, total: nat, i: nat, b: nat, j: nat)
    requires HasFrames(a, base, total) && i < total && j < total && b < 256
    requires BitmapAddr(base, i) / PAGE_SIZE in a
    ensures var addr := BitmapAddr(base, i);
            var a' := a[addr / PAGE_SIZE := SetPageByte(a[addr / PAGE_SIZE], addr % PAGE_SIZE, b)];
            Marked(a', base, total, j)
            == if j / 8 == i / 8 then Bit(b, j % 8) else Marked(a, base, total, j)
    ensures j / 8 == i / 8 ==> Marked(a, base, total, j) == Bit(ByteAt(a, BitmapAddr(base, i)), j % 8)
  {
    BitmapAddrInBitmap(base, total, i);
    BitmapAddrInBitmap(base, total, j);
    var ai, aj := BitmapAddr(base, i), BitmapAddr(base, j);
    assert ai / PAGE_SIZE == aj / PAGE_SIZE && ai % PAGE_SIZE == aj % PAGE_SIZE ==> ai == aj;
  }

  /** The bits say which frames are free, the bitmap's own excepted, and the rest of memory is what the frames hold. */
  ghost predicate Refines(frames: Mem, base: nat, total: nat, mem: Mem, free: set<nat>)
    requires HasFrames(frames, base, total)
  {
    && (forall i :: 0 <= i < BitmapPages(total) && i < total ==> Marked(frames, base, total, i))
    && (forall f :: f in free <==>
         base + BitmapPages(total) <= f < base + total && !Marked(frames, base, total, f - base))
    && mem.Keys == frames.Keys - FrameRange(base, base + BitmapPages(total))
    && (forall f :: f in mem ==> mem[f] == frames[f])
  }

  lemma UnmarkedIsFree(frames: Mem, base: nat, total: nat, mem: Mem, free: set<nat>, i: nat)
    requires HasFrames(frames, base, total) && Refines(frames, base, total, mem, free)
    requires i < total && !Marked(frames, base, total, i)
    ensures base + i in free && base + i in mem && base + i !in FrameRange(base, base + BitmapPages(total))
  {
    hide Marked, BitmapPages;
    assert base + i in frames;
  }

  /** Marking frame base + i and clearing it takes it out of the free set. */
  lemma HandedOut(frames: Mem, frames': Mem, base: nat, total: nat, mem: Mem, free: set<nat>, i: nat)
    requires HasFrames(frames, base, total) && HasFrames(frames', base, total)
             && Refines(frames, base, total, mem, free)
    requires i < total && !Marked(frames, base, total, i) && frames'.Keys == frames.Keys
    requires forall j :: 0 <= j < total ==>
               Marked(frames', base, total, j) == (j == i || Marked(frames, base, total, j))
    requires base + i in frames' && frames'[base + i] == ZeroPage()
    requires forall f :: f in frames && f !in FrameRange(base, base + BitmapPages(total)) && f != base + i ==>
             frames'[f] == frames[f]
    ensures base + i in free && base + i in mem
    ensures Refines(frames', base, total, mem[base + i := ZeroPage()], free - {base + i})
  {
    hide Marked, BitmapPages, HasFrames;
  }

  class PhysicalMemory {
    var frames: Mem
    /** page_start_addr / PAGE_SIZE; the bitmap starts here too. */
    var base: nat
    var total: nat
    ghost var mem: Mem
    ghost var free: set<nat>

    ghost predicate Layout()
      reads this
    {
      && HasFrames(frames, base, total)
      && 0 < base && base + total <= FRAME_LIMIT
    }

    ghost predicate Valid()
      reads this
      ensures Valid() ==> forall f :: f in free ==> f in mem && 0 < f < FRAME_LIMIT
    {
      Layout() && Refines(frames, base, total, mem, free)
    }

    ghost function BitmapFrames(): set<nat>
      reads this
    {
      FrameRange(base, base + BitmapPages(total))
    }

    /** A word load from a frame outside the bitmap. */
    function Load(f: nat, i: nat): (w: Word)
      requires Valid() && f in mem && i < PAGE_WORDS
      reads this
      ensures w == mem[f][i]
    {
      frames[f][i]
    }

    /** The view of the memory that was set up. */
    ghost method Publish()
      requires Layout() && BitmapPages(total) <= total
      requires forall j :: 0 <= j < total ==> (Marked(frames, base, total, j) <==> j < BitmapPages(total))
      modifies this`mem, this`free
      ensures Valid() && free == FrameRange(base + BitmapPages(total), base + total) && forall f :: f in mem ==>
              mem[f] == frames[f]
    {
      hide Marked, BitmapPages;
      mem := map f | f in frames.Keys - BitmapFrames() :: frames[f];
      free := FrameRange(base + BitmapPages(total), base + total);
    }

    /** *(uint8_t *)addr = b, anywhere in RAM. */
    method StoreRaw(addr: nat, b: nat)
      requires addr / PAGE_SIZE in frames && b < 256
      modifies this`frames
      ensures frames == old(frames)[addr / PAGE_SIZE := SetPageByte(old(frames)[addr / PAGE_SIZE], addr % PAGE_SIZE, b)]
    {
      var f := addr / PAGE_SIZE;
      frames := frames[f := SetPageByte(frames[f], addr % PAGE_SIZE, b)];
    }

    /** The loop that writes zero to every byte of the bitmap. */
    method ClearBitmap()
      requires Layout()
      modifies this`frames
      ensures Layout() && frames.Keys == old(frames.Keys)
      ensures forall f :: f in frames && f !in BitmapFrames() ==> frames[f] == old(frames)[f]
      ensures forall j :: 0 <= j < total ==> !Marked(frames, base, total, j)
    {
      hide Marked, SetPageByte, BitmapPages;
      var bitmapBytes := BitmapBytes(total);
      var n := 0;
      while n < bitmapBytes
        invariant n <= bitmapBytes
        invariant frames.Keys == old(frames.Keys) && Layout()
        invariant forall f :: f in frames && f !in BitmapFrames() ==> frames[f] == old(frames)[f]
        invariant forall j :: 0 <= j < total && j / 8 < n ==> !Marked(frames, base, total, j)
      {
        ghost var before := frames;
        BitmapAddrInBitmap(base, total, 8 * n);
        StoreRaw(base * PAGE_SIZE + n, 0);
        forall j | 0 <= j < total && j / 8 < n + 1
          ensures !Marked(frames, base, total, j)
        {
          MarkedAfterByteStore(before, base, total, 8 * n, 0, j);
          BitOfZero(j % 8);
        }
        n := n + 1;
      }
    }

    /** BITMAP_SET(i) */
    method Mark(i: nat)
      requires Layout() && i < total
      modifies this`frames
      ensures Layout() && frames.Keys == old(frames.Keys)
      ensures forall f :: f in frames && f !in BitmapFrames() ==> frames[f] == old(frames)[f]
      ensures forall j :: 0 <= j < total ==>
                Marked(frames, base, total, j) == (j == i || Marked(old(frames), base, total, j))
    {
      hide Marked, SetPageByte, BitmapPages;
      BitmapAddrInBitmap(base, total, i);
      var addr := BitmapAddr(base, i);
      var b := ByteAt(frames, addr);
      ByteIsEightBits();
      BitUpdateBounds(b, i % 8, 8);
      StoreRaw(addr, SetBit(b, i % 8));
      forall j | 0 <= j < total
        ensures Marked(frames, base, total, j) == (j == i || Marked(old(frames), base, total, j))
      {
        MarkedAfterByteStore(old(frames), base, total, i, SetBit(b, i % 8), j);
        BitOfSetBit(b, i % 8, j % 8);
      }
    }

    /** The loop that marks the bitmap's own frames as taken. */
    method MarkBitmap()
      requires Layout() && BitmapPages(total) <= total
      requires forall j :: 0 <= j < total ==> !Marked(frames, base, total, j)
      modifies this`frames
      ensures Layout() && frames.Keys == old(frames.Keys)
      ensures forall f :: f in frames && f !in BitmapFrames() ==> frames[f] == old(frames)[f]
      ensures forall j :: 0 <= j < total ==> (Marked(frames, base, total, j) <==> j < BitmapPages(total))
    {
      hide Marked, BitmapPages;
      var occupied := BitmapPages(total);
      var i := 0;
      while i < occupied
        invariant i <= occupied
        invariant frames.Keys == old(frames.Keys) && Layout()
        invariant forall f :: f in frames && f !in BitmapFrames() ==> frames[f] == old(frames)[f]
        invariant forall j :: 0 <= j < total ==> (Marked(frames, base, total, j) <==> j < i)
      {
        Mark(i);
        i := i + 1;
      }
    }

    /** pmm_init over RAM whose contents so far are `ram`. */
    constructor (ram: Mem, memStart: nat, memEnd: nat)
      requires memStart % PAGE_SIZE == 0 && 0 < memStart <= memEnd
      requires memEnd <= FRAME_LIMIT * PAGE_SIZE
      requires HasFrames(ram, memStart / PAGE_SIZE, (memEnd - memStart) / PAGE_SIZE)
      ensures Valid()
      ensures base == memStart / PAGE_SIZE && total == (memEnd - memStart) / PAGE_SIZE
      ensures free == FrameRange(base + BitmapPages(total), base + total)
      ensures frames.Keys == ram.Keys
      ensures forall f :: f in mem ==> mem[f] == ram[f]
    {
      hide Marked, SetPageByte, BitmapPages;
      base, total, frames := memStart / PAGE_SIZE, (memEnd - memStart) / PAGE_SIZE, ram;
      new;
      BitmapFits(total);
      ClearBitmap();
      MarkBitmap();
      Publish();
    }

    /** BITMAP_CLEAR(i) */
    method Unmark(i: nat)
      requires Layout() && i < total
      modifies this`frames
      ensures Layout() && frames.Keys == old(frames.Keys)
      ensures forall f :: f in frames && f !in BitmapFrames() ==> frames[f] == old(frames)[f]
      ensures forall j :: 0 <= j < total ==>
                Marked(frames, base, total, j) == (j != i && Marked(old(frames), base, total, j))
    {
      hide Marked, SetPageByte, BitmapPages;
      BitmapAddrInBitmap(base, total, i);
      var addr := BitmapAddr(base, i);
      var b := ByteAt(frames, addr);
      ByteIsEightBits();
      BitUpdateBounds(b, i % 8, 8);
      StoreRaw(addr, ClearBit(b, i % 8));
      forall j | 0 <= j < total
        ensures Marked(frames, base, total, j) == (j != i && Marked(old(frames), base, total, j))
      {
        MarkedAfterByteStore(old(frames), base, total, i, ClearBit(b, i % 8), j);
        BitOfClearBit(b, i % 8, j % 8);
      }
    }

    /** Clears the 512 words of a frame that is not part of the bitmap. */
    method Zero(f: nat)
      requires Layout() && f in frames && f !in BitmapFrames()
      modifies this`frames
      ensures Layout() && frames == old(frames)[f := ZeroPage()]
      ensures forall j :: 0 <= j < total ==> Marked(frames, base, total, j) == Marked(old(frames), base, total, j)
    {
      hide Marked, BitmapPages;
      var w := 0;
      while w < PAGE_WORDS
        invariant w <= PAGE_WORDS
        invariant f in frames && frames == old(frames)[f := frames[f]]
        invariant forall k :: 0 <= k < w ==> frames[f][k] == 0
      {
        frames := frames[f := frames[f][w := 0]];
        w := w + 1;
      }
      assert frames[f] == ZeroPage();
      forall j | 0 <= j < total
        ensures Marked(frames, base, total, j) == Marked(old(frames), base, total, j)
      {
        MarkedDependsOnBitmapOnly(frames, old(frames), base, total, j);
      }
    }

    /** Marks the unmarked frame base + i and clears it. */
    method HandOut(i: nat)
      requires Valid() && i < total && !Marked(frames, base, total, i)
      modifies this
      ensures Valid() && base == old(base) && total == old(total) && base + i in old(free)
      ensures free == old(free) - {base + i} && mem == old(mem)[base + i := ZeroPage()]
    {
      hide Marked, SetPageByte, BitmapPages, Refines;
      ghost var f, before := base + i, frames;
      UnmarkedIsFree(frames, base, total, mem, free, i);
      Mark(i);
      Zero(base + i);
      HandedOut(before, frames, base, total, mem, free, i);
      mem := mem[f := ZeroPage()];
      free := free - {f};
    }

    /** pmm_alloc_frame; ok is false where the kernel panics. */
    method AllocFrame() returns (ok: bool, f: nat)
      requires Valid()
      modifies this
      ensures Valid()
      ensures ok <==> old(free) != {}
      ensures ok ==> f in old(free) && (forall g :: g in old(free) ==> f <= g)
      ensures ok ==> free == old(free) - {f} && mem == old(mem)[f := ZeroPage()]
      ensures !ok ==> free == old(free) && mem == old(mem)
    {
      hide Marked, SetPageByte, BitmapPages;
      ok, f := false, 0;
      var i := 0;
      while i < total
        invariant i <= total
        invariant forall j :: 0 <= j < i ==> Marked(frames, base, total, j)
      {
        if !Marked(frames, base, total, i) {
          HandOut(i);
          return true, base + i;
        }
        i := i + 1;
      }
    }

    /** A word store to a frame outside the bitmap. */
    method Store(f: nat, i: nat, w: Word)
      requires Valid() && f in mem && i < PAGE_WORDS
      modifies this`frames, this`mem
      ensures Valid()
      ensures mem == old(mem)[f := old(mem)[f][i := w]]
    {
      hide Marked, SetPageByte, BitmapPages;
      frames := frames[f := frames[f][i := w]];
      mem := mem[f := frames[f]];
      forall j | 0 <= j < total
        ensures Marked(frames, base, total, j) == Marked(old(frames), base, total, j)
      {
        MarkedDependsOnBitmapOnly(frames, old(frames), base, total, j);
      }
    }

    /** A byte store to a frame outside the bitmap. */
    method StoreByte(f: nat, off: nat, b: nat)
      requires Valid() && f in mem && off < PAGE_SIZE && b < 256
      modifies this`frames, this`mem
      ensures Valid()
      ensures mem == old(mem)[f := SetPageByte(old(mem)[f], off, b)]
    {
      hide Marked, SetPageByte, BitmapPages;
      StoreRaw(f * PAGE_SIZE + off, b);
      mem := mem[f := frames[f]];
      forall j | 0 <= j < total
        ensures Marked(frames, base, total, j) == Marked(old(frames), base, total, j)
      {
        MarkedDependsOnBitmapOnly(frames, old(frames), base, total, j);
      }
    }

    /**
     pmm_free_frame.  The checks catch a bad address and a double free, but not a frame of the bitmap itself:
     freeing one succeeds and, by the last clause, is exactly what breaks the allocator.
     */
    method FreeFrame(pa: nat) returns (ok: bool)
      requires Valid()
      modifies this
      ensures ok <==> pa % PAGE_SIZE == 0 && old(base) <= pa / PAGE_SIZE < old(base) + old(total)
                      && Marked(old(frames), old(base), old(total), pa / PAGE_SIZE - old(base))
      ensures !ok ==> Valid() && free == old(free) && mem == old(mem)
      ensures ok && pa / PAGE_SIZE !in old(BitmapFrames()) ==>
                Valid() && free == old(free) + {pa / PAGE_SIZE} && pa / PAGE_SIZE !in old(free) && mem == old(mem)
      ensures ok ==> (Valid() <==> pa / PAGE_SIZE !in old(BitmapFrames()))
    {
      hide Marked, SetPageByte, BitmapPages;
      if pa < base * PAGE_SIZE || pa >= base * PAGE_SIZE + total * PAGE_SIZE {
        return false;
      }
      if pa % PAGE_SIZE != 0 {
        return false;
      }
      var idx := (pa - base * PAGE_SIZE) / PAGE_SIZE;
      assert idx == pa / PAGE_SIZE - base;
      if !Marked(frames, base, total, idx) {
        return false;
      }
      Unmark(idx);
      ok := true;
      if base + idx !in BitmapFrames() {
        free := free + {base + idx};
      }
    }
  }
}
