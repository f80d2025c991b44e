/**
 elf.c: load_elf_map, the page-by-page loader, and the image it leaves in the new address space.
 */
module ElfLoader {
  import opened Options
  import opened Words
  import opened Pmm
  import opened Sv39
  import opened Vmm
  import opened Fork
  import opened AddressSpaces
  import opened SpaceRuns
  import opened KernelSpaces

  const PT_LOAD: nat := 1

  /** The fields of Elf64_Phdr that the loader reads. */
  datatype Phdr = Phdr(ptype: nat, flags: nat, offset: nat, vaddr: nat, filesz: nat, memsz: nat)

  type File = f: seq<nat> | forall i :: 0 <= i < |f| ==> f[i] < 256

  function SegmentPerm(h: Phdr): Perm {
    Perm(h.flags / 4 % 2 == 1, h.flags / 2 % 2 == 1, h.flags % 2 == 1, true)
  }

  function PageDown(a: nat): nat { a / PAGE_SIZE * PAGE_SIZE }

  function PageUp(a: nat): nat { (a + 0xFFF) / PAGE_SIZE * PAGE_SIZE }

  function Start(h: Phdr): nat { PageDown(h.vaddr) }

  function End(h: Phdr): nat { PageUp(h.vaddr + h.memsz) }

  /** The pages of a segment. */
  predicate Covers(h: Phdr, a: nat) {
    h.ptype == PT_LOAD && Start(h) <= a < End(h)
  }

  /** They are the pages that hold a byte of it. */
  lemma PagesOfSegment(h: Phdr, a: nat)
    requires h.ptype == 1 && h.memsz > 0
    ensures Covers(h, a) <==> exists b: nat :: h.vaddr <= b < h.vaddr + h.memsz && b / 4096 == a / 4096
  {
    var first, last := h.vaddr, h.vaddr + h.memsz - 1;
    assert Start(h) == first / 4096 * 4096 && End(h) == (last / 4096 + 1) * 4096;
    if Covers(h, a) {
      assert first / 4096 <= a / 4096 <= last / 4096;
      var b := if a < first then first else if a > last then last else a;
      assert h.vaddr <= b < h.vaddr + h.memsz && b / 4096 == a / 4096;
    }
  }

  /** What the System V gABI, chapter 5, requires of a PT_LOAD header, and user space of its place. */
  predicate Loadable(h: Phdr, file: File) {
    h.ptype == PT_LOAD ==>
      && h.filesz <= h.memsz
      && h.offset + h.filesz <= |file|
      && h.vaddr + h.memsz <= KERNEL_BASE
      && Usable(SegmentPerm(h))
  }

  /** The byte the image should have at v: the file's, then zeros. */
  function ImageByte(h: Phdr, file: File, v: nat): (b: nat)
    requires h.offset + h.filesz <= |file|
    ensures b < 256
  {
    if h.vaddr <= v < h.vaddr + h.filesz then file[h.offset + (v - h.vaddr)] else 0
  }

  /** The low ten bits of the entries the loader writes. */
  function SegmentFlags(h: Phdr): nat { Flags(SegmentPerm(h)) + 1 + 64 + 128 }

  /** The part [lo, hi) of a segment reads as it should. */
  ghost predicate Loaded(m: Mem, root: nat, h: Phdr, file: File, lo: nat, hi: nat)
    requires h.offset + h.filesz <= |file|
  {
    forall v: nat :: lo <= v < hi ==>
      UserByte(m, root, v) == Some(ImageByte(h, file, v)) && PteOf(m, root, v) % 0x400 == SegmentFlags(h)
  }

  /** Header h, if it is a PT_LOAD one, is completely in place. */
  ghost predicate InPlace(m: Mem, root: nat, h: Phdr, file: File) {
    h.ptype == PT_LOAD && Loadable(h, file) ==> Loaded(m, root, h, file, Start(h), End(h))
  }

  /** Outside [lo, hi) root translates and reads as before. */
  ghost predicate KeptOutside(m: Mem, m': Mem, root: nat, lo: nat, hi: nat) {
    forall a: nat :: a < VA_LIMIT && !(lo <= a < hi) ==> Same(m, m', root, a)
  }

  /** memcpy(page + off, data, |data|) into one frame. */
  method CopyIn(ram: PhysicalMemory, f: nat, off: nat, data: File)
    requires ram.Valid() && f in ram.mem && off + |data| <= PAGE_SIZE
    modifies ram`mem, ram`frames
    ensures ram.Valid() && f in ram.mem && ram.mem == old(ram.mem)[f := ram.mem[f]]
    ensures forall o :: 0 <= o < PAGE_SIZE ==>
              PageByte(ram.mem[f], o) == if off <= o < off + |data| then data[o - off] else PageByte(old(ram.mem)[f], o)
  {
    hide PhysicalMemory.Valid, SetPageByte, PageByte;
    var i := 0;
    while i < |data|
      invariant i <= |data| && ram.Valid() && f in ram.mem
      invariant ram.mem == old(ram.mem)[f := ram.mem[f]]
      invariant forall o :: 0 <= o < PAGE_SIZE ==>
                  PageByte(ram.mem[f], o) == if off <= o < off + i then data[o - off] else PageByte(old(ram.mem)[f], o)
    {
      ram.StoreByte(f, off + i, data[i]);
      i := i + 1;
    }
  }

  /** A page mapped and filled through root: two steps. */
  lemma NewPageIsWork(a: Moment, b: Moment, c: Moment, root: nat, va: nat, page: nat, perm: Perm, contents: Page)
    requires Good(a) && Consistent(b.s) && Consistent(c.s) && IsRoot(a.s.roles, root) && root != a.kernel
             && va < KERNEL_BASE && perm.u
    requires b.kernel == a.kernel && b.cloned == a.cloned && b.end == a.end && page in a.s.free
             && 0 < page < FRAME_LIMIT
    requires var s := WithFrame(a.s, page); Mapped(s.m, s.roles, s.free, root, va, page, perm, b.s.m, b.s.roles,
             b.s.free)
    requires c == b.(s := b.s.(m := b.s.m[page := contents]))
    ensures Worked(a, c, root)
  {
    hide V, IsLeaf, U, Next, LeafPte, SlotOf, WellTyped, Discipline, HeapFrontier, Worked, OnlySlot;
    LeafPteFacts(page, perm);
    WorkedStep(a, MapPage(root, va, page, perm), b, root);
    WorkedStep(b, Fill(root, va, contents), c, root);
    WorkedTransitive(a, b, c, root);
  }

  /** The copy of one page's part of the file into the page's frame. */
  method FillPage(ram: PhysicalMemory, page: nat, h: Phdr, file: File, va: nat)
    requires ram.Valid() && page in ram.mem && ram.mem[page] == ZeroPage()
    requires h.ptype == PT_LOAD && Loadable(h, file)
    modifies ram`mem, ram`frames
    ensures ram.Valid() && page in ram.mem && ram.mem == old(ram.mem)[page := ram.mem[page]]
    ensures forall o :: 0 <= o < PAGE_SIZE ==> PageByte(ram.mem[page], o) == ImageByte(h, file, va + o)
  {
    hide PhysicalMemory.Valid, SetPageByte, PageByte;
    var copyStart := if va > h.vaddr then va else h.vaddr;
    var copyEnd := if va + PAGE_SIZE < h.vaddr + h.filesz then va + PAGE_SIZE else h.vaddr + h.filesz;
    forall o: nat | o < PAGE_SIZE
      ensures PageByte(ZeroPage(), o) == 0
    {
      ZeroPageBytes(o);
    }
    if copyStart < copyEnd {
      var fileOff := h.offset + (copyStart - h.vaddr);
      var len := copyEnd - copyStart;
      CopyIn(ram, page, copyStart - va, file[fileOff..fileOff + len]);
    }
  }

  /** Just after the mapping the new page reads as zeros, with the permissions asked for. */
  lemma FreshPage(b: Snapshot, c: Snapshot, root: nat, va: nat, page: nat, perm: Perm)
    requires Consistent(b) && Consistent(c) && IsRoot(b.roles, root) && 0 < page < FRAME_LIMIT && perm.u
    requires page in b.m && page !in b.free && page !in b.roles && b.m[page] == ZeroPage()
    requires Mapped(b.m, b.roles, b.free, root, va, page, perm, c.m, c.roles, c.free)
    ensures page in c.m && c.m[page] == ZeroPage() && IsRoot(c.roles, root)
    ensures page in c.roles && c.roles[page].User?
    ensures SlotOf(c.m, root, va).Some? && PteOf(c.m, root, va) == LeafPte(page, perm)
  {
    hide V, IsLeaf, U, Next, Vpn, LeafPte, SlotOf;
    LeafPteFacts(page, perm);
    UserLeaf(c.m, c.roles, root, va);
  }

  lemma FreshPageReads(c: Snapshot, root: nat, va: nat, page: nat, perm: Perm, v: nat, contents: Page)
    requires Consistent(c) && IsRoot(c.roles, root) && 0 < page < FRAME_LIMIT && perm.u
    requires SlotOf(c.m, root, va).Some? && PteOf(c.m, root, va) == LeafPte(page, perm)
    requires va < VA_LIMIT && v < VA_LIMIT && v / PAGE_SIZE == va / PAGE_SIZE
    ensures var m' := c.m[page := contents];
            && UserByte(m', root, v) == Some(PageByte(contents, v % PAGE_SIZE))
            && PteOf(m', root, v) == LeafPte(page, perm) && PteOf(m', root, v) % 0x400 == Flags(perm) + 1 + 64 + 128
  {
    hide V, IsLeaf, U, Next, Vpn, LeafPte, PageByte;
    LeafPteFacts(page, perm);
    SamePageIsSamePageNumber(v, va);
    assert SlotOf(c.m, root, v) == SlotOf(c.m, root, va);
    UserLeaf(c.m, c.roles, root, v);
    WalkIsThreeSteps(c.m, c.roles, root, v);
    SlotOfUnderUserStore(c, Snapshot(c.m[page := contents], c.roles, c.free), root, v);
  }

  lemma OtherPagesKept(a: Snapshot, b: Snapshot, c: Snapshot, root: nat, va: nat, page: nat, perm: Perm, v: nat,
      contents: Page)
    requires Consistent(a) && Consistent(b) && Consistent(c) && IsRoot(a.roles, root) && perm.u
             && 0 < page < FRAME_LIMIT
    requires page in a.free && b == Snapshot(a.m[page := ZeroPage()], a.roles, a.free - {page})
    requires Mapped(b.m, b.roles, b.free, root, va, page, perm, c.m, c.roles, c.free)
    requires va < VA_LIMIT && v < VA_LIMIT && v / PAGE_SIZE != va / PAGE_SIZE
    ensures var m' := c.m[page := contents];
            && SlotOf(m', root, v) == SlotOf(a.m, root, v)
            && PteOf(m', root, v) == PteOf(a.m, root, v)
            && UserByte(m', root, v) == UserByte(a.m, root, v)
  {
    hide V, IsLeaf, U, Next, Vpn, LeafPte, PageByte, SlotOf;
    SamePageIsSamePageNumber(v, va);
    SlotOfKept(a, b, root, v);
    MapKeepsUserByte(b, c, root, va, page, perm, root, v);
    FreshPage(b, c, root, va, page, perm);
    SlotOfUnderUserStore(c, Snapshot(c.m[page := contents], c.roles, c.free), root, v);
    WalkIsThreeSteps(a.m, a.roles, root, v);
    WalkIsThreeSteps(c.m, c.roles, root, v);
    if SlotOf(a.m, root, v).Some? && U(PteOf(a.m, root, v)) {
      UserLeaf(a.m, a.roles, root, v);
    }
  }

  /** The same for all of them at once. */
  lemma OutsideThePageKept(a: Snapshot, b: Snapshot, c: Snapshot, root: nat, va: nat, page: nat, perm: Perm,
      contents: Page)
    requires Consistent(a) && Consistent(b) && Consistent(c) && IsRoot(a.roles, root) && perm.u
             && 0 < page < FRAME_LIMIT
    requires page in a.free && b == Snapshot(a.m[page := ZeroPage()], a.roles, a.free - {page})
    requires Mapped(b.m, b.roles, b.free, root, va, page, perm, c.m, c.roles, c.free)
    requires va < VA_LIMIT && va % PAGE_SIZE == 0
    ensures KeptOutside(a.m, c.m[page := contents], root, va, va + PAGE_SIZE)
  {
    hide Consistent, Mapped, SlotOf, PteOf, UserByte;
    ghost var m' := c.m[page := contents];
    forall v: nat | v < VA_LIMIT && !(va <= v < va + PAGE_SIZE)
      ensures Same(a.m, m', root, v)
    {
      OtherPagesKept(a, b, c, root, va, page, perm, v, contents);
    }
  }

  /** The body of the loop over the pages of a segment. */
  method LoadPage(ks: KernelSpaces, root: nat, h: Phdr, file: File, va: nat) returns (ok: bool)
    requires ks.Valid() && IsRoot(ks.vm.roles, root) && root != ks.vm.kernelPagetable
    requires h.ptype == PT_LOAD && Loadable(h, file)
    requires va % PAGE_SIZE == 0 && va < KERNEL_BASE && SlotOf(ks.vm.ram.mem, root, va) == None
    modifies ks.vm`roles, ks.vm.ram
    ensures !ok ==> ks.vm.ram.free == {}
    ensures ok ==> ks.Valid() && IsRoot(ks.vm.roles, root)
    ensures ok ==> Loaded(ks.vm.ram.mem, root, h, file, va, va + PAGE_SIZE)
    ensures ok ==> KeptOutside(old(ks.vm.ram.mem), ks.vm.ram.mem, root, va, va + PAGE_SIZE)
    ensures ok ==> Worked(old(ks.At()), ks.At(), root)
  {
    hide V, IsLeaf, U, Next, Vpn, SlotOf, PteOf, PhysicalMemory.Valid, WellTyped, Discipline, HeapFrontier, Mapped,
         PageByte, LeafPte, Worked;
    ghost var a := Now(ks.vm);
    var perm := SegmentPerm(h);
    var page;
    ok, page := ks.vm.ram.AllocFrame();
    if !ok { return; }
    ghost var b := Now(ks.vm);
    AllocKeepsSpaces(a, b, ks.vm.kernelPagetable, ks.cloned, ks.heapEnd, page);
    SlotOfKept(a, b, root, va);
    ok := ks.MapUser(root, va, page, perm);
    if !ok { return; }
    ghost var c := Now(ks.vm);
    FreshPage(b, c, root, va, page, perm);
    ghost var mapped := ks.At();
    FillPage(ks.vm.ram, page, h, file, va);
    UserStoreKeepsSpaces(c, ks.vm.kernelPagetable, ks.cloned, ks.heapEnd, page, ks.vm.ram.mem[page]);
    NewPageIsWork(old(ks.At()), mapped, ks.At(), root, va, page, perm, ks.vm.ram.mem[page]);
    forall v: nat | va <= v < va + PAGE_SIZE
      ensures UserByte(ks.vm.ram.mem, root, v) == Some(ImageByte(h, file, v))
              && PteOf(ks.vm.ram.mem, root, v) % 0x400 == SegmentFlags(h)
    {
      assert v / PAGE_SIZE == va / PAGE_SIZE && v % PAGE_SIZE == v - va;
      FreshPageReads(c, root, va, page, perm, v, ks.vm.ram.mem[page]);
    }
    assert ks.vm.ram.mem == c.m[page := ks.vm.ram.mem[page]];
    OutsideThePageKept(a, b, c, root, va, page, perm, ks.vm.ram.mem[page]);
  }

  /** The loop over the pages of one segment. */
  method LoadSegment(ks: KernelSpaces, root: nat, h: Phdr, file: File) returns (ok: bool)
    requires ks.Valid() && IsRoot(ks.vm.roles, root) && root != ks.vm.kernelPagetable
    requires h.ptype == PT_LOAD && Loadable(h, file)
    requires forall a: nat :: Start(h) <= a < End(h) ==> SlotOf(ks.vm.ram.mem, root, a) == None
    modifies ks.vm`roles, ks.vm.ram
    ensures !ok ==> ks.vm.ram.free == {}
    ensures ok ==> ks.Valid() && IsRoot(ks.vm.roles, root)
    ensures ok ==> Loaded(ks.vm.ram.mem, root, h, file, Start(h), End(h))
    ensures ok ==> KeptOutside(old(ks.vm.ram.mem), ks.vm.ram.mem, root, Start(h), End(h))
    ensures ok ==> Worked(old(ks.At()), ks.At(), root)
  {
    hide V, IsLeaf, U, Next, Vpn, SlotOf, PteOf, UserByte, PhysicalMemory.Valid, WellTyped, Discipline, HeapFrontier,
         Consistent, Worked, KernelSpaces.Valid;
    var va := Start(h);
    WorkedNothing(ks.At(), root);
    while va < End(h)
      invariant Start(h) <= va && va % PAGE_SIZE == 0 && (va <= End(h) || va == Start(h))
      invariant ks.Valid() && IsRoot(ks.vm.roles, root)
      invariant Loaded(ks.vm.ram.mem, root, h, file, Start(h), va)
      invariant KeptOutside(old(ks.vm.ram.mem), ks.vm.ram.mem, root, Start(h), va)
      invariant Worked(old(ks.At()), ks.At(), root)
    {
      ghost var m, before := ks.vm.ram.mem, ks.At();
      assert Same(old(ks.vm.ram.mem), m, root, va);
      ok := LoadPage(ks, root, h, file, va);
      if !ok { return; }
      WorkedTransitive(old(ks.At()), before, ks.At(), root);
      forall v: nat | Start(h) <= v < va
        ensures UserByte(ks.vm.ram.mem, root, v) == Some(ImageByte(h, file, v))
                && PteOf(ks.vm.ram.mem, root, v) % 0x400 == SegmentFlags(h)
      {
        assert Same(m, ks.vm.ram.mem, root, v);
      }
      forall v: nat | v < VA_LIMIT && !(Start(h) <= v < va + PAGE_SIZE)
        ensures Same(old(ks.vm.ram.mem), ks.vm.ram.mem, root, v)
      {
        assert Same(m, ks.vm.ram.mem, root, v);
        assert Same(old(ks.vm.ram.mem), m, root, v);
      }
      va := va + PAGE_SIZE;
    }
    ok := true;
  }

  ghost predicate PagesDisjoint(hs: seq<Phdr>) {
    forall i, j, a: nat :: 0 <= i < j < |hs| && Covers(hs[i], a) ==> !Covers(hs[j], a)
  }

  /** Does some header before k cover a? */
  ghost predicate CoveredBefore(hs: seq<Phdr>, k: nat, a: nat)
    requires k <= |hs|
  {
    exists i :: 0 <= i < k && Covers(hs[i], a)
  }

  ghost predicate KeptWhereUncovered(m: Mem, m': Mem, root: nat, hs: seq<Phdr>, k: nat)
    requires k <= |hs|
  {
    forall a: nat :: a < VA_LIMIT && !CoveredBefore(hs, k, a) ==> Same(m, m', root, a)
  }

  lemma UncoveredAtFirst(m: Mem, root: nat, hs: seq<Phdr>)
    ensures KeptWhereUncovered(m, m, root, hs, 0)
  {
  }

  lemma SegmentIsUserSpace(h: Phdr, file: File)
    requires h.ptype == PT_LOAD && Loadable(h, file)
    ensures End(h) <= KERNEL_BASE
  {
  }

  lemma UnmappedStill(m0: Mem, m: Mem, root: nat, hs: seq<Phdr>, file: File, i: nat)
    requires i < |hs| && hs[i].ptype == PT_LOAD && Loadable(hs[i], file) && PagesDisjoint(hs)
    requires forall k, a: nat :: 0 <= k < |hs| && Covers(hs[k], a) ==> SlotOf(m0, root, a) == None
    requires KeptWhereUncovered(m0, m, root, hs, i)
    ensures forall a: nat :: Start(hs[i]) <= a < End(hs[i]) ==> SlotOf(m, root, a) == None
  {
    hide SlotOf, PteOf, UserByte, Start, End;
    SegmentIsUserSpace(hs[i], file);
    forall a: nat | Start(hs[i]) <= a < End(hs[i])
      ensures SlotOf(m, root, a) == None
    {
      assert Covers(hs[i], a);
      assert Same(m0, m, root, a);
    }
  }

  lemma UncoveredKept(m0: Mem, m: Mem, m': Mem, root: nat, hs: seq<Phdr>, i: nat)
    requires i < |hs| && KeptWhereUncovered(m0, m, root, hs, i)
    requires if hs[i].ptype == PT_LOAD then KeptOutside(m, m', root, Start(hs[i]), End(hs[i])) else m' == m
    ensures KeptWhereUncovered(m0, m', root, hs, i + 1)
  {
    hide SlotOf, PteOf, UserByte, Start, End;
    forall a: nat | a < VA_LIMIT && !CoveredBefore(hs, i + 1, a)
      ensures Same(m0, m', root, a)
    {
      assert !Covers(hs[i], a);
      assert Same(m0, m, root, a);
      assert m' != m ==> Same(m, m', root, a);
    }
  }

  lemma InPlaceKept(m: Mem, m': Mem, root: nat, h: Phdr, file: File, lo: nat, hi: nat)
    requires InPlace(m, root, h, file) && KeptOutside(m, m', root, lo, hi)
    requires forall a: nat :: Covers(h, a) ==> !(lo <= a < hi)
    ensures InPlace(m', root, h, file)
  {
    hide SlotOf, PteOf, UserByte, Start, End;
    if h.ptype == PT_LOAD && Loadable(h, file) {
      SegmentIsUserSpace(h, file);
      forall v: nat | Start(h) <= v < End(h)
        ensures UserByte(m', root, v) == Some(ImageByte(h, file, v)) && PteOf(m', root, v) % 0x400 == SegmentFlags(h)
      {
        assert Covers(h, v);
        assert Same(m, m', root, v);
      }
    }
  }

  lemma EarlierSegmentsKept(m: Mem, m': Mem, root: nat, hs: seq<Phdr>, file: File, i: nat)
    requires i < |hs| && hs[i].ptype == PT_LOAD && PagesDisjoint(hs)
    requires forall k :: 0 <= k < i ==> InPlace(m, root, hs[k], file)
    requires KeptOutside(m, m', root, Start(hs[i]), End(hs[i]))
    ensures forall k :: 0 <= k < i ==> InPlace(m', root, hs[k], file)
  {
    hide SlotOf, PteOf, UserByte, Start, End, InPlace;
    forall k | 0 <= k < i
      ensures InPlace(m', root, hs[k], file)
    {
      forall a: nat | Covers(hs[k], a)
        ensures !(Start(hs[i]) <= a < End(hs[i]))
      {
        assert !Covers(hs[i], a);
      }
      InPlaceKept(m, m', root, hs[k], file, Start(hs[i]), End(hs[i]));
    }
  }

  /**
   load_elf_map: every PT_LOAD segment reads as the file says, byte for byte up to filesz and zero after it, with the
   segment's permissions, nothing outside the segments' pages changes, and no other address space does, but for the
   slot 0 that the tables exec built share.  It fails only for want of frames.
   */
  method LoadElfMap(ks: KernelSpaces, root: nat, hs: seq<Phdr>, file: File) returns (ok: bool)
    requires ks.Valid() && IsRoot(ks.vm.roles, root) && root != ks.vm.kernelPagetable
    requires (forall k :: 0 <= k < |hs| ==> Loadable(hs[k], file)) && PagesDisjoint(hs)
    requires forall k, a: nat :: 0 <= k < |hs| && Covers(hs[k], a) ==> SlotOf(ks.vm.ram.mem, root, a) == None
    modifies ks.vm`roles, ks.vm.ram
    ensures !ok ==> ks.vm.ram.free == {}
    ensures ok ==> ks.Valid() && IsRoot(ks.vm.roles, root)
    ensures ok ==> forall k :: 0 <= k < |hs| ==> InPlace(ks.vm.ram.mem, root, hs[k], file)
    ensures ok ==> KeptWhereUncovered(old(ks.vm.ram.mem), ks.vm.ram.mem, root, hs, |hs|)
    ensures ok ==> Worked(old(ks.At()), ks.At(), root) && Confined(old(ks.At()), ks.At(), root)
  {
    hide V, IsLeaf, U, Next, Vpn, SlotOf, PteOf, UserByte, PhysicalMemory.Valid, WellTyped, Discipline, HeapFrontier,
         Consistent, Start, End, KeptWhereUncovered, KeptOutside, Spaces, Loaded, Worked, Confined;
    var i := 0;
    WorkedNothing(ks.At(), root);
    UncoveredAtFirst(ks.vm.ram.mem, root, hs);
    while i < |hs|
      invariant i <= |hs| && ks.Valid() && IsRoot(ks.vm.roles, root)
      invariant forall k :: 0 <= k < i ==> InPlace(ks.vm.ram.mem, root, hs[k], file)
      invariant KeptWhereUncovered(old(ks.vm.ram.mem), ks.vm.ram.mem, root, hs, i)
      invariant Worked(old(ks.At()), ks.At(), root)
    {
      if hs[i].ptype == PT_LOAD {
        ghost var m, before := ks.vm.ram.mem, ks.At();
        UnmappedStill(old(ks.vm.ram.mem), m, root, hs, file, i);
        ok := LoadSegment(ks, root, hs[i], file);
        if !ok { return; }
        WorkedTransitive(old(ks.At()), before, ks.At(), root);
        EarlierSegmentsKept(m, ks.vm.ram.mem, root, hs, file, i);
        UncoveredKept(old(ks.vm.ram.mem), m, ks.vm.ram.mem, root, hs, i);
      } else {
        UncoveredKept(old(ks.vm.ram.mem), ks.vm.ram.mem, ks.vm.ram.mem, root, hs, i);
      }
      i := i + 1;
    }
    WorkedIsConfined(old(ks.At()), ks.At(), root);
    ok := true;
  }
}
