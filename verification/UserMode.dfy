/**
 What a program can reach in user mode: the permission bits of the leaves, as the hardware reads them, against the
 typing of frames and over the runs of address-space events.
 */
module UserMode {
  import opened Options
  import opened Words
  import opened Pmm
  import opened Sv39
  import opened Vmm
  import opened Fork
  import opened AddressSpaces
  import opened SpaceRuns
  import opened HeapPages
  import opened ElfLoader
  import opened ExecImage

  // --- what user mode reaches ----------------------------------------------------------------------------------------

  /** Whatever user mode reaches is a user page, and the one this address has to itself: no table, no kernel memory. */
  lemma UserReachesOwnPages(m: Mem, roles: Roles, root: nat, va: nat, access: Access, mode: Mode)
    requires WellTyped(m, roles) && IsRoot(roles, root) && mode.user && Hardware(m, root, va, access, mode).Some?
    ensures SlotOf(m, root, va).Some? && var s := SlotOf(m, root, va).value;
            var pa := Hardware(m, root, va, access, mode).value;
            && pa / PAGE_SIZE in roles && roles[pa / PAGE_SIZE] == User(s.table, s.index)
            && pa % PAGE_SIZE == va % PAGE_SIZE
  {
    hide V, R, W, X, Next, Vpn, Hardware;
    LookupAgreesWithHardware(m, roles, root, va, access, mode);
    hide U;
    UserLeaf(m, roles, root, va);
    ZeroMeansUnmapped(m, roles, root, va);
  }

  // --- the kernel's part over runs ----------------------------------------------------------------------------------

  lemma MappedLeafIsKernels(a: Moment, page: nat, b: Moment, v: nat)
    requires Good(a) && Step(a, GrowHeap(page), b) && SamePage(v, a.end)
    ensures SlotOf(b.s.m, a.kernel, v).Some? && !U(PteOf(b.s.m, a.kernel, v))
  {
    hide V, IsLeaf, U, Next, Vpn, SlotOf, SamePage, LeafPte;
    SamePageSameSlot(b.s.m, a.kernel, v, a.end);
    LeafPteFacts(page, HEAP_PERM);
  }

  lemma OnlyHeapTouchesWindow(a: Moment, e: Event, b: Moment, v: nat)
    requires Good(a) && Step(a, e, b) && Vpn(v, 2) >= 2 && !e.GrowHeap? && !e.Fill?
    ensures !Touches(a, e, a.kernel, v)
  {
  }

  lemma StepKeepsWindowClosed(a: Moment, e: Event, b: Moment)
    requires Good(a) && Step(a, e, b) && WindowClosed(a)
    ensures WindowClosed(b)
  {
    hide V, IsLeaf, U, Next, Vpn, SlotOf, Spaces, Step, SamePage;
    SpacesBasics(a.s, a.kernel, a.cloned, a.end);
    StepKeepsKernel(a, e, b);
    forall v: nat | v < VA_LIMIT && Vpn(v, 2) >= 2 && SlotOf(b.s.m, b.kernel, v).Some?
      ensures !U(PteOf(b.s.m, b.kernel, v))
    {
      if e.Fill? {
        FillKeepsLeafOf(a, e, b, a.kernel, v);
      } else if e.GrowHeap? && SamePage(v, a.end) {
        MappedLeafIsKernels(a, e.page, b, v);
      } else {
        if !e.GrowHeap? { OnlyHeapTouchesWindow(a, e, b, v); }
        StepIsConfined(a, e, b, a.kernel, v);
      }
    }
  }

  lemma BootedIsClosed(a: Moment)
    requires Booted(a)
    ensures WindowClosed(a)
  {
  }

  lemma {:induction false} RunKeepsWindowClosed(ms: seq<Moment>, es: seq<Event>, j: nat)
    requires Run(ms, es) && j < |ms|
    ensures WindowClosed(ms[j])
    decreases j
  {
    hide Good, Step, WindowClosed;
    if j > 0 {
      RunKeepsWindowClosed(ms, es, j - 1);
      TraceKeepsGood(ms, es, j - 1);
      assert Step(ms[j - 1], es[j - 1], ms[j]);
      StepKeepsWindowClosed(ms[j - 1], es[j - 1], ms[j]);
    } else {
      BootedIsClosed(ms[0]);
    }
  }

  lemma ModPlus(c: nat, x: nat)
    ensures (512 * c + x) % 512 == x % 512
  {
  }

  /** Bits 63..39 are not looked at. */
  lemma VpnWraps(va: nat)
    ensures forall l: nat :: l <= 2 ==> Vpn(va % VA_LIMIT, l) == Vpn(va, l)
  {
    var q, r := va / VA_LIMIT, va % VA_LIMIT;
    assert va == q * VA_LIMIT + r;
    assert va / 0x1000 == 512 * (q * 0x4_0000) + r / 0x1000;
    assert va / 0x20_0000 == 512 * (q * 0x200) + r / 0x20_0000;
    assert va / 0x4000_0000 == 512 * q + r / 0x4000_0000;
    ModPlus(q * 0x4_0000, r / 0x1000);
    ModPlus(q * 0x200, r / 0x20_0000);
    ModPlus(q, r / 0x4000_0000);
  }

  lemma SpacesTyped(a: Moment)
    requires Good(a)
    ensures WellTyped(a.s.m, a.s.roles)
  {
  }

  /** In every run the kernel's part is closed to user mode, through every root there is. */
  lemma KernelPartIsClosed(ms: seq<Moment>, es: seq<Event>, j: nat, r: nat, va: nat, access: Access, mode: Mode)
    requires Run(ms, es) && j < |ms| && IsRoot(ms[j].s.roles, r) && Vpn(va, 2) >= 2 && mode.user
    ensures Hardware(ms[j].s.m, r, va, access, mode) == None
  {
    hide V, R, W, X, Next, Vpn, SlotOf, Step, Spaces, Hardware;
    var a := ms[j];
    RunKeepsWindowClosed(ms, es, j);
    TraceKeepsGood(ms, es, j);
    WindowCoherentInRuns(ms, es, j, j, r, va);
    SpacesTyped(a);
    LookupAgreesWithHardware(a.s.m, a.s.roles, r, va, access, mode);
    VpnWraps(va);
    SamePageSameSlot(a.s.m, a.kernel, va % VA_LIMIT, va);
  }

  // --- pages of a program -------------------------------------------------------------------------------------------

  lemma ZeroLeadsNowhere()
    ensures Next(0) == 0
  {
  }

  /** After a served page fault every access of the program to the page succeeds, at the fresh frame. */
  lemma ServedFaultIsOver(a: Snapshot, b: Snapshot, root: nat, addr: nat, access: Access, mode: Mode)
    requires Consistent(b) && IsRoot(b.roles, root) && addr < KERNEL_BASE && DemandPaged(a, b, root, addr) && mode.user
    ensures Hardware(b.m, root, addr, access, mode)
            == Some(Next(PteOf(b.m, root, addr)) * PAGE_SIZE + addr % PAGE_SIZE)
  {
    hide V, R, W, X, U, Next, Vpn, SlotOf, Hardware;
    var f := Next(PteOf(b.m, root, addr));
    ZeroLeadsNowhere();
    LeafPteFacts(f, Perm(true, true, true, true));
    LeafAccess(b.m, b.roles, root, addr, Perm(true, true, true, true), access, mode);
  }

  /** A forked child may do at each address exactly what its parent may. */
  lemma ForkKeepsAccess(s: Snapshot, s': Snapshot, parent: nat, child: nat, va: nat, access: Access, mode: Mode)
    requires Consistent(s) && Consistent(s') && IsRoot(s.roles, parent)
    requires Allocates(s, s', {}) && RootCloned(s, s', parent, child, 2)
    ensures Hardware(s'.m, child, va, access, mode).Some? <==> Hardware(s.m, parent, va, access, mode).Some?
  {
    ForkTranslates(s, s', parent, child, va);
    assert IsRoot(s'.roles, child);
    hide V, R, W, X, U, Next, Vpn, SlotOf, Hardware, Allocates, RootCloned, Permits;
    LookupAgreesWithHardware(s.m, s.roles, parent, va, access, mode);
    LookupAgreesWithHardware(s'.m, s'.roles, child, va, access, mode);
    FlagsDecide(PteOf(s.m, parent, va), PteOf(s'.m, child, va), access, mode);
  }

  lemma UserByteAt(m: Mem, root: nat, v: nat)
    requires UserByte(m, root, v).Some?
    ensures SlotOf(m, root, v).Some? && Next(PteOf(m, root, v)) in m
            && UserByte(m, root, v) == Some(PageByte(m[Next(PteOf(m, root, v))], v % PAGE_SIZE))
  {
  }

  lemma PhysicalParts(f: nat, v: nat)
    ensures (f * PAGE_SIZE + v % PAGE_SIZE) / PAGE_SIZE == f
            && (f * PAGE_SIZE + v % PAGE_SIZE) % PAGE_SIZE == v % PAGE_SIZE
  {
  }

  /** The byte at a physical address. */
  ghost function ByteAtPa(m: Mem, pa: nat): (b: nat)
    requires pa / PAGE_SIZE in m
  {
    PageByte(m[pa / PAGE_SIZE], pa % PAGE_SIZE)
  }

  /**
   The program and its loaded segment: it may use each byte exactly as PF_X (1), PF_W (2) and PF_R (4) say, and finds
   there the byte of the file, or 0 past the part that the file holds.
   */
  lemma SegmentInUserMode(m: Mem, roles: Roles, root: nat, h: Phdr, file: File, v: nat, access: Access, mode: Mode)
    requires WellTyped(m, roles) && IsRoot(roles, root) && h.ptype == 1 && Loadable(h, file)
    requires InPlace(m, root, h, file) && h.vaddr <= v < h.vaddr + h.memsz && mode.user
    ensures var x, w, r := h.flags % 2 == 1, h.flags / 2 % 2 == 1, h.flags / 4 % 2 == 1;
            Hardware(m, root, v, access, mode).Some? <==>
              && !(w && !r)
              && (access.Load? ==> r || (mode.mxr && x)) && (access.Store? ==> w) && (access.Fetch? ==> x)
    ensures var pa := Hardware(m, root, v, access, mode);
            pa.Some? ==>
              && pa.value / PAGE_SIZE in m
              && ByteAtPa(m, pa.value) == if v < h.vaddr + h.filesz then file[h.offset + (v - h.vaddr)] else 0
  {
    hide V, R, W, X, U, Next, Vpn, SlotOf, Hardware, UserByte, PageByte;
    assert UserByte(m, root, v) == Some(ImageByte(h, file, v));
    UserByteAt(m, root, v);
    LeafAccess(m, roles, root, v, SegmentPerm(h), access, mode);
    PhysicalParts(Next(PteOf(m, root, v)), v);
  }

  /** The program may read and write its stack page, 0x7EFFF000 to 0x7F000000, and may not execute it. */
  lemma StackInUserMode(m: Mem, roles: Roles, root: nat, sp: nat, argv: seq<CStr>, v: nat, access: Access, mode: Mode)
    requires WellTyped(m, roles) && IsRoot(roles, root) && StackReady(m, root, sp, argv) && mode.user
    requires 0x7EFF_F000 <= v < 0x7F00_0000
    ensures Hardware(m, root, v, access, mode)
            == if access.Fetch? then None
               else Some(Next(PteOf(m, root, 0x7EFF_F000)) * PAGE_SIZE + (v - 0x7EFF_F000))
  {
    hide V, R, W, X, U, Next, Vpn, SlotOf, Hardware, UserByte, PageByte, ArgvOnPage;
    SamePageIsSamePageNumber(v, STACK_BOTTOM);
    SamePageSameSlot(m, root, v, STACK_BOTTOM);
    assert v % PAGE_SIZE == v - 0x7EFF_F000;
    LeafAccess(m, roles, root, v, Perm(true, true, false, true), access, mode);
  }

  lemma {:induction false} StringBytesAt(p: Page, off: nat, j: nat)
    requires off + |ReadString(p, off)| < PAGE_SIZE && j <= |ReadString(p, off)|
    ensures PageByte(p, off + j) == if j < |ReadString(p, off)| then ReadString(p, off)[j] else 0
    decreases j
  {
    hide PageByte;
    if j > 0 { StringBytesAt(p, off + 1, j - 1); }
  }

  /** Word k above the stack pointer. */
  lemma StackWord(m: Mem, roles: Roles, root: nat, sp: nat, argv: seq<CStr>, k: nat, mode: Mode)
    requires WellTyped(m, roles) && IsRoot(roles, root) && StackReady(m, root, sp, argv) && mode.user && k <= |argv|
    ensures var pa, f := Hardware(m, root, sp + 8 * k, Load, mode), Next(PteOf(m, root, 0x7EFF_F000));
            && pa.Some? && pa.value / PAGE_SIZE == f && f in m
            && pa.value % PAGE_SIZE / 8 == (sp - 0x7EFF_F000) / 8 + k
  {
    hide V, R, W, X, U, Next, Vpn, SlotOf, PteOf, Hardware, UserByte, PageByte, EntryReads;
    var f, v := Next(PteOf(m, root, 0x7EFF_F000)), sp + 8 * k;
    StackInUserMode(m, roles, root, sp, argv, v, Load, mode);
    assert v % PAGE_SIZE == v - 0x7EFF_F000;
    PhysicalParts(f, v);
  }

  /**
   What the new program finds through its stack pointer: argc pointers, the i-th to the bytes of the i-th argument and a
   terminator, and then a null pointer.
   */
  lemma ArgvInUserMode(m: Mem, roles: Roles, root: nat, sp: nat, argv: seq<CStr>, i: nat, j: nat, mode: Mode)
    requires WellTyped(m, roles) && IsRoot(roles, root) && StackReady(m, root, sp, argv) && mode.user
    requires i < |argv| && j <= |argv[i]|
    ensures sp % 8 == 0 && 0x7EFF_F000 <= sp && sp + 8 * (|argv| + 1) <= 0x7F00_0000
    ensures var pa := Hardware(m, root, sp + 8 * |argv|, Load, mode);
            pa.Some? && pa.value / PAGE_SIZE in m && m[pa.value / PAGE_SIZE][pa.value % PAGE_SIZE / 8] == 0
    ensures var pa := Hardware(m, root, sp + 8 * i, Load, mode);
            && pa.Some? && pa.value / PAGE_SIZE in m
            && var ptr := m[pa.value / PAGE_SIZE][pa.value % PAGE_SIZE / 8];
               var pb := Hardware(m, root, ptr + j, Load, mode);
               && pb.Some? && pb.value / PAGE_SIZE in m
               && ByteAtPa(m, pb.value) == if j < |argv[i]| then argv[i][j] else 0
  {
    hide V, R, W, X, U, Next, Vpn, SlotOf, PteOf, Hardware, UserByte, PageByte, ReadString;
    var f := Next(PteOf(m, root, 0x7EFF_F000));
    var p := m[f];
    var base := (sp - STACK_BOTTOM) / 8;
    assert EntryReads(p, sp, argv, i);
    var ptr := p[base + i];
    StackWord(m, roles, root, sp, argv, |argv|, mode);
    StackWord(m, roles, root, sp, argv, i, mode);
    StackInUserMode(m, roles, root, sp, argv, ptr + j, Load, mode);
    PhysicalParts(f, ptr + j);
    StringBytesAt(p, ptr - STACK_BOTTOM, j);
  }
}
