/**
 The running kernel's address spaces, updated in place: boot, the tables that exec and fork make, demand paging, heap
 growth and user stores.
 */
module KernelSpaces {
  import opened Options
  import opened Words
  import opened Pmm
  import opened Sv39
  import opened Vmm
  import opened Fork
  import opened AddressSpaces
  import opened SpaceRuns
  import opened HeapPages
  import opened KernelMode

  // --- exec's root ---------------------------------------------------------------------------------------------

  /** for (i = 0; i < 512; i++) user_pagetable[i] = kernel_pagetable[i] */
  method CopyRoot(vm: Vmm, root: nat)
    requires vm.Typed() && IsRoot(vm.roles, vm.kernelPagetable) && IsRoot(vm.roles, root) && root != vm.kernelPagetable
    requires root in vm.ram.mem && vm.kernelPagetable in vm.ram.mem
    modifies vm.ram`mem, vm.ram`frames
    ensures vm.Typed() && vm.ram.mem == old(vm.ram.mem)[root := old(vm.ram.mem)[vm.kernelPagetable]]
  {
    hide V, IsLeaf, U, Next, PhysicalMemory.Valid, WellTyped;
    var i := 0;
    while i < 512
      invariant i <= 512 && vm.Typed() && root in vm.ram.mem
      invariant vm.ram.mem == old(vm.ram.mem)[root := vm.ram.mem[root]]
      invariant forall j :: 0 <= j < i ==> vm.ram.mem[root][j] == old(vm.ram.mem)[vm.kernelPagetable][j]
    {
      ShareSlot(vm, vm.kernelPagetable, root, i);
      i := i + 1;
    }
    assert vm.ram.mem[root] == old(vm.ram.mem)[vm.kernelPagetable];
  }

  // --- the operations ---------------------------------------------------------------------------------------------

  datatype Fault = Resumed | Killed | Halted

  /** A served fault as one step. */
  lemma MapStep(a: Moment, b: Moment, root: nat, va: nat, page: nat, perm: Perm)
    requires Good(a) && Consistent(b.s) && IsRoot(a.s.roles, root) && root != a.kernel && va < KERNEL_BASE && perm.u
    requires b.kernel == a.kernel && b.cloned == a.cloned && b.end == a.end && page in a.s.free && page < FRAME_LIMIT
    requires var s := WithFrame(a.s, page); Mapped(s.m, s.roles, s.free, root, va, page, perm, b.s.m, b.s.roles,
             b.s.free)
    ensures Step(a, MapPage(root, va, page, perm), b) && Confined(a, b, root)
  {
    hide V, IsLeaf, U, Next, SlotOf, Mapped, Discipline, HeapFrontier, WellTyped, Confined, Worked;
    var e := MapPage(root, va, page, perm);
    assert Step(a, e, b);
    WorkedStep(a, e, b, root);
    WorkedIsConfined(a, b, root);
  }

  /** One turn of the loop of expand_heap as one step. */
  lemma GrowStep(a: Moment, b: Moment, page: nat)
    requires Good(a) && Consistent(b.s) && a.end < HEAP_LIMIT && page in a.s.free && 0 < page < FRAME_LIMIT
    requires b.kernel == a.kernel && b.cloned == a.cloned && b.end == a.end + PAGE_SIZE
    requires var s := WithFrame(a.s, page); Mapped(s.m, s.roles, s.free, a.kernel, a.end, page, HEAP_PERM, b.s.m,
             b.s.roles,
             b.s.free)
    ensures Good(b) && Step(a, GrowHeap(page), b) && RolesKept(a.s.roles, b.s.roles)
    ensures forall v :: HEAP_START <= v < b.end ==>
              SlotOf(b.s.m, a.kernel, v).Some? == (v >= a.end || SlotOf(a.s.m, a.kernel, v).Some?)
  {
    hide V, IsLeaf, U, Next, Vpn, SlotOf, WellTyped, Discipline, SamePage, OnlySlot;
    assert Step(a, GrowHeap(page), b);
    StepKeepsGood(a, GrowHeap(page), b);
    StepKeepsRoles(a, GrowHeap(page), b);
    SpacesBasics(a.s, a.kernel, a.cloned, a.end);
    forall v | HEAP_START <= v < b.end
      ensures SlotOf(b.s.m, a.kernel, v).Some? == (v >= a.end || SlotOf(a.s.m, a.kernel, v).Some?)
    {
      SamePageIsSamePageNumber(v, a.end);
      SlotOfKept(a.s, WithFrame(a.s, page), a.kernel, v);
    }
  }

  /** The physical address of a mapped heap address. */
  lemma HeapAddressIs(s: Snapshot, kernel: nat, va: nat)
    requires Consistent(s) && IsRoot(s.roles, kernel) && SlotOf(s.m, kernel, va).Some?
    ensures var pa := LookupPage(s.m, kernel, va);
            pa / PAGE_SIZE == HeapFrame(s.m, kernel, va) && pa % PAGE_SIZE == va % PAGE_SIZE
  {
    hide V, IsLeaf, U, Next, Vpn;
    ZeroMeansUnmapped(s.m, s.roles, kernel, va);
  }

  /** No leaf of the kernel's table has the U bit. */
  ghost predicate Closed(m: Mem, kernel: nat) {
    forall v: nat :: v < VA_LIMIT && SlotOf(m, kernel, v).Some? ==> !U(PteOf(m, kernel, v))
  }

  lemma FreshFrameKeepsClosed(m: Mem, roles: Roles, kernel: nat, f: nat)
    requires WellTyped(m, roles) && IsRoot(roles, kernel) && f !in roles && Closed(m, kernel)
    ensures Closed(m[f := ZeroPage()], kernel)
  {
    hide V, IsLeaf, U, Next, Vpn;
    var m' := m[f := ZeroPage()];
    forall v: nat | v < VA_LIMIT && SlotOf(m', kernel, v).Some?
      ensures !U(PteOf(m', kernel, v))
    {
      WalkIsThreeSteps(m, roles, kernel, v);
    }
  }

  lemma FirstPageClosed(a: Snapshot, b: Snapshot, kernel: nat, page: nat, perm: Perm)
    requires Consistent(a) && Consistent(b) && IsRoot(a.roles, kernel) && Closed(a.m, kernel) && !perm.u
    requires 0 < page < FRAME_LIMIT
    requires Mapped(a.m, a.roles, a.free, kernel, HEAP_START, page, perm, b.m, b.roles, b.free)
    ensures Closed(b.m, kernel)
  {
    hide V, IsLeaf, U, Next, Vpn, SlotOf, LeafPte, SamePage;
    LeafPteFacts(page, perm);
    forall v: nat | v < VA_LIMIT && SlotOf(b.m, kernel, v).Some?
      ensures !U(PteOf(b.m, kernel, v))
    {
      if SlotOf(b.m, kernel, v) != SlotOf(b.m, kernel, HEAP_START) {
        MappedKeepsOtherPtes(a.m, a.roles, a.free, kernel, HEAP_START, page, perm, b.m, b.roles, b.free, kernel, v);
      }
    }
  }

  /** The kernel's table maps RAM and devices as it should. */
  ghost predicate RootWired(m: Mem, kernel: nat) {
    forall v: nat :: InRam(v) || InDevice(v) ==> WiredAt(m, kernel, v)
  }

  lemma FreshFrameKeepsWired(m: Mem, roles: Roles, kernel: nat, f: nat)
    requires WellTyped(m, roles) && IsRoot(roles, kernel) && f !in roles && RootWired(m, kernel)
    ensures RootWired(m[f := ZeroPage()], kernel)
  {
    hide V, IsLeaf, U, Next, Vpn, InRam, InDevice;
    forall v: nat | InRam(v) || InDevice(v)
      ensures WiredAt(m[f := ZeroPage()], kernel, v)
    {
      assert WiredAt(m, kernel, v);
      WalkIsThreeSteps(m, roles, kernel, v);
    }
  }

  lemma FirstPageWired(a: Snapshot, b: Snapshot, kernel: nat, page: nat, perm: Perm)
    requires Consistent(a) && Consistent(b) && IsRoot(a.roles, kernel) && RootWired(a.m, kernel)
    requires 0 < page < FRAME_LIMIT
    requires Mapped(a.m, a.roles, a.free, kernel, HEAP_START, page, perm, b.m, b.roles, b.free)
    ensures RootWired(b.m, kernel)
  {
    hide V, IsLeaf, U, Next, Vpn, SlotOf, PteOf, Mapped, InRam, InDevice, WellTyped;
    forall v: nat | InRam(v) || InDevice(v)
      ensures WiredAt(b.m, kernel, v)
    {
      assert WiredAt(a.m, kernel, v);
      MappedKeepsLeaf(a, b, kernel, HEAP_START, page, perm, kernel, v);
    }
  }

  lemma ClosedWired(a: Moment)
    requires Closed(a.s.m, a.kernel) && RootWired(a.s.m, a.kernel)
    requires forall r :: IsRoot(a.s.roles, r) ==> r == a.kernel
    ensures WindowClosed(a) && Wired(a)
  {
    hide U, SlotOf, WiredAt, InRam, InDevice;
  }

  class KernelSpaces {
    const vm: Vmm
    /** current_heap_end */
    var heapEnd: nat
    /** The roots made by fork. */
    ghost var cloned: set<nat>

    constructor (vm: Vmm)
      ensures this.vm == vm && cloned == {} && heapEnd == HEAP_START
    {
      this.vm := vm;
      heapEnd := HEAP_START;
      cloned := {};
    }

    ghost predicate Valid()
      reads this, vm, vm.ram
    {
      vm.Typed() && Spaces(Now(vm), vm.kernelPagetable, cloned, heapEnd)
    }

    ghost function At(): Moment
      reads this, vm, vm.ram
    {
      Moment(Now(vm), vm.kernelPagetable, cloned, heapEnd)
    }

    lemma InitIsKernelOnly()
      requires vm.Typed() && vm.MapsIdentically(DEVICE_PAGES +
               FrameRange(KERNEL_RAM / PAGE_SIZE, KERNEL_RAM_END / PAGE_SIZE))
      ensures KernelOnly(Now(vm), vm.kernelPagetable)
    {
      hide V, SlotOf, PteOf, WellTyped, PhysicalMemory.Valid, FrameRange;
      var k := vm.kernelPagetable;
      assert 0x1000_0000 / PAGE_SIZE in DEVICE_PAGES
             && KERNEL_RAM / PAGE_SIZE in FrameRange(KERNEL_RAM / PAGE_SIZE, KERNEL_RAM_END / PAGE_SIZE);
      MappedSlotIsValid(vm.ram.mem, vm.roles, k, 0x1000_0000);
      MappedSlotIsValid(vm.ram.mem, vm.roles, k, KERNEL_RAM);
    }

    lemma InitIsClosed()
      requires vm.Typed() && vm.MapsIdentically(DEVICE_PAGES +
               FrameRange(KERNEL_RAM / PAGE_SIZE, KERNEL_RAM_END / PAGE_SIZE))
      ensures forall v: nat :: v < VA_LIMIT && SlotOf(vm.ram.mem, vm.kernelPagetable, v).Some? ==>
                !U(PteOf(vm.ram.mem, vm.kernelPagetable, v))
    {
      hide V, U, SlotOf, PteOf, WellTyped, PhysicalMemory.Valid, FrameRange, LeafPte;
      forall v: nat | v < VA_LIMIT && SlotOf(vm.ram.mem, vm.kernelPagetable, v).Some?
        ensures !U(PteOf(vm.ram.mem, vm.kernelPagetable, v))
      {
        LeafPteFacts(v / PAGE_SIZE, KernelPerm(v));
      }
    }

    lemma InitIsWired()
      requires vm.Typed() && vm.MapsIdentically(DEVICE_PAGES +
               FrameRange(KERNEL_RAM / PAGE_SIZE, KERNEL_RAM_END / PAGE_SIZE))
      ensures RootWired(vm.ram.mem, vm.kernelPagetable)
    {
      hide V, U, SlotOf, PteOf, WellTyped, PhysicalMemory.Valid;
      forall v: nat | InRam(v) || InDevice(v)
        ensures WiredAt(vm.ram.mem, vm.kernelPagetable, v)
      {
        assert v < VA_LIMIT && v / PAGE_SIZE in DEVICE_PAGES
               + FrameRange(KERNEL_RAM / PAGE_SIZE, KERNEL_RAM_END / PAGE_SIZE);
      }
    }

    /** What vmm_init leaves. */
    ghost predicate Fresh()
      reads this, vm, vm.ram
    {
      && vm.Typed() && KernelOnly(Now(vm), vm.kernelPagetable)
      && Closed(vm.ram.mem, vm.kernelPagetable) && RootWired(vm.ram.mem, vm.kernelPagetable)
    }

    lemma FreshFrameKeepsFresh(m0: Mem, f: nat)
      requires WellTyped(m0, vm.roles) && f !in vm.roles && vm.ram.mem == m0[f := ZeroPage()] && vm.Typed()
      requires KernelOnly(Snapshot(m0, vm.roles, vm.ram.free + {f}), vm.kernelPagetable)
      requires Closed(m0, vm.kernelPagetable) && RootWired(m0, vm.kernelPagetable)
      ensures Fresh() && SlotOf(vm.ram.mem, vm.kernelPagetable, HEAP_START) == None
    {
      hide V, IsLeaf, U, Next, Vpn, SlotOf, Closed, RootWired, PhysicalMemory.Valid;
      FreshFrameKeepsClosed(m0, vm.roles, vm.kernelPagetable, f);
      FreshFrameKeepsWired(m0, vm.roles, vm.kernelPagetable, f);
      HeapAddress(HEAP_START);
      if SlotOf(vm.ram.mem, vm.kernelPagetable, HEAP_START).Some? {
        MappedSlotIsValid(vm.ram.mem, vm.roles, vm.kernelPagetable, HEAP_START);
      }
    }

    /** The page that heap_init maps. */
    method FirstPage() returns (ok: bool)
      requires Fresh() && cloned == {} && heapEnd == HEAP_START
      modifies this`heapEnd, vm`roles, vm.ram
      ensures !ok ==> vm.ram.free == {}
      ensures ok ==> Valid() && heapEnd == HEAP_START + PAGE_SIZE && Booted(At())
      ensures ok ==> HeapOwned(At()) && NewPagesClear(At(), HEAP_START)
    {
      hide V, IsLeaf, U, Next, Vpn, SlotOf, PhysicalMemory.Valid, WellTyped, Mapped, HeapOwned, NewPagesClear,
           Closed, WiredAt;
      var page;
      ghost var m0 := vm.ram.mem;
      ok, page := vm.ram.AllocFrame();
      if !ok { return; }
      WellTypedOutside(m0, vm.roles, page, ZeroPage());
      FreshFrameKeepsFresh(m0, page);
      ghost var a := Now(vm);
      ok := vm.MapPage(vm.kernelPagetable, heapEnd, page * PAGE_SIZE, Perm(true, true, false, false));
      if !ok { return; }
      FirstHeapPage(a, Now(vm), vm.kernelPagetable, page, Perm(true, true, false, false));
      FirstPageClosed(a, Now(vm), vm.kernelPagetable, page, Perm(true, true, false, false));
      FirstPageWired(a, Now(vm), vm.kernelPagetable, page, Perm(true, true, false, false));
      heapEnd := heapEnd + PAGE_SIZE;
      FirstPageOwned(a, At(), page);
      ClosedWired(At());
    }

    /** vmm_init, then the page that heap_init maps: from here on Valid holds for good. */
    method Boot() returns (ok: bool)
      requires vm.ram.Valid() && vm.roles == map[] && cloned == {} && heapEnd == HEAP_START
      modifies this`heapEnd, vm`kernelPagetable, vm`roles, vm.ram
      ensures !ok ==> vm.ram.free == {}
      ensures ok ==> Valid() && heapEnd == HEAP_START + PAGE_SIZE && Booted(At())
      ensures ok ==> HeapOwned(At()) && NewPagesClear(At(), HEAP_START)
    {
      hide V, IsLeaf, U, Next, Vpn, SlotOf, PhysicalMemory.Valid, WellTyped, Mapped, HeapOwned, NewPagesClear,
           RootWired, Booted;
      ok := vm.Init();
      if !ok { return; }
      InitIsKernelOnly();
      InitIsClosed();
      InitIsWired();
      ok := FirstPage();
    }

    /** A page mapped below 0x80000000 through a process root. */
    method MapUser(root: nat, va: nat, page: nat, perm: Perm) returns (ok: bool)
      requires Valid() && IsRoot(vm.roles, root) && root != vm.kernelPagetable && va < KERNEL_BASE
      requires Usable(perm) && perm.u && page in vm.ram.mem && 0 < page < FRAME_LIMIT && page !in vm.roles
               && page !in vm.ram.free
      modifies vm`roles, vm.ram
      ensures ok <==>
                SlotOf(old(vm.ram.mem), root, va) == None
                && |old(vm.ram.free)| >= MissingTables(old(vm.ram.mem), root, va)
      ensures !ok && SlotOf(old(vm.ram.mem), root, va) == None ==> vm.ram.free == {}
      ensures ok ==> Valid()
      ensures ok ==> Mapped(old(vm.ram.mem), old(vm.roles), old(vm.ram.free), root, va, page, perm, vm.ram.mem,
              vm.roles, vm.ram.free)
    {
      hide V, IsLeaf, U, Next, SlotOf, PhysicalMemory.Valid, WellTyped, Mapped, Discipline, HeapFrontier;
      ghost var a := Now(vm);
      ok := vm.MapPage(root, va, page * PAGE_SIZE, perm);
      if ok {
        UserMapKeepsSpaces(a, Now(vm), vm.kernelPagetable, cloned, heapEnd, root, va, page, perm);
      }
    }

    /** The page-fault branch of trap_handler; `root` is current->pagetable. */
    method PageFault(root: Option<nat>, addr: nat, fromUser: bool) returns (fault: Fault)
      requires Valid() && (root.Some? ==> IsRoot(vm.roles, root.value) && root.value != vm.kernelPagetable)
      modifies vm`roles, vm.ram
      ensures fault != Halted ==> Valid()
      ensures fault.Killed? ==> Now(vm) == old(Now(vm))
      ensures fault.Resumed? <==>
                && 0x1000 <= addr < 0x8000_0000 && root.Some? && LookupPage(old(vm.ram.mem), root.value, addr) == 0
                && |old(vm.ram.free)| > MissingTables(old(vm.ram.mem), root.value, addr)
      ensures fault.Killed? <==>
                && addr < 0x8000_0000 && root.Some?
                && (addr < 0x1000 || (fromUser && LookupPage(old(vm.ram.mem), root.value, addr) != 0))
      ensures fault.Resumed? ==> DemandPaged(old(Now(vm)), Now(vm), root.value, addr)
      ensures fault.Resumed? ==> exists page: nat ::
                Step(old(At()), MapPage(root.value, addr / PAGE_SIZE * PAGE_SIZE, page, Perm(true, true, true, true)),
                    At())
      ensures fault.Resumed? ==> Confined(old(At()), At(), root.value)
    {
      hide V, IsLeaf, U, Next, SlotOf, PhysicalMemory.Valid, WellTyped, Mapped, Discipline, HeapFrontier, Confined;
      var aligned := addr / PAGE_SIZE * PAGE_SIZE;
      if addr >= KERNEL_BASE || root.None? {
        return Halted;
      }
      if addr < PAGE_SIZE {
        return Killed;
      }
      ghost var a := Now(vm);
      ZeroMeansUnmapped(a.m, a.roles, root.value, aligned);
      ZeroMeansUnmapped(a.m, a.roles, root.value, addr);
      AlignedSamePage(a.m, root.value, addr);
      var pa := vm.Lookup(root.value, aligned);
      if pa != 0 {
        return if fromUser then Killed else Halted;
      }
      var ok, page := vm.ram.AllocFrame();
      if !ok {
        return Halted;
      }
      WellTypedOutside(a.m, a.roles, page, ZeroPage());
      ghost var b := Now(vm);
      AllocKeepsSpaces(a, b, vm.kernelPagetable, cloned, heapEnd, page);
      SlotOfKept(a, b, root.value, addr);
      SlotOfKept(a, b, root.value, aligned);
      MissingTablesKept(a, b, root.value, aligned);
      ok := MapUser(root.value, aligned, page, Perm(true, true, true, true));
      if !ok {
        return Halted;
      }
      DemandPagedBy(a, b, Now(vm), root.value, addr, page);
      MapStep(old(At()), At(), root.value, aligned, page, Perm(true, true, true, true));
      fault := Resumed;
    }

    /** The part of exec that makes a table: a frame, cleared, then the 512 entries of the kernel root. */
    method NewExecRoot() returns (ok: bool, root: nat)
      requires Valid()
      modifies vm`roles, vm.ram
      ensures ok <==> old(vm.ram.free) != {}
      ensures !ok ==> vm.ram.free == {}
      ensures ok ==> Valid() && root in old(vm.ram.free) && vm.ram.free == old(vm.ram.free) - {root}
      ensures ok ==> Step(old(At()), NewRoot(root), At())
      ensures ok ==> vm.roles == old(vm.roles)[root := Root]
      ensures ok ==> vm.ram.mem == old(vm.ram.mem)[root := old(vm.ram.mem)[vm.kernelPagetable]]
    {
      hide V, IsLeaf, U, Next, SlotOf, PhysicalMemory.Valid, WellTyped, Discipline, HeapFrontier;
      ghost var a := Now(vm);
      ok, root := vm.ram.AllocFrame();
      if !ok { return; }
      SpacesBasics(a, vm.kernelPagetable, cloned, heapEnd);
      WellTypedNewRoot(a.m, a.roles, root);
      vm.roles := vm.roles[root := Root];
      CopyRoot(vm, root);
      NewExecRootKeepsSpaces(a, Now(vm), vm.kernelPagetable, cloned, heapEnd, root);
    }

    /** fork's clone_user_pagetable(current->pagetable). */
    method ForkRoot(parent: nat) returns (ok: bool, child: nat)
      requires Valid() && IsRoot(vm.roles, parent)
      modifies this`cloned, vm`roles, vm.ram
      ensures !ok ==> vm.ram.free == {}
      ensures ok ==> Valid() && cloned == old(cloned) + {child} && child in old(vm.ram.free)
      ensures ok ==> Allocates(old(Now(vm)), Now(vm), {}) && RootCloned(old(Now(vm)), Now(vm), parent, child, 2)
      ensures ok ==> Step(old(At()), Clone(parent, child), At())
    {
      hide V, IsLeaf, U, Next, SlotOf, PhysicalMemory.Valid, WellTyped, Discipline, HeapFrontier, MidCloned;
      ghost var a := Now(vm);
      ok, child := CloneUserPagetable(vm, parent);
      if ok {
        ForkKeepsSpaces(a, Now(vm), vm.kernelPagetable, cloned, heapEnd, parent, child);
        cloned := cloned + {child};
      }
    }

    /** The body of the loop of expand_heap. */
    method HeapPage() returns (ok: bool)
      requires Valid() && heapEnd < HEAP_LIMIT
      modifies this`heapEnd, vm`roles, vm.ram
      ensures !ok ==> vm.ram.free == {}
      ensures ok ==> Valid() && heapEnd == old(heapEnd) + PAGE_SIZE
      ensures ok ==> exists page: nat :: Step(old(At()), GrowHeap(page), At())
      ensures ok ==> RolesKept(old(vm.roles), vm.roles)
      ensures ok ==> forall a :: HEAP_START <= a < heapEnd ==>
                SlotOf(vm.ram.mem, vm.kernelPagetable, a).Some? == (a >= old(heapEnd)
                    || SlotOf(old(vm.ram.mem), vm.kernelPagetable, a).Some?)
    {
      hide V, IsLeaf, U, Next, Vpn, SlotOf, PhysicalMemory.Valid, WellTyped, Discipline, SamePage, Mapped, Step;
      ghost var a := At();
      var page;
      ok, page := vm.ram.AllocFrame();
      if !ok { return; }
      AllocKeepsSpaces(a.s, Now(vm), vm.kernelPagetable, cloned, heapEnd, page);
      SpacesBasics(Now(vm), vm.kernelPagetable, cloned, heapEnd);
      ok := vm.MapPage(vm.kernelPagetable, heapEnd, page * PAGE_SIZE, Perm(true, true, false, false));
      if !ok { return; }
      heapEnd := heapEnd + PAGE_SIZE;
      GrowStep(a, At(), page);
    }

    /** The loop of expand_heap: maps fresh frames at the end of the heap, for every root at once. */
    method ExpandHeap(size: nat) returns (ok: bool)
      requires Valid() && heapEnd + (size + PAGE_SIZE - 1) / PAGE_SIZE * PAGE_SIZE <= HEAP_LIMIT
      modifies this`heapEnd, vm`roles, vm.ram
      ensures !ok ==> vm.ram.free == {}
      ensures ok ==> Valid() && heapEnd == old(heapEnd) + (size + PAGE_SIZE - 1) / PAGE_SIZE * PAGE_SIZE
      ensures ok ==> OnlyHeap(old(At()), At())
      ensures ok ==> forall r, a :: IsRoot(vm.roles, r) && old(heapEnd) <= a < heapEnd ==>
              SlotOf(vm.ram.mem, r, a).Some?
      ensures ok && old(HeapOwned(At())) ==> Grew(old(At()), At())
      ensures ok ==> exists es: seq<Event> :: Path(old(At()), es, At()) && forall k :: 0 <= k < |es| ==> es[k].GrowHeap?
    {
      hide V, IsLeaf, U, Next, Vpn, SlotOf, PhysicalMemory.Valid, WellTyped, Discipline, HeapFrontier, Mapped, SamePage,
           OnlyHeap, Path, Step, HeapOwned, Grew;
      var pagesNeeded := (size + PAGE_SIZE - 1) / PAGE_SIZE;
      var i := 0;
      ghost var es: seq<Event> := [];
      PathOfNothing(At());
      OnlyHeapItself(At());
      if HeapOwned(At()) { GrewNothing(At()); }
      SpacesBasics(Now(vm), vm.kernelPagetable, cloned, heapEnd);
      while i < pagesNeeded
        invariant i <= pagesNeeded && Valid() && HEAP_START <= old(heapEnd) && heapEnd == old(heapEnd) + i * PAGE_SIZE
        invariant forall a :: old(heapEnd) <= a < heapEnd ==> SlotOf(vm.ram.mem, vm.kernelPagetable, a).Some?
        invariant OnlyHeap(old(At()), At())
        invariant old(HeapOwned(At())) ==> Grew(old(At()), At())
        invariant Path(old(At()), es, At()) && forall k :: 0 <= k < |es| ==> es[k].GrowHeap?
      {
        SpacesBasics(Now(vm), vm.kernelPagetable, cloned, heapEnd);
        ghost var before := At();
        ok := HeapPage();
        if !ok { return; }
        ghost var page: nat :| Step(before, GrowHeap(page), At());
        GrowthIsOnlyHeap(before, GrowHeap(page), At());
        OnlyHeapTransitive(old(At()), before, At());
        if old(HeapOwned(At())) { GrewStep(old(At()), before, GrowHeap(page), At()); }
        PathOfStep(before, GrowHeap(page), At());
        PathConcat(old(At()), es, before, [GrowHeap(page)], At());
        es := es + [GrowHeap(page)];
        i := i + 1;
      }
      ok := true;
      SpacesBasics(Now(vm), vm.kernelPagetable, cloned, heapEnd);
      forall r, a | IsRoot(vm.roles, r) && old(heapEnd) <= a < heapEnd
        ensures SlotOf(vm.ram.mem, r, a).Some?
      {
        HeapAddress(a);
        KernelWindowCoherence(Now(vm), vm.kernelPagetable, cloned, heapEnd, r, a);
      }
    }

    lemma HeapUsable(va: nat, access: Access)
      requires Valid() && HeapOwned(At()) && HEAP_START <= va < heapEnd && !access.Fetch?
      ensures forall mode: Mode :: !mode.user ==>
                Hardware(vm.ram.mem, vm.kernelPagetable, va, access, mode)
                == Some(HeapFrame(vm.ram.mem, vm.kernelPagetable, va) * PAGE_SIZE + va % PAGE_SIZE)
    {
      hide Spaces, HeapOwned, HeapFrame, Hardware, PhysicalMemory.Valid;
      SpacesBasics(Now(vm), vm.kernelPagetable, cloned, heapEnd);
      forall mode: Mode | !mode.user
        ensures Hardware(vm.ram.mem, vm.kernelPagetable, va, access, mode)
                == Some(HeapFrame(vm.ram.mem, vm.kernelPagetable, va) * PAGE_SIZE + va % PAGE_SIZE)
      {
        HeapAccess(At(), va, vm.kernelPagetable, access, mode);
      }
    }

    /** A load of the kernel from its heap, through its own table. */
    method LoadHeap(va: nat) returns (w: Word)
      requires Valid() && HeapOwned(At()) && HEAP_START <= va < heapEnd && va % 8 == 0
      ensures Owned(At(), va) && w == HeapWord(At(), va)
      ensures forall mode: Mode :: !mode.user ==>
                Hardware(vm.ram.mem, vm.kernelPagetable, va, Load, mode)
                == Some(HeapFrame(vm.ram.mem, vm.kernelPagetable, va) * PAGE_SIZE + va % PAGE_SIZE)
    {
      hide Hardware, V, IsLeaf, U, Next, Vpn, SlotOf, PhysicalMemory.Valid, WellTyped, Discipline, HeapFrontier;
      HeapUsable(va, Load);
      assert Owned(At(), va);
      SpacesBasics(Now(vm), vm.kernelPagetable, cloned, heapEnd);
      HeapAddressIs(Now(vm), vm.kernelPagetable, va);
      var pa := vm.Lookup(vm.kernelPagetable, va);
      w := vm.ram.Load(pa / PAGE_SIZE, pa % PAGE_SIZE / 8);
    }

    /** A store of the kernel to its heap. */
    method StoreHeap(va: nat, w: Word)
      requires Valid() && HeapOwned(At()) && HEAP_START <= va < heapEnd && va % 8 == 0
      modifies vm.ram
      ensures Valid() && HeapOwned(At()) && Now(vm).roles == old(Now(vm)).roles && vm.ram.free == old(vm.ram.free)
      ensures exists contents: Page :: Step(old(At()), PutHeap(va, contents), At())
      ensures forall mode: Mode :: !mode.user ==>
                Hardware(old(vm.ram.mem), vm.kernelPagetable, va, Store, mode)
                == Some(HeapFrame(old(vm.ram.mem), vm.kernelPagetable, va) * PAGE_SIZE + va % PAGE_SIZE)
      ensures OnlyHeap(old(At()), At())
      ensures forall v :: HEAP_START <= v < heapEnd && v % 8 == 0 ==>
                Owned(old(At()), v) && Owned(At(), v) &&
                HeapWord(At(), v) == if v == va then w else HeapWord(old(At()), v)
    {
      hide Hardware, V, IsLeaf, U, Next, Vpn, SlotOf, PhysicalMemory.Valid, WellTyped, Discipline, HeapFrontier, PteOf,
           OnlyHeap;
      HeapUsable(va, Store);
      ghost var a := At();
      assert Owned(a, va);
      SpacesBasics(Now(vm), vm.kernelPagetable, cloned, heapEnd);
      HeapAddressIs(Now(vm), vm.kernelPagetable, va);
      var pa := vm.Lookup(vm.kernelPagetable, va);
      vm.ram.Store(pa / PAGE_SIZE, pa % PAGE_SIZE / 8, w);
      WellTypedOutside(a.s.m, a.s.roles, pa / PAGE_SIZE, vm.ram.mem[pa / PAGE_SIZE]);
      assert WordPut(a, At(), va, w);
      PutStep(a, At(), va, w);
      PutIsOnlyHeap(a, PutHeap(va, vm.ram.mem[pa / PAGE_SIZE]), At());
      forall v | HEAP_START <= v < heapEnd && v % 8 == 0
        ensures Owned(a, v) && Owned(At(), v) && HeapWord(At(), v) == if v == va then w else HeapWord(a, v)
      {
        PutWord(a, At(), va, w, v);
      }
    }

    /** A user-mode store through `root`. */
    method UserStore(root: nat, va: nat, b: nat)
      requires Valid() && IsRoot(vm.roles, root) && b < 256
      requires SlotOf(vm.ram.mem, root, va).Some? && U(PteOf(vm.ram.mem, root, va))
      modifies vm.ram
      ensures Valid()
      ensures exists contents: Page :: Step(old(At()), Fill(root, va, contents), At())
      ensures forall t: nat, a: nat :: IsRoot(vm.roles, t) ==>
                SlotOf(vm.ram.mem, t, a) == SlotOf(old(vm.ram.mem), t, a)
                && UserByte(vm.ram.mem, t, a)
                   == if SlotOf(old(vm.ram.mem), t, a) == SlotOf(old(vm.ram.mem), root, va)
                       && a % PAGE_SIZE == va % PAGE_SIZE
                      then Some(b) else UserByte(old(vm.ram.mem), t, a)
    {
      hide V, IsLeaf, U, Next, Vpn, SlotOf, PteOf, UserByte, LookupPage, PhysicalMemory.Valid, WellTyped, SetPageByte,
           Discipline, HeapFrontier;
      ghost var s := Now(vm);
      var pa := vm.Lookup(root, va);
      UserAddress(s, root, va);
      vm.ram.StoreByte(pa / PAGE_SIZE, pa % PAGE_SIZE, b);
      UserStoreKeepsSpaces(s, vm.kernelPagetable, cloned, heapEnd, pa / PAGE_SIZE, vm.ram.mem[pa / PAGE_SIZE]);
      assert Step(old(At()), Fill(root, va, vm.ram.mem[pa / PAGE_SIZE]), At());
      forall t: nat, a: nat | IsRoot(vm.roles, t)
        ensures SlotOf(vm.ram.mem, t, a) == SlotOf(s.m, t, a)
        ensures UserByte(vm.ram.mem, t, a) == if SlotOf(s.m, t, a) == SlotOf(s.m, root, va)
                && a % PAGE_SIZE == va % PAGE_SIZE
                                              then Some(b) else UserByte(s.m, t, a)
      {
        UserStoreIsLocal(s, root, va, b, t, a);
      }
    }
  }
}
